/** Read-back of publishes under a time budget, and the drain before a peer closes (src/mcp-confirm.js). */
module Confirm {
  import opened Prelude

  const CONFIRM_TIMEOUT_MS: int := 8000
  const ID_LENGTH: nat := 64

  datatype Answer = Found(id: string) | Nothing | Failed(message: string)

  /** What the n-th pull of a run answers, and how many ticks it would like to take. */
  datatype Reply = Reply(answer: Answer, ticks: int)

  /** A pull takes at least one tick and no more than it is given. */
  function Duration(ticks: int, timeout: int): (d: int)
    ensures d >= 1 && (timeout >= 1 ==> d <= timeout)
  {
    var most := if ticks < timeout then ticks else timeout;
    if most < 1 then 1 else most
  }

  function Min(a: int, b: int): int {
    if a < b then a else b
  }

  datatype Confirmation = Confirmation(confirmed: bool, attempts: nat, elapsed: int, error: Option<string>)

  /** The rest of a confirmation that has spent `spent` and makes its next pull as the k-th. */
  function Asked(script: nat -> Reply, k: nat, id: string, timeout: int, step: int, spent: int, error: Option<string>): Confirmation
    decreases timeout - spent
  {
    if timeout - spent <= 0 then Confirmation(false, 0, spent, error)
    else
      var reply := script(k);
      var later := spent + Duration(reply.ticks, Min(step, timeout - spent));
      if reply.answer == Found(id) then Confirmation(true, 1, later, None)
      else
        var e := if reply.answer.Failed? then Some(reply.answer.message) else error;
        var rest := Asked(script, k + 1, id, timeout, step, later, e);
        rest.(attempts := rest.attempts + 1)
  }

  // ---- the drain ----------------------------------------------------------------------

  datatype Entry = Entry(id: string, topic: string, timeoutMs: Option<int>)

  datatype Line = Line(id: string, topic: string, attempts: nat, elapsed: Option<int>, reason: Option<string>)

  /** `kept` are the entries still in the map; `threw` says that an id of the wrong length ended the drain. */
  datatype Drained = Drained(
    pulls: nat, spent: int, confirmed: seq<Line>, unconfirmed: seq<Line>, kept: seq<Entry>, threw: bool)

  function Allowed(e: Entry, remaining: int): int {
    Min(remaining, if e.timeoutMs.Some? then e.timeoutMs.value else CONFIRM_TIMEOUT_MS)
  }

  function Reported(e: Entry, r: Confirmation): Line {
    Line(e.id, e.topic, r.attempts, Some(r.elapsed),
         if r.confirmed then None
         else if r.error.Some? && r.error.value != "" then r.error
         else Some("not read back within budget"))
  }

  function Exhausted(e: Entry): Line {
    Line(e.id, e.topic, 0, None, Some("drain budget exhausted"))
  }

  function Settle(script: nat -> Reply, budget: int, step: int, d: Drained, e: Entry): Drained {
    if d.threw then d.(kept := d.kept + [e])
    else if budget - d.spent <= 0 then
      d.(unconfirmed := d.unconfirmed + [Exhausted(e)], kept := d.kept + [e])
    else if |e.id| != ID_LENGTH then d.(threw := true, kept := d.kept + [e])
    else
      var r := Asked(script, d.pulls, e.id, Allowed(e, budget - d.spent), step, 0, None);
      var t := d.(pulls := d.pulls + r.attempts, spent := d.spent + r.elapsed);
      if r.confirmed then t.(confirmed := t.confirmed + [Reported(e, r)])
      else t.(unconfirmed := t.unconfirmed + [Reported(e, r)])
  }

  function After(script: nat -> Reply, budget: int, step: int, entries: seq<Entry>): Drained {
    if entries == [] then Drained(0, 0, [], [], [], false)
    else Settle(script, budget, step, After(script, budget, step, entries[..|entries| - 1]), entries[|entries| - 1])
  }

  ghost predicate DistinctIds(entries: seq<Entry>) {
    forall i, j :: 0 <= i < j < |entries| ==> entries[i].id != entries[j].id
  }

  // ---- the code ------------------------------------------------------------------------

  class Holder {
    const script: nat -> Reply
    var pulls: nat
    var clock: int

    constructor (script: nat -> Reply, clock: int)
      ensures this.script == script && this.clock == clock && pulls == 0
    {
      this.script, this.clock, pulls := script, clock, 0;
    }

    method Pull(timeout: int) returns (answer: Answer)
      modifies this
      ensures answer == script(old(pulls)).answer && pulls == old(pulls) + 1
      ensures clock == old(clock) + Duration(script(old(pulls)).ticks, timeout)
    {
      answer := script(pulls).answer;
      clock := clock + Duration(script(pulls).ticks, timeout);
      pulls := pulls + 1;
    }
  }

  method ConfirmPublished(holder: Holder, id: string, timeout: int, step: int) returns (r: Option<Confirmation>)
    modifies holder
    ensures |id| != ID_LENGTH ==> r == None && holder.pulls == old(holder.pulls) && holder.clock == old(holder.clock)
    ensures |id| == ID_LENGTH ==>
              && r == Some(Asked(holder.script, old(holder.pulls), id, timeout, step, 0, None))
              && holder.pulls == old(holder.pulls) + r.value.attempts
              && holder.clock == old(holder.clock) + r.value.elapsed
  {
    if |id| != ID_LENGTH { return None; }
    var startedAt := holder.clock;
    var attempts: nat, error: Option<string> := 0, None;
    ghost var whole := Asked(holder.script, holder.pulls, id, timeout, step, 0, None);
    while true
      invariant holder.pulls == old(holder.pulls) + attempts
      invariant var rest := Asked(holder.script, holder.pulls, id, timeout, step, holder.clock - startedAt, error);
                whole == rest.(attempts := rest.attempts + attempts)
      decreases timeout - (holder.clock - startedAt)
    {
      var remaining := timeout - (holder.clock - startedAt);
      if remaining <= 0 { break; }
      attempts := attempts + 1;
      var answer := holder.Pull(Min(step, remaining));
      if answer == Found(id) { return Some(Confirmation(true, attempts, holder.clock - startedAt, None)); }
      if answer.Failed? { error := Some(answer.message); }
    }
    return Some(Confirmation(false, attempts, holder.clock - startedAt, error));
  }

  class Inflight {
    var entries: seq<Entry>

    method Delete(ghost before: seq<Entry>, ghost e: Entry, id: string)
      requires id == e.id && DistinctIds(entries) && before <= entries
      requires |before| < |entries| && entries[|before|] == e
      modifies this
      ensures entries == before + old(entries)[|before| + 1..]
    {
      var i := 0;
      while i < |entries| && entries[i].id != id
        invariant i <= |before|
      {
        i := i + 1;
      }
      entries := entries[..i] + entries[i + 1..];
    }
  }

  method DrainInflight(inflight: Inflight, holder: Holder, budget: int, step: int) returns (d: Drained)
    requires DistinctIds(inflight.entries) && holder.pulls == 0
    modifies inflight, holder
    ensures d == After(holder.script, budget, step, old(inflight.entries))
    ensures inflight.entries == d.kept && holder.clock == old(holder.clock) + d.spent
  {
    hide Settle, Asked, DistinctIds, Allowed, Reported, Exhausted;
    var startedAt := holder.clock;
    var snapshot := inflight.entries;
    d := Drained(0, 0, [], [], [], false);
    for i := 0 to |snapshot|
      invariant d == After(holder.script, budget, step, snapshot[..i]) && !d.threw
      invariant d.pulls == holder.pulls && d.spent == holder.clock - startedAt
      invariant inflight.entries == d.kept + snapshot[i..] && DistinctIds(inflight.entries)
    {
      assert snapshot[..i + 1][..i] == snapshot[..i];
      ghost var settled := Settle(holder.script, budget, step, d, snapshot[i]);
      assert settled == After(holder.script, budget, step, snapshot[..i + 1]);
      d := DrainOne(inflight, holder, snapshot[i], d, startedAt, budget, step, snapshot[i + 1..]);
      if d.threw {
        ThrownKeepsRest(holder.script, budget, step, snapshot, i + 1);
        d := d.(kept := inflight.entries);
        return;
      }
    }
    assert snapshot[..|snapshot|] == snapshot;
  }

  /** One round of the drain; `d` holds the two lists so far, and what was kept. */
  method DrainOne(inflight: Inflight, holder: Holder, e: Entry, d: Drained, startedAt: int, budget: int, step: int,
                  ghost later: seq<Entry>) returns (r: Drained)
    requires inflight.entries == d.kept + [e] + later && DistinctIds(inflight.entries)
    requires !d.threw && d.pulls == holder.pulls && d.spent == holder.clock - startedAt
    modifies inflight, holder
    ensures r == Settle(holder.script, budget, step, d, e)
    ensures r.pulls == holder.pulls && r.spent == holder.clock - startedAt
    ensures inflight.entries == r.kept + later && DistinctIds(inflight.entries)
  {
    hide Settle, Asked, Allowed, Reported, Exhausted;
    SettleCases(holder.script, budget, step, d, e);
    var remaining := budget - (holder.clock - startedAt);
    if remaining <= 0 {
      return d.(unconfirmed := d.unconfirmed + [Exhausted(e)], kept := d.kept + [e]);
    }
    var c := ConfirmPublished(holder, e.id, Allowed(e, remaining), step);
    if c.None? { return d.(kept := d.kept + [e], threw := true); }
    r := d.(pulls := holder.pulls, spent := holder.clock - startedAt);
    if c.value.confirmed { r := r.(confirmed := d.confirmed + [Reported(e, c.value)]); }
    else { r := r.(unconfirmed := d.unconfirmed + [Reported(e, c.value)]); }
    inflight.Delete(d.kept, e, e.id);
  }

  lemma SettleCases(script: nat -> Reply, budget: int, step: int, d: Drained, e: Entry)
    requires !d.threw
    ensures var left := budget - d.spent;
            var r := Asked(script, d.pulls, e.id, Allowed(e, left), step, 0, None);
            var s := Settle(script, budget, step, d, e);
            && (left <= 0 ==> s == Drained(d.pulls, d.spent, d.confirmed, d.unconfirmed + [Exhausted(e)], d.kept + [e], false))
            && (left > 0 && |e.id| != ID_LENGTH ==>
                  s == Drained(d.pulls, d.spent, d.confirmed, d.unconfirmed, d.kept + [e], true))
            && (left > 0 && |e.id| == ID_LENGTH && r.confirmed ==>
                  s == Drained(d.pulls + r.attempts, d.spent + r.elapsed, d.confirmed + [Reported(e, r)], d.unconfirmed, d.kept, false))
            && (left > 0 && |e.id| == ID_LENGTH && !r.confirmed ==>
                  s == Drained(d.pulls + r.attempts, d.spent + r.elapsed, d.confirmed, d.unconfirmed + [Reported(e, r)], d.kept, false))
  {
  }

  /** A throw leaves everything from that entry on in the map. */
  lemma {:induction false} ThrownKeepsRest(script: nat -> Reply, budget: int, step: int, entries: seq<Entry>, n: nat)
    requires n <= |entries| && After(script, budget, step, entries[..n]).threw
    ensures var t := After(script, budget, step, entries[..n]);
            After(script, budget, step, entries) == t.(kept := t.kept + entries[n..])
    decreases |entries|
  {
    hide Asked, Allowed, Reported, Exhausted;
    if n == |entries| {
      assert entries[..n] == entries;
    } else {
      var init := entries[..|entries| - 1];
      assert init[..n] == entries[..n];
      ThrownKeepsRest(script, budget, step, init, n);
      assert init[n..] + [entries[|entries| - 1]] == entries[n..];
    }
  }

  // ---- what a confirmation promises ---------------------------------------------------------

  /** It ends within its timeout; unconfirmed it used the timeout up, and nothing it pulled was the message. */
  lemma {:induction false} AskedMeans(script: nat -> Reply, k: nat, id: string, timeout: int, step: int, spent: int, error: Option<string>)
    requires spent >= 0
    ensures var r := Asked(script, k, id, timeout, step, spent, error);
            && (timeout >= spent ==> spent <= r.elapsed <= timeout)
            && (timeout < spent ==> r.elapsed == spent)
            && (!r.confirmed && timeout >= spent ==> r.elapsed == timeout)
            && (r.confirmed ==> r.attempts >= 1 && script(k + r.attempts - 1).answer == Found(id) && r.error == None)
    ensures var r := Asked(script, k, id, timeout, step, spent, error);
            && (forall j :: k <= j < k + r.attempts - (if r.confirmed then 1 else 0) ==> script(j).answer != Found(id))
    decreases timeout - spent
  {
    if timeout > spent {
      var reply := script(k);
      var later := spent + Duration(reply.ticks, Min(step, timeout - spent));
      if reply.answer != Found(id) {
        AskedMeans(script, k + 1, id, timeout, step, later,
                   if reply.answer.Failed? then Some(reply.answer.message) else error);
      }
    }
  }

  ghost predicate NoneFailed(script: nat -> Reply, first: nat, last: nat) {
    forall j :: first <= j < last ==> !script(j).answer.Failed?
  }

  /** The j-th pull is the last of these that failed. */
  ghost predicate LastFailed(script: nat -> Reply, first: nat, last: nat, j: nat) {
    first <= j < last && script(j).answer.Failed? && NoneFailed(script, j + 1, last)
  }

  /** The error of a number of pulls: that of the last one that failed, or the one there was before. */
  ghost predicate ErrorOf(script: nat -> Reply, first: nat, last: nat, before: Option<string>, error: Option<string>) {
    || (error == before && NoneFailed(script, first, last))
    || exists j: nat :: LastFailed(script, first, last, j) && error == Some(script(j).answer.message)
  }

  lemma ErrorStep(script: nat -> Reply, k: nat, last: nat, before: Option<string>, error: Option<string>)
    requires k < last
    requires ErrorOf(script, k + 1, last, if script(k).answer.Failed? then Some(script(k).answer.message) else before, error)
    ensures ErrorOf(script, k, last, before, error)
  {
    if j: nat :| LastFailed(script, k + 1, last, j) && error == Some(script(j).answer.message) {
      assert LastFailed(script, k, last, j);
    } else if script(k).answer.Failed? {
      assert LastFailed(script, k, last, k);
    }
  }

  /** The error it reports is that of the latest pull that threw. */
  lemma {:induction false} ErrorIsLatest(script: nat -> Reply, k: nat, id: string, timeout: int, step: int, spent: int, error: Option<string>)
    ensures var r := Asked(script, k, id, timeout, step, spent, error);
            !r.confirmed ==> ErrorOf(script, k, k + r.attempts, error, r.error)
    decreases timeout - spent
  {
    hide ErrorOf;
    if timeout > spent {
      var reply := script(k);
      if reply.answer != Found(id) {
        var later := spent + Duration(reply.ticks, Min(step, timeout - spent));
        var e := if reply.answer.Failed? then Some(reply.answer.message) else error;
        ErrorIsLatest(script, k + 1, id, timeout, step, later, e);
        var rest := Asked(script, k + 1, id, timeout, step, later, e);
        if !rest.confirmed { ErrorStep(script, k, k + 1 + rest.attempts, error, rest.error); }
      }
    } else {
      NothingFailed(script, k, error);
    }
  }

  lemma NothingFailed(script: nat -> Reply, k: nat, error: Option<string>)
    ensures ErrorOf(script, k, k, error, error)
  {
  }

  /** An unconfirmed publish was asked for at least ceil(timeout / step) times. */
  lemma {:induction false} AsksOftenEnough(script: nat -> Reply, k: nat, id: string, timeout: int, step: int, spent: int, error: Option<string>)
    requires step >= 1
    ensures var r := Asked(script, k, id, timeout, step, spent, error);
            !r.confirmed ==> r.attempts * step >= timeout - spent
    decreases timeout - spent
  {
    if timeout > spent && script(k).answer != Found(id) {
      var reply := script(k);
      var took := Duration(reply.ticks, Min(step, timeout - spent));
      var e := if reply.answer.Failed? then Some(reply.answer.message) else error;
      AsksOftenEnough(script, k + 1, id, timeout, step, spent + took, e);
      OneMore(Asked(script, k + 1, id, timeout, step, spent + took, e).attempts, step);
    }
  }

  lemma OneMore(n: nat, step: int)
    ensures (n + 1) * step == n * step + step
  {
  }

  // ---- what a drain promises ------------------------------------------------------------------

  /** The drain ends within its budget, and leaves a suffix of the map, only once the budget is used up (or it threw). */
  lemma {:induction false} DrainShape(script: nat -> Reply, budget: int, step: int, entries: seq<Entry>)
    ensures var d := After(script, budget, step, entries);
            && 0 <= d.spent && (budget >= 0 ==> d.spent <= budget) && (budget < 0 ==> d.spent == 0)
            && |d.kept| <= |entries| && d.kept == entries[|entries| - |d.kept|..]
            && (d.kept != [] && !d.threw ==> d.spent >= budget)
            && (d.threw ==> d.kept != [] && |d.kept[0].id| != ID_LENGTH && d.spent < budget)
  {
    hide Settle;
    if entries != [] {
      var init, e := entries[..|entries| - 1], entries[|entries| - 1];
      DrainShape(script, budget, step, init);
      SettleShape(script, budget, step, After(script, budget, step, init), e);
      var d := After(script, budget, step, init);
      assert init[|init| - |d.kept|..] + [e] == entries[|init| - |d.kept|..];
    }
  }

  lemma SettleShape(script: nat -> Reply, budget: int, step: int, d: Drained, e: Entry)
    requires 0 <= d.spent
    ensures var s := Settle(script, budget, step, d, e);
            && d.spent <= s.spent && (d.spent <= budget ==> s.spent <= budget)
            && (d.spent >= budget || d.threw || s.threw ==> s.spent == d.spent)
            && (s.threw && !d.threw ==> |e.id| != ID_LENGTH && d.spent < budget)
            && (d.threw ==> s.threw)
            && s.kept == d.kept + (if d.threw || s.threw || d.spent >= budget then [e] else [])
  {
    if !d.threw && d.spent < budget && |e.id| == ID_LENGTH {
      AskedMeans(script, d.pulls, e.id, Allowed(e, budget - d.spent), step, 0, None);
    }
  }

  /** Whether some pull made for the i-th entry returned its id. */
  ghost predicate ReadBack(script: nat -> Reply, budget: int, step: int, entries: seq<Entry>, i: nat)
    requires i < |entries|
  {
    var d := After(script, budget, step, entries[..i]);
    var next := After(script, budget, step, entries[..i + 1]);
    exists j :: d.pulls <= j < next.pulls && script(j).answer == Found(entries[i].id)
  }

  ghost function IdsOf(lines: seq<Line>): seq<string> {
    seq(|lines|, i requires 0 <= i < |lines| => lines[i].id)
  }

  /** The ids of the first n entries that were read back (or were not), in their order. */
  ghost function Those(script: nat -> Reply, budget: int, step: int, entries: seq<Entry>, n: nat, readBack: bool): seq<string>
    requires n <= |entries|
  {
    if n == 0 then []
    else
      Those(script, budget, step, entries, n - 1, readBack)
      + if ReadBack(script, budget, step, entries, n - 1) == readBack then [entries[n - 1].id] else []
  }

  lemma SettleFiles(script: nat -> Reply, budget: int, step: int, d: Drained, e: Entry)
    requires !Settle(script, budget, step, d, e).threw
    ensures var s := Settle(script, budget, step, d, e);
            var readBack := exists j :: d.pulls <= j < s.pulls && script(j).answer == Found(e.id);
            && IdsOf(s.confirmed) == IdsOf(d.confirmed) + (if readBack then [e.id] else [])
            && IdsOf(s.unconfirmed) == IdsOf(d.unconfirmed) + (if readBack then [] else [e.id])
  {
    if d.spent < budget {
      var r := Asked(script, d.pulls, e.id, Allowed(e, budget - d.spent), step, 0, None);
      AskedMeans(script, d.pulls, e.id, Allowed(e, budget - d.spent), step, 0, None);
      hide Asked, Allowed, After;
      var s := Settle(script, budget, step, d, e);
      if r.confirmed {
        assert d.pulls <= s.pulls - 1 < s.pulls && script(s.pulls - 1).answer == Found(e.id);
      }
    }
  }

  /**
   * Unless it throws, a drain files every entry in exactly one list, oldest first: under confirmed
   * exactly those whose id one of their own pulls returned.
   */
  lemma {:induction false} DrainFiles(script: nat -> Reply, budget: int, step: int, entries: seq<Entry>, n: nat)
    requires n <= |entries| && !After(script, budget, step, entries[..n]).threw
    ensures var d := After(script, budget, step, entries[..n]);
            && IdsOf(d.confirmed) == Those(script, budget, step, entries, n, true)
            && IdsOf(d.unconfirmed) == Those(script, budget, step, entries, n, false)
  {
    if n > 0 {
      assert entries[..n][..n - 1] == entries[..n - 1];
      var d := After(script, budget, step, entries[..n - 1]);
      assert After(script, budget, step, entries[..n]) == Settle(script, budget, step, d, entries[n - 1]);
      hide IdsOf, Asked, Reported, Exhausted;
      assert !d.threw;
      hide After;
      DrainFiles(script, budget, step, entries, n - 1);
      SettleFiles(script, budget, step, d, entries[n - 1]);
    }
  }

  ghost predicate KeptLast(d: Drained) {
    && |d.kept| <= |d.unconfirmed|
    && d.unconfirmed[|d.unconfirmed| - |d.kept|..] == seq(|d.kept|, i requires 0 <= i < |d.kept| => Exhausted(d.kept[i]))
  }

  lemma KeepsOneMore(d: Drained, s: Drained, e: Entry)
    requires KeptLast(d) && s.kept == d.kept + [e] && s.unconfirmed == d.unconfirmed + [Exhausted(e)]
    ensures KeptLast(s)
  {
    hide Exhausted;
    assert s.unconfirmed[|s.unconfirmed| - |s.kept|..] == d.unconfirmed[|d.unconfirmed| - |d.kept|..] + [Exhausted(e)];
  }

  /** What is left in the map after a drain that did not throw is listed, last, as budget-exhausted. */
  lemma {:induction false} KeptAreExhausted(script: nat -> Reply, budget: int, step: int, entries: seq<Entry>)
    requires !After(script, budget, step, entries).threw
    ensures var d := After(script, budget, step, entries);
            |d.kept| <= |d.unconfirmed|
            && d.unconfirmed[|d.unconfirmed| - |d.kept|..] == seq(|d.kept|, i requires 0 <= i < |d.kept| => Exhausted(d.kept[i]))
  {
    if entries != [] {
      var init, e := entries[..|entries| - 1], entries[|entries| - 1];
      var d := After(script, budget, step, init);
      var s := After(script, budget, step, entries);
      assert s == Settle(script, budget, step, d, e);
      hide Asked, Reported, Exhausted, Allowed;
      SettleCases(script, budget, step, d, e);
      DrainShape(script, budget, step, init);
      assert !d.threw;
      hide After, Settle;
      KeptAreExhausted(script, budget, step, init);
      assert KeptLast(d);
      if d.spent >= budget { KeepsOneMore(d, s, e); } else { assert s.kept == []; }
    }
  }

  // ---- one entry of a drain --------------------------------------------------------------

  /** An entry is given its own timeout, or eight seconds, or what is left of the budget, whichever is least. */
  function Share(e: Entry, left: int): int {
    var own := if e.timeoutMs.Some? then e.timeoutMs.value else 8000;
    if own < left then own else left
  }

  /**
   * While budget is left, an entry is asked for: an unconfirmed one for exactly its share of the time. Its
   * line names it, with its pulls, its time and, if unconfirmed, the message of the last pull that failed.
   */
  lemma EntrySettles(script: nat -> Reply, budget: int, step: int, d: Drained, e: Entry)
    requires !d.threw && d.spent < budget && |e.id| == 64
    ensures var s, share := Settle(script, budget, step, d, e), Share(e, budget - d.spent);
            && !s.threw && s.kept == d.kept
            && ((s.confirmed == d.confirmed && |s.unconfirmed| == |d.unconfirmed| + 1 && s.unconfirmed[..|d.unconfirmed|] == d.unconfirmed
                 && s.spent - d.spent == (if share > 0 then share else 0)
                 && Describes(s.unconfirmed[|d.unconfirmed|], script, d, s, e))
                || (s.unconfirmed == d.unconfirmed && s.spent - d.spent <= share
                    && s.confirmed == d.confirmed + [Line(e.id, e.topic, s.pulls - d.pulls, Some(s.spent - d.spent), None)]))
  {
    var share := Share(e, budget - d.spent);
    AskedMeans(script, d.pulls, e.id, share, step, 0, None);
    ErrorIsLatest(script, d.pulls, e.id, share, step, 0, None);
    var r := Asked(script, d.pulls, e.id, share, step, 0, None);
    assert Allowed(e, budget - d.spent) == share;
    hide Asked;
    var s := Settle(script, budget, step, d, e);
    if !r.confirmed {
      assert ErrorOf(script, d.pulls, s.pulls, None, r.error);
    }
  }

  /** The line of an unconfirmed entry, between the states before and after it. */
  ghost predicate Describes(line: Line, script: nat -> Reply, d: Drained, s: Drained, e: Entry) {
    && line.id == e.id && line.topic == e.topic && line.attempts == s.pulls - d.pulls && line.elapsed == Some(s.spent - d.spent)
    && ((NoneFailed(script, d.pulls, s.pulls) && line.reason == Some("not read back within budget"))
        || exists j: nat :: LastFailed(script, d.pulls, s.pulls, j)
                            && line.reason == Some(if script(j).answer.message == "" then "not read back within budget"
                                                   else script(j).answer.message))
  }

  /** With the budget spent an entry stays in the map and is listed as not asked for. */
  lemma EntryStays(script: nat -> Reply, budget: int, step: int, d: Drained, e: Entry)
    requires !d.threw && d.spent >= budget
    ensures Settle(script, budget, step, d, e)
            == d.(unconfirmed := d.unconfirmed + [Line(e.id, e.topic, 0, None, Some("drain budget exhausted"))], kept := d.kept + [e])
  {
  }
}
