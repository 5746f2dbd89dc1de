/** What holds over every run of deliver, collect and reconnect on one watch. */
module WatchRuns {
  import opened Prelude
  import opened Watch

  datatype Op = Deliver(m: Msg) | Collect(peek: bool, max: Option<int>)

  ghost function Step(s: State, op: Op): State {
    match op
    case Deliver(m) => Delivered(s, m)
    case Collect(peek, max) => Collected(s, peek, max)
  }

  ghost function Run(s: State, ops: seq<Op>): State {
    if ops == [] then s else Step(Run(s, ops[..|ops| - 1]), ops[|ops| - 1])
  }

  // ---- conservation -----------------------------------------------------------------

  ghost function AcceptedBy(s: State, op: Op): seq<Msg> {
    if op.Deliver? && !Ignored(s, op.m) then [op.m] else []
  }

  /** What an operation takes from the front of the buffer: an eviction or a drain. */
  ghost function RemovedBy(s: State, op: Op): seq<Msg> {
    match op
    case Deliver(m) => if !Ignored(s, m) && Evicts(s) then [(s.buffer + [m])[0]] else []
    case Collect(peek, max) => if peek then [] else s.buffer[..Taken(|s.buffer|, max)]
  }

  ghost function Accepted(s: State, ops: seq<Op>): seq<Msg> {
    if ops == [] then []
    else Accepted(s, ops[..|ops| - 1]) + AcceptedBy(Run(s, ops[..|ops| - 1]), ops[|ops| - 1])
  }

  ghost function Removed(s: State, ops: seq<Op>): seq<Msg> {
    if ops == [] then []
    else Removed(s, ops[..|ops| - 1]) + RemovedBy(Run(s, ops[..|ops| - 1]), ops[|ops| - 1])
  }

  lemma StepConserves(s: State, op: Op)
    ensures s.buffer + AcceptedBy(s, op) == RemovedBy(s, op) + Step(s, op).buffer
    ensures Step(s, op).total + Step(s, op).replayed == s.total + s.replayed + |AcceptedBy(s, op)|
    ensures Step(s, op).drained + Step(s, op).dropped == s.drained + s.dropped + |RemovedBy(s, op)|
    ensures Step(s, op).cap == s.cap
    ensures |s.buffer| <= s.cap || |s.buffer| == 0 ==> |Step(s, op).buffer| <= s.cap || |Step(s, op).buffer| == 0
  {
    if op.Deliver? && !Ignored(s, op.m) { CountedAddsOne(s, op.m); }
  }

  /** Nothing is lost and nothing is invented, in order, and the buffer never outgrows its cap. */
  lemma {:induction false} RunConserves(cap: int, ops: seq<Op>)
    ensures var s := Run(Empty(cap), ops);
            && Accepted(Empty(cap), ops) == Removed(Empty(cap), ops) + s.buffer
            && s.total + s.replayed == |Accepted(Empty(cap), ops)|
            && s.drained + s.dropped == |Removed(Empty(cap), ops)|
            && s.cap == Empty(cap).cap && (|s.buffer| <= s.cap || |s.buffer| == 0)
  {
    hide Step, AcceptedBy, RemovedBy;
    if ops != [] {
      var init, op := ops[..|ops| - 1], ops[|ops| - 1];
      RunConserves(cap, init);
      StepConserves(Run(Empty(cap), init), op);
      var s, r := Run(Empty(cap), init), Removed(Empty(cap), init);
      assert Accepted(Empty(cap), ops) == r + (s.buffer + AcceptedBy(s, op));
      assert Removed(Empty(cap), ops) + Step(s, op).buffer == r + (RemovedBy(s, op) + Step(s, op).buffer);
    }
  }

  // ---- no id is buffered twice ----------------------------------------------------------

  ghost predicate Covered(s: State) {
    forall m :: m in s.buffer && m.id.Some? ==> m.id.value in s.seen
  }

  ghost predicate NoTwice(buffer: seq<Msg>) {
    forall i, j :: 0 <= i < j < |buffer| && buffer[i].id.Some? ==> buffer[i].id != buffer[j].id
  }

  /** The state a watch is in while it has remembered every id it buffered. */
  ghost predicate Tidy(s: State) {
    Indexed(s) && Covered(s) && NoTwice(s.buffer)
  }

  predicate Forgets(s: State, m: Msg) {
    m.id.Some? && m.id.value !in s.seen && |s.seenOrder| >= SEEN_CAP
  }

  lemma RememberIndexed(s: State, id: string)
    requires Indexed(s) && id !in s.seen
    ensures Indexed(Remember(s, id))
    ensures |s.seenOrder| < SEEN_CAP ==> Remember(s, id).seen == s.seen + {id}
  {
    var order := s.seenOrder + [id];
    assert Distinct(order) && s.seen + {id} == Elements(order);
    if |order| > SEEN_CAP {
      assert order == [order[0]] + order[1..];
      assert forall x :: x in order[1..] ==> x != order[0];
    }
  }

  /** A delivery keeps the watch tidy as long as it does not push an id out of memory. */
  lemma DeliverTidy(s: State, m: Msg)
    requires Tidy(s) && !Forgets(s, m)
    ensures Tidy(Delivered(s, m))
    ensures Delivered(s, m).seen == s.seen + if m.id.Some? then {m.id.value} else {}
    ensures Delivered(s, m).total == s.total + if m.id.None? || m.id.value !in s.seen then 1 else 0
  {
    hide Remember;
    if !Ignored(s, m) {
      if m.id.Some? && m.id.value !in s.seen {
        RememberIndexed(s.(total := s.total + 1), m.id.value);
        RememberKeeps(s.(total := s.total + 1), m.id.value);
      }
      var b := s.buffer + [m];
      assert NoTwice(b);
      assert forall x :: x in b[1..] ==> x in b;
    } else {
      assert s.seen == s.seen + {m.id.value};
    }
  }

  lemma RememberKeeps(s: State, id: string)
    ensures var r := Remember(s, id);
            r.buffer == s.buffer && r.total == s.total && r.cap == s.cap && r.dropped == s.dropped
  {
  }

  lemma CollectTidy(s: State, peek: bool, max: Option<int>)
    requires Tidy(s)
    ensures Tidy(Collected(s, peek, max))
  {
  }

  ghost function Ids(ops: seq<Op>): set<string> {
    if ops == [] then {}
    else
      var op := ops[|ops| - 1];
      Ids(ops[..|ops| - 1]) + if op.Deliver? && op.m.id.Some? then {op.m.id.value} else {}
  }

  ghost function Nameless(ops: seq<Op>): nat {
    if ops == [] then 0
    else
      var op := ops[|ops| - 1];
      Nameless(ops[..|ops| - 1]) + if op.Deliver? && op.m.id.None? then 1 else 0
  }

  /**
   * While at most SEEN_CAP distinct ids have arrived: no id is buffered twice, every arrived id is
   * remembered, and `total` is the number of distinct ids plus the arrivals without one.
   */
  lemma {:induction false} RunTidy(s: State, ops: seq<Op>)
    requires Tidy(s) && |s.seen + Ids(ops)| <= SEEN_CAP
    ensures Tidy(Run(s, ops)) && Run(s, ops).seen == s.seen + Ids(ops)
    ensures Run(s, ops).total == s.total + |s.seen + Ids(ops)| - |s.seen| + Nameless(ops)
  {
    hide Tidy, Step;
    if ops != [] {
      var init, op := ops[..|ops| - 1], ops[|ops| - 1];
      IdsGrow(s.seen, ops);
      RunTidy(s, init);
      RunTidyStep(Run(s, init), op);
    } else {
      assert s.seen + Ids(ops) == s.seen;
    }
  }

  lemma IdsGrow(seen: set<string>, ops: seq<Op>)
    requires ops != []
    ensures var before, op := seen + Ids(ops[..|ops| - 1]), ops[|ops| - 1];
            && |before| <= |seen + Ids(ops)|
            && seen + Ids(ops) == before + (if op.Deliver? && op.m.id.Some? then {op.m.id.value} else {})
            && |seen + Ids(ops)| == |before| + if op.Deliver? && op.m.id.Some? && op.m.id.value !in before then 1 else 0
  {
    var before, op := seen + Ids(ops[..|ops| - 1]), ops[|ops| - 1];
    if op.Deliver? && op.m.id.Some? {
      assert seen + Ids(ops) == before + {op.m.id.value};
      if op.m.id.value in before { assert before + {op.m.id.value} == before; }
    } else {
      assert seen + Ids(ops) == before;
    }
  }

  lemma RunTidyStep(s: State, op: Op)
    requires Tidy(s)
    requires op.Deliver? && op.m.id.Some? ==> |s.seen + {op.m.id.value}| <= SEEN_CAP
    ensures Tidy(Step(s, op))
    ensures Step(s, op).seen == s.seen + if op.Deliver? && op.m.id.Some? then {op.m.id.value} else {}
    ensures Step(s, op).total
            == s.total + if op.Deliver? && (op.m.id.None? || op.m.id.value !in s.seen) then 1 else 0
  {
    match op
    case Deliver(m) =>
      DistinctCardinality(s.seenOrder);
      DeliverTidy(s, m);
    case Collect(peek, max) =>
      CollectTidy(s, peek, max);
  }

  // ---- reconnects -----------------------------------------------------------------------------

  lemma {:induction false} CarriedMembers(prior: seq<Msg>, anew: seq<Msg>)
    ensures forall m :: m in Carried(prior, anew) <==> m in prior && !(m.id.Some? && Holds(anew, m.id.value))
  {
    if prior != [] {
      CarriedMembers(prior[..|prior| - 1], anew);
      assert prior == prior[..|prior| - 1] + [prior[|prior| - 1]];
    }
  }

  /** Where each carried message stood in the old buffer. */
  ghost function CarriedFrom(prior: seq<Msg>, anew: seq<Msg>): (at: seq<nat>)
    ensures |at| == |Carried(prior, anew)|
    ensures forall k :: 0 <= k < |at| ==> at[k] < |prior| && prior[at[k]] == Carried(prior, anew)[k]
    ensures forall k, l :: 0 <= k < l < |at| ==> at[k] < at[l]
  {
    if prior == [] then []
    else
      var rest, m := CarriedFrom(prior[..|prior| - 1], anew), prior[|prior| - 1];
      if m.id.Some? && Holds(anew, m.id.value) then rest else rest + [|prior| - 1]
  }

  lemma {:induction false} UnknownMembers(ids: seq<string>, seen: set<string>)
    requires Distinct(ids)
    ensures Elements(Unknown(ids, seen)) == Elements(ids) - seen && Distinct(Unknown(ids, seen))
  {
    if ids != [] {
      var init, last := ids[..|ids| - 1], ids[|ids| - 1];
      UnknownMembers(init, seen);
      assert ids == init + [last];
      assert last !in init;
      assert last !in Elements(Unknown(init, seen));
      if last !in seen { assert Elements(Unknown(init, seen) + [last]) == Elements(Unknown(init, seen)) + {last}; }
    }
  }

  lemma JoinDistinct(a: seq<string>, b: seq<string>)
    requires Distinct(a) && Distinct(b) && Elements(a) !! Elements(b)
    ensures Distinct(a + b) && Elements(a + b) == Elements(a) + Elements(b)
  {
    forall i, j | 0 <= i < j < |a + b| ensures (a + b)[i] != (a + b)[j] {
      if i < |a| <= j {
        assert a[i] in Elements(a) && b[j - |a|] in Elements(b);
      }
    }
  }

  lemma MergeIndexed(was: State, anew: State)
    requires Indexed(was) && Indexed(anew)
    ensures Indexed(Merged(was, anew)) && Merged(was, anew).seen == was.seen + anew.seen
  {
    hide Unknown, Distinct, Carried;
    UnknownMembers(was.seenOrder, anew.seen);
    JoinDistinct(anew.seenOrder, Unknown(was.seenOrder, anew.seen));
  }

  /** A merge of two tidy watches is tidy: what either had unread is there, each id once. */
  lemma MergeTidy(was: State, anew: State)
    requires Tidy(was) && Tidy(anew)
    ensures Tidy(Merged(was, anew))
    ensures forall id :: Holds(Merged(was, anew).buffer, id) <==> Holds(was.buffer, id) || Holds(anew.buffer, id)
  {
    MergeIndexed(was, anew);
    var carry := Carried(was.buffer, anew.buffer);
    CarriedMembers(was.buffer, anew.buffer);
    CarriedNoTwice(was.buffer, anew.buffer);
    forall id ensures Holds(carry + anew.buffer, id) <==> Holds(was.buffer, id) || Holds(anew.buffer, id) {
      if Holds(was.buffer, id) && !Holds(anew.buffer, id) {
        var m :| m in was.buffer && m.id == Some(id);
        assert m in carry && m in carry + anew.buffer;
      }
      if m :| m in anew.buffer && m.id == Some(id) { assert m in carry + anew.buffer; }
    }
  }

  lemma CarriedNoTwice(prior: seq<Msg>, anew: seq<Msg>)
    requires NoTwice(prior) && NoTwice(anew)
    ensures NoTwice(Carried(prior, anew) + anew)
  {
    var carry, at := Carried(prior, anew), CarriedFrom(prior, anew);
    CarriedMembers(prior, anew);
    var all := carry + anew;
    forall i, j | 0 <= i < j < |all| && all[i].id.Some? ensures all[i].id != all[j].id {
      if j < |carry| {
        assert prior[at[i]] == all[i] && prior[at[j]] == all[j];
      } else if i < |carry| {
        assert all[i] in carry && all[j] in anew;
      }
    }
  }

  ghost function NamelessOf(buffer: seq<Msg>): seq<Msg> {
    if buffer == [] then []
    else NamelessOf(buffer[..|buffer| - 1]) + if buffer[|buffer| - 1].id.None? then [buffer[|buffer| - 1]] else []
  }

  /** Messages without an id are all carried, in their order. */
  lemma {:induction false} NamelessCarried(prior: seq<Msg>, anew: seq<Msg>)
    ensures NamelessOf(Carried(prior, anew)) == NamelessOf(prior)
  {
    if prior != [] {
      var init, m := prior[..|prior| - 1], prior[|prior| - 1];
      NamelessCarried(init, anew);
      var rest := Carried(init, anew);
      assert (rest + [m])[..|rest|] == rest;
    }
  }

  /** A watch's life: operations, and reconnects during which the renewed watch has its own operations. */
  datatype Event = Local(op: Op) | Reconnect(meanwhile: seq<Op>)

  ghost function Live(s: State, events: seq<Event>): State {
    if events == [] then s
    else
      var before, e := Live(s, events[..|events| - 1]), events[|events| - 1];
      match e
      case Local(op) => Step(before, op)
      case Reconnect(meanwhile) => Merged(before, Run(Empty(before.cap), meanwhile))
  }

  ghost function IdsIn(events: seq<Event>): set<string> {
    if events == [] then {}
    else
      var e := events[|events| - 1];
      IdsIn(events[..|events| - 1]) + match e case Local(op) => Ids([op]) case Reconnect(meanwhile) => Ids(meanwhile)
  }

  /** Over any life with reconnects and at most SEEN_CAP distinct ids, no id is buffered twice. */
  lemma {:induction false} LiveTidy(cap: int, events: seq<Event>)
    requires |IdsIn(events)| <= SEEN_CAP
    ensures Tidy(Live(Empty(cap), events)) && Live(Empty(cap), events).seen == IdsIn(events)
  {
    if events != [] {
      var init, e := events[..|events| - 1], events[|events| - 1];
      SubsetCardinality(IdsIn(init), IdsIn(events));
      LiveTidy(cap, init);
      var before := Live(Empty(cap), init);
      match e {
        case Local(op) =>
          assert [op][..0] == [];
          assert Ids([op]) == if op.Deliver? && op.m.id.Some? then {op.m.id.value} else {};
          RunTidyStep(before, op);
        case Reconnect(meanwhile) =>
          assert Tidy(Empty(before.cap)) && {} + Ids(meanwhile) == Ids(meanwhile);
          SubsetCardinality(Ids(meanwhile), IdsIn(events));
          RunTidy(Empty(before.cap), meanwhile);
          MergeTidy(before, Run(Empty(before.cap), meanwhile));
          MergeIndexed(before, Run(Empty(before.cap), meanwhile));
      }
    }
  }

  // ---- what a merge does not keep, and exactly when -------------------------------------------

  ghost predicate Balanced(s: State) {
    s.total + s.replayed == s.drained + s.dropped + |s.buffer|
  }

  /** The watch has counted every id it knows once, and `nameless` arrivals without an id. */
  ghost predicate CountsAll(s: State, nameless: nat) {
    s.total == |s.seen| + nameless
  }

  ghost function UnreadTwice(prior: seq<Msg>, anew: seq<Msg>): set<string> {
    set m | m in prior && m.id.Some? && Holds(anew, m.id.value) :: m.id.value
  }

  lemma {:induction false} CarriedLength(prior: seq<Msg>, anew: seq<Msg>)
    requires NoTwice(prior)
    ensures |Carried(prior, anew)| + |UnreadTwice(prior, anew)| == |prior|
  {
    if prior != [] {
      var init, m := prior[..|prior| - 1], prior[|prior| - 1];
      CarriedLength(init, anew);
      assert prior == init + [m];
      if m.id.Some? && Holds(anew, m.id.value) {
        assert UnreadTwice(prior, anew) == UnreadTwice(init, anew) + {m.id.value};
        assert m.id.value !in UnreadTwice(init, anew);
      } else {
        assert UnreadTwice(prior, anew) == UnreadTwice(init, anew);
      }
    }
  }

  lemma UnionSize(a: set<string>, b: set<string>)
    ensures |a + b| == |b| + |a - b| && |a| == |a * b| + |a - b|
    ensures |a - b| == 0 <==> a <= b
  {
    assert a + b == b + (a - b) && a == a * b + (a - b);
  }

  /** `total` keeps counting every message exactly when the old watch had none without an id, and
      either the renewed one has none or it already saw every id of the old one. */
  lemma MergeTotal(was: State, anew: State, wasNameless: nat, newNameless: nat)
    requires Indexed(was) && CountsAll(was, wasNameless) && CountsAll(anew, newNameless)
    ensures Merged(was, anew).total == |was.seen + anew.seen| + wasNameless + newNameless
            <==> wasNameless == 0 && (newNameless == 0 || was.seen <= anew.seen)
  {
    hide Unknown, Distinct, Carried;
    assert anew.seen + was.seen == was.seen + anew.seen;
    UnionSize(was.seen, anew.seen);
  }

  /**
   * The counters still balance after a merge exactly when, besides that, every id both watches have
   * seen is still unread in both.
   */
  lemma MergeBalance(was: State, anew: State, wasNameless: nat, newNameless: nat)
    requires Tidy(was) && Covered(anew) && Balanced(was) && Balanced(anew)
    requires CountsAll(was, wasNameless) && CountsAll(anew, newNameless)
    ensures Balanced(Merged(was, anew))
            <==> && wasNameless == 0 && (newNameless == 0 || was.seen <= anew.seen)
                 && (forall id :: id in was.seen && id in anew.seen ==> Holds(was.buffer, id) && Holds(anew.buffer, id))
  {
    CarriedLength(was.buffer, anew.buffer);
    UnreadInBoth(was, anew);
    MergeBalanceArithmetic(was, anew, wasNameless, newNameless);
  }

  lemma UnreadInBoth(was: State, anew: State)
    requires Covered(was) && Covered(anew)
    ensures |UnreadTwice(was.buffer, anew.buffer)| <= |was.seen * anew.seen|
    ensures |UnreadTwice(was.buffer, anew.buffer)| == |was.seen * anew.seen|
            <==> forall id :: id in was.seen && id in anew.seen ==> Holds(was.buffer, id) && Holds(anew.buffer, id)
  {
    var twice := UnreadTwice(was.buffer, anew.buffer);
    assert forall id :: id in twice <==> Holds(was.buffer, id) && Holds(anew.buffer, id);
    SmallerSubset(twice, was.seen * anew.seen);
  }

  lemma MergeBalanceArithmetic(was: State, anew: State, wasNameless: nat, newNameless: nat)
    requires Indexed(was) && Balanced(was) && Balanced(anew)
    requires CountsAll(was, wasNameless) && CountsAll(anew, newNameless)
    requires |UnreadTwice(was.buffer, anew.buffer)| <= |was.seen * anew.seen|
    requires |Carried(was.buffer, anew.buffer)| + |UnreadTwice(was.buffer, anew.buffer)| == |was.buffer|
    ensures Balanced(Merged(was, anew))
            <==> && wasNameless == 0 && (newNameless == 0 || was.seen <= anew.seen)
                 && |UnreadTwice(was.buffer, anew.buffer)| == |was.seen * anew.seen|
  {
    hide Unknown, Distinct, Carried, UnreadTwice;
    assert anew.seen + was.seen == was.seen + anew.seen;
    UnionSize(was.seen, anew.seen);
  }

  lemma RunOne(s: State, op: Op)
    ensures Run(s, [op]) == Step(s, op)
  {
    assert [op][..0] == [];
  }

  lemma RunTwo(s: State, op: Op, next: Op)
    ensures Run(s, [op, next]) == Step(Step(s, op), next)
  {
    assert [op, next][..1] == [op];
    RunOne(s, op);
  }

  /** It does fall short: one message without an id, unread at the reconnect, is carried over and no longer counted. */
  lemma TotalFallsShort(body: string)
    ensures var was := Run(Empty(1000), [Deliver(Msg(None, body))]);
            var anew := Run(Empty(1000), []);
            CountsAll(was, 1) && CountsAll(anew, 0) && |Merged(was, anew).buffer| == 1 && Merged(was, anew).total == 0
  {
    RunOne(Empty(1000), Deliver(Msg(None, body)));
    var was := Run(Empty(1000), [Deliver(Msg(None, body))]);
    assert was.buffer == [Msg(None, body)] && was.seen == {};
    assert was.buffer[..0] == [];
    assert Carried(was.buffer, []) == was.buffer;
  }

  /** It does break: a message drained before the reconnect and replayed after it is counted once, and drained and unread. */
  lemma BalanceBreaks(id: string, body: string)
    ensures var m := Msg(Some(id), body);
            var was := Run(Empty(1000), [Deliver(m), Collect(false, None)]);
            var anew := Run(Empty(1000), [Deliver(m)]);
            Balanced(was) && Balanced(anew) && Merged(was, anew).total == 1
            && Merged(was, anew).drained == 1 && |Merged(was, anew).buffer| == 1 && !Balanced(Merged(was, anew))
  {
    var m := Msg(Some(id), body);
    var one := Delivered(Empty(1000), m);
    assert one == State([m], {id}, [id], 1, 0, 0, 0, 1000);
    RunOne(Empty(1000), Deliver(m));
    RunTwo(Empty(1000), Deliver(m), Collect(false, None));
    var was := Collected(one, false, None);
    assert was == State([], {id}, [id], 1, 0, 1, 0, 1000);
    assert Elements([id]) == {id};
    assert Carried([], [m]) == [];
    assert {id} + {id} == {id} && |{id}| == 1;
  }

  // ---- the cap across a merge -----------------------------------------------------------------

  /** A merged buffer is over its cap exactly when the unread messages of both, common ids once, are more than it. */
  lemma MergeOverCap(was: State, anew: State)
    requires NoTwice(was.buffer)
    ensures |Merged(was, anew).buffer| > anew.cap
            <==> |was.buffer| + |anew.buffer| - |UnreadTwice(was.buffer, anew.buffer)| > anew.cap
  {
    CarriedLength(was.buffer, anew.buffer);
  }

  /** A buffer at or over its cap keeps its length through any deliveries: only a drain brings it down. */
  lemma {:induction false} OverCapStays(s: State, ops: seq<Op>)
    requires |s.buffer| >= s.cap && forall i :: 0 <= i < |ops| ==> ops[i].Deliver?
    ensures |Run(s, ops).buffer| == |s.buffer| && Run(s, ops).cap == s.cap
  {
    if ops != [] {
      var init, op := ops[..|ops| - 1], ops[|ops| - 1];
      OverCapStays(s, init);
      assert op.Deliver?;
      CountedAddsOne(Run(s, init), op.m);
    }
  }

  /** It does happen: under a cap of one, two different unread messages survive a merge and every later delivery. */
  lemma MergeOverCapExample(body: string, later: seq<Op>)
    requires forall i :: 0 <= i < |later| ==> later[i].Deliver?
    ensures var was := Run(Empty(1), [Deliver(Msg(Some("a"), body))]);
            var anew := Run(Empty(1), [Deliver(Msg(Some("b"), body))]);
            |Merged(was, anew).buffer| == 2 && |Run(Merged(was, anew), later).buffer| == 2
  {
    var a, b := Msg(Some("a"), body), Msg(Some("b"), body);
    RunOne(Empty(1), Deliver(a));
    RunOne(Empty(1), Deliver(b));
    var was, anew := Delivered(Empty(1), a), Delivered(Empty(1), b);
    assert was.buffer == [a] && anew.buffer == [b] && anew.cap == 1;
    assert !Holds([b], "a");
    assert [a][..0] == [] && Carried([a], [b]) == [a];
    OverCapStays(Merged(was, anew), later);
  }
}
