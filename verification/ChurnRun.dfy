/** The driver that carries out a churn plan behind its census guard (harness/churn.mjs). */
module ChurnRun {
  import opened Prelude
  import opened Sorting
  import opened ChurnPlan

  /**
   * What the world does around one action: how counts changed since the last one, whether the census
   * can be read, and whether the relay to be started comes up.
   */
  datatype Turn = Turn(drift: string -> int, readable: bool, starts: bool)

  /** A ledger line; `low` is the least count the action itself brings its host to, `left` what it leaves. */
  datatype Line =
    | Refused
    | Restarted
    | Unreadable(host: string)
    | BelowFloor(host: string, before: nat, floor: nat)
    | Done(kind: Kind, host: string, before: nat, floor: nat, low: nat, left: nat)

  datatype State = State(live: map<string, nat>, ledger: seq<Line>)

  function HostOf(a: Action): string {
    if a.host.Some? then a.host.value else "m4"
  }

  function Drifted(live: map<string, nat>, drift: string -> int): map<string, nat> {
    map h | h in live :: if live[h] + drift(h) < 0 then 0 else live[h] + drift(h)
  }

  function FloorFor(a: Action, before: nat): nat {
    Floor(if a.floorPct.Some? then a.floorPct.value else 95, if a.hostSize.Some? then a.hostSize.value else before)
  }

  /** One relay less, if there is one. */
  function OneLess(count: nat): nat {
    if count > 0 then count - 1 else 0
  }

  /**
   * A kill takes one relay away and then starts another; a roll starts one, waits a fixed time, and takes
   * one away whether or not the new one came up.
   */
  function Carried(a: Action, before: nat, starts: bool): Line {
    if a.kind.Kill? then
      var low := OneLess(before);
      Done(Kill, HostOf(a), before, FloorFor(a, before), low, if starts then low + 1 else low)
    else
      var left := if starts then before else OneLess(before);
      Done(Roll, HostOf(a), before, FloorFor(a, before), left, left)
  }

  function LineFor(live: map<string, nat>, a: Action, armed: bool, t: Turn): Line {
    if a.kind.Sidecar? then Restarted
    else if a.kind.Unknown? || !armed then Refused
    else if !t.readable || HostOf(a) !in live then Unreadable(HostOf(a))
    else
      var before := live[HostOf(a)];
      if a.kind.Kill? && before < FloorFor(a, before) + 1 then BelowFloor(HostOf(a), before, FloorFor(a, before))
      else Carried(a, before, t.starts)
  }

  function Act(s: State, a: Action, armed: bool, t: Turn): State {
    var live := Drifted(s.live, t.drift);
    var line := LineFor(live, a, armed, t);
    State(if line.Done? then live[line.host := line.left] else live, s.ledger + [line])
  }

  function After(live: map<string, nat>, plan: seq<Action>, armed: bool, turns: nat -> Turn): State {
    if plan == [] then State(live, [])
    else Act(After(live, plan[..|plan| - 1], armed, turns), plan[|plan| - 1], armed, turns(|plan| - 1))
  }

  // ---- the driver ---------------------------------------------------------------------

  class Fleet {
    var live: map<string, nat>

    constructor (live: map<string, nat>)
      ensures this.live == live
    {
      this.live := live;
    }

    method Drift(drift: string -> int)
      modifies this
      ensures live == Drifted(old(live), drift)
    {
      live := map h | h in live :: if live[h] + drift(h) < 0 then 0 else live[h] + drift(h);
    }

    method Census(host: string, readable: bool) returns (count: Option<nat>)
      ensures count == if readable then Get(live, host) else None
    {
      count := if readable then Get(live, host) else None;
    }

    /** The ritual script: it reports what it did to the host's count. */
    method Churn(a: Action, floor: nat, starts: bool) returns (line: Line)
      requires HostOf(a) in live && (a.kind.Roll? || a.kind.Kill?) && floor == FloorFor(a, live[HostOf(a)])
      modifies this
      ensures line == Carried(a, old(live)[HostOf(a)], starts)
      ensures live == old(live)[HostOf(a) := line.left]
    {
      var host := HostOf(a);
      var before := live[host];
      var low;
      if a.kind.Roll? {
        if starts { live := live[host := before + 1]; }
        live := live[host := OneLess(live[host])];
        low := live[host];
      } else {
        live := live[host := OneLess(before)];
        low := live[host];
        if starts { live := live[host := low + 1]; }
      }
      line := Done(a.kind, host, before, floor, low, live[host]);
    }
  }

  method Drive(fleet: Fleet, plan: seq<Action>, armed: bool, turns: nat -> Turn) returns (ledger: seq<Line>)
    modifies fleet
    ensures State(fleet.live, ledger) == After(old(fleet.live), StableSort(Earlier(), plan), armed, turns)
  {
    hide StableSort, Floor, Drifted;
    var sorted := StableSort(Earlier(), plan);
    ledger := [];
    for i := 0 to |sorted|
      invariant State(fleet.live, ledger) == After(old(fleet.live), sorted[..i], armed, turns)
    {
      assert sorted[..i + 1][..i] == sorted[..i];
      var a := sorted[i];
      fleet.Drift(turns(i).drift);
      if a.kind.Sidecar? {
        ledger := ledger + [Restarted];
      } else if a.kind.Roll? || a.kind.Kill? {
        if !armed { ledger := ledger + [Refused]; continue; }
        var before := fleet.Census(HostOf(a), turns(i).readable);
        if before.None? { ledger := ledger + [Unreadable(HostOf(a))]; continue; }
        var floor := FloorFor(a, before.value);
        if a.kind.Kill? && before.value < floor + 1 {
          ledger := ledger + [BelowFloor(HostOf(a), before.value, floor)];
          continue;
        }
        var line := fleet.Churn(a, floor, turns(i).starts);
        ledger := ledger + [line];
      } else {
        ledger := ledger + [Refused];
      }
    }
    assert sorted[..|sorted|] == sorted;
  }

  // ---- one action and the floor ----------------------------------------------------------------

  /** Which action of either kind is carried out at all. */
  predicate CarriedOut(live: map<string, nat>, a: Action, armed: bool, t: Turn) {
    && armed && t.readable && HostOf(a) in live
    && (a.kind.Roll? || (a.kind.Kill? && live[HostOf(a)] > FloorFor(a, live[HostOf(a)])))
  }

  /**
   * An action that is carried out keeps its host at or above the floor throughout exactly when it is a
   * kill, or a roll of a host at the floor whose start succeeds, or one above the floor.
   */
  lemma ActionKeepsFloor(live: map<string, nat>, a: Action, armed: bool, t: Turn)
    ensures LineFor(live, a, armed, t).Done? <==> CarriedOut(live, a, armed, t)
    ensures CarriedOut(live, a, armed, t) ==>
              var line, before := LineFor(live, a, armed, t), live[HostOf(a)];
              line.low <= line.left
              && (line.low >= FloorFor(a, before)
                  <==> a.kind.Kill? || (before >= FloorFor(a, before) && (t.starts || OneLess(before) >= FloorFor(a, before))))
  {
    hide Floor;
  }

  /** What an action leaves out: the host is m4, the floor 95 percent, the size the count it meets. */
  lemma LeftOutMeans(a: Action, before: nat)
    ensures a.host.None? ==> HostOf(a) == "m4"
    ensures a.host.Some? ==> HostOf(a) == a.host.value
    ensures var pct, size := if a.floorPct.Some? then a.floorPct.value else 95, if a.hostSize.Some? then a.hostSize.value else before;
            100 * FloorFor(a, before) >= pct * size && (FloorFor(a, before) > 0 ==> 100 * (FloorFor(a, before) - 1) < pct * size)
  {
    hide Floor;
  }

  /** Without the sanction nothing is done to any host. */
  lemma {:induction false} UnarmedDoesNothing(live: map<string, nat>, plan: seq<Action>, turns: nat -> Turn)
    ensures forall line :: line in After(live, plan, false, turns).ledger ==> line.Refused? || line.Restarted?
  {
    hide Drifted;
    if plan != [] { UnarmedDoesNothing(live, plan[..|plan| - 1], turns); }
  }

  // ---- a whole run, for one host ------------------------------------------------------------------

  /** The live counts the i-th action meets. */
  function Met(live: map<string, nat>, plan: seq<Action>, armed: bool, turns: nat -> Turn, i: nat): map<string, nat>
    requires i < |plan|
  {
    Drifted(After(live, plan[..i], armed, turns).live, turns(i).drift)
  }

  /** The i-th ledger line is that of the i-th action on what it met. */
  lemma {:induction false} LedgerLine(live: map<string, nat>, plan: seq<Action>, armed: bool, turns: nat -> Turn, i: nat)
    requires i < |plan|
    ensures |After(live, plan, armed, turns).ledger| == |plan|
    ensures After(live, plan, armed, turns).ledger[i] == LineFor(Met(live, plan, armed, turns, i), plan[i], armed, turns(i))
    decreases |plan|
  {
    hide LineFor, Drifted;
    var init := plan[..|plan| - 1];
    LedgerLength(live, init, armed, turns);
    if i < |init| {
      LedgerLine(live, init, armed, turns, i);
      assert init[..i] == plan[..i];
    }
  }

  /**
   * In any run, whatever counts do between actions and whatever starts fail: every kill that is carried out
   * keeps its host at or above its floor, and a roll does exactly when the host can spare the relay or gets it back.
   */
  lemma RunKeepsFloor(live: map<string, nat>, plan: seq<Action>, armed: bool, turns: nat -> Turn, i: nat)
    requires i < |plan| && CarriedOut(Met(live, plan, armed, turns, i), plan[i], armed, turns(i))
    ensures |After(live, plan, armed, turns).ledger| == |plan|
    ensures var line, before := After(live, plan, armed, turns).ledger[i], Met(live, plan, armed, turns, i)[HostOf(plan[i])];
            var floor := FloorFor(plan[i], before);
            && line.Done? && line.before == before && line.floor == floor
            && (line.low >= floor
                <==> plan[i].kind.Kill? || (before >= floor && (turns(i).starts || OneLess(before) >= floor)))
  {
    hide Drifted, Floor, After;
    LedgerLine(live, plan, armed, turns, i);
    ActionKeepsFloor(Met(live, plan, armed, turns, i), plan[i], armed, turns(i));
  }

  /** The i-th action costs host h a relay for good: it is carried out there, and its start fails. */
  predicate Costs(live: map<string, nat>, plan: seq<Action>, armed: bool, turns: nat -> Turn, h: string, i: nat)
    requires i < |plan|
  {
    var met := Met(live, plan, armed, turns, i);
    HostOf(plan[i]) == h && CarriedOut(met, plan[i], armed, turns(i)) && !turns(i).starts && met[h] > 0
  }

  /** What host h has had from outside, less what failed starts have cost it, over the first n actions. */
  function Balance(live: map<string, nat>, plan: seq<Action>, armed: bool, turns: nat -> Turn, h: string, n: nat): int
    requires n <= |plan|
  {
    if n == 0 then 0
    else
      Balance(live, plan, armed, turns, h, n - 1) + turns(n - 1).drift(h)
      - if Costs(live, plan, armed, turns, h, n - 1) then 1 else 0
  }

  lemma DriftedCount(live: map<string, nat>, drift: string -> int, h: string)
    requires h in live
    ensures h in Drifted(live, drift) && Drifted(live, drift)[h] >= live[h] + drift(h)
    ensures live[h] + drift(h) >= 0 ==> Drifted(live, drift)[h] == live[h] + drift(h)
  {
  }

  /** What one action does to the count of one host. */
  lemma ActCount(s: State, a: Action, armed: bool, t: Turn, h: string)
    requires h in s.live
    ensures var met, next := Drifted(s.live, t.drift), Act(s, a, armed, t).live;
            && h in met && h in next
            && next[h] == met[h] - if HostOf(a) == h && CarriedOut(met, a, armed, t) && !t.starts && met[h] > 0 then 1 else 0
  {
    hide Drifted, Floor, FloorFor;
    DriftedCount(s.live, t.drift, h);
    ActionLeaves(Drifted(s.live, t.drift), a, armed, t);
  }

  lemma ActionLeaves(live: map<string, nat>, a: Action, armed: bool, t: Turn)
    ensures var line := LineFor(live, a, armed, t);
            && (line.Done? <==> CarriedOut(live, a, armed, t))
            && (line.Done? ==> line.host == HostOf(a) && line.before == live[HostOf(a)]
                               && line.left == if t.starts then line.before else OneLess(line.before))
  {
    hide Floor;
  }

  /**
   * Whatever is planned, refused or fails: every host's count is what it had, what came from outside, and
   * one less for each failed start of a carried-out action; exactly so while no drift takes more than is there.
   */
  lemma {:induction false} CountBalance(live: map<string, nat>, plan: seq<Action>, armed: bool, turns: nat -> Turn, h: string, n: nat)
    requires h in live && n <= |plan|
    ensures h in After(live, plan[..n], armed, turns).live
    ensures After(live, plan[..n], armed, turns).live[h] >= live[h] + Balance(live, plan, armed, turns, h, n)
    ensures (forall i :: 0 <= i < n ==> Covered(live, plan, armed, turns, h, i)) ==>
              After(live, plan[..n], armed, turns).live[h] == live[h] + Balance(live, plan, armed, turns, h, n)
  {
    hide Act, CarriedOut, Drifted;
    if n > 0 {
      CountBalance(live, plan, armed, turns, h, n - 1);
      assert plan[..n][..n - 1] == plan[..n - 1];
      var s := After(live, plan[..n - 1], armed, turns);
      ActCount(s, plan[n - 1], armed, turns(n - 1), h);
      DriftedCount(s.live, turns(n - 1).drift, h);
      assert (forall i :: 0 <= i < n ==> Covered(live, plan, armed, turns, h, i)) ==> Covered(live, plan, armed, turns, h, n - 1);
    }
  }

  /** The drift before the i-th action takes no more from h than is there. */
  predicate Covered(live: map<string, nat>, plan: seq<Action>, armed: bool, turns: nat -> Turn, h: string, i: nat)
    requires i < |plan|
  {
    h in After(live, plan[..i], armed, turns).live && After(live, plan[..i], armed, turns).live[h] + turns(i).drift(h) >= 0
  }

  /** No kill planned on h has a lower floor than f, and the starts of its rolls succeed. */
  predicate Guarded(plan: seq<Action>, turns: nat -> Turn, h: string, f: nat, i: nat)
    requires i < |plan|
  {
    HostOf(plan[i]) == h ==>
      && (plan[i].kind.Kill? ==> plan[i].hostSize.Some? && FloorFor(plan[i], 0) >= f)
      && (plan[i].kind.Roll? ==> turns(i).starts)
  }

  /**
   * A host that begins at or above its floor, loses nothing from outside and has its rolls' starts succeed
   * is never below the floor, not even during an action, however many starts of its kills fail.
   */
  lemma {:induction false} NeverBelowFloor(live: map<string, nat>, plan: seq<Action>, armed: bool, turns: nat -> Turn, h: string, f: nat)
    requires h in live && live[h] >= f
    requires forall i :: 0 <= i < |plan| ==> turns(i).drift(h) >= 0 && Guarded(plan, turns, h, f, i)
    ensures var s := After(live, plan, armed, turns);
            && h in s.live && s.live[h] >= f
            && forall line :: line in s.ledger && line.Done? && line.host == h ==> line.low >= f
  {
    hide Act, Drifted, Floor;
    if plan != [] {
      var init, i := plan[..|plan| - 1], |plan| - 1;
      forall j | 0 <= j < |init| ensures turns(j).drift(h) >= 0 && Guarded(init, turns, h, f, j) {
        assert Guarded(plan, turns, h, f, j);
      }
      NeverBelowFloor(live, init, armed, turns, h, f);
      var s := After(live, init, armed, turns);
      assert Guarded(plan, turns, h, f, i);
      ActKeeps(s, plan[i], armed, turns(i), h, f);
    }
  }

  lemma ActKeeps(s: State, a: Action, armed: bool, t: Turn, h: string, f: nat)
    requires h in s.live && s.live[h] >= f && t.drift(h) >= 0
    requires HostOf(a) == h && a.kind.Kill? ==> a.hostSize.Some? && FloorFor(a, 0) >= f
    requires HostOf(a) == h && a.kind.Roll? ==> t.starts
    ensures var next := Act(s, a, armed, t);
            && h in next.live && next.live[h] >= f
            && |next.ledger| == |s.ledger| + 1 && next.ledger[..|s.ledger|] == s.ledger
            && var line := next.ledger[|s.ledger|]; line.Done? && line.host == h ==> line.low >= f
  {
    hide Drifted, Floor;
    DriftedCount(s.live, t.drift, h);
  }

  // ---- a generated plan on a fleet that stays whole ---------------------------------------------

  lemma {:induction false} LedgerLength(live: map<string, nat>, plan: seq<Action>, armed: bool, turns: nat -> Turn)
    ensures |After(live, plan, armed, turns).ledger| == |plan|
  {
    hide LineFor, Drifted;
    if plan != [] { LedgerLength(live, plan[..|plan| - 1], armed, turns); }
  }

  ghost predicate Whole(live: map<string, nat>, hosts: seq<Host>) {
    forall h :: h in hosts ==> h.name in live && live[h.name] == h.size
  }

  ghost predicate Undisturbed(turns: nat -> Turn) {
    forall i, h :: turns(i).drift(h) == 0 && turns(i).readable && turns(i).starts
  }

  /** A planned roll or kill at full count is carried out, and leaves the count as it was. */
  lemma PlannedActionDone(live: map<string, nat>, a: Action, t: Turn, h: Host)
    requires h.name in live && live[h.name] == h.size && t.readable && t.starts
    requires a.host == Some(h.name) && a.hostSize == Some(h.size) && a.floorPct == Some(95)
    requires a.kind.Roll? || (a.kind.Kill? && Killable(h))
    ensures var line := LineFor(live, a, true, t);
            && line.Done? && line.kind == a.kind && line.host == h.name && line.left == h.size
            && 100 * line.low >= 95 * h.size && line.low >= h.size - 1
  {
  }

  ghost predicate Planned(a: Action, hosts: seq<Host>) {
    exists h :: h in hosts && a.host == Some(h.name) && a.hostSize == Some(h.size) && a.floorPct == Some(95)
                && (a.kind.Roll? || (a.kind.Kill? && Killable(h)))
  }

  lemma PlannedStep(live: map<string, nat>, ledger: seq<Line>, a: Action, hosts: seq<Host>, turns: nat -> Turn, i: nat)
    requires Whole(live, hosts) && Undisturbed(turns) && Planned(a, hosts)
    ensures var s := Act(State(live, ledger), a, true, turns(i));
            && s.live == live && |s.ledger| == |ledger| + 1 && s.ledger[..|ledger|] == ledger
            && s.ledger[|ledger|].Done? && 100 * s.ledger[|ledger|].low >= 95 * s.ledger[|ledger|].before
  {
    hide Killable, Floor;
    var h :| h in hosts && a.host == Some(h.name) && a.hostSize == Some(h.size) && a.floorPct == Some(95)
             && (a.kind.Roll? || (a.kind.Kill? && Killable(h)));
    assert Drifted(live, turns(i).drift) == live;
    PlannedActionDone(live, a, turns(i), h);
    assert live[h.name := h.size] == live;
  }

  lemma {:induction false} WholeStays(live: map<string, nat>, plan: seq<Action>, hosts: seq<Host>, turns: nat -> Turn)
    requires Whole(live, hosts) && Undisturbed(turns)
    requires forall i :: 0 <= i < |plan| ==> Planned(plan[i], hosts)
    ensures After(live, plan, true, turns).live == live
    ensures forall line :: line in After(live, plan, true, turns).ledger ==> line.Done? && 100 * line.low >= 95 * line.before
  {
    hide Whole, Undisturbed, Planned, Act;
    if plan != [] {
      var init := plan[..|plan| - 1];
      WholeStays(live, init, hosts, turns);
      var before := After(live, init, true, turns);
      PlannedStep(live, before.ledger, plan[|plan| - 1], hosts, turns, |plan| - 1);
    }
  }

  /**
   * Driven on a fleet at full count that nothing else disturbs, every action of a generated plan is
   * carried out, none is refused, no host falls below 95%, and the fleet is whole again at the end.
   */
  lemma PlanCarriedOut(live: map<string, nat>, duration: int, hosts: seq<Host>, turns: nat -> Turn)
    requires duration > 0 && hosts != []
    requires Whole(live, hosts) && Undisturbed(turns)
    ensures var s := After(live, StableSort(Earlier(), PlanOf(duration, hosts).value), true, turns);
            && s.live == live && |s.ledger| == |PlanOf(duration, hosts).value|
            && forall line :: line in s.ledger ==> line.Done? && 100 * line.low >= 95 * line.before
  {
    hide StableSort, Unsorted, After;
    PlanIsSorted(duration, hosts);
    SortFixes(Earlier(), PlanOf(duration, hosts).value);
    LedgerLength(live, PlanOf(duration, hosts).value, true, turns);
    var plan := PlanOf(duration, hosts).value;
    forall i | 0 <= i < |plan| ensures Planned(plan[i], hosts) { PlanActions(duration, hosts, plan[i]); }
    WholeStays(live, plan, hosts, turns);
  }

  ghost predicate NamesDistinct(hosts: seq<Host>) {
    forall g, h :: g in hosts && h in hosts && g.name == h.name ==> g == h
  }

  /**
   * A generated plan never takes a host under 95% of its size, not even for the length of a kill, whatever
   * starts of kills fail and whatever the census hides, if nothing else dies and replacements of rolls come up.
   */
  lemma PlanKeepsFloors(live: map<string, nat>, duration: int, hosts: seq<Host>, armed: bool, turns: nat -> Turn, h: Host)
    requires duration > 0 && h in hosts && NamesDistinct(hosts)
    requires h.name in live && live[h.name] >= Floor(95, h.size)
    requires forall i: nat :: turns(i).drift(h.name) >= 0
    requires var plan := PlanOf(duration, hosts).value;
             forall i: nat :: i < |plan| && plan[i].kind.Roll? && HostOf(plan[i]) == h.name ==> turns(i).starts
    ensures var s := After(live, StableSort(Earlier(), PlanOf(duration, hosts).value), armed, turns);
            && h.name in s.live && s.live[h.name] >= Floor(95, h.size)
            && forall line :: line in s.ledger && line.Done? && line.host == h.name ==> line.low >= Floor(95, h.size)
  {
    hide StableSort, Unsorted, After, Floor, Killable;
    var plan := PlanOf(duration, hosts).value;
    PlanIsSorted(duration, hosts);
    SortFixes(Earlier(), plan);
    forall i | 0 <= i < |plan| ensures Guarded(plan, turns, h.name, Floor(95, h.size), i) {
      PlanActions(duration, hosts, plan[i]);
    }
    NeverBelowFloor(live, plan, armed, turns, h.name, Floor(95, h.size));
  }

  /** A roll does not look: with the replacement missing it takes a host at its floor below it. */
  lemma FailedRollBreachesFloor()
    ensures var a := RollAt(0, Host("axona-linux", 5));
            var line := LineFor(map["axona-linux" := 5], a, true, Turn(_ => 0, true, false));
            line.Done? && line.floor == 5 && line.low == line.left == 4
  {
  }
}
