/** The start-then-stop roll of a relay fleet (roll-fleet.sh). */
module FleetRoll {
  import opened Prelude

  /**
   * One slot as the world plays it. `banner` and `mesh` say at which tick of the wait the replacement's
   * log shows them, `death` at which tick of the wait it dies, `leaves` at which tick of the leave the
   * old relay is gone. `pause`, `wait` and `leave` name other relays that die on their own: between the
   * previous census and this start, and during a tick of the wait or of the leave.
   */
  datatype Slot = Slot(pid: int, banner: Option<nat>, mesh: Option<nat>, death: Option<nat>, leaves: Option<nat>,
                       pause: seq<int>, wait: nat -> seq<int>, leave: nat -> seq<int>)

  /** The old relays, one slot for each, both timeouts, and who dies between the last slot's census and the final one. */
  datatype Plan = Plan(olds: seq<int>, slots: seq<Slot>, integrate: nat, leave: nat, finale: seq<int>)

  datatype Event = Started(pid: int) | Verified(pid: int) | Stopped(pid: int) | Died(pid: int) | Counted

  datatype Outcome = Complete | KernelMismatch | CountMismatch | NoFleet | NotIntegrated(slot: nat) | CensusOff(slot: nat)
                   | FinalCountOff | WrongBanner

  predicate By(tick: Option<nat>, t: nat) {
    tick.Some? && tick.value <= t
  }

  /** The replacement shows its banner and a bound channel in time, and was not found dead before. */
  predicate Integrates(s: Slot, timeout: nat) {
    && s.banner.Some? && s.mesh.Some? && s.banner.value < timeout && s.mesh.value < timeout
    && (s.death.Some? ==> s.banner.value <= s.death.value && s.mesh.value <= s.death.value)
  }

  // ---- what a trace means ------------------------------------------------------------

  function After(live: set<int>, e: Event): set<int> {
    match e
    case Started(p) => live + {p}
    case Verified(_) => live
    case Stopped(p) => live - {p}
    case Died(p) => live - {p}
    case Counted => live
  }

  function Live(olds: seq<int>, trace: seq<Event>): set<int> {
    if trace == [] then set p | p in olds else After(Live(olds, trace[..|trace| - 1]), trace[|trace| - 1])
  }

  /** How many relays died on their own. */
  ghost function Deaths(olds: seq<int>, trace: seq<Event>): nat {
    if trace == [] then 0
    else
      var init, e := trace[..|trace| - 1], trace[|trace| - 1];
      Deaths(olds, init) + if e.Died? && e.pid in Live(olds, init) then 1 else 0
  }

  /** Since the first count or the latest census nothing has happened but deaths. */
  ghost predicate SinceCount(trace: seq<Event>) {
    trace == [] || trace[|trace| - 1].Counted? || (trace[|trace| - 1].Died? && SinceCount(trace[..|trace| - 1]))
  }

  /**
   * When a step is allowed: a census passes at full strength only, a slot starts right after one, and an
   * old relay is stopped only behind a replacement that was verified in time.
   */
  ghost predicate Allowed(r: Plan, before: seq<Event>, e: Event) {
    match e
    case Started(p) => SinceCount(before) && p !in Live(r.olds, before)
    case Verified(p) =>
      Started(p) in before && exists i :: 0 <= i < |r.slots| && r.slots[i].pid == p && Integrates(r.slots[i], r.integrate)
    case Stopped(p) =>
      exists i :: && 0 <= i < |r.olds| && i < |r.slots|
                  && if Verified(r.slots[i].pid) in before then p == r.olds[i] else p == r.slots[i].pid
    case Died(p) => true
    case Counted => |Live(r.olds, before)| == |r.olds|
  }

  /** Every step was allowed, and at every moment the count stood at full strength less those that died, or one over. */
  ghost predicate Steady(r: Plan, trace: seq<Event>) {
    && |Live(r.olds, trace)| <= |r.olds| + 1
    && |r.olds| <= |Live(r.olds, trace)| + Deaths(r.olds, trace)
    && (trace != [] ==> Steady(r, trace[..|trace| - 1]) && Allowed(r, trace[..|trace| - 1], trace[|trace| - 1]))
  }

  ghost function Dying(ps: seq<int>): seq<Event> {
    if ps == [] then [] else Dying(ps[..|ps| - 1]) + [Died(ps[|ps| - 1])]
  }

  lemma Extend(olds: seq<int>, trace: seq<Event>, e: Event)
    ensures (trace + [e])[..|trace + [e]| - 1] == trace && (trace + [e])[|trace + [e]| - 1] == e
    ensures Live(olds, trace + [e]) == After(Live(olds, trace), e)
    ensures Deaths(olds, trace + [e]) == Deaths(olds, trace) + if e.Died? && e.pid in Live(olds, trace) then 1 else 0
    ensures e.Counted? || (e.Died? && SinceCount(trace)) ==> SinceCount(trace + [e])
  {
  }

  /** A relay's own death keeps the trace steady, and live relays and deaths together constant. */
  lemma DeathKeepsSteady(r: Plan, trace: seq<Event>, p: int)
    requires Steady(r, trace)
    ensures Steady(r, trace + [Died(p)])
    ensures Live(r.olds, trace + [Died(p)]) == Live(r.olds, trace) - {p}
    ensures |Live(r.olds, trace + [Died(p)])| + Deaths(r.olds, trace + [Died(p)]) == |Live(r.olds, trace)| + Deaths(r.olds, trace)
  {
    hide Live, Deaths, SinceCount;
    Extend(r.olds, trace, Died(p));
    var live := Live(r.olds, trace);
    if p !in live { assert live - {p} == live; }
  }

  lemma {:induction false} DyingKeepsSteady(r: Plan, trace: seq<Event>, ps: seq<int>)
    requires Steady(r, trace)
    ensures Steady(r, trace + Dying(ps))
    ensures Live(r.olds, trace + Dying(ps)) == Live(r.olds, trace) - Elements(ps)
    ensures |Live(r.olds, trace + Dying(ps))| + Deaths(r.olds, trace + Dying(ps)) == |Live(r.olds, trace)| + Deaths(r.olds, trace)
    ensures SinceCount(trace) ==> SinceCount(trace + Dying(ps))
  {
    hide Live, Deaths, Steady, SinceCount, After, Allowed;
    if ps == [] {
      assert trace + Dying(ps) == trace;
    } else {
      var init, last := ps[..|ps| - 1], ps[|ps| - 1];
      DyingKeepsSteady(r, trace, init);
      DeathKeepsSteady(r, trace + Dying(init), last);
      if SinceCount(trace) { Extend(r.olds, trace + Dying(init), Died(last)); }
      assert trace + Dying(ps) == trace + Dying(init) + [Died(last)];
      assert Elements(ps) == Elements(init) + {last};
    }
  }

  lemma {:induction false} DyingMembers(ps: seq<int>, e: Event)
    ensures e in Dying(ps) <==> e.Died? && e.pid in ps
  {
    if ps != [] {
      DyingMembers(ps[..|ps| - 1], e);
      assert ps == ps[..|ps| - 1] + [ps[|ps| - 1]];
    }
  }

  /** An allowed step that leaves the count in bounds keeps the trace steady. */
  lemma StepKeepsSteady(r: Plan, trace: seq<Event>, e: Event)
    requires Steady(r, trace) && Allowed(r, trace, e) && !e.Died?
    requires |r.olds| <= |Live(r.olds, trace + [e])| + Deaths(r.olds, trace) && |Live(r.olds, trace + [e])| <= |r.olds| + 1
    ensures Steady(r, trace + [e])
  {
    hide Live, Allowed, SinceCount;
    Extend(r.olds, trace, e);
  }

  /** At every moment so far at least full strength was live. */
  ghost predicate Full(olds: seq<int>, trace: seq<Event>) {
    |Live(olds, trace)| >= |olds| && (trace != [] ==> Full(olds, trace[..|trace| - 1]))
  }

  lemma FullExtend(olds: seq<int>, trace: seq<Event>, e: Event)
    ensures Full(olds, trace + [e]) <==> Full(olds, trace) && |Live(olds, trace + [e])| >= |olds|
  {
    hide Live, SinceCount;
    Extend(olds, trace, e);
  }

  lemma {:induction false} FullDying(r: Plan, trace: seq<Event>, ps: seq<int>)
    requires Steady(r, trace)
    ensures Full(r.olds, trace + Dying(ps)) <==> Full(r.olds, trace) && |Live(r.olds, trace) - Elements(ps)| >= |r.olds|
  {
    hide Live, Deaths, Steady, Full, SinceCount;
    if ps == [] {
      assert trace + Dying(ps) == trace && Live(r.olds, trace) - Elements(ps) == Live(r.olds, trace);
      if Full(r.olds, trace) { FullNow(r.olds, trace); }
    } else {
      var init, last := ps[..|ps| - 1], ps[|ps| - 1];
      assert forall p :: p in ps <==> p in init || p == last;
      SubsetCardinality(Live(r.olds, trace) - Elements(ps), Live(r.olds, trace) - Elements(init));
      FullDying(r, trace, init);
      DyingKeepsSteady(r, trace, ps);
      assert trace + Dying(ps) == trace + Dying(init) + [Died(last)];
      FullExtend(r.olds, trace + Dying(init), Died(last));
    }
  }

  lemma FullNow(olds: seq<int>, trace: seq<Event>)
    requires Full(olds, trace)
    ensures |Live(olds, trace)| >= |olds|
  {
  }

  // ---- who dies while the script waits ---------------------------------------------------

  function Max(a: nat, b: nat): nat {
    if a < b then b else a
  }

  /** How many ticks the wait for a replacement takes. */
  function WaitTicks(s: Slot, timeout: nat): nat {
    if Integrates(s, timeout) then Max(s.banner.value, s.mesh.value) + 1
    else if s.death.Some? && s.death.value < timeout then s.death.value + 1
    else timeout
  }

  function LeaveTicks(s: Slot, timeout: nat): nat {
    if s.leaves.Some? && s.leaves.value < timeout then s.leaves.value + 1 else timeout
  }

  function DeadInWait(s: Slot, ticks: nat): seq<int> {
    if ticks == 0 then []
    else DeadInWait(s, ticks - 1) + s.wait(ticks - 1) + if s.death == Some(ticks - 1) then [s.pid] else []
  }

  function DeadInLeave(s: Slot, ticks: nat): seq<int> {
    if ticks == 0 then [] else DeadInLeave(s, ticks - 1) + s.leave(ticks - 1)
  }

  /** Who is lost before the outcome of the wait is known. */
  ghost function LostBefore(s: Slot, integrate: nat): set<int> {
    (Elements(s.pause) - {s.pid}) + Elements(DeadInWait(s, WaitTicks(s, integrate)))
  }

  /** Who is lost in a slot whose replacement integrates. */
  ghost function Lost(s: Slot, integrate: nat, leave: nat): set<int> {
    LostBefore(s, integrate) + Elements(DeadInLeave(s, LeaveTicks(s, leave)))
  }

  /** After tick t the wait is over: both signs were seen, or the replacement was found dead. */
  predicate Settled(s: Slot, t: nat) {
    (By(s.banner, t) && By(s.mesh, t)) || By(s.death, t)
  }

  /** The wait ends at the first tick that settles it, and otherwise at the timeout. */
  lemma WaitEnds(s: Slot, timeout: nat)
    ensures var n := WaitTicks(s, timeout);
            && n <= timeout && (forall t: nat :: t < n - 1 ==> !Settled(s, t))
            && (n == timeout || (n > 0 && Settled(s, n - 1)))
  {
  }

  /** So does the wait for the old relay to leave. */
  lemma LeaveEnds(s: Slot, timeout: nat)
    ensures var n := LeaveTicks(s, timeout);
            && n <= timeout && (forall t: nat :: t < n - 1 ==> !By(s.leaves, t))
            && (n == timeout || (n > 0 && By(s.leaves, n - 1)))
  {
  }

  /** Lost during a wait: who died at one of its ticks, the replacement included. */
  lemma {:induction false} LostInWait(s: Slot, ticks: nat, p: int)
    ensures p in DeadInWait(s, ticks) <==> exists t: nat :: t < ticks && (p in s.wait(t) || (s.death == Some(t) && p == s.pid))
  {
    if ticks > 0 { LostInWait(s, ticks - 1, p); }
  }

  lemma {:induction false} LostInLeave(s: Slot, ticks: nat, p: int)
    ensures p in DeadInLeave(s, ticks) <==> exists t: nat :: t < ticks && p in s.leave(t)
  {
    if ticks > 0 { LostInLeave(s, ticks - 1, p); }
  }

  method Await(s: Slot, timeout: nat) returns (okBanner: bool, okMesh: bool, dead: seq<int>)
    ensures okBanner && okMesh <==> Integrates(s, timeout)
    ensures dead == DeadInWait(s, WaitTicks(s, timeout))
  {
    okBanner, okMesh, dead := false, false, [];
    var t := 0;
    while t < timeout
      invariant t <= timeout
      invariant t > 0 ==> okBanner == By(s.banner, t - 1) && okMesh == By(s.mesh, t - 1)
      invariant t == 0 ==> !okBanner && !okMesh
      invariant !(okBanner && okMesh)
      invariant t > 0 ==> !By(s.death, t - 1)
      invariant dead == DeadInWait(s, t)
    {
      dead := dead + s.wait(t) + if s.death == Some(t) then [s.pid] else [];
      if !okBanner && By(s.banner, t) { okBanner := true; }
      if !okMesh && By(s.mesh, t) { okMesh := true; }
      if okBanner && okMesh { break; }
      if By(s.death, t) { break; }
      t := t + 1;
    }
  }

  method AwaitLeave(s: Slot, timeout: nat) returns (gone: bool, dead: seq<int>)
    ensures gone <==> s.leaves.Some? && s.leaves.value < timeout
    ensures dead == DeadInLeave(s, LeaveTicks(s, timeout))
  {
    gone, dead := false, [];
    for t := 0 to timeout
      invariant !gone && (t > 0 ==> !By(s.leaves, t - 1))
      invariant dead == DeadInLeave(s, t)
    {
      dead := dead + s.leave(t);
      if By(s.leaves, t) { gone := true; return; }
    }
  }

  // ---- the fleet between two slots --------------------------------------------------------

  ghost predicate FreshPids(r: Plan) {
    && Distinct(r.olds) && |r.slots| == |r.olds|
    && (forall i :: 0 <= i < |r.slots| ==> r.slots[i].pid !in r.olds)
    && (forall i, j :: 0 <= i < j < |r.slots| ==> r.slots[i].pid != r.slots[j].pid)
  }

  ghost function PidsOf(slots: seq<Slot>): set<int> {
    set s | s in slots :: s.pid
  }

  /** Midway: the first n old relays replaced, the others untouched. */
  ghost function Mixed(r: Plan, n: nat): set<int>
    requires n <= |r.olds| && n <= |r.slots|
  {
    PidsOf(r.slots[..n]) + Elements(r.olds[n..])
  }

  /** Nothing dies on its own but a replacement that never gets verified. */
  ghost predicate Calm(s: Slot, timeout: nat) {
    s.pause == [] && (forall t :: s.wait(t) == [] && s.leave(t) == []) && (s.death.Some? ==> !Integrates(s, timeout))
  }

  ghost predicate AllCalm(r: Plan) {
    r.finale == [] && forall i :: 0 <= i < |r.slots| ==> Calm(r.slots[i], r.integrate)
  }

  /** The verified replacements are those of the first n slots. */
  ghost predicate VerifiedUpTo(slots: seq<Slot>, trace: seq<Event>, n: nat) {
    forall i :: 0 <= i < |slots| ==> (Verified(slots[i].pid) in trace <==> i < n)
  }

  /** Right after the first count or a census: exactly the first n replacements and the later old relays run. */
  ghost predicate AtCount(r: Plan, trace: seq<Event>, n: nat) {
    && FreshPids(r) && n <= |r.slots|
    && Steady(r, trace) && SinceCount(trace) && VerifiedUpTo(r.slots, trace, n)
    && Live(r.olds, trace) == Mixed(r, n)
  }

  lemma ReplacedAt(r: Plan, n: nat)
    requires FreshPids(r) && n < |r.slots|
    ensures Mixed(r, n) + {r.slots[n].pid} - {r.olds[n]} == Mixed(r, n + 1)
    ensures |Mixed(r, n + 1)| == |Mixed(r, n)|
    ensures r.slots[n].pid !in Mixed(r, n) && r.olds[n] !in Mixed(r, n + 1) && |r.slots| == |r.olds|
  {
    var a, b := Mixed(r, n), Mixed(r, n + 1);
    assert r.slots[..n + 1] == r.slots[..n] + [r.slots[n]];
    assert PidsOf(r.slots[..n + 1]) == PidsOf(r.slots[..n]) + {r.slots[n].pid};
    assert r.olds[n..] == [r.olds[n]] + r.olds[n + 1..];
    assert Elements(r.olds[n..]) == Elements(r.olds[n + 1..]) + {r.olds[n]};
    assert r.olds[n] !in r.olds[n + 1..];
    assert r.olds[n] in a && r.slots[n].pid !in a && r.olds[n] !in PidsOf(r.slots[..n + 1]);
    assert b == a + {r.slots[n].pid} - {r.olds[n]};
  }

  lemma MixedFirst(r: Plan)
    requires FreshPids(r)
    ensures Mixed(r, 0) == Elements(r.olds) && |Mixed(r, 0)| == |r.olds|
  {
    DistinctCardinality(r.olds);
    assert r.olds[0..] == r.olds;
  }

  lemma {:induction false} MixedSize(r: Plan, n: nat)
    requires FreshPids(r) && n <= |r.slots|
    ensures |Mixed(r, n)| == |r.olds|
  {
    hide Mixed, FreshPids;
    if n == 0 {
      MixedFirst(r);
    } else {
      MixedSize(r, n - 1);
      ReplacedAt(r, n - 1);
    }
  }

  // ---- one slot, step by step --------------------------------------------------------------

  lemma StartSlot(r: Plan, trace: seq<Event>, n: nat)
    requires FreshPids(r) && n < |r.slots| && Steady(r, trace) && SinceCount(trace) && VerifiedUpTo(r.slots, trace, n)
    requires Live(r.olds, trace) <= Mixed(r, n)
    ensures var t := trace + [Started(r.slots[n].pid)];
            && Steady(r, t) && VerifiedUpTo(r.slots, t, n)
            && Live(r.olds, t) == Live(r.olds, trace) + {r.slots[n].pid}
            && |Live(r.olds, t)| <= |r.olds| + 1 <= |Live(r.olds, t)| + Deaths(r.olds, t)
            && (Full(r.olds, trace) <==> Full(r.olds, t))
  {
    hide Live, Deaths, SinceCount, Mixed, Full;
    var e := Started(r.slots[n].pid);
    ReplacedAt(r, n);
    MixedSize(r, n);
    SmallerSubset(Live(r.olds, trace), Mixed(r, n));
    Extend(r.olds, trace, e);
    StepKeepsSteady(r, trace, e);
    if Full(r.olds, trace) { FullNow(r.olds, trace); }
    FullExtend(r.olds, trace, e);
  }

  lemma VerifySlot(r: Plan, trace: seq<Event>, n: nat)
    requires FreshPids(r) && Steady(r, trace) && VerifiedUpTo(r.slots, trace, n) && n < |r.slots|
    requires Integrates(r.slots[n], r.integrate) && Started(r.slots[n].pid) in trace
    ensures var t := trace + [Verified(r.slots[n].pid)];
            && Steady(r, t) && VerifiedUpTo(r.slots, t, n + 1)
            && Live(r.olds, t) == Live(r.olds, trace) && Deaths(r.olds, t) == Deaths(r.olds, trace)
            && (Full(r.olds, trace) <==> Full(r.olds, t))
  {
    hide Live, Deaths, SinceCount, Integrates;
    var e := Verified(r.slots[n].pid);
    Extend(r.olds, trace, e);
    StepKeepsSteady(r, trace, e);
    forall i | 0 <= i < |r.slots| ensures Verified(r.slots[i].pid) in trace + [e] <==> i < n + 1 {
      if i < n { assert r.slots[i].pid != r.slots[n].pid; }
      if i > n { assert r.slots[i].pid != r.slots[n].pid; }
    }
  }

  /** The stop of slot n: of the old relay behind a verified replacement, or else of the replacement. */
  lemma StopSlot(r: Plan, trace: seq<Event>, n: nat, p: int)
    requires FreshPids(r) && Steady(r, trace) && n < |r.slots|
    requires if Verified(r.slots[n].pid) in trace then p == r.olds[n] else p == r.slots[n].pid
    requires |r.olds| + 1 <= |Live(r.olds, trace)| + Deaths(r.olds, trace) && |Live(r.olds, trace)| <= |r.olds| + 1
    ensures var t := trace + [Stopped(p)];
            && Steady(r, t) && Live(r.olds, t) == Live(r.olds, trace) - {p}
            && (forall q :: Verified(q) in t <==> Verified(q) in trace)
            && (Full(r.olds, t) <==> Full(r.olds, trace) && |Live(r.olds, trace) - {p}| >= |r.olds|)
  {
    hide Live, Deaths, Steady, SinceCount;
    Extend(r.olds, trace, Stopped(p));
    StepKeepsSteady(r, trace, Stopped(p));
    FullExtend(r.olds, trace, Stopped(p));
  }

  /** A census at full strength: who runs is then known exactly. */
  lemma CountSlot(r: Plan, trace: seq<Event>, n: nat)
    requires FreshPids(r) && n <= |r.slots| && Steady(r, trace) && VerifiedUpTo(r.slots, trace, n)
    requires Live(r.olds, trace) <= Mixed(r, n)
    ensures |Live(r.olds, trace)| == |r.olds| <==> Live(r.olds, trace) == Mixed(r, n)
    ensures Live(r.olds, trace) == Mixed(r, n) ==>
              AtCount(r, trace + [Counted], n) && (Full(r.olds, trace + [Counted]) <==> Full(r.olds, trace))
  {
    hide Live, Deaths, Mixed, Full;
    MixedSize(r, n);
    SmallerSubset(Live(r.olds, trace), Mixed(r, n));
    Extend(r.olds, trace, Counted);
    if Live(r.olds, trace) == Mixed(r, n) {
      StepKeepsSteady(r, trace, Counted);
      FullExtend(r.olds, trace, Counted);
    }
  }

  /** Relays that die on their own leave the live set and the trace stays steady. */
  method Lose(r: Plan, live: set<int>, ghost trace: seq<Event>, dead: seq<int>)
    returns (left: set<int>, ghost after: seq<Event>)
    requires live == Live(r.olds, trace) && Steady(r, trace)
    ensures left == live - Elements(dead) && left == Live(r.olds, after) && Steady(r, after)
    ensures SinceCount(trace) ==> SinceCount(after)
    ensures Full(r.olds, after) <==> Full(r.olds, trace) && |left| >= |r.olds|
    ensures |left| <= |live| && |left| + Deaths(r.olds, after) == |live| + Deaths(r.olds, trace)
    ensures forall e: Event :: !e.Died? ==> (e in after <==> e in trace)
    ensures forall n: nat :: VerifiedUpTo(r.slots, trace, n) ==> VerifiedUpTo(r.slots, after, n)
  {
    hide Live, Deaths, Steady, Full, SinceCount;
    left := live - set p | p in dead;
    assert left == live - Elements(dead);
    FullDying(r, trace, dead);
    after := trace + Dying(dead);
    DyingKeepsSteady(r, trace, dead);
    forall e: Event | !e.Died? ensures e in after <==> e in trace { DyingMembers(dead, e); }
    SubsetCardinality(left, live);
  }

  // ---- what calm means for a slot ---------------------------------------------------------

  lemma {:induction false} NobodyDies(s: Slot, ticks: nat)
    requires forall t :: s.wait(t) == [] && s.leave(t) == []
    ensures Elements(DeadInWait(s, ticks)) <= {s.pid} && (s.death.None? ==> DeadInWait(s, ticks) == [])
    ensures DeadInLeave(s, ticks) == []
  {
    if ticks > 0 { NobodyDies(s, ticks - 1); }
  }

  /** In a calm slot a verified replacement costs nobody, and another one at most itself. */
  lemma CalmLoses(s: Slot, integrate: nat, leave: nat)
    requires Calm(s, integrate)
    ensures LostBefore(s, integrate) <= {s.pid}
    ensures Integrates(s, integrate) ==> Lost(s, integrate, leave) == {}
  {
    NobodyDies(s, WaitTicks(s, integrate));
    NobodyDies(s, LeaveTicks(s, leave));
  }

  /** The slot goes through: its replacement integrates, and nobody who should then be running is lost. */
  ghost predicate Passes(r: Plan, n: nat)
    requires n < |r.slots| == |r.olds|
  {
    Integrates(r.slots[n], r.integrate) && Lost(r.slots[n], r.integrate, r.leave) !! Mixed(r, n + 1)
  }

  /** What is live when a slot ends either way, in terms of who was lost. */
  lemma SlotSets(r: Plan, n: nat)
    requires FreshPids(r) && n < |r.slots|
    ensures |r.slots| == |r.olds|
    ensures var s := r.slots[n];
            var started := Mixed(r, n) - Elements(s.pause) + {s.pid} - Elements(DeadInWait(s, WaitTicks(s, r.integrate)));
            && started - {s.pid} == Mixed(r, n) - LostBefore(s, r.integrate)
            && started - Elements(DeadInLeave(s, LeaveTicks(s, r.leave))) - {r.olds[n]}
               == Mixed(r, n + 1) - Lost(s, r.integrate, r.leave)
    ensures Passes(r, n)
            <==> Integrates(r.slots[n], r.integrate)
                 && Mixed(r, n + 1) - Lost(r.slots[n], r.integrate, r.leave) == Mixed(r, n + 1)
  {
    hide Mixed, Integrates, FreshPids, DeadInWait, DeadInLeave, WaitTicks, LeaveTicks, Elements;
    ReplacedAt(r, n);
  }

  // ---- the script -----------------------------------------------------------------------------

  /** The start of a slot and its wait. */
  method StartAndAwait(r: Plan, n: nat, census: set<int>, ghost trace: seq<Event>)
    returns (ok: bool, live: set<int>, ghost after: seq<Event>)
    requires n < |r.slots| && AtCount(r, trace, n) && census == Live(r.olds, trace)
    ensures ok == Integrates(r.slots[n], r.integrate)
    ensures live == census - Elements(r.slots[n].pause) + {r.slots[n].pid}
                    - Elements(DeadInWait(r.slots[n], WaitTicks(r.slots[n], r.integrate)))
    ensures live == Live(r.olds, after) && |live| <= |r.olds| + 1 <= |live| + Deaths(r.olds, after)
    ensures Steady(r, after) && VerifiedUpTo(r.slots, after, if ok then n + 1 else n)
    ensures Full(r.olds, after)
            <==> Full(r.olds, trace) && |census - Elements(r.slots[n].pause)| >= |r.olds| && |live| >= |r.olds|
  {
    hide Live, Deaths, Steady, Full, Distinct, Mixed, SinceCount, Integrates, WaitTicks, FreshPids, VerifiedUpTo, DeadInWait;
    var s := r.slots[n];
    live, after := Lose(r, census, trace, s.pause);
    StartSlot(r, after, n);
    live, after := live + {s.pid}, after + [Started(s.pid)];
    var okBanner, okMesh, dead := Await(s, r.integrate);
    live, after := Lose(r, live, after, dead);
    ok := okBanner && okMesh;
    if ok {
      VerifySlot(r, after, n);
      after := after + [Verified(s.pid)];
    }
  }

  /** The leave of slot n, behind its verified replacement. */
  method LetGo(r: Plan, n: nat, live: set<int>, ghost trace: seq<Event>)
    returns (left: set<int>, ghost after: seq<Event>)
    requires FreshPids(r) && n < |r.slots| && Steady(r, trace) && live == Live(r.olds, trace)
    requires VerifiedUpTo(r.slots, trace, n + 1) && |live| <= |r.olds| + 1 <= |live| + Deaths(r.olds, trace)
    ensures left == live - Elements(DeadInLeave(r.slots[n], LeaveTicks(r.slots[n], r.leave))) - {r.olds[n]}
    ensures left == Live(r.olds, after) && Steady(r, after) && VerifiedUpTo(r.slots, after, n + 1)
    ensures Full(r.olds, after) <==> Full(r.olds, trace) && |left| >= |r.olds|
  {
    hide Live, Deaths, Steady, Full, SinceCount;
    var gone, lost := AwaitLeave(r.slots[n], r.leave);
    left, after := Lose(r, live, trace, lost);
    StopSlot(r, after, n, r.olds[n]);
    SubsetCardinality(left - {r.olds[n]}, left);
    left, after := left - {r.olds[n]}, after + [Stopped(r.olds[n])];
  }

  /** One slot: start, wait for proof, only then let the old relay go, and count. */
  method RollSlot(r: Plan, n: nat, census: set<int>, ghost trace: seq<Event>)
    returns (stop: Option<Outcome>, live: set<int>, ghost after: seq<Event>)
    requires n < |r.slots| && AtCount(r, trace, n) && census == Live(r.olds, trace)
    ensures live == Live(r.olds, after) && Steady(r, after)
    ensures stop.None? <==> Passes(r, n)
    ensures stop.None? ==> AtCount(r, after, n + 1)
    ensures stop.Some? ==> stop.value == if Integrates(r.slots[n], r.integrate) then CensusOff(n) else NotIntegrated(n)
    ensures stop == Some(NotIntegrated(n)) ==> live == Mixed(r, n) - LostBefore(r.slots[n], r.integrate)
    ensures stop == Some(CensusOff(n)) ==> live == Mixed(r, n + 1) - Lost(r.slots[n], r.integrate, r.leave)
    ensures stop.None? ==> (Full(r.olds, after) <==> Full(r.olds, trace) && r.olds[n] !in r.slots[n].pause)
    ensures AllCalm(r) && Full(r.olds, trace) ==> Full(r.olds, after)
  {
    hide Live, Deaths, Steady, Full, Calm, Integrates, Mixed, VerifiedUpTo, SinceCount, FreshPids, AllCalm,
         DeadInWait, DeadInLeave, WaitTicks, LeaveTicks, Elements, Lost, LostBefore, Passes;
    var s := r.slots[n];
    var ok;
    ok, live, after := StartAndAwait(r, n, census, trace);
    SlotSets(r, n);
    MixedSize(r, n);
    FullSlot(r, n, live);
    VerifiedIs(r.slots, after, if ok then n + 1 else n, n);
    CalmSlot(r, n);
    if !ok {
      StopSlot(r, after, n, s.pid);
      live, after := live - {s.pid}, after + [Stopped(s.pid)];
      return Some(NotIntegrated(n)), live, after;
    }
    live, after := LetGo(r, n, live, after);
    CountSlot(r, after, n + 1);
    if |live| != |r.olds| {
      stop := Some(CensusOff(n));
    } else {
      stop, after := None, after + [Counted];
    }
  }

  /** Who is short during a slot: only the loss of the leaving relay before the start is made good unnoticed. */
  lemma FullSlot(r: Plan, n: nat, started: set<int>)
    requires FreshPids(r) && n < |r.slots|
    requires started == Mixed(r, n) - Elements(r.slots[n].pause) + {r.slots[n].pid}
                        - Elements(DeadInWait(r.slots[n], WaitTicks(r.slots[n], r.integrate)))
    ensures Passes(r, n) ==> |started| >= |r.olds|
                             && (|Mixed(r, n) - Elements(r.slots[n].pause)| >= |r.olds| <==> r.olds[n] !in r.slots[n].pause)
    ensures AllCalm(r) ==> |started| >= |r.olds| && |Mixed(r, n) - Elements(r.slots[n].pause)| >= |r.olds|
  {
    hide WaitTicks, DeadInWait, DeadInLeave, LeaveTicks, Mixed, Integrates, FreshPids;
    ReplacedAt(r, n);
    var s, p, m, next := r.slots[n], r.slots[n].pid, Mixed(r, n), Mixed(r, n + 1);
    MixedSize(r, n);
    if AllCalm(r) {
      CalmLoses(s, r.integrate, r.leave);
      assert m <= started && m - Elements(s.pause) == m;
      SubsetCardinality(m, started);
    }
    if Passes(r, n) {
      assert p in next && r.olds[n] in m by { InMixed(r, n); }
      PassedSets(m, next, p, r.olds[n], Elements(s.pause), Elements(DeadInWait(s, WaitTicks(s, r.integrate))));
    }
  }

  lemma InMixed(r: Plan, n: nat)
    requires FreshPids(r) && n < |r.slots|
    ensures r.slots[n].pid in Mixed(r, n + 1) && r.olds[n] in Mixed(r, n)
  {
    assert r.slots[..n + 1][n] == r.slots[n] && r.olds[n..][0] == r.olds[n];
    assert r.slots[n] in r.slots[..n + 1] && r.olds[n] in r.olds[n..];
  }

  lemma PassedSets(m: set<int>, next: set<int>, p: int, leaver: int, pause: set<int>, wait: set<int>)
    requires next == m + {p} - {leaver} && p !in m && leaver in m && leaver !in next && |next| == |m|
    requires (pause - {p} + wait) !! next && p in next
    ensures |m - pause + {p} - wait| >= |m|
    ensures |m - pause| >= |m| <==> leaver !in pause
  {
    assert next <= m - pause + {p} - wait;
    SubsetCardinality(next, m - pause + {p} - wait);
    if leaver in pause {
      assert m - pause <= m - {leaver};
      SubsetCardinality(m - pause, m - {leaver});
    } else {
      forall x | x in m ensures x !in pause { assert x == leaver || x in next; }
      assert m - pause == m;
    }
  }

  lemma CalmSlot(r: Plan, n: nat)
    requires FreshPids(r) && n < |r.slots|
    ensures AllCalm(r) && Integrates(r.slots[n], r.integrate) ==> Lost(r.slots[n], r.integrate, r.leave) == {} && Passes(r, n)
    ensures AllCalm(r) ==> Mixed(r, n) - LostBefore(r.slots[n], r.integrate) == Mixed(r, n) && r.olds[n] !in r.slots[n].pause
    ensures |Mixed(r, n)| == |Mixed(r, n + 1)| == |r.olds|
  {
    hide Mixed, LostBefore, Lost, Integrates;
    if AllCalm(r) { CalmLoses(r.slots[n], r.integrate, r.leave); }
    ReplacedAt(r, n);
    MixedSize(r, n);
  }

  lemma VerifiedIs(slots: seq<Slot>, trace: seq<Event>, n: nat, i: nat)
    requires VerifiedUpTo(slots, trace, n) && i < |slots|
    ensures Verified(slots[i].pid) in trace <==> i < n
  {
  }

  lemma Begins(r: Plan)
    requires FreshPids(r)
    ensures AtCount(r, [], 0) && Live(r.olds, []) == Elements(r.olds) && Full(r.olds, []) && Steady(r, [])
    ensures |r.slots| == |r.olds|
  {
    DistinctCardinality(r.olds);
    assert r.olds[0..] == r.olds;
  }

  lemma Ends(r: Plan, trace: seq<Event>)
    requires AtCount(r, trace, |r.slots|)
    ensures Live(r.olds, trace) == PidsOf(r.slots) && |PidsOf(r.slots)| == |r.olds| && Steady(r, trace)
  {
    hide Live, Steady;
    MixedSize(r, |r.slots|);
    assert r.slots[..|r.slots|] == r.slots && r.olds[|r.olds|..] == [];
  }

  /**
   * Whatever dies meanwhile, the trace is steady, and outcome and survivors are known: the roll completes
   * exactly when every slot goes through and nobody dies before the final count, with exactly the
   * replacements running; the final count is off exactly when all slots went through and somebody died in
   * the last pause; otherwise it stops at the first slot that does not go through.
   */
  method Roll(vendored: bool, count: int, r: Plan) returns (o: Outcome, live: set<int>, ghost trace: seq<Event>)
    requires FreshPids(r)
    ensures live == Live(r.olds, trace) && Steady(r, trace)
    ensures o in {KernelMismatch, CountMismatch, NoFleet} ==> trace == []
    ensures o == KernelMismatch <==> !vendored
    ensures o == CountMismatch <==> vendored && |r.olds| != count
    ensures o == NoFleet <==> vendored && |r.olds| == count == 0
    ensures o.Complete? || o.FinalCountOff?
            <==> vendored && |r.olds| == count > 0 && forall i :: 0 <= i < |r.slots| ==> Passes(r, i)
    ensures o.FinalCountOff? ==> live == PidsOf(r.slots) - Elements(r.finale) && live != PidsOf(r.slots)
    ensures o.Complete? ==> live == PidsOf(r.slots) && |live| == count && PidsOf(r.slots) !! Elements(r.finale)
    ensures o.NotIntegrated? ==>
              && o.slot < |r.slots| && !Integrates(r.slots[o.slot], r.integrate) && (forall i :: 0 <= i < o.slot ==> Passes(r, i))
              && live == Mixed(r, o.slot) - LostBefore(r.slots[o.slot], r.integrate)
    ensures o.CensusOff? ==>
              && o.slot < |r.slots| && Integrates(r.slots[o.slot], r.integrate) && !Passes(r, o.slot)
              && (forall i :: 0 <= i < o.slot ==> Passes(r, i))
              && live == Mixed(r, o.slot + 1) - Lost(r.slots[o.slot], r.integrate, r.leave)
    ensures o.Complete? ==> (Full(r.olds, trace) <==> forall i :: 0 <= i < |r.slots| ==> r.olds[i] !in r.slots[i].pause)
    ensures AllCalm(r) ==> Full(r.olds, trace)
    ensures o != WrongBanner
  {
    hide Live, Deaths, Steady, Full, Integrates, Calm, AllCalm, AtCount, FreshPids, PidsOf, Mixed, Passes, SinceCount,
         Lost, LostBefore;
    live, trace := (set p | p in r.olds), [];
    Begins(r);
    if !vendored { return KernelMismatch, live, trace; }
    if |r.olds| != count { return CountMismatch, live, trace; }
    if |r.olds| == 0 { return NoFleet, live, trace; }
    for n := 0 to |r.olds|
      invariant AtCount(r, trace, n) && live == Live(r.olds, trace)
      invariant AllCalm(r) ==> Full(r.olds, trace)
      invariant Full(r.olds, trace) <==> forall i :: 0 <= i < n ==> r.olds[i] !in r.slots[i].pause
      invariant forall i :: 0 <= i < n ==> Passes(r, i)
    {
      var stop;
      stop, live, trace := RollSlot(r, n, live, trace);
      if stop.Some? { return stop.value, live, trace; }
    }
    Ends(r, trace);
    CalmFinale(r);
    SmallerSubset(live - Elements(r.finale), live);
    live, trace := Lose(r, live, trace, r.finale);
    if |live| != count { return FinalCountOff, live, trace; }
    var bad := false;
    for i := 0 to |r.slots|
      invariant !bad
    {
      BannerSeen(r, i);
      if r.slots[i].banner.None? { bad := true; }
    }
    if bad { return WrongBanner, live, trace; }
    o := Complete;
  }

  lemma CalmFinale(r: Plan)
    ensures AllCalm(r) ==> r.finale == [] && Elements(r.finale) == {}
  {
  }

  lemma BannerSeen(r: Plan, i: nat)
    requires i < |r.slots| == |r.olds| && Passes(r, i)
    ensures r.slots[i].banner.Some?
  {
  }

  /** When nothing else dies, every slot whose replacement integrates goes through, and an abort leaves all who should run. */
  lemma CalmOutcome(r: Plan, i: nat)
    requires FreshPids(r) && AllCalm(r) && i < |r.slots|
    ensures Passes(r, i) <==> Integrates(r.slots[i], r.integrate)
    ensures Mixed(r, i) - LostBefore(r.slots[i], r.integrate) == Mixed(r, i)
    ensures PidsOf(r.slots) !! Elements(r.finale)
  {
    CalmSlot(r, i);
  }

  /** The fleet can dip below EXPECT and the roll still complete: the relay about to be replaced dies in the pause before. */
  lemma UnnoticedDip(quiet: nat -> seq<int>)
    requires forall t :: quiet(t) == []
    ensures var r := Plan([1], [Slot(100, Some(0), Some(0), None, Some(0), [1], quiet, quiet)], 180, 45, []);
            && FreshPids(r) && Passes(r, 0) && PidsOf(r.slots) !! Elements(r.finale)
            && r.olds[0] in r.slots[0].pause
  {
    var s := Slot(100, Some(0), Some(0), None, Some(0), [1], quiet, quiet);
    var r := Plan([1], [s], 180, 45, []);
    NobodyDies(s, WaitTicks(s, 180));
    NobodyDies(s, LeaveTicks(s, 45));
    assert r.slots[..1] == [s] && r.olds[1..] == [] && s in [s];
    assert Mixed(r, 1) == {100};
    assert Lost(s, 180, 45) == {1};
  }

  // ---- what a steady trace means ----------------------------------------------------------

  lemma {:induction false} SteadyEarlier(r: Plan, trace: seq<Event>, k: nat)
    requires Steady(r, trace) && k <= |trace|
    ensures Steady(r, trace[..k])
    decreases |trace|
  {
    hide Allowed, Live, Deaths;
    if k < |trace| {
      SteadyEarlier(r, trace[..|trace| - 1], k);
      assert trace[..|trace| - 1][..k] == trace[..k];
    } else {
      assert trace[..k] == trace;
    }
  }

  lemma StepAllowed(r: Plan, trace: seq<Event>, k: nat)
    requires Steady(r, trace) && k < |trace|
    ensures Allowed(r, trace[..k], trace[k]) && Steady(r, trace[..k])
  {
    hide Allowed, Live, Deaths;
    SteadyEarlier(r, trace, k + 1);
    assert trace[..k + 1][..k] == trace[..k];
  }

  /** At every moment: full strength less those that have died on their own, or more, and at most one over. */
  lemma NeverBelow(r: Plan, trace: seq<Event>, k: nat)
    requires Steady(r, trace) && k <= |trace|
    ensures |r.olds| - Deaths(r.olds, trace[..k]) <= |Live(r.olds, trace[..k])| <= |r.olds| + 1
  {
    hide Live, Deaths, Allowed;
    SteadyEarlier(r, trace, k);
  }

  /** When every moment was full, each is at EXPECT or one over. */
  lemma {:induction false} FullMeans(r: Plan, trace: seq<Event>, k: nat)
    requires Steady(r, trace) && Full(r.olds, trace) && k <= |trace|
    ensures |r.olds| <= |Live(r.olds, trace[..k])| <= |r.olds| + 1
    decreases |trace|
  {
    hide Live, Deaths, Allowed;
    if k < |trace| {
      FullMeans(r, trace[..|trace| - 1], k);
      assert trace[..|trace| - 1][..k] == trace[..k];
    } else {
      assert trace[..k] == trace;
    }
  }

  lemma {:induction false} LatestCount(trace: seq<Event>, k: nat) returns (j: nat)
    requires k <= |trace| && SinceCount(trace[..k])
    ensures j <= k && (j == 0 || trace[j - 1].Counted?) && forall l :: j <= l < k ==> trace[l].Died?
    decreases k
  {
    if k == 0 || trace[k - 1].Counted? {
      j := k;
    } else {
      assert trace[..k][..k - 1] == trace[..k - 1];
      j := LatestCount(trace, k - 1);
    }
  }

  /** Each slot starts from a moment at full strength since which others have at most died. */
  lemma StartsFromCount(r: Plan, trace: seq<Event>, k: nat) returns (j: nat)
    requires FreshPids(r) && Steady(r, trace) && k < |trace| && trace[k].Started?
    ensures j <= k && |Live(r.olds, trace[..j])| == |r.olds| && forall l :: j <= l < k ==> trace[l].Died?
  {
    hide Live, Deaths, Steady;
    StepAllowed(r, trace, k);
    j := LatestCount(trace, k);
    if j == 0 {
      Begins(r);
      assert trace[..0] == [];
      DistinctCardinality(r.olds);
    } else {
      StepAllowed(r, trace, j - 1);
      Extend(r.olds, trace[..j - 1], Counted);
      assert trace[..j] == trace[..j - 1] + [Counted];
    }
  }

  /** No old relay is stopped before its own replacement was started and passed both checks in time. */
  lemma NoEarlyStop(r: Plan, trace: seq<Event>, i: nat, k: nat)
    requires FreshPids(r) && Steady(r, trace)
    requires i < |r.olds| && k < |trace| && trace[k] == Stopped(r.olds[i])
    ensures Started(r.slots[i].pid) in trace[..k] && Verified(r.slots[i].pid) in trace[..k]
    ensures Integrates(r.slots[i], r.integrate)
  {
    hide Live, Deaths, Steady, Integrates, SinceCount;
    StepAllowed(r, trace, k);
    var j :| 0 <= j < |trace[..k]| && trace[..k][j] == Verified(r.slots[i].pid);
    StepAllowed(r, trace, j);
    assert Started(r.slots[i].pid) in trace[..j];
  }
}
