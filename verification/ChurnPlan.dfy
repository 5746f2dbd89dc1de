/** The seeded churn plan of a run (harness/gen-arm-plan.mjs). */
module ChurnPlan {
  import opened Prelude
  import opened Sorting

  const MODULUS: int := 2147483647
  const MULTIPLIER: int := 48271
  const MINUTE: int := 60_000

  datatype Host = Host(name: string, size: nat)

  datatype Kind = Roll | Kill | Sidecar | Unknown

  datatype Action = Action(atMs: int, kind: Kind, host: Option<string>, hostSize: Option<nat>, floorPct: Option<nat>)

  /** The least count that is at least pct percent of size. */
  function Floor(pct: nat, size: nat): (f: nat)
    ensures 100 * f >= pct * size && (f > 0 ==> 100 * (f - 1) < pct * size)
  {
    (pct * size + 99) / 100
  }

  predicate Killable(h: Host) {
    h.size - 1 >= Floor(95, h.size)
  }

  /** One relay less stays at 95% exactly when the host has at least twenty. */
  lemma KillableMeans(h: Host)
    ensures Killable(h) <==> h.size >= 20
  {
  }

  // ---- the generator ---------------------------------------------------------------

  function Seed(duration: int): (s: int)
    requires duration > 0
    ensures 1 <= s < MODULUS
  {
    if duration % MODULUS == 0 then 1 else duration % MODULUS
  }

  function NextState(s: int): int {
    s * MULTIPLIER % MODULUS
  }

  /** floor(rnd() * n) for the state drawn. */
  function Scaled(s: int, n: int): int {
    s * n / MODULUS
  }

  /** The multiplier has an inverse, so every state can be recovered from the next one. */
  lemma StateRecovered(s: int)
    requires 0 <= s < MODULUS
    ensures s == NextState(s) * 1899818559 % MODULUS
  {
    var k := s * 48271 / 2147483647;
    assert s * 48271 == k * 2147483647 + NextState(s);
    assert NextState(s) * 1899818559 == s + 2147483647 * (42704 * s - 1899818559 * k);
    Remainder(s, 42704 * s - 1899818559 * k);
  }

  lemma Remainder(s: int, q: int)
    requires 0 <= s < MODULUS
    ensures (s + 2147483647 * q) % MODULUS == s
  {
  }

  /** The state never reaches zero, from which it could not leave. */
  lemma StateStaysInRange(s: int)
    requires 1 <= s < MODULUS
    ensures 1 <= NextState(s) < MODULUS
  {
    StateRecovered(s);
  }

  lemma ScaledInRange(s: int, n: int)
    requires 1 <= s < MODULUS && n > 0
    ensures 0 <= Scaled(s, n) < n
  {
    ProductBelow(s, n);
  }

  lemma ProductBelow(s: int, n: int)
    requires 1 <= s < MODULUS && n > 0
    ensures 0 <= s * n < MODULUS * n
  {
  }

  // ---- the plan as a function --------------------------------------------------------------

  function RollAt(at: int, h: Host): Action {
    Action(at, Roll, Some(h.name), Some(h.size), Some(95))
  }

  function KillAt(at: int, h: Host): Action {
    Action(at, Kill, Some(h.name), Some(h.size), Some(95))
  }

  /** The host whose turn it is. */
  function TurnOf(hosts: seq<Host>, i: nat): Host
    requires hosts != []
  {
    hosts[i % |hosts|]
  }

  /** The rolls from `at` on, with generator state s and next host number hi. */
  function Rolls(s: int, at: int, hi: nat, duration: int, hosts: seq<Host>): seq<Action>
    requires 1 <= s < MODULUS && hosts != []
    decreases duration - at
  {
    if at < duration - MINUTE then
      StateStaysInRange(s);
      ScaledInRange(NextState(s), 15 * MINUTE);
      [RollAt(at, TurnOf(hosts, hi))]
      + Rolls(NextState(s), at + 15 * MINUTE + Scaled(NextState(s), 15 * MINUTE), hi + 1, duration, hosts)
    else []
  }

  function StateAfterRolls(s: int, at: int, duration: int): (r: int)
    requires 1 <= s < MODULUS
    ensures 1 <= r < MODULUS
    decreases duration - at
  {
    if at < duration - MINUTE then
      StateStaysInRange(s);
      ScaledInRange(NextState(s), 15 * MINUTE);
      StateAfterRolls(NextState(s), at + 15 * MINUTE + Scaled(NextState(s), 15 * MINUTE), duration)
    else s
  }

  function KillsOn(h: Host, k: int, duration: int): seq<Action>
    decreases duration - k
  {
    if k < duration - 5 * MINUTE then [KillAt(k, h)] + KillsOn(h, k + 120 * MINUTE, duration) else []
  }

  function FirstKill(s: int): int {
    120 * MINUTE + Scaled(NextState(s), 10 * MINUTE)
  }

  function Kills(s: int, hosts: seq<Host>, duration: int): seq<Action>
    decreases |hosts|
  {
    if hosts == [] then []
    else if Killable(hosts[0]) then
      KillsOn(hosts[0], FirstKill(s), duration) + Kills(NextState(s), hosts[1..], duration)
    else Kills(s, hosts[1..], duration)
  }

  function Unsorted(duration: int, hosts: seq<Host>): seq<Action>
    requires duration > 0 && hosts != []
  {
    var s := Seed(duration);
    Rolls(s, 5 * MINUTE, 0, duration, hosts) + Kills(StateAfterRolls(s, 5 * MINUTE, duration), hosts, duration)
  }

  function Earlier(): (Action, Action) -> bool {
    (x: Action, y: Action) => x.atMs <= y.atMs
  }

  /** With no host left the first roll fails, unless the duration leaves room for none. */
  function PlanOf(duration: int, hosts: seq<Host>): Option<seq<Action>>
    requires duration > 0
  {
    if hosts != [] then Some(StableSort(Earlier(), Unsorted(duration, hosts)))
    else if 5 * MINUTE < duration - MINUTE then None
    else Some([])
  }

  // ---- the script ------------------------------------------------------------------------------

  class Generator {
    var s: int

    constructor (duration: int)
      requires duration > 0
      ensures s == Seed(duration)
    {
      s := if duration % MODULUS == 0 then 1 else duration % MODULUS;
    }

    method Draw(n: int) returns (r: int)
      modifies this
      ensures s == NextState(old(s)) && r == Scaled(s, n)
    {
      s := s * MULTIPLIER % MODULUS;
      r := s * n / MODULUS;
    }
  }

  method PushRolls(g: Generator, duration: int, hosts: seq<Host>) returns (actions: seq<Action>)
    requires 1 <= g.s < MODULUS && hosts != []
    modifies g
    ensures actions == Rolls(old(g.s), 5 * MINUTE, 0, duration, hosts)
    ensures g.s == StateAfterRolls(old(g.s), 5 * MINUTE, duration)
  {
    hide TurnOf, NextState, Scaled;
    actions := [];
    var at, hi := 5 * MINUTE, 0;
    while at < duration - MINUTE
      invariant 1 <= g.s < MODULUS && hi >= 0
      invariant actions + Rolls(g.s, at, hi, duration, hosts) == Rolls(old(g.s), 5 * MINUTE, 0, duration, hosts)
      invariant StateAfterRolls(g.s, at, duration) == StateAfterRolls(old(g.s), 5 * MINUTE, duration)
      decreases duration - at
    {
      StateStaysInRange(g.s);
      ScaledInRange(NextState(g.s), 15 * MINUTE);
      actions := actions + [RollAt(at, TurnOf(hosts, hi))];
      hi := hi + 1;
      var jitter := g.Draw(15 * MINUTE);
      at := at + 15 * MINUTE + jitter;
    }
  }

  method PushKillsOn(h: Host, first: int, duration: int) returns (actions: seq<Action>)
    ensures actions == KillsOn(h, first, duration)
  {
    actions := [];
    var k := first;
    while k < duration - 5 * MINUTE
      invariant actions + KillsOn(h, k, duration) == KillsOn(h, first, duration)
      decreases duration - k
    {
      actions := actions + [KillAt(k, h)];
      k := k + 120 * MINUTE;
    }
  }

  method PushKills(g: Generator, duration: int, hosts: seq<Host>) returns (actions: seq<Action>)
    modifies g
    ensures actions == Kills(old(g.s), hosts, duration)
  {
    hide NextState, Scaled, KillsOn, Killable;
    actions := [];
    for i := 0 to |hosts|
      invariant actions + Kills(g.s, hosts[i..], duration) == Kills(old(g.s), hosts, duration)
    {
      assert hosts[i..][1..] == hosts[i + 1..];
      if Killable(hosts[i]) {
        var stagger := g.Draw(10 * MINUTE);
        var more := PushKillsOn(hosts[i], 120 * MINUTE + stagger, duration);
        actions := actions + more;
      }
    }
  }

  method Generate(duration: int, hosts: seq<Host>) returns (plan: Option<seq<Action>>)
    requires duration > 0
    ensures plan == PlanOf(duration, hosts)
  {
    var g := new Generator(duration);
    if hosts == [] {
      if 5 * MINUTE < duration - MINUTE { return None; }
      return Some([]);
    }
    var rolls := PushRolls(g, duration, hosts);
    var kills := PushKills(g, duration, hosts);
    return Some(StableSort(Earlier(), rolls + kills));
  }

  // ---- what the plan promises -------------------------------------------------------------------

  ghost predicate IsRoll(a: Action, h: Host) {
    a.kind.Roll? && a.host == Some(h.name) && a.hostSize == Some(h.size) && a.floorPct == Some(95)
  }

  /**
   * The rolls go round the hosts in turn, at least 15 and less than 30 minutes apart, all before the
   * cut-off, and the last is so late that the next might fall beyond it.
   */
  ghost predicate Spaced(r: seq<Action>, at: int, hi: nat, duration: int, hosts: seq<Host>)
    requires hosts != []
  {
    && (r == [] <==> at >= duration - MINUTE)
    && (r != [] ==> r[0].atMs == at && r[|r| - 1].atMs + 30 * MINUTE > duration - MINUTE)
    && (forall i :: 0 <= i < |r| ==> IsRoll(r[i], TurnOf(hosts, hi + i)) && at <= r[i].atMs < duration - MINUTE)
    && (forall i, j :: 0 <= i && j == i + 1 && j < |r| ==> 15 * MINUTE <= r[j].atMs - r[i].atMs < 30 * MINUTE)
  }

  lemma SpacedPrepend(rest: seq<Action>, at: int, later: int, hi: nat, duration: int, hosts: seq<Host>)
    requires hosts != [] && Spaced(rest, later, hi + 1, duration, hosts)
    requires at < duration - MINUTE && at + 15 * MINUTE <= later < at + 30 * MINUTE
    ensures Spaced([RollAt(at, TurnOf(hosts, hi))] + rest, at, hi, duration, hosts)
  {
    hide TurnOf, IsRoll;
    var r := [RollAt(at, TurnOf(hosts, hi))] + rest;
    assert IsRoll(r[0], TurnOf(hosts, hi + 0)) by { IsRollAt(at, TurnOf(hosts, hi)); }
    forall i | 1 <= i < |r| ensures IsRoll(r[i], TurnOf(hosts, hi + i)) {
      assert r[i] == rest[i - 1] && hi + i == hi + 1 + (i - 1);
    }
    forall i, j | 0 <= i && j == i + 1 && j < |r| ensures 15 * MINUTE <= r[j].atMs - r[i].atMs < 30 * MINUTE {
      if i > 0 { assert r[i] == rest[i - 1] && r[j] == rest[j - 1]; }
    }
  }

  lemma IsRollAt(at: int, h: Host)
    ensures IsRoll(RollAt(at, h), h)
  {
  }

  lemma {:induction false} RollsSpaced(s: int, at: int, hi: nat, duration: int, hosts: seq<Host>)
    requires 1 <= s < MODULUS && hosts != []
    ensures Spaced(Rolls(s, at, hi, duration, hosts), at, hi, duration, hosts)
    decreases duration - at
  {
    if at < duration - MINUTE {
      StateStaysInRange(s);
      var n := NextState(s);
      ScaledInRange(n, 15 * MINUTE);
      hide Spaced, TurnOf, NextState, Scaled;
      var later := at + 15 * MINUTE + Scaled(n, 15 * MINUTE);
      RollsSpaced(n, later, hi + 1, duration, hosts);
      SpacedPrepend(Rolls(n, later, hi + 1, duration, hosts), at, later, hi, duration, hosts);
    }
  }

  /** The turns go through the hosts in their order, over and over. */
  lemma TurnsRotate(hosts: seq<Host>, i: nat)
    requires hosts != []
    ensures i < |hosts| ==> TurnOf(hosts, i) == hosts[i]
    ensures TurnOf(hosts, i + |hosts|) == TurnOf(hosts, i)
  {
    Wraps(i, |hosts|);
  }

  lemma Wraps(i: nat, n: nat)
    requires n > 0
    ensures (i + n) % n == i % n
  {
    var q, r, q', r' := i / n, i % n, (i + n) / n, (i + n) % n;
    assert i == n * q + r && i + n == n * q' + r';
    Multiple(n, q + 1 - q', r' - r);
  }

  lemma Multiple(n: int, k: int, d: int)
    requires n > 0 && -n < d < n && n * k == d
    ensures d == 0
  {
    assert k >= 1 ==> n * k >= n;
    assert k <= -1 ==> n * k <= -n;
  }

  /** Kills on one host come two hours apart from the first on, all before their cut-off, and none is missing. */
  lemma {:induction false} KillsSpaced(h: Host, k: int, duration: int)
    ensures var r := KillsOn(h, k, duration);
            && (forall i :: 0 <= i < |r| ==> r[i] == KillAt(k + i * 120 * MINUTE, h) && r[i].atMs < duration - 5 * MINUTE)
            && k + |r| * 120 * MINUTE >= duration - 5 * MINUTE
    decreases duration - k
  {
    if k < duration - 5 * MINUTE {
      KillsSpaced(h, k + 120 * MINUTE, duration);
      var rest := KillsOn(h, k + 120 * MINUTE, duration);
      assert KillsOn(h, k, duration) == [KillAt(k, h)] + rest;
    }
  }

  /** A planned kill names a killable host, never before two hours, and before the cut-off. */
  lemma {:induction false} KillsFit(s: int, hosts: seq<Host>, duration: int, a: Action)
    requires 1 <= s < MODULUS && a in Kills(s, hosts, duration)
    ensures exists h :: h in hosts && Killable(h) && a == KillAt(a.atMs, h)
    ensures 120 * MINUTE <= a.atMs < duration - 5 * MINUTE
    decreases |hosts|
  {
    hide NextState, Killable, Scaled;
    StateStaysInRange(s);
    if Killable(hosts[0]) {
      ScaledInRange(NextState(s), 10 * MINUTE);
      KillsSpaced(hosts[0], FirstKill(s), duration);
      if a in KillsOn(hosts[0], FirstKill(s), duration) {
        assert hosts[0] in hosts && Killable(hosts[0]);
      } else {
        KillsFit(NextState(s), hosts[1..], duration, a);
      }
    } else {
      KillsFit(s, hosts[1..], duration, a);
    }
  }

  /** The emitted plan is the generated actions, each as often as generated, in order of time. */
  lemma PlanIsSorted(duration: int, hosts: seq<Host>)
    requires duration > 0 && hosts != []
    ensures var plan := PlanOf(duration, hosts).value;
            && multiset(plan) == multiset(Unsorted(duration, hosts))
            && forall i, j :: 0 <= i < j < |plan| ==> plan[i].atMs <= plan[j].atMs
  {
    hide StableSort, Unsorted;
    SortKeeps(Earlier(), Unsorted(duration, hosts));
    SortSorts(Earlier(), Unsorted(duration, hosts));
  }

  /** Every action of an emitted plan is a roll of one of the hosts or a kill on a killable one. */
  lemma PlanActions(duration: int, hosts: seq<Host>, a: Action)
    requires duration > 0 && hosts != [] && a in PlanOf(duration, hosts).value
    ensures exists h :: h in hosts && a.host == Some(h.name) && a.hostSize == Some(h.size) && a.floorPct == Some(95)
                        && (a.kind.Roll? || (a.kind.Kill? && Killable(h)))
  {
    hide StableSort, Rolls, Kills, Killable, TurnOf, StateAfterRolls;
    var s := Seed(duration);
    var later := StateAfterRolls(s, 5 * MINUTE, duration);
    assert a in Unsorted(duration, hosts);
    if a in Rolls(s, 5 * MINUTE, 0, duration, hosts) {
      RollsSpaced(s, 5 * MINUTE, 0, duration, hosts);
      var i :| 0 <= i < |Rolls(s, 5 * MINUTE, 0, duration, hosts)| && a == Rolls(s, 5 * MINUTE, 0, duration, hosts)[i];
      assert IsRoll(a, TurnOf(hosts, 0 + i));
      TurnIsMember(hosts, i);
    } else {
      KillsFit(later, hosts, duration, a);
    }
  }

  lemma TurnIsMember(hosts: seq<Host>, i: nat)
    requires hosts != []
    ensures TurnOf(hosts, i) in hosts
  {
  }

  // ---- kills in the minute of a roll --------------------------------------------------------------

  function Minute(t: int): int {
    t / MINUTE
  }

  /** A killable host and the offset of its first kill. */
  datatype First = First(host: Host, at: int)

  function FirstKills(s: int, hosts: seq<Host>): seq<First>
    decreases |hosts|
  {
    if hosts == [] then []
    else if Killable(hosts[0]) then [First(hosts[0], FirstKill(s))] + FirstKills(NextState(s), hosts[1..])
    else FirstKills(s, hosts[1..])
  }

  lemma {:induction false} KillsByHost(s: int, hosts: seq<Host>, duration: int, a: Action)
    ensures a in Kills(s, hosts, duration) <==> exists f :: f in FirstKills(s, hosts) && a in KillsOn(f.host, f.at, duration)
    decreases |hosts|
  {
    hide NextState, FirstKill, Killable, KillsOn;
    if hosts != [] {
      if Killable(hosts[0]) {
        KillsByHost(NextState(s), hosts[1..], duration, a);
        assert FirstKills(s, hosts)[0] == First(hosts[0], FirstKill(s));
      } else {
        KillsByHost(s, hosts[1..], duration, a);
      }
    }
  }

  /** Some kill of the host, whose first falls at `first`, shares a minute with a roll at t. */
  predicate SharesMinute(first: int, t: int, duration: int) {
    var later := Minute(t) - Minute(first);
    later >= 0 && later % 120 == 0 && first + later * MINUTE < duration - 5 * MINUTE
  }

  lemma KillMinute(k: int, i: nat)
    ensures Minute(k + i * 120 * MINUTE) == Minute(k) + i * 120
  {
    assert k + i * 120 * MINUTE == k + (i * 120) * MINUTE;
  }

  lemma HostSharesMinute(h: Host, first: int, duration: int, t: int)
    ensures SharesMinute(first, t, duration) <==> exists a :: a in KillsOn(h, first, duration) && Minute(a.atMs) == Minute(t)
  {
    hide Minute;
    var r := KillsOn(h, first, duration);
    KillsSpaced(h, first, duration);
    if a :| a in r && Minute(a.atMs) == Minute(t) {
      var i: nat :| i < |r| && r[i] == a;
      KillMinute(first, i);
    }
    if SharesMinute(first, t, duration) {
      var i: nat := (Minute(t) - Minute(first)) / 120;
      assert Minute(t) - Minute(first) == i * 120;
      KillMinute(first, i);
      NotBeyond(first, i, |r|, duration);
      hide KillsOn;
      assert r[i] in r && Minute(r[i].atMs) == Minute(t);
    }
  }

  lemma NotBeyond(first: int, i: nat, n: nat, duration: int)
    requires first + i * 120 * MINUTE < duration - 5 * MINUTE <= first + n * 120 * MINUTE
    ensures i < n
  {
  }

  /**
   * A plan has a kill in the minute of a roll exactly when some roll comes a whole number of two hours,
   * counted in minutes, after the first kill of some killable host, and that kill is before the cut-off.
   */
  lemma KillsMeetRolls(duration: int, hosts: seq<Host>)
    requires duration > 0 && hosts != []
    ensures var s := Seed(duration);
            var rolls, later := Rolls(s, 5 * MINUTE, 0, duration, hosts), StateAfterRolls(s, 5 * MINUTE, duration);
            (exists r, a :: r in rolls && a in Kills(later, hosts, duration) && Minute(a.atMs) == Minute(r.atMs))
            <==> exists r, f :: r in rolls && f in FirstKills(later, hosts) && SharesMinute(f.at, r.atMs, duration)
  {
    hide Rolls, StateAfterRolls, Kills, KillsOn, FirstKills, Minute, SharesMinute;
    var s := Seed(duration);
    var rolls, later := Rolls(s, 5 * MINUTE, 0, duration, hosts), StateAfterRolls(s, 5 * MINUTE, duration);
    if r, a :| r in rolls && a in Kills(later, hosts, duration) && Minute(a.atMs) == Minute(r.atMs) {
      KillsByHost(later, hosts, duration, a);
      var f :| f in FirstKills(later, hosts) && a in KillsOn(f.host, f.at, duration);
      HostSharesMinute(f.host, f.at, duration, r.atMs);
    }
    if r, f :| r in rolls && f in FirstKills(later, hosts) && SharesMinute(f.at, r.atMs, duration) {
      HostSharesMinute(f.host, f.at, duration, r.atMs);
      var a :| a in KillsOn(f.host, f.at, duration) && Minute(a.atMs) == Minute(r.atMs);
      KillsByHost(later, hosts, duration, a);
    }
  }

  /** The fleet the plan is written for. */
  function FrozenFleet(): seq<Host> {
    [Host("m4", 25), Host("m1", 12), Host("axona-linux", 5), Host("axona-win", 20)]
  }

  lemma OneDraw(s: int, at: int, hi: nat, duration: int, hosts: seq<Host>, next: int, later: int)
    requires 1 <= s < MODULUS && hosts != [] && at < duration - MINUTE
    requires next == NextState(s) && later == at + 15 * MINUTE + Scaled(next, 15 * MINUTE)
    ensures 1 <= next < MODULUS
    ensures Rolls(s, at, hi, duration, hosts) == [RollAt(at, TurnOf(hosts, hi))] + Rolls(next, later, hi + 1, duration, hosts)
    ensures StateAfterRolls(s, at, duration) == StateAfterRolls(next, later, duration)
  {
    StateStaysInRange(s);
  }

  /** It does happen: at 8,580,000 ms the frozen fleet's plan rolls m1 and kills on axona-win in minute 129. */
  lemma KillMeetsRollExample()
    ensures var d, hosts := 8_580_000, FrozenFleet();
            var later := StateAfterRolls(Seed(d), 5 * MINUTE, d);
            && RollAt(7_777_351, TurnOf(hosts, 5)) in Rolls(Seed(d), 5 * MINUTE, 0, d, hosts)
            && First(hosts[3], 7_782_385) in FirstKills(later, hosts)
            && SharesMinute(7_782_385, 7_777_351, d)
  {
    var d, hosts := 8_580_000, FrozenFleet();
    assert Seed(d) == d;
    ExampleDraws(d, hosts);
    ExampleFirstKills(hosts);
  }

  lemma ExampleDraws(d: int, hosts: seq<Host>)
    requires d == 8_580_000 && hosts != []
    ensures RollAt(7_777_351, TurnOf(hosts, 5)) in Rolls(d, 300_000, 0, d, hosts)
    ensures StateAfterRolls(d, 300_000, d) == 520_268_914
  {
    hide TurnOf, Rolls, StateAfterRolls;
    OneDraw(d, 300_000, 0, d, hosts, 1_848_319_776, 1_974_621);
    OneDraw(1_848_319_776, 1_974_621, 1, d, hosts, 888_309_034, 3_246_907);
    OneDraw(888_309_034, 3_246_907, 2, d, hosts, 759_400_565, 4_465_168);
    OneDraw(759_400_565, 4_465_168, 3, d, hosts, 1_626_302_472, 6_046_743);
    OneDraw(1_626_302_472, 6_046_743, 4, d, hosts, 1_981_909_827, 7_777_351);
    OneDraw(1_981_909_827, 7_777_351, 5, d, hosts, 520_268_914, 8_895_393);
    NoMoreRolls(520_268_914, 8_895_393, d);
  }

  lemma NoMoreRolls(s: int, at: int, duration: int)
    requires 1 <= s < MODULUS && at >= duration - MINUTE
    ensures StateAfterRolls(s, at, duration) == s
  {
  }

  lemma ExampleFirstKills(hosts: seq<Host>)
    requires hosts == FrozenFleet()
    ensures First(hosts[3], 7_782_385) in FirstKills(520_268_914, hosts)
  {
    var s, next := 520_268_914, 1_226_979_676;
    assert NextState(s) == next && NextState(next) == 2_084_439_583 && FirstKill(next) == 7_782_385;
    hide NextState, FirstKill;
    assert Killable(hosts[0]) && !Killable(hosts[1]) && !Killable(hosts[2]) && Killable(hosts[3]);
    assert hosts[1..][0] == hosts[1] && hosts[1..][1..] == hosts[2..];
    assert hosts[2..][0] == hosts[2] && hosts[2..][1..] == hosts[3..] && hosts[3..][0] == hosts[3];
    assert First(hosts[3], 7_782_385) in FirstKills(next, hosts[3..]);
    assert FirstKills(next, hosts[1..]) == FirstKills(next, hosts[3..]);
  }
}
