/** Which random draws a churn plan is made of (harness/gen-arm-plan.mjs). */
module PlanDraws {
  import opened Prelude
  import opened ChurnPlan

  function Power(k: nat): int {
    if k == 0 then 1 else 48271 * Power(k - 1)
  }

  /** The k-th state drawn after s, in closed form. */
  function Nth(s: int, k: nat): int {
    s * Power(k) % 2147483647
  }

  /** r is floor(x / 2147483647 * n), the number made of the state x. */
  predicate Makes(x: int, n: int, r: int) {
    r * 2147483647 <= x * n < (r + 1) * 2147483647
  }

  // ---- arithmetic of the states -----------------------------------------------------

  lemma ShiftedRemainder(x: int, q: int)
    ensures (x + 2147483647 * q) % 2147483647 == x % 2147483647
  {
  }

  lemma RemainderTimes(a: int, b: int)
    ensures a % 2147483647 * b % 2147483647 == a * b % 2147483647
  {
    var q, r := a / 2147483647, a % 2147483647;
    assert a == 2147483647 * q + r;
    Spread(2147483647, q, r, b);
    ShiftedRemainder(r * b, q * b);
  }

  lemma Spread(p: int, q: int, r: int, b: int)
    ensures (p * q + r) * b == r * b + p * (q * b)
  {
  }

  lemma Regroup(s: int, a: int, b: int)
    ensures s * a * b == s * (a * b)
  {
  }

  lemma {:induction false} PowerAdd(n: nat, k: nat)
    ensures Power(n + k) == Power(n) * Power(k)
  {
    if n > 0 {
      PowerAdd(n - 1, k);
      assert Power(n + k) == 48271 * Power(n - 1 + k);
      Regroup(48271, Power(n - 1), Power(k));
    }
  }

  /** Drawing n times and then k times is drawing n + k times. */
  lemma NthAdd(s: int, n: nat, k: nat)
    ensures Nth(Nth(s, n), k) == Nth(s, n + k)
  {
    PowerAdd(n, k);
    RemainderTimes(s * Power(n), Power(k));
    Regroup(s, Power(n), Power(k));
  }

  lemma OneDraw(s: int)
    ensures NextState(s) == Nth(s, 1)
  {
    assert Power(1) == 48271 * Power(0) == 48271;
  }

  lemma NoDraw(s: int)
    requires 1 <= s < MODULUS
    ensures Nth(s, 0) == s
  {
  }

  lemma ScaledMakes(x: int, n: int)
    ensures Makes(x, n, Scaled(x, n))
  {
  }

  // ---- the rolls ---------------------------------------------------------------------

  ghost predicate DrawnGaps(r: seq<Action>, s: int) {
    forall i, j :: 0 <= i && j == i + 1 && j < |r| ==> Makes(Nth(s, j), 15 * MINUTE, r[j].atMs - r[i].atMs - 15 * MINUTE)
  }

  lemma GapPrepend(a: Action, rest: seq<Action>, s: int)
    requires DrawnGaps(rest, NextState(s))
    requires rest != [] ==> Makes(Nth(s, 1), 15 * MINUTE, rest[0].atMs - a.atMs - 15 * MINUTE)
    ensures DrawnGaps([a] + rest, s)
  {
    hide Makes, Nth, NextState;
    var r := [a] + rest;
    forall i, j | 0 <= i && j == i + 1 && j < |r| ensures Makes(Nth(s, j), 15 * MINUTE, r[j].atMs - r[i].atMs - 15 * MINUTE) {
      if i > 0 {
        OneDraw(s);
        NthAdd(s, 1, i);
        assert rest[i].atMs - rest[i - 1].atMs == r[j].atMs - r[i].atMs;
      }
    }
  }

  /** Each roll comes fifteen minutes and one draw's share of fifteen more after the one before; the draws are used in order. */
  lemma {:induction false} RollsDrawn(s: int, at: int, hi: nat, duration: int, hosts: seq<Host>)
    requires 1 <= s < MODULUS && hosts != []
    ensures var r := Rolls(s, at, hi, duration, hosts);
            && DrawnGaps(r, s) && (r != [] ==> r[0].atMs == at) && StateAfterRolls(s, at, duration) == Nth(s, |r|)
    decreases duration - at
  {
    if at < duration - MINUTE {
      StateStaysInRange(s);
      var n := NextState(s);
      ScaledInRange(n, 15 * MINUTE);
      ScaledMakes(n, 15 * MINUTE);
      OneDraw(s);
      hide NextState, Scaled, TurnOf, Nth, Makes, DrawnGaps;
      var later := at + 15 * MINUTE + Scaled(n, 15 * MINUTE);
      RollsDrawn(n, later, hi + 1, duration, hosts);
      var rest := Rolls(n, later, hi + 1, duration, hosts);
      GapPrepend(RollAt(at, TurnOf(hosts, hi)), rest, s);
      NthAdd(s, 1, |rest|);
      assert |Rolls(s, at, hi, duration, hosts)| == 1 + |rest|;
    } else {
      NoDraw(s);
    }
  }

  // ---- the kills ---------------------------------------------------------------------

  ghost predicate DrawnStarts(f: seq<First>, s: int) {
    forall k :: 0 <= k < |f| ==> Makes(Nth(s, k + 1), 10 * MINUTE, f[k].at - 120 * MINUTE)
  }

  function HostsOf(f: seq<First>): seq<Host> {
    if f == [] then [] else [f[0].host] + HostsOf(f[1..])
  }

  /** The hosts with at least twenty relays, in their order. */
  function Large(hosts: seq<Host>): seq<Host> {
    if hosts == [] then [] else (if hosts[0].size >= 20 then [hosts[0]] else []) + Large(hosts[1..])
  }

  lemma StartPrepend(h: Host, rest: seq<First>, s: int)
    requires DrawnStarts(rest, NextState(s))
    ensures DrawnStarts([First(h, FirstKill(s))] + rest, s)
  {
    OneDraw(s);
    ScaledMakes(NextState(s), 10 * MINUTE);
    hide Makes, Nth, NextState, Scaled;
    var f := [First(h, FirstKill(s))] + rest;
    forall k | 0 <= k < |f| ensures Makes(Nth(s, k + 1), 10 * MINUTE, f[k].at - 120 * MINUTE) {
      if k > 0 {
        NthAdd(s, 1, k);
        assert f[k] == rest[k - 1];
      }
    }
  }

  /** Each large host, in order, has its first kill two hours and one draw's share of ten minutes after the start. */
  lemma {:induction false} FirstKillsDrawn(s: int, hosts: seq<Host>)
    ensures DrawnStarts(FirstKills(s, hosts), s) && HostsOf(FirstKills(s, hosts)) == Large(hosts)
    decreases |hosts|
  {
    if hosts != [] {
      KillableMeans(hosts[0]);
      hide NextState, FirstKill, Killable, DrawnStarts;
      if Killable(hosts[0]) {
        var rest := FirstKills(NextState(s), hosts[1..]);
        FirstKillsDrawn(NextState(s), hosts[1..]);
        StartPrepend(hosts[0], rest, s);
        assert ([First(hosts[0], FirstKill(s))] + rest)[1..] == rest;
      } else {
        FirstKillsDrawn(s, hosts[1..]);
      }
    } else {
      assert DrawnStarts([], s);
    }
  }

  // ---- the plan ----------------------------------------------------------------------

  /**
   * The draws of a plan, from its duration: the j-th, in closed form, is the gap before the j-th roll after
   * the first, and those after the last roll are the first kills of the large hosts, in their order.
   */
  lemma PlanDrawn(duration: int, hosts: seq<Host>)
    requires duration > 0 && hosts != []
    ensures var s := if duration % 2147483647 == 0 then 1 else duration % 2147483647;
            var rolls := Rolls(Seed(duration), 5 * MINUTE, 0, duration, hosts);
            var first := FirstKills(StateAfterRolls(Seed(duration), 5 * MINUTE, duration), hosts);
            && DrawnGaps(rolls, s) && (rolls != [] ==> rolls[0].atMs == 300_000)
            && HostsOf(first) == Large(hosts)
            && forall k :: 0 <= k < |first| ==> Makes(Nth(s, |rolls| + k + 1), 600_000, first[k].at - 7_200_000)
  {
    var s := Seed(duration);
    RollsDrawn(s, 5 * MINUTE, 0, duration, hosts);
    var rolls, after := Rolls(s, 5 * MINUTE, 0, duration, hosts), StateAfterRolls(s, 5 * MINUTE, duration);
    FirstKillsDrawn(after, hosts);
    hide DrawnGaps, Makes, Nth, Rolls, StateAfterRolls, FirstKills, HostsOf, Large;
    var first := FirstKills(after, hosts);
    forall k | 0 <= k < |first| ensures Makes(Nth(s, |rolls| + k + 1), 600_000, first[k].at - 7_200_000) {
      NthAdd(s, |rolls|, k + 1);
    }
  }
}
