/** Which sends are measured and what the verdict is, read off the rows themselves (harness/analyze-deliver-hop.mjs). */
module HopRules {
  import opened Prelude
  import opened Wilson
  import opened HopVerdict

  function First12(s: string): string {
    if |s| > 12 then s[..12] else s
  }

  predicate StampedLate(x: Tx, ev: Evidence) {
    x.t.Some? && x.t.value > ev.cutoff
  }

  predicate ToRelay(x: Tx, ev: Evidence) {
    x.to.Some? && First12(x.to.value) in ev.relays
  }

  /** Written, not after the cut-off, and to an instrumented relay. */
  predicate Sent(x: Tx, ev: Evidence) {
    x.written && !StampedLate(x, ev) && ToRelay(x, ev)
  }

  /** There is a receipt of this very send, at this hop, by its addressee. */
  predicate Receipted(x: Tx, ev: Evidence) {
    x.id in ev.rx && ev.rx[x.id].hopIdx == x.hopIdx && ev.rx[x.id].to == x.to
  }

  ghost function Local(tx: seq<Tx>): set<nat> {
    set i | 0 <= i < |tx| && !tx[i].written
  }

  ghost function Late(tx: seq<Tx>, ev: Evidence): set<nat> {
    set i | 0 <= i < |tx| && tx[i].written && StampedLate(tx[i], ev)
  }

  ghost function Elsewhere(tx: seq<Tx>, ev: Evidence): set<nat> {
    set i | 0 <= i < |tx| && tx[i].written && !StampedLate(tx[i], ev) && !ToRelay(tx[i], ev)
  }

  ghost function Sends(tx: seq<Tx>, ev: Evidence): set<nat> {
    set i | 0 <= i < |tx| && Sent(tx[i], ev)
  }

  ghost function Misses(tx: seq<Tx>, ev: Evidence): set<nat> {
    set i | 0 <= i < |tx| && Sent(tx[i], ev) && !Receipted(tx[i], ev)
  }

  ghost function ArrivedAt(tx: seq<Tx>, ev: Evidence, hop: int): set<nat> {
    set i | 0 <= i < |tx| && Sent(tx[i], ev) && Receipted(tx[i], ev) && tx[i].hopIdx == hop
  }

  ghost function LostAt(tx: seq<Tx>, ev: Evidence, hop: int): set<nat> {
    set i | 0 <= i < |tx| && Sent(tx[i], ev) && !Receipted(tx[i], ev) && tx[i].hopIdx == hop
  }

  // ---- the counters --------------------------------------------------------------------

  ghost function OfClass(tx: seq<Tx>, ev: Evidence, c: Class): set<nat> {
    set i | 0 <= i < |tx| && ClassOf(tx[i], ev) == c
  }

  ghost function OfClassAt(tx: seq<Tx>, ev: Evidence, c: Class, hop: int): set<nat> {
    set i | 0 <= i < |tx| && ClassOf(tx[i], ev) == c && tx[i].hopIdx == hop
  }

  lemma OfClassStep(tx: seq<Tx>, x: Tx, ev: Evidence, c: Class)
    ensures |OfClass(tx + [x], ev, c)| == |OfClass(tx, ev, c)| + if ClassOf(x, ev) == c then 1 else 0
  {
    hide ClassOf;
    var all, n := tx + [x], |tx|;
    assert forall i :: 0 <= i < n ==> all[i] == tx[i];
    if ClassOf(x, ev) == c {
      assert OfClass(all, ev, c) == OfClass(tx, ev, c) + {n};
    } else {
      assert OfClass(all, ev, c) == OfClass(tx, ev, c);
    }
  }

  lemma {:induction false} CountIsSize(tx: seq<Tx>, ev: Evidence, c: Class)
    ensures Count(tx, ev, c) == |OfClass(tx, ev, c)|
  {
    hide ClassOf;
    if tx == [] {
      assert OfClass(tx, ev, c) == {};
    } else {
      hide OfClass;
      CountIsSize(tx[..|tx| - 1], ev, c);
      OfClassStep(tx[..|tx| - 1], tx[|tx| - 1], ev, c);
      assert tx == tx[..|tx| - 1] + [tx[|tx| - 1]];
    }
  }

  lemma OfClassAtStep(tx: seq<Tx>, x: Tx, ev: Evidence, c: Class, hop: int)
    ensures |OfClassAt(tx + [x], ev, c, hop)| == |OfClassAt(tx, ev, c, hop)| + if ClassOf(x, ev) == c && x.hopIdx == hop then 1 else 0
  {
    hide ClassOf;
    var all, n := tx + [x], |tx|;
    assert forall i :: 0 <= i < n ==> all[i] == tx[i];
    if ClassOf(x, ev) == c && x.hopIdx == hop {
      assert OfClassAt(all, ev, c, hop) == OfClassAt(tx, ev, c, hop) + {n};
    } else {
      assert OfClassAt(all, ev, c, hop) == OfClassAt(tx, ev, c, hop);
    }
  }

  lemma {:induction false} CountAtIsSize(tx: seq<Tx>, ev: Evidence, c: Class, hop: int)
    ensures CountAt(tx, ev, c, hop) == |OfClassAt(tx, ev, c, hop)|
  {
    hide ClassOf;
    if tx == [] {
      assert OfClassAt(tx, ev, c, hop) == {};
    } else {
      hide OfClassAt;
      CountAtIsSize(tx[..|tx| - 1], ev, c, hop);
      OfClassAtStep(tx[..|tx| - 1], tx[|tx| - 1], ev, c, hop);
      assert tx == tx[..|tx| - 1] + [tx[|tx| - 1]];
    }
  }

  lemma ClassMeans(x: Tx, ev: Evidence)
    ensures ClassOf(x, ev) == LocalFailure <==> !x.written
    ensures ClassOf(x, ev) == Censored <==> x.written && StampedLate(x, ev)
    ensures ClassOf(x, ev) == Uninstrumented <==> x.written && !StampedLate(x, ev) && !ToRelay(x, ev)
    ensures ClassOf(x, ev) == Arrived <==> Sent(x, ev) && Receipted(x, ev)
    ensures ClassOf(x, ev) == Lost <==> Sent(x, ev) && !Receipted(x, ev)
  {
  }

  lemma ClassesAreSets(tx: seq<Tx>, ev: Evidence)
    ensures Local(tx) == OfClass(tx, ev, LocalFailure) && Late(tx, ev) == OfClass(tx, ev, Censored)
    ensures Elsewhere(tx, ev) == OfClass(tx, ev, Uninstrumented) && Misses(tx, ev) == OfClass(tx, ev, Lost)
  {
    forall i | 0 <= i < |tx| { ClassMeans(tx[i], ev); }
    hide ClassOf, StampedLate, ToRelay, Receipted, Sent;
  }

  lemma SendsAreTwoClasses(tx: seq<Tx>, ev: Evidence)
    ensures |Sends(tx, ev)| == |OfClass(tx, ev, Arrived)| + |OfClass(tx, ev, Lost)|
  {
    forall i | 0 <= i < |tx| { ClassMeans(tx[i], ev); }
    hide ClassOf, StampedLate, ToRelay, Receipted, Sent;
    assert Sends(tx, ev) == OfClass(tx, ev, Arrived) + OfClass(tx, ev, Lost);
    assert OfClass(tx, ev, Arrived) !! OfClass(tx, ev, Lost);
  }

  /** Each counter is the number of the rows it is named for. */
  lemma CountersMean(t: Tally, tx: seq<Tx>, ev: Evidence)
    requires HasCounts(t, tx, ev)
    ensures t.localFail == |Local(tx)| && t.censored == |Late(tx, ev)| && t.uninstrumented == |Elsewhere(tx, ev)|
    ensures t.okTx == |Sends(tx, ev)| && t.silent == |Misses(tx, ev)|
  {
    CountIsSize(tx, ev, LocalFailure);
    CountIsSize(tx, ev, Censored);
    CountIsSize(tx, ev, Uninstrumented);
    CountIsSize(tx, ev, Arrived);
    CountIsSize(tx, ev, Lost);
    ClassesAreSets(tx, ev);
    SendsAreTwoClasses(tx, ev);
    hide Count, OfClass, Local, Late, Elsewhere, Sends, Misses;
  }

  lemma AtHop(tx: seq<Tx>, ev: Evidence, hop: int)
    ensures CountAt(tx, ev, Arrived, hop) == |ArrivedAt(tx, ev, hop)| && CountAt(tx, ev, Lost, hop) == |LostAt(tx, ev, hop)|
  {
    CountAtIsSize(tx, ev, Arrived, hop);
    CountAtIsSize(tx, ev, Lost, hop);
    forall i | 0 <= i < |tx| { ClassMeans(tx[i], ev); }
    hide ClassOf, Receipted, Sent, CountAt;
    assert ArrivedAt(tx, ev, hop) == OfClassAt(tx, ev, Arrived, hop) && LostAt(tx, ev, hop) == OfClassAt(tx, ev, Lost, hop);
  }

  /** A hop has a stratum exactly when some send was measured there, and it counts the receipted and the missing ones. */
  lemma StrataMean(byHop: map<int, Stratum>, tx: seq<Tx>, ev: Evidence, hop: int)
    requires HasStrata(byHop, tx, ev)
    ensures hop in byHop <==> exists i :: 0 <= i < |tx| && Sent(tx[i], ev) && tx[i].hopIdx == hop
    ensures hop in byHop ==> byHop[hop].ok == |ArrivedAt(tx, ev, hop)| && byHop[hop].lost == |LostAt(tx, ev, hop)|
  {
    AtHop(tx, ev, hop);
    hide Sent, Receipted, CountAt;
    var both := ArrivedAt(tx, ev, hop) + LostAt(tx, ev, hop);
    if |ArrivedAt(tx, ev, hop)| + |LostAt(tx, ev, hop)| > 0 {
      var i :| i in both;
    }
    if i :| 0 <= i < |tx| && Sent(tx[i], ev) && tx[i].hopIdx == hop { assert i in both; }
  }

  // ---- censoring ---------------------------------------------------------------------------

  /** The rows not stamped after the cut-off. */
  function InTime(tx: seq<Tx>, ev: Evidence): seq<Tx> {
    if tx == [] then []
    else InTime(tx[..|tx| - 1], ev) + if StampedLate(tx[|tx| - 1], ev) then [] else [tx[|tx| - 1]]
  }

  lemma OneRowMore(tx: seq<Tx>, x: Tx, ev: Evidence, c: Class, hop: int)
    ensures CountAt(tx + [x], ev, c, hop) == CountAt(tx, ev, c, hop) + if ClassOf(x, ev) == c && x.hopIdx == hop then 1 else 0
  {
    assert (tx + [x])[..|tx|] == tx;
  }

  lemma {:induction false} LateNotMeasured(tx: seq<Tx>, ev: Evidence, c: Class, hop: int)
    requires c == Arrived || c == Lost
    ensures CountAt(InTime(tx, ev), ev, c, hop) == CountAt(tx, ev, c, hop)
  {
    if tx != [] {
      var init, x := tx[..|tx| - 1], tx[|tx| - 1];
      LateNotMeasured(init, ev, c, hop);
      assert tx == init + [x];
      ClassMeans(x, ev);
      OneRowMore(init, x, ev, c, hop);
      OneRowMore(InTime(init, ev), x, ev, c, hop);
      hide ClassOf, CountAt;
      assert InTime(init, ev) + [] == InTime(init, ev);
    }
  }

  /** Rows stamped after the cut-off change no stratum. */
  lemma LateChangesNoStratum(byHop: map<int, Stratum>, inTime: map<int, Stratum>, tx: seq<Tx>, ev: Evidence)
    requires HasStrata(byHop, tx, ev) && HasStrata(inTime, InTime(tx, ev), ev)
    ensures byHop == inTime
  {
    hide CountAt;
    forall h ensures CountAt(InTime(tx, ev), ev, Arrived, h) == CountAt(tx, ev, Arrived, h)
                     && CountAt(InTime(tx, ev), ev, Lost, h) == CountAt(tx, ev, Lost, h)
    {
      LateNotMeasured(tx, ev, Arrived, h);
      LateNotMeasured(tx, ev, Lost, h);
    }
    assert forall h :: h in byHop <==> h in inTime;
    assert byHop.Keys == inTime.Keys;
    forall h | h in byHop ensures byHop[h] == inTime[h] {}
  }

  /** And no verdict. */
  lemma LateChangesNoVerdict(v: Verdict, tx: seq<Tx>, ev: Evidence, root: (nat, nat) -> real, void: bool)
    ensures IsVerdict(v, tx, ev, root, void) <==> IsVerdict(v, InTime(tx, ev), ev, root, void)
  {
    hide CountAt, ShowsLoss, SupportsRetire;
    forall h ensures LineAt(tx, ev, root, h) == LineAt(InTime(tx, ev), ev, root, h)
                     && (Measured(tx, ev, h) <==> Measured(InTime(tx, ev), ev, h))
    {
      LateNotMeasured(tx, ev, Arrived, h);
      LateNotMeasured(tx, ev, Lost, h);
    }
  }

  // ---- the verdict ------------------------------------------------------------------------------

  ghost function Losses(tx: seq<Tx>, ev: Evidence, hop: int): nat {
    |LostAt(tx, ev, hop)|
  }

  ghost function Size(tx: seq<Tx>, ev: Evidence, hop: int): nat {
    |ArrivedAt(tx, ev, hop)| + |LostAt(tx, ev, hop)|
  }

  ghost function LowerBound(tx: seq<Tx>, ev: Evidence, root: (nat, nat) -> real, hop: int): real
    requires Size(tx, ev, hop) > 0
  {
    Lo(Losses(tx, ev, hop), Size(tx, ev, hop), root(Losses(tx, ev, hop), Size(tx, ev, hop)))
  }

  ghost function UpperBound(tx: seq<Tx>, ev: Evidence, root: (nat, nat) -> real, hop: int): real
    requires Size(tx, ev, hop) > 0
  {
    Hi(Losses(tx, ev, hop), Size(tx, ev, hop), root(Losses(tx, ev, hop), Size(tx, ev, hop)))
  }

  lemma HopDecides(tx: seq<Tx>, ev: Evidence, root: (nat, nat) -> real, hop: int)
    ensures Measured(tx, ev, hop) <==> Size(tx, ev, hop) > 0
    ensures Size(tx, ev, hop) > 0 ==>
              && (ShowsLoss(LineAt(tx, ev, root, hop)) <==> hop <= 3 && LowerBound(tx, ev, root, hop) >= 0.03005)
              && (SupportsRetire(LineAt(tx, ev, root, hop), ADEQUATE)
                  <==> Size(tx, ev, hop) >= 125 && UpperBound(tx, ev, root, hop) < 0.02995)
  {
    AtHop(tx, ev, hop);
    hide CountAt, ArrivedAt, LostAt, Lo, Hi, Interval;
    if Size(tx, ev, hop) > 0 {
      RoundedComparisons(Losses(tx, ev, hop), Size(tx, ev, hop), root(Losses(tx, ev, hop), Size(tx, ev, hop)));
    }
  }

  /**
   * The verdict on a log, by its rows: VOID by the flag; STANDS when some hop up to three has a lower bound of
   * at least 3.005%; RETIRE when one was measured and all have at least 125 sends and an upper bound under 2.995%.
   */
  lemma VerdictExactly(v: Verdict, tx: seq<Tx>, ev: Evidence, root: (nat, nat) -> real, void: bool)
    requires IsVerdict(v, tx, ev, root, void) && TakesRoots(root)
    ensures v == InstrumentationVoid <==> void
    ensures v == Stands <==> !void && exists h :: h <= 3 && Size(tx, ev, h) > 0 && LowerBound(tx, ev, root, h) >= 0.03005
    ensures v == Retire <==> && !void && (exists h :: h <= 3 && Size(tx, ev, h) > 0)
                             && forall h :: h <= 3 && Size(tx, ev, h) > 0 ==>
                                  Size(tx, ev, h) >= 125 && UpperBound(tx, ev, root, h) < 0.02995
  {
    forall h { HopDecides(tx, ev, root, h); }
    forall h | Size(tx, ev, h) > 0 ensures LowerBound(tx, ev, root, h) <= UpperBound(tx, ev, root, h) { BoundsOrdered(tx, ev, root, h); }
    hide Measured, Size, LowerBound, UpperBound, ShowsLoss, SupportsRetire, LineAt;
  }

  lemma BoundsOrdered(tx: seq<Tx>, ev: Evidence, root: (nat, nat) -> real, hop: int)
    requires TakesRoots(root) && Size(tx, ev, hop) > 0
    ensures LowerBound(tx, ev, root, hop) <= UpperBound(tx, ev, root, hop)
  {
    hide Lo, Hi, Radicand, IsRoot, LostAt, ArrivedAt;
    IntervalOrdered(Losses(tx, ev, hop), Size(tx, ev, hop), root(Losses(tx, ev, hop), Size(tx, ev, hop)));
  }
}
