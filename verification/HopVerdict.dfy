/**
 * Per-hop loss: every send is put in one class, strata are counted by hop, and a verdict is drawn
 * from their Wilson intervals (harness/analyze-deliver-hop.mjs).
 */
module HopVerdict {
  import opened Prelude
  import opened Sorting
  import opened Wilson

  datatype Tx = Tx(id: string, hopIdx: int, written: bool, t: Option<real>, to: Option<string>)
  datatype Rx = Rx(hopIdx: int, to: Option<string>)

  /** The receipts, the instrumented relays by id prefix, and the censoring cut-off. */
  datatype Evidence = Evidence(rx: map<string, Rx>, relays: set<string>, cutoff: real)

  datatype Class = LocalFailure | Censored | Uninstrumented | Arrived | Lost

  predicate Matched(x: Tx, ev: Evidence) {
    x.id in ev.rx && ev.rx[x.id].hopIdx == x.hopIdx && ev.rx[x.id].to == x.to
  }

  function Prefix(s: string): string {
    if |s| <= 12 then s else s[..12]
  }

  function ClassOf(x: Tx, ev: Evidence): Class {
    if !x.written then LocalFailure
    else if x.t.Some? && x.t.value > ev.cutoff then Censored
    else if x.to.None? || Prefix(x.to.value) !in ev.relays then Uninstrumented
    else if Matched(x, ev) then Arrived
    else Lost
  }

  ghost function Count(tx: seq<Tx>, ev: Evidence, c: Class): nat {
    if tx == [] then 0
    else Count(tx[..|tx| - 1], ev, c) + if ClassOf(tx[|tx| - 1], ev) == c then 1 else 0
  }

  ghost function CountAt(tx: seq<Tx>, ev: Evidence, c: Class, hop: int): nat {
    if tx == [] then 0
    else
      var x := tx[|tx| - 1];
      CountAt(tx[..|tx| - 1], ev, c, hop) + if ClassOf(x, ev) == c && x.hopIdx == hop then 1 else 0
  }

  datatype Stratum = Stratum(ok: nat, lost: nat)

  datatype Tally = Tally(okTx: nat, silent: nat, localFail: nat, censored: nat, uninstrumented: nat,
                         byHop: map<int, Stratum>)

  ghost predicate HasCounts(t: Tally, tx: seq<Tx>, ev: Evidence) {
    && t.okTx == Count(tx, ev, Arrived) + Count(tx, ev, Lost) && t.silent == Count(tx, ev, Lost)
    && t.localFail == Count(tx, ev, LocalFailure) && t.censored == Count(tx, ev, Censored)
    && t.uninstrumented == Count(tx, ev, Uninstrumented)
  }

  /** Exactly the hops that were measured have a stratum, with the counts of that hop. */
  ghost predicate HasStrata(byHop: map<int, Stratum>, tx: seq<Tx>, ev: Evidence) {
    && (forall h :: h in byHop <==> CountAt(tx, ev, Arrived, h) + CountAt(tx, ev, Lost, h) > 0)
    && (forall h :: h in byHop ==> byHop[h] == Stratum(CountAt(tx, ev, Arrived, h), CountAt(tx, ev, Lost, h)))
  }

  function StratumOf(byHop: map<int, Stratum>, hop: int): Stratum {
    if hop in byHop then byHop[hop] else Stratum(0, 0)
  }

  lemma StrataStep(byHop: map<int, Stratum>, tx: seq<Tx>, x: Tx, ev: Evidence)
    requires HasStrata(byHop, tx, ev)
    ensures var v := StratumOf(byHop, x.hopIdx);
            HasStrata(match ClassOf(x, ev)
                      case Arrived => byHop[x.hopIdx := v.(ok := v.ok + 1)]
                      case Lost => byHop[x.hopIdx := v.(lost := v.lost + 1)]
                      case _ => byHop, tx + [x], ev)
  {
    hide ClassOf;
    assert (tx + [x])[..|tx|] == tx;
  }

  method Classify(tx: seq<Tx>, ev: Evidence) returns (t: Tally)
    ensures HasCounts(t, tx, ev) && HasStrata(t.byHop, tx, ev)
  {
    hide HasStrata, Prefix, Matched;
    t := Tally(0, 0, 0, 0, 0, map[]);
    NoStrata(ev);
    for i := 0 to |tx|
      invariant HasCounts(t, tx[..i], ev) && HasStrata(t.byHop, tx[..i], ev)
    {
      var x := tx[i];
      assert tx[..i + 1] == tx[..i] + [x] && tx[..i + 1][..i] == tx[..i];
      StrataStep(t.byHop, tx[..i], x, ev);
      if !x.written { t := t.(localFail := t.localFail + 1); continue; }
      if x.t.Some? && x.t.value > ev.cutoff { t := t.(censored := t.censored + 1); continue; }
      if x.to.None? || Prefix(x.to.value) !in ev.relays { t := t.(uninstrumented := t.uninstrumented + 1); continue; }
      var v := StratumOf(t.byHop, x.hopIdx);
      if Matched(x, ev) {
        v := v.(ok := v.ok + 1);
      } else {
        v := v.(lost := v.lost + 1);
        t := t.(silent := t.silent + 1);
      }
      t := t.(okTx := t.okTx + 1, byHop := t.byHop[x.hopIdx := v]);
    }
    assert tx[..|tx|] == tx;
  }

  lemma NoStrata(ev: Evidence)
    ensures HasStrata(map[], [], ev)
  {
  }

  /** Every recorded send is in exactly one class. */
  lemma {:induction false} ClassesCover(tx: seq<Tx>, ev: Evidence)
    ensures Count(tx, ev, LocalFailure) + Count(tx, ev, Censored) + Count(tx, ev, Uninstrumented)
            + Count(tx, ev, Arrived) + Count(tx, ev, Lost) == |tx|
  {
    if tx != [] { ClassesCover(tx[..|tx| - 1], ev); }
  }

  ghost function SumAt(hops: seq<int>, tx: seq<Tx>, ev: Evidence, c: Class): nat {
    if hops == [] then 0 else CountAt(tx, ev, c, hops[0]) + SumAt(hops[1..], tx, ev, c)
  }

  lemma {:induction false} SumStep(hops: seq<int>, tx: seq<Tx>, ev: Evidence, c: Class)
    requires tx != [] && Distinct(hops)
    ensures SumAt(hops, tx, ev, c) == SumAt(hops, tx[..|tx| - 1], ev, c)
              + if ClassOf(tx[|tx| - 1], ev) == c && tx[|tx| - 1].hopIdx in hops then 1 else 0
  {
    if hops != [] {
      SumStep(hops[1..], tx, ev, c);
      assert hops == [hops[0]] + hops[1..];
    }
  }

  /** The strata, listed once each in any order, add up to the pooled numbers. */
  lemma {:induction false} StrataAddUp(hops: seq<int>, tx: seq<Tx>, ev: Evidence, c: Class)
    requires Distinct(hops) && forall x :: x in tx && ClassOf(x, ev) == c ==> x.hopIdx in hops
    ensures SumAt(hops, tx, ev, c) == Count(tx, ev, c)
  {
    if tx == [] {
      EmptySum(hops, ev, c);
    } else {
      SumStep(hops, tx, ev, c);
      StrataAddUp(hops, tx[..|tx| - 1], ev, c);
    }
  }

  lemma {:induction false} EmptySum(hops: seq<int>, ev: Evidence, c: Class)
    ensures SumAt(hops, [], ev, c) == 0
  {
    if hops != [] { EmptySum(hops[1..], ev, c); }
  }

  // ---- the verdict ----------------------------------------------------------------

  datatype Verdict = InstrumentationVoid | Stands | Retire | Inconclusive

  /** One printed line: a stratum with the square root its interval needs. */
  datatype Line = Line(hop: int, ok: nat, lost: nat, root: real)

  function Size(l: Line): nat {
    l.ok + l.lost
  }

  ghost predicate Sound(l: Line) {
    Size(l) > 0 && IsRoot(l.root, Radicand(l.lost, Size(l)))
  }

  function IntervalOf(l: Line): Percent {
    Interval(l.lost, Size(l), l.root)
  }

  predicate InPivot(l: Line) {
    l.hop <= 3
  }

  predicate ShowsLoss(l: Line) {
    InPivot(l) && IntervalOf(l).lo > 3.0
  }

  predicate SupportsRetire(l: Line, adequate: nat) {
    Size(l) >= adequate && IntervalOf(l).hi < 3.0
  }

  ghost function VerdictOf(lines: seq<Line>, adequate: nat, void: bool): Verdict {
    if void then InstrumentationVoid
    else if exists l :: l in lines && ShowsLoss(l) then Stands
    else if (exists l :: l in lines && InPivot(l)) && forall l :: l in lines && InPivot(l) ==> SupportsRetire(l, adequate)
    then Retire
    else Inconclusive
  }

  method Judge(lines: seq<Line>, adequate: nat, void: bool) returns (v: Verdict)
    ensures v == VerdictOf(lines, adequate, void)
  {
    hide Interval;
    var stands, retire, anyRoute3 := false, true, false;
    for i := 0 to |lines|
      invariant stands <==> exists l :: l in lines[..i] && ShowsLoss(l)
      invariant anyRoute3 <==> exists l :: l in lines[..i] && InPivot(l)
      invariant retire <==> forall l :: l in lines[..i] && InPivot(l) ==> ShowsLoss(l) || SupportsRetire(l, adequate)
    {
      var l := lines[i];
      assert forall y :: y in lines[..i + 1] <==> y in lines[..i] || y == l;
      var ci := Interval(l.lost, l.ok + l.lost, l.root);
      assert ci == IntervalOf(l) && (InPivot(l) <==> l.hop <= 3) && (ShowsLoss(l) <==> InPivot(l) && ci.lo > 3.0);
      var powered := l.ok + l.lost >= adequate;
      if l.hop <= 3 {
        anyRoute3 := true;
        if ci.lo > 3.0 { stands := true; }
        else if !(powered && ci.hi < 3.0) { retire := false; }
      }
    }
    assert lines[..|lines|] == lines;
    if void { return InstrumentationVoid; }
    if stands { return Stands; }
    if retire && anyRoute3 { return Retire; }
    return Inconclusive;
  }

  /** A stratum whose rounded upper bound is under three percent rules out every rate of three or more. */
  lemma NarrowExcludes(l: Line, x: real)
    requires Sound(l) && IntervalOf(l).hi < 3.0 && x >= 0.03
    ensures !Compatible(l.lost, Size(l), x)
  {
    hide Compatible, Lo, Hi, Radicand, Interval;
    RoundedComparisons(l.lost, Size(l), l.root);
    ScoreTestInverted(l.lost, Size(l), l.root, x);
  }

  /** A stratum whose rounded lower bound is over three percent rules out every rate of three or less. */
  lemma HighExcludes(l: Line, x: real)
    requires Sound(l) && IntervalOf(l).lo > 3.0 && x <= 0.03
    ensures !Compatible(l.lost, Size(l), x) && Share(l.lost, Size(l)) > 0.03
  {
    hide Compatible, Lo, Hi, Radicand, Interval, Share;
    RoundedComparisons(l.lost, Size(l), l.root);
    IntervalOrdered(l.lost, Size(l), l.root);
    ScoreTestInverted(l.lost, Size(l), l.root, x);
  }

  /** RETIRE: some short route was seen, and each has at least 125 sends that exclude any rate of 3%. */
  lemma RetireMeans(lines: seq<Line>, adequate: nat, void: bool, x: real)
    requires forall l :: l in lines ==> Sound(l)
    requires VerdictOf(lines, adequate, void) == Retire && x >= 0.03
    ensures exists l :: l in lines && InPivot(l)
    ensures forall l :: l in lines && InPivot(l) ==> Size(l) >= ADEQUATE && !Compatible(l.lost, Size(l), x)
  {
    hide Compatible, Interval, Radicand, IsRoot;
    forall l | l in lines && InPivot(l) ensures Size(l) >= ADEQUATE && !Compatible(l.lost, Size(l), x) {
      assert SupportsRetire(l, adequate) && Sound(l);
      NarrowMeansPowered(l.lost, Size(l), l.root);
      NarrowExcludes(l, x);
    }
  }

  /** STANDS: some short route lost more than three percent, and excludes any lower rate. */
  lemma StandsMeans(lines: seq<Line>, adequate: nat, void: bool, x: real)
    requires forall l :: l in lines ==> Sound(l)
    requires VerdictOf(lines, adequate, void) == Stands && x <= 0.03
    ensures exists l :: l in lines && InPivot(l) && Size(l) > 0 && Share(l.lost, Size(l)) > 0.03 && !Compatible(l.lost, Size(l), x)
  {
    hide Compatible, Interval, Radicand, IsRoot, Share;
    var l :| l in lines && ShowsLoss(l);
    assert Sound(l);
    HighExcludes(l, x);
  }

  /** The power test is implied by the width test: no verdict changes if it is dropped. */
  lemma PowerTestRedundant(lines: seq<Line>, void: bool)
    requires forall l :: l in lines ==> Sound(l)
    ensures VerdictOf(lines, ADEQUATE, void) == VerdictOf(lines, 0, void)
  {
    hide Interval, Radicand, IsRoot;
    forall l | l in lines ensures SupportsRetire(l, ADEQUATE) <==> SupportsRetire(l, 0) {
      assert Sound(l);
      NarrowMeansPowered(l.lost, Size(l), l.root);
    }
  }

  // ---- from a log to its verdict ---------------------------------------------------------

  /** A hop of the log that was measured at all. */
  ghost predicate Measured(tx: seq<Tx>, ev: Evidence, hop: int) {
    CountAt(tx, ev, Arrived, hop) + CountAt(tx, ev, Lost, hop) > 0
  }

  /** `root(k, n)` is what the square root gives for k losses in n. */
  ghost predicate TakesRoots(root: (nat, nat) -> real) {
    forall k: nat, n: nat :: k <= n && n > 0 ==> IsRoot(root(k, n), Radicand(k, n))
  }

  ghost function LineAt(tx: seq<Tx>, ev: Evidence, root: (nat, nat) -> real, hop: int): Line {
    var ok, lost := CountAt(tx, ev, Arrived, hop), CountAt(tx, ev, Lost, hop);
    Line(hop, ok, lost, root(lost, ok + lost))
  }

  ghost predicate LinesOf(lines: seq<Line>, tx: seq<Tx>, ev: Evidence, root: (nat, nat) -> real) {
    forall l :: l in lines <==> Measured(tx, ev, l.hop) && l == LineAt(tx, ev, root, l.hop)
  }

  method AnyOf<T>(s: set<T>) returns (x: T)
    requires s != {}
    ensures x in s
  {
    x :| x in s;
  }

  method SortedHops(byHop: map<int, Stratum>) returns (hops: seq<int>)
    ensures forall h :: h in hops <==> h in byHop
    ensures forall i, j :: 0 <= i < j < |hops| ==> hops[i] <= hops[j]
  {
    var keys: seq<int> := [];
    var todo: set<int> := set h | h in byHop;
    while todo != {}
      invariant forall h :: h in todo ==> h in byHop
      invariant forall h :: h in keys <==> h in byHop && h !in todo
      decreases todo
    {
      var h := AnyOf(todo);
      keys, todo := keys + [h], todo - {h};
    }
    var ascending := (a: int, b: int) => a <= b;
    SortSorts(ascending, keys);
    hops := StableSort(ascending, keys);
  }

  method StrataLines(tx: seq<Tx>, ev: Evidence, byHop: map<int, Stratum>, root: (nat, nat) -> real) returns (lines: seq<Line>)
    requires HasStrata(byHop, tx, ev)
    ensures LinesOf(lines, tx, ev, root)
    ensures forall i, j :: 0 <= i < j < |lines| ==> lines[i].hop <= lines[j].hop
  {
    hide CountAt;
    var hops := SortedHops(byHop);
    lines := [];
    for i := 0 to |hops|
      invariant |lines| == i
      invariant forall j :: 0 <= j < i ==> lines[j] == LineAt(tx, ev, root, hops[j])
    {
      assert hops[i] in hops && hops[i] in byHop;
      var v := byHop[hops[i]];
      lines := lines + [Line(hops[i], v.ok, v.lost, root(v.lost, v.ok + v.lost))];
    }
    forall l ensures l in lines <==> Measured(tx, ev, l.hop) && l == LineAt(tx, ev, root, l.hop) {
      if Measured(tx, ev, l.hop) && l == LineAt(tx, ev, root, l.hop) {
        assert l.hop in hops;
        var j :| 0 <= j < |hops| && hops[j] == l.hop;
        assert lines[j] == l;
      }
    }
  }

  /** The verdict on a log: decided by the strata its rows define, at the threshold the loop finds. */
  ghost predicate IsVerdict(v: Verdict, tx: seq<Tx>, ev: Evidence, root: (nat, nat) -> real, void: bool) {
    && (v.InstrumentationVoid? <==> void)
    && (v.Stands? <==> !void && exists h :: Measured(tx, ev, h) && ShowsLoss(LineAt(tx, ev, root, h)))
    && (v.Retire? <==> && !void && (exists h :: Measured(tx, ev, h) && h <= 3)
                       && forall h :: Measured(tx, ev, h) && h <= 3 ==>
                            !ShowsLoss(LineAt(tx, ev, root, h)) && SupportsRetire(LineAt(tx, ev, root, h), ADEQUATE))
  }

  lemma LinesDecide(lines: seq<Line>, tx: seq<Tx>, ev: Evidence, root: (nat, nat) -> real, void: bool)
    requires LinesOf(lines, tx, ev, root)
    ensures IsVerdict(VerdictOf(lines, ADEQUATE, void), tx, ev, root, void)
  {
    hide Measured, IntervalOf, SupportsRetire;
    forall h | Measured(tx, ev, h) ensures LineAt(tx, ev, root, h) in lines {
      assert LineAt(tx, ev, root, h).hop == h;
    }
    if l :| l in lines && ShowsLoss(l) { assert Measured(tx, ev, l.hop) && ShowsLoss(LineAt(tx, ev, root, l.hop)); }
    if h :| Measured(tx, ev, h) && ShowsLoss(LineAt(tx, ev, root, h)) { assert LineAt(tx, ev, root, h) in lines; }
    if h :| Measured(tx, ev, h) && h <= 3 { assert InPivot(LineAt(tx, ev, root, h)); }
    if l :| l in lines && InPivot(l) { assert Measured(tx, ev, l.hop) && l.hop <= 3; }
    if VerdictOf(lines, ADEQUATE, void) == Retire {
      forall h | Measured(tx, ev, h) && h <= 3
        ensures !ShowsLoss(LineAt(tx, ev, root, h)) && SupportsRetire(LineAt(tx, ev, root, h), ADEQUATE)
      {
        assert InPivot(LineAt(tx, ev, root, h));
      }
    }
  }

  method Analyze(tx: seq<Tx>, ev: Evidence, root: (nat, nat) -> real, void: bool) returns (v: Verdict)
    ensures IsVerdict(v, tx, ev, root, void)
  {
    hide HasStrata, HasCounts, IsVerdict, LinesOf;
    var t := Classify(tx, ev);
    var adequate := FindAdequate();
    var lines := StrataLines(tx, ev, t.byHop, root);
    v := Judge(lines, adequate, void);
    LinesDecide(lines, tx, ev, root, void);
  }

  lemma LineSound(tx: seq<Tx>, ev: Evidence, root: (nat, nat) -> real, hop: int)
    requires TakesRoots(root) && Measured(tx, ev, hop)
    ensures Sound(LineAt(tx, ev, root, hop))
  {
    hide Radicand, IsRoot, CountAt;
  }

  /** RETIRE on a log: some route of at most three hops was measured, and each has at least 125 sends and rules out a loss of 3% or more. */
  lemma RetiredLog(v: Verdict, tx: seq<Tx>, ev: Evidence, root: (nat, nat) -> real, void: bool, hop: int, x: real)
    requires IsVerdict(v, tx, ev, root, void) && TakesRoots(root) && v == Retire && x >= 0.03
    ensures exists h :: Measured(tx, ev, h) && h <= 3
    ensures Measured(tx, ev, hop) && hop <= 3 ==>
              var n := CountAt(tx, ev, Arrived, hop) + CountAt(tx, ev, Lost, hop);
              n >= ADEQUATE && !Compatible(CountAt(tx, ev, Lost, hop), n, x)
  {
    hide Compatible, Interval, Radicand, IsRoot, CountAt, TakesRoots;
    if Measured(tx, ev, hop) && hop <= 3 {
      var l := LineAt(tx, ev, root, hop);
      LineSound(tx, ev, root, hop);
      NarrowExcludes(l, x);
    }
  }

  /** STANDS on a log: some route of at most three hops lost more than 3% and rules out every lower loss. */
  lemma StandingLog(v: Verdict, tx: seq<Tx>, ev: Evidence, root: (nat, nat) -> real, void: bool, x: real)
    requires IsVerdict(v, tx, ev, root, void) && TakesRoots(root) && v == Stands && x <= 0.03
    ensures exists h :: && h <= 3 && Measured(tx, ev, h)
                        && var lost, n := CountAt(tx, ev, Lost, h), CountAt(tx, ev, Arrived, h) + CountAt(tx, ev, Lost, h);
                           Share(lost, n) > 0.03 && !Compatible(lost, n, x)
  {
    hide Compatible, Interval, Radicand, IsRoot, CountAt, Share, TakesRoots;
    var h :| Measured(tx, ev, h) && ShowsLoss(LineAt(tx, ev, root, h));
    LineSound(tx, ev, root, h);
    HighExcludes(LineAt(tx, ev, root, h), x);
  }
}
