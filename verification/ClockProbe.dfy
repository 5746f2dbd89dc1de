/** The clock-offset estimate from round-trip samples (harness/clock-probe.mjs). */
module ClockProbe {
  import opened Prelude
  import opened Sorting

  /** Local time before, remote stamp, local time after; `None` stands for a value that is not finite. */
  datatype Sample = Sample(t1: Option<real>, t2: Option<real>, t4: Option<real>)

  datatype Estimate = Estimate(offset: int, uncertainty: int, spread: int, n: nat)

  predicate Usable(s: Sample) {
    s.t1.Some? && s.t2.Some? && s.t4.Some? && s.t4.value >= s.t1.value
  }

  function Offset(s: Sample): real
    requires Usable(s)
  {
    s.t2.value - (s.t1.value + s.t4.value) / 2.0
  }

  function HalfTrip(s: Sample): real
    requires Usable(s)
  {
    (s.t4.value - s.t1.value) / 2.0
  }

  function Rows(samples: seq<Sample>): (r: seq<Sample>)
    ensures forall s :: s in r <==> s in samples && Usable(s)
  {
    if samples == [] then []
    else
      var init, last := samples[..|samples| - 1], samples[|samples| - 1];
      assert samples == init + [last];
      Rows(init) + if Usable(last) then [last] else []
  }

  function Offsets(rows: seq<Sample>): (r: seq<real>)
    requires forall s :: s in rows ==> Usable(s)
    ensures |r| == |rows| && forall i :: 0 <= i < |r| ==> r[i] == Offset(rows[i])
  {
    if rows == [] then [] else Offsets(rows[..|rows| - 1]) + [Offset(rows[|rows| - 1])]
  }

  function LeastHalfTrip(rows: seq<Sample>): (u: real)
    requires rows != [] && forall s :: s in rows ==> Usable(s)
    ensures forall s :: s in rows ==> u <= HalfTrip(s)
  {
    var init, last := rows[..|rows| - 1], rows[|rows| - 1];
    assert rows == init + [last];
    if init == [] then HalfTrip(last)
    else
      var u := LeastHalfTrip(init);
      if HalfTrip(last) < u then HalfTrip(last) else u
  }

  /** The nearest integer, halves upward. */
  function Rounded(x: real): (n: int)
    ensures x - 0.5 < n as real <= x + 0.5
  {
    (x + 0.5).Floor
  }

  function AtMost(): (real, real) -> bool {
    (x: real, y: real) => x <= y
  }

  function ComputeOffset(samples: seq<Sample>): Option<Estimate> {
    var rows := Rows(samples);
    if rows == [] then None
    else
      var offs := StableSort(AtMost(), Offsets(rows));
      Some(Estimate(Rounded(offs[|offs| / 2]), Rounded(LeastHalfTrip(rows)), Rounded(offs[|offs| - 1] - offs[0]), |rows|))
  }

  // ---- the bound -------------------------------------------------------------------

  /** The remote clock, `truth` ahead, was read at a local instant of the round trip. */
  ghost predicate TakenWithin(s: Sample, truth: real)
    requires Usable(s)
  {
    s.t1.value <= s.t2.value - truth <= s.t4.value
  }

  ghost predicate Honest(samples: seq<Sample>, truth: real) {
    forall s :: s in samples && Usable(s) ==> TakenWithin(s, truth)
  }

  function Abs(x: real): real {
    if x < 0.0 then -x else x
  }

  lemma {:induction false} BestTimed(rows: seq<Sample>) returns (best: Sample)
    requires rows != [] && forall s :: s in rows ==> Usable(s)
    ensures best in rows && HalfTrip(best) == LeastHalfTrip(rows)
  {
    var init, last := rows[..|rows| - 1], rows[|rows| - 1];
    best := last;
    if init != [] {
      var earlier := BestTimed(init);
      if HalfTrip(last) >= LeastHalfTrip(init) { best := earlier; }
    }
  }

  /** One sample errs by at most half its round trip, and exactly then was the stamp taken within it. */
  lemma SampleError(s: Sample, truth: real)
    requires Usable(s)
    ensures TakenWithin(s, truth) <==> Abs(Offset(s) - truth) <= HalfTrip(s)
  {
  }

  /** Any two offsets differ by no more than the spread of the sorted list. */
  lemma WithinSpread(offs: seq<real>, x: real, y: real)
    requires Sorted(AtMost(), offs) && x in offs && y in offs
    ensures Abs(x - y) <= offs[|offs| - 1] - offs[0]
  {
    var i :| 0 <= i < |offs| && offs[i] == x;
    var j :| 0 <= j < |offs| && offs[j] == y;
    Bounds(offs, i);
    Bounds(offs, j);
  }

  lemma Bounds(offs: seq<real>, i: nat)
    requires Sorted(AtMost(), offs) && i < |offs|
    ensures offs[0] <= offs[i] <= offs[|offs| - 1]
  {
    assert i > 0 ==> AtMost()(offs[0], offs[i]);
    assert i < |offs| - 1 ==> AtMost()(offs[i], offs[|offs| - 1]);
  }

  /** The reported offset is off by at most the reported uncertainty and spread, and 1.5 ms of rounding. */
  lemma OffsetBounded(samples: seq<Sample>, truth: real)
    requires Honest(samples, truth) && ComputeOffset(samples).Some?
    ensures var e := ComputeOffset(samples).value;
            Abs(e.offset as real - truth) <= e.uncertainty as real + e.spread as real + 1.5
  {
    hide StableSort;
    var rows := Rows(samples);
    var offs := StableSort(AtMost(), Offsets(rows));
    SortSorts(AtMost(), Offsets(rows));
    var best := BestTimed(rows);
    SampleError(best, truth);
    OffsetListed(rows, best);
    WithinSpread(offs, offs[|offs| / 2], Offset(best));
    hide *;
    Combine(offs[|offs| / 2], Offset(best), truth, HalfTrip(best), offs[|offs| - 1] - offs[0]);
  }

  lemma OffsetListed(rows: seq<Sample>, s: Sample)
    requires s in rows && forall s :: s in rows ==> Usable(s)
    ensures Offset(s) in Offsets(rows)
  {
    var i :| 0 <= i < |rows| && rows[i] == s;
    assert Offsets(rows)[i] == Offset(s);
  }

  lemma Combine(median: real, best: real, truth: real, u: real, spread: real)
    requires Abs(best - truth) <= u && Abs(median - best) <= spread
    ensures Abs(Rounded(median) as real - truth) <= Rounded(u) as real + Rounded(spread) as real + 1.5
  {
  }

  /** Nothing is reported exactly when no sample is usable. */
  lemma NothingUsable(samples: seq<Sample>)
    ensures ComputeOffset(samples).None? <==> forall s :: s in samples ==> !Usable(s)
  {
    hide StableSort;
    if Rows(samples) != [] { assert Rows(samples)[0] in samples && Usable(Rows(samples)[0]); }
  }

  // ---- the order of samples does not matter ---------------------------------------------

  lemma {:induction false} RowsCount(samples: seq<Sample>, s: Sample)
    ensures multiset(Rows(samples))[s] == if Usable(s) then multiset(samples)[s] else 0
  {
    if samples != [] {
      RowsCount(samples[..|samples| - 1], s);
      assert samples == samples[..|samples| - 1] + [samples[|samples| - 1]];
    }
  }

  lemma OffsetsJoin(a: seq<Sample>, b: seq<Sample>)
    requires (forall s :: s in a ==> Usable(s)) && (forall s :: s in b ==> Usable(s))
    ensures Offsets(a + b) == Offsets(a) + Offsets(b)
  {
    hide Offset, Usable;
  }

  lemma OffsetsAround(l: seq<Sample>, e: Sample, r: seq<Sample>)
    requires Usable(e) && (forall s :: s in l ==> Usable(s)) && (forall s :: s in r ==> Usable(s))
    ensures multiset(Offsets(l + ([e] + r))) == multiset(Offsets(l + r)) + multiset{Offset(e)}
  {
    hide Usable;
    OffsetsJoin(l, [e] + r);
    OffsetsJoin([e], r);
    OffsetsJoin(l, r);
    assert Offsets([e]) == [Offset(e)];
    hide *;
    Rejoin(Offsets(l), Offset(e), Offsets(r));
  }

  lemma Rejoin(l: seq<real>, x: real, r: seq<real>)
    ensures multiset(l + ([x] + r)) == multiset(l + r) + multiset{x}
  {
  }

  lemma {:induction false} OffsetsRearranged(a: seq<Sample>, b: seq<Sample>)
    requires multiset(a) == multiset(b) && (forall s :: s in a ==> Usable(s)) && (forall s :: s in b ==> Usable(s))
    ensures multiset(Offsets(a)) == multiset(Offsets(b))
    decreases |a|
  {
    hide Offset;
    if a == [] {
      assert |multiset(a)| == |multiset(b)|;
    } else {
      var last := a[|a| - 1];
      assert last in multiset(b);
      var i :| 0 <= i < |b| && b[i] == last;
      var rest := b[..i] + b[i + 1..];
      assert b == b[..i] + ([last] + b[i + 1..]);
      DropLast(a);
      SameRemainder(multiset(a[..|a| - 1]), multiset(rest), multiset(a), last);
      OffsetsRearranged(a[..|a| - 1], rest);
      OffsetsAround(b[..i], last, b[i + 1..]);
    }
  }

  lemma AtMostIsPreorder()
    ensures TotalPreorder(AtMost())
  {
  }

  /** The same samples in any order give the same estimate. */
  lemma OrderIrrelevant(a: seq<Sample>, b: seq<Sample>)
    requires multiset(a) == multiset(b)
    ensures ComputeOffset(a) == ComputeOffset(b)
  {
    hide StableSort, Offset, HalfTrip, Rounded, LeastHalfTrip, Offsets, Usable;
    var ra, rb := Rows(a), Rows(b);
    forall s ensures multiset(ra)[s] == multiset(rb)[s] { RowsCount(a, s); RowsCount(b, s); }
    assert multiset(ra) == multiset(rb);
    assert |ra| == |multiset(ra)| == |rb|;
    if ra != [] {
      SortedSame(ra, rb);
      LeastSame(ra, rb);
    }
  }

  lemma SortedSame(a: seq<Sample>, b: seq<Sample>)
    requires multiset(a) == multiset(b) && (forall s :: s in a ==> Usable(s)) && (forall s :: s in b ==> Usable(s))
    ensures StableSort(AtMost(), Offsets(a)) == StableSort(AtMost(), Offsets(b))
  {
    hide StableSort, Offset;
    OffsetsRearranged(a, b);
    AtMostIsPreorder();
    SortSorts(AtMost(), Offsets(a));
    SortSorts(AtMost(), Offsets(b));
    SortKeeps(AtMost(), Offsets(a));
    SortKeeps(AtMost(), Offsets(b));
    SortedUnique(AtMost(), StableSort(AtMost(), Offsets(a)), StableSort(AtMost(), Offsets(b)));
  }

  lemma LeastSame(a: seq<Sample>, b: seq<Sample>)
    requires multiset(a) == multiset(b) && a != [] && b != []
    requires (forall s :: s in a ==> Usable(s)) && (forall s :: s in b ==> Usable(s))
    ensures LeastHalfTrip(a) == LeastHalfTrip(b)
  {
    var x := BestTimed(a);
    var y := BestTimed(b);
    assert x in multiset(b) && y in multiset(a);
    assert x in b && y in a;
  }

  // ---- what is reported -------------------------------------------------------------------

  /** The positions of the usable samples whose offset is below, or above, a value. */
  ghost function BelowIn(samples: seq<Sample>, m: real): set<nat> {
    set i | 0 <= i < |samples| && Usable(samples[i]) && Offset(samples[i]) < m
  }

  ghost function AboveIn(samples: seq<Sample>, m: real): set<nat> {
    set i | 0 <= i < |samples| && Usable(samples[i]) && Offset(samples[i]) > m
  }

  ghost function UsableIn(samples: seq<Sample>): set<nat> {
    set i | 0 <= i < |samples| && Usable(samples[i])
  }

  function Below(offs: seq<real>, m: real): nat {
    if offs == [] then 0 else Below(offs[..|offs| - 1], m) + if offs[|offs| - 1] < m then 1 else 0
  }

  function Above(offs: seq<real>, m: real): nat {
    if offs == [] then 0 else Above(offs[..|offs| - 1], m) + if offs[|offs| - 1] > m then 1 else 0
  }

  lemma BelowInStep(samples: seq<Sample>, s: Sample, m: real)
    ensures |BelowIn(samples + [s], m)| == |BelowIn(samples, m)| + if Usable(s) && Offset(s) < m then 1 else 0
  {
    hide Usable, Offset;
    var all, n := samples + [s], |samples|;
    assert forall i :: 0 <= i < n ==> all[i] == samples[i];
    if Usable(s) && Offset(s) < m {
      assert BelowIn(all, m) == BelowIn(samples, m) + {n};
    } else {
      assert BelowIn(all, m) == BelowIn(samples, m);
    }
  }

  lemma AboveInStep(samples: seq<Sample>, s: Sample, m: real)
    ensures |AboveIn(samples + [s], m)| == |AboveIn(samples, m)| + if Usable(s) && Offset(s) > m then 1 else 0
  {
    hide Usable, Offset;
    var all, n := samples + [s], |samples|;
    assert forall i :: 0 <= i < n ==> all[i] == samples[i];
    if Usable(s) && Offset(s) > m {
      assert AboveIn(all, m) == AboveIn(samples, m) + {n};
    } else {
      assert AboveIn(all, m) == AboveIn(samples, m);
    }
  }

  lemma UsableInStep(samples: seq<Sample>, s: Sample)
    ensures |UsableIn(samples + [s])| == |UsableIn(samples)| + if Usable(s) then 1 else 0
  {
    hide Usable, Offset;
    var all, n := samples + [s], |samples|;
    assert forall i :: 0 <= i < n ==> all[i] == samples[i];
    if Usable(s) {
      assert UsableIn(all) == UsableIn(samples) + {n};
    } else {
      assert UsableIn(all) == UsableIn(samples);
    }
  }

  lemma OneRowMore(samples: seq<Sample>, s: Sample, m: real)
    ensures var rows, more := Rows(samples), Rows(samples + [s]);
            && |more| == |rows| + (if Usable(s) then 1 else 0)
            && Below(Offsets(more), m) == Below(Offsets(rows), m) + (if Usable(s) && Offset(s) < m then 1 else 0)
            && Above(Offsets(more), m) == Above(Offsets(rows), m) + (if Usable(s) && Offset(s) > m then 1 else 0)
  {
    hide Offset, Usable;
    var rows := Rows(samples);
    assert (samples + [s])[..|samples|] == samples;
    if Usable(s) {
      assert (rows + [s])[..|rows|] == rows;
      assert (Offsets(rows) + [Offset(s)])[..|rows|] == Offsets(rows);
    } else {
      assert rows + [] == rows;
    }
  }

  lemma NothingCounted(m: real)
    ensures |BelowIn([], m)| == 0 && |AboveIn([], m)| == 0 && |UsableIn([])| == 0
    ensures Rows([]) == [] && Below([], m) == 0 && Above([], m) == 0 && Offsets([]) == []
  {
    assert BelowIn([], m) == {} && AboveIn([], m) == {} && UsableIn([]) == {};
  }

  /** The offsets of the usable samples, counted either way. */
  lemma {:induction false} CountsAgree(samples: seq<Sample>, m: real)
    ensures |BelowIn(samples, m)| == Below(Offsets(Rows(samples)), m) && |AboveIn(samples, m)| == Above(Offsets(Rows(samples)), m)
    ensures |UsableIn(samples)| == |Rows(samples)|
  {
    hide *;
    if samples == [] {
      NothingCounted(m);
    } else {
      var init, last := samples[..|samples| - 1], samples[|samples| - 1];
      CountsAgree(init, m);
      BelowInStep(init, last, m);
      AboveInStep(init, last, m);
      UsableInStep(init, last);
      OneRowMore(init, last, m);
      assert samples == init + [last];
    }
  }

  lemma {:induction false} BelowWithout(offs: seq<real>, m: real, i: nat)
    requires i < |offs|
    ensures Below(offs, m) == Below(offs[..i] + offs[i + 1..], m) + if offs[i] < m then 1 else 0
    ensures Above(offs, m) == Above(offs[..i] + offs[i + 1..], m) + if offs[i] > m then 1 else 0
    decreases |offs|
  {
    var init, shorter := offs[..|offs| - 1], offs[..i] + offs[i + 1..];
    if i < |init| {
      BelowWithout(init, m, i);
      assert shorter[..|shorter| - 1] == init[..i] + init[i + 1..];
    } else {
      assert shorter == init;
    }
  }

  lemma {:induction false} BelowRearranged(a: seq<real>, b: seq<real>, m: real)
    requires multiset(a) == multiset(b)
    ensures Below(a, m) == Below(b, m) && Above(a, m) == Above(b, m)
    decreases |a|
  {
    if a == [] {
      assert |multiset(a)| == |multiset(b)|;
    } else {
      var last := a[|a| - 1];
      assert last in multiset(b);
      var i :| 0 <= i < |b| && b[i] == last;
      var rest := b[..i] + b[i + 1..];
      assert b == b[..i] + ([last] + b[i + 1..]);
      Rejoin(b[..i], last, b[i + 1..]);
      DropLast(a);
      SameRemainder(multiset(a[..|a| - 1]), multiset(rest), multiset(a), last);
      BelowRearranged(a[..|a| - 1], rest, m);
      BelowWithout(b, m, i);
    }
  }

  lemma {:induction false} SortedBelow(offs: seq<real>, k: nat)
    requires Sorted(AtMost(), offs) && k < |offs|
    ensures Below(offs, offs[k]) <= k && Above(offs, offs[k]) <= |offs| - 1 - k
  {
    BelowPrefix(offs, offs[k], |offs|, k);
    assert offs[..|offs|] == offs;
  }

  lemma {:induction false} BelowPrefix(offs: seq<real>, m: real, n: nat, k: nat)
    requires Sorted(AtMost(), offs) && k < |offs| && m == offs[k] && n <= |offs|
    ensures Below(offs[..n], m) <= (if n < k then n else k) && Above(offs[..n], m) <= if n <= k then 0 else n - 1 - k
  {
    if n > 0 {
      BelowPrefix(offs, m, n - 1, k);
      assert offs[..n][..n - 1] == offs[..n - 1];
      assert n - 1 < k ==> AtMost()(offs[n - 1], offs[k]);
      assert k < n - 1 ==> AtMost()(offs[k], offs[n - 1]);
    }
  }

  /**
   * The reported offset is the nearest integer to a median: the offset of a usable sample, with no more than
   * half of them below it and fewer than half, rounded up, above. All usable samples are counted.
   */
  lemma ReportsMedian(samples: seq<Sample>) returns (i: nat)
    requires ComputeOffset(samples).Some?
    ensures i < |samples| && Usable(samples[i])
    ensures var e, n := ComputeOffset(samples).value, |UsableIn(samples)|;
            && e.n == n && e.offset == Rounded(Offset(samples[i]))
            && |BelowIn(samples, Offset(samples[i]))| <= n / 2 && |AboveIn(samples, Offset(samples[i]))| <= n - 1 - n / 2
  {
    hide StableSort, Offset;
    var rows := Rows(samples);
    var offs := StableSort(AtMost(), Offsets(rows));
    var m := offs[|offs| / 2];
    AtMostIsPreorder();
    SortSorts(AtMost(), Offsets(rows));
    SortKeeps(AtMost(), Offsets(rows));
    SortedBelow(offs, |offs| / 2);
    BelowRearranged(offs, Offsets(rows), m);
    CountsAgree(samples, m);
    assert m in offs && m in Offsets(rows);
    var j :| 0 <= j < |rows| && Offsets(rows)[j] == m;
    assert rows[j] in samples;
    i :| 0 <= i < |samples| && samples[i] == rows[j];
  }

  /** The reported uncertainty is the nearest integer to the least half round trip of a usable sample, the spread that to the range of offsets. */
  lemma ReportsRanges(samples: seq<Sample>) returns (best: nat, low: nat, high: nat)
    requires ComputeOffset(samples).Some?
    ensures best < |samples| && low < |samples| && high < |samples| && Usable(samples[best]) && Usable(samples[low]) && Usable(samples[high])
    ensures forall i :: 0 <= i < |samples| && Usable(samples[i]) ==>
              HalfTrip(samples[best]) <= HalfTrip(samples[i]) && Offset(samples[low]) <= Offset(samples[i]) <= Offset(samples[high])
    ensures var e := ComputeOffset(samples).value;
            e.uncertainty == Rounded(HalfTrip(samples[best])) && e.spread == Rounded(Offset(samples[high]) - Offset(samples[low]))
  {
    hide StableSort;
    var rows := Rows(samples);
    var offs := StableSort(AtMost(), Offsets(rows));
    SortSorts(AtMost(), Offsets(rows));
    var b := BestTimed(rows);
    best := PositionOf(samples, b);
    low := OffsetAt(samples, offs[0]);
    high := OffsetAt(samples, offs[|offs| - 1]);
    hide Offset, HalfTrip, Usable;
    forall i | 0 <= i < |samples| && Usable(samples[i])
      ensures HalfTrip(samples[best]) <= HalfTrip(samples[i]) && Offset(samples[low]) <= Offset(samples[i]) <= Offset(samples[high])
    {
      assert samples[i] in rows;
      OffsetListed(rows, samples[i]);
      var k :| 0 <= k < |offs| && offs[k] == Offset(samples[i]);
      Bounds(offs, k);
    }
  }

  lemma PositionOf(samples: seq<Sample>, s: Sample) returns (i: nat)
    requires s in samples
    ensures i < |samples| && samples[i] == s
  {
    i :| 0 <= i < |samples| && samples[i] == s;
  }

  lemma OffsetAt(samples: seq<Sample>, m: real) returns (i: nat)
    requires m in StableSort(AtMost(), Offsets(Rows(samples)))
    ensures i < |samples| && Usable(samples[i]) && Offset(samples[i]) == m
  {
    hide StableSort;
    var rows := Rows(samples);
    assert m in Offsets(rows);
    var j :| 0 <= j < |rows| && Offsets(rows)[j] == m;
    assert rows[j] in samples;
    i := PositionOf(samples, rows[j]);
  }
}
