/**
 * A stable sort by a total preorder: what the engine's own `sort` promises.
 * Elements that compare equal keep the order in which they came.
 */
module Sorting {

  ghost predicate TotalPreorder<T(!new)>(le: (T, T) -> bool) {
    && (forall x, y :: le(x, y) || le(y, x))
    && (forall x, y, z :: le(x, y) && le(y, z) ==> le(x, z))
  }

  ghost predicate Sorted<T>(le: (T, T) -> bool, s: seq<T>) {
    forall i, j :: 0 <= i < j < |s| ==> le(s[i], s[j])
  }

  /** Puts `x` behind everything that is not greater than it. */
  function Insert<T(!new)>(le: (T, T) -> bool, s: seq<T>, x: T): (r: seq<T>)
    ensures |r| == |s| + 1
    ensures forall y :: y in r <==> y in s || y == x
  {
    if s == [] || le(s[|s| - 1], x) then s + [x]
    else Insert(le, s[..|s| - 1], x) + [s[|s| - 1]]
  }

  function StableSort<T(!new)>(le: (T, T) -> bool, s: seq<T>): (r: seq<T>)
    ensures |r| == |s|
    ensures forall y :: y in r <==> y in s
  {
    if s == [] then []
    else Insert(le, StableSort(le, s[..|s| - 1]), s[|s| - 1])
  }

  lemma {:induction false} InsertSorts<T(!new)>(le: (T, T) -> bool, s: seq<T>, x: T)
    requires TotalPreorder(le) && Sorted(le, s)
    ensures Sorted(le, Insert(le, s, x))
  {
    if s != [] && !le(s[|s| - 1], x) {
      var init, last := s[..|s| - 1], s[|s| - 1];
      InsertSorts(le, init, x);
      forall y | y in Insert(le, init, x) ensures le(y, last) {}
    } else {
      forall y | y in s ensures le(y, x) { LastIsGreatest(le, s, y); }
    }
  }

  lemma LastIsGreatest<T(!new)>(le: (T, T) -> bool, s: seq<T>, y: T)
    requires TotalPreorder(le) && Sorted(le, s) && y in s
    ensures le(y, s[|s| - 1])
  {
  }

  lemma {:induction false} SortSorts<T(!new)>(le: (T, T) -> bool, s: seq<T>)
    requires TotalPreorder(le)
    ensures Sorted(le, StableSort(le, s))
  {
    if s != [] {
      SortSorts(le, s[..|s| - 1]);
      InsertSorts(le, StableSort(le, s[..|s| - 1]), s[|s| - 1]);
    }
  }

  lemma {:induction false} InsertKeeps<T(!new)>(le: (T, T) -> bool, s: seq<T>, x: T)
    ensures multiset(Insert(le, s, x)) == multiset(s) + multiset{x}
  {
    if s != [] && !le(s[|s| - 1], x) {
      InsertKeeps(le, s[..|s| - 1], x);
      assert s == s[..|s| - 1] + [s[|s| - 1]];
    }
  }

  lemma {:induction false} SortKeeps<T(!new)>(le: (T, T) -> bool, s: seq<T>)
    ensures multiset(StableSort(le, s)) == multiset(s)
  {
    if s != [] {
      SortKeeps(le, s[..|s| - 1]);
      InsertKeeps(le, StableSort(le, s[..|s| - 1]), s[|s| - 1]);
      assert s == s[..|s| - 1] + [s[|s| - 1]];
    }
  }

  /** What is in order already stays as it is. */
  lemma {:induction false} SortFixes<T(!new)>(le: (T, T) -> bool, s: seq<T>)
    requires Sorted(le, s)
    ensures StableSort(le, s) == s
  {
    if s != [] {
      SortFixes(le, s[..|s| - 1]);
      assert s == s[..|s| - 1] + [s[|s| - 1]];
    }
  }

  /** With no ties between distinct elements, there is one sorted arrangement only. */
  lemma {:induction false} SortedUnique<T(!new)>(le: (T, T) -> bool, a: seq<T>, b: seq<T>)
    requires TotalPreorder(le)
    requires forall x, y :: x in a && y in a && le(x, y) && le(y, x) ==> x == y
    requires Sorted(le, a) && Sorted(le, b) && multiset(a) == multiset(b)
    ensures a == b
  {
    assert |multiset(a)| == |multiset(b)|;
    if a != [] {
      SameLast(le, a, b);
      DropLast(a);
      DropLast(b);
      SortedUnique(le, a[..|a| - 1], b[..|b| - 1]);
    }
  }

  lemma SameLast<T(!new)>(le: (T, T) -> bool, a: seq<T>, b: seq<T>)
    requires TotalPreorder(le) && a != [] && b != []
    requires forall x, y :: x in a && y in a && le(x, y) && le(y, x) ==> x == y
    requires Sorted(le, a) && Sorted(le, b) && multiset(a) == multiset(b)
    ensures a[|a| - 1] == b[|b| - 1]
  {
    var x, y := a[|a| - 1], b[|b| - 1];
    assert y in multiset(a) && x in multiset(b);
    LastIsGreatest(le, a, y);
    LastIsGreatest(le, b, x);
  }

  lemma DropLast<T>(s: seq<T>)
    requires s != []
    ensures s == s[..|s| - 1] + [s[|s| - 1]]
    ensures multiset(s[..|s| - 1]) == multiset(s) - multiset{s[|s| - 1]}
  {
    assert s == s[..|s| - 1] + [s[|s| - 1]];
  }

  lemma SameRemainder<T>(x: multiset<T>, y: multiset<T>, whole: multiset<T>, e: T)
    requires x == whole - multiset{e} && whole == y + multiset{e}
    ensures x == y
  {
  }

  // ---- stability ------------------------------------------------------------------

  predicate Ties<T(!new)>(le: (T, T) -> bool, x: T, y: T) {
    le(x, y) && le(y, x)
  }

  /** The elements that compare equal to `x`, in the order in which they stand. */
  function EqualTo<T(!new)>(le: (T, T) -> bool, s: seq<T>, x: T): seq<T> {
    if s == [] then [] else EqualTo(le, s[..|s| - 1], x) + if Ties(le, x, s[|s| - 1]) then [s[|s| - 1]] else []
  }

  lemma EqualToJoin<T(!new)>(le: (T, T) -> bool, s: seq<T>, y: T, x: T)
    ensures EqualTo(le, s + [y], x) == EqualTo(le, s, x) + if Ties(le, x, y) then [y] else []
  {
    assert (s + [y])[..|s|] == s;
  }

  lemma {:induction false} InsertStable<T(!new)>(le: (T, T) -> bool, s: seq<T>, y: T, x: T)
    requires TotalPreorder(le)
    ensures EqualTo(le, Insert(le, s, y), x) == EqualTo(le, s, x) + if Ties(le, x, y) then [y] else []
  {
    if s == [] || le(s[|s| - 1], y) {
      EqualToJoin(le, s, y, x);
    } else {
      var init, last := s[..|s| - 1], s[|s| - 1];
      InsertStable(le, init, y, x);
      EqualToJoin(le, Insert(le, init, y), last, x);
      assert s == init + [last];
      assert !(Ties(le, x, y) && Ties(le, x, last));
    }
  }

  /** The sort is stable: elements that compare equal keep the order in which they came. */
  lemma {:induction false} SortIsStable<T(!new)>(le: (T, T) -> bool, s: seq<T>, x: T)
    requires TotalPreorder(le)
    ensures EqualTo(le, StableSort(le, s), x) == EqualTo(le, s, x)
  {
    if s != [] {
      SortIsStable(le, s[..|s| - 1], x);
      InsertStable(le, StableSort(le, s[..|s| - 1]), s[|s| - 1], x);
    }
  }
}
