/** What an accepted publish does and does not guarantee about its tree (harness/reconcile-delivery.mjs, `buildTree`). */
module DeliveryLimits {
  import opened Prelude
  import opened DeliveryTree

  // ---- cycles ---------------------------------------------------------------------

  /** An accepted publish with one known root has no cycle anywhere. */
  lemma AcceptedIsAcyclic(rows: seq<Row>, members: seq<Option<int>>, x: Name)
    requires VoidOf(rows, members).None? && Known(RootOf(rows))
    ensures !Cyclic(ParentMap(Claims(rows)), x, RootOf(rows))
  {
    var t := TreeOf(rows, members);
    ScoredTreeIsClimbable(t, rows, members);
    ClimbEnds(t, x);
  }

  /** A row of a node that only names its parent. */
  function Orphan(node: Name, parent: Name): Row {
    Row(node, None, None, false, parent, false, None)
  }

  /** Two more emitters, each naming the other as its parent. */
  function WithCycle(rows: seq<Row>, a: Name, b: Name): seq<Row> {
    rows + [Orphan(a, b), Orphan(b, a)]
  }

  /** Names that no row has claimed as a child, in the form the analyzer keeps. */
  ghost predicate Unclaimed(rows: seq<Row>, a: Name) {
    Known(a) && Pfx(a) == a && a !in Claimed(Claims(rows))
  }

  lemma GatherPair<T>(f: Row -> set<T>, r: Row, s: Row)
    ensures Gather(f, [r, s]) == f(r) + f(s)
  {
    assert [r, s][..1] == [r] && [r][..0] == [];
    assert Gather(f, [r]) == f(r);
  }

  lemma GatherTwo<T>(f: Row -> set<T>, rows: seq<Row>, a: Name, b: Name)
    ensures Gather(f, WithCycle(rows, a, b)) == Gather(f, rows) + f(Orphan(a, b)) + f(Orphan(b, a))
  {
    var all := WithCycle(rows, a, b);
    assert all[..|all| - 1] == rows + [Orphan(a, b)];
    assert (rows + [Orphan(a, b)])[..|rows|] == rows;
  }

  lemma OrphanSays(a: Name, b: Name)
    requires Known(b) && Pfx(a) == a && Pfx(b) == b
    ensures RowClaims(Orphan(a, b)) == {Claim(a, b)} && RowNodes(Orphan(a, b)) == {a}
    ensures RowRoots(Orphan(a, b)) == {} && RowTopics(Orphan(a, b)) == {} && RowRoles(Orphan(a, b)) == {}
    ensures !Truncated(Orphan(a, b))
  {
  }

  lemma CycleAdds(rows: seq<Row>, a: Name, b: Name)
    requires Unclaimed(rows, a) && Unclaimed(rows, b)
    ensures var all := WithCycle(rows, a, b);
            && Claims(all) == Claims(rows) + {Claim(a, b), Claim(b, a)}
            && Gather(RowRoots, all) == Gather(RowRoots, rows) && RootOf(all) == RootOf(rows)
            && Gather(RowTopics, all) == Gather(RowTopics, rows) && Gather(RowRoles, all) == Gather(RowRoles, rows)
            && Gather(RowNodes, all) == Gather(RowNodes, rows) + {a, b}
  {
    hide Gather;
    OrphanSays(a, b);
    OrphanSays(b, a);
    GatherTwo(RowClaims, rows, a, b);
    GatherTwo(RowRoots, rows, a, b);
    GatherTwo(RowTopics, rows, a, b);
    GatherTwo(RowRoles, rows, a, b);
    GatherTwo(RowNodes, rows, a, b);
    hide WithCycle, Orphan, RowClaims, RowRoots, RowTopics, RowRoles, RowNodes, Unclaimed, Sole;
    assert Gather(RowClaims, WithCycle(rows, a, b)) == Gather(RowClaims, rows) + {Claim(a, b), Claim(b, a)};
  }

  lemma CycleNotTruncated(rows: seq<Row>, a: Name, b: Name)
    ensures AnyTruncated(WithCycle(rows, a, b)) <==> AnyTruncated(rows)
  {
    assert forall r :: r in WithCycle(rows, a, b) <==> r in rows || r == Orphan(a, b) || r == Orphan(b, a);
  }

  lemma CycleParents(claims: set<Claim>, a: Name, b: Name)
    requires a != b && Known(a) && Known(b) && a !in Claimed(claims) && b !in Claimed(claims)
    ensures var all := claims + {Claim(a, b), Claim(b, a)};
            && (ParentConflict(all) <==> ParentConflict(claims))
            && ParentIn(ParentMap(all), a) == b && ParentIn(ParentMap(all), b) == a
  {
    var all := claims + {Claim(a, b), Claim(b, a)};
    assert Claimed(all) == Claimed(claims) + {a, b} by {
      assert Claim(a, b) in all && Claim(b, a) in all;
    }
    forall x | x in Claimed(claims) ensures ParentsOf(all, x) == ParentsOf(claims, x) {}
    assert ParentsOf(all, a) == {b} by { OnlyClaim(claims, a, b); }
    assert ParentsOf(all, b) == {a} by { OnlyClaim(claims, b, a); }
    SoleIs({b}, b);
    SoleIs({a}, a);
    if x :| x in Claimed(claims) && |ParentsOf(claims, x)| > 1 { assert x in Claimed(all); }
  }

  lemma OnlyClaim(claims: set<Claim>, a: Name, b: Name)
    requires a != b && Known(b) && a !in Claimed(claims)
    ensures ParentsOf(claims + {Claim(a, b), Claim(b, a)}, a) == {b}
  {
    assert Claim(a, b) in claims + {Claim(a, b), Claim(b, a)};
  }

  /**
   * Two nodes that name each other as parents are a cycle in any publish. Without a single known root the
   * verdict does not depend on it at all; an accepted publish stays accepted exactly when there is none.
   */
  lemma CycleUnseenWithoutRoot(rows: seq<Row>, members: seq<Option<int>>, a: Name, b: Name)
    requires a != b && Unclaimed(rows, a) && Unclaimed(rows, b) && a != RootOf(rows) && b != RootOf(rows)
    ensures var all := WithCycle(rows, a, b);
            && Cyclic(ParentMap(Claims(all)), a, RootOf(all)) && a in Gather(RowNodes, all)
            && (!Known(RootOf(rows)) ==> VoidOf(all, members) == VoidOf(rows, members))
            && (VoidOf(rows, members).None? ==> (VoidOf(all, members).None? <==> !Known(RootOf(rows))))
  {
    hide Gather, RootOf, ParentMap, ParentConflict, RoleConflict, AnyTruncated, MembersMismatch, CycleReported, Unclaimed;
    var all := WithCycle(rows, a, b);
    CycleAdds(rows, a, b);
    CycleNotTruncated(rows, a, b);
    UnclaimedMeans(rows, a);
    UnclaimedMeans(rows, b);
    CycleParents(Claims(rows), a, b);
    TwoStepCycle(ParentMap(Claims(all)), a, b, RootOf(all));
    if Known(RootOf(all)) && VoidOf(all, members).None? { AcceptedIsAcyclic(all, members, a); }
  }

  lemma UnclaimedMeans(rows: seq<Row>, a: Name)
    requires Unclaimed(rows, a)
    ensures Known(a) && a !in Claimed(Claims(rows))
  {
  }

  lemma TwoStepCycle(par: map<Name, Name>, a: Name, b: Name, root: Name)
    requires ParentIn(par, a) == b && ParentIn(par, b) == a && Known(a) && Known(b) && a != root && b != root
    ensures Cyclic(par, a, root)
  {
    assert Up(par, a, 1) == ParentIn(par, Up(par, a, 0)) == b;
    assert Up(par, a, 2) == ParentIn(par, Up(par, a, 1)) == a;
    assert Revisits(par, a, root, 0, 2);
  }

  /** It does happen: two declared roots, and beside them two nodes in a cycle. */
  lemma TwoRootsHideACycle()
    ensures var roots := [Bare(Some("R"), true), Bare(Some("S"), true)];
            var rows := WithCycle(roots, Some("A"), Some("B"));
            VoidOf(rows, []).None? && Cyclic(ParentMap(Claims(rows)), Some("A"), RootOf(rows))
  {
    var r, s := Bare(Some("R"), true), Bare(Some("S"), true);
    var roots := [r, s];
    TwoRootsAccepted(r, s);
    CycleUnseenWithoutRoot(roots, [], Some("A"), Some("B"));
  }

  /** A row that says only who emitted it, and whether as root. */
  function Bare(node: Name, isRoot: bool): Row {
    Row(node, None, None, isRoot, None, false, None)
  }

  lemma BarePair(r: Row, s: Row, n: Name, m: Name)
    requires r == Bare(n, r.isRoot) && s == Bare(m, s.isRoot) && Pfx(n) == n && Pfx(m) == m
    ensures Claims([r, s]) == {} && Gather(RowRoles, [r, s]) == {} && Gather(RowTopics, [r, s]) == {}
    ensures Gather(RowNodes, [r, s]) == {n, m} && !AnyTruncated([r, s])
    ensures Gather(RowRoots, [r, s]) == (if r.isRoot then {n} else {}) + (if s.isRoot then {m} else {})
  {
    hide Gather;
    GatherPair(RowClaims, r, s);
    GatherPair(RowRoles, r, s);
    GatherPair(RowTopics, r, s);
    GatherPair(RowNodes, r, s);
    GatherPair(RowRoots, r, s);
  }

  lemma TwoRootsAccepted(r: Row, s: Row)
    requires r == Bare(Some("R"), true) && s == Bare(Some("S"), true)
    ensures VoidOf([r, s], []).None? && RootOf([r, s]) == None && Claims([r, s]) == {}
  {
    hide Gather;
    BarePair(r, s, Some("R"), Some("S"));
    assert Some("R") != Some("S");
    assert |{Some("R"), Some("S")}| == 2;
  }

  // ---- emitters that do not reach the root -----------------------------------------------

  /** The climb from `x` can take its next two steps, or is done. */
  ghost predicate Attached(par: map<Name, Name>, x: Name, root: Name) {
    x == root
    || (Known(x) && Known(ParentIn(par, x)) && (ParentIn(par, x) == root || Known(ParentIn(par, ParentIn(par, x)))))
  }

  ghost predicate Rooted(par: map<Name, Name>, x: Name, root: Name) {
    exists k: nat :: ReachesRoot(par, x, root, k)
  }

  lemma RootedIsAttached(par: map<Name, Name>, x: Name, root: Name)
    requires Known(root) && Rooted(par, x, root)
    ensures Attached(par, x, root)
  {
    var k: nat :| ReachesRoot(par, x, root, k);
    assert Up(par, x, 0) == x;
    if k >= 1 {
      assert !Stop(Up(par, x, 0), root);
      assert Up(par, x, 1) == ParentIn(par, x);
      if k >= 2 {
        assert !Stop(Up(par, x, 1), root);
        assert Up(par, x, 2) == ParentIn(par, ParentIn(par, x));
        if k >= 3 { assert !Stop(Up(par, x, 2), root); }
      }
    }
  }

  lemma AttachedIsRooted(t: Tree, x: Name)
    requires Climbable(t) && Known(t.root) && x in t.nodes
    requires forall y :: y in t.nodes ==> Attached(t.parentOf, y, t.root)
    ensures Rooted(t.parentOf, x, t.root)
  {
    var par, root := t.parentOf, t.root;
    ClimbEnds(t, x);
    var k: nat :| k <= |t.nodes| + 3 && EndsAt(par, x, root, k);
    if Up(par, x, k) != root {
      assert Up(par, x, 0) == x;
      assert Attached(par, x, root);
      assert k > 0;
      LastKnown(t, x, k);
      assert false;
    }
    assert ReachesRoot(par, x, root, k);
  }

  /** Nowhere above an attached emitter does the climb break off. */
  lemma LastKnown(t: Tree, x: Name, k: nat)
    requires Climbable(t) && x in t.nodes && k > 0 && EndsAt(t.parentOf, x, t.root, k)
    requires forall y :: y in t.nodes ==> Attached(t.parentOf, y, t.root)
    ensures Up(t.parentOf, x, k) == t.root || Known(Up(t.parentOf, x, k))
  {
    hide Climbable;
    var par, root := t.parentOf, t.root;
    var y := Up(par, x, k - 1);
    assert !Stop(y, root) && Up(par, x, k) == ParentIn(par, y);
    if y in t.nodes {
      assert Attached(par, y, root);
    } else {
      assert Up(par, x, 0) == x;
      var z := Up(par, x, k - 2);
      assert !Stop(z, root) && y == ParentIn(par, z);
      EdgeTouchesEmitter(t, z);
      assert Attached(par, z, root);
    }
  }

  lemma EdgeTouchesEmitter(t: Tree, x: Name)
    requires Climbable(t) && Known(ParentIn(t.parentOf, x))
    ensures x in t.nodes || ParentIn(t.parentOf, x) in t.nodes
  {
  }

  /**
   * In an accepted publish with one known root every emitter reaches the root exactly when each of them,
   * itself apart, has a recorded parent and that parent, unless it is the root, has one too.
   */
  lemma EmittersReachRoot(rows: seq<Row>, members: seq<Option<int>>)
    requires VoidOf(rows, members).None? && Known(RootOf(rows))
    ensures var t := TreeOf(rows, members);
            (forall x :: x in t.nodes ==> Rooted(t.parentOf, x, t.root))
            <==> (forall x :: x in t.nodes ==> Attached(t.parentOf, x, t.root))
  {
    var t := TreeOf(rows, members);
    ScoredTreeIsClimbable(t, rows, members);
    hide TreeOf, Climbable, Attached, Rooted;
    if forall x :: x in t.nodes ==> Rooted(t.parentOf, x, t.root) {
      forall x | x in t.nodes ensures Attached(t.parentOf, x, t.root) { RootedIsAttached(t.parentOf, x, t.root); }
    }
    if forall x :: x in t.nodes ==> Attached(t.parentOf, x, t.root) {
      forall x | x in t.nodes ensures Rooted(t.parentOf, x, t.root) { AttachedIsRooted(t, x); }
    }
  }

  /** It does happen: a root, and an emitter whose upstream nobody recorded. */
  lemma UnattachedEmitterAccepted()
    ensures var rows := [Bare(Some("R"), true), Bare(Some("A"), false)];
            var t := TreeOf(rows, []);
            t.voidReason.None? && t.root == Some("R") && Some("A") in t.nodes && !Rooted(t.parentOf, Some("A"), t.root)
  {
    hide Gather, Sole;
    var rows := [Bare(Some("R"), true), Bare(Some("A"), false)];
    BarePair(rows[0], rows[1], Some("R"), Some("A"));
    SoleIs({Some("R")}, Some("R"));
    var par := ParentMap(Claims(rows));
    assert par == map[];
    assert Up(par, Some("A"), 1) == ParentIn(par, Up(par, Some("A"), 0)) == None;
    assert EndsAt(par, Some("A"), Some("R"), 1);
    assert EndsAt(par, Some("R"), Some("R"), 0);
    assert !CycleReported(rows);
    if Rooted(par, Some("A"), Some("R")) { RootedIsAttached(par, Some("A"), Some("R")); }
  }
}
