/** What a rebuilt delivery tree says, read off the rows themselves (harness/reconcile-delivery.mjs, `buildTree`). */
module TreeRules {
  import opened Prelude
  import opened DeliveryTree

  /** A name is kept whole up to twelve characters and cut there. */
  lemma PfxMeans(n: Name)
    ensures n.None? ==> Pfx(n) == None
    ensures n.Some? ==> Pfx(n).Some? && |Pfx(n).value| <= 12 && Pfx(n).value <= n.value
                        && (|n.value| <= 12 ==> Pfx(n) == n) && (|n.value| > 12 ==> |Pfx(n).value| == 12)
  {
  }

  /** A name that is missing or empty counts for nothing: it is no parent, and no root to walk to. */
  lemma EmptyNameUnknown()
    ensures !Known(None) && !Known(Some("")) && forall s: string :: s != "" ==> Known(Some(s))
  {
  }

  // ---- nodes, roots ------------------------------------------------------

  /** The emitters. */
  lemma Emitters(rows: seq<Row>, members: seq<Option<int>>, x: Name)
    ensures x in TreeOf(rows, members).nodes <==> exists r :: r in rows && Pfx(r.node) == x
  {
    GatherMember(RowNodes, rows, x);
  }

  lemma DeclaredMember(rows: seq<Row>, x: Name)
    ensures x in Gather(RowRoots, rows) <==> exists r :: r in rows && r.isRoot && Pfx(r.node) == x
  {
    GatherMember(RowRoots, rows, x);
    forall r ensures x in RowRoots(r) <==> r.isRoot && Pfx(r.node) == x {}
  }

  lemma TwoOrOne<T>(s: set<T>, x: T)
    requires x in s
    ensures |s| > 1 <==> exists y :: y in s && y != x
    ensures |s| == 1 <==> s == {x}
  {
    var rest := s - {x};
    assert s == rest + {x};
    if rest != {} { var y :| y in rest; assert y in s && y != x; } else { assert s == {x}; }
    if |s| == 1 { assert |rest| == 0; }
  }

  /** The root is the one node that declares itself root; with none or several there is no root, and several are a divergence. */
  lemma DeclaredRoot(rows: seq<Row>, members: seq<Option<int>>, r: Row)
    requires r in rows && r.isRoot
    ensures var t := TreeOf(rows, members);
            var several := exists s :: s in rows && s.isRoot && Pfx(s.node) != Pfx(r.node);
            && (several ==> t.root == None && t.divergence.Some?)
            && (!several ==> t.root == Pfx(r.node) && t.divergence.None?)
  {
    var x, declared := Pfx(r.node), Gather(RowRoots, rows);
    forall y ensures y in declared <==> exists s :: s in rows && s.isRoot && Pfx(s.node) == y { DeclaredMember(rows, y); }
    assert x in declared;
    TwoOrOne(declared, x);
    if s :| s in rows && s.isRoot && Pfx(s.node) != x { assert Pfx(s.node) in declared; }
    if |declared| == 1 { SoleIs(declared, x); }
  }

  lemma NobodyDeclares(rows: seq<Row>)
    ensures Gather(RowRoots, rows) == {} <==> forall r :: r in rows ==> !r.isRoot
    ensures (forall r :: r in rows ==> !r.isRoot) ==> RootOf(rows) == None && DivergenceOf(rows).None?
  {
    forall x ensures x in Gather(RowRoots, rows) <==> exists r :: r in rows && r.isRoot && Pfx(r.node) == x { DeclaredMember(rows, x); }
    if r :| r in rows && r.isRoot { assert Pfx(r.node) in Gather(RowRoots, rows); }
  }

  // ---- parents -----------------------------------------------------------------------

  /** Some row says that p is the parent of x: x in its own row, or p by listing x as a recipient. */
  ghost predicate SaysParent(rows: seq<Row>, x: Name, p: Name) {
    exists r :: r in rows
                && ((Known(r.parent) && Pfx(r.node) == x && Pfx(r.parent) == p)
                    || (Pfx(r.node) == p && r.recips.Some? && exists rc :: rc in r.recips.value && Pfx(rc.sub) == x))
  }

  lemma ClaimMeans(rows: seq<Row>, x: Name, p: Name)
    ensures Claim(x, p) in Claims(rows) <==> SaysParent(rows, x, p)
  {
    GatherMember(RowClaims, rows, Claim(x, p));
    forall r ensures Claim(x, p) in RowClaims(r)
                     <==> (Known(r.parent) && Pfx(r.node) == x && Pfx(r.parent) == p)
                          || (Pfx(r.node) == p && r.recips.Some? && exists rc :: rc in r.recips.value && Pfx(rc.sub) == x)
    {
      FanClaimMember(Pfx(r.node), RecipsOf(r), Claim(x, p));
    }
  }

  /** Two different known parents are said of one node. */
  ghost predicate ParentsClash(rows: seq<Row>) {
    exists x, p, q :: SaysParent(rows, x, p) && SaysParent(rows, x, q) && Known(p) && Known(q) && p != q
  }

  lemma ParentConflictMeans(rows: seq<Row>)
    ensures ParentConflict(Claims(rows)) <==> ParentsClash(rows)
  {
    var claims := Claims(rows);
    if ParentConflict(claims) {
      var x :| x in Claimed(claims) && |ParentsOf(claims, x)| > 1;
      var p :| p in ParentsOf(claims, x);
      TwoOrOne(ParentsOf(claims, x), p);
      var q :| q in ParentsOf(claims, x) && q != p;
      ClaimMeans(rows, x, p);
      ClaimMeans(rows, x, q);
    }
    if ParentsClash(rows) {
      var x, p, q :| SaysParent(rows, x, p) && SaysParent(rows, x, q) && Known(p) && Known(q) && p != q;
      ClaimMeans(rows, x, p);
      ClaimMeans(rows, x, q);
      assert Claim(x, p).child == x && p in ParentsOf(claims, x) && q in ParentsOf(claims, x);
      TwoOrOne(ParentsOf(claims, x), p);
    }
  }

  /** In a publish without clashing parents, the recorded parent is the known one that some row says, and otherwise unknown. */
  lemma ParentMeans(rows: seq<Row>, members: seq<Option<int>>, x: Name, p: Name)
    requires !ParentsClash(rows) && Known(p)
    ensures ParentIn(TreeOf(rows, members).parentOf, x) == p <==> SaysParent(rows, x, p)
  {
    ParentConflictMeans(rows);
    RecordedParent(rows, x, p);
    ClaimMeans(rows, x, p);
  }

  // ---- the rules, over the rows ----------------------------------------------------------

  ghost predicate CountWrong(rows: seq<Row>) {
    exists r :: r in rows && r.n.Some? && r.n.value != if r.recips.Some? then |r.recips.value| else 0
  }

  /** One edge, by its text, is used both to forward and as a leaf. */
  ghost predicate RolesClash(rows: seq<Row>) {
    exists r, s, a, b :: UsesEdge(rows, r, a) && UsesEdge(rows, s, b) && a.child && !b.child
                         && EdgeKey(Pfx(r.node), Pfx(a.sub)) == EdgeKey(Pfx(s.node), Pfx(b.sub))
  }

  ghost predicate UsesEdge(rows: seq<Row>, r: Row, a: Recip) {
    r in rows && r.recips.Some? && a in r.recips.value
  }

  ghost predicate TopicsClash(rows: seq<Row>) {
    exists r, s :: r in rows && s in rows && r.topicId.Some? && s.topicId.Some? && r.topicId != s.topicId
  }

  lemma EdgeText(from: string, to: string)
    ensures EdgeKey(Some(from), Some(to)) == from + "->" + to
    ensures EdgeKey(None, Some(to)) == "null->" + to && EdgeKey(Some(from), None) == from + "->null"
  {
  }

  lemma {:induction false} FanRoleMember(node: Name, recips: seq<Recip>, e: Role)
    ensures e in FanRoles(node, recips) <==> exists rc :: rc in recips && e == Role(EdgeKey(node, Pfx(rc.sub)), rc.child)
  {
    if recips != [] {
      var init, last := recips[..|recips| - 1], recips[|recips| - 1];
      FanRoleMember(node, init, e);
      assert recips == init + [last];
    }
  }

  lemma RoleMeans(rows: seq<Row>, e: Role)
    ensures e in Gather(RowRoles, rows)
            <==> exists r, a :: UsesEdge(rows, r, a) && e == Role(EdgeKey(Pfx(r.node), Pfx(a.sub)), a.child)
  {
    hide EdgeKey;
    GatherMember(RowRoles, rows, e);
    forall r ensures e in RowRoles(r)
                     <==> exists a :: a in RecipsOf(r) && e == Role(EdgeKey(Pfx(r.node), Pfx(a.sub)), a.child)
    {
      FanRoleMember(Pfx(r.node), RecipsOf(r), e);
    }
  }

  lemma RolesConflict(rows: seq<Row>)
    requires RoleConflict(Gather(RowRoles, rows))
    ensures RolesClash(rows)
  {
    hide EdgeKey, Gather, UsesEdge;
    var e :| e in Gather(RowRoles, rows) && Role(e.key, !e.child) in Gather(RowRoles, rows);
    var forwards, leaf := Role(e.key, true), Role(e.key, false);
    assert forwards in Gather(RowRoles, rows) && leaf in Gather(RowRoles, rows);
    RoleMeans(rows, forwards);
    RoleMeans(rows, leaf);
    var r, a :| UsesEdge(rows, r, a) && forwards == Role(EdgeKey(Pfx(r.node), Pfx(a.sub)), a.child);
    var s, b :| UsesEdge(rows, s, b) && leaf == Role(EdgeKey(Pfx(s.node), Pfx(b.sub)), b.child);
  }

  lemma ClashConflicts(rows: seq<Row>)
    requires RolesClash(rows)
    ensures RoleConflict(Gather(RowRoles, rows))
  {
    hide EdgeKey, Gather, UsesEdge;
    var r, s, a, b :| UsesEdge(rows, r, a) && UsesEdge(rows, s, b) && a.child && !b.child
                      && EdgeKey(Pfx(r.node), Pfx(a.sub)) == EdgeKey(Pfx(s.node), Pfx(b.sub));
    var e := Role(EdgeKey(Pfx(r.node), Pfx(a.sub)), true);
    RoleMeans(rows, e);
    RoleMeans(rows, Role(e.key, false));
  }

  lemma RoleConflictMeans(rows: seq<Row>)
    ensures RoleConflict(Gather(RowRoles, rows)) <==> RolesClash(rows)
  {
    hide *;
    if RoleConflict(Gather(RowRoles, rows)) { RolesConflict(rows); }
    if RolesClash(rows) { ClashConflicts(rows); }
  }

  lemma TopicConflictMeans(rows: seq<Row>)
    ensures |Gather(RowTopics, rows)| > 1 <==> TopicsClash(rows)
  {
    var topics := Gather(RowTopics, rows);
    forall x ensures x in topics <==> x.Some? && exists r :: r in rows && r.topicId == x {
      GatherMember(RowTopics, rows, x);
      forall r ensures x in RowTopics(r) <==> r.topicId.Some? && r.topicId == x {}
    }
    if topics != {} {
      var x :| x in topics;
      TwoOrOne(topics, x);
    }
    if r, s :| r in rows && s in rows && r.topicId.Some? && s.topicId.Some? && r.topicId != s.topicId {
      assert r.topicId in topics;
      TwoOrOne(topics, r.topicId);
    }
  }

  /** The first row of the root lists another number of recipients than some root-members row. */
  ghost predicate MembersClash(rows: seq<Row>, members: seq<Option<int>>, root: Name) {
    exists i, j :: 0 <= i < |rows| && Pfx(rows[i].node) == root && (forall k :: 0 <= k < i ==> Pfx(rows[k].node) != root)
                   && rows[i].recips.Some? && 0 <= j < |members| && members[j].Some? && members[j].value != |rows[i].recips.value|
  }

  lemma {:induction false} ProjectionMeans(rows: seq<Row>, root: Name, i: nat)
    requires i < |rows| && Pfx(rows[i].node) == root && forall k :: 0 <= k < i ==> Pfx(rows[k].node) != root
    ensures RootProjection(rows, root) == if rows[i].recips.Some? then Some(|rows[i].recips.value|) else None
    decreases i
  {
    if i > 0 { ProjectionMeans(rows[1..], root, i - 1); }
  }

  lemma {:induction false} ProjectionFound(rows: seq<Row>, root: Name) returns (i: nat)
    requires RootProjection(rows, root).Some?
    ensures i < |rows| && Pfx(rows[i].node) == root && forall k :: 0 <= k < i ==> Pfx(rows[k].node) != root
  {
    if Pfx(rows[0].node) == root {
      i := 0;
    } else {
      i := ProjectionFound(rows[1..], root);
      i := i + 1;
    }
  }

  lemma MembersMean(rows: seq<Row>, members: seq<Option<int>>)
    ensures MembersMismatch(rows, members) <==> MembersClash(rows, members, RootOf(rows))
  {
    hide RootProjection, RootOf;
    var root := RootOf(rows);
    if RootProjection(rows, root).Some? {
      var i := ProjectionFound(rows, root);
      ProjectionMeans(rows, root, i);
      if m :| m in members && m.Some? && m.value != RootProjection(rows, root).value {
        var j :| 0 <= j < |members| && members[j] == m;
        assert MembersClash(rows, members, root);
      }
    }
    if MembersClash(rows, members, root) {
      var i, j :| 0 <= i < |rows| && Pfx(rows[i].node) == root && (forall k :: 0 <= k < i ==> Pfx(rows[k].node) != root)
                  && rows[i].recips.Some? && 0 <= j < |members| && members[j].Some? && members[j].value != |rows[i].recips.value|;
      ProjectionMeans(rows, root, i);
      assert members[j] in members;
    }
  }

  /** Some emitter's climb is reported: it does not end within two steps more than there are emitters. */
  ghost predicate WalkReported(t: Tree) {
    exists x :: x in t.nodes && !EndsWithin(t.parentOf, x, t.root, |t.nodes| + 2)
  }

  /** The void reason is the first of the seven rules, in the analyzer's order, that the rows break. */
  lemma VoidMeans(rows: seq<Row>, members: seq<Option<int>>)
    ensures var t := TreeOf(rows, members);
            t.voidReason == if CountWrong(rows) then Some(TelemetryTruncated)
                            else if RolesClash(rows) then Some(ConflictingEdgeRole)
                            else if ParentsClash(rows) then Some(ConflictingParent)
                            else if forall r :: r in rows ==> !r.isRoot then Some(NoRootObserved)
                            else if TopicsClash(rows) then Some(ConflictingTopic)
                            else if Known(t.root) && WalkReported(t) then Some(TreeCycle)
                            else if Known(t.root) && MembersClash(rows, members, t.root) then Some(RootMembersMismatch)
                            else None
  {
    RoleConflictMeans(rows);
    ParentConflictMeans(rows);
    NobodyDeclares(rows);
    TopicConflictMeans(rows);
    MembersMean(rows, members);
    TruncatedMeans(rows);
    hide RoleConflict, ParentConflict, Gather, AnyTruncated, MembersMismatch, RolesClash, ParentsClash, TopicsClash, CountWrong, MembersClash,
         RootOf, EndsWithin, Claims, ParentMap;
  }

  lemma TruncatedMeans(rows: seq<Row>)
    ensures AnyTruncated(rows) <==> CountWrong(rows)
  {
    forall r ensures Truncated(r) <==> r.n.Some? && r.n.value != if r.recips.Some? then |r.recips.value| else 0 {}
  }

  // ---- the path to a reader -------------------------------------------------------------

  /** Climbing from x comes to the root after k steps and not before, over recorded parents only. */
  ghost predicate Arrives(par: map<Name, Name>, x: Name, root: Name, k: nat) {
    Up(par, x, k) == root && forall j: nat :: j < k ==> Known(Up(par, x, j)) && Up(par, x, j) != root
  }

  /** A reader has a path exactly when its climb arrives within 4096 steps, and then one edge for each. */
  lemma PathFound(par: map<Name, Name>, x: Name, root: Name)
    ensures PathOf(par, x, root).Some? <==> exists k: nat :: k <= 4096 && Arrives(par, x, root, k)
    ensures PathOf(par, x, root).Some? ==> Arrives(par, x, root, |PathOf(par, x, root).value|)
  {
    hide Up;
    forall k: nat ensures Arrives(par, x, root, k) <==> ReachesRoot(par, x, root, k) {}
    hide Arrives, ReachesRoot;
    if k: nat :| k <= 4096 && Arrives(par, x, root, k) { PathIs(par, x, root, k); }
  }
}
