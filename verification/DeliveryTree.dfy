/**
 * The delivery tree of one message, rebuilt from untrusted fan-out rows
 * (harness/reconcile-delivery.mjs, `buildTree` and `pathEdges`).
 */
module DeliveryTree {
  import opened Prelude

  /** A node id as the analyzer sees it; `None` is an absent or non-string field. */
  type Name = Option<string>

  const PREFIX_LENGTH: nat := 12
  const PATH_STEP_LIMIT: nat := 4096

  /** JavaScript truthiness of a name: the empty string and a missing name are falsy. */
  predicate Known(n: Name) {
    n.Some? && n.value != ""
  }

  function Pfx(n: Name): Name {
    if n.Some? && |n.value| > PREFIX_LENGTH then Some(n.value[..PREFIX_LENGTH]) else n
  }

  datatype Recip = Recip(sub: Name, child: bool)

  datatype Row = Row(
    node: Name,
    topicId: Name,
    n: Option<int>,
    isRoot: bool,
    parent: Name,
    localDelivery: bool,
    recips: Option<seq<Recip>>)

  datatype VoidReason =
    | TelemetryTruncated
    | ConflictingEdgeRole
    | ConflictingParent
    | NoRootObserved
    | ConflictingTopic
    | TreeCycle
    | RootMembersMismatch

  datatype Tree = Tree(
    belief: set<Name>,
    parentOf: map<Name, Name>,
    nodes: set<Name>,
    root: Name,
    divergence: Option<nat>,
    voidReason: Option<VoidReason>)

  // ---- what one row says -------------------------------------------------

  function RecipsOf(row: Row): seq<Recip> {
    if row.recips.Some? then row.recips.value else []
  }

  predicate Truncated(row: Row) {
    row.n.Some? && row.n.value != |RecipsOf(row)|
  }

  function Show(n: Name): string {
    if n.Some? then n.value else "null"
  }

  function EdgeKey(from: Name, to: Name): string {
    Show(from) + "->" + Show(to)
  }

  /** One node claiming another as its parent; the parent may be unknown. */
  datatype Claim = Claim(child: Name, parent: Name)

  /** One use of an edge, by its text key, as a forwarding (child) or a leaf edge. */
  datatype Role = Role(key: string, child: bool)

  ghost function RowNodes(row: Row): set<Name> {
    {Pfx(row.node)}
  }

  ghost function RowRoots(row: Row): set<Name> {
    if row.isRoot then {Pfx(row.node)} else {}
  }

  ghost function RowTopics(row: Row): set<Name> {
    if row.topicId.Some? then {row.topicId} else {}
  }

  /** The readers this row makes the kernel owe a delivery: itself, and its leaf recipients. */
  ghost function RowBelief(row: Row): set<Name> {
    (if row.localDelivery then {Pfx(row.node)} else {}) + LeafSubs(RecipsOf(row))
  }

  ghost function LeafSubs(recips: seq<Recip>): set<Name> {
    if recips == [] then {}
    else var last := recips[|recips| - 1];
         LeafSubs(recips[..|recips| - 1]) + if last.child then {} else {Pfx(last.sub)}
  }

  ghost function RowClaims(row: Row): set<Claim> {
    (if Known(row.parent) then {Claim(Pfx(row.node), Pfx(row.parent))} else {})
    + FanClaims(Pfx(row.node), RecipsOf(row))
  }

  ghost function FanClaims(node: Name, recips: seq<Recip>): set<Claim> {
    if recips == [] then {}
    else FanClaims(node, recips[..|recips| - 1]) + {Claim(Pfx(recips[|recips| - 1].sub), node)}
  }

  lemma {:induction false} FanClaimMember(node: Name, recips: seq<Recip>, c: Claim)
    ensures c in FanClaims(node, recips) <==> c.parent == node && exists rc :: rc in recips && Pfx(rc.sub) == c.child
  {
    if recips != [] {
      var init, last := recips[..|recips| - 1], recips[|recips| - 1];
      FanClaimMember(node, init, c);
      assert recips == init + [last];
    }
  }

  ghost function RowRoles(row: Row): set<Role> {
    FanRoles(Pfx(row.node), RecipsOf(row))
  }

  ghost function FanRoles(node: Name, recips: seq<Recip>): set<Role> {
    if recips == [] then {}
    else var last := recips[|recips| - 1];
         FanRoles(node, recips[..|recips| - 1]) + {Role(EdgeKey(node, Pfx(last.sub)), last.child)}
  }

  lemma {:induction false} ForwardOnly(node: Name, recips: seq<Recip>)
    requires forall rc :: rc in recips ==> rc.child
    ensures forall e :: e in FanRoles(node, recips) ==> e.child
  {
    if recips != [] { ForwardOnly(node, recips[..|recips| - 1]); }
  }

  // ---- what all the rows say ---------------------------------------------

  ghost function Gather<T>(f: Row -> set<T>, rows: seq<Row>): set<T> {
    if rows == [] then {} else Gather(f, rows[..|rows| - 1]) + f(rows[|rows| - 1])
  }

  lemma {:induction false} GatherMember<T>(f: Row -> set<T>, rows: seq<Row>, x: T)
    ensures x in Gather(f, rows) <==> exists r :: r in rows && x in f(r)
  {
    if rows != [] {
      var init, last := rows[..|rows| - 1], rows[|rows| - 1];
      GatherMember(f, init, x);
      assert rows == init + [last];
    }
  }

  lemma GatherStep<T>(f: Row -> set<T>, rows: seq<Row>, i: nat)
    requires i < |rows|
    ensures Gather(f, rows[..i + 1]) == Gather(f, rows[..i]) + f(rows[i])
  {
    assert rows[..i + 1][..i] == rows[..i];
  }

  ghost function Claims(rows: seq<Row>): set<Claim> {
    Gather(RowClaims, rows)
  }

  ghost function Claimed(claims: set<Claim>): set<Name> {
    set c | c in claims :: c.child
  }

  /** The distinct known parents claimed for `x`. */
  ghost function ParentsOf(claims: set<Claim>, x: Name): set<Name> {
    set c | c in claims && c.child == x && Known(c.parent) :: c.parent
  }

  ghost function Sole(s: set<Name>): Name {
    if |s| == 1 then (var p :| p in s; p) else None
  }

  lemma SoleIs(s: set<Name>, p: Name)
    requires |s| == 1 && p in s
    ensures Sole(s) == p
  {
    SingletonMembers(s, p, Sole(s));
  }

  ghost function ParentMap(claims: set<Claim>): map<Name, Name> {
    map x | x in Claimed(claims) :: Sole(ParentsOf(claims, x))
  }

  ghost function RootOf(rows: seq<Row>): Name {
    Sole(Gather(RowRoots, rows))
  }

  /** The recipient count of the first row the root emitted, when that row carries a list. */
  ghost function RootProjection(rows: seq<Row>, root: Name): Option<nat> {
    if rows == [] then None
    else if Pfx(rows[0].node) == root then
      (if rows[0].recips.Some? then Some(|rows[0].recips.value|) else None)
    else RootProjection(rows[1..], root)
  }

  /** A tree edge, from parent to child. */
  datatype Edge = Edge(from: Name, to: Name)

  // ---- climbing the recorded parents ---------------------------------------

  function ParentIn(par: map<Name, Name>, x: Name): Name {
    if x in par then par[x] else None
  }

  ghost function Up(par: map<Name, Name>, x: Name, k: nat): Name {
    if k == 0 then x else ParentIn(par, Up(par, x, k - 1))
  }

  /** A climb stops at the root and wherever no parent is recorded. */
  predicate Stop(x: Name, root: Name) {
    !Known(x) || x == root
  }

  ghost predicate EndsAt(par: map<Name, Name>, x: Name, root: Name, k: nat) {
    Stop(Up(par, x, k), root) && forall j: nat :: j < k ==> !Stop(Up(par, x, j), root)
  }

  ghost predicate EndsWithin(par: map<Name, Name>, x: Name, root: Name, bound: nat) {
    exists k: nat :: k <= bound && EndsAt(par, x, root, k)
  }

  /** The climb from `x` comes back to a node it has passed, before reaching any stop. */
  ghost predicate Cyclic(par: map<Name, Name>, x: Name, root: Name) {
    exists i: nat, j: nat :: Revisits(par, x, root, i, j)
  }

  ghost predicate Revisits(par: map<Name, Name>, x: Name, root: Name, i: nat, j: nat) {
    i < j && Up(par, x, i) == Up(par, x, j)
    && forall k: nat :: k < j ==> !Stop(Up(par, x, k), root)
  }

  ghost function Trail(par: map<Name, Name>, x: Name, k: nat): (t: seq<Name>)
    ensures |t| == k
    ensures forall i :: 0 <= i < k ==> t[i] == Up(par, x, i)
  {
    if k == 0 then [] else Trail(par, x, k - 1) + [Up(par, x, k - 1)]
  }

  lemma {:induction false} UpShift(par: map<Name, Name>, x: Name, k: nat)
    ensures Up(par, x, k + 1) == Up(par, ParentIn(par, x), k)
  {
    if k > 0 { UpShift(par, x, k - 1); }
  }

  /** Once a climb repeats a node, it never stops. */
  lemma {:induction false} RepeatsForever(par: map<Name, Name>, x: Name, root: Name, i: nat, j: nat, k: nat)
    requires Revisits(par, x, root, i, j)
    ensures !Stop(Up(par, x, k), root)
    ensures k >= j ==> Up(par, x, k) == Up(par, x, k - (j - i))
    decreases k
  {
    if k == j {
    } else if k > j {
      RepeatsForever(par, x, root, i, j, k - 1);
      RepeatsForever(par, x, root, i, j, k - (j - i));
    }
  }

  /** A climb that ends at its first stop has met no node twice. */
  lemma EndsMeansFresh(par: map<Name, Name>, x: Name, root: Name, k: nat)
    requires EndsAt(par, x, root, k)
    ensures !Cyclic(par, x, root)
    ensures Distinct(Trail(par, x, k))
  {
    forall i: nat, j: nat ensures !Revisits(par, x, root, i, j) {
      if Revisits(par, x, root, i, j) { RepeatsForever(par, x, root, i, j, k); }
    }
    var t := Trail(par, x, k);
    forall i, j | 0 <= i < j < k ensures t[i] != t[j] {
      assert !Revisits(par, x, root, i, j);
    }
  }

  /** Every climb either ends or is a genuine cycle: the parent map is finite. */
  lemma EndsOrCyclic(par: map<Name, Name>, x: Name, root: Name)
    ensures Cyclic(par, x, root) <==> !exists k: nat :: EndsAt(par, x, root, k)
  {
    if k: nat :| EndsAt(par, x, root, k) {
      EndsMeansFresh(par, x, root, k);
    } else {
      var m := |par| + 2;
      NeverStops(par, x, root, m);
      var t := Trail(par, x, m);
      if Distinct(t) {
        forall y | y in t[..m - 1] ensures y in par.Keys {
          var i :| 0 <= i < m - 1 && t[i] == y;
          assert !Stop(t[i + 1], root) && t[i + 1] == ParentIn(par, y);
        }
        Pigeonhole(t[..m - 1], par.Keys);
        assert false;
      }
      var i, j :| 0 <= i < j < m && t[i] == t[j];
      assert Revisits(par, x, root, i, j);
    }
  }

  lemma {:induction false} NeverStops(par: map<Name, Name>, x: Name, root: Name, m: nat)
    requires !exists k: nat :: EndsAt(par, x, root, k)
    ensures forall j: nat :: j <= m ==> !Stop(Up(par, x, j), root)
  {
    if m > 0 { NeverStops(par, x, root, m - 1); }
    assert !EndsAt(par, x, root, m);
  }

  /**
   * The walk of one emitting node. It reports a cycle when it meets a node again, or when it
   * has taken more than `bound` steps, even if the last of them reached a stop.
   */
  method WalkReports(x: Name, par: map<Name, Name>, root: Name, bound: nat) returns (cycle: bool)
    ensures cycle <==> !EndsWithin(par, x, root, bound)
  {
    var cur, steps := x, 0;
    var seen: set<Name> := {};
    while Known(cur) && cur != root
      invariant cur == Up(par, x, steps) && steps <= bound
      invariant forall j: nat :: j < steps ==> !Stop(Up(par, x, j), root)
      invariant forall y :: y in seen <==> exists j: nat :: j < steps && y == Up(par, x, j)
      decreases bound - steps
    {
      if cur in seen {
        ghost var i: nat :| i < steps && cur == Up(par, x, i);
        assert Revisits(par, x, root, i, steps);
        EndsOrCyclic(par, x, root);
        return true;
      }
      seen := seen + {cur};
      cur := ParentIn(par, cur);
      steps := steps + 1;
      if steps > bound { return true; }
    }
    assert EndsAt(par, x, root, steps);
    return false;
  }

  // ---- buildTree -----------------------------------------------------------

  ghost predicate RoleConflict(roles: set<Role>) {
    exists e :: e in roles && Role(e.key, !e.child) in roles
  }

  ghost predicate ParentConflict(claims: set<Claim>) {
    exists x :: x in Claimed(claims) && |ParentsOf(claims, x)| > 1
  }

  ghost predicate AnyTruncated(rows: seq<Row>) {
    exists r :: r in rows && Truncated(r)
  }

  ghost predicate CycleReported(rows: seq<Row>) {
    exists x :: x in Gather(RowNodes, rows)
             && !EndsWithin(ParentMap(Claims(rows)), x, RootOf(rows), |Gather(RowNodes, rows)| + 2)
  }

  ghost predicate MembersMismatch(rows: seq<Row>, members: seq<Option<int>>) {
    var projected := RootProjection(rows, RootOf(rows));
    projected.Some? && exists m :: m in members && m.Some? && m.value != projected.value
  }

  /** The first rule a publish breaks, in the order the analyzer applies them. */
  ghost function VoidOf(rows: seq<Row>, members: seq<Option<int>>): Option<VoidReason> {
    if AnyTruncated(rows) then Some(TelemetryTruncated)
    else if RoleConflict(Gather(RowRoles, rows)) then Some(ConflictingEdgeRole)
    else if ParentConflict(Claims(rows)) then Some(ConflictingParent)
    else if Gather(RowRoots, rows) == {} then Some(NoRootObserved)
    else if |Gather(RowTopics, rows)| > 1 then Some(ConflictingTopic)
    else if Known(RootOf(rows)) && CycleReported(rows) then Some(TreeCycle)
    else if Known(RootOf(rows)) && MembersMismatch(rows, members) then Some(RootMembersMismatch)
    else None
  }

  ghost function DivergenceOf(rows: seq<Row>): Option<nat> {
    var declared := Gather(RowRoots, rows);
    if |declared| > 1 then Some(|declared|) else None
  }

  ghost function TreeOf(rows: seq<Row>, members: seq<Option<int>>): Tree {
    Tree(Gather(RowBelief, rows), ParentMap(Claims(rows)), Gather(RowNodes, rows), RootOf(rows), DivergenceOf(rows),
         VoidOf(rows, members))
  }

  function OrElse(first: Option<VoidReason>, reason: VoidReason): Option<VoidReason> {
    if first.Some? then first else Some(reason)
  }

  method ReadRecips(row: Row, belief0: set<Name>, claims0: set<Claim>, roles0: set<Role>)
    returns (belief: set<Name>, claims: set<Claim>, roles: set<Role>)
    ensures belief == belief0 + RowBelief(row)
    ensures claims == claims0 + RowClaims(row)
    ensures roles == roles0 + RowRoles(row)
  {
    var node, recips := Pfx(row.node), RecipsOf(row);
    belief, claims, roles := belief0, claims0, roles0;
    if Known(row.parent) { claims := claims + {Claim(node, Pfx(row.parent))}; }
    if row.localDelivery { belief := belief + {node}; }
    ghost var belief1, claims1 := belief, claims;
    for i := 0 to |recips|
      invariant belief == belief1 + LeafSubs(recips[..i])
      invariant claims == claims1 + FanClaims(node, recips[..i])
      invariant roles == roles0 + FanRoles(node, recips[..i])
    {
      var rc := recips[i];
      var sub := Pfx(rc.sub);
      assert recips[..i + 1][..i] == recips[..i];
      claims := claims + {Claim(sub, node)};
      roles := roles + {Role(EdgeKey(node, sub), rc.child)};
      if !rc.child { belief := belief + {sub}; }
    }
    assert recips[..|recips|] == recips;
  }

  method SoleParent(claims: set<Claim>, x: Name) returns (parent: Name, many: bool)
    ensures parent == Sole(ParentsOf(claims, x))
    ensures many <==> |ParentsOf(claims, x)| > 1
  {
    var parents := set c | c in claims && c.child == x && Known(c.parent) :: c.parent;
    many := |parents| > 1;
    parent := None;
    if |parents| == 1 {
      parent :| parent in parents;
      SoleIs(parents, parent);
    }
  }

  method BuildParents(claims: set<Claim>) returns (parentOf: map<Name, Name>, conflict: bool)
    ensures parentOf == ParentMap(claims)
    ensures conflict <==> ParentConflict(claims)
  {
    hide Sole, ParentsOf;
    parentOf, conflict := map[], false;
    var todo := set c | c in claims :: c.child;
    while todo != {}
      invariant parentOf.Keys + todo == Claimed(claims) && parentOf.Keys !! todo
      invariant forall x :: x in parentOf ==> parentOf[x] == Sole(ParentsOf(claims, x))
      invariant conflict <==> exists x :: x in parentOf && |ParentsOf(claims, x)| > 1
      decreases todo
    {
      var x :| x in todo;
      var parent, many := SoleParent(claims, x);
      ghost var before := parentOf;
      parentOf := parentOf[x := parent];
      assert parentOf.Keys == before.Keys + {x};
      if many { conflict := true; }
      todo := todo - {x};
    }
    assert parentOf.Keys == Claimed(claims) == ParentMap(claims).Keys;
  }

  /** The sets collected by the pass over the rows. */
  datatype Ledger = Ledger(
    belief: set<Name>,
    nodes: set<Name>,
    declared: set<Name>,
    topics: set<Name>,
    claims: set<Claim>,
    roles: set<Role>)

  ghost predicate IsLedgerOf(l: Ledger, rows: seq<Row>) {
    && l.belief == Gather(RowBelief, rows) && l.nodes == Gather(RowNodes, rows)
    && l.declared == Gather(RowRoots, rows) && l.topics == Gather(RowTopics, rows)
    && l.claims == Claims(rows) && l.roles == Gather(RowRoles, rows)
  }

  lemma LedgerStep(before: Ledger, after: Ledger, rows: seq<Row>, i: nat)
    requires i < |rows| && IsLedgerOf(before, rows[..i])
    requires after.belief == before.belief + RowBelief(rows[i])
    requires after.nodes == before.nodes + RowNodes(rows[i])
    requires after.declared == before.declared + RowRoots(rows[i])
    requires after.topics == before.topics + RowTopics(rows[i])
    requires after.claims == before.claims + RowClaims(rows[i])
    requires after.roles == before.roles + RowRoles(rows[i])
    ensures IsLedgerOf(after, rows[..i + 1])
  {
    GatherStep(RowBelief, rows, i);
    GatherStep(RowNodes, rows, i);
    GatherStep(RowRoots, rows, i);
    GatherStep(RowTopics, rows, i);
    GatherStep(RowClaims, rows, i);
    GatherStep(RowRoles, rows, i);
  }

  method ReadRows(rows: seq<Row>) returns (l: Ledger, reason: Option<VoidReason>)
    ensures IsLedgerOf(l, rows)
    ensures reason == if AnyTruncated(rows) then Some(TelemetryTruncated) else None
  {
    l := Ledger({}, {}, {}, {}, {}, {});
    reason := None;
    for i := 0 to |rows|
      invariant IsLedgerOf(l, rows[..i])
      invariant reason == if AnyTruncated(rows[..i]) then Some(TelemetryTruncated) else None
    {
      var row := rows[i];
      assert rows[..i + 1] == rows[..i] + [row];
      ghost var before := l;
      if Truncated(row) { reason := OrElse(reason, TelemetryTruncated); }
      var belief, claims, roles := ReadRecips(row, l.belief, l.claims, l.roles);
      l := Ledger(belief,
                  l.nodes + {Pfx(row.node)},
                  if row.isRoot then l.declared + {Pfx(row.node)} else l.declared,
                  if row.topicId.Some? then l.topics + {row.topicId} else l.topics,
                  claims, roles);
      LedgerStep(before, l, rows, i);
    }
    assert rows[..|rows|] == rows;
  }

  /** The one declared root, or none; more than one is a divergence, not a void. */
  method ChooseRoot(declared: set<Name>) returns (root: Name, divergence: Option<nat>)
    ensures root == Sole(declared)
    ensures divergence == if |declared| > 1 then Some(|declared|) else None
  {
    root, divergence := None, None;
    if |declared| > 1 { divergence := Some(|declared|); }
    if |declared| == 1 { var r :| r in declared; SoleIs(declared, r); root := r; }
  }

  /** The checks that need a single known root. */
  method CheckUnderRoot(rows: seq<Row>, members: seq<Option<int>>, nodes: set<Name>, par: map<Name, Name>, root: Name,
                        before: Option<VoidReason>)
    returns (reason: Option<VoidReason>)
    requires nodes == Gather(RowNodes, rows) && par == ParentMap(Claims(rows)) && root == RootOf(rows)
    ensures reason == if before.Some? then before
                      else if Known(root) && CycleReported(rows) then Some(TreeCycle)
                      else if Known(root) && MembersMismatch(rows, members) then Some(RootMembersMismatch)
                      else None
  {
    reason := before;
    if Known(root) {
      var cycle := AnyWalkReports(nodes, par, root, |nodes| + 2);
      if cycle { reason := OrElse(reason, TreeCycle); }
      var mismatch := MembersDisagree(rows, members, root);
      if mismatch { reason := OrElse(reason, RootMembersMismatch); }
    }
  }

  method BuildTree(rows: seq<Row>, members: seq<Option<int>>) returns (t: Tree)
    ensures t == TreeOf(rows, members)
    ensures forall x :: x in t.belief
              <==> exists r :: r in rows
                               && ((r.localDelivery && Pfx(r.node) == x)
                                   || (r.recips.Some? && exists rc :: rc in r.recips.value && !rc.child && Pfx(rc.sub) == x))
    ensures t.voidReason.None? && Known(t.root) ==> Climbable(t)
  {
    hide Gather, ParentMap, Sole, CycleReported, MembersMismatch, AnyTruncated, Climbable;
    var l, reason := ReadRows(rows);
    if exists e :: e in l.roles && Role(e.key, !e.child) in l.roles { reason := OrElse(reason, ConflictingEdgeRole); }
    var parentOf, conflict := BuildParents(l.claims);
    if conflict { reason := OrElse(reason, ConflictingParent); }
    var root, divergence := ChooseRoot(l.declared);
    if |l.declared| == 0 { reason := OrElse(reason, NoRootObserved); }
    if |l.topics| > 1 { reason := OrElse(reason, ConflictingTopic); }
    reason := CheckUnderRoot(rows, members, l.nodes, parentOf, root, reason);
    t := Tree(l.belief, parentOf, l.nodes, root, divergence, reason);
    if reason.None? && Known(root) { ScoredTreeIsClimbable(t, rows, members); }
    forall x { BelievedReaders(rows, members, x); }
  }

  method AnyWalkReports(nodes: set<Name>, par: map<Name, Name>, root: Name, bound: nat) returns (cycle: bool)
    ensures cycle <==> exists x :: x in nodes && !EndsWithin(par, x, root, bound)
  {
    var todo := nodes;
    cycle := false;
    while todo != {}
      invariant todo <= nodes
      invariant cycle <==> exists x :: x in nodes && x !in todo && !EndsWithin(par, x, root, bound)
      decreases todo
    {
      var x :| x in todo;
      var reported := WalkReports(x, par, root, bound);
      if reported { cycle := true; }
      todo := todo - {x};
    }
  }

  method MembersDisagree(rows: seq<Row>, members: seq<Option<int>>, root: Name) returns (mismatch: bool)
    requires root == RootOf(rows)
    ensures mismatch <==> MembersMismatch(rows, members)
  {
    var i := 0;
    while i < |rows| && Pfx(rows[i].node) != root
      invariant i <= |rows|
      invariant RootProjection(rows, root) == RootProjection(rows[i..], root)
    {
      i := i + 1;
    }
    var projected: Option<nat> := if i < |rows| && rows[i].recips.Some? then Some(|rows[i].recips.value|) else None;
    mismatch := projected.Some? && exists m :: m in members && m.Some? && m.value != projected.value;
  }

  // ---- who is owed a delivery -----------------------------------------------

  lemma {:induction false} LeafMember(recips: seq<Recip>, x: Name)
    ensures x in LeafSubs(recips) <==> exists rc :: rc in recips && !rc.child && Pfx(rc.sub) == x
  {
    if recips != [] {
      var init, last := recips[..|recips| - 1], recips[|recips| - 1];
      LeafMember(init, x);
      assert recips == init + [last];
    }
  }

  /** The readers owed a delivery: those that say they deliver locally, and every recipient on a leaf edge. */
  lemma BelievedReaders(rows: seq<Row>, members: seq<Option<int>>, x: Name)
    ensures x in TreeOf(rows, members).belief
            <==> exists r :: r in rows
                             && ((r.localDelivery && Pfx(r.node) == x)
                                 || (r.recips.Some? && exists rc :: rc in r.recips.value && !rc.child && Pfx(rc.sub) == x))
  {
    GatherMember(RowBelief, rows, x);
    forall r ensures x in RowBelief(r)
                     <==> (r.localDelivery && Pfx(r.node) == x)
                          || (r.recips.Some? && exists rc :: rc in r.recips.value && !rc.child && Pfx(rc.sub) == x)
    {
      LeafMember(RecipsOf(r), x);
    }
  }

  // ---- what an accepted tree guarantees --------------------------------------

  /** Exactly when a walk is reported: a genuine cycle, or an acyclic climb longer than the bound. */
  lemma ReportMeans(par: map<Name, Name>, x: Name, root: Name, bound: nat)
    ensures !EndsWithin(par, x, root, bound)
            <==> Cyclic(par, x, root) || exists k: nat :: k > bound && EndsAt(par, x, root, k)
  {
    EndsOrCyclic(par, x, root);
    forall j: nat, k: nat | EndsAt(par, x, root, j) && EndsAt(par, x, root, k) ensures j == k {
      assert !(j < k) && !(k < j);
    }
  }

  /** With no conflicting claims, the recorded parent of `x` is the known parent claimed for it. */
  lemma RecordedParent(rows: seq<Row>, x: Name, p: Name)
    requires !ParentConflict(Claims(rows)) && Known(p)
    ensures ParentIn(ParentMap(Claims(rows)), x) == p <==> Claim(x, p) in Claims(rows)
  {
    var claims := Claims(rows);
    var parents := ParentsOf(claims, x);
    if Claim(x, p) in claims {
      assert p in parents;
      assert |parents| <= 1 by { assert Claim(x, p).child == x; }
      assert |parents - {p}| < |parents|;
      SoleIs(parents, p);
    }
  }

  /** Of a node and its recorded parent, one emitted a row. */
  lemma ParentOrChildEmitted(rows: seq<Row>, x: Name)
    requires Known(ParentIn(ParentMap(Claims(rows)), x))
    ensures x in Gather(RowNodes, rows) || ParentIn(ParentMap(Claims(rows)), x) in Gather(RowNodes, rows)
  {
    var claims := Claims(rows);
    var p := ParentIn(ParentMap(claims), x);
    assert Sole(ParentsOf(claims, x)) in ParentsOf(claims, x);
    GatherMember(RowClaims, rows, Claim(x, p));
    var r :| r in rows && Claim(x, p) in RowClaims(r);
    FanClaimMember(Pfx(r.node), RecipsOf(r), Claim(x, p));
    GatherMember(RowNodes, rows, Pfx(r.node));
    assert Pfx(r.node) in RowNodes(r);
  }

  /** What it takes to score a message: none of the rules is broken. */
  lemma NotVoidMeans(rows: seq<Row>, members: seq<Option<int>>)
    ensures VoidOf(rows, members).None? <==>
              && !AnyTruncated(rows) && !RoleConflict(Gather(RowRoles, rows)) && !ParentConflict(Claims(rows))
              && Gather(RowRoots, rows) != {} && |Gather(RowTopics, rows)| <= 1
              && (Known(RootOf(rows)) ==> !CycleReported(rows) && !MembersMismatch(rows, members))
  {
    hide MembersMismatch, RoleConflict, ParentConflict, AnyTruncated, CycleReported, Gather, Claims, RootOf;
  }

  /** What scoring relies on: emitters climb to an end, and every recorded edge touches an emitter. */
  ghost predicate Climbable(t: Tree) {
    && (forall x :: x in t.nodes ==> EndsWithin(t.parentOf, x, t.root, |t.nodes| + 2))
    && (forall x :: Known(ParentIn(t.parentOf, x)) ==> x in t.nodes || ParentIn(t.parentOf, x) in t.nodes)
  }

  lemma ScoredTreeIsClimbable(t: Tree, rows: seq<Row>, members: seq<Option<int>>)
    requires t == TreeOf(rows, members) && t.voidReason.None? && Known(t.root)
    ensures Climbable(t)
  {
    hide VoidOf, ParentMap, Gather, RootOf, EndsWithin;
    NotVoidMeans(rows, members);
    forall x | Known(ParentIn(t.parentOf, x)) ensures x in t.nodes || ParentIn(t.parentOf, x) in t.nodes {
      ParentOrChildEmitted(rows, x);
    }
  }

  /** In a climbable tree every climb is acyclic and ends soon after the emitters run out. */
  lemma ClimbEnds(t: Tree, x: Name)
    requires Climbable(t)
    ensures !Cyclic(t.parentOf, x, t.root)
    ensures EndsWithin(t.parentOf, x, t.root, |t.nodes| + 3)
  {
    ClimbEndsFromParent(t.parentOf, x, t.root, |t.nodes| + 2);
  }

  lemma ClimbEndsFromParent(par: map<Name, Name>, x: Name, root: Name, bound: nat)
    requires EndsWithin(par, x, root, bound) || !Known(ParentIn(par, x)) || EndsWithin(par, ParentIn(par, x), root, bound)
    ensures !Cyclic(par, x, root) && EndsWithin(par, x, root, bound + 1)
  {
    var p := ParentIn(par, x);
    if Stop(x, root) {
      assert EndsAt(par, x, root, 0);
    } else if !EndsWithin(par, x, root, bound) {
      if !Known(p) { assert EndsAt(par, p, root, 0); }
      var k: nat :| k <= bound && EndsAt(par, p, root, k);
      EndsOneLater(par, x, root, k);
    }
    EndsOrCyclic(par, x, root);
  }

  lemma EndsOneLater(par: map<Name, Name>, x: Name, root: Name, k: nat)
    requires !Stop(x, root) && EndsAt(par, ParentIn(par, x), root, k)
    ensures EndsAt(par, x, root, k + 1)
  {
    UpShift(par, x, k);
    forall j: nat | j < k + 1 ensures !Stop(Up(par, x, j), root) {
      if j > 0 { UpShift(par, x, j - 1); }
    }
  }

  // ---- chains that climb through nodes that emitted nothing ------------------

  /** Names of a chain from the root up: even places emit rows, odd places are silent. */
  ghost predicate ChainNames(line: seq<Name>) {
    |line| % 2 == 1 && Distinct(line)
    && forall i :: 0 <= i < |line| ==> Known(line[i]) && Pfx(line[i]) == line[i]
  }

  /** The row of the i-th emitter: it names the silent node below it as its child. */
  ghost function ChainRow(line: seq<Name>, i: nat): Row
    requires 2 * i < |line|
  {
    var recips := if 2 * i + 1 < |line| then [Recip(line[2 * i + 1], true)] else [];
    Row(line[2 * i], Some("T"), Some(|recips|), i == 0, if i == 0 then None else line[2 * i - 1], false, Some(recips))
  }

  ghost function ChainRows(line: seq<Name>): (rows: seq<Row>)
    requires |line| % 2 == 1
    ensures |rows| == |line| / 2 + 1
    ensures forall i :: 0 <= i < |rows| ==> rows[i] == ChainRow(line, i)
  {
    seq(|line| / 2 + 1, i requires 0 <= i <= |line| / 2 => ChainRow(line, i))
  }

  lemma ChainRowClaims(line: seq<Name>, i: nat, c: Claim)
    requires ChainNames(line) && 2 * i < |line|
    ensures c in RowClaims(ChainRow(line, i))
            <==> (i > 0 && c == Claim(line[2 * i], line[2 * i - 1]))
                 || (2 * i + 1 < |line| && c == Claim(line[2 * i + 1], line[2 * i]))
  {
    var r := ChainRow(line, i);
    FanClaimMember(line[2 * i], RecipsOf(r), c);
    if 2 * i + 1 < |line| { assert RecipsOf(r)[0] == Recip(line[2 * i + 1], true); }
  }

  lemma ChainClaims(line: seq<Name>, x: Name, p: Name)
    requires ChainNames(line)
    ensures Claim(x, p) in Claims(ChainRows(line)) <==> exists j :: 1 <= j < |line| && x == line[j] && p == line[j - 1]
  {
    var rows := ChainRows(line);
    GatherMember(RowClaims, rows, Claim(x, p));
    if Claim(x, p) in Claims(rows) {
      var r :| r in rows && Claim(x, p) in RowClaims(r);
      var i: nat :| i < |rows| && rows[i] == r;
      ChainRowClaims(line, i, Claim(x, p));
    }
    if j :| 1 <= j < |line| && x == line[j] && p == line[j - 1] {
      var i := j / 2;
      ChainRowClaims(line, i, Claim(x, p));
      assert rows[i] in rows;
    }
  }

  lemma ChainParents(line: seq<Name>, x: Name)
    requires ChainNames(line)
    ensures !ParentConflict(Claims(ChainRows(line)))
    ensures forall j :: 1 <= j < |line| ==> ParentIn(ParentMap(Claims(ChainRows(line))), line[j]) == line[j - 1]
    ensures x !in line[1..] ==> ParentIn(ParentMap(Claims(ChainRows(line))), x) == None
  {
    var claims := Claims(ChainRows(line));
    forall c | c in claims ensures ParentsOf(claims, c.child) == {c.parent} {
      ChainClaims(line, c.child, c.parent);
      assert c.parent in ParentsOf(claims, c.child);
      forall p | p in ParentsOf(claims, c.child) ensures p == c.parent { ChainClaims(line, c.child, p); }
    }
    forall j | 1 <= j < |line| ensures ParentIn(ParentMap(claims), line[j]) == line[j - 1] {
      ChainClaims(line, line[j], line[j - 1]);
      RecordedParent(ChainRows(line), line[j], line[j - 1]);
    }
    forall c: Claim | c in claims ensures c.child in line[1..] {
      ChainClaims(line, c.child, c.parent);
      var j :| 1 <= j < |line| && c.child == line[j];
      assert line[1..][j - 1] == c.child;
    }
  }

  lemma ChainNodeMember(line: seq<Name>, x: Name)
    requires ChainNames(line)
    ensures x in Gather(RowNodes, ChainRows(line)) <==> exists i :: 0 <= i <= |line| / 2 && x == line[2 * i]
    ensures x in Gather(RowRoots, ChainRows(line)) <==> x == line[0]
  {
    var rows := ChainRows(line);
    GatherMember(RowNodes, rows, x);
    GatherMember(RowRoots, rows, x);
    if i :| 0 <= i <= |line| / 2 && x == line[2 * i] {
      assert rows[i] in rows && x in RowNodes(rows[i]);
    }
    if r :| r in rows && x in RowNodes(r) {
      var i: nat :| i < |rows| && rows[i] == r;
      assert x == line[2 * i];
    }
    if x == line[0] { assert rows[0] in rows && x in RowRoots(rows[0]); }
  }

  lemma ChainNodes(line: seq<Name>)
    requires ChainNames(line)
    ensures |Gather(RowNodes, ChainRows(line))| == |line| / 2 + 1
    ensures line[|line| - 1] in Gather(RowNodes, ChainRows(line))
  {
    ChainNodeMember(line, line[|line| - 1]);
    assert line[|line| - 1] == line[2 * (|line| / 2)];
    var emitters := Evens(line, |line| / 2 + 1);
    forall x ensures x in Gather(RowNodes, ChainRows(line)) <==> x in Elements(emitters) {
      ChainNodeMember(line, x);
      EvensMember(line, |line| / 2 + 1, x);
    }
    DistinctCardinality(emitters);
    assert Gather(RowNodes, ChainRows(line)) == Elements(emitters);
  }

  ghost function Evens(line: seq<Name>, n: nat): (e: seq<Name>)
    requires Distinct(line) && 2 * n <= |line| + 1
    ensures |e| == n && Distinct(e)
    ensures forall i :: 0 <= i < n ==> e[i] == line[2 * i]
  {
    if n == 0 then [] else Evens(line, n - 1) + [line[2 * (n - 1)]]
  }

  lemma EvensMember(line: seq<Name>, n: nat, x: Name)
    requires Distinct(line) && 2 * n <= |line| + 1
    ensures x in Elements(Evens(line, n)) <==> exists i :: 0 <= i < n && x == line[2 * i]
  {
    var e := Evens(line, n);
    if i :| 0 <= i < n && x == line[2 * i] { assert e[i] in e; }
  }

  lemma ChainRoot(line: seq<Name>)
    requires ChainNames(line)
    ensures RootOf(ChainRows(line)) == line[0] && Gather(RowRoots, ChainRows(line)) == {line[0]}
  {
    forall x ensures x in Gather(RowRoots, ChainRows(line)) <==> x == line[0] { ChainNodeMember(line, x); }
    assert Gather(RowRoots, ChainRows(line)) == {line[0]};
    SoleIs({line[0]}, line[0]);
  }

  lemma {:induction false} ChainEnds(line: seq<Name>, i: nat)
    requires ChainNames(line) && i < |line|
    ensures EndsAt(ParentMap(Claims(ChainRows(line))), line[i], line[0], i)
  {
    if i > 0 {
      ChainEnds(line, i - 1);
      ChainParents(line, None);
      EndsOneLater(ParentMap(Claims(ChainRows(line))), line[i], line[0], i - 1);
    }
  }

  lemma ChainNeverCycles(line: seq<Name>, x: Name)
    requires ChainNames(line)
    ensures !Cyclic(ParentMap(Claims(ChainRows(line))), x, line[0])
  {
    var par := ParentMap(Claims(ChainRows(line)));
    if i :| 0 <= i < |line| && line[i] == x {
      ChainEnds(line, i);
    } else if Stop(x, line[0]) {
      assert EndsAt(par, x, line[0], 0);
    } else {
      ChainParents(line, x);
      assert EndsAt(par, None, line[0], 0);
      EndsOneLater(par, x, line[0], 0);
    }
    EndsOrCyclic(par, x, line[0]);
  }

  lemma ChainPassesEarlierChecks(line: seq<Name>)
    requires ChainNames(line)
    ensures !AnyTruncated(ChainRows(line)) && !RoleConflict(Gather(RowRoles, ChainRows(line)))
    ensures |Gather(RowTopics, ChainRows(line))| <= 1
  {
    var rows := ChainRows(line);
    forall e | e in Gather(RowRoles, rows) ensures e.child {
      GatherMember(RowRoles, rows, e);
      var r :| r in rows && e in RowRoles(r);
      ForwardOnly(Pfx(r.node), RecipsOf(r));
    }
    forall x | x in Gather(RowTopics, rows) ensures x == Some("T") {
      GatherMember(RowTopics, rows, x);
    }
    SubsetCardinality(Gather(RowTopics, rows), {Some("T")});
  }

  /**
   * The step bound counts emitters only. A chain whose emitters are joined through `m` silent
   * nodes never cycles, and is voided as a cycle exactly when m is at least four.
   */
  lemma SilentChainVerdict(line: seq<Name>)
    requires ChainNames(line)
    ensures forall x :: !Cyclic(ParentMap(Claims(ChainRows(line))), x, line[0])
    ensures VoidOf(ChainRows(line), []) == if |line| / 2 >= 4 then Some(TreeCycle) else None
  {
    forall x ensures !Cyclic(ParentMap(Claims(ChainRows(line))), x, line[0]) { ChainNeverCycles(line, x); }
    ChainPassesEarlierChecks(line);
    ChainParents(line, None);
    ChainRoot(line);
    ChainReported(line);
  }

  lemma ChainReported(line: seq<Name>)
    requires ChainNames(line)
    ensures CycleReported(ChainRows(line)) <==> |line| / 2 >= 4
  {
    var rows, top := ChainRows(line), line[|line| - 1];
    var par := ParentMap(Claims(rows));
    ChainNodes(line);
    ChainRoot(line);
    ChainEnds(line, |line| - 1);
    ReportMeans(par, top, line[0], |line| / 2 + 3);
    ChainNeverCycles(line, top);
    if |line| / 2 < 4 {
      forall x | x in Gather(RowNodes, rows) ensures EndsWithin(par, x, line[0], |line| / 2 + 3) {
        GatherMember(RowNodes, rows, x);
        var r :| r in rows && x in RowNodes(r);
        var i: nat :| i < |rows| && rows[i] == r;
        ChainEnds(line, 2 * i);
      }
    }
  }

  // ---- pathEdges ----------------------------------------------------------------

  /** The edges of a climb of `k` steps, listed from the top down. */
  ghost function Edges(par: map<Name, Name>, x: Name, k: nat): (e: seq<Edge>)
    ensures |e| == k
    ensures forall i :: 0 <= i < k ==> e[i] == Edge(Up(par, x, k - i), Up(par, x, k - i - 1))
  {
    if k == 0 then [] else [Edge(Up(par, x, k), Up(par, x, k - 1))] + Edges(par, x, k - 1)
  }

  ghost predicate ReachesRoot(par: map<Name, Name>, x: Name, root: Name, k: nat) {
    EndsAt(par, x, root, k) && Up(par, x, k) == root
  }

  lemma EndsOnce(par: map<Name, Name>, x: Name, root: Name, j: nat, k: nat)
    requires EndsAt(par, x, root, j) && EndsAt(par, x, root, k)
    ensures j == k
  {
    assert !(j < k) && !(k < j);
  }

  /** The recorded path from the root to `x`, when the climb reaches the root within the step limit. */
  ghost function PathOf(par: map<Name, Name>, x: Name, root: Name): Option<seq<Edge>> {
    if exists k: nat :: k <= PATH_STEP_LIMIT && ReachesRoot(par, x, root, k) then
      (var k: nat :| k <= PATH_STEP_LIMIT && ReachesRoot(par, x, root, k); Some(Edges(par, x, k)))
    else None
  }

  lemma PathIs(par: map<Name, Name>, x: Name, root: Name, k: nat)
    requires k <= PATH_STEP_LIMIT && ReachesRoot(par, x, root, k)
    ensures PathOf(par, x, root) == Some(Edges(par, x, k))
  {
    var j: nat :| j <= PATH_STEP_LIMIT && ReachesRoot(par, x, root, j)
                  && PathOf(par, x, root) == Some(Edges(par, x, j));
    EndsOnce(par, x, root, j, k);
  }

  lemma NoPath(par: map<Name, Name>, x: Name, root: Name, k: nat)
    requires EndsAt(par, x, root, k) && (Up(par, x, k) != root || k > PATH_STEP_LIMIT)
    ensures PathOf(par, x, root) == None
  {
    forall j: nat | j <= PATH_STEP_LIMIT ensures !ReachesRoot(par, x, root, j) {
      if EndsAt(par, x, root, j) { EndsOnce(par, x, root, j, k); }
    }
  }

  lemma NoPathOnCycle(par: map<Name, Name>, x: Name, root: Name)
    requires Cyclic(par, x, root)
    ensures PathOf(par, x, root) == None
  {
    EndsOrCyclic(par, x, root);
  }

  method PathEdges(sub: Name, par: map<Name, Name>, root: Name) returns (path: Option<seq<Edge>>)
    requires Known(root)
    ensures path == PathOf(par, sub, root)
  {
    if sub == root {
      PathIs(par, sub, root, 0);
      return Some([]);
    }
    var up: seq<Edge> := [];
    var cur, steps := sub, 0;
    var seen: set<Name> := {};
    while Known(cur) && cur != root
      invariant cur == Up(par, sub, steps) && steps <= PATH_STEP_LIMIT
      invariant forall j: nat :: j < steps ==> !Stop(Up(par, sub, j), root)
      invariant forall y :: y in seen <==> exists j: nat :: j < steps && y == Up(par, sub, j)
      invariant up == Edges(par, sub, steps)
      decreases PATH_STEP_LIMIT - steps
    {
      if cur in seen {
        ghost var i: nat :| i < steps && cur == Up(par, sub, i);
        assert Revisits(par, sub, root, i, steps);
        NoPathOnCycle(par, sub, root);
        return None;
      }
      seen := seen + {cur};
      var p := ParentIn(par, cur);
      assert p == Up(par, sub, steps + 1);
      if !Known(p) {
        assert EndsAt(par, sub, root, steps + 1);
        NoPath(par, sub, root, steps + 1);
        return None;
      }
      up := [Edge(p, cur)] + up;   // kept in root-first order, where the source reverses at the end
      cur := p;
      steps := steps + 1;
      if steps > PATH_STEP_LIMIT {
        LateClimb(par, sub, root, steps);
        return None;
      }
    }
    assert EndsAt(par, sub, root, steps);
    if cur != root {
      NoPath(par, sub, root, steps);
      return None;
    }
    PathIs(par, sub, root, steps);
    return Some(up);
  }

  lemma LateClimb(par: map<Name, Name>, x: Name, root: Name, steps: nat)
    requires steps == PATH_STEP_LIMIT + 1
    requires forall j: nat :: j < steps ==> !Stop(Up(par, x, j), root)
    ensures PathOf(par, x, root) == None
  {
  }

  /** A chain of recorded parent edges from `root` down to `x`, with no node met twice. */
  ghost predicate IsRootPath(path: seq<Edge>, par: map<Name, Name>, root: Name, x: Name) {
    && path != [] && path[0].from == root && path[|path| - 1].to == x
    && (forall i, j :: 0 <= i < |path| && j == i + 1 && j < |path| ==> path[i].to == path[j].from)
    && (forall i :: 0 <= i < |path| ==> Known(path[i].to) && path[i].to != root && ParentIn(par, path[i].to) == path[i].from)
    && (forall i, j :: 0 <= i < j < |path| ==> path[i].to != path[j].to)
  }

  /** A path that is found is a repeat-free chain of recorded edges from the root to the reader. */
  lemma PathShape(par: map<Name, Name>, x: Name, root: Name)
    requires PathOf(par, x, root).Some? && x != root
    ensures IsRootPath(PathOf(par, x, root).value, par, root, x)
  {
    var k: nat :| k <= PATH_STEP_LIMIT && ReachesRoot(par, x, root, k);
    PathIs(par, x, root, k);
    EndsMeansFresh(par, x, root, k);
    var e, t := Edges(par, x, k), Trail(par, x, k);
    forall i | 0 <= i < k ensures e[i].to == t[k - i - 1] && Known(e[i].to) && e[i].to != root {
      assert !Stop(Up(par, x, k - i - 1), root);
    }
  }

  /**
   * In a climbable tree with at most 4093 emitters, a reader is left without a path exactly when
   * its climb runs out of recorded parents: never because of a cycle or of the step limit.
   */
  lemma ReaderPath(t: Tree, x: Name)
    requires Climbable(t) && Known(t.root) && |t.nodes| <= PATH_STEP_LIMIT - 3
    ensures PathOf(t.parentOf, x, t.root).None?
            <==> exists k: nat :: EndsAt(t.parentOf, x, t.root, k) && !Known(Up(t.parentOf, x, k))
  {
    var par, root := t.parentOf, t.root;
    ClimbEnds(t, x);
    var k: nat :| k <= |t.nodes| + 3 && EndsAt(par, x, root, k);
    if Up(par, x, k) == root {
      PathIs(par, x, root, k);
      forall j: nat | EndsAt(par, x, root, j) ensures Known(Up(par, x, j)) { EndsOnce(par, x, root, j, k); }
    } else {
      NoPath(par, x, root, k);
    }
  }
}
