/**
 * Filing every required reader of every message in exactly one loss bucket
 * (harness/reconcile-delivery.mjs, `reconcile`).
 */
module Reconcile {
  import opened Prelude
  import DT = DeliveryTree
  import AC = Activity

  type Name = DT.Name
  type Peer = AC.Peer

  /** Receipts of one message: app deliveries, node arrivals, and the nodes that took it in as root. */
  datatype Evidence = Evidence(app: set<Name>, received: set<Name>, originRoots: set<Name>)

  // ---- the partition, as the set expressions of its definition -------------------

  /** The readers of one publish and what decides their bucket. */
  datatype Census = Census(required: set<Peer>, states: map<Peer, AC.PeerState>, tree: DT.Tree, evidence: Evidence)

  ghost predicate Complete(c: Census) {
    forall p :: p in c.required ==> p in c.states
  }

  function NodeOf(c: Census, p: Peer): Name {
    if p in c.states then c.states[p].node else None
  }

  ghost function InApp(c: Census): set<Peer> {
    set p | p in c.required && DT.Known(NodeOf(c, p)) && NodeOf(c, p) in c.evidence.app
  }

  ghost function Active(c: Census): set<Peer>
    requires Complete(c)
  {
    set p | p in c.required && c.states[p].active && DT.Known(NodeOf(c, p))
  }

  ghost function Believed(c: Census): set<Peer> {
    set p | p in c.required && NodeOf(c, p) in c.tree.belief
  }

  ghost function Reached(c: Census): set<Peer> {
    set p | p in c.required && NodeOf(c, p) in c.evidence.received
  }

  ghost function E(c: Census): set<Peer> {
    c.required * InApp(c)
  }

  ghost function Missed(c: Census): set<Peer> {
    c.required - E(c)
  }

  ghost function A(c: Census): set<Peer> requires Complete(c) {
    Missed(c) - Active(c)
  }

  ghost function B(c: Census): set<Peer> requires Complete(c) {
    (Missed(c) * Active(c)) - Believed(c)
  }

  ghost function C(c: Census): set<Peer> requires Complete(c) {
    (Missed(c) * Active(c) * Believed(c)) - Reached(c)
  }

  ghost function D(c: Census): set<Peer> requires Complete(c) {
    (Missed(c) * Active(c) * Believed(c) * Reached(c)) - InApp(c)
  }

  datatype Counts = Counts(
    required: nat, e: nat, a: nat, b: nat, c: nat, d: nat,
    forwardingLoss: nat, treeDivergence: nat, rootDivergence: nat)

  ghost predicate Closes(n: Counts) {
    n.e + n.a + n.b + n.c + n.d == n.required
    && n.forwardingLoss + n.treeDivergence + n.rootDivergence == n.c
  }

  // ---- why a message never reached a node -----------------------------------------

  datatype Split = ForwardingLoss | TreeDivergence | RootDivergence

  predicate HasMessage(n: Name, tree: DT.Tree, ev: Evidence) {
    n in ev.received || n == tree.root || n in ev.originRoots
  }

  predicate LostEdge(e: DT.Edge, tree: DT.Tree, ev: Evidence) {
    HasMessage(e.from, tree, ev) && !HasMessage(e.to, tree, ev)
  }

  ghost function SplitOf(node: Name, tree: DT.Tree, ev: Evidence): Split {
    if |ev.originRoots| > 1 then RootDivergence
    else if !DT.Known(tree.root) then TreeDivergence
    else
      var path := DT.PathOf(tree.parentOf, node, tree.root);
      if path.Some? && exists e :: e in path.value && LostEdge(e, tree, ev) then ForwardingLoss else TreeDivergence
  }

  method ScanPath(path: seq<DT.Edge>, tree: DT.Tree, ev: Evidence) returns (hit: Option<nat>)
    ensures hit.None? ==> forall i :: 0 <= i < |path| ==> !LostEdge(path[i], tree, ev)
    ensures hit.Some? ==> hit.value < |path| && LostEdge(path[hit.value], tree, ev)
                          && forall i :: 0 <= i < hit.value ==> !LostEdge(path[i], tree, ev)
  {
    for i := 0 to |path|
      invariant forall j :: 0 <= j < i ==> !LostEdge(path[j], tree, ev)
    {
      if LostEdge(path[i], tree, ev) { return Some(i); }
    }
    return None;
  }

  method Attribute(node: Name, tree: DT.Tree, ev: Evidence) returns (split: Split)
    ensures split == SplitOf(node, tree, ev)
  {
    if |ev.originRoots| > 1 { return RootDivergence; }
    if !DT.Known(tree.root) { return TreeDivergence; }
    var path := DT.PathEdges(node, tree.parentOf, tree.root);
    if path.None? { return TreeDivergence; }
    var hit := ScanPath(path.value, tree, ev);
    if hit.Some? { assert path.value[hit.value] in path.value; }
    return if hit.Some? then ForwardingLoss else TreeDivergence;
  }

  /** Everything at or above the i-th edge's upper end holds the message; its lower end does not. */
  ghost predicate FirstLoss(path: seq<DT.Edge>, i: nat, tree: DT.Tree, ev: Evidence) {
    i < |path| && !HasMessage(path[i].to, tree, ev)
    && forall j :: 0 <= j <= i ==> HasMessage(path[j].from, tree, ev)
  }

  lemma {:induction false} LossOnTheWay(path: seq<DT.Edge>, k: nat, tree: DT.Tree, ev: Evidence)
    requires k < |path| && HasMessage(path[0].from, tree, ev)
    requires forall i, j :: 0 <= i < |path| && j == i + 1 && j < |path| ==> path[i].to == path[j].from
    ensures (exists i :: 0 <= i <= k && !HasMessage(path[i].to, tree, ev))
            <==> exists i: nat :: i <= k && FirstLoss(path, i, tree, ev)
    ensures (forall i :: 0 <= i <= k ==> HasMessage(path[i].to, tree, ev))
            ==> forall i :: 0 <= i <= k ==> HasMessage(path[i].from, tree, ev)
  {
    if k == 0 {
      if !HasMessage(path[0].to, tree, ev) { assert FirstLoss(path, 0, tree, ev); }
    } else {
      LossOnTheWay(path, k - 1, tree, ev);
      assert path[k - 1].to == path[k].from;
      if forall i :: 0 <= i < k ==> HasMessage(path[i].to, tree, ev) {
        if !HasMessage(path[k].to, tree, ev) { assert FirstLoss(path, k, tree, ev); }
      }
    }
  }

  /**
   * Given a root path, a loss is attributed to forwarding exactly when some node on the path lacks
   * the message, and then the first lost edge is where the message stopped.
   */
  lemma SplitOnPath(node: Name, tree: DT.Tree, ev: Evidence)
    requires |ev.originRoots| <= 1 && DT.Known(tree.root) && node != tree.root
    requires DT.PathOf(tree.parentOf, node, tree.root).Some?
    ensures var path := DT.PathOf(tree.parentOf, node, tree.root).value;
            && (SplitOf(node, tree, ev) == ForwardingLoss
                <==> exists i :: 0 <= i < |path| && !HasMessage(path[i].to, tree, ev))
            && (SplitOf(node, tree, ev) == ForwardingLoss
                <==> exists i: nat :: i < |path| && FirstLoss(path, i, tree, ev))
  {
    hide DT.PathOf;
    var path := DT.PathOf(tree.parentOf, node, tree.root).value;
    DT.PathShape(tree.parentOf, node, tree.root);
    LossOnTheWay(path, |path| - 1, tree, ev);
    if i: nat :| i < |path| && FirstLoss(path, i, tree, ev) {
      assert LostEdge(path[i], tree, ev) && path[i] in path;
    }
  }

  /**
   * A reader in bucket C with a root path and at most one origin root is always attributed to a
   * lost edge, unless it is the root or itself an origin root.
   */
  lemma NonArrivalFindsLostEdge(node: Name, tree: DT.Tree, ev: Evidence)
    requires node !in ev.received && |ev.originRoots| <= 1 && DT.Known(tree.root)
    requires DT.PathOf(tree.parentOf, node, tree.root).Some?
    ensures SplitOf(node, tree, ev) == TreeDivergence ==> node == tree.root || node in ev.originRoots
  {
    hide DT.PathOf;
    if node != tree.root && node !in ev.originRoots {
      var path := DT.PathOf(tree.parentOf, node, tree.root).value;
      SplitOnPath(node, tree, ev);
      DT.PathShape(tree.parentOf, node, tree.root);
      assert path[|path| - 1].to == node && !HasMessage(node, tree, ev);
    }
  }

  // ---- the buckets of one publish ----------------------------------------------------

  ghost function InSplit(c: Census, split: Split): set<Peer> requires Complete(c) {
    set p | p in C(c) && SplitOf(NodeOf(c, p), c.tree, c.evidence) == split
  }

  ghost function CountsOf(c: Census): Counts requires Complete(c) {
    Counts(|c.required|, |E(c)|, |A(c)|, |B(c)|, |C(c)|, |D(c)|,
           |InSplit(c, ForwardingLoss)|, |InSplit(c, TreeDivergence)|, |InSplit(c, RootDivergence)|)
  }

  /** Counts over the readers already seen. */
  ghost function CountsOver(c: Census, done: set<Peer>): Counts requires Complete(c) {
    Counts(|done|, |E(c) * done|, |A(c) * done|, |B(c) * done|, |C(c) * done|, |D(c) * done|,
           |InSplit(c, ForwardingLoss) * done|, |InSplit(c, TreeDivergence) * done|, |InSplit(c, RootDivergence) * done|)
  }

  lemma OneMore<T>(s: set<T>, done: set<T>, p: T)
    requires p !in done
    ensures |s * (done + {p})| == |s * done| + if p in s then 1 else 0
  {
    if p in s { assert s * (done + {p}) == (s * done) + {p}; }
    else { assert s * (done + {p}) == s * done; }
  }

  lemma OneMoreEverywhere(c: Census, done: set<Peer>, p: Peer)
    requires Complete(c) && p in c.required && p !in done
    ensures var n, m := CountsOver(c, done), CountsOver(c, done + {p});
            && m.required == n.required + 1
            && m.e == n.e + (if p in E(c) then 1 else 0) && m.a == n.a + (if p in A(c) then 1 else 0)
            && m.b == n.b + (if p in B(c) then 1 else 0) && m.c == n.c + (if p in C(c) then 1 else 0)
            && m.d == n.d + (if p in D(c) then 1 else 0)
            && m.forwardingLoss == n.forwardingLoss + (if p in InSplit(c, ForwardingLoss) then 1 else 0)
            && m.treeDivergence == n.treeDivergence + (if p in InSplit(c, TreeDivergence) then 1 else 0)
            && m.rootDivergence == n.rootDivergence + (if p in InSplit(c, RootDivergence) then 1 else 0)
  {
    hide E, A, B, C, D, InSplit;
    OneMore(E(c), done, p);
    OneMore(A(c), done, p);
    OneMore(B(c), done, p);
    OneMore(C(c), done, p);
    OneMore(D(c), done, p);
    OneMore(InSplit(c, ForwardingLoss), done, p);
    OneMore(InSplit(c, TreeDivergence), done, p);
    OneMore(InSplit(c, RootDivergence), done, p);
  }

  lemma NoneSeen(c: Census)
    requires Complete(c)
    ensures CountsOver(c, {}) == Counts(0, 0, 0, 0, 0, 0, 0, 0, 0)
  {
    hide E, A, B, C, D, InSplit;
    assert forall s: set<Peer> :: s * {} == {};
  }

  lemma AllSeen(c: Census)
    requires Complete(c)
    ensures CountsOver(c, c.required) == CountsOf(c)
  {
    assert E(c) * c.required == E(c) && A(c) * c.required == A(c) && B(c) * c.required == B(c);
    assert C(c) * c.required == C(c) && D(c) * c.required == D(c);
    assert forall s :: InSplit(c, s) * c.required == InSplit(c, s);
  }

  /** The cascade of the analyzer, one reader at a time. */
  method Partition(c: Census) returns (n: Counts)
    requires Complete(c)
    ensures n == CountsOf(c)
  {
    hide E, A, B, C, D, InSplit, CountsOver, CountsOf;
    n := Counts(0, 0, 0, 0, 0, 0, 0, 0, 0);
    var todo := c.required;
    NoneSeen(c);
    assert c.required - todo == {};
    while todo != {}
      invariant todo <= c.required
      invariant n == CountsOver(c, c.required - todo)
      decreases todo
    {
      var p :| p in todo;
      ghost var done := c.required - todo;
      OneMoreEverywhere(c, done, p);
      assert c.required - (todo - {p}) == done + {p};
      n := FileReader(c, p, n);
      todo := todo - {p};
    }
    assert c.required - {} == c.required;
    AllSeen(c);
  }

  /** One pass through the cascade: delivered first, then the structural failures, then arrival. */
  method FileReader(c: Census, p: Peer, before: Counts) returns (n: Counts)
    requires Complete(c) && p in c.required
    ensures n.required == before.required + 1
    ensures n.e == before.e + (if p in E(c) then 1 else 0) && n.a == before.a + (if p in A(c) then 1 else 0)
    ensures n.b == before.b + (if p in B(c) then 1 else 0) && n.c == before.c + (if p in C(c) then 1 else 0)
    ensures n.d == before.d + (if p in D(c) then 1 else 0)
    ensures n.forwardingLoss == before.forwardingLoss + (if p in InSplit(c, ForwardingLoss) then 1 else 0)
    ensures n.treeDivergence == before.treeDivergence + (if p in InSplit(c, TreeDivergence) then 1 else 0)
    ensures n.rootDivergence == before.rootDivergence + (if p in InSplit(c, RootDivergence) then 1 else 0)
  {
    hide SplitOf;
    n := before.(required := before.required + 1);
    var st := c.states[p];
    var node := st.node;
    if DT.Known(node) && node in c.evidence.app { n := n.(e := n.e + 1); return; }
    if !st.active || !DT.Known(node) { n := n.(a := n.a + 1); return; }
    if node !in c.tree.belief { n := n.(b := n.b + 1); return; }
    if node !in c.evidence.received {
      n := n.(c := n.c + 1);
      var split := Attribute(node, c.tree, c.evidence);
      match split {
        case ForwardingLoss => n := n.(forwardingLoss := n.forwardingLoss + 1);
        case TreeDivergence => n := n.(treeDivergence := n.treeDivergence + 1);
        case RootDivergence => n := n.(rootDivergence := n.rootDivergence + 1);
      }
      return;
    }
    n := n.(d := n.d + 1);
  }

  lemma DisjointSum(s: set<Peer>, t: set<Peer>)
    requires s !! t
    ensures |s + t| == |s| + |t|
  {
  }

  /** Every required reader is in exactly one bucket, and every non-arrival in exactly one split. */
  lemma PartitionCloses(c: Census)
    requires Complete(c)
    ensures c.required == E(c) + A(c) + B(c) + C(c) + D(c)
    ensures E(c) !! A(c) !! B(c) !! C(c) !! D(c)
    ensures C(c) == InSplit(c, ForwardingLoss) + InSplit(c, TreeDivergence) + InSplit(c, RootDivergence)
    ensures Closes(CountsOf(c))
  {
    BucketsCover(c);
    SplitsCover(c);
  }

  lemma FiveWay(all: set<Peer>, e: set<Peer>, a: set<Peer>, b: set<Peer>, c: set<Peer>, d: set<Peer>)
    requires all == e + a + b + c + d && e !! a !! b !! c !! d
    ensures |all| == |e| + |a| + |b| + |c| + |d|
  {
    DisjointSum(e, a);
    DisjointSum(e + a, b);
    DisjointSum(e + a + b, c);
    DisjointSum(e + a + b + c, d);
  }

  lemma CascadeCovers(all: set<Peer>, app: set<Peer>, active: set<Peer>, believed: set<Peer>, reached: set<Peer>)
    ensures var e := all * app;
            var miss := all - e;
            var (a, b) := (miss - active, (miss * active) - believed);
            var (c, d) := ((miss * active * believed) - reached, (miss * active * believed * reached) - app);
            all == e + a + b + c + d && e !! a !! b !! c !! d
  {
  }

  lemma BucketsCover(c: Census)
    requires Complete(c)
    ensures c.required == E(c) + A(c) + B(c) + C(c) + D(c)
    ensures E(c) !! A(c) !! B(c) !! C(c) !! D(c)
    ensures |c.required| == |E(c)| + |A(c)| + |B(c)| + |C(c)| + |D(c)|
  {
    hide InApp, Active, Believed, Reached;
    CascadeCovers(c.required, InApp(c), Active(c), Believed(c), Reached(c));
    FiveWay(c.required, E(c), A(c), B(c), C(c), D(c));
  }

  lemma SplitsCover(c: Census)
    requires Complete(c)
    ensures C(c) == InSplit(c, ForwardingLoss) + InSplit(c, TreeDivergence) + InSplit(c, RootDivergence)
    ensures |C(c)| == |InSplit(c, ForwardingLoss)| + |InSplit(c, TreeDivergence)| + |InSplit(c, RootDivergence)|
  {
    hide SplitOf, C;
    var f, t, r := InSplit(c, ForwardingLoss), InSplit(c, TreeDivergence), InSplit(c, RootDivergence);
    DisjointSum(f, t);
    DisjointSum(f + t, r);
    assert C(c) == f + t + r;
  }
}
