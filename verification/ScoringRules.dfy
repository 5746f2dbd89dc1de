/**
 * What the counters of a run are, in terms of its messages and readers (harness/reconcile-delivery.mjs,
 * `reconcile`): each is the number of messages, or of pairs of a message and a reader, of one kind.
 */
module ScoringRules {
  import opened Prelude
  import DT = DeliveryTree
  import AC = Activity
  import RC = Reconcile
  import opened Scoring

  // ---- one message -------------------------------------------------------------------

  /** The topic of a message is that of its first row that names one. */
  lemma {:induction false} TopicMeans(rows: seq<DT.Row>)
    ensures || (TopicOf(rows) == None && forall i :: 0 <= i < |rows| ==> !DT.Known(rows[i].topicId))
            || exists i :: && 0 <= i < |rows| && DT.Known(rows[i].topicId) && TopicOf(rows) == DT.Pfx(rows[i].topicId)
                           && forall j :: 0 <= j < i ==> !DT.Known(rows[j].topicId)
  {
    if rows != [] && !DT.Known(rows[0].topicId) {
      var rest := rows[1..];
      TopicMeans(rest);
      assert forall i :: 1 <= i < |rows| ==> rows[i] == rest[i - 1];
      if i :| 0 <= i < |rest| && DT.Known(rest[i].topicId) && TopicOf(rest) == DT.Pfx(rest[i].topicId)
              && forall j :: 0 <= j < i ==> !DT.Known(rest[j].topicId) {
        assert rows[i + 1] == rest[i];
      }
    }
  }

  ghost predicate Late(m: Message, ctx: Context) {
    m.publishedAt.Some? && m.publishedAt.value > ctx.censorCutoff
  }

  ghost function TreeFor(m: Message): DT.Tree {
    DT.TreeOf(m.rows, m.members)
  }

  ghost predicate Void(m: Message) {
    TreeFor(m).voidReason.Some?
  }

  /** The sets and the publish time are there to place the readers. */
  ghost predicate Placed(m: Message, ctx: Context) {
    ctx.sets.Some? && m.publishedAt.Some?
  }

  ghost function Owed(m: Message, sets: AC.Sets): set<AC.Peer> {
    var topic := TopicOf(m.rows);
    if topic in sets.required then sets.required[topic] else {}
  }

  ghost function ReaderAt(m: Message, sets: AC.Sets, p: AC.Peer): AC.PeerState
    requires m.publishedAt.Some?
  {
    AC.StateOf(sets, p, TopicOf(m.rows), m.publishedAt.value)
  }

  ghost predicate Unclear(m: Message, ctx: Context)
    requires Placed(m, ctx)
  {
    ctx.timingVoid || exists p :: p in Owed(m, ctx.sets.value) && ReaderAt(m, ctx.sets.value, p).boundary
  }

  /** The message's readers are filed. */
  ghost predicate Files(m: Message, ctx: Context) {
    !Late(m, ctx) && !Void(m) && Placed(m, ctx) && !m.provenanceMissing && !Unclear(m, ctx)
  }

  /** The message's believed readers are counted. */
  ghost predicate Counts(m: Message, ctx: Context) {
    !Late(m, ctx) && !Void(m) && (Placed(m, ctx) ==> !m.provenanceMissing && !Unclear(m, ctx))
  }

  datatype Bucket = Required | Delivered | NotActive | NotBelieved | NotReached | NotHandedOver
                  | ByForwarding | ByTree | ByRoots

  ghost predicate Holds(m: Message, n: Name) {
    n in m.evidence.received || n == TreeFor(m).root || n in m.evidence.originRoots
  }

  /** Some edge of the believed path leads from a node with the message to one without. */
  ghost predicate EdgeLost(m: Message, n: Name) {
    var t := TreeFor(m);
    && DT.Known(t.root) && DT.PathOf(t.parentOf, n, t.root).Some?
    && exists i :: 0 <= i < |DT.PathOf(t.parentOf, n, t.root).value|
                   && Holds(m, DT.PathOf(t.parentOf, n, t.root).value[i].from)
                   && !Holds(m, DT.PathOf(t.parentOf, n, t.root).value[i].to)
  }

  ghost predicate SeveralRoots(m: Message) {
    exists a, b :: a in m.evidence.originRoots && b in m.evidence.originRoots && a != b
  }

  /** Where a required reader of a filed message belongs: the first of the conditions, in order, that fails. */
  ghost predicate Belongs(b: Bucket, m: Message, sets: AC.Sets, p: AC.Peer)
    requires m.publishedAt.Some?
  {
    var st := ReaderAt(m, sets, p);
    var got := DT.Known(st.node) && st.node in m.evidence.app;
    var missed := !got && st.active && DT.Known(st.node) && st.node in TreeFor(m).belief;
    match b
    case Required => true
    case Delivered => got
    case NotActive => !got && !(st.active && DT.Known(st.node))
    case NotBelieved => !got && st.active && DT.Known(st.node) && st.node !in TreeFor(m).belief
    case NotReached => missed && st.node !in m.evidence.received
    case NotHandedOver => missed && st.node in m.evidence.received
    case ByRoots => missed && st.node !in m.evidence.received && SeveralRoots(m)
    case ByForwarding => missed && st.node !in m.evidence.received && !SeveralRoots(m) && EdgeLost(m, st.node)
    case ByTree => missed && st.node !in m.evidence.received && !SeveralRoots(m) && !EdgeLost(m, st.node)
  }

  ghost function In(b: Bucket, m: Message, sets: AC.Sets): set<AC.Peer>
    requires m.publishedAt.Some?
  {
    set p | p in Owed(m, sets) && Belongs(b, m, sets, p)
  }

  function Field(n: RC.Counts, b: Bucket): nat {
    match b
    case Required => n.required
    case Delivered => n.e
    case NotActive => n.a
    case NotBelieved => n.b
    case NotReached => n.c
    case NotHandedOver => n.d
    case ByForwarding => n.forwardingLoss
    case ByTree => n.treeDivergence
    case ByRoots => n.rootDivergence
  }

  lemma SeveralMeans(s: set<Name>)
    ensures |s| > 1 <==> exists a, b :: a in s && b in s && a != b
  {
    if s != {} {
      var a :| a in s;
      var rest := s - {a};
      assert s == rest + {a};
      if rest != {} { var b :| b in rest; assert b in s && a != b; }
      if x, y :| x in s && y in s && x != y { assert (if x == a then y else x) in rest; }
    }
  }

  lemma SplitMeans(m: Message, n: Name)
    ensures RC.SplitOf(n, TreeFor(m), m.evidence)
            == if SeveralRoots(m) then RC.RootDivergence else if EdgeLost(m, n) then RC.ForwardingLoss else RC.TreeDivergence
  {
    hide DT.TreeOf, DT.PathOf;
    SeveralMeans(m.evidence.originRoots);
    var t := TreeFor(m);
    if DT.Known(t.root) && DT.PathOf(t.parentOf, n, t.root).Some? {
      var path := DT.PathOf(t.parentOf, n, t.root).value;
      if e :| e in path && RC.LostEdge(e, t, m.evidence) { var i :| 0 <= i < |path| && path[i] == e; }
      if EdgeLost(m, n) {
        var i :| 0 <= i < |path| && Holds(m, path[i].from) && !Holds(m, path[i].to);
        assert path[i] in path && RC.LostEdge(path[i], t, m.evidence);
      }
    }
  }

  lemma BucketsMean(m: Message, sets: AC.Sets)
    requires m.publishedAt.Some?
    ensures var c := CensusOf(m, sets);
            && c.required == In(Required, m, sets) && RC.E(c) == In(Delivered, m, sets) && RC.A(c) == In(NotActive, m, sets)
            && RC.B(c) == In(NotBelieved, m, sets) && RC.C(c) == In(NotReached, m, sets) && RC.D(c) == In(NotHandedOver, m, sets)
  {
    hide AC.StateOf, DT.TreeOf, TopicOf, SeveralRoots, EdgeLost;
  }

  lemma NodeAt(m: Message, sets: AC.Sets, p: AC.Peer)
    requires m.publishedAt.Some? && p in Owed(m, sets)
    ensures RC.NodeOf(CensusOf(m, sets), p) == ReaderAt(m, sets, p).node
    ensures CensusOf(m, sets).tree == TreeFor(m) && CensusOf(m, sets).evidence == m.evidence
  {
    hide AC.StateOf, DT.TreeOf, TopicOf;
  }

  lemma InSplits(m: Message, sets: AC.Sets, p: AC.Peer)
    requires m.publishedAt.Some? && p in In(NotReached, m, sets)
    ensures p in Owed(m, sets)
    ensures p in In(ByRoots, m, sets) <==> SeveralRoots(m)
    ensures p in In(ByForwarding, m, sets) <==> !SeveralRoots(m) && EdgeLost(m, ReaderAt(m, sets, p).node)
    ensures p in In(ByTree, m, sets) <==> !SeveralRoots(m) && !EdgeLost(m, ReaderAt(m, sets, p).node)
  {
    hide ReaderAt, TreeFor, EdgeLost, SeveralRoots, Owed;
  }

  /** The bucket of a reader that the message never reached is split by who has the message. */
  lemma ReaderSplit(m: Message, sets: AC.Sets, p: AC.Peer)
    requires m.publishedAt.Some? && p in In(NotReached, m, sets)
    ensures var split := RC.SplitOf(RC.NodeOf(CensusOf(m, sets), p), CensusOf(m, sets).tree, CensusOf(m, sets).evidence);
            && (split == RC.ForwardingLoss <==> p in In(ByForwarding, m, sets))
            && (split == RC.TreeDivergence <==> p in In(ByTree, m, sets))
            && (split == RC.RootDivergence <==> p in In(ByRoots, m, sets))
  {
    hide *;
    InSplits(m, sets, p);
    NodeAt(m, sets, p);
    SplitMeans(m, ReaderAt(m, sets, p).node);
  }

  lemma SplitIsPartOfC(m: Message, sets: AC.Sets)
    requires m.publishedAt.Some?
    ensures In(ByForwarding, m, sets) <= In(NotReached, m, sets) && In(ByTree, m, sets) <= In(NotReached, m, sets)
    ensures In(ByRoots, m, sets) <= In(NotReached, m, sets)
  {
    hide ReaderAt, TreeFor, EdgeLost, SeveralRoots, Owed;
  }

  lemma SplitsMean(m: Message, sets: AC.Sets)
    requires m.publishedAt.Some?
    ensures var c := CensusOf(m, sets);
            && RC.InSplit(c, RC.ForwardingLoss) == In(ByForwarding, m, sets)
            && RC.InSplit(c, RC.TreeDivergence) == In(ByTree, m, sets)
            && RC.InSplit(c, RC.RootDivergence) == In(ByRoots, m, sets)
  {
    BucketsMean(m, sets);
    SplitIsPartOfC(m, sets);
    forall p | p in In(NotReached, m, sets) { ReaderSplit(m, sets, p); }
    hide RC.SplitOf, RC.NodeOf, CensusOf, In, RC.C;
    var c := CensusOf(m, sets);
    forall p ensures p in RC.InSplit(c, RC.ForwardingLoss) <==> p in In(ByForwarding, m, sets) {}
    forall p ensures p in RC.InSplit(c, RC.TreeDivergence) <==> p in In(ByTree, m, sets) {}
    forall p ensures p in RC.InSplit(c, RC.RootDivergence) <==> p in In(ByRoots, m, sets) {}
  }

  lemma CountsMean(m: Message, sets: AC.Sets, b: Bucket)
    requires m.publishedAt.Some?
    ensures Field(RC.CountsOf(CensusOf(m, sets)), b) == |In(b, m, sets)|
  {
    BucketsMean(m, sets);
    SplitsMean(m, sets);
    hide CensusOf, In, RC.E, RC.A, RC.B, RC.C, RC.D, RC.InSplit;
  }

  // ---- a run: pairs of a message and a reader ------------------------------------------------

  datatype Reader = Reader(message: nat, peer: AC.Peer)

  ghost predicate OfKind(m: Message, ctx: Context, kind: Option<Kind>) {
    kind.Some? ==> Get(ctx.kinds, TopicOf(m.rows)) == kind
  }

  /** The readers that the i-th message puts in a bucket, of one topic kind or of all. */
  ghost function FiledIn(b: Bucket, m: Message, ctx: Context, kind: Option<Kind>): set<AC.Peer> {
    if Files(m, ctx) && OfKind(m, ctx, kind) then In(b, m, ctx.sets.value) else {}
  }

  /** All pairs of a message of the run and a reader that it puts in the bucket. */
  ghost function Those(b: Bucket, msgs: seq<Message>, ctx: Context, kind: Option<Kind>): set<Reader> {
    set i, p | 0 <= i < |msgs| && p in FiledIn(b, msgs[i], ctx, kind) :: Reader(i, p)
  }

  lemma {:induction false} Tagged(s: set<AC.Peer>, i: nat)
    ensures |set p | p in s :: Reader(i, p)| == |s|
  {
    if s != {} {
      var x :| x in s;
      Tagged(s - {x}, i);
      assert (set p | p in s :: Reader(i, p)) == (set p | p in s - {x} :: Reader(i, p)) + {Reader(i, x)};
    } else {
      assert (set p | p in s :: Reader(i, p)) == {};
    }
  }

  lemma ThoseMember(b: Bucket, msgs: seq<Message>, ctx: Context, kind: Option<Kind>, r: Reader)
    ensures r in Those(b, msgs, ctx, kind) <==> r.message < |msgs| && r.peer in FiledIn(b, msgs[r.message], ctx, kind)
  {
    hide FiledIn;
  }

  lemma ThoseStep(b: Bucket, msgs: seq<Message>, ctx: Context, kind: Option<Kind>)
    requires msgs != []
    ensures |Those(b, msgs, ctx, kind)| == |Those(b, msgs[..|msgs| - 1], ctx, kind)| + |FiledIn(b, msgs[|msgs| - 1], ctx, kind)|
  {
    hide FiledIn;
    var init, n := msgs[..|msgs| - 1], |msgs| - 1;
    var more := set p | p in FiledIn(b, msgs[n], ctx, kind) :: Reader(n, p);
    Tagged(FiledIn(b, msgs[n], ctx, kind), n);
    forall r ensures r in Those(b, msgs, ctx, kind) <==> r in Those(b, init, ctx, kind) || r in more {
      ThoseMember(b, msgs, ctx, kind, r);
      ThoseMember(b, init, ctx, kind, r);
      if r.message < n { assert init[r.message] == msgs[r.message]; }
      assert r in more <==> r.message == n && r.peer in FiledIn(b, msgs[n], ctx, kind);
    }
    forall r | r in Those(b, init, ctx, kind) ensures r !in more { ThoseMember(b, init, ctx, kind, r); }
    hide Those;
    assert Those(b, msgs, ctx, kind) == Those(b, init, ctx, kind) + more;
  }

  function KindField(n: KindCounts, b: Bucket): nat {
    match b
    case Required => n.required
    case Delivered => n.e
    case NotActive => n.a
    case NotBelieved => n.b
    case NotReached => n.c
    case NotHandedOver => n.d
    case _ => 0
  }

  predicate Split(b: Bucket) {
    b.ByForwarding? || b.ByTree? || b.ByRoots?
  }

  /** What scoring one message does to the counters of readers: nothing, or the addition of its own counts. */
  lemma OneMessageFiled(t: Tally, m: Message, ctx: Context)
    ensures !Files(m, ctx) ==> Scored(t, m, ctx).all == t.all && Scored(t, m, ctx).open == t.open && Scored(t, m, ctx).owned == t.owned
    ensures Files(m, ctx) ==>
              var n, s, kind := RC.CountsOf(CensusOf(m, ctx.sets.value)), Scored(t, m, ctx), Get(ctx.kinds, TopicOf(m.rows));
              && s.all == AddCounts(t.all, n)
              && s.open == (if kind == Some(Open) then AddKind(t.open, n) else t.open)
              && s.owned == (if kind == Some(Owned) then AddKind(t.owned, n) else t.owned)
  {
    FilesMeans(m, ctx);
    hide DT.TreeOf, RC.CountsOf, TopicOf, Ambiguous, CensusOf, Files, AddCounts, AddKind;
  }

  lemma AddedField(n: RC.Counts, more: RC.Counts, k: KindCounts, b: Bucket)
    ensures Field(AddCounts(n, more), b) == Field(n, b) + Field(more, b)
    ensures !Split(b) ==> KindField(AddKind(k, more), b) == KindField(k, b) + Field(more, b)
  {
  }

  lemma FiledMeans(b: Bucket, m: Message, ctx: Context)
    ensures !Files(m, ctx) ==> forall kind :: |FiledIn(b, m, ctx, kind)| == 0
    ensures Files(m, ctx) ==>
              && FiledIn(b, m, ctx, None) == In(b, m, ctx.sets.value)
              && forall k :: |FiledIn(b, m, ctx, Some(k))| == if Get(ctx.kinds, TopicOf(m.rows)) == Some(k) then |In(b, m, ctx.sets.value)| else 0
  {
    hide Late, Void, Unclear, TopicOf, In;
  }

  /** What one message adds to a counter of all topics and of each kind. */
  lemma OneMessage(t: Tally, m: Message, ctx: Context, b: Bucket)
    ensures Field(Scored(t, m, ctx).all, b) == Field(t.all, b) + |FiledIn(b, m, ctx, None)|
    ensures !Split(b) ==> KindField(Scored(t, m, ctx).open, b) == KindField(t.open, b) + |FiledIn(b, m, ctx, Some(Open))|
    ensures !Split(b) ==> KindField(Scored(t, m, ctx).owned, b) == KindField(t.owned, b) + |FiledIn(b, m, ctx, Some(Owned))|
  {
    OneMessageFiled(t, m, ctx);
    FiledMeans(b, m, ctx);
    if Files(m, ctx) {
      FilesPlaced(m, ctx);
      CountsMean(m, ctx.sets.value, b);
      AddedField(t.all, RC.CountsOf(CensusOf(m, ctx.sets.value)), t.open, b);
      AddedField(t.all, RC.CountsOf(CensusOf(m, ctx.sets.value)), t.owned, b);
    }
    hide *;
  }

  lemma FilesPlaced(m: Message, ctx: Context)
    requires Files(m, ctx)
    ensures Placed(m, ctx) && ctx.sets.Some? && m.publishedAt.Some?
  {
  }

  lemma FilesMeans(m: Message, ctx: Context)
    ensures Late(m, ctx) <==> Censored(m, ctx)
    ensures Files(m, ctx) <==> !Censored(m, ctx) && DT.TreeOf(m.rows, m.members).voidReason.None? && Timed(m, ctx)
                               && !m.provenanceMissing && !Ambiguous(m, ctx.sets.value) && !ctx.timingVoid
  {
    if Placed(m, ctx) { UnclearMeans(m, ctx); }
    hide DT.TreeOf, Ambiguous, Unclear;
  }

  lemma UnclearMeans(m: Message, ctx: Context)
    requires Placed(m, ctx)
    ensures Unclear(m, ctx) <==> ctx.timingVoid || Ambiguous(m, ctx.sets.value)
  {
    hide AC.StateOf, TopicOf;
    var sets := ctx.sets.value;
    assert Owed(m, sets) == RequiredFor(sets, TopicOf(m.rows));
    forall p | p in Owed(m, sets) ensures ReaderAt(m, sets, p) == AC.StateOf(sets, p, TopicOf(m.rows), m.publishedAt.value) {}
  }

  /**
   * For every bucket and split, over all topics and per topic kind, the run's counter is the number of pairs
   * of a filed message and a required reader that belongs there.
   */
  lemma {:induction false} CountersMean(msgs: seq<Message>, ctx: Context, b: Bucket)
    ensures Field(Total(msgs, ctx).all, b) == |Those(b, msgs, ctx, None)|
    ensures !Split(b) ==> KindField(Total(msgs, ctx).open, b) == |Those(b, msgs, ctx, Some(Open))|
    ensures !Split(b) ==> KindField(Total(msgs, ctx).owned, b) == |Those(b, msgs, ctx, Some(Owned))|
  {
    hide Scored, FiledIn;
    if msgs == [] {
      assert Those(b, msgs, ctx, None) == {} && Those(b, msgs, ctx, Some(Open)) == {} && Those(b, msgs, ctx, Some(Owned)) == {};
    } else {
      hide Those;
      CountersMean(msgs[..|msgs| - 1], ctx, b);
      OneMessage(Total(msgs[..|msgs| - 1], ctx), msgs[|msgs| - 1], ctx, b);
      ThoseStep(b, msgs, ctx, None);
      ThoseStep(b, msgs, ctx, Some(Open));
      ThoseStep(b, msgs, ctx, Some(Owned));
    }
  }

  // ---- messages, and believed readers ------------------------------------------------------------

  /** The messages of the run of one sort, by position. */
  ghost function Which(msgs: seq<Message>, ctx: Context, f: (Message, Context) -> bool): set<nat> {
    set i | 0 <= i < |msgs| && f(msgs[i], ctx)
  }

  lemma WhichStep(msgs: seq<Message>, ctx: Context, f: (Message, Context) -> bool)
    requires msgs != []
    ensures |Which(msgs, ctx, f)| == |Which(msgs[..|msgs| - 1], ctx, f)| + if f(msgs[|msgs| - 1], ctx) then 1 else 0
  {
    var n := |msgs| - 1;
    if f(msgs[n], ctx) {
      assert Which(msgs, ctx, f) == Which(msgs[..n], ctx, f) + {n};
    } else {
      assert Which(msgs, ctx, f) == Which(msgs[..n], ctx, f);
    }
  }

  ghost predicate IsVoid(m: Message, ctx: Context) {
    !Late(m, ctx) && Void(m)
  }

  ghost predicate Diverges(m: Message, ctx: Context) {
    !Late(m, ctx) && !Void(m) && TreeFor(m).divergence.Some?
  }

  ghost predicate WithoutHost(m: Message, ctx: Context) {
    !Late(m, ctx) && !Void(m) && Placed(m, ctx) && m.provenanceMissing
  }

  ghost predicate AtBoundary(m: Message, ctx: Context) {
    !Late(m, ctx) && !Void(m) && Placed(m, ctx) && !m.provenanceMissing && Unclear(m, ctx)
  }

  lemma OneMessageSort(t: Tally, m: Message, ctx: Context)
    ensures var s := Scored(t, m, ctx);
            && s.publishes == t.publishes + (if Counts(m, ctx) then 1 else 0)
            && s.censored == t.censored + (if Late(m, ctx) then 1 else 0)
            && s.voided == t.voided + (if IsVoid(m, ctx) then 1 else 0)
            && s.rootDivergence == t.rootDivergence + (if Diverges(m, ctx) then 1 else 0)
            && s.provenanceVoid == t.provenanceVoid + (if WithoutHost(m, ctx) then 1 else 0)
            && s.boundaryAmbiguous == t.boundaryAmbiguous + (if AtBoundary(m, ctx) then 1 else 0)
  {
    if Placed(m, ctx) { UnclearMeans(m, ctx); }
    hide DT.TreeOf, RC.CountsOf, CensusOf, TopicOf, Ambiguous, Unclear;
  }

  /** The counters of messages are the numbers of messages scored, censored, void, with diverging roots, without host or at a boundary. */
  lemma {:induction false} MessageCountersMean(msgs: seq<Message>, ctx: Context)
    ensures var t := Total(msgs, ctx);
            && t.publishes == |Which(msgs, ctx, Counts)| && t.censored == |Which(msgs, ctx, Late)|
            && t.voided == |Which(msgs, ctx, IsVoid)| && t.rootDivergence == |Which(msgs, ctx, Diverges)|
            && t.provenanceVoid == |Which(msgs, ctx, WithoutHost)| && t.boundaryAmbiguous == |Which(msgs, ctx, AtBoundary)|
  {
    if msgs == [] {
      NoneWhich(ctx, Counts);
      NoneWhich(ctx, Late);
      NoneWhich(ctx, IsVoid);
      NoneWhich(ctx, Diverges);
      NoneWhich(ctx, WithoutHost);
      NoneWhich(ctx, AtBoundary);
    } else {
      hide Scored, Which, Counts, Late, IsVoid, Diverges, WithoutHost, AtBoundary;
      MessageCountersMean(msgs[..|msgs| - 1], ctx);
      OneMessageSort(Total(msgs[..|msgs| - 1], ctx), msgs[|msgs| - 1], ctx);
      WhichStep(msgs, ctx, Counts);
      WhichStep(msgs, ctx, Late);
      WhichStep(msgs, ctx, IsVoid);
      WhichStep(msgs, ctx, Diverges);
      WhichStep(msgs, ctx, WithoutHost);
      WhichStep(msgs, ctx, AtBoundary);
    }
  }

  lemma NoneWhich(ctx: Context, f: (Message, Context) -> bool)
    ensures |Which([], ctx, f)| == 0
  {
    assert Which([], ctx, f) == {};
  }

  datatype Part = Believed | GotApp | NoApp | NoAppArrived | NoAppNever

  /** The believed readers of a message, all or by what became of it. */
  ghost function PartOf(part: Part, m: Message, ctx: Context): set<Name> {
    set x | x in TreeFor(m).belief && Counts(m, ctx)
            && match part
               case Believed => true
               case GotApp => x in m.evidence.app
               case NoApp => x !in m.evidence.app
               case NoAppArrived => x !in m.evidence.app && x in m.evidence.received
               case NoAppNever => x !in m.evidence.app && x !in m.evidence.received
  }

  datatype Sub = Sub(message: nat, node: Name)

  ghost function Subs(part: Part, msgs: seq<Message>, ctx: Context): set<Sub> {
    set i, x | 0 <= i < |msgs| && x in PartOf(part, msgs[i], ctx) :: Sub(i, x)
  }

  lemma {:induction false} TaggedSubs(s: set<Name>, i: nat)
    ensures |set x | x in s :: Sub(i, x)| == |s|
  {
    if s != {} {
      var x :| x in s;
      TaggedSubs(s - {x}, i);
      assert (set y | y in s :: Sub(i, y)) == (set y | y in s - {x} :: Sub(i, y)) + {Sub(i, x)};
    } else {
      assert (set y | y in s :: Sub(i, y)) == {};
    }
  }

  lemma SubsStep(part: Part, msgs: seq<Message>, ctx: Context)
    requires msgs != []
    ensures |Subs(part, msgs, ctx)| == |Subs(part, msgs[..|msgs| - 1], ctx)| + |PartOf(part, msgs[|msgs| - 1], ctx)|
  {
    hide PartOf;
    var init, n := msgs[..|msgs| - 1], |msgs| - 1;
    var more := set x | x in PartOf(part, msgs[n], ctx) :: Sub(n, x);
    TaggedSubs(PartOf(part, msgs[n], ctx), n);
    assert Subs(part, msgs, ctx) == Subs(part, init, ctx) + more;
    assert Subs(part, init, ctx) !! more;
  }

  function PartField(t: Tally, part: Part): nat {
    match part
    case Believed => t.belief
    case GotApp => t.delivered
    case NoApp => t.beliefNotApp
    case NoAppArrived => t.arrivedNoApp
    case NoAppNever => t.neverArrived
  }

  lemma PartsMean(m: Message, ctx: Context)
    requires Counts(m, ctx)
    ensures var belief, app, received := TreeFor(m).belief, m.evidence.app, m.evidence.received;
            && PartOf(Believed, m, ctx) == belief && PartOf(GotApp, m, ctx) == belief * app && PartOf(NoApp, m, ctx) == belief - app
            && PartOf(NoAppArrived, m, ctx) == (belief - app) * received && PartOf(NoAppNever, m, ctx) == belief - app - received
  {
    hide Counts, TreeFor;
  }

  lemma SkippedBelief(t: Tally, m: Message, ctx: Context)
    requires !Counts(m, ctx)
    ensures SameBelief(Scored(t, m, ctx), t)
  {
    if Placed(m, ctx) { UnclearMeans(m, ctx); }
    hide DT.TreeOf, RC.CountsOf, CensusOf, TopicOf, Ambiguous, Unclear, AddPartition, AddBelief;
  }

  lemma UnplacedBelief(t: Tally, m: Message, ctx: Context)
    requires Counts(m, ctx) && !Placed(m, ctx)
    ensures Scored(t, m, ctx) == AddBelief(FlagDivergence(t, TreeFor(m)), TreeFor(m), m.evidence)
            || Scored(t, m, ctx) == AddBelief(t, TreeFor(m), m.evidence)
  {
    hide DT.TreeOf, AddPartition, AddBelief, FlagDivergence;
  }

  lemma PlacedBelief(t: Tally, m: Message, ctx: Context)
    requires Files(m, ctx)
    ensures Scored(t, m, ctx)
            == AddBelief(AddPartition(FlagDivergence(t, TreeFor(m)), RC.CountsOf(CensusOf(m, ctx.sets.value)), Get(ctx.kinds, TopicOf(m.rows))),
                         TreeFor(m), m.evidence)
  {
    FilesMeans(m, ctx);
    hide DT.TreeOf, RC.CountsOf, CensusOf, TopicOf, Ambiguous, Unclear, AddPartition, AddBelief, FlagDivergence, Files;
  }

  /** Scoring a message moves the counters of belief as adding its own belief does, or not at all. */
  lemma OneMessageBelief(t: Tally, m: Message, ctx: Context)
    ensures var s := Scored(t, m, ctx);
            SameBelief(s, if Counts(m, ctx) then AddBelief(t, TreeFor(m), m.evidence) else t)
  {
    if !Counts(m, ctx) {
      SkippedBelief(t, m, ctx);
    } else {
      var u := FlagDivergence(t, TreeFor(m));
      if Placed(m, ctx) {
        PlacedBelief(t, m, ctx);
        var counts, kind := RC.CountsOf(CensusOf(m, ctx.sets.value)), Get(ctx.kinds, TopicOf(m.rows));
        BeliefAfterPartition(t, u, counts, kind, TreeFor(m), m.evidence);
      } else {
        UnplacedBelief(t, m, ctx);
      }
    }
    hide Scored, DT.TreeOf, TreeFor, RC.CountsOf, CensusOf, TopicOf, Ambiguous, Unclear, AddPartition;
  }

  lemma BeliefAfterPartition(t: Tally, u: Tally, counts: RC.Counts, kind: Option<Kind>, tree: DT.Tree, ev: RC.Evidence)
    requires SameBelief(t, u)
    ensures SameBelief(AddBelief(AddPartition(u, counts, kind), tree, ev), AddBelief(t, tree, ev))
  {
    hide AddCounts, AddKind;
  }

  ghost predicate SameBelief(s: Tally, t: Tally) {
    && s.belief == t.belief && s.delivered == t.delivered && s.beliefNotApp == t.beliefNotApp
    && s.arrivedNoApp == t.arrivedNoApp && s.neverArrived == t.neverArrived
  }

  lemma OneMessagePart(t: Tally, m: Message, ctx: Context, part: Part)
    ensures PartField(Scored(t, m, ctx), part) == PartField(t, part) + |PartOf(part, m, ctx)|
  {
    OneMessageBelief(t, m, ctx);
    if Counts(m, ctx) { PartsMean(m, ctx); } else { assert PartOf(part, m, ctx) == {}; }
    hide DT.TreeOf, PartOf, Scored, Counts, TreeFor;
  }

  /** The counters of belief are the numbers of pairs of a scored message and a believed reader, by what became of it. */
  lemma {:induction false} BeliefCountersMean(msgs: seq<Message>, ctx: Context, part: Part)
    ensures PartField(Total(msgs, ctx), part) == |Subs(part, msgs, ctx)|
  {
    if msgs == [] {
      assert Subs(part, msgs, ctx) == {};
    } else {
      hide Scored, PartOf, Subs;
      BeliefCountersMean(msgs[..|msgs| - 1], ctx, part);
      OneMessagePart(Total(msgs[..|msgs| - 1], ctx), msgs[|msgs| - 1], ctx, part);
      SubsStep(part, msgs, ctx);
    }
  }

  // ---- the rows of a message ------------------------------------------------------------------------

  /** A message is published at its earliest stamped row, on the basis clock. */
  lemma {:induction false} PublishedMeans(ledger: seq<LedgerRow>, offsets: AC.Offsets, id: string)
    ensures PublishedAt(ledger, offsets, id).None? <==> forall i :: 0 <= i < |ledger| ==> !Stamped(ledger[i], id)
    ensures forall i :: 0 <= i < |ledger| && Stamped(ledger[i], id) ==>
              PublishedAt(ledger, offsets, id).Some? && PublishedAt(ledger, offsets, id).value <= OnBasis(ledger[i], offsets)
    ensures PublishedAt(ledger, offsets, id).Some? ==>
              exists i :: 0 <= i < |ledger| && Stamped(ledger[i], id) && PublishedAt(ledger, offsets, id).value == OnBasis(ledger[i], offsets)
  {
    if ledger != [] {
      var init, last := ledger[..|ledger| - 1], |ledger| - 1;
      PublishedMeans(init, offsets, id);
      assert forall i :: 0 <= i < last ==> init[i] == ledger[i];
      if PublishedAt(init, offsets, id).Some? {
        var i :| 0 <= i < |init| && Stamped(init[i], id) && PublishedAt(init, offsets, id).value == OnBasis(init[i], offsets);
        assert Stamped(ledger[i], id);
      }
    }
  }

  predicate Stamped(r: LedgerRow, id: string) {
    r.msgId == Some(id) && r.t.Some?
  }

  /** The reading of the basis clock when the row's own host, ahead by its offset, showed `t`. */
  function OnBasis(r: LedgerRow, offsets: AC.Offsets): real
    requires r.t.Some?
  {
    var host := if r.srcHost.Some? then r.srcHost.value else "null";
    r.t.value - if host in offsets then offsets[host] else 0.0
  }

  /** The rows of a message are the ledger's rows with its id, in their order. */
  lemma {:induction false} RowsMean(ledger: seq<LedgerRow>, id: string) returns (at: seq<nat>)
    ensures |at| == |RowsFor(ledger, id)|
    ensures forall k :: 0 <= k < |at| ==> at[k] < |ledger| && ledger[at[k]].msgId == Some(id) && ledger[at[k]].row == RowsFor(ledger, id)[k]
    ensures forall k, l :: 0 <= k < l < |at| ==> at[k] < at[l]
    ensures forall i :: 0 <= i < |ledger| && ledger[i].msgId == Some(id) ==> i in at
  {
    at := [];
    if ledger != [] {
      at := RowsMean(ledger[..|ledger| - 1], id);
      if ledger[|ledger| - 1].msgId == Some(id) { at := at + [|ledger| - 1]; }
    }
  }

  /** A message lacks provenance when some row of it names no host. */
  lemma ProvenanceMeans(ledger: seq<LedgerRow>, id: string)
    ensures ProvenanceMissing(ledger, id)
            <==> exists i :: 0 <= i < |ledger| && ledger[i].msgId == Some(id) && (ledger[i].srcHost == None || ledger[i].srcHost == Some(""))
  {
    if r :| r in ledger && r.msgId == Some(id) && !DT.Known(r.srcHost) { var i :| 0 <= i < |ledger| && ledger[i] == r; }
  }
}
