/** What the join of the two logs is, read off their rows (harness/reconstruct-transitions.mjs, `reconstruct`). */
module JoinRules {
  import opened Prelude
  import opened Transitions
  import DT = DeliveryTree

  function Text(n: Name): string {
    if n.Some? then n.value else "null"
  }

  /** The arrival names the edge that the sender row names. */
  predicate SameEdge(t: Tx, r: Rx) {
    DT.Known(r.msgId) && DT.Known(r.edgeId) && Text(t.msgId) + "|" + Text(t.edgeId) == Text(r.msgId) + "|" + Text(r.edgeId)
  }

  /** The arrivals that the first n sender rows were joined to. */
  ghost function Taken(hits: seq<Option<nat>>, n: nat): set<nat>
    requires n <= |hits|
  {
    set i | 0 <= i < n && hits[i].Some? :: hits[i].value
  }

  /**
   * The arrival of the i-th sender row: one that names its edge is joined to the last arrival that names the
   * same, one that names none to the first arrival of its message that no earlier row was joined to.
   */
  ghost predicate Joined(tx: seq<Tx>, rx: seq<Rx>, hits: seq<Option<nat>>, i: nat)
    requires i < |tx| == |hits|
  {
    var t, hit := tx[i], hits[i];
    if !DT.Known(t.msgId) then hit == None
    else if DT.Known(t.edgeId) then
      if hit.None? then forall j :: 0 <= j < |rx| ==> !SameEdge(t, rx[j])
      else hit.value < |rx| && SameEdge(t, rx[hit.value]) && forall j :: hit.value < j < |rx| ==> !SameEdge(t, rx[j])
    else
      if hit.None? then forall j :: 0 <= j < |rx| && rx[j].msgId == t.msgId ==> j in Taken(hits, i)
      else && hit.value < |rx| && rx[hit.value].msgId == t.msgId && hit.value !in Taken(hits, i)
           && forall j :: 0 <= j < hit.value && rx[j].msgId == t.msgId ==> j in Taken(hits, i)
  }

  ghost predicate IsJoin(tx: seq<Tx>, rx: seq<Rx>, hits: seq<Option<nat>>) {
    |hits| == |tx| && forall i :: 0 <= i < |tx| ==> Joined(tx, rx, hits, i)
  }

  // ---- the code's join is this one --------------------------------------------------------

  ghost function HitOf(t: Tx, rx: seq<Rx>, used: set<nat>): Option<nat> {
    if DT.Known(t.msgId) then MatchOf(t, rx, used) else None
  }

  ghost function Hits(tx: seq<Tx>, rx: seq<Rx>): (h: seq<Option<nat>>)
    ensures |h| == |tx|
  {
    if tx == [] then []
    else Hits(tx[..|tx| - 1], rx) + [HitOf(tx[|tx| - 1], rx, Used(tx[..|tx| - 1], rx))]
  }

  lemma {:induction false} HitsAt(tx: seq<Tx>, rx: seq<Rx>, i: nat)
    requires i < |tx|
    ensures Hits(tx, rx)[i] == HitOf(tx[i], rx, Used(tx[..i], rx)) && Hits(tx, rx)[..i] == Hits(tx[..i], rx)
    decreases |tx|
  {
    hide HitOf, Used;
    var init := tx[..|tx| - 1];
    if i < |init| {
      HitsAt(init, rx, i);
      assert init[..i] == tx[..i];
      assert Hits(tx, rx)[..i] == Hits(init, rx)[..i];
    }
  }

  lemma TakenStep(hits: seq<Option<nat>>, n: nat)
    requires n < |hits|
    ensures Taken(hits, n + 1) == Taken(hits, n) + if hits[n].Some? then {hits[n].value} else {}
  {
  }

  lemma TakenPrefix(a: seq<Option<nat>>, b: seq<Option<nat>>, n: nat)
    requires n <= |a| && n <= |b| && a[..n] == b[..n]
    ensures Taken(a, n) == Taken(b, n)
  {
    assert forall i :: 0 <= i < n ==> a[i] == a[..n][i] && b[i] == b[..n][i];
  }

  lemma {:induction false} UsedIsTaken(tx: seq<Tx>, rx: seq<Rx>)
    ensures Used(tx, rx) == Taken(Hits(tx, rx), |tx|)
  {
    hide MatchOf;
    if tx != [] {
      var init, n := tx[..|tx| - 1], |tx| - 1;
      UsedIsTaken(init, rx);
      TakenStep(Hits(tx, rx), n);
      TakenPrefix(Hits(tx, rx), Hits(init, rx), n);
    }
  }

  lemma {:induction false} LastMeans(rx: seq<Rx>, key: string)
    ensures LastKeyed(rx, key).None? ==> forall j :: 0 <= j < |rx| ==> !Keyed(rx[j], key)
    ensures LastKeyed(rx, key).Some? ==>
              var i := LastKeyed(rx, key).value;
              i < |rx| && Keyed(rx[i], key) && forall j :: i < j < |rx| ==> !Keyed(rx[j], key)
  {
    if rx != [] { LastMeans(rx[..|rx| - 1], key); }
  }

  lemma {:induction false} FirstMeans(rx: seq<Rx>, msgId: Name, used: set<nat>, i: nat)
    requires i <= |rx|
    ensures var hit := FirstFree(rx, msgId, used, i);
            && (hit.None? ==> forall j :: i <= j < |rx| && rx[j].msgId == msgId ==> j in used)
            && (hit.Some? ==> && i <= hit.value < |rx| && rx[hit.value].msgId == msgId && hit.value !in used
                              && forall j :: i <= j < hit.value && rx[j].msgId == msgId ==> j in used)
    decreases |rx| - i
  {
    if i < |rx| { FirstMeans(rx, msgId, used, i + 1); }
  }

  lemma KeyedIsSame(t: Tx, r: Rx)
    ensures Keyed(r, JoinKey(t.msgId, t.edgeId)) <==> SameEdge(t, r)
  {
  }

  /** The hits of the code are the join, in the order of the sender rows. */
  lemma CodeJoins(tx: seq<Tx>, rx: seq<Rx>)
    ensures IsJoin(tx, rx, Hits(tx, rx))
  {
    var hits := Hits(tx, rx);
    forall i | 0 <= i < |tx| ensures Joined(tx, rx, hits, i) {
      var t := tx[i];
      HitsAt(tx, rx, i);
      UsedIsTaken(tx[..i], rx);
      TakenPrefix(hits, Hits(tx[..i], rx), i);
      LastMeans(rx, JoinKey(t.msgId, t.edgeId));
      FirstMeans(rx, t.msgId, Used(tx[..i], rx), 0);
      forall j | 0 <= j < |rx| ensures Keyed(rx[j], JoinKey(t.msgId, t.edgeId)) <==> SameEdge(t, rx[j]) { KeyedIsSame(t, rx[j]); }
      hide Keyed, SameEdge, JoinKey, LastKeyed, FirstFree, Used, Taken;
    }
  }

  /** There is only one way to join. */
  lemma {:induction false} JoinUnique(tx: seq<Tx>, rx: seq<Rx>, a: seq<Option<nat>>, b: seq<Option<nat>>, n: nat)
    requires IsJoin(tx, rx, a) && IsJoin(tx, rx, b) && n <= |tx|
    ensures a[..n] == b[..n]
  {
    if n > 0 {
      JoinUnique(tx, rx, a, b, n - 1);
      TakenPrefix(a, b, n - 1);
      assert Joined(tx, rx, a, n - 1) && Joined(tx, rx, b, n - 1);
      SameHit(tx, rx, a, b, n - 1);
      assert a[..n] == a[..n - 1] + [a[n - 1]] && b[..n] == b[..n - 1] + [b[n - 1]];
    }
  }

  lemma SameHit(tx: seq<Tx>, rx: seq<Rx>, a: seq<Option<nat>>, b: seq<Option<nat>>, i: nat)
    requires i < |tx| == |a| == |b| && Joined(tx, rx, a, i) && Joined(tx, rx, b, i) && Taken(a, i) == Taken(b, i)
    ensures a[i] == b[i]
  {
    hide Taken, SameEdge;
  }

  // ---- the tally -----------------------------------------------------------------------------

  /** What a sender row counts as: crossed if it was joined, and otherwise by what its sender says of it. */
  ghost predicate CountsAs(t: Tx, hit: Option<nat>, c: Class) {
    && DT.Known(t.msgId)
    && match c
       case Crossed => hit.Some?
       case LocalNotAttempted => hit.None? && t.disposition.NotAttempted?
       case LocalFailed => hit.None? && t.disposition.AttemptedFailed?
       case AcceptedNoRx => hit.None? && t.disposition.Accepted?
       case RxOrphan => false
  }

  ghost function RowsAs(tx: seq<Tx>, hits: seq<Option<nat>>, c: Class): set<nat>
    requires |hits| == |tx|
  {
    set i | 0 <= i < |tx| && CountsAs(tx[i], hits[i], c)
  }

  lemma RowsAsStep(tx: seq<Tx>, hits: seq<Option<nat>>, t: Tx, hit: Option<nat>, c: Class)
    requires |hits| == |tx|
    ensures |RowsAs(tx + [t], hits + [hit], c)| == |RowsAs(tx, hits, c)| + if CountsAs(t, hit, c) then 1 else 0
  {
    hide CountsAs;
    var n := |tx|;
    assert forall i :: 0 <= i < n ==> (tx + [t])[i] == tx[i] && (hits + [hit])[i] == hits[i];
    if CountsAs(t, hit, c) {
      assert RowsAs(tx + [t], hits + [hit], c) == RowsAs(tx, hits, c) + {n};
    } else {
      assert RowsAs(tx + [t], hits + [hit], c) == RowsAs(tx, hits, c);
    }
  }

  lemma {:induction false} TalliedMeans(tx: seq<Tx>, rx: seq<Rx>, c: Class)
    requires c != RxOrphan
    ensures Tallied(tx, rx, c) == |RowsAs(tx, Hits(tx, rx), c)|
  {
    if tx == [] {
      assert RowsAs(tx, Hits(tx, rx), c) == {};
    } else {
      hide RowsAs, MatchOf, Used;
      var init, t := tx[..|tx| - 1], tx[|tx| - 1];
      TalliedMeans(init, rx, c);
      RowsAsStep(init, Hits(init, rx), t, HitOf(t, rx, Used(init, rx)), c);
      assert tx == init + [t];
    }
  }

  /** The arrivals with a message id that no sender row was joined to. */
  ghost function Left(rx: seq<Rx>, taken: set<nat>): set<nat> {
    set j | 0 <= j < |rx| && DT.Known(rx[j].msgId) && j !in taken
  }

  lemma LeftStep(rx: seq<Rx>, r: Rx, taken: set<nat>)
    ensures |Left(rx + [r], taken)| == |Left(rx, taken)| + if DT.Known(r.msgId) && |rx| !in taken then 1 else 0
  {
    assert forall j :: 0 <= j < |rx| ==> (rx + [r])[j] == rx[j];
    if DT.Known(r.msgId) && |rx| !in taken {
      assert Left(rx + [r], taken) == Left(rx, taken) + {|rx|};
    } else {
      assert Left(rx + [r], taken) == Left(rx, taken);
    }
  }

  lemma {:induction false} OrphansMean(rx: seq<Rx>, taken: set<nat>)
    ensures Orphans(rx, taken) == |Left(rx, taken)|
  {
    if rx == [] {
      assert Left(rx, taken) == {};
    } else {
      hide Left;
      OrphansMean(rx[..|rx| - 1], taken);
      LeftStep(rx[..|rx| - 1], rx[|rx| - 1], taken);
      assert rx == rx[..|rx| - 1] + [rx[|rx| - 1]];
    }
  }

  /** Each number of the tally counts the rows it is named for, under the one join of the logs. */
  lemma TallyMeans(tx: seq<Tx>, rx: seq<Rx>, hits: seq<Option<nat>>)
    requires IsJoin(tx, rx, hits)
    ensures var t := TallyOf(tx, rx);
            && t.crossed == |RowsAs(tx, hits, Crossed)| && t.notAttempted == |RowsAs(tx, hits, LocalNotAttempted)|
            && t.failed == |RowsAs(tx, hits, LocalFailed)| && t.acceptedNoRx == |RowsAs(tx, hits, AcceptedNoRx)|
            && t.orphan == |Left(rx, Taken(hits, |tx|))|
  {
    hide Joined, RowsAs, Taken, Tallied, Orphans, Left, Used, Hits;
    CodeJoins(tx, rx);
    JoinUnique(tx, rx, hits, Hits(tx, rx), |tx|);
    assert hits[..|tx|] == hits && Hits(tx, rx)[..|tx|] == Hits(tx, rx);
    TalliedMeans(tx, rx, Crossed);
    TalliedMeans(tx, rx, LocalNotAttempted);
    TalliedMeans(tx, rx, LocalFailed);
    TalliedMeans(tx, rx, AcceptedNoRx);
    OrphansMean(rx, Used(tx, rx));
    UsedIsTaken(tx, rx);
  }

  // ---- rows that name no edge ----------------------------------------------------------------

  /** Every sender row with a message id leaves its edge unnamed. */
  ghost predicate Nameless(tx: seq<Tx>) {
    forall i :: 0 <= i < |tx| ==> !DT.Known(tx[i].edgeId)
  }

  ghost function SendersOf(tx: seq<Tx>, m: Name): set<nat> {
    set i | 0 <= i < |tx| && tx[i].msgId == m
  }

  ghost function ArrivalsOf(rx: seq<Rx>, m: Name): set<nat> {
    set j | 0 <= j < |rx| && rx[j].msgId == m
  }

  ghost function CrossedOf(tx: seq<Tx>, hits: seq<Option<nat>>, m: Name): set<nat>
    requires |hits| == |tx|
  {
    set i | 0 <= i < |tx| && tx[i].msgId == m && hits[i].Some?
  }

  ghost function Images(hits: seq<Option<nat>>, s: set<nat>): set<nat>
    requires forall i :: i in s ==> i < |hits| && hits[i].Some?
  {
    set i | i in s :: hits[i].value
  }

  lemma {:induction false} OneToOne(hits: seq<Option<nat>>, s: set<nat>)
    requires forall i :: i in s ==> i < |hits| && hits[i].Some?
    requires forall i, j :: i in s && j in s && i < j ==> hits[i] != hits[j]
    ensures |Images(hits, s)| == |s|
    decreases |s|
  {
    if s == {} {
      assert Images(hits, s) == {};
    } else {
      var x :| x in s;
      OneToOne(hits, s - {x});
      assert Images(hits, s) == Images(hits, s - {x}) + {hits[x].value};
      forall i | i in s - {x} ensures hits[i] != hits[x] { assert i < x || x < i; }
    }
  }

  lemma NamelessHit(tx: seq<Tx>, rx: seq<Rx>, hits: seq<Option<nat>>, i: nat)
    requires IsJoin(tx, rx, hits) && i < |tx| && DT.Known(tx[i].msgId) && !DT.Known(tx[i].edgeId)
    ensures hits[i].Some? ==> hits[i].value < |rx| && rx[hits[i].value].msgId == tx[i].msgId && forall k :: 0 <= k < i ==> hits[k] != hits[i]
    ensures hits[i].None? ==> forall j :: 0 <= j < |rx| && rx[j].msgId == tx[i].msgId ==> exists k :: 0 <= k < i && hits[k] == Some(j)
  {
    assert Joined(tx, rx, hits, i);
    if hits[i].Some? {
      forall k | 0 <= k < i ensures hits[k] != hits[i] {
        assert hits[k].Some? ==> hits[k].value in Taken(hits, i);
      }
    } else {
      forall j | 0 <= j < |rx| && rx[j].msgId == tx[i].msgId ensures exists k :: 0 <= k < i && hits[k] == Some(j) {
        assert j in Taken(hits, i);
      }
    }
  }

  /** A row without an edge id is crossed exactly when its message has an arrival that no earlier row was joined to, and then with the first. */
  lemma NamelessCrosses(tx: seq<Tx>, rx: seq<Rx>, hits: seq<Option<nat>>, i: nat)
    requires IsJoin(tx, rx, hits) && i < |tx| && DT.Known(tx[i].msgId) && !DT.Known(tx[i].edgeId)
    ensures CountsAs(tx[i], hits[i], Crossed)
            <==> exists j :: 0 <= j < |rx| && rx[j].msgId == tx[i].msgId && forall k :: 0 <= k < i ==> hits[k] != Some(j)
    ensures hits[i].Some? ==>
              hits[i].value < |rx| && rx[hits[i].value].msgId == tx[i].msgId
              && forall j :: 0 <= j < hits[i].value && rx[j].msgId == tx[i].msgId ==> exists k :: 0 <= k < i && hits[k] == Some(j)
  {
    assert Joined(tx, rx, hits, i);
    NamelessHit(tx, rx, hits, i);
    if hits[i].Some? {
      assert forall k :: 0 <= k < i ==> hits[k] != Some(hits[i].value);
      forall j | 0 <= j < hits[i].value && rx[j].msgId == tx[i].msgId ensures exists k :: 0 <= k < i && hits[k] == Some(j) {
        assert j in Taken(hits, i);
      }
    }
  }

  /** When no sender row names its edge, each message crosses as often as it was sent or arrived, whichever is less. */
  lemma NamelessLesser(tx: seq<Tx>, rx: seq<Rx>, hits: seq<Option<nat>>, m: Name)
    requires IsJoin(tx, rx, hits) && Nameless(tx) && DT.Known(m)
    ensures |CrossedOf(tx, hits, m)|
            == if |SendersOf(tx, m)| < |ArrivalsOf(rx, m)| then |SendersOf(tx, m)| else |ArrivalsOf(rx, m)|
  {
    var crossed := CrossedOf(tx, hits, m);
    forall i | i in crossed
      ensures hits[i].value in ArrivalsOf(rx, m) && forall k :: 0 <= k < i ==> hits[k] != hits[i]
    {
      NamelessHit(tx, rx, hits, i);
    }
    OneToOne(hits, crossed);
    SubsetCardinality(Images(hits, crossed), ArrivalsOf(rx, m));
    SubsetCardinality(crossed, SendersOf(tx, m));
    if crossed != SendersOf(tx, m) {
      var i :| i in SendersOf(tx, m) && i !in crossed;
      NamelessHit(tx, rx, hits, i);
      forall j | j in ArrivalsOf(rx, m) ensures j in Images(hits, crossed) {
        var k :| 0 <= k < i && hits[k] == Some(j);
        HitOfMessage(tx, rx, hits, k);
        assert k in crossed;
      }
      SubsetCardinality(ArrivalsOf(rx, m), Images(hits, crossed));
    }
  }

  lemma HitOfMessage(tx: seq<Tx>, rx: seq<Rx>, hits: seq<Option<nat>>, k: nat)
    requires IsJoin(tx, rx, hits) && Nameless(tx) && k < |tx| && hits[k].Some?
    ensures hits[k].value < |rx| && rx[hits[k].value].msgId == tx[k].msgId && DT.Known(tx[k].msgId)
  {
    assert Joined(tx, rx, hits, k);
  }

  // ---- the edges of a message ------------------------------------------------------------------

  /** The class of a sender row, under the join. */
  function ClassAt(t: Tx, hit: Option<nat>): Class {
    if hit.Some? then Crossed
    else if t.disposition.NotAttempted? then LocalNotAttempted
    else if t.disposition.AttemptedFailed? then LocalFailed
    else AcceptedNoRx
  }

  /** The positions, in order, at which something holds. */
  ghost predicate Picks(at: seq<nat>, holds: seq<bool>) {
    && (forall k :: 0 <= k < |at| ==> at[k] < |holds| && holds[at[k]])
    && (forall k, l :: 0 <= k < l < |at| ==> at[k] < at[l])
    && (forall i :: 0 <= i < |holds| && holds[i] ==> i in at)
  }

  lemma PicksStep(at: seq<nat>, holds: seq<bool>, last: bool)
    requires Picks(at, holds)
    ensures Picks(if last then at + [|holds|] else at, holds + [last])
  {
    if last {
      forall i | 0 <= i < |holds + [last]| && (holds + [last])[i] ensures i in at + [|holds|] {
        if i < |holds| { assert holds[i]; }
      }
    }
  }

  ghost function SentBy(tx: seq<Tx>, id: Name): (b: seq<bool>)
    ensures |b| == |tx| && forall i :: 0 <= i < |tx| ==> b[i] == (tx[i].msgId == id)
  {
    seq(|tx|, i requires 0 <= i < |tx| => tx[i].msgId == id)
  }

  ghost function LeftOver(rx: seq<Rx>, taken: set<nat>, id: Name): (b: seq<bool>)
    ensures |b| == |rx| && forall j :: 0 <= j < |rx| ==> b[j] == (rx[j].msgId == id && j !in taken)
  {
    seq(|rx|, j requires 0 <= j < |rx| => rx[j].msgId == id && j !in taken)
  }

  ghost predicate SenderEdgesAt(edges: seq<Edge>, at: seq<nat>, tx: seq<Tx>, hits: seq<Option<nat>>) {
    && |edges| == |at| && |hits| == |tx|
    && forall k :: 0 <= k < |at| ==>
         at[k] < |tx| && edges[k] == Edge(tx[at[k]].from, tx[at[k]].to, tx[at[k]].hopIdx, ClassAt(tx[at[k]], hits[at[k]]))
  }

  lemma SenderEdgesStep(edges: seq<Edge>, at: seq<nat>, tx: seq<Tx>, hits: seq<Option<nat>>, t: Tx, hit: Option<nat>)
    requires SenderEdgesAt(edges, at, tx, hits)
    ensures SenderEdgesAt(edges, at, tx + [t], hits + [hit])
    ensures SenderEdgesAt(edges + [Edge(t.from, t.to, t.hopIdx, ClassAt(t, hit))], at + [|tx|], tx + [t], hits + [hit])
  {
    hide ClassAt;
  }

  /** A message's edges begin with one for each of its sender rows, in their order. */
  lemma {:induction false} SenderEdgesMean(tx: seq<Tx>, rx: seq<Rx>, id: Name) returns (at: seq<nat>)
    requires DT.Known(id)
    ensures Picks(at, SentBy(tx, id)) && SenderEdgesAt(SenderEdges(tx, rx, id), at, tx, Hits(tx, rx))
  {
    hide MatchOf, Used, Picks, SenderEdgesAt;
    at := [];
    if tx != [] {
      var init, t := tx[..|tx| - 1], tx[|tx| - 1];
      at := SenderEdgesMean(init, rx, id);
      assert SentBy(tx, id) == SentBy(init, id) + [t.msgId == id] && tx == init + [t];
      PicksStep(at, SentBy(init, id), t.msgId == id);
      SenderEdgesStep(SenderEdges(init, rx, id), at, init, Hits(init, rx), t, HitOf(t, rx, Used(init, rx)));
      if t.msgId == id { at := at + [|init|]; }
    } else {
      NoPicks(SentBy(tx, id));
      NoEdges(tx, Hits(tx, rx));
    }
  }

  lemma NoPicks(holds: seq<bool>)
    requires holds == []
    ensures Picks([], holds)
  {
  }

  lemma NoEdges(tx: seq<Tx>, hits: seq<Option<nat>>)
    requires |hits| == |tx|
    ensures SenderEdgesAt([], [], tx, hits)
  {
  }

  ghost predicate OrphanEdgesAt(edges: seq<Edge>, at: seq<nat>, rx: seq<Rx>) {
    |edges| == |at| && forall k :: 0 <= k < |at| ==> at[k] < |rx| && edges[k] == Edge(rx[at[k]].from, rx[at[k]].to, None, RxOrphan)
  }

  lemma OrphanEdgesStep(edges: seq<Edge>, at: seq<nat>, rx: seq<Rx>, r: Rx)
    requires OrphanEdgesAt(edges, at, rx)
    ensures OrphanEdgesAt(edges, at, rx + [r])
    ensures OrphanEdgesAt(edges + [Edge(r.from, r.to, None, RxOrphan)], at + [|rx|], rx + [r])
  {
  }

  /** And end with one for each of its arrivals that no sender row was joined to. */
  lemma {:induction false} OrphanEdgesMean(rx: seq<Rx>, taken: set<nat>, id: Name) returns (at: seq<nat>)
    ensures Picks(at, LeftOver(rx, taken, id)) && OrphanEdgesAt(OrphanEdges(rx, taken, id), at, rx)
  {
    hide Picks;
    at := [];
    if rx != [] {
      hide OrphanEdgesAt;
      var init, r := rx[..|rx| - 1], rx[|rx| - 1];
      at := OrphanEdgesMean(init, taken, id);
      var last := r.msgId == id && |init| !in taken;
      assert LeftOver(rx, taken, id) == LeftOver(init, taken, id) + [last] && rx == init + [r];
      PicksStep(at, LeftOver(init, taken, id), last);
      OrphanEdgesStep(OrphanEdges(init, taken, id), at, init, r);
      if last { at := at + [|init|]; }
    } else {
      NoPicks(LeftOver(rx, taken, id));
    }
  }

  // ---- the path of a message ------------------------------------------------------------------------

  /** Depth follows the crossed edges, each from its sender to its receiver. */
  lemma {:induction false} LinksMean(edges: seq<Edge>, link: Link)
    ensures link in CrossedLinks(edges) <==> exists e :: e in edges && e.kind == Crossed && e.from == link.from && e.to == link.to
  {
    if edges != [] {
      var init, last := edges[..|edges| - 1], edges[|edges| - 1];
      LinksMean(init, link);
      assert edges == init + [last];
      assert forall e :: e in edges <==> e in init || e == last;
    }
  }

  /** It starts from the sender of the first edge that is a first hop. */
  lemma {:induction false} OriginMeans(edges: seq<Edge>) returns (i: int)
    ensures i == -1 ==> OriginOf(edges) == None && forall j :: 0 <= j < |edges| ==> edges[j].hopIdx != Some(1)
    ensures i != -1 ==> && 0 <= i < |edges| && edges[i].hopIdx == Some(1) && OriginOf(edges) == edges[i].from
                        && forall j :: 0 <= j < i ==> edges[j].hopIdx != Some(1)
  {
    if edges == [] {
      i := -1;
    } else if edges[0].hopIdx == Some(1) {
      i := 0;
    } else {
      i := OriginMeans(edges[1..]);
      assert forall j :: 1 <= j < |edges| ==> edges[j] == edges[1..][j - 1];
      if i != -1 { i := i + 1; }
    }
  }

  lemma SenderLink(edges: seq<Edge>, at: seq<nat>, tx: seq<Tx>, hits: seq<Option<nat>>, id: Name, link: Link)
    requires Picks(at, SentBy(tx, id)) && SenderEdgesAt(edges, at, tx, hits)
    ensures (exists e :: e in edges && e.kind == Crossed && e.from == link.from && e.to == link.to)
            <==> exists i :: 0 <= i < |tx| && tx[i].msgId == id && hits[i].Some? && tx[i].from == link.from && tx[i].to == link.to
  {
    if e: Edge :| e in edges && e.kind == Crossed && e.from == link.from && e.to == link.to {
      var k :| 0 <= k < |edges| && edges[k] == e;
      assert SentBy(tx, id)[at[k]];
    }
    if i :| 0 <= i < |tx| && tx[i].msgId == id && hits[i].Some? && tx[i].from == link.from && tx[i].to == link.to {
      assert SentBy(tx, id)[i];
      var k :| 0 <= k < |at| && at[k] == i;
      assert edges[k] in edges;
    }
  }

  /** In terms of the logs: a message's depth is taken over its joined sender rows. */
  lemma MessageLinks(tx: seq<Tx>, rx: seq<Rx>, id: Name, link: Link)
    requires DT.Known(id)
    ensures link in CrossedLinks(SenderEdges(tx, rx, id) + OrphanEdges(rx, Used(tx, rx), id))
            <==> exists i :: && 0 <= i < |tx| && tx[i].msgId == id && Hits(tx, rx)[i].Some?
                             && tx[i].from == link.from && tx[i].to == link.to
  {
    var senders, orphans := SenderEdges(tx, rx, id), OrphanEdges(rx, Used(tx, rx), id);
    LinksMean(senders + orphans, link);
    var at := SenderEdgesMean(tx, rx, id);
    var left := OrphanEdgesMean(rx, Used(tx, rx), id);
    SenderLink(senders, at, tx, Hits(tx, rx), id, link);
    forall e | e in orphans ensures e.kind == RxOrphan { var k :| 0 <= k < |orphans| && orphans[k] == e; }
    hide CrossedLinks, SenderEdges, OrphanEdges, Used, Hits, Picks, SenderEdgesAt, OrphanEdgesAt;
    assert forall e :: e in senders + orphans <==> e in senders || e in orphans;
  }
}
