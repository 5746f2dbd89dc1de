/**
 * Joining two one-way logs into edges, and the depth of the path they form
 * (harness/reconstruct-transitions.mjs). Node names are already prefixed.
 */
module Transitions {
  import opened Prelude
  import DT = DeliveryTree

  type Name = DT.Name

  datatype Disposition = NotAttempted | AttemptedFailed | Accepted

  datatype Tx = Tx(msgId: Name, edgeId: Name, from: Name, to: Name, hopIdx: Option<int>, disposition: Disposition)
  datatype Rx = Rx(msgId: Name, edgeId: Name, from: Name, to: Name)

  datatype Class = Crossed | LocalNotAttempted | LocalFailed | AcceptedNoRx | RxOrphan

  datatype Edge = Edge(from: Name, to: Name, hopIdx: Option<int>, kind: Class)

  function JoinKey(msgId: Name, edgeId: Name): string {
    DT.Show(msgId) + "|" + DT.Show(edgeId)
  }

  predicate Keyed(r: Rx, key: string) {
    DT.Known(r.msgId) && DT.Known(r.edgeId) && JoinKey(r.msgId, r.edgeId) == key
  }

  // ---- which arrival a sender row is joined to ------------------------------------

  /** The last arrival with this key: a later row overwrites an earlier one in the index. */
  ghost function LastKeyed(rx: seq<Rx>, key: string): Option<nat> {
    if rx == [] then None
    else if Keyed(rx[|rx| - 1], key) then Some(|rx| - 1)
    else LastKeyed(rx[..|rx| - 1], key)
  }

  ghost function FirstFree(rx: seq<Rx>, msgId: Name, used: set<nat>, i: nat): Option<nat>
    requires i <= |rx|
    decreases |rx| - i
  {
    if i == |rx| then None
    else if rx[i].msgId == msgId && i !in used then Some(i)
    else FirstFree(rx, msgId, used, i + 1)
  }

  /** A sender row that names its edge joins that edge or nothing; only a nameless one falls back. */
  ghost function MatchOf(t: Tx, rx: seq<Rx>, used: set<nat>): Option<nat> {
    if DT.Known(t.edgeId) then LastKeyed(rx, JoinKey(t.msgId, t.edgeId)) else FirstFree(rx, t.msgId, used, 0)
  }

  function ClassOf(t: Tx, hit: Option<nat>): Class {
    if hit.Some? then Crossed
    else match t.disposition
         case NotAttempted => LocalNotAttempted
         case AttemptedFailed => LocalFailed
         case Accepted => AcceptedNoRx
  }

  ghost function Used(tx: seq<Tx>, rx: seq<Rx>): set<nat> {
    if tx == [] then {}
    else
      var before, t := Used(tx[..|tx| - 1], rx), tx[|tx| - 1];
      if DT.Known(t.msgId) && MatchOf(t, rx, before).Some? then before + {MatchOf(t, rx, before).value} else before
  }

  ghost function Tallied(tx: seq<Tx>, rx: seq<Rx>, c: Class): nat {
    if tx == [] then 0
    else
      var before, t := tx[..|tx| - 1], tx[|tx| - 1];
      Tallied(before, rx, c)
      + if DT.Known(t.msgId) && ClassOf(t, MatchOf(t, rx, Used(before, rx))) == c then 1 else 0
  }

  ghost function Orphans(rx: seq<Rx>, used: set<nat>): nat {
    if rx == [] then 0
    else Orphans(rx[..|rx| - 1], used) + if DT.Known(rx[|rx| - 1].msgId) && |rx| - 1 !in used then 1 else 0
  }

  ghost function Named(rx: seq<Rx>): nat {
    Orphans(rx, {})
  }

  ghost function NamedTx(tx: seq<Tx>): nat {
    if tx == [] then 0 else NamedTx(tx[..|tx| - 1]) + if DT.Known(tx[|tx| - 1].msgId) then 1 else 0
  }

  // ---- reconstruct: the join ---------------------------------------------------------

  method IndexArrivals(rx: seq<Rx>) returns (byKey: map<string, nat>)
    ensures forall key :: Get(byKey, key) == LastKeyed(rx, key)
  {
    byKey := map[];
    for i := 0 to |rx|
      invariant forall key :: Get(byKey, key) == LastKeyed(rx[..i], key)
    {
      assert rx[..i + 1][..i] == rx[..i];
      if DT.Known(rx[i].msgId) && DT.Known(rx[i].edgeId) {
        byKey := byKey[JoinKey(rx[i].msgId, rx[i].edgeId) := i];
      }
    }
    assert rx[..|rx|] == rx;
  }

  method FindMatch(t: Tx, rx: seq<Rx>, byKey: map<string, nat>, used: set<nat>) returns (hit: Option<nat>)
    requires forall key :: Get(byKey, key) == LastKeyed(rx, key)
    ensures hit == MatchOf(t, rx, used)
  {
    if DT.Known(t.edgeId) { return Get(byKey, JoinKey(t.msgId, t.edgeId)); }
    for i := 0 to |rx|
      invariant FirstFree(rx, t.msgId, used, 0) == FirstFree(rx, t.msgId, used, i)
    {
      if rx[i].msgId == t.msgId && i !in used { return Some(i); }
    }
    return None;
  }

  datatype Tally = Tally(crossed: nat, notAttempted: nat, failed: nat, acceptedNoRx: nat, orphan: nat)

  function AddClass(t: Tally, c: Class): Tally {
    match c
    case Crossed => t.(crossed := t.crossed + 1)
    case LocalNotAttempted => t.(notAttempted := t.notAttempted + 1)
    case LocalFailed => t.(failed := t.failed + 1)
    case AcceptedNoRx => t.(acceptedNoRx := t.acceptedNoRx + 1)
    case RxOrphan => t.(orphan := t.orphan + 1)
  }

  ghost function TallyOf(tx: seq<Tx>, rx: seq<Rx>): Tally {
    Tally(Tallied(tx, rx, Crossed), Tallied(tx, rx, LocalNotAttempted), Tallied(tx, rx, LocalFailed),
          Tallied(tx, rx, AcceptedNoRx), Orphans(rx, Used(tx, rx)))
  }

  /** The edges of one message: its sender rows in order, then its orphan arrivals. */
  ghost function SenderEdges(tx: seq<Tx>, rx: seq<Rx>, id: Name): seq<Edge> {
    if tx == [] then []
    else
      var before, t := tx[..|tx| - 1], tx[|tx| - 1];
      var edges := SenderEdges(before, rx, id);
      if t.msgId == id then edges + [Edge(t.from, t.to, t.hopIdx, ClassOf(t, MatchOf(t, rx, Used(before, rx))))] else edges
  }

  ghost function OrphanEdges(rx: seq<Rx>, used: set<nat>, id: Name): seq<Edge> {
    if rx == [] then []
    else
      var edges, r := OrphanEdges(rx[..|rx| - 1], used, id), rx[|rx| - 1];
      if r.msgId == id && |rx| - 1 !in used then edges + [Edge(r.from, r.to, None, RxOrphan)] else edges
  }

  function EdgesIn(m: map<Name, seq<Edge>>, id: Name): seq<Edge> {
    if id in m then m[id] else []
  }

  method JoinSenders(tx: seq<Tx>, rx: seq<Rx>) returns (tally: Tally, edges: map<Name, seq<Edge>>, used: set<nat>)
    ensures tally == TallyOf(tx, rx).(orphan := 0) && used == Used(tx, rx)
    ensures forall id :: DT.Known(id) ==> EdgesIn(edges, id) == SenderEdges(tx, rx, id)
  {
    hide LastKeyed, FirstFree, MatchOf;
    tally, edges, used := Tally(0, 0, 0, 0, 0), map[], {};
    var byKey := IndexArrivals(rx);
    for i := 0 to |tx|
      invariant tally == TallyOf(tx[..i], rx).(orphan := 0) && used == Used(tx[..i], rx)
      invariant forall id :: DT.Known(id) ==> EdgesIn(edges, id) == SenderEdges(tx[..i], rx, id)
    {
      var t := tx[i];
      assert tx[..i + 1][..i] == tx[..i];
      if !DT.Known(t.msgId) { continue; }
      var hit := FindMatch(t, rx, byKey, used);
      if hit.Some? { used := used + {hit.value}; }
      var kind := ClassOf(t, hit);
      tally := AddClass(tally, kind);
      edges := edges[t.msgId := EdgesIn(edges, t.msgId) + [Edge(t.from, t.to, t.hopIdx, kind)]];
    }
    assert tx[..|tx|] == tx;
  }

  ghost predicate Swept(edges: map<Name, seq<Edge>>, edges0: map<Name, seq<Edge>>, rx: seq<Rx>, used: set<nat>) {
    forall id :: DT.Known(id) ==> EdgesIn(edges, id) == EdgesIn(edges0, id) + OrphanEdges(rx, used, id)
  }

  lemma SweepStep(edges: map<Name, seq<Edge>>, edges0: map<Name, seq<Edge>>, rx: seq<Rx>, used: set<nat>, i: nat)
    requires i < |rx| && Swept(edges, edges0, rx[..i], used)
    ensures var r := rx[i];
            Swept(if DT.Known(r.msgId) && i !in used
                  then edges[r.msgId := EdgesIn(edges, r.msgId) + [Edge(r.from, r.to, None, RxOrphan)]]
                  else edges, edges0, rx[..i + 1], used)
  {
    assert rx[..i + 1][..i] == rx[..i];
  }

  method SweepOrphans(rx: seq<Rx>, used: set<nat>, tally0: Tally, edges0: map<Name, seq<Edge>>)
    returns (tally: Tally, edges: map<Name, seq<Edge>>)
    ensures tally == tally0.(orphan := tally0.orphan + Orphans(rx, used))
    ensures Swept(edges, edges0, rx, used)
  {
    tally, edges := tally0, edges0;
    for i := 0 to |rx|
      invariant tally == tally0.(orphan := tally0.orphan + Orphans(rx[..i], used))
      invariant Swept(edges, edges0, rx[..i], used)
    {
      hide Swept;
      var r := rx[i];
      assert rx[..i + 1][..i] == rx[..i];
      SweepStep(edges, edges0, rx, used, i);
      if !DT.Known(r.msgId) || i in used { continue; }
      tally := AddClass(tally, RxOrphan);
      edges := edges[r.msgId := EdgesIn(edges, r.msgId) + [Edge(r.from, r.to, None, RxOrphan)]];
    }
    assert rx[..|rx|] == rx;
  }

  method Join(tx: seq<Tx>, rx: seq<Rx>) returns (tally: Tally, edges: map<Name, seq<Edge>>)
    ensures tally == TallyOf(tx, rx)
    ensures forall id :: DT.Known(id) ==>
              EdgesIn(edges, id) == SenderEdges(tx, rx, id) + OrphanEdges(rx, Used(tx, rx), id)
  {
    hide Tallied, Orphans, SenderEdges, OrphanEdges, Used;
    var used;
    tally, edges, used := JoinSenders(tx, rx);
    ghost var edges0 := edges;
    tally, edges := SweepOrphans(rx, used, tally, edges);
    assert Swept(edges, edges0, rx, used);
  }

  // ---- what the tally accounts for ------------------------------------------------------

  /** Every sender row with a message id is in exactly one of the four sender classes. */
  lemma {:induction false} SendersClassified(tx: seq<Tx>, rx: seq<Rx>)
    ensures Tallied(tx, rx, Crossed) + Tallied(tx, rx, LocalNotAttempted) + Tallied(tx, rx, LocalFailed)
            + Tallied(tx, rx, AcceptedNoRx) == NamedTx(tx)
  {
    if tx != [] { SendersClassified(tx[..|tx| - 1], rx); }
  }

  lemma {:induction false} KeyedInRange(rx: seq<Rx>, key: string)
    ensures var i := LastKeyed(rx, key); i.Some? ==> i.value < |rx| && Keyed(rx[i.value], key)
    ensures LastKeyed(rx, key).Some? <==> exists r :: r in rx && Keyed(r, key)
  {
    if rx != [] {
      var init, last := rx[..|rx| - 1], rx[|rx| - 1];
      KeyedInRange(init, key);
      assert rx == init + [last];
    }
  }

  lemma {:induction false} FreeInRange(rx: seq<Rx>, msgId: Name, used: set<nat>, i: nat)
    requires i <= |rx|
    ensures var j := FirstFree(rx, msgId, used, i); j.Some? ==> j.value < |rx| && rx[j.value].msgId == msgId
    decreases |rx| - i
  {
    if i < |rx| { FreeInRange(rx, msgId, used, i + 1); }
  }

  /** The arrivals that were joined: all are rows with a message id. */
  lemma {:induction false} UsedAreArrivals(tx: seq<Tx>, rx: seq<Rx>)
    ensures forall i :: i in Used(tx, rx) ==> i < |rx| && DT.Known(rx[i].msgId)
  {
    if tx != [] {
      UsedAreArrivals(tx[..|tx| - 1], rx);
      var t := tx[|tx| - 1];
      KeyedInRange(rx, JoinKey(t.msgId, t.edgeId));
      FreeInRange(rx, t.msgId, Used(tx[..|tx| - 1], rx), 0);
    }
  }

  lemma {:induction false} OrphansAreTheRest(rx: seq<Rx>, used: set<nat>)
    requires forall i :: i in used ==> i < |rx| && DT.Known(rx[i].msgId)
    ensures Orphans(rx, used) + |used| == Named(rx)
  {
    if rx == [] {
      assert used == {};
    } else {
      var init, last := rx[..|rx| - 1], |rx| - 1;
      var rest := used - {last};
      OrphansAreTheRest(init, rest);
      SameOrphans(init, used, rest);
      assert last in used ==> used == rest + {last};
      assert last !in used ==> used == rest;
    }
  }

  lemma {:induction false} SameOrphans(rx: seq<Rx>, a: set<nat>, b: set<nat>)
    requires forall i :: 0 <= i < |rx| ==> (i in a <==> i in b)
    ensures Orphans(rx, a) == Orphans(rx, b)
  {
    if rx != [] { SameOrphans(rx[..|rx| - 1], a, b); }
  }

  /** Orphans and joined arrivals are all the arrivals that carry a message id. */
  lemma ArrivalsAccounted(tx: seq<Tx>, rx: seq<Rx>)
    ensures TallyOf(tx, rx).orphan + |Used(tx, rx)| == Named(rx)
  {
    UsedAreArrivals(tx, rx);
    OrphansAreTheRest(rx, Used(tx, rx));
  }

  // ---- exact joins do not depend on row order --------------------------------------------

  ghost predicate EveryEdgeNamed(tx: seq<Tx>) {
    forall t :: t in tx && DT.Known(t.msgId) ==> DT.Known(t.edgeId)
  }

  ghost predicate SenderKeysUnique(tx: seq<Tx>) {
    forall i, j :: 0 <= i < j < |tx| && DT.Known(tx[i].msgId) && DT.Known(tx[j].msgId) ==>
      JoinKey(tx[i].msgId, tx[i].edgeId) != JoinKey(tx[j].msgId, tx[j].edgeId)
  }

  ghost function SenderKeys(tx: seq<Tx>): set<string> {
    set t | t in tx && DT.Known(t.msgId) :: JoinKey(t.msgId, t.edgeId)
  }

  ghost function ArrivalKeys(rx: seq<Rx>): set<string> {
    set r | r in rx && DT.Known(r.msgId) && DT.Known(r.edgeId) :: JoinKey(r.msgId, r.edgeId)
  }

  lemma SenderKeysStep(tx: seq<Tx>)
    requires tx != [] && EveryEdgeNamed(tx) && SenderKeysUnique(tx)
    ensures EveryEdgeNamed(tx[..|tx| - 1]) && SenderKeysUnique(tx[..|tx| - 1])
    ensures var t := tx[|tx| - 1];
            if DT.Known(t.msgId) then
              && DT.Known(t.edgeId)
              && SenderKeys(tx) == SenderKeys(tx[..|tx| - 1]) + {JoinKey(t.msgId, t.edgeId)}
              && JoinKey(t.msgId, t.edgeId) !in SenderKeys(tx[..|tx| - 1])
            else SenderKeys(tx) == SenderKeys(tx[..|tx| - 1])
  {
    hide JoinKey;
    var init, t := tx[..|tx| - 1], tx[|tx| - 1];
    assert forall x :: x in tx <==> x in init || x == t;
  }

  /**
   * When sender rows all name their edge and no (message, edge) pair is sent twice, CROSSED is the
   * number of keys present on both sides, and the joined arrivals are as many: row order is irrelevant.
   */
  lemma {:induction false} CrossedIsIntersection(tx: seq<Tx>, rx: seq<Rx>)
    requires EveryEdgeNamed(tx) && SenderKeysUnique(tx)
    ensures Tallied(tx, rx, Crossed) == |SenderKeys(tx) * ArrivalKeys(rx)| == |Used(tx, rx)|
    ensures forall i :: i in Used(tx, rx) ==> i < |rx| && JoinKey(rx[i].msgId, rx[i].edgeId) in SenderKeys(tx)
  {
    hide JoinKey, LastKeyed, FirstFree, SenderKeys, ArrivalKeys, EveryEdgeNamed, SenderKeysUnique;
    if tx == [] {
      NoSenderKeys(rx);
    } else {
      var init, t := tx[..|tx| - 1], tx[|tx| - 1];
      SenderKeysStep(tx);
      CrossedIsIntersection(init, rx);
      if DT.Known(t.msgId) { OneMoreSender(init, rx, JoinKey(t.msgId, t.edgeId)); }
    }
  }

  lemma NoSenderKeys(rx: seq<Rx>)
    ensures |SenderKeys([]) * ArrivalKeys(rx)| == 0
  {
    assert SenderKeys([]) * ArrivalKeys(rx) == {};
  }

  lemma OneMoreSender(init: seq<Tx>, rx: seq<Rx>, key: string)
    requires key !in SenderKeys(init)
    requires forall i :: i in Used(init, rx) ==> i < |rx| && JoinKey(rx[i].msgId, rx[i].edgeId) in SenderKeys(init)
    ensures LastKeyed(rx, key).Some? <==> key in ArrivalKeys(rx)
    ensures LastKeyed(rx, key).Some? ==>
              var i := LastKeyed(rx, key).value;
              i < |rx| && JoinKey(rx[i].msgId, rx[i].edgeId) == key && i !in Used(init, rx)
    ensures |(SenderKeys(init) + {key}) * ArrivalKeys(rx)|
            == |SenderKeys(init) * ArrivalKeys(rx)| + if key in ArrivalKeys(rx) then 1 else 0
  {
    KeyedInRange(rx, key);
    assert key in ArrivalKeys(rx) <==> exists r :: r in rx && Keyed(r, key);
    var both := SenderKeys(init) * ArrivalKeys(rx);
    if key in ArrivalKeys(rx) {
      assert (SenderKeys(init) + {key}) * ArrivalKeys(rx) == both + {key};
    } else {
      assert (SenderKeys(init) + {key}) * ArrivalKeys(rx) == both;
    }
  }

  // ---- when two sender rows cross on one arrival -------------------------------------------

  /** The i-th sender row names an edge whose arrival an earlier row was already joined to. */
  ghost predicate Rejoins(tx: seq<Tx>, rx: seq<Rx>, i: nat)
    requires i < |tx|
  {
    && DT.Known(tx[i].msgId) && DT.Known(tx[i].edgeId)
    && LastKeyed(rx, JoinKey(tx[i].msgId, tx[i].edgeId)).Some?
    && LastKeyed(rx, JoinKey(tx[i].msgId, tx[i].edgeId)).value in Used(tx[..i], rx)
  }

  lemma {:induction false} FreeIsUnused(rx: seq<Rx>, msgId: Name, used: set<nat>, i: nat)
    requires i <= |rx|
    ensures FirstFree(rx, msgId, used, i).Some? ==> FirstFree(rx, msgId, used, i).value !in used
    decreases |rx| - i
  {
    if i < |rx| { FreeIsUnused(rx, msgId, used, i + 1); }
  }

  lemma LastCrosses(tx: seq<Tx>, rx: seq<Rx>)
    requires tx != []
    ensures var before := tx[..|tx| - 1];
            var crossed := Tallied(tx, rx, Crossed) - Tallied(before, rx, Crossed);
            && 0 <= crossed <= 1
            && |Used(tx, rx)| == |Used(before, rx)| + (if crossed == 1 && !Rejoins(tx, rx, |tx| - 1) then 1 else 0)
            && (Rejoins(tx, rx, |tx| - 1) ==> crossed == 1)
  {
    hide LastKeyed, FirstFree, JoinKey;
    FreeIsUnused(rx, tx[|tx| - 1].msgId, Used(tx[..|tx| - 1], rx), 0);
    var before, t := Used(tx[..|tx| - 1], rx), tx[|tx| - 1];
    if DT.Known(t.msgId) && MatchOf(t, rx, before).Some? {
      var hit := MatchOf(t, rx, before).value;
      if hit in before { assert before + {hit} == before; }
    }
  }

  /** CROSSED is never less than the joined arrivals, and more exactly when some row names an arrival already joined. */
  lemma {:induction false} CrossedExceedsJoined(tx: seq<Tx>, rx: seq<Rx>)
    ensures Tallied(tx, rx, Crossed) >= |Used(tx, rx)|
    ensures Tallied(tx, rx, Crossed) == |Used(tx, rx)| <==> forall i :: 0 <= i < |tx| ==> !Rejoins(tx, rx, i)
  {
    if tx != [] {
      var init, n := tx[..|tx| - 1], |tx| - 1;
      CrossedExceedsJoined(init, rx);
      LastCrosses(tx, rx);
      hide Tallied, Used;
      forall i | 0 <= i < n ensures Rejoins(tx, rx, i) <==> Rejoins(init, rx, i) { assert tx[..i] == init[..i]; }
    }
  }

  lemma SameLastKeyed(rx: seq<Rx>, a: string, b: string)
    requires LastKeyed(rx, a).Some? && LastKeyed(rx, a) == LastKeyed(rx, b)
    ensures a == b
  {
    KeyedInRange(rx, a);
    KeyedInRange(rx, b);
  }

  lemma {:induction false} UsedByKey(tx: seq<Tx>, rx: seq<Rx>, key: string)
    requires EveryEdgeNamed(tx) && LastKeyed(rx, key).Some?
    ensures LastKeyed(rx, key).value in Used(tx, rx) <==> key in SenderKeys(tx)
  {
    if tx != [] {
      var init, t := tx[..|tx| - 1], tx[|tx| - 1];
      assert tx == init + [t];
      UsedByKey(init, rx, key);
      var last := JoinKey(t.msgId, t.edgeId);
      if DT.Known(t.msgId) {
        assert DT.Known(t.edgeId);
        if LastKeyed(rx, last) == LastKeyed(rx, key) { SameLastKeyed(rx, last, key); }
        assert SenderKeys(tx) == SenderKeys(init) + {last};
      } else {
        assert SenderKeys(tx) == SenderKeys(init);
      }
    }
  }

  /**
   * When sender rows all name their edge: CROSSED counts the joined arrivals exactly when no (message, edge)
   * pair that arrived was sent twice.
   */
  lemma CrossedCountsArrivals(tx: seq<Tx>, rx: seq<Rx>)
    requires EveryEdgeNamed(tx)
    ensures Tallied(tx, rx, Crossed) == |Used(tx, rx)|
            <==> forall i :: 0 <= i < |tx| && DT.Known(tx[i].msgId) && JoinKey(tx[i].msgId, tx[i].edgeId) in SenderKeys(tx[..i])
                   ==> JoinKey(tx[i].msgId, tx[i].edgeId) !in ArrivalKeys(rx)
  {
    hide Tallied, Used, JoinKey, SenderKeys, ArrivalKeys;
    CrossedExceedsJoined(tx, rx);
    forall i | 0 <= i < |tx|
      ensures Rejoins(tx, rx, i)
              <==> DT.Known(tx[i].msgId) && JoinKey(tx[i].msgId, tx[i].edgeId) in SenderKeys(tx[..i])
                   && JoinKey(tx[i].msgId, tx[i].edgeId) in ArrivalKeys(rx)
    {
      var key := JoinKey(tx[i].msgId, tx[i].edgeId);
      ArrivedKey(rx, key);
      if DT.Known(tx[i].msgId) && LastKeyed(rx, key).Some? {
        assert tx[i] in tx;
        UsedByKey(tx[..i], rx, key);
      }
    }
  }

  lemma ArrivedKey(rx: seq<Rx>, key: string)
    ensures LastKeyed(rx, key).Some? <==> key in ArrivalKeys(rx)
  {
    hide JoinKey;
    KeyedInRange(rx, key);
  }

  // ---- depth over crossed edges -----------------------------------------------------------

  datatype Link = Link(from: Name, to: Name)

  ghost function Successors(links: seq<Link>, s: set<Name>): set<Name> {
    set e | e in links && e.from in s :: e.to
  }

  /** The nodes at most `k` links from the origin. */
  ghost function Ball(links: seq<Link>, origin: Name, k: nat): set<Name> {
    if k == 0 then {origin}
    else Ball(links, origin, k - 1) + Successors(links, Ball(links, origin, k - 1))
  }

  ghost predicate IsPath(links: seq<Link>, p: seq<Name>, origin: Name, v: Name) {
    p != [] && p[0] == origin && p[|p| - 1] == v
    && forall i, j :: 0 <= i < |p| && j == i + 1 && j < |p| ==> Link(p[i], p[j]) in links
  }

  ghost predicate Reachable(links: seq<Link>, origin: Name, v: Name) {
    exists p :: IsPath(links, p, origin, v)
  }

  lemma {:induction false} BallGrows(links: seq<Link>, origin: Name, j: nat, k: nat)
    requires j <= k
    ensures Ball(links, origin, j) <= Ball(links, origin, k)
  {
    if j < k { BallGrows(links, origin, j, k - 1); }
  }

  lemma {:induction false} PathStaysInBall(links: seq<Link>, p: seq<Name>, origin: Name, v: Name)
    requires IsPath(links, p, origin, v)
    ensures v in Ball(links, origin, |p| - 1)
  {
    if |p| > 1 {
      var init := p[..|p| - 1];
      PathStaysInBall(links, init, origin, init[|init| - 1]);
      assert Link(init[|init| - 1], v) in links;
    }
  }

  lemma {:induction false} BallHasPath(links: seq<Link>, origin: Name, v: Name, k: nat)
    requires v in Ball(links, origin, k)
    ensures exists p :: IsPath(links, p, origin, v) && |p| - 1 <= k
    decreases k
  {
    if k == 0 {
      assert IsPath(links, [origin], origin, v);
    } else if v in Ball(links, origin, k - 1) {
      BallHasPath(links, origin, v, k - 1);
    } else {
      var e :| e in links && e.from in Ball(links, origin, k - 1) && e.to == v;
      BallHasPath(links, origin, e.from, k - 1);
      var p :| IsPath(links, p, origin, e.from) && |p| - 1 <= k - 1;
      assert e == Link(e.from, v);
      assert IsPath(links, p + [v], origin, v);
    }
  }

  lemma {:induction false} BallSettled(links: seq<Link>, origin: Name, d: nat, k: nat)
    requires Ball(links, origin, d + 1) == Ball(links, origin, d) && d <= k
    ensures Ball(links, origin, k) == Ball(links, origin, d)
  {
    hide Successors;
    if k > d { BallSettled(links, origin, d, k - 1); }
  }

  ghost function NextOf(links: seq<Link>, n: Name): set<Name> {
    set e | e in links && e.from == n :: e.to
  }

  ghost predicate IsAdjacency(adj: map<Name, seq<Name>>, links: seq<Link>) {
    forall n :: Elements(if n in adj then adj[n] else []) == NextOf(links, n)
  }

  method BuildAdjacency(links: seq<Link>) returns (adj: map<Name, seq<Name>>)
    ensures IsAdjacency(adj, links)
  {
    adj := map[];
    for i := 0 to |links|
      invariant IsAdjacency(adj, links[..i])
    {
      var e := links[i];
      ghost var before := adj;
      adj := adj[e.from := (if e.from in adj then adj[e.from] else []) + [e.to]];
      AdjacencyStep(before, adj, links[..i], e);
      assert links[..i + 1] == links[..i] + [e];
    }
    assert links[..|links|] == links;
  }

  lemma AdjacencyStep(before: map<Name, seq<Name>>, after: map<Name, seq<Name>>, links: seq<Link>, e: Link)
    requires IsAdjacency(before, links)
    requires after == before[e.from := (if e.from in before then before[e.from] else []) + [e.to]]
    ensures IsAdjacency(after, links + [e])
  {
    forall n ensures Elements(if n in after then after[n] else []) == NextOf(links + [e], n) {
      var was := if n in before then before[n] else [];
      assert Elements(was) == NextOf(links, n);
      assert NextOf(links + [e], n) == NextOf(links, n) + if n == e.from then {e.to} else {};
      if n == e.from { assert Elements(was + [e.to]) == Elements(was) + {e.to}; }
    }
  }

  /** One round: the new nodes found from the frontier, in the order they are met. */
  method Expand(frontier: seq<Name>, adj: map<Name, seq<Name>>, links: seq<Link>, seen0: set<Name>)
    returns (found: seq<Name>, seen: set<Name>)
    requires IsAdjacency(adj, links)
    ensures seen == seen0 + Successors(links, Elements(frontier))
    ensures Elements(found) == seen - seen0
  {
    found, seen := [], seen0;
    for i := 0 to |frontier|
      invariant seen == seen0 + Successors(links, Elements(frontier[..i]))
      invariant Elements(found) == seen - seen0
    {
      var n := frontier[i];
      var next := if n in adj then adj[n] else [];
      assert Elements(frontier[..i + 1]) == Elements(frontier[..i]) + {n};
      assert Successors(links, Elements(frontier[..i + 1])) == Successors(links, Elements(frontier[..i])) + NextOf(links, n);
      found, seen := Visit(next, found, seen, seen0);
    }
    assert frontier[..|frontier|] == frontier;
  }

  method Visit(next: seq<Name>, found0: seq<Name>, seen1: set<Name>, ghost seen0: set<Name>)
    returns (found: seq<Name>, seen: set<Name>)
    requires seen0 <= seen1 && Elements(found0) == seen1 - seen0
    ensures seen == seen1 + Elements(next)
    ensures Elements(found) == seen - seen0
  {
    found, seen := found0, seen1;
    for j := 0 to |next|
      invariant seen == seen1 + Elements(next[..j])
      invariant Elements(found) == seen - seen0
    {
      var c := next[j];
      assert Elements(next[..j + 1]) == Elements(next[..j]) + {c};
      if c !in seen {
        assert Elements(found + [c]) == Elements(found) + {c};
        seen := seen + {c};
        found := found + [c];
      }
    }
    assert next[..|next|] == next;
  }

  ghost function Universe(links: seq<Link>, origin: Name): set<Name> {
    {origin} + set e | e in links :: e.to
  }

  /**
   * `seen` is exactly what the origin reaches; every reached node is within `depth` links, and some
   * reached node is no closer than that.
   */
  method Depth(links: seq<Link>, origin: Name) returns (depth: nat, seen: set<Name>)
    ensures forall v :: v in seen <==> Reachable(links, origin, v)
    ensures forall v :: v in seen ==> exists p :: IsPath(links, p, origin, v) && |p| - 1 <= depth
    ensures exists v :: v in seen && forall p :: IsPath(links, p, origin, v) ==> |p| - 1 >= depth
  {
    hide IsAdjacency, IsPath, Successors, Universe, Reachable, Ball;
    var adj := BuildAdjacency(links);
    var frontier := [origin];
    depth, seen := 0, {origin};
    ghost var k: nat := 0;
    ghost var far := origin;
    BallStarts(links, origin);
    while frontier != []
      invariant seen == Ball(links, origin, k) && seen <= Universe(links, origin)
      invariant Elements(frontier) == if k == 0 then {origin} else Ball(links, origin, k) - Ball(links, origin, k - 1)
      invariant if frontier == [] then k == depth + 1 else k == depth
      invariant far in Ball(links, origin, depth) && (depth > 0 ==> far !in Ball(links, origin, depth - 1))
      decreases Universe(links, origin) - seen, |frontier|
    {
      var found, seen1 := Expand(frontier, adj, links, seen);
      RoundIsNextBall(links, origin, k, Elements(frontier));
      if found != [] {
        depth := depth + 1;
        far := found[0];
        assert far in Elements(found);
      }
      frontier, seen := found, seen1;
      k := k + 1;
    }
    assert Elements(frontier) == {} && k - 1 == depth;
    BallGrows(links, origin, depth, k);
    NothingNew(Ball(links, origin, k), Ball(links, origin, depth));
    DepthMeans(links, origin, depth, far);
  }

  lemma NothingNew(after: set<Name>, before: set<Name>)
    requires before <= after && after - before == {}
    ensures after == before
  {
    assert after == before + (after - before);
  }

  lemma RoundIsNextBall(links: seq<Link>, origin: Name, k: nat, frontier: set<Name>)
    requires frontier == if k == 0 then {origin} else Ball(links, origin, k) - Ball(links, origin, k - 1)
    ensures Ball(links, origin, k) + Successors(links, frontier) == Ball(links, origin, k + 1)
    ensures Ball(links, origin, k + 1) <= Universe(links, origin)
  {
    BallInUniverse(links, origin, k + 1);
  }

  lemma BallStarts(links: seq<Link>, origin: Name)
    ensures Ball(links, origin, 0) == {origin} <= Universe(links, origin)
  {
  }

  lemma {:induction false} BallInUniverse(links: seq<Link>, origin: Name, k: nat)
    ensures Ball(links, origin, k) <= Universe(links, origin)
  {
    if k > 0 { BallInUniverse(links, origin, k - 1); }
  }

  lemma DepthMeans(links: seq<Link>, origin: Name, depth: nat, far: Name)
    requires Ball(links, origin, depth + 1) == Ball(links, origin, depth)
    requires far in Ball(links, origin, depth) && (depth > 0 ==> far !in Ball(links, origin, depth - 1))
    ensures forall v :: v in Ball(links, origin, depth) <==> Reachable(links, origin, v)
    ensures forall v :: v in Ball(links, origin, depth) ==> exists p :: IsPath(links, p, origin, v) && |p| - 1 <= depth
    ensures forall p :: IsPath(links, p, origin, far) ==> |p| - 1 >= depth
  {
    hide Ball, IsPath;
    forall v | v in Ball(links, origin, depth) ensures exists p :: IsPath(links, p, origin, v) && |p| - 1 <= depth {
      BallHasPath(links, origin, v, depth);
    }
    forall v, p | IsPath(links, p, origin, v) ensures v in Ball(links, origin, depth) {
      PathWithin(links, p, origin, v, depth);
    }
    forall p | IsPath(links, p, origin, far) ensures |p| - 1 >= depth {
      FarPathIsLong(links, p, origin, far, depth);
    }
  }

  lemma PathWithin(links: seq<Link>, p: seq<Name>, origin: Name, v: Name, depth: nat)
    requires IsPath(links, p, origin, v) && Ball(links, origin, depth + 1) == Ball(links, origin, depth)
    ensures v in Ball(links, origin, depth)
  {
    PathStaysInBall(links, p, origin, v);
    if |p| - 1 <= depth { BallGrows(links, origin, |p| - 1, depth); }
    else { BallSettled(links, origin, depth, |p| - 1); }
  }

  lemma FarPathIsLong(links: seq<Link>, p: seq<Name>, origin: Name, far: Name, depth: nat)
    requires IsPath(links, p, origin, far) && (depth > 0 ==> far !in Ball(links, origin, depth - 1))
    ensures |p| - 1 >= depth
  {
    PathStaysInBall(links, p, origin, far);
    if |p| - 1 < depth { BallGrows(links, origin, |p| - 1, depth - 1); }
  }

  // ---- reconstruct: one message --------------------------------------------------------------

  ghost function CrossedLinks(edges: seq<Edge>): seq<Link> {
    if edges == [] then []
    else
      var before, e := CrossedLinks(edges[..|edges| - 1]), edges[|edges| - 1];
      if e.kind == Crossed then before + [Link(e.from, e.to)] else before
  }

  /** The sender of the first edge that says it is the first hop. */
  ghost function OriginOf(edges: seq<Edge>): Name {
    if edges == [] then None
    else if edges[0].hopIdx == Some(1) then edges[0].from
    else OriginOf(edges[1..])
  }

  method MessageDepth(edges: seq<Edge>) returns (depth: nat, reached: set<Name>)
    ensures !DT.Known(OriginOf(edges)) ==> depth == 0 && reached == {}
    ensures DT.Known(OriginOf(edges)) ==>
              var links, origin := CrossedLinks(edges), OriginOf(edges);
              && (forall v :: v in reached <==> Reachable(links, origin, v))
              && (forall v :: v in reached ==> exists p :: IsPath(links, p, origin, v) && |p| - 1 <= depth)
              && (exists v :: v in reached && forall p :: IsPath(links, p, origin, v) ==> |p| - 1 >= depth)
  {
    var links: seq<Link> := [];
    for i := 0 to |edges|
      invariant links == CrossedLinks(edges[..i])
    {
      assert edges[..i + 1][..i] == edges[..i];
      if edges[i].kind == Crossed { links := links + [Link(edges[i].from, edges[i].to)]; }
    }
    assert edges[..|edges|] == edges;
    var j := 0;
    while j < |edges| && edges[j].hopIdx != Some(1)
      invariant j <= |edges| && OriginOf(edges) == OriginOf(edges[j..])
    {
      j := j + 1;
    }
    var origin: Name := if j < |edges| then edges[j].from else None;
    if !DT.Known(origin) { return 0, {}; }
    depth, reached := Depth(links, origin);
  }
}
