/**
 * Who counts as active when, read off the lifecycle and the identity stamps themselves, with every host's
 * clock taken into account (harness/reconcile-delivery.mjs, `buildSets`).
 */
module ActivityRules {
  import opened Prelude
  import opened Sorting
  import opened Activity
  import DT = DeliveryTree
  import SC = Scoring

  // ---- clocks -----------------------------------------------------------------------

  /** How far a host's clock is ahead of the basis. */
  function Ahead(offsets: Offsets, host: string): real {
    if host in offsets then offsets[host] else 0.0
  }

  function HostOf(e: Event): string {
    match e
    case Activate(_, host, _, _) => host
    case SubEnd(_, host, _, _) => host
    case WindowEnd(_, host, _) => host
    case _ => ""
  }

  function WallOf(e: Event): Option<real> {
    match e
    case Activate(_, _, _, wall) => wall
    case SubEnd(_, _, _, wall) => wall
    case WindowEnd(_, _, wall) => wall
    case _ => None
  }

  /** The basis instant of an event: its host's reading less what that host is ahead. */
  function Instant(offsets: Offsets, e: Event): real
    requires WallOf(e).Some?
  {
    WallOf(e).value - Ahead(offsets, HostOf(e))
  }

  function StampInstant(offsets: Offsets, s: Stamp): real {
    s.wall - Ahead(offsets, s.host)
  }

  // ---- identity at an instant ------------------------------------------------------------

  /** The k-th stamp is the latest of the peer at or before the instant; of simultaneous ones the last recorded. */
  ghost predicate LatestStamp(stamps: seq<Stamp>, offsets: Offsets, peer: Peer, at: real, k: nat) {
    && k < |stamps| && stamps[k].peer == peer && StampInstant(offsets, stamps[k]) <= at
    && forall j :: 0 <= j < |stamps| && stamps[j].peer == peer && StampInstant(offsets, stamps[j]) <= at ==>
         || StampInstant(offsets, stamps[j]) < StampInstant(offsets, stamps[k])
         || (StampInstant(offsets, stamps[j]) == StampInstant(offsets, stamps[k]) && j <= k)
  }

  function OnBasis(stamps: seq<Stamp>, offsets: Offsets): (r: seq<Stamp>)
    ensures |r| == |stamps| && forall i :: 0 <= i < |r| ==> r[i] == CorrectStamp(offsets, stamps[i])
  {
    seq(|stamps|, i requires 0 <= i < |stamps| => CorrectStamp(offsets, stamps[i]))
  }

  lemma TimelineIsSorted(stamps: seq<Stamp>, offsets: Offsets)
    ensures Timeline(stamps, offsets) == StableSort(Earlier, OnBasis(stamps, offsets))
  {
    assert OnBasis(stamps, offsets) == seq(|stamps|, i requires 0 <= i < |stamps| => CorrectStamp(offsets, stamps[i]));
  }

  /** The timeline holds each stamp, put on the basis clock. */
  lemma TimelineMember(stamps: seq<Stamp>, offsets: Offsets, s: Stamp)
    ensures s in Timeline(stamps, offsets)
            <==> exists k :: 0 <= k < |stamps| && s == stamps[k].(wall := StampInstant(offsets, stamps[k]))
  {
    TimelineIsSorted(stamps, offsets);
    var basis := OnBasis(stamps, offsets);
    if s in basis { var k :| 0 <= k < |basis| && basis[k] == s; }
    if k :| 0 <= k < |stamps| && s == stamps[k].(wall := StampInstant(offsets, stamps[k])) { assert basis[k] == s; }
  }

  function LastOf(s: seq<Stamp>, peer: Peer): Option<Stamp> {
    if s == [] then None
    else if s[|s| - 1].peer == peer then Some(s[|s| - 1]) else LastOf(s[..|s| - 1], peer)
  }

  lemma LastOfTies(s: seq<Stamp>, y: Stamp, x: Stamp, peer: Peer)
    ensures var ties := EqualTo(Earlier, s, x);
            LastOf(EqualTo(Earlier, s + [y], x), peer) == if y.wall == x.wall && y.peer == peer then Some(y) else LastOf(ties, peer)
  {
    var ties := EqualTo(Earlier, s, x);
    EqualToJoin(Earlier, s, y, x);
    assert (ties + [y])[..|ties|] == ties;
    assert Ties(Earlier, x, y) <==> y.wall == x.wall;
    assert ties + [] == ties;
  }

  /** The last of the peer among the stamps at the same instant as x. */
  lemma {:induction false} LastTie(s: seq<Stamp>, x: Stamp, peer: Peer) returns (k: nat)
    requires LastOf(EqualTo(Earlier, s, x), peer).Some?
    ensures k < |s| && LastOf(EqualTo(Earlier, s, x), peer) == Some(s[k]) && s[k].wall == x.wall && s[k].peer == peer
    ensures forall j :: k < j < |s| ==> !(s[j].wall == x.wall && s[j].peer == peer)
  {
    var init, last := s[..|s| - 1], s[|s| - 1];
    assert s == init + [last];
    LastOfTies(init, last, x, peer);
    if last.wall == x.wall && last.peer == peer {
      k := |s| - 1;
    } else {
      k := LastTie(init, x, peer);
    }
  }

  /** In the timeline: the last stamp of the peer at or before the instant. */
  lemma {:induction false} IdentityFound(tl: seq<Stamp>, peer: Peer, at: real) returns (i: int)
    ensures i == -1 ==> IdentityAt(tl, peer, at) == None && forall j :: 0 <= j < |tl| ==> !(tl[j].peer == peer && tl[j].wall <= at)
    ensures i != -1 ==> && 0 <= i < |tl| && tl[i].peer == peer && tl[i].wall <= at && IdentityAt(tl, peer, at) == Some(tl[i].self)
                        && forall j :: i < j < |tl| ==> !(tl[j].peer == peer && tl[j].wall <= at)
  {
    if tl == [] {
      i := -1;
    } else if tl[|tl| - 1].peer == peer && tl[|tl| - 1].wall <= at {
      i := |tl| - 1;
    } else {
      i := IdentityFound(tl[..|tl| - 1], peer, at);
    }
  }

  lemma {:induction false} LastTieInSorted(tl: seq<Stamp>, i: nat, peer: Peer, n: nat)
    requires i < n <= |tl| && tl[i].peer == peer
    requires forall j :: i < j < n ==> !(tl[j].peer == peer && tl[j].wall == tl[i].wall)
    ensures LastOf(EqualTo(Earlier, tl[..n], tl[i]), peer) == Some(tl[i])
    decreases n
  {
    assert tl[..n] == tl[..n - 1] + [tl[n - 1]];
    LastOfTies(tl[..n - 1], tl[n - 1], tl[i], peer);
    if i < n - 1 { LastTieInSorted(tl, i, peer, n - 1); }
  }

  lemma EarlierIsPreorder()
    ensures TotalPreorder(Earlier)
  {
  }

  lemma NoStampBy(stamps: seq<Stamp>, offsets: Offsets, peer: Peer, at: real, j: nat)
    requires j < |stamps| && stamps[j].peer == peer
    requires var tl := Timeline(stamps, offsets); forall n :: 0 <= n < |tl| ==> !(tl[n].peer == peer && tl[n].wall <= at)
    ensures StampInstant(offsets, stamps[j]) > at
  {
    var s := stamps[j].(wall := StampInstant(offsets, stamps[j]));
    TimelineMember(stamps, offsets, s);
    hide Timeline;
    var n :| 0 <= n < |Timeline(stamps, offsets)| && Timeline(stamps, offsets)[n] == s;
  }

  /** A stamp found last in the timeline is the latest, and of simultaneous ones the last recorded. */
  lemma FoundIsLatest(stamps: seq<Stamp>, offsets: Offsets, peer: Peer, at: real, i: nat) returns (k: nat)
    requires var tl := Timeline(stamps, offsets);
             && Sorted(Earlier, tl) && i < |tl| && tl[i].peer == peer && tl[i].wall <= at
             && forall j :: i < j < |tl| ==> !(tl[j].peer == peer && tl[j].wall <= at)
    ensures LatestStamp(stamps, offsets, peer, at, k) && stamps[k].self == Timeline(stamps, offsets)[i].self
  {
    var tl, basis := Timeline(stamps, offsets), OnBasis(stamps, offsets);
    var x := tl[i];
    TimelineIsSorted(stamps, offsets);
    EarlierIsPreorder();
    LastTieInSorted(tl, i, peer, |tl|);
    assert tl[..|tl|] == tl;
    SortIsStable(Earlier, basis, x);
    k := LastTie(basis, x, peer);
    assert basis[k] == x;
    hide OnBasis, Timeline, EqualTo, LastOf, StableSort;
    forall j | 0 <= j < |stamps| && stamps[j].peer == peer && StampInstant(offsets, stamps[j]) <= at
      ensures StampInstant(offsets, stamps[j]) < StampInstant(offsets, stamps[k])
              || (StampInstant(offsets, stamps[j]) == StampInstant(offsets, stamps[k]) && j <= k)
    {
      assert basis[j] in basis && basis[j] in tl;
      NotLaterThan(tl, i, basis[j], peer, at);
    }
  }

  /** The identity at an instant is that of the latest stamp of the peer by then, or none. */
  lemma IdentityMeans(stamps: seq<Stamp>, offsets: Offsets, peer: Peer, at: real) returns (k: int)
    ensures var id := IdentityAt(Timeline(stamps, offsets), peer, at);
            && (k == -1 ==> id == None && forall j :: 0 <= j < |stamps| && stamps[j].peer == peer ==> StampInstant(offsets, stamps[j]) > at)
            && (k != -1 ==> k >= 0 && LatestStamp(stamps, offsets, peer, at, k) && id == Some(stamps[k].self))
  {
    TimelineSorted(stamps, offsets);
    hide Timeline, StampInstant, LatestStamp, IdentityAt;
    var i := IdentityFound(Timeline(stamps, offsets), peer, at);
    if i == -1 {
      k := -1;
      forall j | 0 <= j < |stamps| && stamps[j].peer == peer ensures StampInstant(offsets, stamps[j]) > at {
        NoStampBy(stamps, offsets, peer, at, j);
      }
    } else {
      k := FoundIsLatest(stamps, offsets, peer, at, i);
      LatestInRange(stamps, offsets, peer, at, k);
    }
  }

  lemma LatestInRange(stamps: seq<Stamp>, offsets: Offsets, peer: Peer, at: real, k: nat)
    requires LatestStamp(stamps, offsets, peer, at, k)
    ensures k < |stamps|
  {
  }

  lemma NotLaterThan(tl: seq<Stamp>, i: nat, s: Stamp, peer: Peer, at: real)
    requires Sorted(Earlier, tl) && i < |tl| && s in tl && s.peer == peer && s.wall <= at
    requires forall j :: i < j < |tl| ==> !(tl[j].peer == peer && tl[j].wall <= at)
    ensures s.wall <= tl[i].wall
  {
    var n :| 0 <= n < |tl| && tl[n] == s;
    assert n < i ==> Earlier(tl[n], tl[i]);
  }

  // ---- topics, requirements, window ends ---------------------------------------------------

  predicate Maps(e: Event, name: string) {
    e.TopicMap? && e.name == name && name != "" && DT.Known(e.topicId)
  }

  /** A topic name stands for the id of the last event that maps it. */
  lemma {:induction false} TopicMeans(events: seq<Event>, name: string) returns (i: int)
    ensures i == -1 ==> TopicNamed(TopicsOf(events), name) == None && forall j :: 0 <= j < |events| ==> !Maps(events[j], name)
    ensures i != -1 ==> && 0 <= i < |events| && Maps(events[i], name) && (forall j :: i < j < |events| ==> !Maps(events[j], name))
                        && TopicNamed(TopicsOf(events), name) == DT.Pfx(events[i].topicId)
  {
    if events == [] {
      i := -1;
    } else if Maps(events[|events| - 1], name) {
      i := |events| - 1;
    } else {
      i := TopicMeans(events[..|events| - 1], name);
    }
  }

  /** Required of a topic: the peers of the requirements whose topic name stands for it. */
  lemma {:induction false} RequiredMeans(events: seq<Event>, topics: map<string, Name>, topic: Name, p: Peer)
    ensures topic in RequiredOf(events, topics) && p in RequiredOf(events, topics)[topic]
            <==> DT.Known(topic) && exists e :: e in events && e.Required? && e.peer == p && TopicNamed(topics, e.topic) == topic
  {
    if events != [] {
      var init, last := events[..|events| - 1], events[|events| - 1];
      RequiredMeans(init, topics, topic, p);
      assert events == init + [last];
      assert forall e :: e in events <==> e in init || e == last;
    }
  }

  predicate Closes(e: Event, peer: Peer) {
    e.WindowEnd? && e.peer == peer && e.wall.Some?
  }

  ghost predicate LastClose(events: seq<Event>, peer: Peer, n: nat) {
    n < |events| && Closes(events[n], peer) && forall j :: n < j < |events| ==> !Closes(events[j], peer)
  }

  /** A peer's window ends where its last such event says. */
  lemma {:induction false} WindowEndMeans(events: seq<Event>, offsets: Offsets, peer: Peer)
    ensures peer !in WindowEndsOf(events, offsets) <==> forall j :: 0 <= j < |events| ==> !Closes(events[j], peer)
    ensures forall n: nat :: LastClose(events, peer, n) ==>
              peer in WindowEndsOf(events, offsets) && WindowEndsOf(events, offsets)[peer] == Instant(offsets, events[n])
    ensures peer in WindowEndsOf(events, offsets) ==> exists n: nat :: LastClose(events, peer, n)
  {
    if events != [] {
      var init, last := events[..|events| - 1], |events| - 1;
      WindowEndMeans(init, offsets, peer);
      if Closes(events[last], peer) {
        assert LastClose(events, peer, last);
      } else {
        assert forall n: nat :: LastClose(events, peer, n) ==> n < last && LastClose(init, peer, n);
        if n: nat :| LastClose(init, peer, n) { assert LastClose(events, peer, n); }
      }
    }
  }

  // ---- activity -----------------------------------------------------------------------------

  predicate Begins(e: Event, peer: Peer, topic: Name) {
    e.Activate? && e.peer == peer && DT.Pfx(e.topicId) == topic && DT.Known(topic) && e.wall.Some?
  }

  /** The activation that counts for a reader is the last one in the log. */
  ghost predicate LastBegin(events: seq<Event>, peer: Peer, topic: Name, i: nat) {
    i < |events| && Begins(events[i], peer, topic) && forall j :: i < j < |events| ==> !Begins(events[j], peer, topic)
  }

  lemma {:induction false} OpenedMeans(events: seq<Event>, tl: seq<Stamp>, offsets: Offsets, peer: Peer, topic: Name)
    ensures Key(peer, topic) !in OpenedBy(events, tl, offsets) <==> forall j :: 0 <= j < |events| ==> !Begins(events[j], peer, topic)
    ensures forall i: nat :: LastBegin(events, peer, topic, i) ==>
              && Key(peer, topic) in OpenedBy(events, tl, offsets)
              && OpenedBy(events, tl, offsets)[Key(peer, topic)] == OpenedInterval(tl, offsets, events[i])
  {
    hide OpenedInterval;
    if events != [] {
      var init, last := events[..|events| - 1], |events| - 1;
      OpenedMeans(init, tl, offsets, peer, topic);
      if !Begins(events[last], peer, topic) {
        assert forall i: nat :: LastBegin(events, peer, topic, i) ==> i < last && LastBegin(init, peer, topic, i);
      }
    }
  }

  /** After `from` and up to `upTo` the peer shows no identity but `node`. */
  ghost predicate StillSame(stamps: seq<Stamp>, offsets: Offsets, peer: Peer, node: Name, from: real, upTo: real) {
    forall j :: 0 <= j < |stamps| && stamps[j].peer == peer && from < StampInstant(offsets, stamps[j]) <= upTo ==> Some(stamps[j].self) == node
  }

  ghost predicate AlwaysSame(stamps: seq<Stamp>, offsets: Offsets, peer: Peer, node: Name, from: real) {
    forall j :: 0 <= j < |stamps| && stamps[j].peer == peer && from < StampInstant(offsets, stamps[j]) ==> Some(stamps[j].self) == node
  }

  predicate Unsubscribes(e: Event, peer: Peer, topic: Name, topics: map<string, Name>) {
    e.SubEnd? && e.peer == peer && e.wall.Some? && TopicNamed(topics, e.topic) == topic
  }

  lemma InTimeline(stamps: seq<Stamp>, offsets: Offsets, k: nat) returns (i: nat)
    requires k < |stamps|
    ensures i < |Timeline(stamps, offsets)|
    ensures Timeline(stamps, offsets)[i] == stamps[k].(wall := StampInstant(offsets, stamps[k]))
  {
    TimelineMember(stamps, offsets, stamps[k].(wall := StampInstant(offsets, stamps[k])));
    hide Timeline;
    i :| 0 <= i < |Timeline(stamps, offsets)| && Timeline(stamps, offsets)[i] == stamps[k].(wall := StampInstant(offsets, stamps[k]));
  }

  lemma FromStamps(stamps: seq<Stamp>, offsets: Offsets, i: nat) returns (k: nat)
    requires i < |Timeline(stamps, offsets)|
    ensures k < |stamps| && Timeline(stamps, offsets)[i] == stamps[k].(wall := StampInstant(offsets, stamps[k]))
  {
    TimelineMember(stamps, offsets, Timeline(stamps, offsets)[i]);
    hide Timeline;
    k :| 0 <= k < |stamps| && Timeline(stamps, offsets)[i] == stamps[k].(wall := StampInstant(offsets, stamps[k]));
  }

  lemma ChangesMean(stamps: seq<Stamp>, offsets: Offsets, peer: Peer, node: Name, from: real, ts: real)
    ensures var tl := Timeline(stamps, offsets);
            StillSame(stamps, offsets, peer, node, from, ts)
            <==> forall i :: (0 <= i < |tl| && Changes(tl[i], peer, node, from)) ==> tl[i].wall > ts
    ensures var tl := Timeline(stamps, offsets);
            AlwaysSame(stamps, offsets, peer, node, from) <==> forall i :: 0 <= i < |tl| ==> !Changes(tl[i], peer, node, from)
  {
    hide Timeline, StampInstant;
    var tl := Timeline(stamps, offsets);
    forall i | 0 <= i < |tl| && Changes(tl[i], peer, node, from)
      ensures StillSame(stamps, offsets, peer, node, from, ts) ==> tl[i].wall > ts
      ensures !AlwaysSame(stamps, offsets, peer, node, from)
    {
      var k := FromStamps(stamps, offsets, i);
    }
    forall k | 0 <= k < |stamps| && stamps[k].peer == peer && from < StampInstant(offsets, stamps[k]) && Some(stamps[k].self) != node
      ensures exists i :: 0 <= i < |tl| && Changes(tl[i], peer, node, from) && tl[i].wall == StampInstant(offsets, stamps[k])
    {
      var i := InTimeline(stamps, offsets, k);
      assert Changes(tl[i], peer, node, from);
    }
  }

  lemma {:induction false} NoFirstChange(tl: seq<Stamp>, peer: Peer, node: Name, from: real)
    ensures FirstChange(tl, peer, node, from).None? <==> forall i :: 0 <= i < |tl| ==> !Changes(tl[i], peer, node, from)
  {
    if tl != [] {
      NoFirstChange(tl[1..], peer, node, from);
      assert forall i :: 1 <= i < |tl| ==> tl[i] == tl[1..][i - 1];
    }
  }

  /** An opened interval covers an instant when no identity change has come by then. */
  lemma OpenedInside(tl: seq<Stamp>, peer: Peer, iv: Interval, ts: real)
    requires Sorted(Earlier, tl) && iv.to == FirstChange(tl, peer, iv.node, iv.from)
    ensures Inside(iv, ts) <==> iv.from <= ts && forall i :: 0 <= i < |tl| && Changes(tl[i], peer, iv.node, iv.from) ==> tl[i].wall > ts
  {
    SteadyUntilFirstChange(tl, peer, iv.node, iv.from);
    NoFirstChange(tl, peer, iv.node, iv.from);
    if iv.to.Some? { FirstChangeIsAChange(tl, peer, iv.node, iv.from); }
  }

  lemma EndsAgree(e: Event, peer: Peer, topic: Name, topics: map<string, Name>)
    ensures EndsOn(e, Key(peer, topic), topics) <==> Unsubscribes(e, peer, topic, topics)
  {
  }

  lemma CappedInside(k: Key, iv: Interval, ends: map<Peer, real>, ts: real)
    ensures Inside(Capped(k, iv, ends), ts) <==> Inside(iv, ts) && (iv.to.None? && k.peer in ends ==> ts < ends[k.peer])
  {
  }

  /** Nothing but a window's end can close this reader's interval. */
  ghost predicate OpenEnded(events: seq<Event>, stamps: seq<Stamp>, offsets: Offsets, peer: Peer, topic: Name, node: Name, begin: real) {
    AlwaysSame(stamps, offsets, peer, node, begin) && forall e :: e in events ==> !Unsubscribes(e, peer, topic, TopicsOf(events))
  }

  ghost predicate StillSubscribed(events: seq<Event>, offsets: Offsets, peer: Peer, topic: Name, ts: real) {
    forall e :: e in events && Unsubscribes(e, peer, topic, TopicsOf(events)) ==> ts < Instant(offsets, e)
  }

  ghost predicate WindowOpen(events: seq<Event>, offsets: Offsets, peer: Peer, ts: real) {
    forall n: nat :: LastClose(events, peer, n) ==> ts < Instant(offsets, events[n])
  }

  lemma EndsMean(events: seq<Event>, offsets: Offsets, peer: Peer, topic: Name, ts: real)
    ensures NotYetEnded(events, Key(peer, topic), TopicsOf(events), offsets, ts) <==> StillSubscribed(events, offsets, peer, topic, ts)
    ensures (forall e :: e in events ==> !EndsOn(e, Key(peer, topic), TopicsOf(events)))
            <==> forall e :: e in events ==> !Unsubscribes(e, peer, topic, TopicsOf(events))
  {
    hide TopicsOf;
    forall e ensures EndsOn(e, Key(peer, topic), TopicsOf(events)) <==> Unsubscribes(e, peer, topic, TopicsOf(events)) {
      EndsAgree(e, peer, topic, TopicsOf(events));
    }
    forall e: Event | e.SubEnd? && e.wall.Some? ensures Corrected(offsets, e.host, e.wall.value) == Instant(offsets, e) {}
  }

  lemma WindowMeans(events: seq<Event>, offsets: Offsets, peer: Peer, ts: real)
    ensures WindowOpen(events, offsets, peer, ts) <==> (peer in WindowEndsOf(events, offsets) ==> ts < WindowEndsOf(events, offsets)[peer])
  {
    hide WindowEndsOf;
    WindowEndMeans(events, offsets, peer);
  }

  /** The interval of a reader covers an instant when its opened interval does and nothing has closed it by then. */
  lemma IntervalExactly(events: seq<Event>, stamps: seq<Stamp>, offsets: Offsets, peer: Peer, topic: Name, i: nat, ts: real)
    requires LastBegin(events, peer, topic, i)
    ensures var tl, k := Timeline(stamps, offsets), Key(peer, topic);
            var begun := OpenedInterval(tl, offsets, events[i]);
            && k in IntervalsOf(events, tl, offsets) && IntervalsOf(events, tl, offsets)[k].node == begun.node
            && (Inside(IntervalsOf(events, tl, offsets)[k], ts)
                <==> Inside(begun, ts) && StillSubscribed(events, offsets, peer, topic, ts)
                     && (begun.to.None? && (forall e :: e in events ==> !Unsubscribes(e, peer, topic, TopicsOf(events)))
                         ==> WindowOpen(events, offsets, peer, ts)))
  {
    var tl, k := Timeline(stamps, offsets), Key(peer, topic);
    OpenedMeans(events, tl, offsets, peer, topic);
    IntervalIsOwn(events, tl, offsets, k);
    var begun := OpenedInterval(tl, offsets, events[i]);
    EndsMean(events, offsets, peer, topic, ts);
    WindowMeans(events, offsets, peer, ts);
    InsideOwn(begun, k, events, TopicsOf(events), offsets, ts);
    CappedInside(k, CloseOwn(begun, k, events, TopicsOf(events), offsets), WindowEndsOf(events, offsets), ts);
    OwnKeepsNode(begun, k, events, TopicsOf(events), offsets);
    hide Timeline, IntervalsOf, OpenedBy, CloseOwn, WindowEndsOf, TopicsOf, Inside, OpenedInterval, LastBegin, NotYetEnded, StillSubscribed,
         WindowOpen;
  }

  lemma {:induction false} OwnKeepsNode(iv: Interval, k: Key, events: seq<Event>, topics: map<string, Name>, offsets: Offsets)
    ensures CloseOwn(iv, k, events, topics, offsets).node == iv.node
  {
    if events != [] { OwnKeepsNode(iv, k, events[..|events| - 1], topics, offsets); }
  }

  lemma BeginMeans(stamps: seq<Stamp>, offsets: Offsets, e: Event, peer: Peer, topic: Name, ts: real)
    requires Begins(e, peer, topic)
    ensures var tl, begin := Timeline(stamps, offsets), Instant(offsets, e);
            var node := IdentityAt(tl, peer, begin);
            var begun := OpenedInterval(tl, offsets, e);
            && begun.node == node && (begun.to.None? <==> AlwaysSame(stamps, offsets, peer, node, begin))
            && (Inside(begun, ts) <==> begin <= ts && StillSame(stamps, offsets, peer, node, begin, ts))
  {
    var tl, begin := Timeline(stamps, offsets), Instant(offsets, e);
    var node := IdentityAt(tl, peer, begin);
    TimelineSorted(stamps, offsets);
    OpenedInside(tl, peer, OpenedInterval(tl, offsets, e), ts);
    NoFirstChange(tl, peer, node, begin);
    ChangesMean(stamps, offsets, peer, node, begin, ts);
    hide Timeline, IdentityAt, FirstChange, StillSame, AlwaysSame, Inside;
  }

  /**
   * When a reader is active, read off the log: its last activation has begun, no other identity has shown
   * since, every recorded unsubscribe of it is still to come, and, if neither ever closes it, so is the end
   * of its peer's window.
   */
  lemma ActiveExactly(s: Sets, events: seq<Event>, stamps: seq<Stamp>, offsets: Offsets, peer: Peer, topic: Name, i: nat, ts: real)
    requires IsSetsOf(s, events, stamps, offsets, s.band) && LastBegin(events, peer, topic, i)
    ensures var begin := Instant(offsets, events[i]);
            var node := IdentityAt(s.timeline, peer, begin);
            && StateOf(s, peer, topic, ts).node == node
            && (StateOf(s, peer, topic, ts).active
                <==> && begin <= ts && StillSame(stamps, offsets, peer, node, begin, ts)
                     && StillSubscribed(events, offsets, peer, topic, ts)
                     && (OpenEnded(events, stamps, offsets, peer, topic, node, begin) ==> WindowOpen(events, offsets, peer, ts)))
  {
    InsideIsStable(s, events, stamps, offsets, peer, topic, ts);
    IntervalExactly(events, stamps, offsets, peer, topic, i, ts);
    BeginMeans(stamps, offsets, events[i], peer, topic, ts);
    hide Timeline, IdentityAt, IntervalsOf, TopicsOf, Inside, OpenedInterval, StillSubscribed, WindowOpen, StillSame, AlwaysSame, RequiredOf,
         NearBoundary;
  }

  /** Without an activation in the log a reader is never active, has no node and is at no boundary. */
  lemma NeverActivated(s: Sets, events: seq<Event>, stamps: seq<Stamp>, offsets: Offsets, peer: Peer, topic: Name, ts: real)
    requires IsSetsOf(s, events, stamps, offsets, s.band) && forall j :: 0 <= j < |events| ==> !Begins(events[j], peer, topic)
    ensures StateOf(s, peer, topic, ts) == PeerState(false, None, false)
  {
    OpenedMeans(events, s.timeline, offsets, peer, topic);
    ClosedKeepsStart(OpenedBy(events, s.timeline, offsets), events, TopicsOf(events), offsets, Key(peer, topic));
  }

  /** At a boundary: less than the band away from where the interval begins or ends. */
  lemma BoundaryMeans(s: Sets, peer: Peer, topic: Name, ts: real)
    requires Key(peer, topic) in s.intervals
    ensures var iv := s.intervals[Key(peer, topic)];
            StateOf(s, peer, topic, ts).boundary
            <==> -s.band < ts - iv.from < s.band || (iv.to.Some? && -s.band < ts - iv.to.value < s.band)
  {
  }

  /** There is a lifecycle to go by when something is required or activated. */
  lemma LifecycleMeans(events: seq<Event>)
    ensures HasLifecycle(events) <==> exists i :: 0 <= i < |events| && (events[i].Required? || events[i].Activate?)
  {
    if e :| e in events && (e.Required? || e.Activate?) { var i :| 0 <= i < |events| && events[i] == e; }
  }
}
