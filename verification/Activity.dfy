/**
 * Who was subscribed, and as which node, at each instant: activation intervals rebuilt from
 * the harness lifecycle and the identity timeline (harness/reconcile-delivery.mjs, `buildSets`).
 * An absent upper end stands for the source's Infinity.
 */
module Activity {
  import opened Prelude
  import opened Sorting
  import DT = DeliveryTree

  type Name = DT.Name
  type Peer = string
  type Offsets = map<string, real>

  /** One observed identity of a peer; `wall` is raw until it is put on the common basis. */
  datatype Stamp = Stamp(peer: Peer, host: string, self: string, wall: real)

  datatype Event =
    | TopicMap(name: string, topicId: Name)
    | Required(peer: Peer, topic: string)
    | Activate(peer: Peer, host: string, topicId: Name, wall: Option<real>)
    | SubEnd(peer: Peer, host: string, topic: string, wall: Option<real>)
    | WindowEnd(peer: Peer, host: string, wall: Option<real>)

  datatype Key = Key(peer: Peer, topic: Name)

  datatype Interval = Interval(from: real, to: Option<real>, node: Name)

  datatype PeerState = PeerState(active: bool, node: Name, boundary: bool)

  datatype Sets = Sets(
    required: map<Name, set<Peer>>,
    intervals: map<Key, Interval>,
    timeline: seq<Stamp>,
    band: real)

  function Corrected(offsets: Offsets, host: string, wall: real): real {
    wall - (if host in offsets then offsets[host] else 0.0)
  }

  function CorrectStamp(offsets: Offsets, s: Stamp): Stamp {
    s.(wall := Corrected(offsets, s.host, s.wall))
  }

  predicate Earlier(a: Stamp, b: Stamp) {
    a.wall <= b.wall
  }

  function Timeline(stamps: seq<Stamp>, offsets: Offsets): seq<Stamp> {
    StableSort(Earlier, seq(|stamps|, i requires 0 <= i < |stamps| => CorrectStamp(offsets, stamps[i])))
  }

  // ---- identity at an instant ----------------------------------------------

  /** The last identity `peer` showed at or before `ts`. */
  ghost function IdentityAt(tl: seq<Stamp>, peer: Peer, ts: real): Name {
    if tl == [] then None
    else
      var last := tl[|tl| - 1];
      if last.peer == peer && last.wall <= ts then Some(last.self) else IdentityAt(tl[..|tl| - 1], peer, ts)
  }

  /** The walk stops at the first later stamp, which is right only because the timeline is sorted. */
  method SelfAt(tl: seq<Stamp>, peer: Peer, ts: real) returns (best: Name)
    requires Sorted(Earlier, tl)
    ensures best == IdentityAt(tl, peer, ts)
  {
    best := None;
    for i := 0 to |tl|
      invariant best == IdentityAt(tl[..i], peer, ts)
    {
      var s := tl[i];
      assert tl[..i + 1][..i] == tl[..i];
      if s.peer != peer { continue; }
      if s.wall <= ts {
        best := Some(s.self);
      } else {
        LaterStampsDoNotCount(tl, peer, ts, i);
        return;
      }
    }
    assert tl[..|tl|] == tl;
  }

  lemma {:induction false} LaterStampsDoNotCount(tl: seq<Stamp>, peer: Peer, ts: real, i: nat)
    requires Sorted(Earlier, tl) && i < |tl| && tl[i].wall > ts
    ensures IdentityAt(tl, peer, ts) == IdentityAt(tl[..i], peer, ts)
  {
    var init := tl[..|tl| - 1];
    assert Earlier(tl[i], tl[|tl| - 1]) || i == |tl| - 1;
    if i < |tl| - 1 {
      LaterStampsDoNotCount(init, peer, ts, i);
      assert init[..i] == tl[..i];
    }
  }

  predicate Changes(s: Stamp, peer: Peer, node: Name, from: real) {
    s.peer == peer && s.wall > from && Some(s.self) != node
  }

  ghost function FirstChange(tl: seq<Stamp>, peer: Peer, node: Name, from: real): Option<real> {
    if tl == [] then None
    else if Changes(tl[0], peer, node, from) then Some(tl[0].wall)
    else FirstChange(tl[1..], peer, node, from)
  }

  method NextSelfChangeAfter(tl: seq<Stamp>, peer: Peer, node: Name, from: real) returns (out: Option<real>)
    ensures out == FirstChange(tl, peer, node, from)
  {
    for i := 0 to |tl|
      invariant FirstChange(tl, peer, node, from) == FirstChange(tl[i..], peer, node, from)
    {
      var s := tl[i];
      if s.peer != peer { continue; }
      if s.wall > from && Some(s.self) != node { return Some(s.wall); }
    }
    return None;
  }

  /** `peer` shows no identity but `node` after `from` and before `to`. */
  ghost predicate Steady(tl: seq<Stamp>, peer: Peer, node: Name, from: real, to: Option<real>) {
    forall i :: 0 <= i < |tl| && Changes(tl[i], peer, node, from) ==> to.Some? && to.value <= tl[i].wall
  }

  lemma {:induction false} SteadyUntilFirstChange(tl: seq<Stamp>, peer: Peer, node: Name, from: real)
    requires Sorted(Earlier, tl)
    ensures Steady(tl, peer, node, from, FirstChange(tl, peer, node, from))
  {
    if tl != [] {
      if Changes(tl[0], peer, node, from) {
        forall i | 0 <= i < |tl| ensures tl[0].wall <= tl[i].wall { assert i == 0 || Earlier(tl[0], tl[i]); }
      } else {
        SteadyUntilFirstChange(tl[1..], peer, node, from);
        assert forall i :: 1 <= i < |tl| ==> tl[i] == tl[1..][i - 1];
      }
    }
  }

  /** Within a steady stretch the identity stays the one the peer had when it began. */
  lemma {:induction false} SteadyIdentity(tl: seq<Stamp>, peer: Peer, node: Name, from: real, to: Option<real>, ts: real)
    requires Sorted(Earlier, tl)
    requires node == IdentityAt(tl, peer, from) && Steady(tl, peer, node, from, to)
    requires from <= ts && (to.Some? ==> ts < to.value)
    ensures IdentityAt(tl, peer, ts) == node
  {
    if tl != [] {
      var init, last := tl[..|tl| - 1], tl[|tl| - 1];
      if !(last.peer == peer && last.wall <= ts) {
        assert forall i :: 0 <= i < |init| ==> init[i] == tl[i];
        SteadyIdentity(init, peer, node, from, to, ts);
      } else {
        assert !Changes(last, peer, node, from);
      }
    }
  }

  // ---- what the lifecycle says, event by event -------------------------------

  ghost function TopicsOf(events: seq<Event>): map<string, Name> {
    if events == [] then map[]
    else
      var before, e := TopicsOf(events[..|events| - 1]), events[|events| - 1];
      if e.TopicMap? && DT.Known(e.topicId) && e.name != "" then before[e.name := DT.Pfx(e.topicId)] else before
  }

  function TopicNamed(topics: map<string, Name>, name: string): Name {
    if name in topics then topics[name] else None
  }

  /** Peers required for a topic: a required topic whose name never resolved adds nothing. */
  ghost function RequiredOf(events: seq<Event>, topics: map<string, Name>): map<Name, set<Peer>> {
    if events == [] then map[]
    else
      var before, e := RequiredOf(events[..|events| - 1], topics), events[|events| - 1];
      if e.Required? && DT.Known(TopicNamed(topics, e.topic)) then
        var tp := TopicNamed(topics, e.topic);
        before[tp := (if tp in before then before[tp] else {}) + {e.peer}]
      else before
  }

  ghost function WindowEndsOf(events: seq<Event>, offsets: Offsets): map<Peer, real> {
    if events == [] then map[]
    else
      var before, e := WindowEndsOf(events[..|events| - 1], offsets), events[|events| - 1];
      if e.WindowEnd? && e.wall.Some? then before[e.peer := Corrected(offsets, e.host, e.wall.value)] else before
  }

  predicate Opens(e: Event) {
    e.Activate? && DT.Known(DT.Pfx(e.topicId)) && e.wall.Some?
  }

  ghost function OpenedInterval(tl: seq<Stamp>, offsets: Offsets, e: Event): Interval
    requires Opens(e)
  {
    var from := Corrected(offsets, e.host, e.wall.value);
    var node := IdentityAt(tl, e.peer, from);
    Interval(from, FirstChange(tl, e.peer, node, from), node)
  }

  /** A later activation of the same reader replaces the earlier one. */
  ghost function OpenedBy(events: seq<Event>, tl: seq<Stamp>, offsets: Offsets): map<Key, Interval> {
    if events == [] then map[]
    else
      var before, e := OpenedBy(events[..|events| - 1], tl, offsets), events[|events| - 1];
      if Opens(e) then before[Key(e.peer, DT.Pfx(e.topicId)) := OpenedInterval(tl, offsets, e)] else before
  }

  function Sooner(to: Option<real>, t: real): Option<real> {
    if to.None? || t <= to.value then Some(t) else to
  }

  function CloseAt(ivs: map<Key, Interval>, e: Event, topics: map<string, Name>, offsets: Offsets): map<Key, Interval>
    requires e.SubEnd?
  {
    var tp := TopicNamed(topics, e.topic);
    var k := Key(e.peer, tp);
    if DT.Known(tp) && k in ivs && e.wall.Some? then
      ivs[k := ivs[k].(to := Sooner(ivs[k].to, Corrected(offsets, e.host, e.wall.value)))]
    else ivs
  }

  ghost function ClosedBy(ivs: map<Key, Interval>, events: seq<Event>, topics: map<string, Name>, offsets: Offsets)
    : map<Key, Interval>
  {
    if events == [] then ivs
    else
      var before, e := ClosedBy(ivs, events[..|events| - 1], topics, offsets), events[|events| - 1];
      if e.SubEnd? then CloseAt(before, e, topics, offsets) else before
  }

  function Capped(k: Key, iv: Interval, ends: map<Peer, real>): Interval {
    if iv.to.None? && k.peer in ends then iv.(to := Some(ends[k.peer])) else iv
  }

  ghost function IntervalsOf(events: seq<Event>, tl: seq<Stamp>, offsets: Offsets): map<Key, Interval> {
    var closed := ClosedBy(OpenedBy(events, tl, offsets), events, TopicsOf(events), offsets);
    var ends := WindowEndsOf(events, offsets);
    map k | k in closed :: Capped(k, closed[k], ends)
  }

  // ---- buildSets ---------------------------------------------------------------

  method ReadTopics(events: seq<Event>) returns (topics: map<string, Name>)
    ensures topics == TopicsOf(events)
  {
    topics := map[];
    for i := 0 to |events|
      invariant topics == TopicsOf(events[..i])
    {
      var e := events[i];
      assert events[..i + 1][..i] == events[..i];
      if e.TopicMap? && DT.Known(e.topicId) && e.name != "" { topics := topics[e.name := DT.Pfx(e.topicId)]; }
    }
    assert events[..|events|] == events;
  }

  method ReadRequired(events: seq<Event>, topics: map<string, Name>) returns (required: map<Name, set<Peer>>)
    ensures required == RequiredOf(events, topics)
  {
    required := map[];
    for i := 0 to |events|
      invariant required == RequiredOf(events[..i], topics)
    {
      var e := events[i];
      assert events[..i + 1][..i] == events[..i];
      if e.Required? {
        var tp := TopicNamed(topics, e.topic);
        if DT.Known(tp) {
          if tp !in required { required := required[tp := {}]; }
          required := required[tp := required[tp] + {e.peer}];
        }
      }
    }
    assert events[..|events|] == events;
  }

  method ReadWindowEnds(events: seq<Event>, offsets: Offsets) returns (ends: map<Peer, real>)
    ensures ends == WindowEndsOf(events, offsets)
  {
    ends := map[];
    for i := 0 to |events|
      invariant ends == WindowEndsOf(events[..i], offsets)
    {
      var e := events[i];
      assert events[..i + 1][..i] == events[..i];
      if e.WindowEnd? && e.wall.Some? { ends := ends[e.peer := Corrected(offsets, e.host, e.wall.value)]; }
    }
    assert events[..|events|] == events;
  }

  method OpenIntervals(events: seq<Event>, tl: seq<Stamp>, offsets: Offsets) returns (ivs: map<Key, Interval>)
    requires Sorted(Earlier, tl)
    ensures ivs == OpenedBy(events, tl, offsets)
  {
    ivs := map[];
    for i := 0 to |events|
      invariant ivs == OpenedBy(events[..i], tl, offsets)
    {
      var e := events[i];
      assert events[..i + 1][..i] == events[..i];
      if !e.Activate? { continue; }
      var tp := DT.Pfx(e.topicId);
      if !DT.Known(tp) || e.wall.None? { continue; }
      var from := Corrected(offsets, e.host, e.wall.value);
      var node := SelfAt(tl, e.peer, from);
      var clamp := NextSelfChangeAfter(tl, e.peer, node, from);
      ivs := ivs[Key(e.peer, tp) := Interval(from, clamp, node)];
    }
    assert events[..|events|] == events;
  }

  method CloseIntervals(ivs0: map<Key, Interval>, events: seq<Event>, topics: map<string, Name>, offsets: Offsets)
    returns (ivs: map<Key, Interval>)
    ensures ivs == ClosedBy(ivs0, events, topics, offsets)
  {
    ivs := ivs0;
    for i := 0 to |events|
      invariant ivs == ClosedBy(ivs0, events[..i], topics, offsets)
    {
      assert events[..i + 1][..i] == events[..i];
      if events[i].SubEnd? { ivs := CloseAt(ivs, events[i], topics, offsets); }
    }
    assert events[..|events|] == events;
  }

  method CapIntervals(closed: map<Key, Interval>, ends: map<Peer, real>) returns (ivs: map<Key, Interval>)
    ensures ivs == map k | k in closed :: Capped(k, closed[k], ends)
  {
    ivs := closed;
    var todo := closed.Keys;
    while todo != {}
      invariant todo <= closed.Keys && ivs.Keys == closed.Keys
      invariant forall k :: k in closed ==> ivs[k] == if k in todo then closed[k] else Capped(k, closed[k], ends)
      decreases todo
    {
      var k :| k in todo;
      if ivs[k].to.None? && k.peer in ends { ivs := ivs[k := ivs[k].(to := Some(ends[k.peer]))]; }
      todo := todo - {k};
    }
  }

  predicate HasLifecycle(events: seq<Event>) {
    exists e :: e in events && (e.Required? || e.Activate?)
  }

  ghost predicate IsSetsOf(s: Sets, events: seq<Event>, stamps: seq<Stamp>, offsets: Offsets, band: real) {
    && s.timeline == Timeline(stamps, offsets)
    && s.required == RequiredOf(events, TopicsOf(events))
    && s.intervals == IntervalsOf(events, s.timeline, offsets)
    && s.band == band
  }

  method BuildSets(events: seq<Event>, stamps: seq<Stamp>, offsets: Offsets, band: real) returns (sets: Option<Sets>)
    ensures sets.Some? <==> HasLifecycle(events)
    ensures sets.Some? ==> IsSetsOf(sets.value, events, stamps, offsets, band)
                           && Sorted(Earlier, sets.value.timeline)
  {
    if !HasLifecycle(events) { return None; }
    var topics := ReadTopics(events);
    var tl := Timeline(stamps, offsets);
    TimelineSorted(stamps, offsets);
    var required := ReadRequired(events, topics);
    var ends := ReadWindowEnds(events, offsets);
    var started := OpenIntervals(events, tl, offsets);
    var closed := CloseIntervals(started, events, topics, offsets);
    var ivs := CapIntervals(closed, ends);
    return Some(Sets(required, ivs, tl, band));
  }

  lemma TimelineSorted(stamps: seq<Stamp>, offsets: Offsets)
    ensures Sorted(Earlier, Timeline(stamps, offsets))
  {
    SortSorts(Earlier, seq(|stamps|, i requires 0 <= i < |stamps| => CorrectStamp(offsets, stamps[i])));
  }

  // ---- activePeer -----------------------------------------------------------------

  predicate Inside(iv: Interval, ts: real) {
    ts >= iv.from && (iv.to.None? || ts < iv.to.value)
  }

  function Distance(a: real, b: real): real {
    if a < b then b - a else a - b
  }

  predicate NearBoundary(iv: Interval, ts: real, band: real) {
    Distance(ts, iv.from) < band || (iv.to.Some? && Distance(ts, iv.to.value) < band)
  }

  ghost function StateOf(s: Sets, peer: Peer, topic: Name, ts: real): PeerState {
    var k := Key(peer, topic);
    if k !in s.intervals then PeerState(false, None, false)
    else
      var iv := s.intervals[k];
      PeerState(Inside(iv, ts) && IdentityAt(s.timeline, peer, ts) == iv.node, iv.node, NearBoundary(iv, ts, s.band))
  }

  method ActivePeer(s: Sets, peer: Peer, topic: Name, ts: real) returns (st: PeerState)
    requires Sorted(Earlier, s.timeline)
    ensures st == StateOf(s, peer, topic, ts)
  {
    var k := Key(peer, topic);
    if k !in s.intervals { return PeerState(false, None, false); }
    var iv := s.intervals[k];
    var self := SelfAt(s.timeline, peer, ts);
    return PeerState(Inside(iv, ts) && self == iv.node, iv.node, NearBoundary(iv, ts, s.band));
  }

  // ---- the interval rule ------------------------------------------------------------

  /** Bound to the identity at activation, and closed no later than the next identity change. */
  ghost predicate WellBound(tl: seq<Stamp>, k: Key, iv: Interval) {
    iv.node == IdentityAt(tl, k.peer, iv.from) && Steady(tl, k.peer, iv.node, iv.from, iv.to)
  }

  ghost predicate AllWellBound(tl: seq<Stamp>, ivs: map<Key, Interval>) {
    forall k :: k in ivs ==> WellBound(tl, k, ivs[k])
  }

  lemma {:induction false} OpenedWellBound(events: seq<Event>, tl: seq<Stamp>, offsets: Offsets)
    requires Sorted(Earlier, tl)
    ensures AllWellBound(tl, OpenedBy(events, tl, offsets))
  {
    if events != [] {
      var e := events[|events| - 1];
      OpenedWellBound(events[..|events| - 1], tl, offsets);
      if Opens(e) {
        var iv := OpenedInterval(tl, offsets, e);
        SteadyUntilFirstChange(tl, e.peer, iv.node, iv.from);
      }
    }
  }

  lemma {:induction false} ClosedWellBound(tl: seq<Stamp>, ivs: map<Key, Interval>, events: seq<Event>,
                                           topics: map<string, Name>, offsets: Offsets)
    requires AllWellBound(tl, ivs)
    ensures AllWellBound(tl, ClosedBy(ivs, events, topics, offsets))
  {
    if events != [] { ClosedWellBound(tl, ivs, events[..|events| - 1], topics, offsets); }
  }

  lemma IntervalsWellBound(events: seq<Event>, tl: seq<Stamp>, offsets: Offsets)
    requires Sorted(Earlier, tl)
    ensures AllWellBound(tl, IntervalsOf(events, tl, offsets))
  {
    OpenedWellBound(events, tl, offsets);
    ClosedWellBound(tl, OpenedBy(events, tl, offsets), events, TopicsOf(events), offsets);
  }

  /**
   * For every lifecycle and timeline, being inside an interval already means the identity is the
   * one bound at activation: the separate stability test never turns an inside reader away.
   */
  lemma InsideIsStable(s: Sets, events: seq<Event>, stamps: seq<Stamp>, offsets: Offsets, peer: Peer, topic: Name, ts: real)
    requires IsSetsOf(s, events, stamps, offsets, s.band)
    ensures StateOf(s, peer, topic, ts).active
            <==> Key(peer, topic) in s.intervals && Inside(s.intervals[Key(peer, topic)], ts)
  {
    hide Steady, IdentityAt, IntervalsOf, Timeline, RequiredOf, NearBoundary;
    var k := Key(peer, topic);
    TimelineSorted(stamps, offsets);
    IntervalsWellBound(events, s.timeline, offsets);
    if k in s.intervals && Inside(s.intervals[k], ts) {
      var iv := s.intervals[k];
      assert WellBound(s.timeline, k, iv);
      SteadyIdentity(s.timeline, peer, iv.node, iv.from, iv.to, ts);
    }
  }

  /** No interval outlasts a recorded end of its own subscription. */
  lemma {:induction false} ClosedByEveryEnd(ivs: map<Key, Interval>, events: seq<Event>, topics: map<string, Name>,
                                            offsets: Offsets, e: Event, k: Key)
    requires e in events && e.SubEnd? && e.wall.Some?
    requires k == Key(e.peer, TopicNamed(topics, e.topic)) && DT.Known(k.topic) && k in ivs
    ensures var out := ClosedBy(ivs, events, topics, offsets);
            k in out && out[k].to.Some? && out[k].to.value <= Corrected(offsets, e.host, e.wall.value)
  {
    var init, last := events[..|events| - 1], events[|events| - 1];
    ClosingKeeps(ivs, init, topics, offsets, k);
    if e != last {
      assert events == init + [last];
      ClosedByEveryEnd(ivs, init, topics, offsets, e, k);
    }
  }

  lemma {:induction false} ClosingKeeps(ivs: map<Key, Interval>, events: seq<Event>, topics: map<string, Name>,
                                        offsets: Offsets, k: Key)
    requires k in ivs
    ensures k in ClosedBy(ivs, events, topics, offsets)
  {
    if events != [] { ClosingKeeps(ivs, events[..|events| - 1], topics, offsets, k); }
  }

  /** Why an interval has the upper end it has: an identity change, an unsubscribe, or the window's end. */
  ghost predicate EndExplained(iv: Interval, k: Key, tl: seq<Stamp>, events: seq<Event>, topics: map<string, Name>,
                               offsets: Offsets) {
    iv.to.Some? ==>
      || (exists i :: 0 <= i < |tl| && Changes(tl[i], k.peer, iv.node, iv.from) && tl[i].wall == iv.to.value)
      || (exists e :: e in events && e.SubEnd? && e.wall.Some? && Key(e.peer, TopicNamed(topics, e.topic)) == k
                      && Corrected(offsets, e.host, e.wall.value) == iv.to.value)
  }

  lemma {:induction false} FirstChangeIsAChange(tl: seq<Stamp>, peer: Peer, node: Name, from: real)
    requires FirstChange(tl, peer, node, from).Some?
    ensures exists i :: 0 <= i < |tl| && Changes(tl[i], peer, node, from)
                        && Some(tl[i].wall) == FirstChange(tl, peer, node, from)
  {
    if !Changes(tl[0], peer, node, from) {
      FirstChangeIsAChange(tl[1..], peer, node, from);
      var i :| 0 <= i < |tl| - 1 && Changes(tl[1..][i], peer, node, from)
               && Some(tl[1..][i].wall) == FirstChange(tl, peer, node, from);
      assert tl[i + 1] == tl[1..][i];
    }
  }

  lemma {:induction false} OpenedEndExplained(events: seq<Event>, tl: seq<Stamp>, offsets: Offsets, k: Key,
                                              topics: map<string, Name>)
    requires k in OpenedBy(events, tl, offsets)
    ensures EndExplained(OpenedBy(events, tl, offsets)[k], k, tl, [], topics, offsets)
  {
    var init, e := events[..|events| - 1], events[|events| - 1];
    if Opens(e) && k == Key(e.peer, DT.Pfx(e.topicId)) {
      var iv := OpenedInterval(tl, offsets, e);
      if iv.to.Some? { FirstChangeIsAChange(tl, e.peer, iv.node, iv.from); }
    } else {
      OpenedEndExplained(init, tl, offsets, k, topics);
    }
  }

  lemma {:induction false} ClosedEndExplained(ivs: map<Key, Interval>, events: seq<Event>, tl: seq<Stamp>,
                                              topics: map<string, Name>, offsets: Offsets, k: Key)
    requires k in ClosedBy(ivs, events, topics, offsets)
    requires k in ivs ==> EndExplained(ivs[k], k, tl, [], topics, offsets)
    ensures EndExplained(ClosedBy(ivs, events, topics, offsets)[k], k, tl, events, topics, offsets)
  {
    if events != [] {
      var init, last := events[..|events| - 1], events[|events| - 1];
      assert events == init + [last];
      ClosedEndExplained(ivs, init, tl, topics, offsets, k);
    }
  }

  /** An upper end is never invented: each is an identity change, an unsubscribe, or the window's end. */
  lemma IntervalEndExplained(events: seq<Event>, tl: seq<Stamp>, offsets: Offsets, k: Key)
    requires k in IntervalsOf(events, tl, offsets)
    ensures var iv := IntervalsOf(events, tl, offsets)[k];
            || EndExplained(iv, k, tl, events, TopicsOf(events), offsets)
            || (k.peer in WindowEndsOf(events, offsets) && iv.to == Some(WindowEndsOf(events, offsets)[k.peer]))
  {
    var topics, started := TopicsOf(events), OpenedBy(events, tl, offsets);
    if k in started { OpenedEndExplained(events, tl, offsets, k, topics); }
    ClosedEndExplained(started, events, tl, topics, offsets, k);
  }

  // ---- intervals that contain no instant ------------------------------------------------

  /** A recorded unsubscribe of this reader from this topic. */
  predicate EndsOn(e: Event, k: Key, topics: map<string, Name>) {
    e.SubEnd? && e.wall.Some? && Key(e.peer, TopicNamed(topics, e.topic)) == k
  }

  lemma {:induction false} ClosedKeepsStart(ivs: map<Key, Interval>, events: seq<Event>, topics: map<string, Name>,
                                            offsets: Offsets, k: Key)
    ensures k in ClosedBy(ivs, events, topics, offsets) <==> k in ivs
    ensures k in ivs ==>
              var out := ClosedBy(ivs, events, topics, offsets)[k];
              out.from == ivs[k].from && ((forall e :: e in events ==> !EndsOn(e, k, topics)) ==> out == ivs[k])
  {
    if events != [] {
      var init, last := events[..|events| - 1], events[|events| - 1];
      assert events == init + [last];
      ClosedKeepsStart(ivs, init, topics, offsets, k);
      if forall e :: e in events ==> !EndsOn(e, k, topics) {
        assert last in events && !EndsOn(last, k, topics);
        forall e | e in init ensures !EndsOn(e, k, topics) { assert e in events; }
      }
    }
  }

  lemma {:induction false} OpenedHasTopic(events: seq<Event>, tl: seq<Stamp>, offsets: Offsets, k: Key)
    requires k in OpenedBy(events, tl, offsets)
    ensures DT.Known(k.topic)
  {
    var e := events[|events| - 1];
    if !(Opens(e) && k == Key(e.peer, DT.Pfx(e.topicId))) { OpenedHasTopic(events[..|events| - 1], tl, offsets, k); }
  }

  /** The first identity change, when there is one, lies strictly after the start. */
  lemma ExplainedAfterStart(iv: Interval, k: Key, tl: seq<Stamp>, events: seq<Event>, topics: map<string, Name>, offsets: Offsets)
    requires EndExplained(iv, k, tl, events, topics, offsets) && iv.to.Some?
    requires forall e :: e in events && EndsOn(e, k, topics) ==> Corrected(offsets, e.host, e.wall.value) > iv.from
    ensures iv.to.value > iv.from
  {
  }

  ghost predicate Empty(iv: Interval) {
    forall ts :: !Inside(iv, ts)
  }

  lemma EmptyMeans(iv: Interval)
    ensures Empty(iv) <==> iv.to.Some? && iv.to.value <= iv.from
  {
    if Empty(iv) { assert !Inside(iv, iv.from); }
  }

  /**
   * An interval contains no instant exactly when an unsubscribe of its reader and topic was recorded at or
   * before its start, wherever in the log; or when nothing else closes it and the reader's window had ended.
   */
  lemma EmptyExactly(events: seq<Event>, tl: seq<Stamp>, offsets: Offsets, k: Key)
    requires k in IntervalsOf(events, tl, offsets)
    ensures k in OpenedBy(events, tl, offsets)
    ensures var iv, topics, ends := IntervalsOf(events, tl, offsets)[k], TopicsOf(events), WindowEndsOf(events, offsets);
            Empty(iv) <==>
              || (exists e :: e in events && EndsOn(e, k, topics) && Corrected(offsets, e.host, e.wall.value) <= iv.from)
              || (&& OpenedBy(events, tl, offsets)[k].to.None? && (forall e :: e in events ==> !EndsOn(e, k, topics))
                  && k.peer in ends && ends[k.peer] <= iv.from)
  {
    var topics, started := TopicsOf(events), OpenedBy(events, tl, offsets);
    ClosedKeepsStart(started, events, topics, offsets, k);
    OpenedHasTopic(events, tl, offsets, k);
    OpenedEndExplained(events, tl, offsets, k, topics);
    ClosedEndExplained(started, events, tl, topics, offsets, k);
    var closed := ClosedBy(started, events, topics, offsets)[k];
    EmptyMeans(IntervalsOf(events, tl, offsets)[k]);
    hide OpenedBy, ClosedBy, TopicsOf, WindowEndsOf, EndExplained, Empty;
    if e :| e in events && EndsOn(e, k, topics) {
      ClosedByEveryEnd(started, events, topics, offsets, e, k);
      if forall e :: e in events && EndsOn(e, k, topics) ==> Corrected(offsets, e.host, e.wall.value) > closed.from {
        ExplainedAfterStart(closed, k, tl, events, topics, offsets);
      } else {
        var f :| f in events && EndsOn(f, k, topics) && Corrected(offsets, f.host, f.wall.value) <= closed.from;
        ClosedByEveryEnd(started, events, topics, offsets, f, k);
      }
    } else if closed.to.Some? {
      ExplainedAfterStart(closed, k, tl, events, topics, offsets);
    }
  }

  // ---- activations that a later one replaces -----------------------------------------------

  /** An interval of one reader and topic after all recorded unsubscribes. */
  ghost function CloseOwn(iv: Interval, k: Key, events: seq<Event>, topics: map<string, Name>, offsets: Offsets): Interval {
    if events == [] then iv
    else
      var before, e := CloseOwn(iv, k, events[..|events| - 1], topics, offsets), events[|events| - 1];
      if EndsOn(e, k, topics) then before.(to := Sooner(before.to, Corrected(offsets, e.host, e.wall.value))) else before
  }

  lemma {:induction false} ClosedIsOwn(ivs: map<Key, Interval>, events: seq<Event>, topics: map<string, Name>, offsets: Offsets, k: Key)
    requires k in ivs && DT.Known(k.topic)
    ensures k in ClosedBy(ivs, events, topics, offsets)
    ensures ClosedBy(ivs, events, topics, offsets)[k] == CloseOwn(ivs[k], k, events, topics, offsets)
  {
    if events != [] { ClosedIsOwn(ivs, events[..|events| - 1], topics, offsets, k); }
  }

  /** No recorded unsubscribe of this reader and topic lies at or before the instant. */
  ghost predicate NotYetEnded(events: seq<Event>, k: Key, topics: map<string, Name>, offsets: Offsets, ts: real) {
    forall e :: e in events && EndsOn(e, k, topics) ==> ts < Corrected(offsets, e.host, e.wall.value)
  }

  lemma {:induction false} InsideOwn(iv: Interval, k: Key, events: seq<Event>, topics: map<string, Name>, offsets: Offsets, ts: real)
    ensures Inside(CloseOwn(iv, k, events, topics, offsets), ts) <==> Inside(iv, ts) && NotYetEnded(events, k, topics, offsets, ts)
    ensures CloseOwn(iv, k, events, topics, offsets).to.None?
            <==> iv.to.None? && forall e :: e in events ==> !EndsOn(e, k, topics)
  {
    if events != [] {
      var init, last := events[..|events| - 1], events[|events| - 1];
      assert events == init + [last];
      assert forall e :: e in events <==> e in init || e == last;
      InsideOwn(iv, k, init, topics, offsets, ts);
    }
  }

  function KeyOf(e: Event): Key
    requires Opens(e)
  {
    Key(e.peer, DT.Pfx(e.topicId))
  }

  /** The interval an activation would have had, had none after it in the log replaced it. */
  ghost function OwnInterval(events: seq<Event>, tl: seq<Stamp>, offsets: Offsets, e: Event): Interval
    requires Opens(e)
  {
    Capped(KeyOf(e), CloseOwn(OpenedInterval(tl, offsets, e), KeyOf(e), events, TopicsOf(events), offsets),
           WindowEndsOf(events, offsets))
  }

  lemma {:induction false} ActivatedIsOpened(events: seq<Event>, tl: seq<Stamp>, offsets: Offsets, e: Event)
    requires e in events && Opens(e)
    ensures KeyOf(e) in OpenedBy(events, tl, offsets)
  {
    var init, last := events[..|events| - 1], events[|events| - 1];
    assert events == init + [last];
    if e != last { ActivatedIsOpened(init, tl, offsets, e); }
  }

  lemma IntervalIsOwn(events: seq<Event>, tl: seq<Stamp>, offsets: Offsets, k: Key)
    requires k in OpenedBy(events, tl, offsets)
    ensures k in IntervalsOf(events, tl, offsets) && DT.Known(k.topic)
    ensures IntervalsOf(events, tl, offsets)[k]
            == Capped(k, CloseOwn(OpenedBy(events, tl, offsets)[k], k, events, TopicsOf(events), offsets), WindowEndsOf(events, offsets))
  {
    OpenedHasTopic(events, tl, offsets, k);
    ClosedIsOwn(OpenedBy(events, tl, offsets), events, TopicsOf(events), offsets, k);
  }

  /** An opened interval that covers an instant shares the identity at that instant with every other that does. */
  lemma SameIdentity(tl: seq<Stamp>, peer: Peer, a: Interval, b: Interval, ts: real)
    requires Sorted(Earlier, tl) && Inside(a, ts) && Inside(b, ts)
    requires a.node == IdentityAt(tl, peer, a.from) && a.to == FirstChange(tl, peer, a.node, a.from)
    requires b.node == IdentityAt(tl, peer, b.from) && b.to == FirstChange(tl, peer, b.node, b.from)
    ensures a.node == b.node && a.to == b.to
  {
    SteadyUntilFirstChange(tl, peer, a.node, a.from);
    SteadyUntilFirstChange(tl, peer, b.node, b.from);
    SteadyIdentity(tl, peer, a.node, a.from, a.to, ts);
    SteadyIdentity(tl, peer, b.node, b.from, b.to, ts);
    if a.to.Some? { ChangeSeen(tl, peer, a, b, ts); }
    if b.to.Some? { ChangeSeen(tl, peer, b, a, ts); }
  }

  /** The change that ends one interval ends the other no later. */
  lemma ChangeSeen(tl: seq<Stamp>, peer: Peer, a: Interval, b: Interval, ts: real)
    requires Inside(a, ts) && Inside(b, ts) && a.node == b.node && a.to.Some?
    requires a.to == FirstChange(tl, peer, a.node, a.from) && Steady(tl, peer, b.node, b.from, b.to)
    ensures b.to.Some? && b.to.value <= a.to.value
  {
    FirstChangeIsAChange(tl, peer, a.node, a.from);
    var i :| 0 <= i < |tl| && Changes(tl[i], peer, a.node, a.from) && Some(tl[i].wall) == a.to;
    assert Changes(tl[i], peer, b.node, b.from);
  }

  lemma {:induction false} OpenedByActivation(events: seq<Event>, tl: seq<Stamp>, offsets: Offsets, k: Key)
    requires k in OpenedBy(events, tl, offsets)
    ensures var iv := OpenedBy(events, tl, offsets)[k];
            iv.node == IdentityAt(tl, k.peer, iv.from) && iv.to == FirstChange(tl, k.peer, iv.node, iv.from)
  {
    var e := events[|events| - 1];
    if !(Opens(e) && k == Key(e.peer, DT.Pfx(e.topicId))) { OpenedByActivation(events[..|events| - 1], tl, offsets, k); }
  }

  /**
   * An instant inside an activation's own interval still counts exactly when the activation last in the log
   * for that reader and topic had begun by then and no other identity had shown since.
   */
  lemma ReplacedActivation(events: seq<Event>, tl: seq<Stamp>, offsets: Offsets, e: Event, ts: real)
    requires Sorted(Earlier, tl) && e in events && Opens(e) && Inside(OwnInterval(events, tl, offsets, e), ts)
    ensures KeyOf(e) in OpenedBy(events, tl, offsets) && KeyOf(e) in IntervalsOf(events, tl, offsets)
    ensures Inside(IntervalsOf(events, tl, offsets)[KeyOf(e)], ts) <==> Inside(OpenedBy(events, tl, offsets)[KeyOf(e)], ts)
  {
    var k := KeyOf(e);
    ActivatedIsOpened(events, tl, offsets, e);
    IntervalIsOwn(events, tl, offsets, k);
    OpenedByActivation(events, tl, offsets, k);
    var own, last := OpenedInterval(tl, offsets, e), OpenedBy(events, tl, offsets)[k];
    InsideOwn(own, k, events, TopicsOf(events), offsets, ts);
    InsideOwn(last, k, events, TopicsOf(events), offsets, ts);
    hide OpenedBy, IntervalsOf, CloseOwn, TopicsOf, WindowEndsOf, NotYetEnded, FirstChange, IdentityAt;
    if Inside(last, ts) { SameIdentity(tl, k.peer, own, last, ts); }
  }

  /** When the log's last activation is also no earlier in time: exactly the instants before it are lost. */
  lemma ReplacedUntilLast(events: seq<Event>, tl: seq<Stamp>, offsets: Offsets, e: Event, ts: real)
    requires Sorted(Earlier, tl) && e in events && Opens(e) && Inside(OwnInterval(events, tl, offsets, e), ts)
    requires KeyOf(e) in OpenedBy(events, tl, offsets)
    requires Corrected(offsets, e.host, e.wall.value) <= OpenedBy(events, tl, offsets)[KeyOf(e)].from
    ensures KeyOf(e) in IntervalsOf(events, tl, offsets)
    ensures Inside(IntervalsOf(events, tl, offsets)[KeyOf(e)], ts) <==> ts >= OpenedBy(events, tl, offsets)[KeyOf(e)].from
  {
    var k := KeyOf(e);
    ReplacedActivation(events, tl, offsets, e, ts);
    OpenedByActivation(events, tl, offsets, k);
    var own, last := OpenedInterval(tl, offsets, e), OpenedBy(events, tl, offsets)[k];
    InsideOwn(own, k, events, TopicsOf(events), offsets, ts);
    hide OpenedBy, IntervalsOf, CloseOwn, TopicsOf, WindowEndsOf, NotYetEnded, FirstChange, IdentityAt;
    if ts >= last.from {
      SteadyUntilFirstChange(tl, k.peer, own.node, own.from);
      SteadyIdentity(tl, k.peer, own.node, own.from, own.to, last.from);
      if last.to.Some? { LaterChange(tl, k.peer, own, last); }
    }
  }

  lemma LaterChange(tl: seq<Stamp>, peer: Peer, own: Interval, last: Interval)
    requires own.from <= last.from && own.node == last.node && Steady(tl, peer, own.node, own.from, own.to)
    requires last.to.Some? && last.to == FirstChange(tl, peer, last.node, last.from)
    ensures own.to.Some? && own.to.value <= last.to.value
  {
    FirstChangeIsAChange(tl, peer, last.node, last.from);
    var i :| 0 <= i < |tl| && Changes(tl[i], peer, last.node, last.from) && Some(tl[i].wall) == last.to;
    assert Changes(tl[i], peer, own.node, own.from);
  }
}
