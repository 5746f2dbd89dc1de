/**
 * A host's clock may run ahead by any amount: once the amount is in the offsets, nothing that is decided
 * from the host's readings changes (harness/reconcile-delivery.mjs, `buildSets` and `reconcile`).
 */
module ClockShift {
  import opened Prelude
  import opened Sorting
  import AC = Activity
  import AR = ActivityRules
  import DT = DeliveryTree
  import SC = Scoring

  /** Every reading of host h moved d ahead, and the offset with it. */
  function MoreAhead(offsets: AC.Offsets, h: string, d: real): AC.Offsets {
    offsets[h := AR.Ahead(offsets, h) + d]
  }

  function Reading(wall: real, host: string, h: string, d: real): real {
    if host == h then wall + d else wall
  }

  function ShiftedWall(wall: Option<real>, host: string, h: string, d: real): Option<real> {
    if wall.Some? then Some(Reading(wall.value, host, h, d)) else None
  }

  function ShiftedEvent(e: AC.Event, h: string, d: real): AC.Event {
    match e
    case Activate(peer, host, topicId, wall) => AC.Activate(peer, host, topicId, ShiftedWall(wall, host, h, d))
    case SubEnd(peer, host, topic, wall) => AC.SubEnd(peer, host, topic, ShiftedWall(wall, host, h, d))
    case WindowEnd(peer, host, wall) => AC.WindowEnd(peer, host, ShiftedWall(wall, host, h, d))
    case _ => e
  }

  function ShiftedEvents(events: seq<AC.Event>, h: string, d: real): (r: seq<AC.Event>)
    ensures |r| == |events| && forall i :: 0 <= i < |r| ==> r[i] == ShiftedEvent(events[i], h, d)
  {
    seq(|events|, i requires 0 <= i < |events| => ShiftedEvent(events[i], h, d))
  }

  function ShiftedStamps(stamps: seq<AC.Stamp>, h: string, d: real): (r: seq<AC.Stamp>)
    ensures |r| == |stamps| && forall i :: 0 <= i < |r| ==> r[i] == stamps[i].(wall := Reading(stamps[i].wall, stamps[i].host, h, d))
  {
    seq(|stamps|, i requires 0 <= i < |stamps| => stamps[i].(wall := Reading(stamps[i].wall, stamps[i].host, h, d)))
  }

  lemma SameInstant(offsets: AC.Offsets, host: string, wall: real, h: string, d: real)
    ensures AC.Corrected(MoreAhead(offsets, h, d), host, Reading(wall, host, h, d)) == AC.Corrected(offsets, host, wall)
  {
  }

  lemma SameTimeline(stamps: seq<AC.Stamp>, offsets: AC.Offsets, h: string, d: real)
    ensures AC.Timeline(ShiftedStamps(stamps, h, d), MoreAhead(offsets, h, d)) == AC.Timeline(stamps, offsets)
  {
    var a, b := AR.OnBasis(ShiftedStamps(stamps, h, d), MoreAhead(offsets, h, d)), AR.OnBasis(stamps, offsets);
    forall i | 0 <= i < |stamps| ensures a[i] == b[i] { SameInstant(offsets, stamps[i].host, stamps[i].wall, h, d); }
    assert a == b;
    AR.TimelineIsSorted(ShiftedStamps(stamps, h, d), MoreAhead(offsets, h, d));
    AR.TimelineIsSorted(stamps, offsets);
  }

  lemma ShiftedInit(events: seq<AC.Event>, h: string, d: real)
    requires events != []
    ensures var s := ShiftedEvents(events, h, d);
            s != [] && s[..|s| - 1] == ShiftedEvents(events[..|events| - 1], h, d) && s[|s| - 1] == ShiftedEvent(events[|events| - 1], h, d)
  {
  }

  lemma {:induction false} SameTopics(events: seq<AC.Event>, topics: map<string, AC.Name>, h: string, d: real)
    ensures AC.TopicsOf(ShiftedEvents(events, h, d)) == AC.TopicsOf(events)
    ensures AC.RequiredOf(ShiftedEvents(events, h, d), topics) == AC.RequiredOf(events, topics)
  {
    if events != [] {
      ShiftedInit(events, h, d);
      SameTopics(events[..|events| - 1], topics, h, d);
    }
  }

  lemma {:induction false} SameEnds(events: seq<AC.Event>, offsets: AC.Offsets, h: string, d: real)
    ensures AC.WindowEndsOf(ShiftedEvents(events, h, d), MoreAhead(offsets, h, d)) == AC.WindowEndsOf(events, offsets)
  {
    if events != [] {
      ShiftedInit(events, h, d);
      SameEnds(events[..|events| - 1], offsets, h, d);
      var e := events[|events| - 1];
      if e.WindowEnd? && e.wall.Some? { SameInstant(offsets, e.host, e.wall.value, h, d); }
    }
  }

  lemma {:induction false} SameOpened(events: seq<AC.Event>, tl: seq<AC.Stamp>, offsets: AC.Offsets, h: string, d: real)
    ensures AC.OpenedBy(ShiftedEvents(events, h, d), tl, MoreAhead(offsets, h, d)) == AC.OpenedBy(events, tl, offsets)
  {
    if events != [] {
      ShiftedInit(events, h, d);
      SameOpened(events[..|events| - 1], tl, offsets, h, d);
      var e := events[|events| - 1];
      if AC.Opens(e) { SameInstant(offsets, e.host, e.wall.value, h, d); }
    }
  }

  lemma {:induction false} SameClosed(ivs: map<AC.Key, AC.Interval>, events: seq<AC.Event>, topics: map<string, AC.Name>,
                                      offsets: AC.Offsets, h: string, d: real)
    ensures AC.ClosedBy(ivs, ShiftedEvents(events, h, d), topics, MoreAhead(offsets, h, d)) == AC.ClosedBy(ivs, events, topics, offsets)
  {
    if events != [] {
      ShiftedInit(events, h, d);
      SameClosed(ivs, events[..|events| - 1], topics, offsets, h, d);
      var e := events[|events| - 1];
      if e.SubEnd? && e.wall.Some? { SameInstant(offsets, e.host, e.wall.value, h, d); }
    }
  }

  /** The sets rebuilt from the moved readings and offsets are the same, and so is every reader's state. */
  lemma SetsUnmoved(s: AC.Sets, t: AC.Sets, events: seq<AC.Event>, stamps: seq<AC.Stamp>, offsets: AC.Offsets, h: string, d: real)
    requires s.band == t.band && AC.IsSetsOf(s, events, stamps, offsets, s.band)
    requires AC.IsSetsOf(t, ShiftedEvents(events, h, d), ShiftedStamps(stamps, h, d), MoreAhead(offsets, h, d), s.band)
    ensures s == t
    ensures forall peer, topic, ts :: AC.StateOf(s, peer, topic, ts) == AC.StateOf(t, peer, topic, ts)
  {
    SameTimeline(stamps, offsets, h, d);
    SameTopics(events, AC.TopicsOf(events), h, d);
    SameEnds(events, offsets, h, d);
    SameOpened(events, s.timeline, offsets, h, d);
    SameClosed(AC.OpenedBy(events, s.timeline, offsets), events, AC.TopicsOf(events), offsets, h, d);
    hide AC.Timeline, AC.TopicsOf, AC.RequiredOf, AC.WindowEndsOf, AC.OpenedBy, AC.ClosedBy, AC.StateOf;
  }

  /** An activation that host h stamps x plus its offset begins its reader's interval at basis instant x. */
  lemma BeginsAtBasisInstant(events: seq<AC.Event>, tl: seq<AC.Stamp>, offsets: AC.Offsets, peer: AC.Peer, topic: AC.Name, i: nat,
                             h: string, x: real)
    requires AR.LastBegin(events, peer, topic, i) && h in offsets
    requires events[i].host == h && events[i].wall == Some(x + offsets[h])
    ensures AC.Key(peer, topic) in AC.IntervalsOf(events, tl, offsets)
    ensures AC.IntervalsOf(events, tl, offsets)[AC.Key(peer, topic)].from == x
  {
    AR.OpenedMeans(events, tl, offsets, peer, topic);
    AC.ClosedKeepsStart(AC.OpenedBy(events, tl, offsets), events, AC.TopicsOf(events), offsets, AC.Key(peer, topic));
    hide AC.OpenedBy, AC.ClosedBy, AC.TopicsOf, AC.WindowEndsOf, AC.IdentityAt, AC.FirstChange;
  }

  // ---- the ledger ------------------------------------------------------------------------

  function HostText(r: SC.LedgerRow): string {
    if r.srcHost.Some? then r.srcHost.value else "null"
  }

  function ShiftedLedger(ledger: seq<SC.LedgerRow>, h: string, d: real): (r: seq<SC.LedgerRow>)
    ensures |r| == |ledger| && forall i :: 0 <= i < |r| ==> r[i] == ledger[i].(t := ShiftedWall(ledger[i].t, HostText(ledger[i]), h, d))
  {
    seq(|ledger|, i requires 0 <= i < |ledger| => ledger[i].(t := ShiftedWall(ledger[i].t, HostText(ledger[i]), h, d)))
  }

  lemma {:induction false} LedgerUnmoved(ledger: seq<SC.LedgerRow>, offsets: AC.Offsets, id: string, h: string, d: real)
    ensures var moved := ShiftedLedger(ledger, h, d);
            && SC.PublishedAt(moved, MoreAhead(offsets, h, d), id) == SC.PublishedAt(ledger, offsets, id)
            && SC.RowsFor(moved, id) == SC.RowsFor(ledger, id) && SC.Ids(moved) == SC.Ids(ledger)
            && (SC.ProvenanceMissing(moved, id) <==> SC.ProvenanceMissing(ledger, id))
  {
    var moved := ShiftedLedger(ledger, h, d);
    if ledger != [] {
      var init, last := ledger[..|ledger| - 1], ledger[|ledger| - 1];
      LedgerUnmoved(init, offsets, id, h, d);
      assert moved[..|moved| - 1] == ShiftedLedger(init, h, d);
      if last.t.Some? { SameInstant(offsets, HostText(last), last.t.value, h, d); }
      ProvenanceUnmoved(ledger, id, h, d);
    }
  }

  lemma ProvenanceUnmoved(ledger: seq<SC.LedgerRow>, id: string, h: string, d: real)
    ensures SC.ProvenanceMissing(ShiftedLedger(ledger, h, d), id) <==> SC.ProvenanceMissing(ledger, id)
  {
    var moved := ShiftedLedger(ledger, h, d);
    if r :| r in ledger && r.msgId == Some(id) && !DT.Known(r.srcHost) {
      var i :| 0 <= i < |ledger| && ledger[i] == r;
      assert moved[i] in moved;
    }
    if r :| r in moved && r.msgId == Some(id) && !DT.Known(r.srcHost) {
      var i :| 0 <= i < |moved| && moved[i] == r;
      assert ledger[i] in ledger;
    }
  }

  /** So the whole run is scored the same. */
  lemma RunUnmoved(ledger: seq<SC.LedgerRow>, offsets: AC.Offsets, inputs: SC.Inputs, ctx: SC.Context, h: string, d: real)
    ensures var moved := ShiftedLedger(ledger, h, d);
            SC.Total(SC.MessagesOf(moved, MoreAhead(offsets, h, d), inputs, SC.Ids(moved)), ctx)
            == SC.Total(SC.MessagesOf(ledger, offsets, inputs, SC.Ids(ledger)), ctx)
  {
    hide SC.Total, SC.PublishedAt, SC.RowsFor, SC.Ids, SC.ProvenanceMissing;
    var moved, ids := ShiftedLedger(ledger, h, d), SC.Ids(ledger);
    LedgerUnmoved(ledger, offsets, "", h, d);
    var a, b := SC.MessagesOf(moved, MoreAhead(offsets, h, d), inputs, ids), SC.MessagesOf(ledger, offsets, inputs, ids);
    forall i | 0 <= i < |ids| ensures a[i] == b[i] { LedgerUnmoved(ledger, offsets, ids[i], h, d); }
    assert a == b;
  }
}
