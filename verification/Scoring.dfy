/**
 * Scoring a whole arm: rows grouped by message, each message voided, censored or scored, and the
 * counters that the report closes over (harness/reconcile-delivery.mjs, `reconcile`).
 */
module Scoring {
  import opened Prelude
  import opened Sorting
  import DT = DeliveryTree
  import AC = Activity
  import RC = Reconcile

  type Name = DT.Name

  datatype Kind = Open | Owned

  datatype LedgerRow = LedgerRow(msgId: Name, t: Option<real>, srcHost: Name, row: DT.Row)

  datatype Message = Message(
    rows: seq<DT.Row>,
    members: seq<Option<int>>,
    publishedAt: Option<real>,
    provenanceMissing: bool,
    evidence: RC.Evidence)

  datatype Context = Context(
    sets: Option<AC.Sets>,
    timingVoid: bool,
    censorCutoff: real,
    kinds: map<Name, Kind>)

  datatype KindCounts = KindCounts(required: nat, e: nat, a: nat, b: nat, c: nat, d: nat)

  datatype Tally = Tally(
    publishes: nat, voided: nat, rootDivergence: nat, censored: nat, boundaryAmbiguous: nat, provenanceVoid: nat,
    belief: nat, delivered: nat, arrivedNoApp: nat, neverArrived: nat, beliefNotApp: nat,
    all: RC.Counts, open: KindCounts, owned: KindCounts)

  function Zero(): Tally {
    Tally(0, 0, 0, 0, 0, 0, 0, 0, 0, 0, 0, RC.Counts(0, 0, 0, 0, 0, 0, 0, 0, 0),
          KindCounts(0, 0, 0, 0, 0, 0), KindCounts(0, 0, 0, 0, 0, 0))
  }

  function AddCounts(m: RC.Counts, n: RC.Counts): RC.Counts {
    RC.Counts(m.required + n.required, m.e + n.e, m.a + n.a, m.b + n.b, m.c + n.c, m.d + n.d,
              m.forwardingLoss + n.forwardingLoss, m.treeDivergence + n.treeDivergence, m.rootDivergence + n.rootDivergence)
  }

  function AddKind(k: KindCounts, n: RC.Counts): KindCounts {
    KindCounts(k.required + n.required, k.e + n.e, k.a + n.a, k.b + n.b, k.c + n.c, k.d + n.d)
  }

  // ---- one message -------------------------------------------------------------

  function TopicOf(rows: seq<DT.Row>): Name {
    if rows == [] then None
    else if DT.Known(rows[0].topicId) then DT.Pfx(rows[0].topicId)
    else TopicOf(rows[1..])
  }

  function RequiredFor(sets: AC.Sets, topic: Name): set<AC.Peer> {
    if topic in sets.required then sets.required[topic] else {}
  }

  ghost function CensusOf(m: Message, sets: AC.Sets): RC.Census
    requires m.publishedAt.Some?
  {
    var topic := TopicOf(m.rows);
    RC.Census(RequiredFor(sets, topic),
              map p | p in RequiredFor(sets, topic) :: AC.StateOf(sets, p, topic, m.publishedAt.value),
              DT.TreeOf(m.rows, m.members), m.evidence)
  }

  ghost predicate Ambiguous(m: Message, sets: AC.Sets)
    requires m.publishedAt.Some?
  {
    exists p :: p in RequiredFor(sets, TopicOf(m.rows))
             && AC.StateOf(sets, p, TopicOf(m.rows), m.publishedAt.value).boundary
  }

  predicate Censored(m: Message, ctx: Context) {
    m.publishedAt.Some? && m.publishedAt.value > ctx.censorCutoff
  }

  function AddPartition(t: Tally, n: RC.Counts, kind: Option<Kind>): Tally {
    t.(all := AddCounts(t.all, n),
       open := if kind == Some(Open) then AddKind(t.open, n) else t.open,
       owned := if kind == Some(Owned) then AddKind(t.owned, n) else t.owned)
  }

  ghost function AddBelief(t: Tally, tree: DT.Tree, ev: RC.Evidence): Tally {
    var missed := tree.belief - ev.app;
    t.(publishes := t.publishes + 1,
       belief := t.belief + |tree.belief|, delivered := t.delivered + |tree.belief * ev.app|,
       beliefNotApp := t.beliefNotApp + |missed|,
       arrivedNoApp := t.arrivedNoApp + |missed * ev.received|, neverArrived := t.neverArrived + |missed - ev.received|)
  }

  ghost predicate Timed(m: Message, ctx: Context) {
    ctx.sets.Some? && m.publishedAt.Some?
  }

  /** Two or more declared roots are flagged, and the message is still scored. */
  function FlagDivergence(t: Tally, tree: DT.Tree): Tally {
    if tree.divergence.Some? then t.(rootDivergence := t.rootDivergence + 1) else t
  }

  /** What one more message adds to the counters. */
  ghost function Scored(t0: Tally, m: Message, ctx: Context): Tally {
    var tree := DT.TreeOf(m.rows, m.members);
    if Censored(m, ctx) then t0.(censored := t0.censored + 1)
    else if tree.voidReason.Some? then t0.(voided := t0.voided + 1)
    else
      var t := FlagDivergence(t0, tree);
      if !Timed(m, ctx) then AddBelief(t, tree, m.evidence)
      else if m.provenanceMissing then t.(provenanceVoid := t.provenanceVoid + 1)
      else if Ambiguous(m, ctx.sets.value) || ctx.timingVoid then t.(boundaryAmbiguous := t.boundaryAmbiguous + 1)
      else AddBelief(AddPartition(t, RC.CountsOf(CensusOf(m, ctx.sets.value)), Get(ctx.kinds, TopicOf(m.rows))), tree, m.evidence)
  }

  method FindTopic(rows: seq<DT.Row>) returns (topic: Name)
    ensures topic == TopicOf(rows)
  {
    for i := 0 to |rows|
      invariant TopicOf(rows) == TopicOf(rows[i..])
    {
      if DT.Known(rows[i].topicId) { return DT.Pfx(rows[i].topicId); }
    }
    return None;
  }

  method ReadStates(sets: AC.Sets, topic: Name, ts: real) returns (states: map<AC.Peer, AC.PeerState>, boundary: bool)
    requires Sorted(AC.Earlier, sets.timeline)
    ensures states == map p | p in RequiredFor(sets, topic) :: AC.StateOf(sets, p, topic, ts)
    ensures boundary <==> exists p :: p in RequiredFor(sets, topic) && AC.StateOf(sets, p, topic, ts).boundary
  {
    states, boundary := map[], false;
    var required := RequiredFor(sets, topic);
    var todo := required;
    while todo != {}
      invariant todo <= required && states.Keys == required - todo
      invariant forall p :: p in states ==> states[p] == AC.StateOf(sets, p, topic, ts)
      invariant boundary <==> exists p :: p in states && states[p].boundary
      decreases todo
    {
      var p :| p in todo;
      var st := AC.ActivePeer(sets, p, topic, ts);
      ghost var before := states;
      states := states[p := st];
      assert states.Keys == before.Keys + {p};
      if st.boundary { boundary := true; }
      todo := todo - {p};
    }
  }

  method SplitMissed(all: set<Name>, received: set<Name>) returns (arrived: nat, never: nat)
    ensures arrived == |all * received| && never == |all - received|
  {
    arrived, never := 0, 0;
    var todo := all;
    ghost var done: set<Name> := {};
    while todo != {}
      invariant done !! todo && done + todo == all
      invariant arrived == |received * done| && arrived + never == |done|
      decreases todo
    {
      var s :| s in todo;
      RC.OneMore(received, done, s);
      if s in received { arrived := arrived + 1; } else { never := never + 1; }
      todo, done := todo - {s}, done + {s};
    }
    TwoParts(all, received);
  }

  lemma TwoParts(all: set<Name>, part: set<Name>)
    ensures |all| == |all * part| + |all - part| && all * part == part * all
  {
    assert all == (all * part) + (all - part);
  }

  method CountBelief(t0: Tally, tree: DT.Tree, ev: RC.Evidence) returns (t: Tally)
    ensures t == AddBelief(t0, tree, ev)
  {
    var missed := tree.belief - ev.app;
    assert tree.belief == (tree.belief * ev.app) + missed;
    var arrived, never := SplitMissed(missed, ev.received);
    t := t0.(publishes := t0.publishes + 1,
             belief := t0.belief + |tree.belief|, delivered := t0.delivered + (|tree.belief| - |missed|),
             beliefNotApp := t0.beliefNotApp + |missed|, arrivedNoApp := t0.arrivedNoApp + arrived,
             neverArrived := t0.neverArrived + never);
  }

  method ScoreMessage(agg: Tally, m: Message, ctx: Context) returns (t: Tally)
    requires ctx.sets.Some? ==> Sorted(AC.Earlier, ctx.sets.value.timeline)
    ensures t == Scored(agg, m, ctx)
  {
    hide DT.TreeOf, RC.CountsOf, TopicOf, AddBelief, AddPartition;
    t := agg;
    if Censored(m, ctx) { t := t.(censored := t.censored + 1); return; }
    var tree := DT.BuildTree(m.rows, m.members);
    if tree.voidReason.Some? { t := t.(voided := t.voided + 1); return; }
    if tree.divergence.Some? { t := t.(rootDivergence := t.rootDivergence + 1); }
    if ctx.sets.Some? && m.publishedAt.Some? {
      if m.provenanceMissing { t := t.(provenanceVoid := t.provenanceVoid + 1); return; }
      var topic := FindTopic(m.rows);
      var states, boundary := ReadStates(ctx.sets.value, topic, m.publishedAt.value);
      if boundary || ctx.timingVoid { t := t.(boundaryAmbiguous := t.boundaryAmbiguous + 1); return; }
      var census := RC.Census(RequiredFor(ctx.sets.value, topic), states, tree, m.evidence);
      assert census == CensusOf(m, ctx.sets.value);
      var counts := RC.Partition(census);
      t := AddPartition(t, counts, Get(ctx.kinds, topic));
    }
    t := CountBelief(t, tree, m.evidence);
  }

  // ---- the whole arm -------------------------------------------------------------

  ghost function Total(msgs: seq<Message>, ctx: Context): Tally {
    if msgs == [] then Zero() else Scored(Total(msgs[..|msgs| - 1], ctx), msgs[|msgs| - 1], ctx)
  }

  ghost predicate KindCloses(k: KindCounts) {
    k.e + k.a + k.b + k.c + k.d == k.required
  }

  /** The closures the report asserts, over every message that has a fan-out row. */
  ghost predicate Accounted(t: Tally, messages: nat) {
    && RC.Closes(t.all) && KindCloses(t.open) && KindCloses(t.owned)
    && t.arrivedNoApp + t.neverArrived == t.beliefNotApp
    && t.delivered + t.beliefNotApp == t.belief
    && t.publishes + t.voided + t.censored + t.boundaryAmbiguous + t.provenanceVoid == messages
    && t.open.required + t.owned.required <= t.all.required && t.open.c + t.owned.c <= t.all.c
  }

  lemma PartitionAccounted(t: Tally, c: RC.Census, kind: Option<Kind>, messages: nat)
    requires Accounted(t, messages) && RC.Complete(c)
    ensures Accounted(AddPartition(t, RC.CountsOf(c), kind), messages)
  {
    hide RC.CountsOf;
    RC.PartitionCloses(c);
  }

  lemma BeliefAccounted(t: Tally, tree: DT.Tree, ev: RC.Evidence, messages: nat)
    requires Accounted(t, messages)
    ensures Accounted(AddBelief(t, tree, ev), messages + 1)
  {
    var missed := tree.belief - ev.app;
    assert tree.belief == (tree.belief * ev.app) + missed;
    assert missed == (missed * ev.received) + (missed - ev.received);
  }

  lemma ScoredAccounted(t: Tally, m: Message, ctx: Context, messages: nat)
    requires Accounted(t, messages)
    ensures Accounted(Scored(t, m, ctx), messages + 1)
  {
    hide DT.TreeOf, RC.CountsOf, TopicOf, AddBelief, AddPartition, Ambiguous, RC.Closes, KindCloses;
    var tree := DT.TreeOf(m.rows, m.members);
    var f := FlagDivergence(t, tree);
    BeliefAccounted(f, tree, m.evidence, messages);
    if Timed(m, ctx) {
      var census := CensusOf(m, ctx.sets.value);
      PartitionAccounted(f, census, Get(ctx.kinds, TopicOf(m.rows)), messages);
      BeliefAccounted(AddPartition(f, RC.CountsOf(census), Get(ctx.kinds, TopicOf(m.rows))), tree, m.evidence, messages);
    }
  }

  lemma NothingAccounted()
    ensures Accounted(Zero(), 0)
  {
  }

  lemma {:induction false} RunAccounted(msgs: seq<Message>, ctx: Context)
    ensures Accounted(Total(msgs, ctx), |msgs|)
  {
    hide Scored, Accounted, Zero;
    if msgs == [] {
      NothingAccounted();
    } else {
      RunAccounted(msgs[..|msgs| - 1], ctx);
      ScoredAccounted(Total(msgs[..|msgs| - 1], ctx), msgs[|msgs| - 1], ctx, |msgs| - 1);
    }
  }

  // ---- grouping rows by message ----------------------------------------------------

  ghost function RowsFor(ledger: seq<LedgerRow>, id: string): seq<DT.Row> {
    if ledger == [] then []
    else
      var before, last := RowsFor(ledger[..|ledger| - 1], id), ledger[|ledger| - 1];
      if last.msgId == Some(id) then before + [last.row] else before
  }

  ghost function PublishedAt(ledger: seq<LedgerRow>, offsets: AC.Offsets, id: string): Option<real> {
    if ledger == [] then None
    else
      var before, last := PublishedAt(ledger[..|ledger| - 1], offsets, id), ledger[|ledger| - 1];
      if last.msgId == Some(id) && last.t.Some? then AC.Sooner(before, AC.Corrected(offsets, DT.Show(last.srcHost), last.t.value))
      else before
  }

  ghost predicate ProvenanceMissing(ledger: seq<LedgerRow>, id: string) {
    exists r :: r in ledger && r.msgId == Some(id) && !DT.Known(r.srcHost)
  }

  /** Message ids in the order in which their first row came. */
  ghost function Ids(ledger: seq<LedgerRow>): seq<string> {
    if ledger == [] then []
    else
      var before, last := Ids(ledger[..|ledger| - 1]), ledger[|ledger| - 1];
      if DT.Known(last.msgId) && last.msgId.value !in before then before + [last.msgId.value] else before
  }

  lemma {:induction false} IdsAreTheMessages(ledger: seq<LedgerRow>)
    ensures Distinct(Ids(ledger))
    ensures forall id :: id in Ids(ledger) <==> id != "" && exists r :: r in ledger && r.msgId == Some(id)
  {
    if ledger != [] {
      var init, last := ledger[..|ledger| - 1], ledger[|ledger| - 1];
      IdsAreTheMessages(init);
      assert ledger == init + [last];
    }
  }

  datatype Inputs = Inputs(members: map<string, seq<Option<int>>>, evidence: map<string, RC.Evidence>)

  function MembersFor(inputs: Inputs, id: string): seq<Option<int>> {
    if id in inputs.members then inputs.members[id] else []
  }

  function EvidenceFor(inputs: Inputs, id: string): RC.Evidence {
    if id in inputs.evidence then inputs.evidence[id] else RC.Evidence({}, {}, {})
  }

  ghost function MessageOf(ledger: seq<LedgerRow>, offsets: AC.Offsets, inputs: Inputs, id: string): Message {
    Message(RowsFor(ledger, id), MembersFor(inputs, id), PublishedAt(ledger, offsets, id),
            ProvenanceMissing(ledger, id), EvidenceFor(inputs, id))
  }

  ghost function MessagesOf(ledger: seq<LedgerRow>, offsets: AC.Offsets, inputs: Inputs, ids: seq<string>): seq<Message> {
    seq(|ids|, i requires 0 <= i < |ids| => MessageOf(ledger, offsets, inputs, ids[i]))
  }

  ghost predicate HasRows(rowsBy: map<string, seq<DT.Row>>, ledger: seq<LedgerRow>) {
    forall id :: id != "" ==> RowsFor(ledger, id) == if id in rowsBy then rowsBy[id] else []
  }

  ghost predicate HasTimes(publishedAt: map<string, real>, ledger: seq<LedgerRow>, offsets: AC.Offsets) {
    forall id :: id != "" ==> PublishedAt(ledger, offsets, id) == Get(publishedAt, id)
  }

  ghost predicate HasMissing(missing: set<string>, ledger: seq<LedgerRow>) {
    forall id :: id != "" ==> (id in missing <==> ProvenanceMissing(ledger, id))
  }

  lemma MissingStep(missing: set<string>, ledger: seq<LedgerRow>, row: LedgerRow)
    requires HasMissing(missing, ledger)
    ensures HasMissing(if DT.Known(row.msgId) && !DT.Known(row.srcHost) then missing + {row.msgId.value} else missing,
                       ledger + [row])
  {
  }

  lemma TimesStep(publishedAt: map<string, real>, ledger: seq<LedgerRow>, row: LedgerRow, offsets: AC.Offsets)
    requires HasTimes(publishedAt, ledger, offsets)
    ensures HasTimes(StampedBy(publishedAt, row, offsets), ledger + [row], offsets)
  {
    assert (ledger + [row])[..|ledger|] == ledger;
  }

  /** The earliest corrected time of a message, updated by one more row. */
  function StampedBy(publishedAt: map<string, real>, row: LedgerRow, offsets: AC.Offsets): map<string, real> {
    if DT.Known(row.msgId) && row.t.Some? then
      var id, ct := row.msgId.value, AC.Corrected(offsets, DT.Show(row.srcHost), row.t.value);
      publishedAt[id := if id in publishedAt && publishedAt[id] < ct then publishedAt[id] else ct]
    else publishedAt
  }

  lemma RowsStep(rowsBy: map<string, seq<DT.Row>>, ledger: seq<LedgerRow>, row: LedgerRow)
    requires HasRows(rowsBy, ledger)
    ensures HasRows(FiledUnder(rowsBy, row), ledger + [row])
  {
    assert (ledger + [row])[..|ledger|] == ledger;
  }

  function FiledUnder(rowsBy: map<string, seq<DT.Row>>, row: LedgerRow): map<string, seq<DT.Row>> {
    if DT.Known(row.msgId) then
      var id := row.msgId.value;
      rowsBy[id := (if id in rowsBy then rowsBy[id] else []) + [row.row]]
    else rowsBy
  }

  method GroupRows(ledger: seq<LedgerRow>, offsets: AC.Offsets)
    returns (ids: seq<string>, rowsBy: map<string, seq<DT.Row>>, publishedAt: map<string, real>, missing: set<string>)
    ensures ids == Ids(ledger) && rowsBy.Keys == Elements(ids) && "" !in ids
    ensures HasRows(rowsBy, ledger) && HasTimes(publishedAt, ledger, offsets) && HasMissing(missing, ledger)
  {
    hide HasRows, HasTimes, HasMissing;
    ids, rowsBy, publishedAt, missing := [], map[], map[], {};
    NothingGrouped(offsets);
    for i := 0 to |ledger|
      invariant ids == Ids(ledger[..i]) && rowsBy.Keys == Elements(ids) && "" !in ids
      invariant HasRows(rowsBy, ledger[..i]) && HasTimes(publishedAt, ledger[..i], offsets)
      invariant HasMissing(missing, ledger[..i])
    {
      var row := ledger[i];
      assert ledger[..i + 1] == ledger[..i] + [row];
      assert ledger[..i + 1][..i] == ledger[..i];
      RowsStep(rowsBy, ledger[..i], row);
      TimesStep(publishedAt, ledger[..i], row, offsets);
      MissingStep(missing, ledger[..i], row);
      if !DT.Known(row.msgId) { continue; }
      var id := row.msgId.value;
      if id !in rowsBy { ids := ids + [id]; }
      rowsBy := FiledUnder(rowsBy, row);
      publishedAt := StampedBy(publishedAt, row, offsets);
      if !DT.Known(row.srcHost) { missing := missing + {id}; }
    }
    assert ledger[..|ledger|] == ledger;
  }

  lemma NothingGrouped(offsets: AC.Offsets)
    ensures HasRows(map[], []) && HasTimes(map[], [], offsets) && HasMissing({}, [])
  {
  }

  lemma GroupedMessage(ledger: seq<LedgerRow>, offsets: AC.Offsets, inputs: Inputs, id: string,
                       rowsBy: map<string, seq<DT.Row>>, publishedAt: map<string, real>, missing: set<string>)
    requires id != "" && id in rowsBy
    requires HasRows(rowsBy, ledger) && HasTimes(publishedAt, ledger, offsets) && HasMissing(missing, ledger)
    ensures Message(rowsBy[id], MembersFor(inputs, id), Get(publishedAt, id), id in missing, EvidenceFor(inputs, id))
            == MessageOf(ledger, offsets, inputs, id)
  {
  }

  /** Every distinct message with a fan-out row is scored, voided or censored, once. */
  method Reconcile(ledger: seq<LedgerRow>, offsets: AC.Offsets, inputs: Inputs, ctx: Context) returns (agg: Tally)
    requires ctx.sets.Some? ==> Sorted(AC.Earlier, ctx.sets.value.timeline)
    ensures agg == Total(MessagesOf(ledger, offsets, inputs, Ids(ledger)), ctx)
    ensures Accounted(agg, |Ids(ledger)|)
  {
    hide HasRows, HasTimes, HasMissing, Scored, Accounted, MessageOf, Ids;
    var ids, rowsBy, publishedAt, missing := GroupRows(ledger, offsets);
    ghost var msgs := MessagesOf(ledger, offsets, inputs, ids);
    agg := Zero();
    for i := 0 to |ids|
      invariant agg == Total(msgs[..i], ctx)
    {
      var id := ids[i];
      assert id in Elements(ids);
      GroupedMessage(ledger, offsets, inputs, id, rowsBy, publishedAt, missing);
      assert msgs[..i + 1][..i] == msgs[..i];
      agg := ScoreMessage(agg, Message(rowsBy[id], MembersFor(inputs, id), Get(publishedAt, id), id in missing,
                                       EvidenceFor(inputs, id)), ctx);
    }
    assert msgs[..|ids|] == msgs;
    RunAccounted(msgs, ctx);
  }
}
