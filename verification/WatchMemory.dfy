/** What becomes of a watch once it has seen more ids than it remembers. */
module WatchMemory {
  import opened Prelude
  import opened Watch
  import opened WatchRuns

  // ---- beyond the memory of ids --------------------------------------------------------------

  /** What a delivery of something new keeps of the buffer. */
  function Kept(s: State): seq<Msg> {
    if Evicts(s) && s.buffer != [] then s.buffer[1..] else s.buffer
  }

  /** The delivery pushes the oldest id out of memory although its message stays in the buffer. */
  predicate ForgetsHeld(s: State, m: Msg) {
    Forgets(s, m) && Holds(Kept(s), s.seenOrder[0])
  }

  lemma RememberForgets(s: State, id: string)
    requires Indexed(s) && id !in s.seen && |s.seenOrder| >= SEEN_CAP
    ensures Indexed(Remember(s, id)) && Remember(s, id).seen == s.seen - {s.seenOrder[0]} + {id}
    ensures s.seenOrder[0] != id
  {
    RememberIndexed(s, id);
    assert s.seenOrder[0] in s.seenOrder;
    assert (s.seenOrder + [id])[0] == s.seenOrder[0];
  }

  /** A tidy watch stays tidy under a delivery exactly unless that forgets an id whose message is still buffered. */
  lemma DeliverTidyExactly(s: State, m: Msg)
    requires Tidy(s)
    ensures Tidy(Delivered(s, m)) <==> !ForgetsHeld(s, m)
  {
    if !Forgets(s, m) {
      DeliverTidy(s, m);
    } else {
      ForgettingTidy(s, m);
    }
  }

  lemma ForgettingTidy(s: State, m: Msg)
    requires Tidy(s) && Forgets(s, m)
    ensures Tidy(Delivered(s, m)) <==> !Holds(Kept(s), s.seenOrder[0])
  {
    var t, id, oldest := s.(total := s.total + 1), m.id.value, s.seenOrder[0];
    RememberForgets(t, id);
    RememberKeeps(t, id);
    hide Remember, Indexed;
    var d := Delivered(s, m);
    assert s.buffer != [] ==> (s.buffer + [m])[1..] == s.buffer[1..] + [m];
    assert d.seen == s.seen - {oldest} + {id};
    NewIsNotHeld(s, id);
    assert NoTwice(s.buffer + [m]);
    if Evicts(s) && s.buffer == [] {
      assert d.buffer == [];
    } else {
      assert d.buffer == Kept(s) + [m];
      forall x ensures x in d.buffer <==> x in Kept(s) || x == m {}
      forall x | x in Kept(s) ensures x in s.buffer {}
    }
  }

  lemma NewIsNotHeld(s: State, id: string)
    requires Covered(s) && id !in s.seen
    ensures forall x :: x in s.buffer ==> x.id != Some(id)
  {
  }

  // ---- a run that buffers an id twice ------------------------------------------------------------

  /** A different message for each number. */
  function Nth(n: nat): Msg {
    Msg(Some(NthId(n)), "")
  }

  function NthId(n: nat): (id: string)
    ensures |id| == n + 1
  {
    seq(n + 1, _ => 'x')
  }

  function NthIds(n: nat): (ids: seq<string>)
    ensures |ids| == n && forall i :: 0 <= i < n ==> ids[i] == NthId(i)
  {
    seq(n, i requires 0 <= i < n => NthId(i))
  }

  function DeliverAll(n: nat): (ops: seq<Op>)
    ensures |ops| == n
  {
    if n == 0 then [] else DeliverAll(n - 1) + [Deliver(Nth(n - 1))]
  }

  /** The latest messages of n, at most three. */
  function LastThree(n: nat): seq<Msg> {
    if n == 0 then [] else if n == 1 then [Nth(0)] else if n == 2 then [Nth(0), Nth(1)]
    else [Nth(n - 3), Nth(n - 2), Nth(n - 1)]
  }

  function Shifted(s: State, m: Msg): seq<Msg> {
    if Evicts(s) then (s.buffer + [m])[1..] else s.buffer + [m]
  }

  /** The three ways in which a message with an id enters the buffer. */
  lemma DeliveredWays(s: State, m: Msg)
    requires m.id.Some?
    ensures var id, evicted := m.id.value, s.dropped + if Evicts(s) then 1 else 0;
            && (id !in s.seen && |s.seenOrder| < SEEN_CAP ==>
                  Delivered(s, m) == State(Shifted(s, m), s.seen + {id}, s.seenOrder + [id], s.total + 1, s.replayed,
                                           s.drained, evicted, s.cap))
            && (id !in s.seen && |s.seenOrder| == SEEN_CAP ==>
                  Delivered(s, m) == State(Shifted(s, m), s.seen + {id} - {s.seenOrder[0]}, s.seenOrder[1..] + [id],
                                           s.total + 1, s.replayed, s.drained, evicted, s.cap))
            && (id in s.seen && !Holds(s.buffer, id) ==>
                  Delivered(s, m) == State(Shifted(s, m), s.seen, s.seenOrder, s.total, s.replayed + 1,
                                           s.drained, evicted, s.cap))
  {
    var id := m.id.value;
    if id !in s.seen && |s.seenOrder| == SEEN_CAP {
      assert (s.seenOrder + [id])[0] == s.seenOrder[0];
      assert (s.seenOrder + [id])[1..] == s.seenOrder[1..] + [id];
    }
  }

  /** The watch after the first n messages, under a cap of three. */
  function Full(n: nat): State {
    State(LastThree(n), (set id | id in NthIds(n)), NthIds(n), n, 0, 0, if n < 3 then 0 else n - 3, 3)
  }

  lemma ShiftThree(n: nat)
    requires n > 0
    ensures Shifted(Full(n - 1), Nth(n - 1)) == LastThree(n)
  {
    hide NthIds, NthId;
    if n > 3 { assert (LastThree(n - 1) + [Nth(n - 1)])[1..] == LastThree(n); }
  }

  lemma FillStep(n: nat)
    requires 0 < n <= SEEN_CAP
    ensures Delivered(Full(n - 1), Nth(n - 1)) == Full(n)
  {
    DeliveredWays(Full(n - 1), Nth(n - 1));
    NthIsNew(n - 1);
    MoreIds(n);
    ShiftThree(n);
    hide Delivered, NthIds, NthId, LastThree, Shifted;
  }

  lemma {:induction false} Filled(n: nat)
    requires n <= SEEN_CAP
    ensures Run(Empty(3), DeliverAll(n)) == Full(n)
  {
    hide Delivered, Full;
    if n > 0 {
      Filled(n - 1);
      RunMore(Empty(3), DeliverAll(n - 1), Deliver(Nth(n - 1)));
      FillStep(n);
    } else {
      FullOfNothing();
    }
  }

  lemma FullOfNothing()
    ensures Full(0) == Empty(3)
  {
    assert NthIds(0) == [];
  }

  lemma MoreIds(n: nat)
    requires n > 0
    ensures NthIds(n) == NthIds(n - 1) + [NthId(n - 1)] && Elements(NthIds(n)) == Elements(NthIds(n - 1)) + {NthId(n - 1)}
  {
    hide NthId;
    assert NthIds(n) == NthIds(n - 1) + [NthId(n - 1)];
  }

  lemma NthIsNew(n: nat)
    ensures NthId(n) !in Elements(NthIds(n))
  {
    forall i | 0 <= i < n ensures NthIds(n)[i] != NthId(n) { assert |NthId(i)| != |NthId(n)|; }
  }

  lemma RunMore(s: State, ops: seq<Op>, op: Op)
    ensures Run(s, ops + [op]) == Step(Run(s, ops), op)
  {
    assert (ops + [op])[..|ops|] == ops;
  }

  lemma NthDiffer(i: nat, j: nat)
    requires i != j
    ensures NthId(i) != NthId(j)
  {
    assert |NthId(i)| != |NthId(j)|;
  }

  /** The memory is full of the first ids, and the first message is replayed: its id stays the oldest. */
  lemma FirstReplayed()
    ensures var replayed := Delivered(Full(SEEN_CAP), Nth(0));
            && Tidy(replayed) && replayed.seenOrder == NthIds(SEEN_CAP) && replayed.seen == Full(SEEN_CAP).seen
            && replayed.buffer == [Nth(SEEN_CAP - 2), Nth(SEEN_CAP - 1), Nth(0)] && replayed.cap == 3
  {
    hide NthId;
    var n := SEEN_CAP;
    FullTidy(n);
    NthDiffer(0, n - 1);
    NthDiffer(0, n - 2);
    NthDiffer(0, n - 3);
    assert NthIds(n)[0] == NthId(0) && NthId(0) in Full(n).seen && !Holds(Full(n).buffer, NthId(0));
    DeliverTidy(Full(n), Nth(0));
    DeliveredWays(Full(n), Nth(0));
    hide Delivered, Tidy, NthIds;
    assert (Full(n).buffer + [Nth(0)])[1..] == [Nth(n - 2), Nth(n - 1), Nth(0)];
  }

  /** Then a new message pushes the id out of memory, with the replayed message still in the buffer. */
  lemma FirstForgotten(s: State)
    requires s.seenOrder == NthIds(SEEN_CAP) && s.seen == Full(SEEN_CAP).seen && s.cap == 3
    requires s.buffer == [Nth(SEEN_CAP - 2), Nth(SEEN_CAP - 1), Nth(0)]
    ensures ForgetsHeld(s, Nth(SEEN_CAP))
    ensures var after := Delivered(s, Nth(SEEN_CAP));
            && after.buffer == [Nth(SEEN_CAP - 1), Nth(0), Nth(SEEN_CAP)] && after.cap == 3
            && NthId(0) !in after.seen
  {
    hide NthId;
    var n := SEEN_CAP;
    NthIsNew(n);
    NthDiffer(0, n);
    assert s.seenOrder[0] == NthId(0);
    DeliveredWays(s, Nth(n));
    hide Delivered, NthIds;
    assert Kept(s) == [Nth(n - 1), Nth(0)] && Nth(0) in Kept(s);
    assert (s.buffer + [Nth(n)])[1..] == [Nth(n - 1), Nth(0), Nth(n)];
  }

  lemma FullTidy(n: nat)
    requires 3 <= n <= SEEN_CAP
    ensures Tidy(Full(n))
  {
    var ids := NthIds(n);
    forall i, j | 0 <= i < j < n ensures ids[i] != ids[j] { NthDiffer(i, j); }
    NthDiffer(n - 3, n - 2);
    NthDiffer(n - 3, n - 1);
    NthDiffer(n - 2, n - 1);
    assert ids[n - 3] in ids && ids[n - 2] in ids && ids[n - 1] in ids;
    hide NthId, NthIds;
  }

  lemma DeliverPushes(s: State, m: Msg)
    requires m.id.Some? && m.id.value !in s.seen
    ensures Delivered(s, m).buffer == Shifted(s, m)
  {
    hide Remember;
    RememberKeeps(s.(total := s.total + 1), m.id.value);
  }

  /** A replay does not renew an id's place in memory: the id is pushed out, and the next replay is buffered beside the first. */
  lemma BufferedTwice()
    ensures var ops := DeliverAll(SEEN_CAP) + [Deliver(Nth(0))] + [Deliver(Nth(SEEN_CAP))] + [Deliver(Nth(0))];
            var s := Run(Empty(3), ops);
            s.buffer == [Nth(0), Nth(SEEN_CAP), Nth(0)] && !NoTwice(s.buffer)
  {
    hide NthId, NthIds, Tidy, ForgetsHeld, Delivered, DeliverAll, NoTwice;
    var n, start := SEEN_CAP, DeliverAll(SEEN_CAP);
    RunMore(Empty(3), start, Deliver(Nth(0)));
    RunMore(Empty(3), start + [Deliver(Nth(0))], Deliver(Nth(n)));
    RunMore(Empty(3), start + [Deliver(Nth(0))] + [Deliver(Nth(n))], Deliver(Nth(0)));
    Filled(n);
    hide Run, Full;
    FirstReplayed();
    FirstForgotten(Delivered(Full(n), Nth(0)));
    ThirdCopy(Run(Empty(3), start + [Deliver(Nth(0))] + [Deliver(Nth(n))]), n);
  }

  lemma ThirdCopy(s: State, n: nat)
    requires n > 1 && s.cap == 3 && s.buffer == [Nth(n - 1), Nth(0), Nth(n)] && NthId(0) !in s.seen
    ensures Delivered(s, Nth(0)).buffer == [Nth(0), Nth(n), Nth(0)] && !NoTwice(Delivered(s, Nth(0)).buffer)
  {
    DeliverPushes(s, Nth(0));
    hide Delivered, NthId;
    assert (s.buffer + [Nth(0)])[1..] == [Nth(0), Nth(n), Nth(0)];
    assert Delivered(s, Nth(0)).buffer[0].id == Delivered(s, Nth(0)).buffer[2].id;
  }

  // ---- the memory across a merge ------------------------------------------------------------------

  /** A merge leaves more ids in memory than its cap exactly when both watches together know more. */
  lemma MergeMemoryOverCap(was: State, anew: State)
    requires Indexed(was) && Indexed(anew)
    ensures |Merged(was, anew).seenOrder| == |was.seen + anew.seen|
    ensures |Merged(was, anew).seenOrder| > SEEN_CAP <==> |was.seen + anew.seen| > SEEN_CAP
  {
    MergeIndexed(was, anew);
    DistinctCardinality(Merged(was, anew).seenOrder);
  }

  /** A memory at or over its cap keeps its size through everything but another merge: one id goes for each that comes. */
  lemma {:induction false} MemoryStays(s: State, ops: seq<Op>)
    requires |s.seenOrder| >= SEEN_CAP
    ensures |Run(s, ops).seenOrder| == |s.seenOrder|
  {
    if ops != [] { MemoryStays(s, ops[..|ops| - 1]); }
  }

  /** It does happen: a full memory, and a reconnect that brings one id more. */
  lemma MergeMemoryExample(later: seq<Op>)
    ensures var was := Run(Empty(3), DeliverAll(SEEN_CAP));
            var anew := Run(Empty(3), [Deliver(Nth(SEEN_CAP))]);
            && |Merged(was, anew).seenOrder| == SEEN_CAP + 1
            && |Run(Merged(was, anew), later).seenOrder| == SEEN_CAP + 1
  {
    hide NthId;
    var was := Run(Empty(3), DeliverAll(SEEN_CAP));
    Filled(SEEN_CAP);
    FullTidy(SEEN_CAP);
    RunOne(Empty(3), Deliver(Nth(SEEN_CAP)));
    var anew := Run(Empty(3), [Deliver(Nth(SEEN_CAP))]);
    assert anew.seen == {NthId(SEEN_CAP)} && anew.seenOrder == [NthId(SEEN_CAP)];
    NthIsNew(SEEN_CAP);
    DistinctCardinality(was.seenOrder);
    assert |was.seen + anew.seen| == SEEN_CAP + 1;
    MergeMemoryOverCap(was, anew);
    MemoryStays(Merged(was, anew), later);
  }
}
