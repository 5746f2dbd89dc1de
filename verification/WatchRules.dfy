/** What one delivery, one collection and one merge do to a watch, and when a run loses anything (src/mcp-watch.js). */
module WatchRules {
  import opened Prelude
  import opened Watch
  import opened WatchRuns

  /** A watch starts empty, with the cap asked for, or a thousand for none. */
  lemma StartsEmpty(cap: int)
    ensures Empty(0).cap == 1000 && (cap != 0 ==> Empty(cap).cap == cap)
    ensures Empty(cap).buffer == [] && Empty(cap).seenOrder == [] && Empty(cap).seen == {} && Empty(cap).total == 0
  {
  }

  /** How the counters and the memory take a message: new, replayed, or a duplicate that is ignored. */
  lemma DeliveryCounts(s: State, m: Msg)
    ensures var d := Delivered(s, m);
            && (m.id.None? ==> d.total == s.total + 1 && d.replayed == s.replayed && d.seenOrder == s.seenOrder && d.seen == s.seen)
            && (m.id.Some? && m.id.value !in s.seen ==>
                  && d.total == s.total + 1 && d.replayed == s.replayed
                  && (|s.seenOrder| < 50_000 ==> d.seenOrder == s.seenOrder + [m.id.value] && d.seen == s.seen + {m.id.value})
                  && (|s.seenOrder| >= 50_000 ==> d.seenOrder == s.seenOrder[1..] + [m.id.value]))
            && (m.id.Some? && m.id.value in s.seen && (forall x :: x in s.buffer ==> x.id != m.id) ==>
                  d.total == s.total && d.replayed == s.replayed + 1 && d.seenOrder == s.seenOrder && d.seen == s.seen)
            && (m.id.Some? && m.id.value in s.seen && (exists x :: x in s.buffer && x.id == m.id) ==> d == s)
  {
    if m.id.Some? {
      assert Holds(s.buffer, m.id.value) <==> exists x :: x in s.buffer && x.id == m.id;
      if |s.seenOrder| >= 50_000 { assert (s.seenOrder + [m.id.value])[1..] == s.seenOrder[1..] + [m.id.value]; }
    }
  }

  /** A message that is not ignored goes in last; nothing leaves while there is room, and the oldest goes when there is none. */
  lemma DeliveryBuffers(s: State, m: Msg)
    requires m.id.None? || m.id.value !in s.seen || forall x :: x in s.buffer ==> x.id != m.id
    ensures |s.buffer| < s.cap ==> Delivered(s, m).buffer == s.buffer + [m] && Delivered(s, m).dropped == s.dropped
    ensures |s.buffer| >= s.cap && s.buffer != [] ==>
              Delivered(s, m).buffer == s.buffer[1..] + [m] && Delivered(s, m).dropped == s.dropped + 1
    ensures Delivered(s, m).drained == s.drained && Delivered(s, m).cap == s.cap
  {
    CountedAddsOne(s, m);
    assert !Ignored(s, m);
    if s.buffer != [] { assert (s.buffer + [m])[1..] == s.buffer[1..] + [m]; }
  }

  /** A collection hands out the first messages: as many as asked for and there, all without a limit, and a peek leaves them. */
  lemma CollectionTakes(s: State, max: Option<int>)
    ensures var n := Taken(|s.buffer|, max);
            && (max.None? || max == Some(0) ==> n == |s.buffer|)
            && (max.Some? && 0 < max.value <= |s.buffer| ==> n == max.value)
            && (max.Some? && max.value > |s.buffer| ==> n == |s.buffer|)
            && (max.Some? && -|s.buffer| <= max.value < 0 ==> n == |s.buffer| + max.value)
            && (max.Some? && max.value < -|s.buffer| ==> n == 0)
            && Collected(s, false, max).buffer == s.buffer[n..] && Collected(s, false, max).drained == s.drained + n
            && Collected(s, false, max).dropped == s.dropped && Collected(s, true, max) == s
  {
  }

  /** A merge adds the counters of both, each to its own. */
  lemma MergeAdds(was: State, anew: State)
    ensures var m := Merged(was, anew);
            && m.replayed == was.replayed + anew.replayed && m.drained == was.drained + anew.drained
            && m.dropped == was.dropped + anew.dropped && m.cap == anew.cap
            && m.total >= anew.total && m.total >= |m.seen| && (m.total == anew.total || m.total == |m.seen|)
  {
  }

  // ---- when a run loses anything --------------------------------------------------------------

  /** The messages accepted and not yet drained: those still buffered, and those lost. */
  ghost function Outstanding(cap: int, ops: seq<Op>): int {
    |Accepted(Empty(cap), ops)| - Run(Empty(cap), ops).drained
  }

  lemma OutstandingMeans(cap: int, ops: seq<Op>)
    ensures Outstanding(cap, ops) == Run(Empty(cap), ops).dropped + |Run(Empty(cap), ops).buffer|
  {
    hide Run, Accepted, Removed;
    RunConserves(cap, ops);
  }

  lemma StepDrops(s: State, op: Op)
    requires s.cap >= 1 && |s.buffer| <= s.cap
    ensures Step(s, op).dropped >= s.dropped && Step(s, op).cap == s.cap && |Step(s, op).buffer| <= s.cap
    ensures Step(s, op).dropped > s.dropped ==> |Step(s, op).buffer| == s.cap
  {
    if op.Deliver? && !Ignored(s, op.m) { CountedAddsOne(s, op.m); }
  }

  lemma {:induction false} RunKeepsCap(cap: int, ops: seq<Op>)
    requires Empty(cap).cap >= 1
    ensures Run(Empty(cap), ops).cap == Empty(cap).cap && |Run(Empty(cap), ops).buffer| <= Empty(cap).cap
  {
    if ops != [] {
      RunKeepsCap(cap, ops[..|ops| - 1]);
      StepDrops(Run(Empty(cap), ops[..|ops| - 1]), ops[|ops| - 1]);
    }
  }

  /** At no moment of the run more messages are accepted and not yet drained than the cap allows. */
  ghost predicate Fits(cap: int, ops: seq<Op>) {
    forall n :: 0 <= n <= |ops| ==> Outstanding(cap, ops[..n]) <= Empty(cap).cap
  }

  lemma FitsStep(cap: int, ops: seq<Op>)
    requires ops != []
    ensures Fits(cap, ops) <==> Fits(cap, ops[..|ops| - 1]) && Outstanding(cap, ops) <= Empty(cap).cap
  {
    hide Outstanding;
    var init := ops[..|ops| - 1];
    assert ops[..|ops|] == ops;
    forall n | 0 <= n <= |init| ensures init[..n] == ops[..n] {}
    if Fits(cap, init) && Outstanding(cap, ops) <= Empty(cap).cap {
      forall n | 0 <= n <= |ops| ensures Outstanding(cap, ops[..n]) <= Empty(cap).cap {
        if n <= |init| { assert Outstanding(cap, init[..n]) <= Empty(cap).cap; }
      }
    }
    if Fits(cap, ops) {
      forall n | 0 <= n <= |init| ensures Outstanding(cap, init[..n]) <= Empty(cap).cap {
        assert Outstanding(cap, ops[..n]) <= Empty(cap).cap;
      }
    }
  }

  /** A run loses nothing exactly when it always fits. */
  lemma {:induction false} LosesExactly(cap: int, ops: seq<Op>)
    requires Empty(cap).cap >= 1
    ensures Run(Empty(cap), ops).dropped == 0 <==> Fits(cap, ops)
  {
    OutstandingMeans(cap, ops);
    RunKeepsCap(cap, ops);
    hide Outstanding, Step;
    if ops == [] {
      assert ops[..0] == ops;
    } else {
      hide Fits;
      var init := ops[..|ops| - 1];
      LosesExactly(cap, init);
      FitsStep(cap, ops);
      OutstandingMeans(cap, init);
      RunKeepsCap(cap, init);
      StepDrops(Run(Empty(cap), init), ops[|ops| - 1]);
    }
  }
}
