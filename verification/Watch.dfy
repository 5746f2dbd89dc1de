/**
 * The arrival buffer behind watch and poll (src/mcp-watch.js), and the merge that carries a buffer
 * over a reconnect (src/mcp-session.js).
 */
module Watch {
  import opened Prelude

  const BUFFER_CAP_DEFAULT: int := 1000
  const SEEN_CAP: nat := 50_000

  datatype Msg = Msg(id: Option<string>, body: string)

  datatype State = State(
    buffer: seq<Msg>, seen: set<string>, seenOrder: seq<string>,
    total: nat, replayed: nat, drained: nat, dropped: nat, cap: int)

  function Empty(cap: int): State {
    State([], {}, [], 0, 0, 0, 0, if cap == 0 then BUFFER_CAP_DEFAULT else cap)
  }

  predicate Holds(buffer: seq<Msg>, id: string) {
    exists m :: m in buffer && m.id == Some(id)
  }

  // ---- deliver and collect as functions of the record --------------------------------

  predicate Ignored(s: State, m: Msg) {
    m.id.Some? && m.id.value in s.seen && Holds(s.buffer, m.id.value)
  }

  function Remember(s: State, id: string): State {
    var order := s.seenOrder + [id];
    var seen := s.seen + {id};
    if |order| > SEEN_CAP then s.(seen := seen - {order[0]}, seenOrder := order[1..])
    else s.(seen := seen, seenOrder := order)
  }

  function Counted(s: State, m: Msg): State {
    if m.id.Some? && m.id.value in s.seen then s.(replayed := s.replayed + 1)
    else
      var t := s.(total := s.total + 1);
      if m.id.Some? then Remember(t, m.id.value) else t
  }

  predicate Evicts(s: State) {
    |s.buffer| + 1 > s.cap
  }

  function Pushed(s: State, m: Msg): State {
    if Evicts(s) then s.(buffer := (s.buffer + [m])[1..], dropped := s.dropped + 1)
    else s.(buffer := s.buffer + [m])
  }

  function Delivered(s: State, m: Msg): State {
    if Ignored(s, m) then s else Pushed(Counted(s, m), m)
  }

  /** How many messages `slice(0, max)` takes: an absent or zero max takes all, a negative one counts back. */
  function Taken(length: nat, max: Option<int>): (n: nat)
    ensures n <= length
  {
    if max.None? || max.value == 0 then length
    else if max.value > 0 then (if max.value < length then max.value else length)
    else if length + max.value > 0 then length + max.value
    else 0
  }

  function Collected(s: State, peek: bool, max: Option<int>): State {
    var n := Taken(|s.buffer|, max);
    if peek then s else s.(buffer := s.buffer[n..], drained := s.drained + n)
  }

  // ---- the reconnect merge --------------------------------------------------------------

  function Carried(prior: seq<Msg>, anew: seq<Msg>): seq<Msg> {
    if prior == [] then []
    else
      var rest, m := Carried(prior[..|prior| - 1], anew), prior[|prior| - 1];
      if m.id.Some? && Holds(anew, m.id.value) then rest else rest + [m]
  }

  function Unknown(ids: seq<string>, seen: set<string>): seq<string> {
    if ids == [] then []
    else
      var rest, id := Unknown(ids[..|ids| - 1], seen), ids[|ids| - 1];
      if id in seen then rest else rest + [id]
  }

  ghost function Merged(was: State, anew: State): State {
    var seen := anew.seen + Elements(was.seenOrder);
    State(Carried(was.buffer, anew.buffer) + anew.buffer, seen,
          anew.seenOrder + Unknown(was.seenOrder, anew.seen),
          if anew.total > |seen| then anew.total else |seen|,
          anew.replayed + was.replayed, anew.drained + was.drained, anew.dropped + was.dropped, anew.cap)
  }

  /** The order list names each remembered id once, and no other. */
  ghost predicate Indexed(s: State) {
    Distinct(s.seenOrder) && s.seen == Elements(s.seenOrder)
  }

  // ---- the record the code keeps ----------------------------------------------------------

  class Record {
    var buffer: seq<Msg>
    var seen: set<string>
    var seenOrder: seq<string>
    var total: nat
    var replayed: nat
    var drained: nat
    var dropped: nat
    const cap: int
    ghost var accepted: seq<Msg>   // every message ever put in the buffer, in order
    ghost var removed: seq<Msg>    // every message drained or evicted, in order

    ghost function Now(): State reads this {
      State(buffer, seen, seenOrder, total, replayed, drained, dropped, cap)
    }

    /** What was accepted is what left by the front followed by what is still here. */
    ghost predicate Conserved() reads this {
      && accepted == removed + buffer
      && |accepted| == total + replayed && |removed| == drained + dropped
      && (|buffer| <= cap || |buffer| == 0)
    }

    constructor (bufferCap: int)
      ensures Now() == Empty(bufferCap) && Conserved() && accepted == []
    {
      buffer, seen, seenOrder := [], {}, [];
      total, replayed, drained, dropped := 0, 0, 0, 0;
      cap := if bufferCap == 0 then BUFFER_CAP_DEFAULT else bufferCap;
      accepted, removed := [], [];
    }

    method Count(m: Msg, known: bool)
      requires known == (m.id.Some? && m.id.value in seen)
      modifies `seen, `seenOrder, `total, `replayed
      ensures Now() == Counted(old(Now()), m)
    {
      if known {
        replayed := replayed + 1;
      } else {
        total := total + 1;
        if m.id.Some? {
          seen := seen + {m.id.value};
          seenOrder := seenOrder + [m.id.value];
          if |seenOrder| > SEEN_CAP {
            seen := seen - {seenOrder[0]};
            seenOrder := seenOrder[1..];
          }
        }
      }
    }

    method Push(m: Msg)
      modifies `buffer, `dropped, `accepted, `removed
      ensures Now() == Pushed(old(Now()), m)
      ensures accepted == old(accepted) + [m]
      ensures old(accepted == removed + buffer) ==> accepted == removed + buffer
      ensures |removed| - dropped == old(|removed| - dropped)
      ensures |buffer| <= cap || |buffer| <= old(|buffer|)
    {
      buffer := buffer + [m];
      accepted := accepted + [m];
      if |buffer| > cap {
        removed := removed + [buffer[0]];
        buffer := buffer[1..];
        dropped := dropped + 1;
      }
    }

    method Deliver(m: Msg) returns (buffered: bool, duplicate: bool)
      modifies this
      ensures Now() == Delivered(old(Now()), m)
      ensures buffered == !Ignored(old(Now()), m) && duplicate == (m.id.Some? && m.id.value in old(seen))
      ensures accepted == old(accepted) + if buffered then [m] else []
      ensures old(Conserved()) ==> Conserved()
    {
      hide Counted, Pushed;
      var known := m.id.Some? && m.id.value in seen;
      if known && Holds(buffer, m.id.value) { return false, true; }
      CountedAddsOne(Now(), m);
      Count(m, known);
      Push(m);
      return true, known;
    }

    method Collect(peek: bool, max: Option<int>) returns (out: seq<Msg>)
      modifies this
      ensures Now() == Collected(old(Now()), peek, max)
      ensures out == old(buffer)[..Taken(|old(buffer)|, max)]
      ensures accepted == old(accepted)
      ensures old(Conserved()) ==> Conserved()
    {
      out := buffer[..Taken(|buffer|, max)];
      if !peek {
        removed := removed + out;
        buffer := buffer[|out|..];
        drained := drained + |out|;
      }
    }

    method CarryOver(was: Record)
      requires was != this
      modifies `buffer
      ensures buffer == Carried(was.buffer, old(buffer)) + old(buffer)
    {
      var carry: seq<Msg> := [];
      for i := 0 to |was.buffer|
        invariant carry == Carried(was.buffer[..i], buffer)
        invariant buffer == old(buffer)
      {
        assert was.buffer[..i + 1][..i] == was.buffer[..i];
        var m := was.buffer[i];
        if m.id.None? || !Holds(buffer, m.id.value) { carry := carry + [m]; }
      }
      assert was.buffer[..|was.buffer|] == was.buffer;
      buffer := carry + buffer;
    }

    method LearnIds(was: Record)
      requires was != this && Distinct(was.seenOrder)
      modifies `seen, `seenOrder
      ensures seen == old(seen) + Elements(was.seenOrder)
      ensures seenOrder == old(seenOrder) + Unknown(was.seenOrder, old(seen))
    {
      for i := 0 to |was.seenOrder|
        invariant seen == old(seen) + Elements(was.seenOrder[..i])
        invariant seenOrder == old(seenOrder) + Unknown(was.seenOrder[..i], old(seen))
      {
        var id := was.seenOrder[i];
        assert was.seenOrder[..i + 1][..i] == was.seenOrder[..i];
        assert Elements(was.seenOrder[..i + 1]) == Elements(was.seenOrder[..i]) + {id};
        assert id !in was.seenOrder[..i];
        if id !in seen {
          seen := seen + {id};
          seenOrder := seenOrder + [id];
        }
      }
      assert was.seenOrder[..|was.seenOrder|] == was.seenOrder;
    }

    /** Takes over the buffer and counters of the record this one replaces. */
    method Adopt(was: Record)
      requires was != this && Indexed(was.Now())
      modifies this
      ensures Now() == Merged(was.Now(), old(Now()))
    {
      CarryOver(was);
      LearnIds(was);
      total := if total > |seen| then total else |seen|;
      drained, replayed, dropped := drained + was.drained, replayed + was.replayed, dropped + was.dropped;
    }
  }

  lemma CountedAddsOne(s: State, m: Msg)
    ensures Counted(s, m).total + Counted(s, m).replayed == s.total + s.replayed + 1
    ensures Counted(s, m).buffer == s.buffer && Counted(s, m).cap == s.cap
    ensures Counted(s, m).drained == s.drained && Counted(s, m).dropped == s.dropped
  {
  }
}
