/** How a log context is rendered under its caps (src/logctx.js), and why the reduction is the best one. */
module LogCtx {
  import opened Prelude
  import opened Sorting

  const CTX_CAP: nat := 120
  const EVIDENCE_CAP: nat := 4_000

  /** A value as its rendered text; strings by content, arrays with their length. */
  datatype Value = Scalar(text: string) | Str(raw: string) | Array(count: nat, text: string) | Object(text: string)

  datatype Entry = Entry(key: string, value: Value)

  predicate Structured(v: Value) {
    v.Array? || v.Object?
  }

  // ---- rendering --------------------------------------------------------------

  function Hex(n: nat): char
    requires n < 16
  {
    "0123456789abcdef"[n]
  }

  function Escaped(c: char): string {
    if c == '\"' then "\\\""
    else if c == '\\' then "\\\\"
    else if c as int == 8 then "\\b"
    else if c == '\n' then "\\n"
    else if c as int == 12 then "\\f"
    else if c == '\r' then "\\r"
    else if c == '\t' then "\\t"
    else if c as int < 32 then "\\u00" + [Hex(c as int / 16), Hex(c as int % 16)]
    else [c]
  }

  function EscapedAll(s: string): string {
    if s == "" then "" else EscapedAll(s[..|s| - 1]) + Escaped(s[|s| - 1])
  }

  function Quoted(s: string): string {
    "\"" + EscapedAll(s) + "\""
  }

  function Text(v: Value): string {
    if v.Str? then Quoted(v.raw) else v.text
  }

  function Item(e: Entry): string {
    Quoted(e.key) + ":" + Text(e.value)
  }

  function Items(ctx: seq<Entry>): string {
    if ctx == [] then ""
    else if |ctx| == 1 then Item(ctx[0])
    else Items(ctx[..|ctx| - 1]) + "," + Item(ctx[|ctx| - 1])
  }

  function Rendering(ctx: seq<Entry>): string {
    "{" + Items(ctx) + "}"
  }

  function Decimal(n: nat): string {
    (if n < 10 then "" else Decimal(n / 10)) + [Hex(n % 10)]
  }

  function Note(v: Value): string {
    "<" + (if v.Array? then Decimal(v.count) + " entries" else "object") + " omitted: ctx over 4000c>"
  }

  // ---- the reduction as a function ---------------------------------------------

  /** The context with the structured values of the dropped keys replaced by their notes. */
  function Reduced(ctx: seq<Entry>, dropped: set<string>): (r: seq<Entry>)
    ensures |r| == |ctx|
  {
    seq(|ctx|, i requires 0 <= i < |ctx| => Entry(ctx[i].key, Shown(ctx[i], dropped)))
  }

  function Shown(e: Entry, dropped: set<string>): Value {
    if Structured(e.value) && e.key in dropped then Str(Note(e.value)) else e.value
  }

  predicate Fits(ctx: seq<Entry>, dropped: set<string>) {
    |Rendering(Reduced(ctx, dropped))| <= EVIDENCE_CAP
  }

  function NotLater(a: string, b: string): bool {
    if a == "" then true
    else if b == "" then false
    else if a[0] != b[0] then a[0] < b[0]
    else NotLater(a[1..], b[1..])
  }

  /** Larger first, then by key. */
  function Before(): (Entry, Entry) -> bool {
    (x: Entry, y: Entry) =>
      |Text(x.value)| > |Text(y.value)| || (|Text(x.value)| == |Text(y.value)| && NotLater(x.key, y.key))
  }

  function OnlyStructured(ctx: seq<Entry>): (r: seq<Entry>)
    ensures forall e :: e in r <==> e in ctx && Structured(e.value)
  {
    if ctx == [] then []
    else
      var init, e := ctx[..|ctx| - 1], ctx[|ctx| - 1];
      assert ctx == init + [e];
      OnlyStructured(init) + if Structured(e.value) then [e] else []
  }

  function BySize(ctx: seq<Entry>): (r: seq<Entry>)
    ensures forall e :: e in r <==> e in ctx && Structured(e.value)
  {
    StableSort(Before(), OnlyStructured(ctx))
  }

  /** What a note in place of the value takes off the line. */
  function Saving(e: Entry): int {
    |Text(e.value)| - (|Note(e.value)| + 2)
  }

  function Chosen(ctx: seq<Entry>, order: seq<Entry>): set<string> {
    if order == [] then {}
    else
      var before, e := Chosen(ctx, order[..|order| - 1]), order[|order| - 1];
      if Fits(ctx, before) || Saving(e) <= 0 then before else before + {e.key}
  }

  function Dropped(ctx: seq<Entry>): set<string> {
    Chosen(ctx, BySize(ctx))
  }

  function Trimmed(v: Value): Value {
    if v.Str? && |v.raw| > CTX_CAP then Str(v.raw[..CTX_CAP] + "<cut>") else v
  }

  predicate FullFidelity(event: Option<string>) {
    event.Some? && ("armed-" <= event.value || event.value == "health-dump")
  }

  predicate Evidence(ctx: seq<Entry>) {
    exists e :: e in ctx && Structured(e.value)
  }

  function Emitted(event: Option<string>, ctx: seq<Entry>): seq<Entry> {
    if FullFidelity(event) || |Rendering(ctx)| <= CTX_CAP then ctx
    else if !Evidence(ctx) then seq(|ctx|, i requires 0 <= i < |ctx| => Entry(ctx[i].key, Trimmed(ctx[i].value)))
    else if |Rendering(ctx)| <= EVIDENCE_CAP then ctx
    else Reduced(ctx, Dropped(ctx))
  }

  ghost predicate KeysDistinct(ctx: seq<Entry>) {
    forall i, j :: 0 <= i < j < |ctx| ==> ctx[i].key != ctx[j].key
  }

  // ---- the renderer -----------------------------------------------------------------

  function Put(ctx: seq<Entry>, key: string, v: Value): seq<Entry> {
    seq(|ctx|, i requires 0 <= i < |ctx| => if ctx[i].key == key then Entry(key, v) else ctx[i])
  }

  method TrimValues(ctx: seq<Entry>) returns (trimmed: seq<Entry>)
    ensures trimmed == seq(|ctx|, i requires 0 <= i < |ctx| => Entry(ctx[i].key, Trimmed(ctx[i].value)))
  {
    trimmed := [];
    for i := 0 to |ctx|
      invariant |trimmed| == i
      invariant forall j :: 0 <= j < i ==> trimmed[j] == Entry(ctx[j].key, Trimmed(ctx[j].value))
    {
      var e := ctx[i];
      var v := if e.value.Str? && |e.value.raw| > CTX_CAP then Str(e.value.raw[..CTX_CAP] + "<cut>") else e.value;
      trimmed := trimmed + [Entry(e.key, v)];
    }
  }

  method Reduce(ctx: seq<Entry>) returns (reduced: seq<Entry>)
    requires KeysDistinct(ctx)
    ensures reduced == Reduced(ctx, Dropped(ctx))
  {
    hide StableSort, Rendering, Note, Text, NotLater, KeysDistinct;
    reduced := ctx;
    assert ctx == Reduced(ctx, {});
    hide Reduced, Put, OnlyStructured;
    var bySize := BySize(ctx);
    for i := 0 to |bySize|
      invariant reduced == Reduced(ctx, Chosen(ctx, bySize[..i]))
    {
      assert bySize[..i + 1][..i] == bySize[..i];
      if |Rendering(reduced)| <= EVIDENCE_CAP {
        ChosenSettles(ctx, bySize, i);
        return;
      }
      var e := bySize[i];
      var note := Note(e.value);
      if |note| + 2 >= |Text(e.value)| { continue; }
      PutDrops(ctx, Chosen(ctx, bySize[..i]), e);
      reduced := Put(reduced, e.key, Str(note));
    }
    assert bySize[..|bySize|] == bySize;
  }

  lemma PutDrops(ctx: seq<Entry>, dropped: set<string>, e: Entry)
    requires KeysDistinct(ctx) && e in ctx && Structured(e.value)
    ensures Put(Reduced(ctx, dropped), e.key, Str(Note(e.value))) == Reduced(ctx, dropped + {e.key})
  {
    hide Note;
  }

  /** Once the line fits, nothing further is dropped. */
  lemma {:induction false} ChosenSettles(ctx: seq<Entry>, order: seq<Entry>, i: nat)
    requires i <= |order| && Fits(ctx, Chosen(ctx, order[..i]))
    ensures Chosen(ctx, order) == Chosen(ctx, order[..i])
    decreases |order|
  {
    if i < |order| {
      var init := order[..|order| - 1];
      assert init[..i] == order[..i];
      ChosenSettles(ctx, init, i);
    } else {
      assert order[..i] == order;
    }
  }

  method RenderCtx(event: Option<string>, ctx: seq<Entry>) returns (line: string)
    requires KeysDistinct(ctx)
    ensures line == Rendering(Emitted(event, ctx))
  {
    line := Rendering(ctx);
    if FullFidelity(event) || |line| <= CTX_CAP { return; }
    if !Evidence(ctx) {
      var trimmed := TrimValues(ctx);
      return Rendering(trimmed);
    }
    if |line| <= EVIDENCE_CAP { return; }
    var reduced := Reduce(ctx);
    line := Rendering(reduced);
  }
}
