/** What the largest-first reduction of a log context keeps, and that no other choice of drops does better. */
module LogReduction {
  import opened Prelude
  import opened Sorting
  import opened LogCtx

  // ---- lengths ------------------------------------------------------------------

  predicate Ordinary(c: char) {
    c != '\"' && c != '\\' && c as int >= 32
  }

  ghost predicate Plain(s: string) {
    forall i :: 0 <= i < |s| ==> Ordinary(s[i])
  }

  lemma {:induction false} PlainLength(s: string)
    requires Plain(s)
    ensures |EscapedAll(s)| == |s|
  {
    if s != "" { PlainLength(s[..|s| - 1]); }
  }

  lemma {:induction false} DecimalPlain(n: nat)
    ensures Plain(Decimal(n))
  {
    assert forall d | 0 <= d < 16 :: Ordinary(Hex(d));
    if n >= 10 { DecimalPlain(n / 10); }
  }

  lemma PlainJoin(a: string, b: string)
    requires Plain(a) && Plain(b)
    ensures Plain(a + b)
  {
  }

  lemma NoteLength(v: Value)
    ensures |Quoted(Note(v))| == |Note(v)| + 2
  {
    hide Ordinary;
    var kind := if v.Array? then Decimal(v.count) + " entries" else "object";
    PlainWords();
    if v.Array? {
      DecimalPlain(v.count);
      PlainJoin(Decimal(v.count), " entries");
    }
    PlainJoin("<", kind);
    PlainJoin("<" + kind, " omitted: ctx over 4000c>");
    PlainLength(Note(v));
  }

  lemma PlainWords()
    ensures Plain("<") && Plain(" entries") && Plain("object") && Plain(" omitted: ctx over 4000c>")
  {
  }

  ghost function Cost(e: Entry, dropped: set<string>): nat {
    |Item(Entry(e.key, Shown(e, dropped)))| + 1
  }

  ghost function Weight(ctx: seq<Entry>, dropped: set<string>): nat {
    if ctx == [] then 0 else Weight(ctx[..|ctx| - 1], dropped) + Cost(ctx[|ctx| - 1], dropped)
  }

  lemma {:induction false} ItemsLength(ctx: seq<Entry>, dropped: set<string>)
    requires ctx != []
    ensures |Items(Reduced(ctx, dropped))| + 1 == Weight(ctx, dropped)
  {
    var init, r := ctx[..|ctx| - 1], Reduced(ctx, dropped);
    assert r[..|r| - 1] == Reduced(init, dropped);
    if |ctx| > 1 { ItemsLength(init, dropped); }
    else { assert Weight(init, dropped) == 0; }
  }

  lemma FitsByWeight(ctx: seq<Entry>, dropped: set<string>)
    ensures Fits(ctx, dropped) <==> Weight(ctx, dropped) < EVIDENCE_CAP
  {
    if ctx != [] { ItemsLength(ctx, dropped); }
  }

  lemma CostChange(e: Entry, dropped: set<string>, k: string)
    ensures e.key != k ==> Cost(e, dropped + {k}) == Cost(e, dropped)
    ensures e.key == k && Structured(e.value) && k !in dropped ==> Cost(e, dropped + {k}) == Cost(e, dropped) - Saving(e)
  {
    NoteLength(e.value);
    hide Note, Quoted;
  }

  lemma {:induction false} OtherKeyWeight(ctx: seq<Entry>, dropped: set<string>, k: string)
    requires forall e :: e in ctx ==> e.key != k
    ensures Weight(ctx, dropped + {k}) == Weight(ctx, dropped)
  {
    if ctx != [] {
      OtherKeyWeight(ctx[..|ctx| - 1], dropped, k);
      CostChange(ctx[|ctx| - 1], dropped, k);
    }
  }

  /** Dropping one more value takes exactly its saving off the line. */
  lemma {:induction false} DropSaves(ctx: seq<Entry>, dropped: set<string>, e: Entry)
    requires KeysDistinct(ctx) && e in ctx && Structured(e.value) && e.key !in dropped
    ensures Weight(ctx, dropped + {e.key}) == Weight(ctx, dropped) - Saving(e)
  {
    hide Cost, Saving;
    var init, last := ctx[..|ctx| - 1], ctx[|ctx| - 1];
    CostChange(last, dropped, e.key);
    if last == e {
      OtherKeyWeight(init, dropped, e.key);
    } else {
      DropSaves(init, dropped, e);
    }
  }

  // ---- the drops, in order -----------------------------------------------------------

  /** The keys worth dropping: those whose note is shorter than the value. */
  ghost function Worth(order: seq<Entry>): set<string> {
    set e | e in order && Saving(e) > 0 :: e.key
  }

  ghost function Keys(order: seq<Entry>): set<string> {
    set e | e in order :: e.key
  }

  /** How far down the order the reduction goes before the line fits. */
  ghost function Stop(ctx: seq<Entry>, order: seq<Entry>): (n: nat)
    ensures n <= |order|
  {
    if order == [] then 0
    else
      var init := order[..|order| - 1];
      var j := Stop(ctx, init);
      if j < |init| || Fits(ctx, Worth(init)) then j else |order|
  }

  lemma WorthStep(order: seq<Entry>, i: nat)
    requires i < |order|
    ensures Saving(order[i]) > 0 ==> Worth(order[..i + 1]) == Worth(order[..i]) + {order[i].key}
    ensures Saving(order[i]) <= 0 ==> Worth(order[..i + 1]) == Worth(order[..i])
    ensures Worth(order[..i]) <= Keys(order[..i])
    ensures Keys(order[..i + 1]) == Keys(order[..i]) + {order[i].key}
  {
    hide Saving;
    assert order[..i + 1] == order[..i] + [order[i]];
  }

  /** What is dropped is every key worth dropping before the stop; before it nothing fitted, at it the line fits. */
  lemma {:induction false} ChosenUntilStop(ctx: seq<Entry>, order: seq<Entry>)
    ensures var n := Stop(ctx, order);
            && Chosen(ctx, order) == Worth(order[..n])
            && (forall l :: 0 <= l < n ==> !Fits(ctx, Worth(order[..l])))
            && (n < |order| ==> Fits(ctx, Worth(order[..n])))
  {
    hide Saving, Fits;
    if order != [] {
      var init := order[..|order| - 1];
      ChosenUntilStop(ctx, init);
      WorthStep(order, |init|);
      assert order[..|order|] == order && init[..|init|] == init;
      forall l | 0 <= l <= |init| ensures order[..l] == init[..l] {}
      if Stop(ctx, init) == |init| && !Fits(ctx, Worth(init)) {
        forall l | 0 <= l < |order| ensures !Fits(ctx, Worth(order[..l])) {
          if l < |init| { assert !Fits(ctx, Worth(init[..l])); }
        }
      }
    }
  }

  /** The structured entries of a context, each once, in the order they would be dropped. */
  ghost predicate DropOrder(ctx: seq<Entry>, order: seq<Entry>) {
    && KeysDistinct(ctx) && KeysDistinct(order)
    && (forall e :: e in order <==> e in ctx && Structured(e.value))
  }

  lemma {:induction false} OnlyStructuredDistinct(ctx: seq<Entry>)
    requires KeysDistinct(ctx)
    ensures KeysDistinct(OnlyStructured(ctx))
  {
    if ctx != [] {
      var init := ctx[..|ctx| - 1];
      OnlyStructuredDistinct(init);
      assert forall e :: e in OnlyStructured(init) ==> e in init;
    }
  }

  /** Distinctness of keys passes to any rearrangement. */
  lemma DistinctRearranged(a: seq<Entry>, b: seq<Entry>)
    requires multiset(a) == multiset(b) && KeysDistinct(a)
    ensures KeysDistinct(b)
  {
    forall i, j | 0 <= i < j < |b| ensures b[i].key != b[j].key {
      assert b[i] in multiset(b) && b[j] in multiset(b);
      assert b[i] in a && b[j] in a;
      if b[i] == b[j] {
        Twice(b, i, j);
        NotTwice(a, b[i]);
      }
    }
  }

  lemma Twice(s: seq<Entry>, i: nat, j: nat)
    requires i < j < |s| && s[i] == s[j]
    ensures multiset(s)[s[i]] >= 2
  {
    assert s == s[..i] + [s[i]] + s[i + 1..j] + [s[j]] + s[j + 1..];
  }

  lemma NotTwice(s: seq<Entry>, x: Entry)
    requires KeysDistinct(s) && x in s
    ensures multiset(s)[x] == 1
  {
    var i :| 0 <= i < |s| && s[i] == x;
    assert s == s[..i] + [x] + s[i + 1..];
    assert x !in s[..i] && x !in s[i + 1..];
  }

  lemma BySizeOrder(ctx: seq<Entry>)
    requires KeysDistinct(ctx)
    ensures DropOrder(ctx, BySize(ctx))
  {
    OnlyStructuredDistinct(ctx);
    SortKeeps(Before(), OnlyStructured(ctx));
    DistinctRearranged(OnlyStructured(ctx), BySize(ctx));
  }

  /** A key at position `i` is not among the earlier ones. */
  lemma KeyNew(order: seq<Entry>, i: nat)
    requires KeysDistinct(order) && i < |order|
    ensures order[i].key !in Keys(order[..i]) && order[i].key !in Worth(order[..i])
  {
  }

  /** Each drop made shortens the line. */
  lemma EachDropShortens(ctx: seq<Entry>, order: seq<Entry>, i: nat)
    requires DropOrder(ctx, order) && i < |order| && Saving(order[i]) > 0
    ensures Weight(ctx, Worth(order[..i + 1])) < Weight(ctx, Worth(order[..i]))
  {
    hide Saving;
    WorthStep(order, i);
    KeyNew(order, i);
    DropSaves(ctx, Worth(order[..i]), order[i]);
  }

  /** Where the last drop is made: the greatest position before `n` worth dropping. */
  ghost function LastWorth(order: seq<Entry>, n: nat): (l: nat)
    requires n <= |order| && Worth(order[..n]) != {}
    ensures l < n && Saving(order[l]) > 0 && Worth(order[..n]) == Worth(order[..l]) + {order[l].key}
  {
    assert n > 0;
    WorthStep(order, n - 1);
    if Saving(order[n - 1]) > 0 then n - 1 else LastWorth(order, n - 1)
  }

  lemma WithoutLast(ctx: seq<Entry>, order: seq<Entry>)
    requires KeysDistinct(order) && Chosen(ctx, order) != {}
    ensures var n := Stop(ctx, order);
            && Worth(order[..n]) == Chosen(ctx, order)
            && order[LastWorth(order, n)].key in Chosen(ctx, order)
            && !Fits(ctx, Chosen(ctx, order) - {order[LastWorth(order, n)].key})
  {
    hide Fits, Saving;
    ChosenUntilStop(ctx, order);
    var l := LastWorth(order, Stop(ctx, order));
    KeyNew(order, l);
    hide Worth, Chosen, Stop, LastWorth, KeysDistinct;
    assert Chosen(ctx, order) - {order[l].key} == Worth(order[..l]);
  }

  /** The last drop was needed: without it the line is over the cap. */
  lemma LastDropNeeded(ctx: seq<Entry>)
    requires KeysDistinct(ctx) && Dropped(ctx) != {}
    ensures Worth(BySize(ctx)[..Stop(ctx, BySize(ctx))]) == Dropped(ctx)
    ensures var last := BySize(ctx)[LastWorth(BySize(ctx), Stop(ctx, BySize(ctx)))].key;
            last in Dropped(ctx) && !Fits(ctx, Dropped(ctx) - {last})
  {
    BySizeOrder(ctx);
    WithoutLast(ctx, BySize(ctx));
  }

  // ---- no choice of drops does better -------------------------------------------------

  /** Dropping everything worth dropping gives the shortest line there is. */
  lemma {:induction false} WorthIsShortest(ctx: seq<Entry>, order: seq<Entry>, n: nat, t: set<string>)
    requires DropOrder(ctx, order) && n <= |order| && t <= Keys(order[..n])
    ensures Weight(ctx, Worth(order[..n])) <= Weight(ctx, t)
    decreases n
  {
    hide Weight, DropOrder, Saving;
    if n == 0 {
      NothingToDrop(order, t);
    } else {
      hide Worth, Keys;
      var e := order[n - 1];
      WorthStep(order, n - 1);
      var rest := t - {e.key};
      WorthIsShortest(ctx, order, n - 1, rest);
      DropAt(ctx, order, n - 1, Worth(order[..n - 1]));
      if e.key in t {
        DropAt(ctx, order, n - 1, rest);
        assert t == rest + {e.key};
      } else {
        assert t == rest;
      }
    }
  }

  lemma NothingToDrop(order: seq<Entry>, t: set<string>)
    requires t <= Keys(order[..0])
    ensures t == {} && Worth(order[..0]) == {}
  {
  }

  lemma DropAt(ctx: seq<Entry>, order: seq<Entry>, i: nat, d: set<string>)
    requires DropOrder(ctx, order) && i < |order| && d <= Keys(order[..i])
    ensures order[i].key !in d
    ensures Weight(ctx, d + {order[i].key}) == Weight(ctx, d) - Saving(order[i])
  {
    hide Saving, Weight;
    KeyNew(order, i);
    DropSaves(ctx, d, order[i]);
  }

  /**
   * The emitted line is over the cap only when every choice of notes is: it fits exactly when some
   * choice fits.
   */
  lemma FitsWhenAnythingDoes(ctx: seq<Entry>, t: set<string>)
    requires KeysDistinct(ctx) && t <= Keys(OnlyStructured(ctx)) && Fits(ctx, t)
    ensures Fits(ctx, Dropped(ctx))
  {
    var order := BySize(ctx);
    BySizeOrder(ctx);
    assert Keys(order) == Keys(OnlyStructured(ctx));
    ShortestFits(ctx, order, t);
  }

  lemma ShortestFits(ctx: seq<Entry>, order: seq<Entry>, t: set<string>)
    requires DropOrder(ctx, order) && t <= Keys(order) && Fits(ctx, t)
    ensures Fits(ctx, Chosen(ctx, order))
  {
    hide DropOrder, Saving, Fits, Weight, Keys;
    ChosenUntilStop(ctx, order);
    assert order[..|order|] == order;
    WorthIsShortest(ctx, order, |order|, t);
    FitsByWeight(ctx, t);
    FitsByWeight(ctx, Worth(order));
  }

  /** Over the cap, each structured value left is no longer than its note. */
  lemma OverCapMeans(ctx: seq<Entry>, e: Entry)
    requires KeysDistinct(ctx) && !Fits(ctx, Dropped(ctx))
    requires e in ctx && Structured(e.value) && e.key !in Dropped(ctx)
    ensures |Text(e.value)| <= |Note(e.value)| + 2
  {
    hide Fits, Note, Text;
    var order := BySize(ctx);
    ChosenUntilStop(ctx, order);
    assert order[..|order|] == order && e in order;
  }

  // ---- fewest drops ------------------------------------------------------------------------

  ghost predicate Decreasing(order: seq<Entry>) {
    forall i, j :: 0 <= i < j < |order| ==> Saving(order[i]) >= Saving(order[j])
  }

  /** With larger savings first, the first |t| values save at least what `t` saves. */
  lemma {:induction false} FirstSaveMost(ctx: seq<Entry>, order: seq<Entry>, n: nat, t: set<string>)
    requires DropOrder(ctx, order) && Decreasing(order) && n <= |order| && t <= Keys(order[..n])
    ensures |t| <= n && Weight(ctx, Worth(order[..|t|])) <= Weight(ctx, t)
    decreases n
  {
    hide Weight, DropOrder, Saving, Decreasing;
    if n == 0 {
      NothingToDrop(order, t);
    } else {
      hide Worth, Keys;
      var e := order[n - 1];
      WorthStep(order, n - 1);
      var rest := t - {e.key};
      FirstSaveMost(ctx, order, n - 1, rest);
      if e.key in t {
        assert t == rest + {e.key} && |t| == |rest| + 1;
        DropAt(ctx, order, n - 1, rest);
        TakeNext(ctx, order, |rest|, n - 1);
      } else {
        assert t == rest;
      }
    }
  }

  lemma TakeNext(ctx: seq<Entry>, order: seq<Entry>, i: nat, j: nat)
    requires DropOrder(ctx, order) && Decreasing(order) && i <= j < |order|
    ensures Weight(ctx, Worth(order[..i + 1])) <= Weight(ctx, Worth(order[..i])) - Saving(order[j])
  {
    hide Weight, DropOrder, Saving, Worth, Keys;
    WorthStep(order, i);
    DropAt(ctx, order, i, Worth(order[..i]));
  }

  lemma {:induction false} WorthSize(order: seq<Entry>, n: nat)
    requires n <= |order|
    ensures |Worth(order[..n])| <= n
  {
    if n == 0 {
      NothingToDrop(order, {});
    } else {
      hide Worth, Keys, Saving;
      WorthSize(order, n - 1);
      WorthStep(order, n - 1);
    }
  }

  lemma FewestChosen(ctx: seq<Entry>, order: seq<Entry>, t: set<string>)
    requires DropOrder(ctx, order) && Decreasing(order) && t <= Keys(order) && Fits(ctx, t)
    ensures |Chosen(ctx, order)| <= |t|
  {
    hide DropOrder, Saving, Fits, Weight, Decreasing, Keys;
    ChosenUntilStop(ctx, order);
    assert order[..|order|] == order;
    FirstSaveMost(ctx, order, |order|, t);
    FitsByWeight(ctx, t);
    FitsByWeight(ctx, Worth(order[..|t|]));
    var n := Stop(ctx, order);
    assert !(|t| < n);
    WorthSize(order, n);
  }

  lemma {:induction false} NotLaterTotal(a: string, b: string)
    ensures NotLater(a, b) || NotLater(b, a)
    ensures NotLater(a, b) && NotLater(b, a) ==> a == b
  {
    if a != "" && b != "" && a[0] == b[0] {
      NotLaterTotal(a[1..], b[1..]);
      assert a == [a[0]] + a[1..] && b == [b[0]] + b[1..];
    }
  }

  lemma {:induction false} NotLaterTransitive(a: string, b: string, c: string)
    requires NotLater(a, b) && NotLater(b, c)
    ensures NotLater(a, c)
  {
    if a != "" && b != "" && c != "" && a[0] == b[0] == c[0] { NotLaterTransitive(a[1..], b[1..], c[1..]); }
  }

  lemma BeforeIsPreorder()
    ensures TotalPreorder(Before())
  {
    hide Text;
    forall x: Entry, y: Entry ensures Before()(x, y) || Before()(y, x) { NotLaterTotal(x.key, y.key); }
    forall x: Entry, y: Entry, z: Entry | Before()(x, y) && Before()(y, z) ensures Before()(x, z) {
      if NotLater(x.key, y.key) && NotLater(y.key, z.key) { NotLaterTransitive(x.key, y.key, z.key); }
    }
  }

  /** When all notes are equally long, no fitting choice drops fewer values than the reduction does. */
  lemma FewestDropped(ctx: seq<Entry>, t: set<string>, length: nat)
    requires KeysDistinct(ctx) && t <= Keys(OnlyStructured(ctx)) && Fits(ctx, t)
    requires forall e :: e in ctx && Structured(e.value) ==> |Note(e.value)| == length
    ensures |Dropped(ctx)| <= |t|
  {
    var order := BySize(ctx);
    BySizeOrder(ctx);
    assert Keys(order) == Keys(OnlyStructured(ctx));
    SortedBySaving(ctx, length);
    FewestChosen(ctx, order, t);
  }

  lemma SortedBySaving(ctx: seq<Entry>, length: nat)
    requires forall e :: e in ctx && Structured(e.value) ==> |Note(e.value)| == length
    ensures Decreasing(BySize(ctx))
  {
    hide StableSort, Note, Text, NotLater;
    var order := BySize(ctx);
    BeforeIsPreorder();
    SortSorts(Before(), OnlyStructured(ctx));
    forall i, j | 0 <= i < j < |order| ensures Saving(order[i]) >= Saving(order[j]) {
      assert order[i] in order && order[j] in order;
      assert Before()(order[i], order[j]);
    }
  }

  // ---- exactly when no choice drops fewer -----------------------------------------------------------

  function SavesMore(): (Entry, Entry) -> bool {
    (x: Entry, y: Entry) => Saving(x) >= Saving(y)
  }

  /** The structured entries, those that save most first. */
  function BySaving(ctx: seq<Entry>): seq<Entry> {
    StableSort(SavesMore(), OnlyStructured(ctx))
  }

  lemma BySavingOrder(ctx: seq<Entry>)
    requires KeysDistinct(ctx)
    ensures DropOrder(ctx, BySaving(ctx)) && Decreasing(BySaving(ctx))
    ensures Keys(BySaving(ctx)) == Keys(OnlyStructured(ctx))
  {
    hide StableSort, Saving;
    OnlyStructuredDistinct(ctx);
    SortKeeps(SavesMore(), OnlyStructured(ctx));
    SortSorts(SavesMore(), OnlyStructured(ctx));
    DistinctRearranged(OnlyStructured(ctx), BySaving(ctx));
    var order := BySaving(ctx);
    forall i, j | 0 <= i < j < |order| ensures Saving(order[i]) >= Saving(order[j]) { assert SavesMore()(order[i], order[j]); }
  }

  lemma NextDropShorter(ctx: seq<Entry>, order: seq<Entry>, i: nat)
    requires DropOrder(ctx, order) && i < |order|
    ensures Weight(ctx, Worth(order[..i + 1])) <= Weight(ctx, Worth(order[..i]))
  {
    hide Weight, DropOrder, Saving, Worth, Keys;
    WorthStep(order, i);
    DropAt(ctx, order, i, Worth(order[..i]));
  }

  lemma {:induction false} MoreDropsShorter(ctx: seq<Entry>, order: seq<Entry>, i: nat, j: nat)
    requires DropOrder(ctx, order) && i <= j <= |order|
    ensures Weight(ctx, Worth(order[..j])) <= Weight(ctx, Worth(order[..i]))
    decreases j - i
  {
    hide *;
    if i < j {
      NextDropShorter(ctx, order, i);
      MoreDropsShorter(ctx, order, i + 1, j);
    }
  }

  lemma DroppedSize(ctx: seq<Entry>)
    requires KeysDistinct(ctx)
    ensures |Dropped(ctx)| <= |OnlyStructured(ctx)|
  {
    hide StableSort, Fits, Saving;
    var order := BySize(ctx);
    ChosenUntilStop(ctx, order);
    WorthSize(order, Stop(ctx, order));
  }

  /** The reduction drops the fewest exactly when one drop fewer, of the values that save most, would not fit. */
  lemma FewestExactly(ctx: seq<Entry>)
    requires KeysDistinct(ctx) && Dropped(ctx) != {}
    ensures |Dropped(ctx)| - 1 <= |BySaving(ctx)|
    ensures (forall t :: t <= Keys(OnlyStructured(ctx)) && Fits(ctx, t) ==> |Dropped(ctx)| <= |t|)
            <==> !Fits(ctx, Worth(BySaving(ctx)[..|Dropped(ctx)| - 1]))
  {
    var order, n := BySaving(ctx), |Dropped(ctx)| - 1;
    BySavingOrder(ctx);
    DroppedSize(ctx);
    WorthSize(order, n);
    WorthWithin(order, n);
    hide StableSort, OnlyStructured, Dropped, BySaving, DropOrder, Decreasing, Worth, Keys, Fits, Weight;
    assert order[..|order|] == order;
    var most := Worth(order[..n]);
    FitsByWeight(ctx, most);
    forall t | t <= Keys(order) && Fits(ctx, t) && |t| <= n ensures Fits(ctx, most) {
      FirstSaveMost(ctx, order, |order|, t);
      MoreDropsShorter(ctx, order, |t|, n);
      FitsByWeight(ctx, t);
    }
  }

  lemma WorthWithin(order: seq<Entry>, n: nat)
    requires n <= |order|
    ensures Worth(order[..n]) <= Keys(order)
  {
    hide Saving;
  }

  // ---- when largest-first is not fewest -----------------------------------------------------------

  /** An array and an object one character shorter, whose note is three characters shorter. */
  function TwoLarge(a: string, o: string): seq<Entry> {
    [Entry("a", Array(1, a)), Entry("b", Object(o))]
  }

  lemma TwoNotes(a: string, o: string)
    ensures |Note(Array(1, a))| == 35 && |Note(Object(o))| == 32
    ensures |Quoted("a")| == 3 && |Quoted("b")| == 3
  {
    assert Decimal(1) == "1" by { assert Hex(1) == '1'; }
    PlainLength("a");
    PlainLength("b");
  }

  lemma TwoWeights(a: string, o: string, d: set<string>)
    ensures Weight(TwoLarge(a, o), d) == Cost(TwoLarge(a, o)[0], d) + Cost(TwoLarge(a, o)[1], d)
  {
    var ctx := TwoLarge(a, o);
    hide Cost;
    assert ctx[..1] == [ctx[0]] && ctx[..1][..0] == [];
    assert Weight(ctx[..1], d) == Weight([], d) + Cost(ctx[0], d);
  }

  /** Length of the line, by what is dropped. */
  lemma TwoLengths(a: string, o: string, d: set<string>)
    ensures Fits(TwoLarge(a, o), d)
            <==> 10 + (if "a" in d then 37 else |a|) + (if "b" in d then 34 else |o|) < EVIDENCE_CAP
  {
    TwoNotes(a, o);
    NoteLength(Array(1, a));
    NoteLength(Object(o));
    TwoWeights(a, o, d);
    FitsByWeight(TwoLarge(a, o), d);
    hide Note, Quoted, Weight, Fits;
  }

  lemma TwoStructured(a: string, o: string)
    ensures OnlyStructured(TwoLarge(a, o)) == TwoLarge(a, o)
  {
    var ctx := TwoLarge(a, o);
    assert ctx[..1] == [ctx[0]] && ctx[..1][..0] == [];
    assert OnlyStructured(ctx[..1]) == [ctx[0]];
  }

  lemma TwoInOrder(a: string, o: string)
    requires |a| > |o|
    ensures BySize(TwoLarge(a, o)) == TwoLarge(a, o)
  {
    var ctx := TwoLarge(a, o);
    TwoStructured(a, o);
    assert Before()(ctx[0], ctx[1]);
    hide StableSort, OnlyStructured, Before;
    assert Sorted(Before(), ctx);
    SortFixes(Before(), ctx);
  }

  lemma TwoChosen(a: string, o: string)
    requires |a| == 3955 && |o| == 3954
    ensures Chosen(TwoLarge(a, o), TwoLarge(a, o)) == {"a", "b"}
  {
    var ctx := TwoLarge(a, o);
    assert ctx[..1] == [ctx[0]] && ctx[..1][..0] == [];
    TwoNotes(a, o);
    TwoLengths(a, o, {});
    TwoLengths(a, o, {"a"});
    hide Fits, Note;
    assert Chosen(ctx, ctx[..0]) == {};
    assert Chosen(ctx, ctx[..1]) == {"a"};
  }

  /** With notes of different length the largest value need not save the most: two are dropped where one would do. */
  lemma LargestFirstNotFewest(a: string, o: string)
    requires |a| == 3955 && |o| == 3954
    ensures KeysDistinct(TwoLarge(a, o)) && Fits(TwoLarge(a, o), {"b"})
    ensures Dropped(TwoLarge(a, o)) == {"a", "b"} && |Dropped(TwoLarge(a, o))| == 2
  {
    TwoInOrder(a, o);
    TwoChosen(a, o);
    TwoLengths(a, o, {"b"});
  }

  // ---- the order of keys does not matter ---------------------------------------------------------

  lemma {:induction false} WeightWithout(ctx: seq<Entry>, d: set<string>, i: nat)
    requires i < |ctx|
    ensures Weight(ctx, d) == Weight(ctx[..i] + ctx[i + 1..], d) + Cost(ctx[i], d)
    decreases |ctx|
  {
    hide Cost;
    var init, shorter := ctx[..|ctx| - 1], ctx[..i] + ctx[i + 1..];
    if i < |init| {
      WeightWithout(init, d, i);
      assert shorter[..|shorter| - 1] == init[..i] + init[i + 1..];
    } else {
      assert shorter == init;
    }
  }

  lemma {:induction false} WeightRearranged(a: seq<Entry>, b: seq<Entry>, d: set<string>)
    requires multiset(a) == multiset(b)
    ensures Weight(a, d) == Weight(b, d)
    decreases |a|
  {
    hide Cost;
    if a == [] {
      assert |multiset(a)| == |multiset(b)|;
    } else {
      hide Weight;
      var i := PositionOf(a, b);
      WeightWithout(a, d, |a| - 1);
      WeightWithout(b, d, i);
      assert a[..|a| - 1] + a[|a|..] == a[..|a| - 1];
      WeightRearranged(a[..|a| - 1], b[..i] + b[i + 1..], d);
    }
  }

  lemma WithoutOne(s: seq<Entry>, i: nat)
    requires i < |s|
    ensures multiset(s) == multiset(s[..i] + s[i + 1..]) + multiset{s[i]}
  {
    assert s == s[..i] + [s[i]] + s[i + 1..];
    assert multiset(s) == multiset(s[..i]) + multiset{s[i]} + multiset(s[i + 1..]);
  }

  /** Where the last of `a` stands in a rearrangement; without it both are rearrangements again. */
  lemma PositionOf(a: seq<Entry>, b: seq<Entry>) returns (i: nat)
    requires multiset(a) == multiset(b) && a != []
    ensures i < |b| && b[i] == a[|a| - 1]
    ensures multiset(a[..|a| - 1]) == multiset(b[..i] + b[i + 1..])
  {
    var e := a[|a| - 1];
    assert e in multiset(b);
    i :| 0 <= i < |b| && b[i] == e;
    WithoutOne(b, i);
    DropLast(a);
    SameRemainder(multiset(a[..|a| - 1]), multiset(b[..i] + b[i + 1..]), multiset(a), e);
  }

  lemma {:induction false} OnlyStructuredCounts(ctx: seq<Entry>, e: Entry)
    ensures multiset(OnlyStructured(ctx))[e] == if Structured(e.value) then multiset(ctx)[e] else 0
  {
    if ctx != [] {
      OnlyStructuredCounts(ctx[..|ctx| - 1], e);
      assert ctx == ctx[..|ctx| - 1] + [ctx[|ctx| - 1]];
    }
  }

  lemma SameBySize(a: seq<Entry>, b: seq<Entry>)
    requires KeysDistinct(a) && multiset(a) == multiset(b)
    ensures BySize(a) == BySize(b)
  {
    hide StableSort, OnlyStructured, Text, NotLater;
    forall e ensures multiset(OnlyStructured(a))[e] == multiset(OnlyStructured(b))[e] {
      OnlyStructuredCounts(a, e);
      OnlyStructuredCounts(b, e);
    }
    assert multiset(OnlyStructured(a)) == multiset(OnlyStructured(b));
    BeforeIsPreorder();
    SortSorts(Before(), OnlyStructured(a));
    SortSorts(Before(), OnlyStructured(b));
    SortKeeps(Before(), OnlyStructured(a));
    SortKeeps(Before(), OnlyStructured(b));
    NoTies(a);
    SortedUnique(Before(), BySize(a), BySize(b));
  }

  lemma NoTies(ctx: seq<Entry>)
    requires KeysDistinct(ctx)
    ensures forall x, y :: x in BySize(ctx) && y in BySize(ctx) && Before()(x, y) && Before()(y, x) ==> x == y
  {
    hide StableSort, Text;
    forall x, y | x in BySize(ctx) && y in BySize(ctx) && Before()(x, y) && Before()(y, x) ensures x == y {
      NotLaterTotal(x.key, y.key);
      assert x in ctx && y in ctx && x.key == y.key;
    }
  }

  lemma {:induction false} ChosenRearranged(a: seq<Entry>, b: seq<Entry>, order: seq<Entry>)
    requires multiset(a) == multiset(b)
    ensures Chosen(a, order) == Chosen(b, order)
  {
    hide Fits, Weight;
    if order != [] {
      var init := order[..|order| - 1];
      ChosenRearranged(a, b, init);
      WeightRearranged(a, b, Chosen(a, init));
      FitsByWeight(a, Chosen(a, init));
      FitsByWeight(b, Chosen(a, init));
    }
  }

  /** The same entries in any order lose the same keys. */
  lemma OrderIrrelevant(a: seq<Entry>, b: seq<Entry>)
    requires KeysDistinct(a) && multiset(a) == multiset(b)
    ensures Dropped(a) == Dropped(b)
  {
    SameBySize(a, b);
    ChosenRearranged(a, b, BySize(a));
  }

  // ---- what every rendering keeps ---------------------------------------------------------------------

  /** Whatever the branch: every key stays in its place, and a value is whole, a cut string, or replaced by its own note. */
  lemma EmittedKeeps(event: Option<string>, ctx: seq<Entry>, i: nat)
    requires i < |ctx|
    ensures |Emitted(event, ctx)| == |ctx|
    ensures var v := Emitted(event, ctx)[i].value;
            && Emitted(event, ctx)[i].key == ctx[i].key
            && (v == ctx[i].value || (Structured(ctx[i].value) && v == Str(Note(ctx[i].value)))
                || (!Evidence(ctx) && v == Trimmed(ctx[i].value)))
    ensures FullFidelity(event) ==> Emitted(event, ctx) == ctx
  {
    hide StableSort, Note, Rendering, Dropped;
  }

  lemma ReplacedIsDropped(event: Option<string>, ctx: seq<Entry>, i: nat)
    requires i < |ctx| && Structured(ctx[i].value) && Emitted(event, ctx)[i].value != ctx[i].value
    ensures ctx[i].key in Dropped(ctx) && |Rendering(ctx)| > EVIDENCE_CAP && !FullFidelity(event)
  {
    hide Dropped, Note, Rendering, Text, Quoted, FullFidelity;
    assert ctx[i] in ctx;
  }

  lemma DroppedMeansShorter(ctx: seq<Entry>, i: nat)
    requires KeysDistinct(ctx) && i < |ctx| && ctx[i].key in Dropped(ctx)
    ensures |Quoted(Note(ctx[i].value))| < |Text(ctx[i].value)|
  {
    hide StableSort, OnlyStructured, Note, Text, Quoted, Fits, Chosen;
    var order := BySize(ctx);
    ChosenUntilStop(ctx, order);
    var e :| e in order && Saving(e) > 0 && e.key == ctx[i].key;
    assert e in ctx && e == ctx[i];
    NoteLength(e.value);
  }

  /** A value is replaced only when it is dropped, and then its note is shorter than it was. */
  lemma ReplacedMeansShorter(event: Option<string>, ctx: seq<Entry>, i: nat)
    requires KeysDistinct(ctx) && i < |ctx| && Structured(ctx[i].value)
    requires Emitted(event, ctx)[i].value != ctx[i].value
    ensures ctx[i].key in Dropped(ctx) && |Quoted(Note(ctx[i].value))| < |Text(ctx[i].value)|
    ensures |Rendering(ctx)| > EVIDENCE_CAP && !FullFidelity(event)
  {
    ReplacedIsDropped(event, ctx, i);
    hide *;
    DroppedMeansShorter(ctx, i);
  }

  // ---- which branch, and what goes first ---------------------------------------------------------------

  lemma FullFidelityMeans(event: Option<string>)
    ensures FullFidelity(event)
            <==> event.Some? && ((|event.value| >= 6 && event.value[..6] == "armed-") || event.value == "health-dump")
  {
  }

  /** A context is emitted whole when its event is exempt, when it is short, and when it enumerates and is not too long. */
  lemma EmittedWhole(event: Option<string>, ctx: seq<Entry>)
    requires FullFidelity(event) || |Rendering(ctx)| <= 120
             || (|Rendering(ctx)| <= 4000 && exists e :: e in ctx && (e.value.Array? || e.value.Object?))
    ensures Emitted(event, ctx) == ctx
  {
    hide Rendering, Dropped, FullFidelity;
  }

  /** A long flat context keeps everything but the tails of strings over 120 characters. */
  lemma EmittedFlat(event: Option<string>, ctx: seq<Entry>, i: nat)
    requires !FullFidelity(event) && |Rendering(ctx)| > 120 && i < |ctx|
    requires forall e :: e in ctx ==> !e.value.Array? && !e.value.Object?
    ensures |Emitted(event, ctx)| == |ctx| && Emitted(event, ctx)[i].key == ctx[i].key
    ensures Emitted(event, ctx)[i].value
            == if ctx[i].value.Str? && |ctx[i].value.raw| > 120 then Str(ctx[i].value.raw[..120] + "<cut>") else ctx[i].value
  {
    hide Rendering, Dropped, FullFidelity;
  }

  /** If a value is dropped, so is every larger one worth dropping, and every equally large one whose key comes first. */
  lemma LargerDroppedFirst(ctx: seq<Entry>, e: Entry, f: Entry)
    requires KeysDistinct(ctx) && e in ctx && f in ctx && Structured(e.value) && Structured(f.value)
    requires e.key in Dropped(ctx) && |Note(f.value)| + 2 < |Text(f.value)|
    requires |Text(f.value)| > |Text(e.value)| || (|Text(f.value)| == |Text(e.value)| && NotLater(f.key, e.key))
    ensures f.key in Dropped(ctx)
  {
    hide StableSort, Note, Text, Fits;
    var order := BySize(ctx);
    ChosenUntilStop(ctx, order);
    BeforeIsPreorder();
    SortSorts(Before(), OnlyStructured(ctx));
    var n := Stop(ctx, order);
    var d :| d in order[..n] && Saving(d) > 0 && d.key == e.key;
    assert d in order && d in ctx && d == e;
    var i :| 0 <= i < n && order[i] == e;
    assert f in order;
    var j :| 0 <= j < |order| && order[j] == f;
    if j > i {
      assert Before()(order[i], order[j]);
      NotLaterTotal(e.key, f.key);
      assert e == f;
    }
    assert j <= i || order[i] == f;
    assert f in order[..n];
  }
}
