/** The text that a log context is rendered to can be read back (src/logctx.js). */
module LogText {
  import opened Prelude
  import opened LogCtx

  // ---- the text of a note and of a string ------------------------------------------------------------------

  function DigitValue(c: char): nat
    requires '0' <= c <= '9'
  {
    c as int - '0' as int
  }

  /** What a run of digits says. */
  function ReadNumber(s: string): nat
    requires forall i :: 0 <= i < |s| ==> '0' <= s[i] <= '9'
  {
    if s == "" then 0 else 10 * ReadNumber(s[..|s| - 1]) + DigitValue(s[|s| - 1])
  }

  lemma HexDigits(n: nat)
    requires n < 10
    ensures '0' <= Hex(n) <= '9' && DigitValue(Hex(n)) == n
  {
  }

  /** The number in a note is the length of the array. */
  lemma {:induction false} DecimalMeans(n: nat)
    ensures forall i :: 0 <= i < |Decimal(n)| ==> '0' <= Decimal(n)[i] <= '9'
    ensures Decimal(n) != "" && ReadNumber(Decimal(n)) == n
  {
    HexDigits(n % 10);
    if n >= 10 {
      DecimalMeans(n / 10);
      assert Decimal(n) == Decimal(n / 10) + [Hex(n % 10)];
      assert Decimal(n)[..|Decimal(n)| - 1] == Decimal(n / 10);
    }
  }

  lemma NoteMeans(v: Value)
    requires Structured(v)
    ensures v.Object? ==> Note(v) == "<object omitted: ctx over 4000c>"
    ensures v.Array? ==> Note(v) == "<" + Decimal(v.count) + " entries omitted: ctx over 4000c>"
  {
    assert " entries" + " omitted: ctx over 4000c>" == " entries omitted: ctx over 4000c>";
    assert "<" + "object" + " omitted: ctx over 4000c>" == "<object omitted: ctx over 4000c>";
  }

  function HexValue(c: char): Option<nat> {
    if '0' <= c <= '9' then Some(c as int - '0' as int)
    else if 'a' <= c <= 'f' then Some(10 + c as int - 'a' as int)
    else None
  }

  /** Reads one character of a rendered string: what it stands for, and how long it is. */
  function ReadOne(s: string): Option<(int, nat)>
    requires s != ""
  {
    if s[0] != '\\' then Some((s[0] as int, 1))
    else if |s| < 2 then None
    else if s[1] == '\"' then Some(('\"' as int, 2))
    else if s[1] == '\\' then Some(('\\' as int, 2))
    else if s[1] == 'b' then Some((8, 2))
    else if s[1] == 'n' then Some(('\n' as int, 2))
    else if s[1] == 'f' then Some((12, 2))
    else if s[1] == 'r' then Some(('\r' as int, 2))
    else if s[1] == 't' then Some(('\t' as int, 2))
    else if s[1] == 'u' && |s| >= 6 && s[2] == '0' && s[3] == '0' && HexValue(s[4]).Some? && HexValue(s[5]).Some? then
      Some((16 * HexValue(s[4]).value + HexValue(s[5]).value, 6))
    else None
  }

  lemma HexReads(n: nat)
    requires n < 16
    ensures HexValue(Hex(n)) == Some(n)
  {
  }

  /** Every character of a string is read back from its rendering, whatever follows it. */
  lemma EscapedReads(c: char, rest: string)
    ensures Escaped(c) != "" && ReadOne(Escaped(c) + rest) == Some((c as int, |Escaped(c)|))
  {
    if c as int < 32 {
      HexReads(c as int / 16);
      HexReads(c as int % 16);
    }
  }

  lemma {:induction false} EscapedAllFront(c: char, s: string)
    ensures EscapedAll([c] + s) == Escaped(c) + EscapedAll(s)
  {
    hide Escaped;
    if s == "" {
      assert [c] + s == [c] && [c][..0] == "";
      assert EscapedAll([c]) == EscapedAll("") + Escaped(c);
    } else {
      var init, last := s[..|s| - 1], s[|s| - 1];
      EscapedAllFront(c, init);
      assert ([c] + s)[..|s|] == [c] + init;
    }
  }

  /** The characters that a rendered string stands for, by code. */
  function ReadAll(s: string): Option<seq<int>>
    decreases |s|
  {
    if s == "" then Some([])
    else
      var one := ReadOne(s);
      if one.None? then None
      else if one.value.1 == 0 || one.value.1 > |s| then None
      else
        var rest := ReadAll(s[one.value.1..]);
        if rest.None? then None else Some([one.value.0] + rest.value)
  }

  /** A string is read back whole from its rendering between the quotes. */
  lemma {:induction false} RenderingReadsBack(s: string)
    ensures ReadAll(EscapedAll(s)).Some? && |ReadAll(EscapedAll(s)).value| == |s|
    ensures forall i :: 0 <= i < |s| ==> ReadAll(EscapedAll(s)).value[i] == s[i] as int
  {
    if s != "" {
      var c, rest := s[0], s[1..];
      RenderingReadsBack(rest);
      assert s == [c] + rest;
      EscapedAllFront(c, rest);
      EscapedReads(c, EscapedAll(rest));
      assert (Escaped(c) + EscapedAll(rest))[|Escaped(c)|..] == EscapedAll(rest);
      hide ReadOne, Escaped, EscapedAll;
    }
  }

  /** A rendering lists the items between braces, with a comma between any two. */
  lemma {:induction false} ItemsJoin(a: seq<Entry>, b: seq<Entry>)
    requires a != [] && b != []
    ensures Items(a + b) == Items(a) + "," + Items(b)
    decreases |b|
  {
    hide Item;
    var all, init, last := a + b, b[..|b| - 1], b[|b| - 1];
    assert all[..|all| - 1] == a + init;
    if init == [] {
      assert a + init == a;
    } else {
      ItemsJoin(a, init);
      hide Items;
      Regroup(Items(a), Items(init), Item(last));
    }
  }

  lemma Regroup(a: string, b: string, c: string)
    ensures a + "," + b + "," + c == a + "," + (b + "," + c)
  {
  }

  lemma RenderingMeans(e: Entry)
    ensures Rendering([]) == "{}" && Rendering([e]) == "{" + Quoted(e.key) + ":" + Text(e.value) + "}"
    ensures Quoted(e.key) == "\"" + EscapedAll(e.key) + "\""
  {
    hide Text, EscapedAll;
    assert "{" + Item(e) + "}" == "{" + Quoted(e.key) + ":" + Text(e.value) + "}";
  }
}
