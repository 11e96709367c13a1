/**
 * JSON.stringify on nested arrays of strings (section 25.5.2 of ECMA-262, with the grammar of section 7 of
 * RFC 8259), and the fact that its text determines the value.
 */
module Json {
  import opened CodeUnits

  datatype Value = Str(text: Text) | Arr(items: seq<Value>)

  const QUOTE: Unit := 0x22
  const BACKSLASH: Unit := 0x5C
  const OPEN: Unit := 0x5B
  const CLOSE: Unit := 0x5D
  const COMMA: Unit := 0x2C

  function HexUnit(n: int): Unit
    requires 0 <= n < 16
  {
    if n < 10 then 0x30 + n else 0x61 + n - 10
  }

  predicate HighSurrogate(u: Unit) { 0xD800 <= u <= 0xDBFF }
  predicate LowSurrogate(u: Unit) { 0xDC00 <= u <= 0xDFFF }

  /** The letter after the backslash of a two-character escape. */
  function ShortEscape(u: Unit): Unit {
    if u == 0x08 then 0x62 else if u == 0x09 then 0x74 else if u == 0x0A then 0x6E
    else if u == 0x0C then 0x66 else if u == 0x0D then 0x72 else if u == QUOTE || u == BACKSLASH then u else 0
  }

  /** One code unit that is not half of a surrogate pair. */
  function Escape(u: Unit): Text {
    if ShortEscape(u) != 0 then [BACKSLASH, ShortEscape(u)]
    else if u < 0x20 || HighSurrogate(u) || LowSurrogate(u) then
      [BACKSLASH, 0x75, HexUnit(u / 0x1000), HexUnit(u / 0x100 % 0x10), HexUnit(u / 0x10 % 0x10), HexUnit(u % 0x10)]
    else [u]
  }

  /** The inside of a quoted string: surrogate pairs stay, lone surrogates and special characters are escaped. */
  function Body(s: Text): Text {
    if s == [] then []
    else if |s| >= 2 && HighSurrogate(s[0]) && LowSurrogate(s[1]) then [s[0], s[1]] + Body(s[2..])
    else Escape(s[0]) + Body(s[1..])
  }

  function Quote(s: Text): Text {
    [QUOTE] + Body(s) + [QUOTE]
  }

  function Render(v: Value): Text {
    match v
    case Str(s) => Quote(s)
    case Arr(items) => if items == [] then [OPEN, CLOSE] else [OPEN] + Render(items[0]) + RenderTail(items[1..])
  }

  /** The rest of an array, up to and including its bracket. */
  function RenderTail(items: seq<Value>): Text {
    if items == [] then [CLOSE] else [COMMA] + Render(items[0]) + RenderTail(items[1..])
  }

  // ---------------------------------------------------------------- reading a string back

  function UnHex(u: Unit): int {
    if u <= 0x39 then u as int - 0x30 else u as int - 0x61 + 10
  }

  function UnEscape(letter: Unit): int {
    if letter == 0x62 then 0x08 else if letter == 0x74 then 0x09 else if letter == 0x6E then 0x0A
    else if letter == 0x66 then 0x0C else if letter == 0x72 then 0x0D else letter
  }

  /** The units of a body up to its closing quote, and how much text that took; reading stops early on other input. */
  function ReadBody(t: Text): (seq<int>, nat) {
    if t == [] || t[0] == QUOTE then ([], 0)
    else if t[0] != BACKSLASH then
      var (units, n) := ReadBody(t[1..]);
      ([t[0]] + units, n + 1)
    else if |t| >= 2 && t[1] != 0x75 then
      var (units, n) := ReadBody(t[2..]);
      ([UnEscape(t[1])] + units, n + 2)
    else if |t| >= 6 then
      var (units, n) := ReadBody(t[6..]);
      ([UnHex(t[2]) * 0x1000 + UnHex(t[3]) * 0x100 + UnHex(t[4]) * 0x10 + UnHex(t[5])] + units, n + 6)
    else ([], 0)
  }

  lemma HexDigits(u: int)
    requires 0 <= u < 0x10000
    ensures u == u / 0x1000 * 0x1000 + u / 0x100 % 0x10 * 0x100 + u / 0x10 % 0x10 * 0x10 + u % 0x10
    ensures 0 <= u / 0x1000 < 0x10
  {
    assert u / 0x100 == u / 0x10 / 0x10 && u / 0x1000 == u / 0x100 / 0x10;
  }

  lemma ReadEscape(u: Unit, rest: Text)
    ensures var (units, n) := ReadBody(rest);
      ReadBody(Escape(u) + rest) == ([u] + units, n + |Escape(u)|)
  {
    var t := Escape(u) + rest;
    if ShortEscape(u) != 0 {
      assert t[0] == BACKSLASH && t[1] == ShortEscape(u) && t[2..] == rest;
    } else if u < 0x20 || HighSurrogate(u) || LowSurrogate(u) {
      HexDigits(u);
      assert t[0] == BACKSLASH && t[1] == 0x75 && t[6..] == rest;
    } else {
      assert t[0] == u && t[1..] == rest;
    }
  }

  /** A surrogate pair stays, any other unit is escaped on its own. */
  lemma BodyIs(s: Text)
    ensures Body([]) == []
    ensures |s| >= 2 && 0xD800 <= s[0] <= 0xDBFF && 0xDC00 <= s[1] <= 0xDFFF ==> Body(s) == s[..2] + Body(s[2..])
    ensures s != [] && !(|s| >= 2 && 0xD800 <= s[0] <= 0xDBFF && 0xDC00 <= s[1] <= 0xDFFF) ==>
      Body(s) == Escape(s[0]) + Body(s[1..])
  {
    hide Escape;
  }

  lemma ReadRaw(u: Unit, rest: Text)
    requires u != QUOTE && u != BACKSLASH
    ensures var (units, n) := ReadBody(rest);
      ReadBody([u] + rest) == ([u] + units, n + 1)
  {
    assert ([u] + rest)[1..] == rest;
  }

  /** Reading a quoted body gives the string back and stops at its closing quote. */
  lemma {:induction false} ReadBack(s: Text, rest: Text)
    ensures ReadBody(Body(s) + ([QUOTE] + rest)) == (s, |Body(s)|)
  {
    hide Escape, ReadBody, Body;
    BodyIs(s);
    if s == [] {
      ReadEnd(rest);
      assert Body(s) + ([QUOTE] + rest) == [QUOTE] + rest;
    } else if |s| >= 2 && HighSurrogate(s[0]) && LowSurrogate(s[1]) {
      var t := Body(s[2..]) + ([QUOTE] + rest);
      ReadBack(s[2..], rest);
      ReadRaw(s[1], t);
      ReadRaw(s[0], [s[1]] + t);
      assert Body(s) + ([QUOTE] + rest) == [s[0]] + ([s[1]] + t);
      assert s == [s[0]] + ([s[1]] + s[2..]);
    } else {
      var t := Body(s[1..]) + ([QUOTE] + rest);
      ReadBack(s[1..], rest);
      ReadEscape(s[0], t);
      assert Body(s) + ([QUOTE] + rest) == Escape(s[0]) + t;
      assert s == [s[0]] + s[1..];
    }
  }

  lemma ReadEnd(rest: Text)
    ensures ReadBody([QUOTE] + rest) == ([], 0)
  {}

  // ---------------------------------------------------------------- the text, character by character

  /** A lower-case hexadecimal digit and its value. */
  predicate HexOf(u: Unit, n: int) {
    (0 <= n <= 9 && u == '0' as int + n) || (10 <= n <= 15 && u == 'a' as int + n - 10)
  }

  /** Quotes, backslashes, controls and lone surrogates are escaped; anything else stands for itself. */
  lemma EscapesAre(u: Unit)
    ensures u == 0x22 ==> Escape(u) == Ascii("\\\"")
    ensures u == 0x5C ==> Escape(u) == Ascii("\\\\")
    ensures u == 0x08 ==> Escape(u) == Ascii("\\b")
    ensures u == 0x09 ==> Escape(u) == Ascii("\\t")
    ensures u == 0x0A ==> Escape(u) == Ascii("\\n")
    ensures u == 0x0C ==> Escape(u) == Ascii("\\f")
    ensures u == 0x0D ==> Escape(u) == Ascii("\\r")
    ensures (u < 0x20 && u !in {0x08, 0x09, 0x0A, 0x0C, 0x0D}) || 0xD800 <= u <= 0xDFFF ==>
      && |Escape(u)| == 6 && Escape(u)[..2] == Ascii("\\u")
      && HexOf(Escape(u)[2], u / 0x1000) && HexOf(Escape(u)[3], u / 0x100 % 0x10)
      && HexOf(Escape(u)[4], u / 0x10 % 0x10) && HexOf(Escape(u)[5], u % 0x10)
    ensures u >= 0x20 && u != 0x22 && u != 0x5C && !(0xD800 <= u <= 0xDFFF) ==> Escape(u) == [u]
  {}

  /** The texts with a comma between each two. */
  function Commas(texts: seq<Text>): Text {
    if texts == [] then []
    else if |texts| == 1 then texts[0]
    else texts[0] + Ascii(",") + Commas(texts[1..])
  }

  function Renders(items: seq<Value>): seq<Text> {
    seq(|items|, i requires 0 <= i < |items| => Render(items[i]))
  }

  lemma PunctuationIs()
    ensures Ascii("\"") == [QUOTE] && Ascii("[") == [OPEN] && Ascii("]") == [CLOSE] && Ascii(",") == [COMMA]
  {}

  lemma RendersCons(items: seq<Value>)
    requires items != []
    ensures Commas(Renders(items)) == Render(items[0]) + if |items| == 1 then [] else Ascii(",") + Commas(Renders(items[1..]))
  {
    hide Render, Ascii;
    assert Renders(items)[1..] == Renders(items[1..]);
    assert Renders(items)[0] == Render(items[0]);
  }

  lemma {:induction false} TailIsCommas(items: seq<Value>)
    ensures RenderTail(items) == (if items == [] then [] else Ascii(",") + Commas(Renders(items))) + Ascii("]")
  {
    hide Render, Ascii, Commas, Renders;
    PunctuationIs();
    if items != [] {
      TailIsCommas(items[1..]);
      RendersCons(items);
    }
  }

  lemma ArrayIs(items: seq<Value>)
    ensures Render(Arr(items)) == Ascii("[") + Commas(Renders(items)) + Ascii("]")
  {
    hide RenderTail, Ascii, Commas, Renders, Quote;
    PunctuationIs();
    if items == [] {
      NoCommas();
    } else {
      TailIsCommas(items[1..]);
      RendersCons(items);
    }
  }

  lemma NoCommas()
    ensures Commas(Renders([])) == []
  {}

  /** A string is its body in quotes, an array the texts of its items in brackets with commas between. */
  lemma RenderIs(v: Value)
    ensures v.Str? ==> Render(v) == Ascii("\"") + Body(v.text) + Ascii("\"")
    ensures v.Arr? ==> Render(v) == Ascii("[") + Commas(Renders(v.items)) + Ascii("]")
  {
    hide Ascii, Body, Commas, Renders, RenderTail;
    PunctuationIs();
    if v.Arr? { ArrayIs(v.items); }
  }

  // ---------------------------------------------------------------- the text determines the value

  lemma QuoteUnique(a: Text, x: Text, b: Text, y: Text)
    requires Quote(a) + x == Quote(b) + y
    ensures a == b && x == y
  {
    hide Body, ReadBody;
    var t := Quote(a) + x;
    assert t[1..] == Body(a) + ([QUOTE] + x);
    assert t[1..] == Body(b) + ([QUOTE] + y) by { assert t == Quote(b) + y; }
    ReadBack(a, x);
    ReadBack(b, y);
    assert x == t[1..][|Body(a)| + 1..] && y == t[1..][|Body(b)| + 1..];
  }

  lemma FirstUnit(v: Value)
    ensures Render(v) != [] && Render(v)[0] == if v.Str? then QUOTE else OPEN
  {}

  lemma SecondUnit(items: seq<Value>)
    ensures |Render(Arr(items))| >= 2
    ensures Render(Arr(items))[1] == if items == [] then CLOSE else if items[0].Str? then QUOTE else OPEN
  {
    if items != [] { FirstUnit(items[0]); }
  }

  /** JSON text is uniquely decodable, whatever follows it. */
  lemma {:induction false} RenderUnique(v: Value, x: Text, w: Value, y: Text)
    requires Render(v) + x == Render(w) + y
    ensures v == w && x == y
    decreases v, 1
  {
    hide Quote, RenderTail;
    FirstUnit(v);
    FirstUnit(w);
    assert (Render(v) + x)[0] == (Render(w) + y)[0];
    if v.Str? {
      QuoteUnique(v.text, x, w.text, y);
    } else {
      ItemsUnique(v.items, x, w.items, y);
    }
  }

  lemma RenderCons(items: seq<Value>, rest: Text)
    ensures |Render(Arr(items)) + rest| >= 2
    ensures var t := Render(Arr(items)) + rest;
      if items == [] then t[2..] == rest else t[1..] == Render(items[0]) + (RenderTail(items[1..]) + rest)
  {
    hide Quote;
    var t := Render(Arr(items)) + rest;
    SecondUnit(items);
    if items == [] {
      assert t[2..] == rest;
    } else {
      assert t[1..] == Render(items[0]) + (RenderTail(items[1..]) + rest);
    }
  }

  lemma {:induction false} ItemsUnique(a: seq<Value>, x: Text, b: seq<Value>, y: Text)
    requires Render(Arr(a)) + x == Render(Arr(b)) + y
    ensures a == b && x == y
    decreases a, 0
  {
    hide Render, RenderTail;
    var t := Render(Arr(a)) + x;
    SecondUnit(a);
    SecondUnit(b);
    assert t[1] == Render(Arr(a))[1] == Render(Arr(b))[1];
    RenderCons(a, x);
    RenderCons(b, y);
    if a != [] {
      var p, q := RenderTail(a[1..]) + x, RenderTail(b[1..]) + y;
      RenderUnique(a[0], p, b[0], q);
      TailUnique(a[1..], x, b[1..], y);
      assert a == [a[0]] + a[1..] && b == [b[0]] + b[1..];
    }
  }

  lemma {:induction false} TailUnique(a: seq<Value>, x: Text, b: seq<Value>, y: Text)
    requires RenderTail(a) + x == RenderTail(b) + y
    ensures a == b && x == y
    decreases a, 0
  {
    hide Render;
    var t := RenderTail(a) + x;
    assert t[0] == (if a == [] then CLOSE else COMMA) == if b == [] then CLOSE else COMMA;
    if a == [] {
      assert t[1..] == x && t[1..] == y;
    } else {
      var p, q := RenderTail(a[1..]) + x, RenderTail(b[1..]) + y;
      assert t[1..] == Render(a[0]) + p;
      assert t[1..] == Render(b[0]) + q by { assert t == RenderTail(b) + y; }
      RenderUnique(a[0], p, b[0], q);
      TailUnique(a[1..], x, b[1..], y);
      assert a == [a[0]] + a[1..] && b == [b[0]] + b[1..];
    }
  }

  /** Nested JSON text is injective. */
  lemma RenderInjective(v: Value, w: Value)
    ensures Render(v) == Render(w) <==> v == w
  {
    if Render(v) == Render(w) {
      assert Render(v) + [] == Render(w) + [];
      RenderUnique(v, [], w, []);
    }
  }
}
