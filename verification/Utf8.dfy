/**
 * The UTF-8 TextDecoder for Hermes (apps/VoteTorrentAuthority/polyfills/hermes-text-decoder.js).
 *
 * Bytes and UTF-16 code units are integers; shifts and masks are written as multiplication, division
 * and remainder by powers of two, which is what they are on non-negative numbers.
 */
module Utf8 {
  import opened Common
  import opened CodeUnits

  type Byte = b: int | 0 <= b < 0x100

  predicate Scalar(cp: int) {
    0 <= cp <= 0x10FFFF && !(0xD800 <= cp <= 0xDFFF)
  }

  const REPLACEMENT: Unit := 0xFFFD

  // ---------------------------------------------------------------- the standard, independently

  predicate Tail(b: Byte) {
    0x80 <= b <= 0xBF
  }

  /** One UTF8-char of the grammar in section 4 of RFC 3629. */
  predicate IsChar(s: seq<Byte>) {
    || (|s| == 1 && s[0] <= 0x7F)
    || (|s| == 2 && 0xC2 <= s[0] <= 0xDF && Tail(s[1]))
    || (|s| == 3 && Tail(s[1]) && Tail(s[2])
        && (|| (s[0] == 0xE0 && 0xA0 <= s[1])
            || (0xE1 <= s[0] <= 0xEC)
            || (s[0] == 0xED && s[1] <= 0x9F)
            || (0xEE <= s[0] <= 0xEF)))
    || (|s| == 4 && Tail(s[1]) && Tail(s[2]) && Tail(s[3])
        && (|| (s[0] == 0xF0 && 0x90 <= s[1])
            || (0xF1 <= s[0] <= 0xF3)
            || (s[0] == 0xF4 && s[1] <= 0x8F)))
  }

  /** UTF8-octets: a sequence of UTF8-chars. */
  ghost predicate WellFormed(s: seq<Byte>) {
    s == [] || exists k :: 0 < k <= |s| && IsChar(s[..k]) && WellFormed(s[k..])
  }

  /** The encoding of one scalar value (section 3 of RFC 3629). */
  function Encode(cp: int): seq<Byte>
    requires Scalar(cp)
  {
    if cp < 0x80 then [cp]
    else if cp < 0x800 then [0xC0 + cp / 0x40, 0x80 + cp % 0x40]
    else if cp < 0x10000 then [0xE0 + cp / 0x1000, 0x80 + cp / 0x40 % 0x40, 0x80 + cp % 0x40]
    else [0xF0 + cp / 0x40000, 0x80 + cp / 0x1000 % 0x40, 0x80 + cp / 0x40 % 0x40, 0x80 + cp % 0x40]
  }

  /** The UTF-16 form of one scalar value. */
  function Utf16(cp: int): seq<Unit>
    requires Scalar(cp)
  {
    if cp < 0x10000 then [cp] else [0xD800 + (cp - 0x10000) / 0x400, 0xDC00 + (cp - 0x10000) % 0x400]
  }

  function EncodeAll(cps: seq<int>): seq<Byte>
    requires forall i :: 0 <= i < |cps| ==> Scalar(cps[i])
  {
    if cps == [] then [] else Encode(cps[0]) + EncodeAll(cps[1..])
  }

  function Utf16All(cps: seq<int>): seq<Unit>
    requires forall i :: 0 <= i < |cps| ==> Scalar(cps[i])
  {
    if cps == [] then [] else Utf16(cps[0]) + Utf16All(cps[1..])
  }

  predicate WellFormedUtf16(u: seq<Unit>) {
    if u == [] then true
    else if 0xD800 <= u[0] <= 0xDBFF then |u| >= 2 && 0xDC00 <= u[1] <= 0xDFFF && WellFormedUtf16(u[2..])
    else !(0xDC00 <= u[0] <= 0xDFFF) && WellFormedUtf16(u[1..])
  }

  // ---------------------------------------------------------------- what the decoder computes

  /** What one outer pass takes off the input: how many bytes, and the scalar value if they are accepted. */
  datatype Piece = Piece(len: nat, scalar: Option<int>)

  /** A leading byte: continuation bytes needed, payload bits, smallest value allowed. */
  datatype Lead = Lead(needed: nat, bits: int, min: int) | NoLead

  function LeadOf(b: Byte): Lead {
    if 0xC2 <= b < 0xE0 then Lead(1, b % 0x20, 0x80)
    else if 0xE0 <= b < 0xF0 then Lead(2, b % 0x10, 0x800)
    else if 0xF0 <= b < 0xF5 then Lead(3, b % 0x08, 0x10000)
    else NoLead
  }

  /** How many of the first `n` bytes are continuation bytes, up to the first that is not. */
  function Continuation(s: seq<Byte>, n: nat): (r: nat)
    ensures r <= n && r <= |s|
  {
    if n == 0 || s == [] || s[0] / 0x40 != 2 then 0 else 1 + Continuation(s[1..], n - 1)
  }

  function Accumulate(cp: int, s: seq<Byte>): int
    decreases |s|
  {
    if s == [] then cp else Accumulate(cp * 0x40 + s[0] % 0x40, s[1..])
  }

  function Next(s: seq<Byte>): (p: Piece)
    requires s != []
    ensures 0 < p.len <= |s| && (p.scalar.Some? ==> Scalar(p.scalar.value))
  {
    if s[0] < 0x80 then Piece(1, Some(s[0]))
    else
      match LeadOf(s[0])
      case NoLead => Piece(1, None)
      case Lead(needed, bits, min) =>
        var got := Continuation(s[1..], needed);
        if got < needed then Piece(1 + got, None)
        else
          var cp := Accumulate(bits, s[1..1 + needed]);
          Piece(1 + needed, if cp < min || !Scalar(cp) then None else Some(cp))
  }

  /** What a pass appends: the UTF-16 form, or a replacement character. */
  function Emit(scalar: Option<int>): seq<Unit>
    requires scalar.Some? ==> Scalar(scalar.value)
  {
    if scalar.Some? then Utf16(scalar.value) else [REPLACEMENT]
  }

  /** None is the TypeError of fatal mode. */
  function Decode(s: seq<Byte>, fatal: bool): Option<seq<Unit>> {
    if s == [] then Some([])
    else
      var p := Next(s);
      if fatal && p.scalar.None? then None
      else
        var rest := Decode(s[p.len..], fatal);
        if rest.None? then None
        else
          Some(Emit(p.scalar) + rest.value)
  }

  const BOM: seq<Byte> := [0xEF, 0xBB, 0xBF]

  function StripBom(s: seq<Byte>, ignoreBOM: bool): seq<Byte> {
    if !ignoreBOM && BOM <= s then s[3..] else s
  }

  /** `decode`. */
  function DecodeText(s: seq<Byte>, fatal: bool, ignoreBOM: bool): Option<seq<Unit>> {
    Decode(StripBom(s, ignoreBOM), fatal)
  }

  // ---------------------------------------------------------------- base-64 digits

  lemma Digit(q: int, r: int)
    requires 0 <= r < 0x40
    ensures (q * 0x40 + r) / 0x40 == q && (q * 0x40 + r) % 0x40 == r
  {}

  lemma Split(cp: int)
    requires 0 <= cp
    ensures cp / 0x1000 == cp / 0x40 / 0x40 && cp / 0x40000 == cp / 0x40 / 0x40 / 0x40
    ensures cp == cp / 0x40 * 0x40 + cp % 0x40
    ensures cp / 0x40 == cp / 0x1000 * 0x40 + cp / 0x40 % 0x40
    ensures cp / 0x1000 == cp / 0x40000 * 0x40 + cp / 0x1000 % 0x40
  {}

  lemma TailValue(b: Byte)
    ensures b / 0x40 == 2 <==> Tail(b)
    ensures Tail(b) ==> b % 0x40 == b as int - 0x80
  {}

  lemma {:induction false} ContinuationIs(s: seq<Byte>, n: nat)
    ensures var r := Continuation(s, n);
      && (forall j :: 0 <= j < r ==> Tail(s[j]))
      && (r < n && r < |s| ==> !Tail(s[r]))
      && (r < n ==> r <= |s|)
  {
    if n > 0 && s != [] {
      TailValue(s[0]);
      if Tail(s[0]) { ContinuationIs(s[1..], n - 1); }
    }
  }

  lemma {:induction false} ContinuationFull(s: seq<Byte>, n: nat)
    requires n <= |s| && forall j :: 0 <= j < n ==> Tail(s[j])
    ensures Continuation(s, n) == n
  {
    if n > 0 {
      TailValue(s[0]);
      ContinuationFull(s[1..], n - 1);
    }
  }

  // ---------------------------------------------------------------- one piece is one grammar character

  /** A leading byte followed by all the continuation bytes it needs. */
  function ValueOf(s: seq<Byte>): int
    requires 2 <= |s| <= 4
  {
    if |s| == 2 then (s[0] as int % 0x20) * 0x40 + s[1] as int % 0x40
    else if |s| == 3 then ((s[0] as int % 0x10) * 0x40 + s[1] as int % 0x40) * 0x40 + s[2] as int % 0x40
    else (((s[0] as int % 0x08) * 0x40 + s[1] as int % 0x40) * 0x40 + s[2] as int % 0x40) * 0x40 + s[3] as int % 0x40
  }

  lemma AccumulateIs(s: seq<Byte>, n: nat)
    requires 2 <= n <= 4 && n <= |s| && LeadOf(s[0]).Lead? && LeadOf(s[0]).needed == n - 1
    ensures Accumulate(LeadOf(s[0]).bits, s[1..n]) == ValueOf(s[..n])
  {
    var bits := LeadOf(s[0]).bits;
    var t := s[1..n];
    assert t[1..] == s[2..n];
    var one := bits * 0x40 + s[1] % 0x40;
    assert Accumulate(bits, t) == Accumulate(one, s[2..n]);
    if n > 2 {
      assert s[2..n][1..] == s[3..n];
      var two := one * 0x40 + s[2] % 0x40;
      assert Accumulate(one, s[2..n]) == Accumulate(two, s[3..n]);
      if n > 3 { assert s[3..n][1..] == []; }
    }
  }

  /** What Next answers when enough continuation bytes follow, and when they do not. */
  lemma NextIs(s: seq<Byte>)
    requires s != [] && s[0] >= 0x80 && LeadOf(s[0]).Lead?
    ensures var lead := LeadOf(s[0]); var n := lead.needed + 1;
      if n <= |s| && (forall j :: 1 <= j < n ==> Tail(s[j])) then
        Next(s) == Piece(n, if ValueOf(s[..n]) < lead.min || !Scalar(ValueOf(s[..n])) then None else Some(ValueOf(s[..n])))
      else Next(s).scalar.None? && Next(s).len < n
  {
    var lead := LeadOf(s[0]);
    var n := lead.needed + 1;
    ContinuationIs(s[1..], lead.needed);
    if n <= |s| && (forall j :: 1 <= j < n ==> Tail(s[j])) {
      ContinuationFull(s[1..], lead.needed);
      AccumulateIs(s, n);
    } else if Continuation(s[1..], lead.needed) == lead.needed {
      assert forall j :: 1 <= j < n ==> s[j] == s[1..][j - 1];
    }
  }

  /** The grammar is: the right number of continuation bytes, and a value that is in range, not overlong, no surrogate. */
  lemma GrammarIsRange(c: seq<Byte>)
    requires 2 <= |c| <= 4
    ensures IsChar(c) <==>
      && LeadOf(c[0]).Lead? && LeadOf(c[0]).needed == |c| - 1
      && (forall j :: 1 <= j < |c| ==> Tail(c[j]))
      && ValueOf(c) >= LeadOf(c[0]).min && Scalar(ValueOf(c))
  {
    if |c| == 2 {
      GrammarTwo(c);
    } else if |c| == 3 {
      GrammarThree(c);
    } else {
      GrammarFour(c);
    }
  }

  lemma GrammarTwo(c: seq<Byte>)
    requires |c| == 2
    ensures IsChar(c) <==> 0xC2 <= c[0] < 0xE0 && Tail(c[1]) && ValueOf(c) >= 0x80 && Scalar(ValueOf(c))
  {}

  lemma GrammarThree(c: seq<Byte>)
    requires |c| == 3
    ensures IsChar(c) <==> 0xE0 <= c[0] < 0xF0 && Tail(c[1]) && Tail(c[2]) && ValueOf(c) >= 0x800 && Scalar(ValueOf(c))
  {}

  lemma GrammarFour(c: seq<Byte>)
    requires |c| == 4
    ensures IsChar(c) <==>
      0xF0 <= c[0] < 0xF5 && Tail(c[1]) && Tail(c[2]) && Tail(c[3]) && ValueOf(c) >= 0x10000 && Scalar(ValueOf(c))
  {}

  /** A piece is accepted exactly when it is a UTF8-char, and then no other prefix is one. */
  lemma NextIsChar(s: seq<Byte>, k: nat)
    requires s != [] && 0 < k <= |s|
    ensures IsChar(s[..k]) <==> Next(s).scalar.Some? && Next(s).len == k
  {
    hide ValueOf, Scalar;
    if 2 <= k <= 4 { GrammarIsRange(s[..k]); }
    if s[0] >= 0x80 && LeadOf(s[0]).Lead? { NextIs(s); }
  }

  // ---------------------------------------------------------------- acceptance

  /** Fatal mode throws exactly on input that is not well-formed UTF-8. */
  lemma {:induction false} FatalIffMalformed(s: seq<Byte>)
    ensures Decode(s, true).Some? <==> WellFormed(s)
    decreases |s|
  {
    hide IsChar, Next;
    if s != [] {
      var p := Next(s);
      NextBounds(s);
      FatalIffMalformed(s[p.len..]);
      NextIsChar(s, p.len);
      if WellFormed(s) {
        var k :| 0 < k <= |s| && IsChar(s[..k]) && WellFormed(s[k..]);
        NextIsChar(s, k);
      }
    }
  }

  lemma NextBounds(s: seq<Byte>)
    requires s != []
    ensures 0 < Next(s).len <= |s|
  {}

  /** A leading BOM is itself well-formed, so stripping it does not change what is accepted. */
  lemma AcceptsIffWellFormed(s: seq<Byte>, ignoreBOM: bool)
    ensures DecodeText(s, true, ignoreBOM).Some? <==> WellFormed(s)
  {
    FatalIffMalformed(s);
    if !ignoreBOM && BOM <= s {
      FatalIffMalformed(s[3..]);
      NextOfBom(s);
    }
  }

  lemma NextOfBom(s: seq<Byte>)
    requires BOM <= s
    ensures Next(s) == Piece(3, Some(0xFEFF))
  {
    assert s[0] == 0xEF && s[1] == 0xBB && s[2] == 0xBF;
    NextIs(s);
    assert s[..3] == BOM;
  }

  lemma LossyNeverThrows(s: seq<Byte>)
    ensures Decode(s, false).Some?
    decreases |s|
  {
    if s != [] { LossyNeverThrows(s[Next(s).len..]); }
  }

  /** The two modes agree on well-formed input. */
  lemma {:induction false} ModesAgree(s: seq<Byte>)
    ensures Decode(s, true).Some? ==> Decode(s, true) == Decode(s, false)
    decreases |s|
  {
    hide Next;
    if s != [] {
      NextBounds(s);
      ModesAgree(s[Next(s).len..]);
    }
  }

  // ---------------------------------------------------------------- round trip

  lemma EncodeTwo(cp: int)
    requires 0x80 <= cp < 0x800
    ensures var c := Encode(cp);
      |c| == 2 && 0xC2 <= c[0] < 0xE0 && Tail(c[1]) && ValueOf(c) == cp
  {}

  lemma EncodeThree(cp: int)
    requires 0x800 <= cp < 0x10000 && Scalar(cp)
    ensures var c := Encode(cp);
      |c| == 3 && 0xE0 <= c[0] < 0xF0 && Tail(c[1]) && Tail(c[2]) && ValueOf(c) == cp
  {
    Split(cp);
  }

  lemma EncodeFour(cp: int)
    requires 0x10000 <= cp <= 0x10FFFF
    ensures var c := Encode(cp);
      |c| == 4 && 0xF0 <= c[0] < 0xF5 && Tail(c[1]) && Tail(c[2]) && Tail(c[3]) && ValueOf(c) == cp
  {
    Split(cp);
    ValueFour(cp / 0x40000, cp / 0x1000 % 0x40, cp / 0x40 % 0x40, cp % 0x40);
    hide ValueOf;
  }

  lemma ValueFour(a: int, b: int, c: int, d: int)
    requires 0 <= a <= 4 && 0 <= b < 0x40 && 0 <= c < 0x40 && 0 <= d < 0x40
    ensures ValueOf([0xF0 + a, 0x80 + b, 0x80 + c, 0x80 + d]) == ((a * 0x40 + b) * 0x40 + c) * 0x40 + d
  {}

  lemma EncodeIsChar(cp: int)
    requires Scalar(cp)
    ensures var c := Encode(cp);
      && 1 <= |c| <= 4
      && (|c| == 1 ==> c[0] == cp < 0x80)
      && (|c| > 1 ==> LeadOf(c[0]).Lead? && LeadOf(c[0]).needed == |c| - 1
                      && (forall j :: 1 <= j < |c| ==> Tail(c[j]))
                      && ValueOf(c) == cp >= LeadOf(c[0]).min)
  {
    if cp >= 0x80 {
      hide Encode, ValueOf;
      if cp < 0x800 { EncodeTwo(cp); } else if cp < 0x10000 { EncodeThree(cp); } else { EncodeFour(cp); }
    }
  }

  /** The encoding of a scalar value is decoded to that value, whatever follows. */
  lemma EncodingIsNext(cp: int, rest: seq<Byte>)
    requires Scalar(cp)
    ensures Encode(cp) != [] && Next(Encode(cp) + rest) == Piece(|Encode(cp)|, Some(cp))
  {
    EncodeIsChar(cp);
    hide Encode, ValueOf;
    var c := Encode(cp);
    var s := c + rest;
    assert s[..|c|] == c;
    if |c| > 1 {
      assert forall j :: 1 <= j < |c| ==> s[j] == c[j];
      NextIs(s);
    }
  }

  lemma {:induction false} DecodeEncoded(cps: seq<int>, fatal: bool)
    requires forall i :: 0 <= i < |cps| ==> Scalar(cps[i])
    ensures Decode(EncodeAll(cps), fatal) == Some(Utf16All(cps))
  {
    hide Encode, Next, Utf16;
    if cps != [] {
      var c, rest := Encode(cps[0]), EncodeAll(cps[1..]);
      EncodingIsNext(cps[0], rest);
      DecodeEncoded(cps[1..], fatal);
      assert (c + rest)[|c|..] == rest;
    }
  }

  lemma EncodedBom(cps: seq<int>)
    requires forall i :: 0 <= i < |cps| ==> Scalar(cps[i])
    ensures BOM <= EncodeAll(cps) <==> cps != [] && cps[0] == 0xFEFF
  {
    hide Encode, Next;
    var s := EncodeAll(cps);
    if cps != [] {
      EncodingIsNext(cps[0], EncodeAll(cps[1..]));
      if BOM <= s { NextOfBom(s); }
      if cps[0] == 0xFEFF {
        BomEncodes();
        assert s[..3] == BOM;
      }
    }
  }

  lemma BomEncodes()
    ensures Encode(0xFEFF) == BOM
  {}

  /** Decoding the encoding of any scalar values gives back their UTF-16 form, less one leading U+FEFF unless ignoreBOM. */
  lemma RoundTrip(cps: seq<int>, fatal: bool, ignoreBOM: bool)
    requires forall i :: 0 <= i < |cps| ==> Scalar(cps[i])
    ensures var kept := if !ignoreBOM && cps != [] && cps[0] == 0xFEFF then cps[1..] else cps;
      DecodeText(EncodeAll(cps), fatal, ignoreBOM) == Some(Utf16All(kept))
  {
    EncodedBom(cps);
    DecodeEncoded(cps, fatal);
    if cps != [] && cps[0] == 0xFEFF {
      DecodeEncoded(cps[1..], fatal);
      BomEncodes();
      assert (Encode(cps[0]) + EncodeAll(cps[1..]))[3..] == EncodeAll(cps[1..]);
    }
  }

  // ---------------------------------------------------------------- the grammar is the encodings

  /** A number and its last two and three digits in base 64. */
  lemma Digits(a: int, b: int, c: int, d: int)
    requires 0 <= a && 0 <= b < 0x40 && 0 <= c < 0x40 && 0 <= d < 0x40
    ensures var n := ((a * 0x40 + b) * 0x40 + c) * 0x40 + d;
      n / 0x40000 == a && n / 0x1000 % 0x40 == b && n / 0x40 % 0x40 == c && n % 0x40 == d && n / 0x1000 == a * 0x40 + b
  {
    var n := ((a * 0x40 + b) * 0x40 + c) * 0x40 + d;
    Digit((a * 0x40 + b) * 0x40 + c, d);
    Digit(a * 0x40 + b, c);
    Digit(a, b);
    assert n / 0x1000 == n / 0x40 / 0x40 && n / 0x40000 == n / 0x1000 / 0x40;
  }

  lemma TwoIsEncoding(s: seq<Byte>)
    requires |s| == 2 && IsChar(s)
    ensures Scalar(ValueOf(s)) && Encode(ValueOf(s)) == s
  {
    Digits(0, 0, s[0] % 0x20, s[1] % 0x40);
  }

  lemma ThreeIsEncoding(s: seq<Byte>)
    requires |s| == 3 && IsChar(s)
    ensures Scalar(ValueOf(s)) && Encode(ValueOf(s)) == s
  {
    GrammarIsRange(s);
    hide IsChar;
    Digits(0, s[0] % 0x10, s[1] % 0x40, s[2] % 0x40);
  }

  lemma FourIsEncoding(s: seq<Byte>)
    requires |s| == 4 && IsChar(s)
    ensures Scalar(ValueOf(s)) && Encode(ValueOf(s)) == s
  {
    GrammarIsRange(s);
    hide IsChar;
    Digits(s[0] % 0x08, s[1] % 0x40, s[2] % 0x40, s[3] % 0x40);
  }

  /** The characters of the grammar are exactly the encodings of scalar values. */
  lemma CharsAreEncodings(s: seq<Byte>)
    ensures IsChar(s) <==> exists cp :: Scalar(cp) && Encode(cp) == s
  {
    if IsChar(s) {
      if |s| == 1 { assert Encode(s[0]) == s; }
      if |s| == 2 { TwoIsEncoding(s); }
      if |s| == 3 { ThreeIsEncoding(s); }
      if |s| == 4 { FourIsEncoding(s); }
    }
    if cp :| Scalar(cp) && Encode(cp) == s {
      hide Encode;
      EncodeIsChar(cp);
      if 2 <= |s| <= 4 { GrammarIsRange(s); }
    }
  }

  // ---------------------------------------------------------------- UTF-16 read back

  /** The code points of UTF-16 text: a surrogate pair is one, any other unit stands for itself. */
  function ReadUtf16(u: seq<Unit>): seq<int> {
    if u == [] then []
    else if 0xD800 <= u[0] <= 0xDBFF && |u| >= 2 && 0xDC00 <= u[1] <= 0xDFFF then
      [0x10000 + (u[0] - 0xD800) * 0x400 + (u[1] - 0xDC00)] + ReadUtf16(u[2..])
    else [u[0]] + ReadUtf16(u[1..])
  }

  lemma ReadOne(cp: int, rest: seq<Unit>)
    requires Scalar(cp)
    ensures ReadUtf16(Utf16(cp) + rest) == [cp] + ReadUtf16(rest)
  {
    var u := Utf16(cp) + rest;
    if cp < 0x10000 {
      assert u[1..] == rest;
    } else {
      assert u[2..] == rest;
      assert u[0] == 0xD800 + (cp - 0x10000) / 0x400 && u[1] == 0xDC00 + (cp - 0x10000) % 0x400;
    }
  }

  lemma {:induction false} ReadAll(cps: seq<int>)
    requires forall i :: 0 <= i < |cps| ==> Scalar(cps[i])
    ensures ReadUtf16(Utf16All(cps)) == cps
  {
    if cps != [] {
      ReadAll(cps[1..]);
      ReadOne(cps[0], Utf16All(cps[1..]));
      assert cps == [cps[0]] + cps[1..];
    }
  }

  /** Reading the text decoded from the encoding of scalar values gives those values, less a stripped U+FEFF. */
  lemma DecodedReadsBack(cps: seq<int>, fatal: bool, ignoreBOM: bool)
    requires forall i :: 0 <= i < |cps| ==> Scalar(cps[i])
    ensures var text := DecodeText(EncodeAll(cps), fatal, ignoreBOM);
      && text.Some? && WellFormedUtf16(text.value)
      && ReadUtf16(text.value) == if !ignoreBOM && cps != [] && cps[0] == 0xFEFF then cps[1..] else cps
  {
    hide Decode;
    var kept := if !ignoreBOM && cps != [] && cps[0] == 0xFEFF then cps[1..] else cps;
    RoundTrip(cps, fatal, ignoreBOM);
    OutputWellFormed(StripBom(EncodeAll(cps), ignoreBOM), fatal);
    ReadAll(kept);
  }

  /** The byte order of encodings is the order of the scalar values (section 1 of RFC 3629), which leaves no other encoding. */
  lemma EncodeKeepsOrder(a: int, b: int)
    requires Scalar(a) && Scalar(b) && a < b
    ensures Less(Encode(a), Encode(b))
  {
    var x, y := Encode(a), Encode(b);
    if |x| == |y| {
      FirstDigitDiffers(a, b);
      if |x| >= 2 && x[0] == y[0] {
        LessAfter(x, y);
        if |x| >= 3 && x[1] == y[1] {
          LessAfter(x[1..], y[1..]);
          if |x| == 4 && x[2] == y[2] { LessAfter(x[2..], y[2..]); }
        }
      }
    }
  }

  lemma LessAfter(x: seq<Byte>, y: seq<Byte>)
    requires x != [] && y != [] && x[0] == y[0]
    ensures Less(x, y) <==> Less(x[1..], y[1..])
  {}

  /** Where two numbers first differ as digits in base 64, the smaller has the smaller digit. */
  lemma FirstDigitDiffers(a: int, b: int)
    requires 0 <= a < b
    ensures a / 0x40000 <= b / 0x40000
    ensures a / 0x40000 == b / 0x40000 ==> a / 0x1000 % 0x40 <= b / 0x1000 % 0x40
    ensures a / 0x1000 <= b / 0x1000
    ensures a / 0x1000 == b / 0x1000 ==> a / 0x40 % 0x40 <= b / 0x40 % 0x40
    ensures a / 0x40 <= b / 0x40
    ensures a / 0x40 == b / 0x40 ==> a % 0x40 < b % 0x40
    ensures a / 0x40000 == b / 0x40000 && a / 0x1000 % 0x40 == b / 0x1000 % 0x40 ==> a / 0x1000 == b / 0x1000
    ensures a / 0x1000 == b / 0x1000 && a / 0x40 % 0x40 == b / 0x40 % 0x40 ==> a / 0x40 == b / 0x40
  {
    assert a / 0x40000 == a / 0x1000 / 0x40 && b / 0x40000 == b / 0x1000 / 0x40;
    assert a / 0x1000 == a / 0x40 / 0x40 && b / 0x1000 == b / 0x40 / 0x40;
  }

  // ---------------------------------------------------------------- malformed input

  /** A byte that is not a continuation byte starts a new piece: what follows it cannot be swallowed. */
  lemma NextStops(a: seq<Byte>, b: seq<Byte>)
    requires a != [] && (b == [] || !Tail(b[0]))
    ensures Next(a + b) == Next(a)
  {
    if a[0] >= 0x80 && LeadOf(a[0]).Lead? {
      var n := LeadOf(a[0]).needed;
      ContinuationStops(a[1..], b, n);
      assert (a + b)[1..] == a[1..] + b;
      if Continuation(a[1..], n) == n { assert (a + b)[1..1 + n] == a[1..1 + n]; }
    }
  }

  lemma {:induction false} ContinuationStops(a: seq<Byte>, b: seq<Byte>, n: nat)
    requires b == [] || !Tail(b[0])
    ensures Continuation(a + b, n) == Continuation(a, n)
  {
    if a == [] {
      assert a + b == b;
      if b != [] { TailValue(b[0]); }
    } else if n > 0 {
      assert (a + b)[1..] == a[1..] + b;
      ContinuationStops(a[1..], b, n - 1);
    }
  }

  /** How many continuation bytes a leading byte asks for. */
  function Wanted(b: Byte): nat {
    if 0xC2 <= b <= 0xDF then 1 else if 0xE0 <= b <= 0xEF then 2 else if 0xF0 <= b <= 0xF4 then 3 else 0
  }

  lemma WantedIsNeeded(b: Byte)
    requires b >= 0x80
    ensures Wanted(b) == if LeadOf(b).Lead? then LeadOf(b).needed else 0
  {}

  /** The continuation bytes at hand, up to those asked for. */
  lemma ContinuationTaken(t: seq<Byte>, b: seq<Byte>, n: nat)
    requires |t| <= n && forall i :: 0 <= i < |t| ==> Tail(t[i])
    requires |t| < n ==> b == [] || !Tail(b[0])
    ensures Continuation(t + b, n) == |t|
  {
    if |t| == n { ContinuationFull(t + b, n); } else { ContinuationExactly(t + b, n, |t|); }
  }

  lemma NextTakes(s: seq<Byte>)
    requires s != [] && s[0] >= 0x80
    ensures Next(s).len == 1 + Continuation(s[1..], Wanted(s[0]))
  {
    hide Accumulate, Continuation;
    WantedIsNeeded(s[0]);
    if LeadOf(s[0]).NoLead? { NothingTaken(s[1..]); }
  }

  lemma NothingTaken(s: seq<Byte>)
    ensures Continuation(s, 0) == 0
  {}

  /**
   * A byte that cannot lead, a sequence cut short, and a complete sequence that is no character are each one U+FFFD:
   * the leading byte with the continuation bytes it has, up to those it asks for.
   */
  lemma MalformedIsOneReplacement(a: seq<Byte>, b: seq<Byte>)
    requires a != [] && a[0] >= 0x80 && !IsChar(a)
    requires |a| <= 1 + Wanted(a[0]) && forall i :: 0 < i < |a| ==> 0x80 <= a[i] <= 0xBF
    requires |a| < 1 + Wanted(a[0]) ==> b == [] || !(0x80 <= b[0] <= 0xBF)
    ensures Decode(b, false).Some? && Decode(a + b, false) == Some([0xFFFD] + Decode(b, false).value)
    ensures Decode(a + b, true) == None
  {
    hide Decode, IsChar, Next, Continuation, Wanted;
    LossyNeverThrows(b);
    var s := a + b;
    assert s[1..] == a[1..] + b && s[..|a|] == a && s[|a|..] == b;
    ContinuationTaken(a[1..], b, Wanted(a[0]));
    NextTakes(s);
    NextIsChar(s, |a|);
    DecodeOne(s, false);
    DecodeOne(s, true);
  }

  lemma DecodeOne(s: seq<Byte>, fatal: bool)
    requires s != [] && Next(s).scalar.None?
    ensures Decode(s, fatal) ==
      if fatal then None else
        var rest := Decode(s[Next(s).len..], false);
        if rest.None? then None else Some([0xFFFD] + rest.value)
  {
    hide Next;
  }

  /** Self-synchronisation: malformed input never swallows a character that follows it. */
  lemma {:induction false} SelfSynchronising(a: seq<Byte>, b: seq<Byte>)
    requires b == [] || !Tail(b[0])
    ensures Decode(a, false).Some? && Decode(b, false).Some?
    ensures Decode(a + b, false) == Some(Decode(a, false).value + Decode(b, false).value)
    decreases |a|
  {
    hide Next, Emit;
    LossyNeverThrows(a);
    LossyNeverThrows(b);
    if a == [] {
      assert a + b == b;
      assert [] + Decode(b, false).value == Decode(b, false).value;
    } else {
      var p := Next(a);
      NextBounds(a);
      NextStops(a, b);
      SelfSynchronising(a[p.len..], b);
      assert (a + b)[p.len..] == a[p.len..] + b;
      var da, db := Decode(a[p.len..], false).value, Decode(b, false).value;
      assert Emit(p.scalar) + (da + db) == (Emit(p.scalar) + da) + db;
    }
  }

  lemma {:induction false} Utf16Concat(u: seq<Unit>, w: seq<Unit>)
    requires WellFormedUtf16(u) && WellFormedUtf16(w)
    ensures WellFormedUtf16(u + w)
  {
    if u == [] {
      assert u + w == w;
    } else if 0xD800 <= u[0] <= 0xDBFF {
      assert (u + w)[2..] == u[2..] + w;
      Utf16Concat(u[2..], w);
    } else {
      assert (u + w)[1..] == u[1..] + w;
      Utf16Concat(u[1..], w);
    }
  }

  lemma Utf16WellFormed(cp: int)
    requires Scalar(cp)
    ensures WellFormedUtf16(Utf16(cp))
  {
    var u := Utf16(cp);
    if |u| == 2 { assert u[2..] == []; } else { assert u[1..] == []; }
  }

  /** Whatever the bytes, the text is well-formed UTF-16. */
  lemma {:induction false} OutputWellFormed(s: seq<Byte>, fatal: bool)
    ensures Decode(s, fatal).Some? ==> WellFormedUtf16(Decode(s, fatal).value)
    decreases |s|
  {
    hide Next, Utf16, Scalar;
    if s != [] && Decode(s, fatal).Some? {
      var p := Next(s);
      NextBounds(s);
      OutputWellFormed(s[p.len..], fatal);
      if p.scalar.Some? { Utf16WellFormed(p.scalar.value); } else { assert [REPLACEMENT][1..] == []; }
      Utf16Concat(Emit(p.scalar), Decode(s[p.len..], fatal).value);
    }
  }

  // ---------------------------------------------------------------- the loops

  /** Text already decoded, before the decoding of what is left. */
  function Joined(done: seq<Unit>, rest: Option<seq<Unit>>): Option<seq<Unit>> {
    if rest.None? then None else Some(done + rest.value)
  }

  lemma JoinedStep(s: seq<Byte>, fatal: bool, done: seq<Unit>)
    requires s != []
    ensures var p := Next(s);
      Joined(done, Decode(s, fatal))
        == if fatal && p.scalar.None? then None else Joined(done + Emit(p.scalar), Decode(s[p.len..], fatal))
  {
    hide Next, Emit;
    NextBounds(s);
    var p := Next(s);
    var rest := Decode(s[p.len..], fatal);
    if rest.Some? { assert done + (Emit(p.scalar) + rest.value) == done + Emit(p.scalar) + rest.value; }
  }

  /** A run of ASCII bytes decodes to itself, however it is cut into chunks. */
  lemma {:induction false} AsciiRun(a: seq<Byte>, b: seq<Byte>, fatal: bool, done: seq<Unit>)
    requires forall j :: 0 <= j < |a| ==> a[j] < 0x80
    ensures Joined(done, Decode(a + b, fatal)) == Joined(done + Widened(a), Decode(b, fatal))
    decreases |a|
  {
    if a == [] {
      assert a + b == b && done + Widened(a) == done;
    } else {
      JoinedStep(a + b, fatal, done);
      assert (a + b)[1..] == a[1..] + b;
      AsciiRun(a[1..], b, fatal, done + [a[0]]);
      assert done + [a[0]] + Widened(a[1..]) == done + Widened(a);
    }
  }

  /** `String.fromCharCode` of bytes. */
  function Widened(a: seq<Byte>): seq<Unit> {
    seq(|a|, i requires 0 <= i < |a| => a[i])
  }

  lemma {:induction false} AccumulateSnoc(cp: int, s: seq<Byte>, b: Byte)
    ensures Accumulate(cp, s + [b]) == Accumulate(cp, s) * 0x40 + b % 0x40
    decreases |s|
  {
    if s == [] {
      assert ([] + [b])[1..] == [];
    } else {
      assert (s + [b])[1..] == s[1..] + [b];
      AccumulateSnoc(cp * 0x40 + s[0] % 0x40, s[1..], b);
    }
  }

  lemma {:induction false} ContinuationExactly(s: seq<Byte>, n: nat, k: nat)
    requires k < n && k <= |s| && (forall j :: 0 <= j < k ==> Tail(s[j])) && (k == |s| || !Tail(s[k]))
    ensures Continuation(s, n) == k
  {
    if s != [] {
      TailValue(s[0]);
      if k > 0 { ContinuationExactly(s[1..], n - 1, k - 1); }
    }
  }

  /** Appends the ASCII bytes from `start` to `end`, at most `chunk` at a time. */
  method AppendAscii(bytes: array<Byte>, start: nat, end: nat, chunk: nat, before: seq<Unit>) returns (s: seq<Unit>)
    requires start <= end <= bytes.Length && chunk > 0
    ensures s == before + Widened(bytes[start..end])
  {
    s := before;
    var c := start;
    while c < end
      invariant start <= c && s == before + Widened(bytes[start..if c < end then c else end])
      decreases end - c
    {
      var stop := if c + chunk < end then c + chunk else end;
      assert Widened(bytes[start..stop]) == Widened(bytes[start..c]) + Widened(bytes[c..stop]);
      s := s + Widened(bytes[c..stop]);
      c := c + chunk;
    }
  }

  /** The continuation loop: `i` stops at the first byte that does not continue the sequence. */
  method ReadContinuation(bytes: array<Byte>, start: nat, needed: nat, bits: int)
    returns (i: nat, ok: bool, cp: int)
    requires start < bytes.Length
    ensures i == start + 1 + Continuation(bytes[start + 1..], needed) <= bytes.Length
    ensures ok <==> Continuation(bytes[start + 1..], needed) == needed
    ensures ok ==> cp == Accumulate(bits, bytes[start + 1..i])
  {
    ghost var rest := bytes[start + 1..];
    i, ok, cp := start + 1, true, bits;
    var k := 0;
    while k < needed
      invariant 0 <= k <= needed && i == start + 1 + k <= bytes.Length && ok
      invariant forall j :: 0 <= j < k ==> Tail(rest[j])
      invariant cp == Accumulate(bits, bytes[start + 1..i])
    {
      if i >= bytes.Length || bytes[i] / 0x40 != 2 {
        ok := false;
        if i < bytes.Length { TailValue(bytes[i]); }
        ContinuationExactly(rest, needed, k);
        return;
      }
      TailValue(bytes[i]);
      AccumulateSnoc(bits, bytes[start + 1..i], bytes[i]);
      assert bytes[start + 1..i] + [bytes[i]] == bytes[start + 1..i + 1];
      cp := cp * 0x40 + bytes[i] % 0x40;
      i := i + 1;
      k := k + 1;
    }
    ContinuationFull(rest, needed);
  }

  /** One pass at a byte that is not ASCII. */
  method DecodeSequence(bytes: array<Byte>, start: nat) returns (i: nat, scalar: Option<int>)
    requires start < bytes.Length && bytes[start] >= 0x80
    ensures start < i <= bytes.Length && Next(bytes[start..]) == Piece(i - start, scalar)
  {
    ghost var s := bytes[start..];
    assert s[1..] == bytes[start + 1..];
    var b := bytes[start];
    i := start + 1;
    var needed, bits, min;
    if b >= 0xC2 && b < 0xE0 {
      needed, bits, min := 1, b as int % 0x20, 0x80;
    } else if b >= 0xE0 && b < 0xF0 {
      needed, bits, min := 2, b as int % 0x10, 0x800;
    } else if b >= 0xF0 && b < 0xF5 {
      needed, bits, min := 3, b as int % 0x08, 0x10000;
    } else {
      return i, None;
    }
    var ok, cp;
    i, ok, cp := ReadContinuation(bytes, start, needed, bits);
    if !ok {
      return i, None;
    }
    assert s[1..1 + needed] == bytes[start + 1..i];
    if cp < min || cp > 0x10FFFF || (cp >= 0xD800 && cp <= 0xDFFF) {
      return i, None;
    }
    return i, Some(cp);
  }

  /** `decode`, for any positive chunk size. */
  method DecodeBytes(bytes: array<Byte>, fatal: bool, ignoreBOM: bool, chunk: nat)
    returns (r: Result<seq<Unit>, string>)
    requires chunk > 0
    ensures r.Ok? <==> DecodeText(bytes[..], fatal, ignoreBOM).Some?
    ensures r.Ok? ==> r.value == DecodeText(bytes[..], fatal, ignoreBOM).value
  {
    hide Next, Decode, Emit, Widened;
    var i := 0;
    if !ignoreBOM && bytes.Length >= 3 && bytes[0] == 0xEF && bytes[1] == 0xBB && bytes[2] == 0xBF {
      i := 3;
    }
    ghost var whole := DecodeText(bytes[..], fatal, ignoreBOM);
    var s: seq<Unit> := [];
    StartJoined(bytes[i..], fatal);
    assert bytes[i..] == StripBom(bytes[..], ignoreBOM);
    while i < bytes.Length
      invariant 0 <= i <= bytes.Length
      invariant whole == Joined(s, Decode(bytes[i..], fatal))
      decreases bytes.Length - i
    {
      var start := i;
      while i < bytes.Length && bytes[i] < 0x80
        invariant start <= i <= bytes.Length
        invariant forall j :: start <= j < i ==> bytes[j] < 0x80
      {
        i := i + 1;
      }
      if i > start {
        assert bytes[start..] == bytes[start..i] + bytes[i..];
        AsciiRun(bytes[start..i], bytes[i..], fatal, s);
        s := AppendAscii(bytes, start, i, chunk, s);
        continue;
      }
      JoinedStep(bytes[start..], fatal, s);
      var scalar;
      i, scalar := DecodeSequence(bytes, start);
      assert bytes[start..][i - start..] == bytes[i..];
      if scalar.None? {
        if fatal { return Err("TextDecoder.decode: invalid UTF-8"); }
      }
      s := s + Emit(scalar);
    }
    EndJoined(s, bytes[i..], fatal);
    r := Ok(s);
  }

  lemma StartJoined(s: seq<Byte>, fatal: bool)
    ensures Joined([], Decode(s, fatal)) == Decode(s, fatal)
  {
    hide Next;
    if Decode(s, fatal).Some? { assert [] + Decode(s, fatal).value == Decode(s, fatal).value; }
  }

  lemma EndJoined(done: seq<Unit>, s: seq<Byte>, fatal: bool)
    requires s == []
    ensures Joined(done, Decode(s, fatal)) == Some(done)
  {
    assert done + [] == done;
  }
}
