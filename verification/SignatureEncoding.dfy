/**
 * DER to compact low-S signatures on P-256 (packages/attestation-native/ios/SignatureEncoding.swift).
 *
 * Swift arrays are values, so byte arrays are sequences that the loops reassign; `>> 1`, `& 1`, `<< 7`
 * and `& 0xff` are division, remainder and multiplication by powers of two.
 */
module SignatureEncoding {
  import opened Common

  type Byte = b: int | 0 <= b < 0x100
  type Bytes = seq<Byte>

  // ---------------------------------------------------------------- big-endian numbers

  function Value(s: Bytes): nat {
    if s == [] then 0 else Value(s[..|s| - 1]) * 0x100 + s[|s| - 1]
  }

  function Pow256(n: nat): (p: nat)
    ensures p > 0
  {
    if n == 0 then 1 else Pow256(n - 1) * 0x100
  }

  lemma {:induction false} ValueBound(s: Bytes)
    ensures Value(s) < Pow256(|s|)
  {
    if s != [] { ValueBound(s[..|s| - 1]); }
  }

  lemma {:induction false} ValueConcat(a: Bytes, b: Bytes)
    ensures Value(a + b) == Value(a) * Pow256(|b|) + Value(b)
  {
    if b == [] {
      assert a + b == a;
    } else {
      var init := b[..|b| - 1];
      ValueConcat(a, init);
      assert (a + b)[..|a + b| - 1] == a + init;
      Regroup(Value(a), Pow256(|init|));
    }
  }

  lemma Regroup(x: int, p: int)
    ensures x * p * 0x100 == x * (p * 0x100)
  {}

  lemma ValueCons(b: Byte, s: Bytes)
    ensures Value([b] + s) == b * Pow256(|s|) + Value(s)
  {
    ValueConcat([b], s);
    assert [b][..0] == [];
    assert Value([b]) == b;
  }

  lemma {:induction false} PowConcat(m: nat, n: nat)
    ensures Pow256(m + n) == Pow256(m) * Pow256(n)
  {
    if n > 0 {
      PowConcat(m, n - 1);
      Regroup(Pow256(m), Pow256(n - 1));
    }
  }

  lemma {:induction false} PowMonotone(m: nat, n: nat)
    requires m <= n
    ensures Pow256(m) <= Pow256(n)
    decreases n
  {
    if m < n { PowMonotone(m, n - 1); }
  }

  /** Numbers of the same width that share a prefix are ordered by the first byte that differs. */
  lemma FirstDifference(p: Bytes, x: Byte, y: Byte, s: Bytes, t: Bytes)
    requires |s| == |t| && x > y
    ensures Value(p + ([x] + s)) > Value(p + ([y] + t))
  {
    ValueConcat(p, [x] + s);
    ValueConcat(p, [y] + t);
    ValueCons(x, s);
    ValueCons(y, t);
    ValueBound(t);
    LeadingByteDominates(x, y, Pow256(|s|), Value(s), Value(t));
  }

  lemma LeadingByteDominates(x: int, y: int, p: int, s: int, t: int)
    requires x > y && p > 0 && 0 <= s && 0 <= t < p
    ensures x * p + s > y * p + t
  {
    AddTimes(y, x - y, p);
    AtLeastOnce(x - y, p);
  }

  lemma AddTimes(y: int, k: int, p: int)
    ensures (y + k) * p == y * p + k * p
  {}

  lemma AtLeastOnce(k: int, p: int)
    requires k >= 1 && p > 0
    ensures k * p >= p
  {}

  // ---------------------------------------------------------------- the three byte loops

  /** n >> 1. */
  method HalfOrder(n: Bytes) returns (half: Bytes)
    requires |n| == 32
    ensures |half| == 32 && Value(half) == Value(n) / 2
  {
    half := seq(32, _ => 0);
    var carry: Byte := 0;
    for i := 0 to 32
      invariant |half| == 32 && carry <= 1
      invariant Value(n[..i]) == 2 * Value(half[..i]) + carry
    {
      ghost var before := half;
      half := half[i := n[i] / 2 + carry * 0x80];
      carry := n[i] % 2;
      assert n[..i + 1][..i] == n[..i];
      assert half[..i + 1][..i] == before[..i];
    }
    assert n[..32] == n && half[..32] == half;
  }

  /** Big-endian comparison. */
  method IsGreaterThan(a: Bytes, b: Bytes) returns (r: bool)
    requires |a| == |b| == 32
    ensures r <==> Value(a) > Value(b)
  {
    for i := 0 to 32
      invariant a[..i] == b[..i]
    {
      if a[i] != b[i] {
        assert a == a[..i] + ([a[i]] + a[i + 1..]);
        assert b == a[..i] + ([b[i]] + b[i + 1..]);
        if a[i] > b[i] {
          FirstDifference(a[..i], a[i], b[i], a[i + 1..], b[i + 1..]);
        } else {
          FirstDifference(a[..i], b[i], a[i], b[i + 1..], a[i + 1..]);
        }
        return a[i] > b[i];
      }
    }
    assert a[..32] == a && b[..32] == b;
    return false;
  }

  lemma SubtractByte(a: Byte, b: Byte, borrow: int, p: int, va: int, vb: int, vo: int)
    requires p > 0 && 0 <= borrow <= 1 && vo == va - vb + borrow * p
    ensures var diff := a as int - b as int - borrow;
      var next := if diff < 0 then 1 else 0;
      diff % 0x100 * p + vo == (a * p + va) - (b * p + vb) + next * (p * 0x100)
  {
    var diff := a as int - b as int - borrow;
    var next := if diff < 0 then 1 else 0;
    assert diff % 0x100 == diff + next * 0x100;
    Distribute(a as int, b as int, borrow, next, p);
  }

  lemma Distribute(a: int, b: int, borrow: int, next: int, p: int)
    ensures (a - b - borrow + next * 0x100) * p == a * p - b * p - borrow * p + next * (p * 0x100)
  {}

  lemma SubtractStep(a: Bytes, b: Bytes, out: Bytes, borrow: int, i: nat)
    requires |a| == |b| == |out| == 32 && i < 32 && 0 <= borrow <= 1
    requires Value(out[i + 1..]) == Value(a[i + 1..]) - Value(b[i + 1..]) + borrow * Pow256(31 - i)
    ensures var diff := a[i] as int - b[i] as int - borrow;
      var next := if diff < 0 then 1 else 0;
      Value(out[i := diff % 0x100][i..]) == Value(a[i..]) - Value(b[i..]) + next * Pow256(32 - i)
  {
    hide Value;
    var diff := a[i] as int - b[i] as int - borrow;
    SubtractByte(a[i], b[i], borrow, Pow256(31 - i), Value(a[i + 1..]), Value(b[i + 1..]), Value(out[i + 1..]));
    ValueCons(diff % 0x100, out[i + 1..]);
    ValueCons(a[i], a[i + 1..]);
    ValueCons(b[i], b[i + 1..]);
    assert out[i := diff % 0x100][i..] == [diff % 0x100] + out[i + 1..];
    assert a[i..] == [a[i]] + a[i + 1..] && b[i..] == [b[i]] + b[i + 1..];
  }

  /** a - b, borrowing from above when b is larger. */
  method Subtract256(a: Bytes, b: Bytes) returns (out: Bytes)
    requires |a| == |b| == 32
    ensures |out| == 32
    ensures Value(out) == Value(a) - Value(b) + if Value(a) < Value(b) then Pow256(32) else 0
  {
    hide Pow256;
    out := seq(32, _ => 0);
    var borrow := 0;
    var i := 31;
    while i >= 0
      invariant -1 <= i <= 31 && |out| == 32 && 0 <= borrow <= 1
      invariant Value(out[i + 1..]) == Value(a[i + 1..]) - Value(b[i + 1..]) + borrow * Pow256(31 - i)
    {
      var diff := a[i] as int - b[i] as int - borrow;
      SubtractStep(a, b, out, borrow, i);
      out := out[i := diff % 0x100];
      borrow := if diff < 0 then 1 else 0;
      i := i - 1;
    }
    assert out[0..] == out && a[0..] == a && b[0..] == b;
    ValueBound(out);
    ValueBound(a);
    ValueBound(b);
  }

  // ---------------------------------------------------------------- low S

  /** The P-256 group order n. */
  const P256_ORDER: Bytes :=
    [0xff, 0xff, 0xff, 0xff, 0x00, 0x00, 0x00, 0x00, 0xff, 0xff, 0xff, 0xff, 0xff, 0xff, 0xff, 0xff,
     0xbc, 0xe6, 0xfa, 0xad, 0xa7, 0x17, 0x9e, 0x84, 0xf3, 0xb9, 0xca, 0xc2, 0xfc, 0x63, 0x25, 0x51]

  const N: nat := Value(P256_ORDER)

  lemma OrderTo8()
    ensures |P256_ORDER| == 32 && Value(P256_ORDER[..8]) == 0xFFFFFFFF_00000000
  {
    hide Value;
    var p := P256_ORDER;
    assert p[..0] == [];
    FourBytes(p, 0);
    FourBytes(p, 4);
  }

  lemma OrderTo16()
    ensures |P256_ORDER| == 32 && Value(P256_ORDER[..16]) == 0xFFFFFFFF_00000000_FFFFFFFF_FFFFFFFF
  {
    hide Value;
    var p := P256_ORDER;
    OrderTo8();
    FourBytes(p, 8);
    FourBytes(p, 12);
  }

  lemma OrderTo24()
    ensures |P256_ORDER| == 32 && Value(P256_ORDER[..24]) == 0xFFFFFFFF_00000000_FFFFFFFF_FFFFFFFF_BCE6FAAD_A7179E84
  {
    hide Value;
    var p := P256_ORDER;
    OrderTo16();
    FourBytes(p, 16);
    FourBytes(p, 20);
  }

  /** The group order of P-256 as a number. */
  lemma OrderIs()
    ensures N == 0xFFFFFFFF_00000000_FFFFFFFF_FFFFFFFF_BCE6FAAD_A7179E84_F3B9CAC2_FC632551
  {
    hide Value;
    var p := P256_ORDER;
    OrderTo24();
    FourBytes(p, 24);
    FourBytes(p, 28);
    assert p[..32] == p;
  }

  lemma FourBytes(s: Bytes, i: nat)
    requires i + 4 <= |s|
    ensures Value(s[..i + 4])
         == Value(s[..i]) * 0x1_0000_0000 + s[i] as int * 0x100_0000 + s[i + 1] as int * 0x1_0000 + s[i + 2] as int * 0x100 + s[i + 3] as int
    ensures Value([]) == 0
  {
    NextByte(s, i);
    NextByte(s, i + 1);
    NextByte(s, i + 2);
    NextByte(s, i + 3);
    hide Value;
  }

  lemma NextByte(s: Bytes, i: nat)
    requires i < |s|
    ensures Value(s[..i + 1]) == Value(s[..i]) * 0x100 + s[i] as int
  {
    assert s[..i + 1][..i] == s[..i];
  }

  /** The value `s` is replaced by; above the order the subtraction wraps, as `subtract256` assumes it never is. */
  function LowS(s: nat): nat
    requires s < Pow256(32)
  {
    if s <= N / 2 then s else if s <= N then N - s else N - s + Pow256(32)
  }

  /** For an s up to the order the result is the smaller of s and n - s; low exactly there, and there only once. */
  lemma LowSIsLow(s: nat)
    requires s < Pow256(32)
    ensures LowS(s) < Pow256(32)
    ensures s <= N ==> LowS(s) == if s <= N - s then s else N - s
    ensures LowS(s) <= N / 2 <==> s <= N
    ensures LowS(LowS(s)) == LowS(s) <==> s <= N
  {
    hide Value;
    ValueBound(P256_ORDER);
    OrderIsOdd();
  }

  lemma OrderIsOdd()
    ensures N % 2 == 1 && Pow256(32) % 2 == 0
  {
    assert P256_ORDER[31] == 0x51;
    EvenTimes(Value(P256_ORDER[..31]));
    EvenTimes(Pow256(31));
    hide Value, Pow256;
  }

  lemma EvenTimes(x: nat)
    ensures x * 0x100 % 2 == 0 && (x * 0x100 + 0x51) % 2 == 1
  {
    Twice(x * 0x80);
    Twice(x * 0x80 + 0x28);
  }

  lemma Twice(y: nat)
    ensures 2 * y % 2 == 0 && (2 * y + 1) % 2 == 1
  {}

  // ---------------------------------------------------------------- DER integers

  /** A big-endian number in exactly 32 bytes, if it fits. */
  predicate Is32(v: Bytes, x: nat) {
    |v| == 32 && Value(v) == x
  }

  lemma {:induction false} ValueInjective(a: Bytes, b: Bytes)
    requires |a| == |b| && Value(a) == Value(b)
    ensures a == b
  {
    if a != [] {
      ValueInjective(a[..|a| - 1], b[..|b| - 1]);
      assert a == a[..|a| - 1] + [a[|a| - 1]] && b == b[..|b| - 1] + [b[|b| - 1]];
    }
  }

  lemma LeadingZero(s: Bytes)
    requires s != [] && s[0] == 0
    ensures Value(s[1..]) == Value(s)
  {
    assert s == [s[0]] + s[1..];
    ValueCons(s[0], s[1..]);
  }

  /** The trimming and padding at the end of `readInteger`: the same number in 32 bytes, or an error when it needs more. */
  method FitTo32(content: Bytes) returns (r: Result<Bytes, string>)
    ensures r.Ok? <==> Value(content) < Pow256(32)
    ensures r.Ok? ==> Is32(r.value, Value(content))
  {
    hide Value, Pow256;
    var v := content;
    while |v| > 32 && v[0] == 0
      invariant Value(v) == Value(content)
      decreases |v|
    {
      LeadingZero(v);
      v := v[1..];
    }
    if |v| > 32 {
      TooWide(v);
      return Err("INTEGER wider than 32 bytes");
    }
    while |v| < 32
      invariant |v| <= 32 && Value(v) == Value(content)
      decreases 32 - |v|
    {
      LeadingZero([0] + v);
      assert ([0] + v)[1..] == v;
      v := [0] + v;
    }
    ValueBound(v);
    return Ok(v);
  }

  lemma TooWide(v: Bytes)
    requires |v| > 32 && v[0] > 0
    ensures Value(v) >= Pow256(32)
  {
    assert v == [v[0]] + v[1..];
    ValueCons(v[0], v[1..]);
    AtLeastOnce(v[0], Pow256(|v| - 1));
    PowMonotone(32, |v| - 1);
  }

  /** A DER INTEGER at `idx`: its content, and the index after it. */
  datatype Parsed = Parsed(content: Bytes, next: nat) | Malformed

  function IntegerAt(bytes: Bytes, idx: nat): (p: Parsed)
    ensures p.Parsed? ==> idx + 2 < p.next <= |bytes| && p.content == bytes[idx + 2..p.next]
  {
    if idx + 1 >= |bytes| || bytes[idx] != 0x02 then Malformed
    else
      var len: nat := bytes[idx + 1];
      if len == 0 || idx + 2 + len > |bytes| then Malformed
      else Parsed(bytes[idx + 2..idx + 2 + len], idx + 2 + len)
  }

  method ReadInteger(bytes: Bytes, idx: nat) returns (r: Result<Bytes, string>, next: nat)
    ensures r.Ok? <==> IntegerAt(bytes, idx).Parsed? && Value(IntegerAt(bytes, idx).content) < Pow256(32)
    ensures r.Ok? ==> Is32(r.value, Value(IntegerAt(bytes, idx).content)) && next == IntegerAt(bytes, idx).next
  {
    hide Value, Pow256;
    next := idx;
    if !(next < |bytes| && bytes[next] == 0x02) { return Err("expected INTEGER tag 0x02"), next; }
    next := next + 1;
    if !(next < |bytes|) { return Err("truncated INTEGER length"), next; }
    var len: nat := bytes[next];
    next := next + 1;
    if !(len > 0 && next + len <= |bytes|) { return Err("INTEGER runs past the buffer"), next; }
    var content := bytes[next..next + len];
    next := next + len;
    r := FitTo32(content);
  }

  // ---------------------------------------------------------------- the signature

  /** Where the contents of the SEQUENCE start, if its header is one the parser takes. */
  function SequenceAt(bytes: Bytes): Option<nat> {
    if |bytes| < 8 || bytes[0] != 0x30 then None
    else if bytes[1] == 0x81 then if 3 + bytes[2] as int == |bytes| then Some(3) else None
    else if bytes[1] < 0x80 then if 2 + bytes[1] as int == |bytes| then Some(2) else None
    else None
  }

  /** The two numbers of a SEQUENCE { INTEGER r, INTEGER s } that fits in 32 bytes each and fills the buffer. */
  function Signature(bytes: Bytes): Option<(nat, nat)> {
    var start := SequenceAt(bytes);
    if start.None? then None
    else
      var r := IntegerAt(bytes, start.value);
      if r.Malformed? then None
      else
        var s := IntegerAt(bytes, r.next);
        if s.Malformed? || s.next != |bytes| then None
        else if Value(r.content) >= Pow256(32) || Value(s.content) >= Pow256(32) then None
        else Some((Value(r.content), Value(s.content)))
  }

  /** A DER INTEGER with contents `a`. */
  function IntegerOf(a: Bytes): Bytes
    requires 0 < |a| < 0x100
  {
    [0x02, |a|] + a
  }

  /** A SEQUENCE around `body`, its length in one byte, or in the one-byte long form. */
  predicate IsSequenceOf(bytes: Bytes, body: Bytes) {
    || (|body| < 0x80 && bytes == [0x30, |body|] + body)
    || (|body| < 0x100 && bytes == [0x30, 0x81, |body|] + body)
  }

  /** The input is a SEQUENCE of two INTEGERs with contents `a` and `b`, each fitting in 32 bytes. */
  predicate IsSignatureOf(bytes: Bytes, a: Bytes, b: Bytes) {
    && 0 < |a| < 0x100 && 0 < |b| < 0x100 && Value(a) < Pow256(32) && Value(b) < Pow256(32)
    && |bytes| >= 8 && IsSequenceOf(bytes, IntegerOf(a) + IntegerOf(b))
  }

  lemma IntegerFound(prefix: Bytes, a: Bytes, rest: Bytes)
    requires 0 < |a| < 0x100
    ensures IntegerAt(prefix + IntegerOf(a) + rest, |prefix|) == Parsed(a, |prefix| + 2 + |a|)
  {
    var s := prefix + IntegerOf(a) + rest;
    assert s[|prefix|] == 0x02 && s[|prefix| + 1] == |a|;
    assert s[|prefix| + 2..|prefix| + 2 + |a|] == a;
  }

  lemma IntegerSpelled(bytes: Bytes, i: nat)
    requires IntegerAt(bytes, i).Parsed?
    ensures var p := IntegerAt(bytes, i);
      0 < |p.content| < 0x100 && i < p.next <= |bytes| && bytes[i..p.next] == IntegerOf(p.content)
  {
    var p := IntegerAt(bytes, i);
    assert bytes[i] == 0x02 && bytes[i + 1] == |p.content|;
  }

  lemma SignatureTaken(bytes: Bytes, a: Bytes, b: Bytes)
    requires IsSignatureOf(bytes, a, b)
    ensures Signature(bytes) == Some((Value(a), Value(b)))
  {
    hide Value, Pow256, IntegerAt, IntegerOf;
    var body := IntegerOf(a) + IntegerOf(b);
    var header: Bytes := if |body| < 0x80 && bytes == [0x30, |body|] + body then [0x30, |body|] else [0x30, 0x81, |body|];
    assert bytes == header + body;
    assert SequenceAt(bytes) == Some(|header|);
    IntegerFound(header, a, IntegerOf(b));
    IntegerFound(header + IntegerOf(a), b, []);
    IntegerLength(a);
    IntegerLength(b);
    assert bytes == header + IntegerOf(a) + IntegerOf(b) && bytes == (header + IntegerOf(a)) + IntegerOf(b) + [];
  }

  lemma IntegerLength(a: Bytes)
    requires 0 < |a| < 0x100
    ensures |IntegerOf(a)| == 2 + |a|
  {}

  lemma SignatureIsSpelled(bytes: Bytes) returns (a: Bytes, b: Bytes)
    requires Signature(bytes).Some?
    ensures IsSignatureOf(bytes, a, b) && Signature(bytes) == Some((Value(a), Value(b)))
  {
    hide Value, Pow256, IntegerAt, IntegerOf;
    var start := SequenceAt(bytes).value;
    var p := IntegerAt(bytes, start);
    var q := IntegerAt(bytes, p.next);
    IntegerSpelled(bytes, start);
    IntegerSpelled(bytes, p.next);
    a, b := p.content, q.content;
    assert bytes[start..] == bytes[start..p.next] + bytes[p.next..q.next];
    assert bytes == bytes[..start] + bytes[start..];
    if start == 2 {
      assert bytes[..start] == [0x30, bytes[1]];
    } else {
      assert bytes[..start] == [0x30, 0x81, bytes[2]];
    }
  }

  /** What the parser takes, as a grammar: exactly these inputs are signatures, and of exactly these numbers. */
  lemma SignatureIff(bytes: Bytes, r: nat, s: nat)
    ensures Signature(bytes) == Some((r, s)) <==> exists a, b :: IsSignatureOf(bytes, a, b) && Value(a) == r && Value(b) == s
  {
    hide Signature, IsSignatureOf, Value;
    if Signature(bytes) == Some((r, s)) { var a, b := SignatureIsSpelled(bytes); }
    if a, b :| IsSignatureOf(bytes, a, b) && Value(a) == r && Value(b) == s { SignatureTaken(bytes, a, b); }
  }

  /** `derToCompactLowSHex` before the hexadecimal step: 64 bytes, or an error; every index is in bounds. */
  method DerToCompactLowS(bytes: Bytes) returns (result: Result<Bytes, string>)
    ensures result.Ok? <==> Signature(bytes).Some?
    ensures result.Ok? ==>
              && |result.value| == 64
              && Is32(result.value[..32], Signature(bytes).value.0)
              && Is32(result.value[32..], LowS(Signature(bytes).value.1))
  {
    hide Value, Pow256, IntegerAt;
    if |bytes| == 0 { return Err("empty input"); }
    if bytes[0] != 0x30 { return Err("expected SEQUENCE tag 0x30"); }
    if |bytes| < 8 { return Err("buffer too short for an ECDSA signature"); }
    var idx: nat := 1;
    var seqLen: nat;
    if bytes[idx] == 0x81 {
      idx := idx + 1;
      seqLen := bytes[idx];
      idx := idx + 1;
    } else if bytes[idx] < 0x80 {
      seqLen := bytes[idx];
      idx := idx + 1;
    } else {
      return Err("unsupported long-form length");
    }
    if idx + seqLen != |bytes| { return Err("SEQUENCE length does not match buffer"); }
    var r, s;
    r, idx := ReadInteger(bytes, idx);
    if r.Err? { return r; }
    s, idx := ReadInteger(bytes, idx);
    if s.Err? { return s; }
    if idx != |bytes| { return Err("trailing bytes after s"); }
    var low := s.value;
    ValueBound(low);
    ValueBound(P256_ORDER);
    var half := HalfOrder(P256_ORDER);
    var high := IsGreaterThan(low, half);
    if high { low := Subtract256(P256_ORDER, low); }
    result := Ok(r.value + low);
    assert (r.value + low)[..32] == r.value && (r.value + low)[32..] == low;
  }

  // ---------------------------------------------------------------- section 8.3 of ITU-T X.690

  /** The fewest bytes for a positive number. */
  function Minimal(x: nat): (b: Bytes)
    ensures Value(b) == x && (b != [] ==> b[0] > 0) && (x > 0 <==> b != [])
  {
    if x == 0 then []
    else
      var b := Minimal(x / 0x100) + [x % 0x100];
      assert b[..|b| - 1] == Minimal(x / 0x100);
      b
  }

  /** INTEGER contents: two's complement, so a first byte from 0x80 takes a zero before it. */
  function IntegerContents(x: nat): Bytes
    requires x > 0
  {
    if Minimal(x)[0] >= 0x80 then [0] + Minimal(x) else Minimal(x)
  }

  lemma MinimalLength(x: nat)
    requires 0 < x < Pow256(32)
    ensures 1 <= |Minimal(x)| <= 32
  {
    if |Minimal(x)| > 32 { TooWide(Minimal(x)); }
  }

  lemma ContentsValue(x: nat)
    requires 0 < x < Pow256(32)
    ensures 1 <= |IntegerContents(x)| <= 33 && Value(IntegerContents(x)) == x
  {
    hide Value, Pow256;
    MinimalLength(x);
    if Minimal(x)[0] >= 0x80 {
      LeadingZero([0] + Minimal(x));
      assert ([0] + Minimal(x))[1..] == Minimal(x);
    }
  }

  function DerInteger(x: nat): (d: Bytes)
    requires 0 < x < Pow256(32)
    ensures 3 <= |d| <= 35
  {
    ContentsValue(x);
    [0x02, |IntegerContents(x)|] + IntegerContents(x)
  }

  function DerSignature(r: nat, s: nat): Bytes
    requires 0 < r < Pow256(32) && 0 < s < Pow256(32)
  {
    var a, b := DerInteger(r), DerInteger(s);
    [0x30, |a| + |b|] + (a + b)
  }

  lemma IntegerReadsBack(prefix: Bytes, x: nat, rest: Bytes)
    requires 0 < x < Pow256(32)
    ensures IntegerAt(prefix + (DerInteger(x) + rest), |prefix|)
         == Parsed(IntegerContents(x), |prefix| + |DerInteger(x)|)
  {
    hide Value, Pow256, IntegerContents;
    ContentsValue(x);
    var c := IntegerContents(x);
    var bytes := prefix + (DerInteger(x) + rest);
    var i := |prefix|;
    assert bytes[i] == 0x02 && bytes[i + 1] == |c|;
    assert bytes[i + 2..i + 2 + |c|] == c;
  }

  /** Parsing the DER form of any r and s gives them back. */
  lemma SignatureReadsBack(r: nat, s: nat)
    requires 0 < r < Pow256(32) && 0 < s < Pow256(32)
    ensures Signature(DerSignature(r, s)) == Some((r, s))
  {
    hide Value, Pow256, IntegerContents, IntegerAt;
    ContentsValue(r);
    ContentsValue(s);
    var bytes := DerSignature(r, s);
    var header: Bytes := [0x30, |DerInteger(r)| + |DerInteger(s)|];
    IntegerReadsBack(header, r, DerInteger(s));
    IntegerReadsBack(header + DerInteger(r), s, []);
    assert bytes == header + (DerInteger(r) + DerInteger(s));
    assert bytes == (header + DerInteger(r)) + (DerInteger(s) + []);
    assert |header + DerInteger(r)| == 2 + |DerInteger(r)|;
  }

  /**
   * Above the order the conversion goes wrong: the DER form of s = 2^256 - 1 is taken, its s is replaced by a high
   * value, and normalising that value changes it again.
   */
  lemma HighestSIsNotNormalised(r: nat)
    requires 0 < r < Pow256(32)
    ensures var s := Pow256(32) - 1;
      && N < s < Pow256(32) && Signature(DerSignature(r, s)) == Some((r, s))
      && LowS(s) > N / 2 && LowS(LowS(s)) != LowS(s)
  {
    hide Signature, DerSignature;
    ValueBound(P256_ORDER);
    OrderIsOdd();
    OrderIsNotHighest();
    hide Value, Pow256;
    SignatureReadsBack(r, Pow256(32) - 1);
    LowSIsLow(Pow256(32) - 1);
  }

  lemma OrderIsNotHighest()
    ensures N < Pow256(32) - 1
  {
    assert P256_ORDER == P256_ORDER[..31] + [0x51];
    ValueConcat(P256_ORDER[..31], [0x51]);
    ValueBound(P256_ORDER[..31]);
    assert Value([0x51]) == 0x51;
    assert Pow256(32) == Pow256(31) * 0x100;
    hide Value, Pow256;
  }

  // ---------------------------------------------------------------- hexadecimal

  function HexDigit(n: int): char
    requires 0 <= n < 16
  {
    if n < 10 then ('0' as int + n) as char else ('a' as int + n - 10) as char
  }

  /** Two lower-case digits a byte. */
  function Hex(s: Bytes): string {
    if s == [] then "" else [HexDigit(s[0] as int / 16), HexDigit(s[0] as int % 16)] + Hex(s[1..])
  }

  function Nibble(c: char): (n: int)
    ensures 0 <= n < 16
  {
    if '0' <= c <= '9' then c as int - '0' as int else if 'a' <= c <= 'f' then c as int - 'a' as int + 10 else 0
  }

  /** Reads back what Hex wrote. */
  function UnHex(h: string): Bytes {
    if |h| < 2 then [] else [Nibble(h[0]) * 16 + Nibble(h[1])] + UnHex(h[2..])
  }

  lemma {:induction false} HexRoundTrip(s: Bytes)
    ensures |Hex(s)| == 2 * |s| && UnHex(Hex(s)) == s
  {
    if s != [] {
      HexRoundTrip(s[1..]);
      assert Hex(s)[2..] == Hex(s[1..]);
      assert s == [s[0]] + s[1..];
    }
  }

  /** `derToCompactLowSHex`: the text reads back as 64 bytes, r and the low form of s. */
  method DerToCompactLowSHex(der: Bytes) returns (result: Result<string, string>)
    ensures result.Ok? <==> Signature(der).Some?
    ensures result.Ok? ==>
              && |result.value| == 128 && |UnHex(result.value)| == 64
              && Value(UnHex(result.value)[..32]) == Signature(der).value.0
              && Value(UnHex(result.value)[32..]) == LowS(Signature(der).value.1)
  {
    var compact := DerToCompactLowS(der);
    if compact.Err? { return Err(compact.error); }
    HexRoundTrip(compact.value);
    return Ok(Hex(compact.value));
  }

  /**
   * For every signature a P-256 signer can produce, whatever its s: the hexadecimal text reads back as r and the
   * smaller of s and n - s, in 32 bytes each.
   */
  method CompactOfSignature(r: nat, s: nat) returns (hex: string)
    requires 0 < r < N && 0 < s < N
    ensures |UnHex(hex)| == 64
    ensures Value(UnHex(hex)[..32]) == r && Value(UnHex(hex)[32..]) == if s <= N - s then s else N - s
  {
    hide Value, Pow256, Signature, DerSignature;
    ValueBound(P256_ORDER);
    SignatureReadsBack(r, s);
    LowSIsLow(s);
    var result := DerToCompactLowSHex(DerSignature(r, s));
    hex := result.value;
  }
}
