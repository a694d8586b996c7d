/**
 * Text as UTF-16 code units, and its two wire forms: UTF-16 little endian (section 2.1 of
 * RFC 2781) and UTF-8 (section 3 of RFC 3629).
 */
module Text {
  import opened Wrappers

  type Byte = x: int | 0 <= x < 0x100
  type CodeUnit = x: int | 0 <= x < 0x1_0000

  type Bytes = seq<Byte>
  type Units = seq<CodeUnit>

  const SPACE: CodeUnit := 0x20
  const BYTE_ORDER_MARK: CodeUnit := 0xFEFF

  predicate IsHigh(c: CodeUnit) {
    0xD800 <= c <= 0xDBFF
  }

  predicate IsLow(c: CodeUnit) {
    0xDC00 <= c <= 0xDFFF
  }

  /** No isolated surrogate. */
  predicate IsScalarText(s: Units)
    decreases |s|
  {
    || s == []
    || (IsHigh(s[0]) && |s| > 1 && IsLow(s[1]) && IsScalarText(s[2..]))
    || (!IsHigh(s[0]) && !IsLow(s[0]) && IsScalarText(s[1..]))
  }

  /** The index loop that skips the second half of each pair. */
  method CheckScalarText(s: Units) returns (ok: bool)
    ensures ok <==> IsScalarText(s)
  {
    var index := 0;
    while index < |s|
      invariant 0 <= index <= |s| && (IsScalarText(s) <==> IsScalarText(s[index..]))
    {
      var unit := s[index];
      ghost var rest := s[index..];
      if IsHigh(unit) {
        if !(index + 1 < |s| && IsLow(s[index + 1])) {
          return false;
        }
        assert rest[2..] == s[index + 2..];
        index := index + 2;
      } else if IsLow(unit) {
        return false;
      } else {
        assert rest[1..] == s[index + 1..];
        index := index + 1;
      }
    }
    return true;
  }

  // ---------------------------------------------------------------- UTF-16 little endian

  /** The number a byte stands for. */
  function Number(b: Byte): int {
    b
  }

  function Utf16Bytes(s: Units): (r: Bytes)
    ensures |r| == 2 * |s|
  {
    if s == [] then [] else [s[0] % 0x100, s[0] / 0x100] + Utf16Bytes(s[1..])
  }

  function Utf16Units(b: Bytes): (r: Units)
    requires |b| % 2 == 0
    ensures 2 * |r| == |b|
  {
    if b == [] then [] else [Number(b[0]) + 0x100 * Number(b[1])] + Utf16Units(b[2..])
  }

  lemma {:induction false} Utf16RoundTrip(s: Units)
    ensures Utf16Units(Utf16Bytes(s)) == s
  {
    if s != [] {
      Utf16RoundTrip(s[1..]);
      assert Utf16Bytes(s)[2..] == Utf16Bytes(s[1..]);
    }
  }

  lemma {:induction false} Utf16RoundTripBytes(b: Bytes)
    requires |b| % 2 == 0
    ensures Utf16Bytes(Utf16Units(b)) == b
  {
    if b != [] {
      Utf16RoundTripBytes(b[2..]);
      assert Utf16Units(b)[1..] == Utf16Units(b[2..]);
    }
  }

  // ---------------------------------------------------------------- UTF-8

  predicate IsScalar(c: int) {
    0 <= c < 0xD800 || 0xE000 <= c < 0x11_0000
  }

  type Scalar = c: int | 0 <= c < 0xD800 || 0xE000 <= c < 0x11_0000

  /** The number a code unit stands for. */
  function Unit(c: CodeUnit): int {
    c
  }

  /** The first scalar of well-formed text and the number of code units it takes. */
  function FirstScalar(s: Units): (r: (Scalar, nat))
    requires IsScalarText(s) && s != []
    ensures 1 <= r.1 <= 2 && r.1 <= |s| && IsScalarText(s[r.1..]) && s[..r.1] == UnitsOf(r.0)
  {
    if IsHigh(s[0]) then (0x1_0000 + (Unit(s[0]) - 0xD800) * 0x400 + (Unit(s[1]) - 0xDC00), 2) else (Unit(s[0]), 1)
  }

  function UnitsOf(c: Scalar): (r: Units)
    ensures 1 <= |r| <= 2
  {
    if c < 0x1_0000 then
      var only: CodeUnit := c;
      [only]
    else
      var high: CodeUnit, low: CodeUnit := 0xD800 + (c - 0x1_0000) / 0x400, 0xDC00 + (c - 0x1_0000) % 0x400;
      [high, low]
  }

  lemma {:induction false} UnitsOfIsText(c: Scalar, rest: Units)
    requires IsScalarText(rest)
    ensures IsScalarText(UnitsOf(c) + rest) && FirstScalar(UnitsOf(c) + rest) == (c, |UnitsOf(c)|)
  {
    var s := UnitsOf(c) + rest;
    assert s[|UnitsOf(c)|..] == rest;
  }

  /** One to four bytes, the first telling how many follow. */
  function ScalarBytes(c: Scalar): (r: Bytes)
    ensures 1 <= |r| <= 4
  {
    if c < 0x80 then Four(c, 0, 0, 0)[..1]
    else if c < 0x800 then Four(0xC0 + c / 0x40, 0x80 + c % 0x40, 0, 0)[..2]
    else if c < 0x1_0000 then Four(0xE0 + c / 0x1000, 0x80 + c / 0x40 % 0x40, 0x80 + c % 0x40, 0)[..3]
    else Four(0xF0 + c / 0x4_0000, 0x80 + c / 0x1000 % 0x40, 0x80 + c / 0x40 % 0x40, 0x80 + c % 0x40)
  }

  function Four(w: Byte, x: Byte, y: Byte, z: Byte): (r: Bytes)
    ensures |r| == 4
  {
    [w, x, y, z]
  }

  predicate IsTail(b: Byte) {
    0x80 <= b < 0xC0
  }

  function Two(w: Byte, x: Byte): int {
    (Number(w) - 0xC0) * 0x40 + (Number(x) - 0x80)
  }

  function Three(w: Byte, x: Byte, y: Byte): int {
    ((Number(w) - 0xE0) * 0x40 + (Number(x) - 0x80)) * 0x40 + (Number(y) - 0x80)
  }

  function FourOf(w: Byte, x: Byte, y: Byte, z: Byte): int {
    (((Number(w) - 0xF0) * 0x40 + (Number(x) - 0x80)) * 0x40 + (Number(y) - 0x80)) * 0x40 + (Number(z) - 0x80)
  }

  /** The scalar at the front of a byte string; overlong forms, surrogates and stray bytes are errors. */
  function DecodeOne(b: Bytes): (r: Option<(Scalar, nat)>)
    ensures r.Some? ==> 1 <= r.value.1 <= |b|
  {
    if b == [] then None
    else if b[0] < 0x80 then Some((Number(b[0]), 1))
    else if 0xC2 <= b[0] < 0xE0 && |b| >= 2 && IsTail(b[1]) then Some((Two(b[0], b[1]), 2))
    else if 0xE0 <= b[0] < 0xF0 && |b| >= 3 && IsTail(b[1]) && IsTail(b[2]) then
      var c := Three(b[0], b[1], b[2]);
      if c >= 0x800 && IsScalar(c) then Some((c, 3)) else None
    else if 0xF0 <= b[0] < 0xF5 && |b| >= 4 && IsTail(b[1]) && IsTail(b[2]) && IsTail(b[3]) then
      var c := FourOf(b[0], b[1], b[2], b[3]);
      if c >= 0x1_0000 && IsScalar(c) then Some((c, 4)) else None
    else None
  }

  lemma {:induction false} DecodeOneInverts(c: Scalar, rest: Bytes)
    ensures DecodeOne(ScalarBytes(c) + rest) == Some((c, |ScalarBytes(c)|))
  {
    var q := c / 0x40;
    assert c == q * 0x40 + c % 0x40;
    assert c / 0x1000 == q / 0x40 && q == q / 0x40 * 0x40 + q % 0x40;
    var h := q / 0x40;
    assert c / 0x4_0000 == h / 0x40 && h == h / 0x40 * 0x40 + h % 0x40;
  }

  lemma {:induction false} Quotient(q: int, r: int)
    requires 0 <= r < 0x40
    ensures (q * 0x40 + r) / 0x40 == q && (q * 0x40 + r) % 0x40 == r
  {}

  lemma {:induction false} DecodeOneIsExact(b: Bytes)
    requires DecodeOne(b).Some?
    ensures var (c, n) := DecodeOne(b).value; b[..n] == ScalarBytes(c)
  {
    var (c, n) := DecodeOne(b).value;
    if n == 2 {
      Quotient(Number(b[0]) - 0xC0, Number(b[1]) - 0x80);
    } else if n == 3 {
      ThreeExact(b[0], b[1], b[2]);
    } else if n == 4 {
      FourExact(b[0], b[1], b[2], b[3]);
    }
    assert b[..n] == ScalarBytes(c);
  }

  lemma {:induction false} ThreeExact(w: Byte, x: Byte, y: Byte)
    requires 0xE0 <= w < 0xF0 && IsTail(x) && IsTail(y) && 0x800 <= Three(w, x, y) && IsScalar(Three(w, x, y))
    ensures ScalarBytes(Three(w, x, y)) == [w, x, y]
  {
    var q := (Number(w) - 0xE0) * 0x40 + (Number(x) - 0x80);
    Quotient(q, Number(y) - 0x80);
    Quotient(Number(w) - 0xE0, Number(x) - 0x80);
    assert Three(w, x, y) / 0x1000 == q / 0x40;
  }

  lemma {:induction false} FourExact(w: Byte, x: Byte, y: Byte, z: Byte)
    requires 0xF0 <= w < 0xF5 && IsTail(x) && IsTail(y) && IsTail(z)
    requires 0x1_0000 <= FourOf(w, x, y, z) && IsScalar(FourOf(w, x, y, z))
    ensures ScalarBytes(FourOf(w, x, y, z)) == [w, x, y, z]
  {
    var q := (Number(w) - 0xF0) * 0x40 + (Number(x) - 0x80);
    var p := q * 0x40 + (Number(y) - 0x80);
    Quotient(p, Number(z) - 0x80);
    Quotient(q, Number(y) - 0x80);
    Quotient(Number(w) - 0xF0, Number(x) - 0x80);
    assert FourOf(w, x, y, z) / 0x1000 == p / 0x40 && FourOf(w, x, y, z) / 0x4_0000 == q / 0x40;
  }

  function Utf8Bytes(s: Units): Bytes
    requires IsScalarText(s)
    decreases |s|
  {
    if s == [] then []
    else
      var (c, n) := FirstScalar(s);
      ScalarBytes(c) + Utf8Bytes(s[n..])
  }

  /** A strict decoder: any malformed sequence is an error. */
  function Utf8Units(b: Bytes): (r: Option<Units>)
    ensures r.Some? ==> IsScalarText(r.value)
    decreases |b|
  {
    if b == [] then Some([])
    else
      var one := DecodeOne(b);
      if one.None? then None
      else
        var (c, n) := one.value;
        var rest := Utf8Units(b[n..]);
        if rest.None? then None
        else
          UnitsOfIsText(c, rest.value);
          Some(UnitsOf(c) + rest.value)
  }

  lemma {:induction false} Utf8RoundTrip(s: Units)
    requires IsScalarText(s)
    ensures Utf8Units(Utf8Bytes(s)) == Some(s)
    decreases |s|
  {
    if s != [] {
      var (c, n) := FirstScalar(s);
      var rest := Utf8Bytes(s[n..]);
      DecodeOneInverts(c, rest);
      Utf8RoundTrip(s[n..]);
      assert (ScalarBytes(c) + rest)[|ScalarBytes(c)|..] == rest;
      assert s == UnitsOf(c) + s[n..];
    }
  }

  lemma {:induction false} OneScalarMore(c: Scalar, rest: Units)
    requires IsScalarText(rest)
    ensures IsScalarText(UnitsOf(c) + rest) && Utf8Bytes(UnitsOf(c) + rest) == ScalarBytes(c) + Utf8Bytes(rest)
  {
    UnitsOfIsText(c, rest);
    assert (UnitsOf(c) + rest)[|UnitsOf(c)|..] == rest;
  }

  lemma {:induction false} FrontAndRest(b: Bytes, n: nat)
    requires n <= |b|
    ensures b == b[..n] + b[n..]
  {}

  /** The decoder accepts nothing but what the encoder writes. */
  lemma {:induction false} Utf8IsCanonical(b: Bytes)
    requires Utf8Units(b).Some?
    ensures Utf8Bytes(Utf8Units(b).value) == b
    decreases |b|
  {
    if b != [] {
      var (c, n) := DecodeOne(b).value;
      Utf8IsCanonical(b[n..]);
      DecodeOneIsExact(b);
      OneScalarMore(c, Utf8Units(b[n..]).value);
      FrontAndRest(b, n);
    }
  }

  /** NUL is written as a zero byte, and nothing else is. */
  lemma {:induction false} ZeroBytesAreNul(s: Units)
    requires IsScalarText(s)
    ensures 0 in Utf8Bytes(s) <==> 0 in s
    decreases |s|
  {
    if s != [] {
      var (c, n) := FirstScalar(s);
      ZeroBytesAreNul(s[n..]);
      assert s == s[..n] + s[n..];
      assert 0 in ScalarBytes(c) <==> c == 0;
      assert 0 in UnitsOf(c) <==> c == 0;
    }
  }
}
