/**
 * The wire forms of scalar values, byte by byte: what can be encoded and to which bytes, and which
 * bytes are decoded and to which value.
 */
module WireForms {
  import opened Text
  import opened Scalars
  import opened Wrappers

  // ---------------------------------------------------------------- text

  /** Every high surrogate is followed by a low one, and every low one follows a high one. */
  ghost predicate IsWellFormed(s: Units) {
    forall i :: 0 <= i < |s| ==> Placed(s, i)
  }

  predicate Placed(s: Units, i: nat)
    requires i < |s|
  {
    && (0xD800 <= s[i] < 0xDC00 ==> i + 1 < |s| && 0xDC00 <= s[i + 1] < 0xE000)
    && (0xDC00 <= s[i] < 0xE000 ==> i > 0 && 0xD800 <= s[i - 1] < 0xDC00)
  }

  lemma {:induction false} TailPlaced(s: Units, n: nat, i: nat)
    requires n <= i < |s|
    ensures Placed(s, i) && !(i == n && 0xDC00 <= s[i] < 0xE000) ==> Placed(s[n..], i - n)
    ensures Placed(s[n..], i - n) && !(i == n && 0xDC00 <= s[i] < 0xE000) ==> Placed(s, i)
  {}

  lemma {:induction false} ScalarTextIsWellFormed(s: Units)
    ensures IsScalarText(s) <==> IsWellFormed(s)
    decreases |s|
  {
    if s != [] {
      var n := if IsHigh(s[0]) && |s| > 1 && IsLow(s[1]) then 2 else 1;
      ScalarTextIsWellFormed(s[n..]);
      if IsScalarText(s) {
        forall i | 0 <= i < |s| ensures Placed(s, i) {
          if i >= n {
            assert Placed(s[n..], i - n);
            TailPlaced(s, n, i);
          }
        }
      }
      if IsWellFormed(s) {
        assert Placed(s, 0) && (n < |s| ==> Placed(s, n));
        forall i | 0 <= i < |s[n..]| ensures Placed(s[n..], i) {
          TailPlaced(s, n, i + n);
        }
      }
    }
  }

  /** The number a byte stands for. */
  function At(b: Bytes, i: nat): int
    requires i < |b|
  {
    b[i]
  }

  /** Two bytes for each character, the low one first. */
  predicate Spells(b: Bytes, t: Units) {
    |b| == 2 * |t| && forall i :: 0 <= i < |t| ==> UnitAt(b, i) == t[i]
  }

  function UnitAt(b: Bytes, i: nat): int
    requires 2 * i + 1 < |b|
  {
    At(b, 2 * i) + 0x100 * At(b, 2 * i + 1)
  }

  lemma {:induction false} BytesSpell(s: Units)
    ensures Spells(Utf16Bytes(s), s)
  {
    if s != [] {
      BytesSpell(s[1..]);
      var b := Utf16Bytes(s);
      forall i | 0 <= i < |s| ensures UnitAt(b, i) == s[i] {
        if i > 0 {
          assert UnitAt(Utf16Bytes(s[1..]), i - 1) == s[1..][i - 1];
        }
      }
    }
  }

  lemma {:induction false} UnitsAreSpelled(b: Bytes)
    requires |b| % 2 == 0
    ensures Spells(b, Utf16Units(b))
  {
    BytesSpell(Utf16Units(b));
    Utf16RoundTripBytes(b);
  }

  lemma {:induction false} SpelledOnce(b: Bytes, s: Units, t: Units)
    requires Spells(b, s) && Spells(b, t)
    ensures s == t
  {}

  // ---------------------------------------------------------------- UTF-8

  /** The number of a character: one code unit, or a surrogate pair. */
  function CodePoint(units: Units): int
    requires 1 <= |units| <= 2
  {
    if |units| == 1 then Unit(units[0]) else 0x1_0000 + (Unit(units[0]) - 0xD800) * 0x400 + (Unit(units[1]) - 0xDC00)
  }

  function SizeOf(c: int): nat {
    if c < 0x80 then 1 else if c < 0x800 then 2 else if c < 0x1_0000 then 3 else 4
  }

  /** A lead byte that tells the size, then six bits in every byte, the highest first. */
  predicate IsForm(b: Bytes, c: int) {
    && |b| == SizeOf(c) && (forall i :: 1 <= i < |b| ==> 0x80 <= b[i] < 0xC0)
    && match |b|
       case 1 => c == At(b, 0)
       case 2 => 0xC0 <= At(b, 0) < 0xE0 && c == (At(b, 0) - 0xC0) * 0x40 + (At(b, 1) - 0x80)
       case 3 => 0xE0 <= At(b, 0) < 0xF0 && c == (At(b, 0) - 0xE0) * 0x1000 + (At(b, 1) - 0x80) * 0x40 + (At(b, 2) - 0x80)
       case _ => 0xF0 <= At(b, 0) && c == (At(b, 0) - 0xF0) * 0x4_0000 + (At(b, 1) - 0x80) * 0x1000 + (At(b, 2) - 0x80) * 0x40 + (At(b, 3) - 0x80)
  }

  /** The forms of the characters of the text, one after another. */
  predicate IsUtf8(b: Bytes, s: Units)
    decreases |s|
  {
    if s == [] then b == []
    else
      var n := if 0xD800 <= s[0] < 0xDC00 then 2 else 1;
      && n <= |s|
      && var m := SizeOf(CodePoint(s[..n]));
        m <= |b| && IsForm(b[..m], CodePoint(s[..n])) && IsUtf8(b[m..], s[n..])
  }

  lemma {:induction false} ScalarHasForm(c: Scalar)
    ensures IsForm(ScalarBytes(c), c)
  {
    var q := c / 0x40;
    assert c == q * 0x40 + c % 0x40;
    assert c / 0x1000 == q / 0x40 && q == q / 0x40 * 0x40 + q % 0x40;
    var h := q / 0x40;
    assert c / 0x4_0000 == h / 0x40 && h == h / 0x40 * 0x40 + h % 0x40;
  }

  lemma {:induction false} FormIsUnique(a: Bytes, b: Bytes, c: int)
    requires IsForm(a, c) && IsForm(b, c)
    ensures a == b
  {
    if |a| == 2 {
      assert a == [a[0], a[1]] && b == [b[0], b[1]];
    } else if |a| == 3 {
      assert a == [a[0], a[1], a[2]] && b == [b[0], b[1], b[2]];
    } else if |a| == 4 {
      assert a == [a[0], a[1], a[2], a[3]] && b == [b[0], b[1], b[2], b[3]];
    }
  }

  lemma {:induction false} FirstIsCodePoint(s: Units)
    requires IsScalarText(s) && s != []
    ensures var (c, n) := FirstScalar(s); n == (if 0xD800 <= s[0] < 0xDC00 then 2 else 1) && c == CodePoint(s[..n])
  {}

  lemma {:induction false} BytesAreUtf8(s: Units)
    requires IsScalarText(s)
    ensures IsUtf8(Utf8Bytes(s), s)
    decreases |s|
  {
    if s != [] {
      var (c, n) := FirstScalar(s);
      FirstIsCodePoint(s);
      ScalarHasForm(c);
      BytesAreUtf8(s[n..]);
      var rest := Utf8Bytes(s[n..]);
      assert (ScalarBytes(c) + rest)[..|ScalarBytes(c)|] == ScalarBytes(c) && (ScalarBytes(c) + rest)[|ScalarBytes(c)|..] == rest;
    }
  }

  lemma {:induction false} Utf8IsUnique(a: Bytes, b: Bytes, s: Units)
    requires IsUtf8(a, s) && IsUtf8(b, s)
    ensures a == b
    decreases |s|
  {
    if s != [] {
      var n := if 0xD800 <= s[0] < 0xDC00 then 2 else 1;
      var m := SizeOf(CodePoint(s[..n]));
      FormIsUnique(a[..m], b[..m], CodePoint(s[..n]));
      Utf8IsUnique(a[m..], b[m..], s[n..]);
      assert a == a[..m] + a[m..] && b == b[..m] + b[m..];
    }
  }

  /** The strict decoder accepts exactly the UTF-8 form of well-formed text. */
  lemma {:induction false} DecodedUtf8(b: Bytes, s: Units)
    ensures Utf8Units(b) == Some(s) <==> IsWellFormed(s) && IsUtf8(b, s)
  {
    ScalarTextIsWellFormed(s);
    if Utf8Units(b) == Some(s) {
      Utf8IsCanonical(b);
      BytesAreUtf8(s);
    }
    if IsScalarText(s) && IsUtf8(b, s) {
      BytesAreUtf8(s);
      Utf8IsUnique(b, Utf8Bytes(s), s);
      Utf8RoundTrip(s);
    }
  }

  // ---------------------------------------------------------------- integers

  /** The number the bytes stand for, the lowest first. */
  function Stands(b: Bytes): int
    requires |b| in {1, 2, 4, 8}
  {
    match |b|
    case 1 => At(b, 0)
    case 2 => At(b, 0) + 0x100 * At(b, 1)
    case 4 => At(b, 0) + 0x100 * At(b, 1) + 0x1_0000 * At(b, 2) + 0x100_0000 * At(b, 3)
    case _ =>
      At(b, 0) + 0x100 * At(b, 1) + 0x1_0000 * At(b, 2) + 0x100_0000 * At(b, 3)
      + 0x1_0000_0000 * (At(b, 4) + 0x100 * At(b, 5) + 0x1_0000 * At(b, 6) + 0x100_0000 * At(b, 7))
  }

  lemma {:induction false} TwoStand(b: Bytes)
    requires |b| == 2
    ensures Unsigned(b) == At(b, 0) + 0x100 * At(b, 1)
  {
    assert Unsigned(b[1..]) == At(b, 1) + 0x100 * Unsigned(b[1..][1..]);
  }

  lemma {:induction false} FourStand(b: Bytes)
    requires |b| == 4
    ensures Unsigned(b) == At(b, 0) + 0x100 * At(b, 1) + 0x1_0000 * At(b, 2) + 0x100_0000 * At(b, 3)
  {
    TwoStand(b[2..]);
    assert b[1..][1..] == b[2..];
    assert Unsigned(b[1..]) == At(b, 1) + 0x100 * Unsigned(b[2..]);
  }

  lemma {:induction false} EightStand(b: Bytes)
    requires |b| == 8
    ensures Unsigned(b) == Stands(b)
  {
    FourStand(b[4..]);
    assert b[1..][1..] == b[2..] && b[2..][1..] == b[3..] && b[3..][1..] == b[4..];
    assert Unsigned(b[3..]) == At(b, 3) + 0x100 * Unsigned(b[4..]);
    assert Unsigned(b[2..]) == At(b, 2) + 0x100 * Unsigned(b[3..]);
    assert Unsigned(b[1..]) == At(b, 1) + 0x100 * Unsigned(b[2..]);
  }

  lemma {:induction false} UnsignedStands(b: Bytes)
    requires |b| in {1, 2, 4, 8}
    ensures Unsigned(b) == Stands(b)
  {
    match |b|
    case 1 => assert Unsigned(b[1..]) == 0;
    case 2 => TwoStand(b);
    case 4 => FourStand(b);
    case _ => EightStand(b);
  }

  function Width(k: Kind): nat {
    if k.Int1? then 1 else if k.Int2? then 2 else if k.Int4? then 4 else 8
  }

  /** How many numbers so many bytes can tell apart. */
  function Range(width: nat): int {
    match width
    case 1 => 0x100
    case 2 => 0x1_0000
    case 4 => 0x1_0000_0000
    case _ => 0x1_0000_0000_0000_0000
  }

  /** One byte is unsigned; more are in two's complement. */
  predicate InRange(k: Kind, n: int) {
    && (if k.Int1? then 0 <= n < 0x100 else -Range(Width(k)) <= 2 * n < Range(Width(k)))
    && (k.Int8? && k.safeNumber ==> -0x1F_FFFF_FFFF_FFFF <= n <= 0x1F_FFFF_FFFF_FFFF)
  }

  predicate IsInteger(k: Kind, n: int, b: Bytes) {
    |b| == Width(k) && Stands(b) == if n < 0 then n + Range(Width(k)) else n
  }

  lemma {:induction false} EncodedInteger(k: Kind, n: int)
    requires IntegerKind(k)
    ensures EncodeInteger(k, n).Ok? <==> InRange(k, n)
    ensures InRange(k, n) ==> IsInteger(k, n, EncodeInteger(k, n).value)
  {
    Powers();
    if InRange(k, n) {
      LittleEndianRoundTrip(if n < 0 then n + Range(Width(k)) else n, Width(k));
      UnsignedStands(EncodeInteger(k, n).value);
    }
  }

  lemma {:induction false} DecodedInteger(k: Kind, b: Bytes, n: int)
    requires IntegerKind(k)
    ensures DecodeInteger(k, b) == Ok(IntegerValue(n)) <==> InRange(k, n) && IsInteger(k, n, b)
  {
    Powers();
    if |b| == Width(k) {
      UnsignedStands(b);
    }
  }

  // ---------------------------------------------------------------- whole values

  predicate Digits(s: Units) {
    forall i :: 0 <= i < |s| ==> 0x30 <= s[i] <= 0x39
  }

  predicate Blank(s: Units) {
    forall i :: 0 <= i < |s| ==> s[i] == 0x20
  }

  /** The characters of a date or a time. */
  function Places(k: Kind): nat {
    if k.Date? then 8 else 6
  }

  /** A date or time of the full length, in digits, or blank throughout. */
  predicate IsCalendar(k: Kind, s: Units) {
    |s| == Places(k) && (Digits(s) || Blank(s))
  }

  /** What a caller may send. */
  ghost predicate Encodable(k: Kind, v: Value) {
    match v
    case TextValue(s) =>
      (match k
       case Char(width) => width <= 0x7FFF && IsWellFormed(s) && |s| <= width
       case Numc(width) => width <= 0x7FFF && Digits(s) && |s| <= width
       case Date | Time => s == [] || IsCalendar(k, s)
       case AbapString => IsWellFormed(s) && 0 !in s
       case _ => false)
    case IntegerValue(n) => (k.Int1? || k.Int2? || k.Int4? || k.Int8?) && InRange(k, n)
    case BytesValue(b) => k.XString? || (k.Raw? && |b| <= k.width)
  }

  /** Text at the left, then spaces. */
  predicate LeftAligned(b: Bytes, s: Units, width: nat) {
    |b| == 2 * width && forall i :: 0 <= i < width ==> UnitAt(b, i) == if i < |s| then s[i] else 0x20
  }

  /** Zeros, then digits at the right. */
  predicate RightAligned(b: Bytes, s: Units, width: nat) {
    |b| == 2 * width && |s| <= width &&
    forall i :: 0 <= i < width ==> UnitAt(b, i) == if i < width - |s| then 0x30 else s[i - (width - |s|)]
  }

  /** The bytes a value is sent as. */
  predicate IsWire(k: Kind, v: Value, b: Bytes) {
    match v
    case TextValue(s) =>
      (match k
       case Char(width) => LeftAligned(b, s, width)
       case Numc(width) => RightAligned(b, s, width)
       case Date | Time => LeftAligned(b, s, Places(k))
       case _ => b != [] && b[|b| - 1] == 0 && IsUtf8(b[..|b| - 1], s))
    case IntegerValue(n) => IsInteger(k, n, b)
    case BytesValue(bytes) =>
      if k.XString? then b == bytes
      else k.Raw? && |b| == k.width && forall i :: 0 <= i < |b| ==> b[i] == if i < |bytes| then bytes[i] else 0
  }

  lemma {:induction false} DigitsAre(s: Units)
    ensures AllDigits(s) <==> Digits(s)
    ensures AllSpaces(s) <==> Blank(s)
    ensures Digits(s) || Blank(s) ==> IsScalarText(s)
  {
    assert forall i :: 0 <= i < |s| ==> s[i] in s;
    if Digits(s) || Blank(s) {
      PlainIsText(s);
    }
  }

  lemma {:induction false} CharWire(s: Units, width: nat)
    ensures EncodeAbapChar(s, width).Ok? <==> width <= 0x7FFF && IsWellFormed(s) && |s| <= width
    ensures EncodeAbapChar(s, width).Ok? ==> LeftAligned(EncodeAbapChar(s, width).value, s, width)
  {
    ScalarTextIsWellFormed(s);
    if |s| <= width {
      BytesSpell(s + Repeat(SPACE, width - |s|));
    }
  }

  lemma {:induction false} NumcWire(s: Units, width: nat)
    ensures var r := EncodeText(Numc(width), s);
            && (r.Ok? <==> width <= 0x7FFF && Digits(s) && |s| <= width)
            && (r.Ok? ==> RightAligned(r.value, s, width))
  {
    DigitsAre(s);
    if Digits(s) && |s| <= width {
      var padded := Repeat(0x30, width - |s|) + s;
      CharWire(padded, width);
      DigitsAre(padded);
      ScalarTextIsWellFormed(padded);
    }
  }

  lemma {:induction false} CalendarWire(k: Kind, s: Units)
    requires k.Date? || k.Time?
    ensures var r := EncodeText(k, s);
            && (r.Ok? <==> s == [] || IsCalendar(k, s))
            && (r.Ok? ==> LeftAligned(r.value, s, Places(k)))
  {
    DigitsAre(s);
    var spaces := Repeat(SPACE, Places(k));
    DigitsAre(spaces);
    CharWire(if s == [] then spaces else s, Places(k));
    ScalarTextIsWellFormed(if s == [] then spaces else s);
  }

  lemma {:induction false} StringWire(s: Units)
    ensures var r := EncodeText(AbapString, s);
            && (r.Ok? <==> IsWellFormed(s) && 0 !in s)
            && (r.Ok? ==> IsWire(AbapString, TextValue(s), r.value))
  {
    ScalarTextIsWellFormed(s);
    if IsScalarText(s) {
      BytesAreUtf8(s);
      assert (Utf8Bytes(s) + [0])[..|Utf8Bytes(s)|] == Utf8Bytes(s);
    }
  }

  /** A value is encoded exactly when it may be sent, and to the bytes described. */
  lemma {:induction false} EncodedIff(k: Kind, v: Value)
    ensures EncodeScalar(k, v).Ok? <==> Encodable(k, v)
    ensures Encodable(k, v) ==> IsWire(k, v, EncodeScalar(k, v).value)
  {
    match v
    case TextValue(s) =>
      match k {
        case Char(width) => CharWire(s, width);
        case Numc(width) => NumcWire(s, width);
        case Date | Time => CalendarWire(k, s);
        case AbapString => StringWire(s);
        case _ =>
      }
    case IntegerValue(n) =>
      if IntegerKind(k) {
        EncodedInteger(k, n);
      }
    case BytesValue(_) =>
  }

  // ---------------------------------------------------------------- decoding

  /** All but the spaces at the end. */
  predicate IsStripped(s: Units, units: Units) {
    s <= units && (s == [] || s[|s| - 1] != 0x20) && forall i :: |s| <= i < |units| ==> units[i] == 0x20
  }

  /** The value that bytes are decoded to. */
  ghost predicate IsDecoded(k: Kind, b: Bytes, v: Value) {
    match k
    case Char(width) => width <= 0x7FFF && v.TextValue? && exists units :: |units| == width && IsCharacters(b, units) && IsStripped(v.text, units)
    case Numc(width) => width <= 0x7FFF && v.TextValue? && exists units :: |units| == width && IsCharacters(b, units) && IsStripped(v.text, units)
    case Date | Time =>
      v.TextValue? && exists units :: Spells(b, units) && IsCalendar(k, units) && v.text == if Blank(units) then [] else units
    case AbapString =>
      && b != [] && b[|b| - 1] == 0 && 0 !in b[..|b| - 1] && v.TextValue?
      && exists s :: IsWellFormed(s) && IsUtf8(b[..|b| - 1], s) && v.text == if s != [] && s[0] == 0xFEFF then s[1..] else s
    case Raw(width) => |b| == width && v == BytesValue(b)
    case XString => v == BytesValue(b)
    case _ => v.IntegerValue? && InRange(k, v.number) && IsInteger(k, v.number, b)
  }

  ghost predicate IsCharacters(b: Bytes, units: Units) {
    Spells(b, units) && IsWellFormed(units)
  }

  lemma {:induction false} StrippedOnce(units: Units, s: Units)
    ensures IsStripped(s, units) <==> s == StripSpaces(units)
  {
    StrippedPrefix(units);
    var r := StripSpaces(units);
    if IsStripped(s, units) {
      assert s == units[..|s|] && r == units[..|r|];
      assert r != [] ==> r[|r| - 1] == units[|r| - 1];
      assert s != [] ==> s[|s| - 1] == units[|s| - 1];
    }
  }

  lemma {:induction false} DecodedText(b: Bytes, width: nat, units: Units)
    ensures DecodeAbapText(b, Some(width)) == Ok(units) <==> width <= 0x7FFF && |units| == width && IsCharacters(b, units)
  {
    if |b| % 2 == 0 {
      UnitsAreSpelled(b);
      ScalarTextIsWellFormed(Utf16Units(b));
      if Spells(b, units) {
        SpelledOnce(b, units, Utf16Units(b));
      }
    }
  }

  lemma {:induction false} DecodedChar(b: Bytes, width: nat, s: Units)
    ensures DecodeAbapChar(b, Some(width)) == Ok(s) <==>
            width <= 0x7FFF && exists units :: |units| == width && IsCharacters(b, units) && IsStripped(s, units)
  {
    var text := DecodeAbapText(b, Some(width));
    if text.Ok? {
      DecodedText(b, width, text.value);
      StrippedOnce(text.value, s);
    }
    if width <= 0x7FFF && exists units :: |units| == width && IsCharacters(b, units) && IsStripped(s, units) {
      var units :| |units| == width && IsCharacters(b, units) && IsStripped(s, units);
      DecodedText(b, width, units);
      StrippedOnce(units, s);
    }
  }

  lemma {:induction false} DecodedCalendar(k: Kind, b: Bytes, v: Value)
    requires k.Date? || k.Time?
    ensures DecodeScalar(k, b) == Ok(v) <==> IsDecoded(k, b, v)
  {
    var text := DecodeAbapText(b, Some(Places(k)));
    if text.Ok? {
      DecodedText(b, Places(k), text.value);
      DigitsAre(text.value);
    }
    forall units | Spells(b, units) && IsCalendar(k, units) ensures text == Ok(units) {
      DigitsAre(units);
      ScalarTextIsWellFormed(units);
      DecodedText(b, Places(k), units);
    }
  }

  lemma {:induction false} DecodedString(b: Bytes, v: Value)
    ensures DecodeScalar(AbapString, b) == Ok(v) <==> IsDecoded(AbapString, b, v)
  {
    if b != [] {
      var front := b[..|b| - 1];
      forall s ensures Utf8Units(front) == Some(s) <==> IsWellFormed(s) && IsUtf8(front, s) {
        DecodedUtf8(front, s);
      }
    }
  }

  /** Bytes are decoded exactly to the value they stand for, and refused if they stand for none. */
  lemma {:induction false} DecodedIff(k: Kind, b: Bytes, v: Value)
    ensures DecodeScalar(k, b) == Ok(v) <==> IsDecoded(k, b, v)
  {
    match k
    case Char(width) =>
      if v.TextValue? {
        DecodedChar(b, width, v.text);
      }
    case Numc(width) =>
      if v.TextValue? {
        DecodedChar(b, width, v.text);
      }
    case Date | Time => DecodedCalendar(k, b, v);
    case AbapString => DecodedString(b, v);
    case Raw(_) | XString =>
    case _ =>
      if v.IntegerValue? {
        DecodedInteger(k, b, v.number);
      }
  }
}
