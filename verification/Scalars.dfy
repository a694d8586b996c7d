/** The scalar wire values of classic RFC calls: encoding, decoding, and what survives the trip. */
module Scalars {
  import opened Text
  import opened Wrappers

  /** The scalar types, with the width the metadata declares where it matters. */
  datatype Kind =
    | Char(width: nat) | Numc(width: nat) | Date | Time | Raw(width: nat)
    | Int1 | Int2 | Int4 | Int8(safeNumber: bool) | AbapString | XString

  datatype Value = TextValue(text: Units) | IntegerValue(number: int) | BytesValue(bytes: Bytes)

  datatype Error =
    WrongType | TooLong | IsolatedSurrogate | WidthLimit | OddLength | WrongWidth | NotDigits | OutOfRange | UnsafeInteger
    | ContainsNul | NoTerminator | MalformedUtf8 | NotACalendarText

  const MAX_CHARACTERS := 0x7FFF
  const MAX_SAFE_INTEGER := 0x1F_FFFF_FFFF_FFFF

  // ---------------------------------------------------------------- fixed-width text

  function Repeat<T>(x: T, n: nat): (r: seq<T>)
    ensures |r| == n && forall i :: 0 <= i < n ==> r[i] == x
  {
    seq(n, _ => x)
  }

  function StripSpaces(s: Units): Units {
    if s != [] && s[|s| - 1] == SPACE then StripSpaces(s[..|s| - 1]) else s
  }

  /** What is left is the longest prefix that does not end in a space. */
  lemma {:induction false} StrippedPrefix(s: Units)
    ensures var r := StripSpaces(s); r <= s && (r == [] || r[|r| - 1] != SPACE) && forall i :: |r| <= i < |s| ==> s[i] == SPACE
  {
    if s != [] && s[|s| - 1] == SPACE {
      StrippedPrefix(s[..|s| - 1]);
    }
  }

  /** Fixed-width text: exactly so many characters, filled up with spaces. */
  function EncodeAbapChar(s: Units, characters: nat): Result<Bytes, Error> {
    if characters > MAX_CHARACTERS then Err(WidthLimit)
    else if !IsScalarText(s) then Err(IsolatedSurrogate)
    else if |s| > characters then Err(TooLong)
    else Ok(Utf16Bytes(s + Repeat(SPACE, characters - |s|)))
  }

  /** Text whose spaces count. */
  function DecodeAbapText(b: Bytes, expected: Option<nat>): Result<Units, Error> {
    if |b| % 2 != 0 then Err(OddLength)
    else if expected.Some? && expected.value > MAX_CHARACTERS then Err(WidthLimit)
    else if expected.Some? && |b| != 2 * expected.value then Err(WrongWidth)
    else if !IsScalarText(Utf16Units(b)) then Err(IsolatedSurrogate)
    else Ok(Utf16Units(b))
  }

  function DecodeAbapChar(b: Bytes, expected: Option<nat>): Result<Units, Error> {
    match DecodeAbapText(b, expected)
    case Err(e) => Err(e)
    case Ok(s) => Ok(StripSpaces(s))
  }

  predicate AllDigits(s: Units) {
    forall c :: c in s ==> 0x30 <= c <= 0x39
  }

  predicate AllSpaces(s: Units) {
    forall c :: c in s ==> c == SPACE
  }

  /** A date or time: digits throughout, spaces throughout, or (from a caller) nothing. */
  predicate CalendarText(s: Units, width: nat) {
    |s| == width && (AllDigits(s) || AllSpaces(s))
  }

  function CalendarWidth(k: Kind): nat {
    if k == Date then 8 else 6
  }

  // ---------------------------------------------------------------- two's complement

  function Power(width: nat): (r: int)
    ensures r >= 1
  {
    if width == 0 then 1 else 0x100 * Power(width - 1)
  }

  function LittleEndian(n: nat, width: nat): (r: Bytes)
    ensures |r| == width
  {
    if width == 0 then []
    else
      var low: Byte := n % 0x100;
      [low] + LittleEndian(n / 0x100, width - 1)
  }

  function Unsigned(b: Bytes): (r: int)
    ensures 0 <= r < Power(|b|)
  {
    if b == [] then 0 else Number(b[0]) + 0x100 * Unsigned(b[1..])
  }

  lemma {:induction false} LittleEndianRoundTrip(n: nat, width: nat)
    requires n < Power(width)
    ensures Unsigned(LittleEndian(n, width)) == n
  {
    if width > 0 {
      LittleEndianRoundTrip(n / 0x100, width - 1);
      assert LittleEndian(n, width)[1..] == LittleEndian(n / 0x100, width - 1);
    }
  }

  lemma {:induction false} LittleEndianOfUnsigned(b: Bytes)
    ensures LittleEndian(Unsigned(b), |b|) == b
  {
    if b != [] {
      LittleEndianOfUnsigned(b[1..]);
      var low, high := Number(b[0]), Unsigned(b[1..]);
      assert (low + 0x100 * high) / 0x100 == high && (low + 0x100 * high) % 0x100 == low;
      assert b == [b[0]] + b[1..];
    }
  }

  /** The signed number in so many bytes: the upper half of the range stands for the negatives. */
  function Signed(b: Bytes): int {
    var n := Unsigned(b);
    if 2 * n < Power(|b|) then n else n - Power(|b|)
  }

  function SignedBytes(n: int, width: nat): (r: Bytes)
    requires -Power(width) <= n
    ensures |r| == width
  {
    LittleEndian(if n < 0 then n + Power(width) else n, width)
  }

  lemma {:induction false} SignedRoundTrip(n: int, width: nat)
    requires -Power(width) <= 2 * n < Power(width)
    ensures Signed(SignedBytes(n, width)) == n
  {
    LittleEndianRoundTrip(if n < 0 then n + Power(width) else n, width);
  }

  lemma {:induction false} SignedBytesOfSigned(b: Bytes)
    ensures -Power(|b|) <= 2 * Signed(b) < Power(|b|) || |b| == 0
    ensures -Power(|b|) <= Signed(b) && SignedBytes(Signed(b), |b|) == b
  {
    LittleEndianOfUnsigned(b);
  }

  lemma {:induction false} Powers()
    ensures Power(1) == 0x100 && Power(2) == 0x1_0000 && Power(4) == 0x1_0000_0000 && Power(8) == 0x1_0000_0000_0000_0000
  {
    assert Power(3) == 0x100_0000 && Power(5) == 0x100_0000_0000 && Power(6) == 0x1_0000_0000_0000 && Power(7) == 0x100_0000_0000_0000;
  }

  function IntegerWidth(k: Kind): nat {
    match k
    case Int1 => 1
    case Int2 => 2
    case Int4 => 4
    case _ => 8
  }

  predicate IntegerKind(k: Kind) {
    k.Int1? || k.Int2? || k.Int4? || k.Int8?
  }

  predicate IntegerFits(k: Kind, n: int) {
    match k
    case Int1 => 0 <= n <= 0xFF
    case Int2 => -0x8000 <= n <= 0x7FFF
    case Int4 => -0x8000_0000 <= n <= 0x7FFF_FFFF
    case _ => -0x8000_0000_0000_0000 <= n <= 0x7FFF_FFFF_FFFF_FFFF
  }

  predicate Safe(n: int) {
    -MAX_SAFE_INTEGER <= n <= MAX_SAFE_INTEGER
  }

  // ---------------------------------------------------------------- encoding and decoding

  function EncodeInteger(k: Kind, n: int): (r: Result<Bytes, Error>)
    ensures r.Ok? ==> |r.value| == IntegerWidth(k)
  {
    Powers();
    if k.Int8? && k.safeNumber && !Safe(n) then Err(UnsafeInteger)
    else if !IntegerFits(k, n) then Err(OutOfRange)
    else if k.Int1? then Ok(LittleEndian(n, 1))
    else Ok(SignedBytes(n, IntegerWidth(k)))
  }

  function DecodeInteger(k: Kind, b: Bytes): Result<Value, Error> {
    if |b| != IntegerWidth(k) then Err(WrongWidth)
    else if k.Int1? then Ok(IntegerValue(Unsigned(b)))
    else if k.Int8? && k.safeNumber && !Safe(Signed(b)) then Err(UnsafeInteger)
    else Ok(IntegerValue(Signed(b)))
  }

  function EncodeText(k: Kind, s: Units): Result<Bytes, Error> {
    match k
    case Char(width) => EncodeAbapChar(s, width)
    case Numc(width) =>
      if !AllDigits(s) || |s| > width then Err(NotDigits) else EncodeAbapChar(Repeat(0x30, width - |s|) + s, width)
    case Date | Time =>
      var width := CalendarWidth(k);
      if s != [] && !CalendarText(s, width) then Err(NotACalendarText)
      else EncodeAbapChar(if s == [] then Repeat(SPACE, width) else s, width)
    case AbapString =>
      if !IsScalarText(s) then Err(IsolatedSurrogate)
      else if 0 in s then Err(ContainsNul)
      else Ok(Utf8Bytes(s) + [0])
    case _ => Err(WrongType)
  }

  function EncodeScalar(k: Kind, v: Value): Result<Bytes, Error> {
    match v
    case TextValue(s) => EncodeText(k, s)
    case IntegerValue(n) => if IntegerKind(k) then EncodeInteger(k, n) else Err(WrongType)
    case BytesValue(b) =>
      if k.XString? then Ok(b)
      else if !k.Raw? then Err(WrongType)
      else if |b| > k.width then Err(TooLong)
      else Ok(b + Repeat(0, k.width - |b|))
  }

  /** A leading byte order mark is taken for one and dropped. */
  function DecodeString(b: Bytes): Result<Units, Error> {
    if b == [] || b[|b| - 1] != 0 || 0 in b[..|b| - 1] then Err(NoTerminator)
    else
      match Utf8Units(b[..|b| - 1])
      case None => Err(MalformedUtf8)
      case Some(s) => Ok(WithoutMark(s))
  }

  function WithoutMark(s: Units): Units {
    if s != [] && s[0] == BYTE_ORDER_MARK then s[1..] else s
  }

  function AsText(r: Result<Units, Error>): Result<Value, Error> {
    match r
    case Ok(s) => Ok(TextValue(s))
    case Err(e) => Err(e)
  }

  function DecodeScalar(k: Kind, b: Bytes): Result<Value, Error> {
    match k
    case Char(width) => AsText(DecodeAbapChar(b, Some(width)))
    case Numc(width) => AsText(DecodeAbapChar(b, Some(width)))
    case Date | Time =>
      var text := DecodeAbapText(b, Some(CalendarWidth(k)));
      if text.Err? then Err(text.error)
      else if !CalendarText(text.value, CalendarWidth(k)) then Err(NotACalendarText)
      else Ok(TextValue(if AllSpaces(text.value) then [] else text.value))
    case Raw(width) => if |b| != width then Err(WrongWidth) else Ok(BytesValue(b))
    case AbapString => AsText(DecodeString(b))
    case XString => Ok(BytesValue(b))
    case _ => DecodeInteger(k, b)
  }

  /** The byte length the request size is computed from, without encoding. */
  function EncodedLength(k: Kind, v: Value): Result<nat, Error> {
    match v
    case TextValue(s) =>
      (match k
       case Char(width) =>
         if !IsScalarText(s) then Err(IsolatedSurrogate) else if |s| > width then Err(TooLong) else Ok(2 * width)
       case Numc(width) => if !AllDigits(s) || |s| > width then Err(NotDigits) else Ok(2 * width)
       case Date | Time =>
         if s != [] && !CalendarText(s, CalendarWidth(k)) then Err(NotACalendarText) else Ok(2 * CalendarWidth(k))
       case AbapString =>
         if !IsScalarText(s) then Err(IsolatedSurrogate)
         else if 0 in s then Err(ContainsNul)
         else Ok(Utf8Length(s) + 1)
       case _ => Err(WrongType))
    case IntegerValue(n) =>
      if !IntegerKind(k) then Err(WrongType)
      else if k.Int8? && k.safeNumber && !Safe(n) then Err(UnsafeInteger)
      else if !IntegerFits(k, n) then Err(OutOfRange)
      else Ok(IntegerWidth(k))
    case BytesValue(b) =>
      if k.XString? then Ok(|b|)
      else if !k.Raw? then Err(WrongType)
      else if |b| > k.width then Err(TooLong)
      else Ok(k.width)
  }

  /** The number of UTF-8 bytes, counted without producing them. */
  function Utf8Length(s: Units): nat
    decreases |s|
  {
    if s == [] then 0
    else if s[0] < 0x80 then 1 + Utf8Length(s[1..])
    else if s[0] < 0x800 then 2 + Utf8Length(s[1..])
    else if IsHigh(s[0]) && |s| > 1 then 4 + Utf8Length(s[2..])
    else 3 + Utf8Length(s[1..])
  }

  // ---------------------------------------------------------------- scalar text is kept by padding

  lemma {:induction false} TextConcatenates(s: Units, t: Units)
    requires IsScalarText(s) && IsScalarText(t)
    ensures IsScalarText(s + t)
    decreases |s|
  {
    if s == [] {
      assert s + t == t;
    } else {
      var n := FirstScalar(s).1;
      TextConcatenates(s[n..], t);
      assert (s + t)[n..] == s[n..] + t;
    }
  }

  /** Characters below the surrogates never break text. */
  lemma {:induction false} PlainIsText(s: Units)
    requires forall c :: c in s ==> c < 0xD800
    ensures IsScalarText(s)
    decreases |s|
  {
    if s != [] {
      assert s[0] in s;
      forall c | c in s[1..] ensures c < 0xD800 {
        assert c in s;
      }
      PlainIsText(s[1..]);
    }
  }

  /** Dropping trailing spaces leaves text. */
  lemma {:induction false} PrefixBeforePlainIsText(s: Units, n: nat)
    requires IsScalarText(s) && n <= |s| && forall i :: n <= i < |s| ==> s[i] < 0xD800
    ensures IsScalarText(s[..n])
    decreases |s|
  {
    if n > 0 {
      var step := FirstScalar(s).1;
      if step <= n {
        assert forall i :: n - step <= i < |s| - step ==> s[step..][i] == s[i + step];
        PrefixBeforePlainIsText(s[step..], n - step);
        assert s[..n][step..] == s[step..][..n - step];
      }
    }
  }

  lemma {:induction false} StripUndoesPadding(s: Units, n: nat)
    ensures StripSpaces(s + Repeat(SPACE, n)) == StripSpaces(s)
  {
    var padded := s + Repeat(SPACE, n);
    if n > 0 {
      assert padded[..|padded| - 1] == s + Repeat(SPACE, n - 1);
      StripUndoesPadding(s, n - 1);
    } else {
      assert padded == s;
    }
  }

  /** Nothing to strip when the last character is not a space. */
  lemma {:induction false} NothingStripped(s: Units)
    requires s == [] || s[|s| - 1] != SPACE
    ensures StripSpaces(s) == s
  {}

  // ---------------------------------------------------------------- the laws

  /** What comes back for a value that was sent. */
  function Canonical(k: Kind, v: Value): Value {
    match v
    case TextValue(s) =>
      (match k
       case Char(_) => TextValue(StripSpaces(s))
       case Numc(width) => if |s| <= width then TextValue(Repeat(0x30, width - |s|) + s) else v
       case Date | Time => if AllSpaces(s) then TextValue([]) else v
       case AbapString => TextValue(WithoutMark(s))
       case _ => v)
    case IntegerValue(_) => v
    case BytesValue(b) => if k.Raw? && |b| <= k.width then BytesValue(b + Repeat(0, k.width - |b|)) else v
  }

  lemma {:induction false} AbapCharRoundTrip(s: Units, characters: nat)
    requires EncodeAbapChar(s, characters).Ok?
    ensures DecodeAbapText(EncodeAbapChar(s, characters).value, Some(characters)) == Ok(s + Repeat(SPACE, characters - |s|))
    ensures DecodeAbapChar(EncodeAbapChar(s, characters).value, Some(characters)) == Ok(StripSpaces(s))
  {
    var padding := Repeat(SPACE, characters - |s|);
    PlainIsText(padding);
    TextConcatenates(s, padding);
    Utf16RoundTrip(s + padding);
    StripUndoesPadding(s, characters - |s|);
  }

  lemma {:induction false} NumcRoundTrip(s: Units, width: nat)
    requires EncodeScalar(Numc(width), TextValue(s)).Ok?
    ensures DecodeScalar(Numc(width), EncodeScalar(Numc(width), TextValue(s)).value) == Ok(TextValue(Repeat(0x30, width - |s|) + s))
  {
    var padded := Repeat(0x30, width - |s|) + s;
    AbapCharRoundTrip(padded, width);
    if padded != [] {
      var last := padded[|padded| - 1];
      assert last == 0x30 || last in s;
    }
    NothingStripped(padded);
  }

  lemma {:induction false} CalendarRoundTrip(k: Kind, s: Units)
    requires (k == Date || k == Time) && EncodeScalar(k, TextValue(s)).Ok?
    ensures DecodeScalar(k, EncodeScalar(k, TextValue(s)).value) == Ok(Canonical(k, TextValue(s)))
  {
    var width := CalendarWidth(k);
    var wire := if s == [] then Repeat(SPACE, width) else s;
    AbapCharRoundTrip(wire, width);
    assert wire + Repeat(SPACE, 0) == wire;
  }

  lemma {:induction false} StringRoundTrip(s: Units)
    requires EncodeScalar(AbapString, TextValue(s)).Ok?
    ensures DecodeScalar(AbapString, EncodeScalar(AbapString, TextValue(s)).value) == Ok(TextValue(WithoutMark(s)))
  {
    var wire := Utf8Bytes(s) + [0];
    assert wire[..|wire| - 1] == Utf8Bytes(s);
    ZeroBytesAreNul(s);
    Utf8RoundTrip(s);
  }

  lemma {:induction false} IntegerRoundTrip(k: Kind, n: int)
    requires IntegerKind(k) && EncodeInteger(k, n).Ok?
    ensures DecodeInteger(k, EncodeInteger(k, n).value) == Ok(IntegerValue(n))
  {
    Powers();
    if k.Int1? {
      LittleEndianRoundTrip(n, 1);
    } else {
      SignedRoundTrip(n, IntegerWidth(k));
    }
  }

  /** Whatever can be encoded decodes to its canonical form. */
  lemma {:induction false} RoundTrip(k: Kind, v: Value)
    requires EncodeScalar(k, v).Ok?
    ensures DecodeScalar(k, EncodeScalar(k, v).value) == Ok(Canonical(k, v))
  {
    match v
    case TextValue(s) =>
      match k {
        case Char(width) => AbapCharRoundTrip(s, width);
        case Numc(width) => NumcRoundTrip(s, width);
        case Date | Time => CalendarRoundTrip(k, s);
        case AbapString => StringRoundTrip(s);
        case _ =>
      }
    case IntegerValue(n) => IntegerRoundTrip(k, n);
    case BytesValue(_) =>
  }

  /** A STRING survives unchanged exactly when it does not start with U+FEFF. */
  lemma {:induction false} StringSurvivesIff(s: Units)
    requires EncodeScalar(AbapString, TextValue(s)).Ok?
    ensures DecodeScalar(AbapString, EncodeScalar(AbapString, TextValue(s)).value) == Ok(TextValue(s)) <==>
            !(s != [] && s[0] == BYTE_ORDER_MARK)
  {
    StringRoundTrip(s);
    if s != [] && s[0] == BYTE_ORDER_MARK {
      assert |WithoutMark(s)| != |s|;
    }
  }

  /** The shortest text that does not survive. */
  lemma {:induction false} MarkIsLost()
    ensures EncodeScalar(AbapString, TextValue([BYTE_ORDER_MARK])).Ok?
    ensures DecodeScalar(AbapString, EncodeScalar(AbapString, TextValue([BYTE_ORDER_MARK])).value) == Ok(TextValue([]))
  {
    var s := [BYTE_ORDER_MARK];
    assert s[1..] == [];
    assert IsScalarText(s);
    StringRoundTrip(s);
  }

  /** The wire bytes of a decoded value can be rebuilt, save for the cases named here. */
  predicate Rebuildable(k: Kind, b: Bytes) {
    match k
    case Numc(width) => |b| % 2 == 0 && AllDigits(Utf16Units(b))
    case AbapString => b != [] && !(Utf8Units(b[..|b| - 1]).Some? && Utf8Units(b[..|b| - 1]).value != [] && Utf8Units(b[..|b| - 1]).value[0] == BYTE_ORDER_MARK)
    case _ => true
  }

  lemma {:induction false} CharRebuilds(b: Bytes, width: nat)
    requires DecodeAbapChar(b, Some(width)).Ok?
    ensures EncodeAbapChar(DecodeAbapChar(b, Some(width)).value, width) == Ok(b)
  {
    var units := Utf16Units(b);
    var s := StripSpaces(units);
    StrippedPrefix(units);
    Utf16RoundTripBytes(b);
    PrefixBeforePlainIsText(units, |s|);
    assert units[..|s|] == s;
    assert s + Repeat(SPACE, width - |s|) == units;
  }

  lemma {:induction false} DigitsRebuild(b: Bytes, width: nat)
    requires DecodeScalar(Numc(width), b).Ok? && AllDigits(Utf16Units(b))
    ensures EncodeScalar(Numc(width), DecodeScalar(Numc(width), b).value) == Ok(b)
  {
    var units := Utf16Units(b);
    Utf16RoundTripBytes(b);
    if units != [] {
      assert units[|units| - 1] in units;
    }
    NothingStripped(units);
    assert Repeat(0x30, 0) + units == units && units + Repeat(SPACE, 0) == units;
  }

  lemma {:induction false} FullWidthIsUnstripped(s: Units)
    ensures |StripSpaces(s)| <= |s| && (|StripSpaces(s)| == |s| ==> StripSpaces(s) == s)
  {
    StrippedPrefix(s);
  }

  lemma {:induction false} OtherTextDoesNotRebuild(b: Bytes, width: nat)
    requires DecodeScalar(Numc(width), b).Ok? && !AllDigits(Utf16Units(b))
    ensures EncodeScalar(Numc(width), DecodeScalar(Numc(width), b).value) != Ok(b)
  {
    var units := Utf16Units(b);
    var s := StripSpaces(units);
    if EncodeScalar(Numc(width), TextValue(s)) == Ok(b) {
      NumcRoundTrip(s, width);
      FullWidthIsUnstripped(units);
    }
  }

  lemma {:induction false} StringRebuilds(b: Bytes)
    requires DecodeString(b).Ok? && Rebuildable(AbapString, b)
    ensures EncodeScalar(AbapString, TextValue(DecodeString(b).value)) == Ok(b)
  {
    var front := b[..|b| - 1];
    Utf8IsCanonical(front);
    ZeroBytesAreNul(Utf8Units(front).value);
    assert front + [0] == b;
  }

  lemma {:induction false} MarkedStringDoesNotRebuild(b: Bytes)
    requires DecodeString(b).Ok? && !Rebuildable(AbapString, b)
    ensures EncodeScalar(AbapString, TextValue(DecodeString(b).value)) != Ok(b)
  {
    var front := b[..|b| - 1];
    var s := Utf8Units(front).value;
    MarkedBytesAreLonger(front, s);
    var shorter := Utf8Bytes(s[1..]);
    assert (shorter + [0])[..|shorter|] == shorter;
  }

  lemma {:induction false} MarkedBytesAreLonger(b: Bytes, s: Units)
    requires Utf8Units(b) == Some(s) && s != [] && s[0] == BYTE_ORDER_MARK
    ensures IsScalarText(s[1..]) && Utf8Bytes(s[1..]) != b
  {
    Utf8RoundTrip(s[1..]);
  }

  /** Decoding then encoding gives the same bytes back, exactly in the rebuildable cases. */
  lemma {:induction false} DecodeThenEncode(k: Kind, b: Bytes)
    requires DecodeScalar(k, b).Ok?
    ensures EncodeScalar(k, DecodeScalar(k, b).value) == Ok(b) <==> Rebuildable(k, b)
  {
    match k
    case Char(width) => CharRebuilds(b, width);
    case Numc(width) =>
      if AllDigits(Utf16Units(b)) {
        DigitsRebuild(b, width);
      } else {
        OtherTextDoesNotRebuild(b, width);
      }
    case Date | Time => CalendarRebuilds(k, b);
    case Raw(width) => assert b + Repeat(0, 0) == b;
    case AbapString =>
      if Rebuildable(k, b) {
        StringRebuilds(b);
      } else {
        MarkedStringDoesNotRebuild(b);
      }
    case XString =>
    case _ => IntegerRebuilds(k, b);
  }

  lemma {:induction false} CalendarRebuilds(k: Kind, b: Bytes)
    requires (k == Date || k == Time) && DecodeScalar(k, b).Ok?
    ensures EncodeScalar(k, DecodeScalar(k, b).value) == Ok(b)
  {
    var units := Utf16Units(b);
    var width := CalendarWidth(k);
    Utf16RoundTripBytes(b);
    if AllSpaces(units) {
      assert forall i :: 0 <= i < |units| ==> units[i] in units;
      assert Repeat(SPACE, width) == units;
    }
    PlainIsText(units);
    assert units + Repeat(SPACE, 0) == units;
  }

  lemma {:induction false} IntegerRebuilds(k: Kind, b: Bytes)
    requires IntegerKind(k) && DecodeInteger(k, b).Ok?
    ensures EncodeInteger(k, DecodeInteger(k, b).value.number) == Ok(b)
  {
    Powers();
    if k.Int1? {
      LittleEndianOfUnsigned(b);
    } else {
      SignedBytesOfSigned(b);
    }
  }

  /** The length computed beforehand is the length of the encoding. */
  lemma {:induction false} LengthIsExact(k: Kind, v: Value)
    requires EncodeScalar(k, v).Ok?
    ensures EncodedLength(k, v) == Ok(|EncodeScalar(k, v).value|)
  {
    match v
    case TextValue(s) => TextLengthIsExact(k, s);
    case _ =>
  }

  lemma {:induction false} TextLengthIsExact(k: Kind, s: Units)
    requires EncodeText(k, s).Ok?
    ensures EncodedLength(k, TextValue(s)) == Ok(|EncodeText(k, s).value|)
  {
    match k
    case AbapString => Utf8LengthIsExact(s);
    case Char(width) => assert EncodeText(k, s) == EncodeAbapChar(s, width);
    case Numc(width) => assert EncodeText(k, s) == EncodeAbapChar(Repeat(0x30, width - |s|) + s, width);
    case Date | Time => assert |EncodeText(k, s).value| == 2 * CalendarWidth(k);
  }

  /** It rejects what the encoder rejects, but for a text width beyond the limit. */
  lemma {:induction false} LengthRejectsAlike(k: Kind, v: Value)
    requires EncodedLength(k, v).Ok? && EncodeScalar(k, v).Err?
    ensures (k.Char? || k.Numc?) && k.width > MAX_CHARACTERS && EncodeScalar(k, v) == Err(WidthLimit)
  {
    if v.TextValue? && k.Numc? {
      PlainIsText(Repeat(0x30, k.width - |v.text|) + v.text);
    } else if v.TextValue? && (k.Date? || k.Time?) {
      PlainIsText(if v.text == [] then Repeat(SPACE, CalendarWidth(k)) else v.text);
    }
  }

  lemma {:induction false} Utf8LengthIsExact(s: Units)
    requires IsScalarText(s)
    ensures Utf8Length(s) == |Utf8Bytes(s)|
    decreases |s|
  {
    if s != [] {
      Utf8LengthIsExact(s[FirstScalar(s).1..]);
    }
  }
}
