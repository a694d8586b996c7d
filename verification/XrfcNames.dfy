/**
 * The name of the parameter that an xRFC value belongs to. It is the top-level tag of the
 * value's XML, in an escape that keeps any name reversible.
 */
module XrfcNames {
  import opened Text
  import opened Wrappers
  import opened ClassicResult

  const LESS: CodeUnit := 0x3C
  const GREATER: CodeUnit := 0x3E
  const UNDERSCORE: CodeUnit := 0x5F
  const DASH: CodeUnit := 0x2D
  const SLASH: CodeUnit := 0x2F

  const LONGEST_TAG := 255

  predicate IsDigit(c: CodeUnit) {
    0x30 <= c <= 0x39
  }

  predicate IsLetter(c: CodeUnit) {
    0x41 <= c <= 0x5A || 0x61 <= c <= 0x7A
  }

  /** Goes into a tag as it is; a digit only after the first character. */
  predicate IsPlain(c: CodeUnit, first: bool) {
    c > 0xFF || c == UNDERSCORE || IsLetter(c) || (!first && IsDigit(c))
  }

  function HexDigit(n: nat): CodeUnit
    requires n < 0x10
  {
    if n < 10 then 0x30 + n else 0x37 + n
  }

  function HexValue(c: CodeUnit): Option<nat> {
    if IsDigit(c) then Some(Unit(c) - 0x30) else if 0x41 <= c <= 0x46 then Some(Unit(c) - 0x37) else None
  }

  /** Only characters up to 0xFF are escaped, so both halves of a surrogate pair stay as they are. */
  function EscapedUnit(c: CodeUnit, first: bool): Units {
    if IsPlain(c, first) then [c]
    else if c == SLASH then [UNDERSCORE, DASH]
    else [UNDERSCORE, DASH, DASH, HexDigit(Unit(c) / 0x10), HexDigit(Unit(c) % 0x10)]
  }

  function EscapedFrom(s: Units, first: bool): Units {
    if s == [] then [] else EscapedUnit(s[0], first) + EscapedFrom(s[1..], false)
  }

  function Escaped(name: Units): Units {
    EscapedFrom(name, true)
  }

  function Before(front: Units, rest: Option<Units>): Option<Units> {
    if rest.Some? then Some(front + rest.value) else None
  }

  /** What an escape at the front stands for and how long it is. */
  function FirstUnescaped(v: Units): (r: Option<(CodeUnit, nat)>)
    requires v != []
    ensures r.Some? ==> 1 <= r.value.1 <= |v|
  {
    if v[0] != UNDERSCORE then Some((v[0], 1))
    else if |v| < 2 || v[1] != DASH then Some((UNDERSCORE, 1))
    else if |v| < 3 || v[2] != DASH then Some((SLASH, 2))
    else if |v| < 5 || HexValue(v[3]).None? || HexValue(v[4]).None? then None
    else Some((HexValue(v[3]).value * 0x10 + HexValue(v[4]).value, 5))
  }

  function Unescaped(v: Units): Option<Units> {
    if v == [] then Some([])
    else
      match FirstUnescaped(v)
      case None => None
      case Some(one) => Before([one.0], Unescaped(v[one.1..]))
  }

  /** The name a tag stands for; what escaping the name again does not give back is refused. */
  function TagName(v: Units): Option<Units> {
    match Unescaped(v)
    case None => None
    case Some(name) => if IsScalarText(name) && name != [] && Escaped(name) == v then Some(name) else None
  }

  /** The index loop over the tag. */
  method UnescapeTag(value: Units) returns (r: Option<Units>)
    ensures r == TagName(value)
  {
    var result: Units, index := [], 0;
    assert value[0..] == value;
    BeforeNothing(Unescaped(value));
    while index < |value|
      invariant 0 <= index <= |value| && Unescaped(value) == Before(result, Unescaped(value[index..]))
    {
      ghost var rest := value[index..];
      ghost var one := FirstUnescaped(rest);
      ghost var so, at := result, index;
      if value[index] != UNDERSCORE {
        result := result + [value[index]];
        index := index + 1;
      } else if index + 1 >= |value| || value[index + 1] != DASH {
        result := result + [UNDERSCORE];
        index := index + 1;
      } else if index + 2 >= |value| || value[index + 2] != DASH {
        result := result + [SLASH];
        index := index + 2;
      } else {
        if index + 5 > |value| || HexValue(value[index + 3]).None? || HexValue(value[index + 4]).None? {
          return None;
        }
        result := result + [HexValue(value[index + 3]).value * 0x10 + HexValue(value[index + 4]).value];
        index := index + 5;
      }
      assert one.Some? && result == so + [one.value.0] && index == at + one.value.1;
      assert rest[one.value.1..] == value[index..];
      BeforeBoth(so, [one.value.0], Unescaped(value[index..]));
    }
    assert value[index..] == [] && result + [] == result;
    assert Unescaped(value) == Some(result);
    var ok := CheckScalarText(result);
    return if ok && result != [] && Escaped(result) == value then Some(result) else None;
  }

  lemma {:induction false} BeforeNothing(rest: Option<Units>)
    ensures Before([], rest) == rest
  {
    if rest.Some? {
      assert [] + rest.value == rest.value;
    }
  }

  lemma {:induction false} BeforeBoth(a: Units, b: Units, rest: Option<Units>)
    ensures Before(a, Before(b, rest)) == Before(a + b, rest)
  {
    if rest.Some? {
      assert a + (b + rest.value) == a + b + rest.value;
    }
  }

  // ---------------------------------------------------------------- the escape is reversible

  predicate StartsWithDash(v: Units) {
    v != [] && v[0] == DASH
  }

  lemma {:induction false} NoEscapeStartsWithDash(s: Units, first: bool)
    ensures !StartsWithDash(EscapedFrom(s, first))
  {}

  lemma {:induction false} HexDigitsInvert(n: nat)
    requires n < 0x10
    ensures HexValue(HexDigit(n)) == Some(n)
  {}

  lemma {:induction false} EscapeOfOne(c: CodeUnit, first: bool, rest: Units)
    requires !StartsWithDash(rest)
    ensures
      var v := EscapedUnit(c, first) + rest;
      v != [] && FirstUnescaped(v) == Some((c, |EscapedUnit(c, first)|)) && v[|EscapedUnit(c, first)|..] == rest
  {
    var unit := EscapedUnit(c, first);
    var v := unit + rest;
    assert v[|unit|..] == rest;
    if IsPlain(c, first) || c == SLASH {
      assert v[0] == unit[0] && (|rest| > 0 ==> v[|unit|] == rest[0]);
    } else {
      var high, low := Unit(c) / 0x10, Unit(c) % 0x10;
      assert Unit(c) == high * 0x10 + low && high < 0x10;
      HexDigitsInvert(high);
      HexDigitsInvert(low);
      assert v[..5] == unit == [UNDERSCORE, DASH, DASH, HexDigit(high), HexDigit(low)];
      assert v[0] == UNDERSCORE && v[1] == DASH && v[2] == DASH && v[3] == HexDigit(high) && v[4] == HexDigit(low);
    }
  }

  lemma {:induction false} EscapeRoundTrip(s: Units, first: bool)
    ensures Unescaped(EscapedFrom(s, first)) == Some(s)
  {
    if s != [] {
      EscapeRoundTrip(s[1..], false);
      NoEscapeStartsWithDash(s[1..], false);
      EscapeOfOne(s[0], first, EscapedFrom(s[1..], false));
      assert s == [s[0]] + s[1..];
    }
  }

  /** A tag is accepted exactly if it is the escape of a name, and that name is the result. */
  lemma {:induction false} TagNameIff(v: Units, name: Units)
    ensures TagName(v) == Some(name) <==> name != [] && IsScalarText(name) && v == Escaped(name)
  {
    EscapeRoundTrip(name, true);
  }

  lemma {:induction false} EscapedHasNoBrackets(s: Units, first: bool)
    ensures LESS !in EscapedFrom(s, first) && GREATER !in EscapedFrom(s, first)
    ensures s != [] ==> EscapedFrom(s, first) != []
  {
    if s != [] {
      EscapedHasNoBrackets(s[1..], false);
    }
  }

  // ---------------------------------------------------------------- the name in the XML

  /** The first position of a unit, or the length. */
  function Position(text: Units, c: CodeUnit): (r: nat)
    ensures r <= |text| && c !in text[..r] && (r < |text| ==> text[r] == c)
  {
    if text == [] || text[0] == c then 0
    else
      var r := 1 + Position(text[1..], c);
      assert text[..r] == [text[0]] + text[1..][..r - 1];
      r
  }

  predicate StartsWithMark(xml: Bytes) {
    |xml| >= 3 && xml[0] == 0xEF && xml[1] == 0xBB && xml[2] == 0xBF
  }

  function NameIn(xml: Bytes): Option<Units> {
    if xml == [] || |xml| > MAX_CHAIN_LENGTH || StartsWithMark(xml) then None
    else
      match Utf8Units(xml)
      case None => None
      case Some(text) =>
        if text == [] || text[0] != LESS then None
        else
          var end := Position(text, GREATER);
          if end == |text| || end < 2 || end > LONGEST_TAG + 1 || LESS in text[1..end] then None
          else TagName(text[1..end])
  }

  predicate TagAtFront(text: Units, tag: Units) {
    |tag| + 2 <= |text| && text[0] == LESS && text[1..|tag| + 1] == tag && text[|tag| + 1] == GREATER
  }

  lemma {:induction false} MarkIsNoBracket(xml: Bytes)
    requires Utf8Units(xml).Some? && StartsWithMark(xml)
    ensures Utf8Units(xml).value != [] && Utf8Units(xml).value[0] == BYTE_ORDER_MARK
  {
    assert Three(0xEF, 0xBB, 0xBF) == 0xFEFF;
    assert DecodeOne(xml) == Some((0xFEFF, 3));
  }

  lemma {:induction false} FrontTagEnds(text: Units, tag: Units)
    requires TagAtFront(text, tag) && GREATER !in tag
    ensures Position(text, GREATER) == |tag| + 1
  {
    var end := Position(text, GREATER);
    assert forall i :: 1 <= i < |tag| + 1 ==> text[i] == text[1..|tag| + 1][i - 1];
    assert forall i :: 0 <= i < end ==> text[i] == text[..end][i];
  }

  /**
   * A value belongs to a parameter exactly if its XML is well-formed UTF-8 of an admissible size
   * that starts with the escaped name in brackets.
   */
  lemma {:induction false} NameInIff(xml: Bytes, name: Units)
    ensures NameIn(xml) == Some(name) <==>
              && name != [] && IsScalarText(name) && |Escaped(name)| <= LONGEST_TAG && |xml| <= MAX_CHAIN_LENGTH
              && Utf8Units(xml).Some? && TagAtFront(Utf8Units(xml).value, Escaped(name))
  {
    var tag := Escaped(name);
    EscapedHasNoBrackets(name, true);
    if Utf8Units(xml).Some? {
      var text := Utf8Units(xml).value;
      if StartsWithMark(xml) {
        MarkIsNoBracket(xml);
      }
      if TagAtFront(text, tag) {
        FrontTagEnds(text, tag);
        TagNameIff(tag, name);
      } else if NameIn(xml) == Some(name) {
        TagNameIff(text[1..Position(text, GREATER)], name);
      }
    }
  }

  /** XML written with the escaped name as its top-level tag is read back under that name. */
  lemma {:induction false} NameSurvives(name: Units, text: Units, rest: Units)
    requires name != [] && IsScalarText(name) && |Escaped(name)| <= LONGEST_TAG
    requires text == [LESS] + Escaped(name) + [GREATER] + rest && IsScalarText(text) && |Utf8Bytes(text)| <= MAX_CHAIN_LENGTH
    ensures NameIn(Utf8Bytes(text)) == Some(name)
  {
    Utf8RoundTrip(text);
    NameInIff(Utf8Bytes(text), name);
  }
}
