/** The escape of names in tags, character by character. */
module TagEscapes {
  import opened Text
  import opened WireForms
  import opened XrfcNames
  import opened Wrappers

  predicate IsLatinLetter(c: int) {
    0x41 <= c < 0x5B || 0x61 <= c < 0x7B
  }

  /** Letters, the underscore and everything beyond Latin-1 stand for themselves, and so do digits that do not come first. */
  predicate StandsForItself(c: CodeUnit, first: bool) {
    c >= 0x100 || IsLatinLetter(c) || c == 0x5F || (0x30 <= c < 0x3A && !first)
  }

  function PieceSize(c: CodeUnit, first: bool): nat {
    if StandsForItself(c, first) then 1 else if c == 0x2F then 2 else 5
  }

  /** An upper-case hexadecimal digit. */
  predicate IsHexDigit(c: CodeUnit, n: int) {
    if n < 10 then 0 <= n && c == 0x30 + n else n < 16 && c == 0x41 + (n - 10)
  }

  /** Itself, "_-" for a slash, and "_--" with two hexadecimal digits for any other character. */
  predicate IsEscape(c: CodeUnit, first: bool, piece: Units) {
    |piece| == PieceSize(c, first) &&
    match |piece|
    case 1 => piece == [c]
    case 2 => piece == [0x5F, 0x2D]
    case _ => piece[..3] == [0x5F, 0x2D, 0x2D] && IsHexDigit(piece[3], c as int / 0x10) && IsHexDigit(piece[4], c as int % 0x10)
  }

  predicate IsTag(v: Units, name: Units, first: bool)
    decreases |name|
  {
    if name == [] then v == []
    else
      var m := PieceSize(name[0], first);
      m <= |v| && IsEscape(name[0], first, v[..m]) && IsTag(v[m..], name[1..], false)
  }

  lemma {:induction false} UnitIsEscape(c: CodeUnit, first: bool)
    ensures IsEscape(c, first, EscapedUnit(c, first))
  {}

  lemma {:induction false} EscapeIsUnique(c: CodeUnit, first: bool, a: Units, b: Units)
    requires IsEscape(c, first, a) && IsEscape(c, first, b)
    ensures a == b
  {
    if |a| == 5 {
      assert a == a[..3] + [a[3], a[4]] && b == b[..3] + [b[3], b[4]];
    }
  }

  lemma {:induction false} TagOfName(v: Units, name: Units, first: bool)
    ensures IsTag(v, name, first) <==> v == EscapedFrom(name, first)
    decreases |name|
  {
    if name != [] {
      var piece := EscapedUnit(name[0], first);
      var m := PieceSize(name[0], first);
      UnitIsEscape(name[0], first);
      if IsTag(v, name, first) {
        EscapeIsUnique(name[0], first, v[..m], piece);
        TagOfName(v[m..], name[1..], false);
        assert v == v[..m] + v[m..];
      }
      if v == EscapedFrom(name, first) {
        var rest := EscapedFrom(name[1..], false);
        assert v[..m] == piece && v[m..] == rest;
        TagOfName(rest, name[1..], false);
      }
    }
  }

  /** A tag names a parameter exactly when it is the escape of that name, and the name is well-formed text. */
  lemma {:induction false} TagNamesIff(v: Units, name: Units)
    ensures TagName(v) == Some(name) <==> name != [] && IsWellFormed(name) && IsTag(v, name, true)
  {
    TagNameIff(v, name);
    ScalarTextIsWellFormed(name);
    TagOfName(v, name, true);
  }
}
