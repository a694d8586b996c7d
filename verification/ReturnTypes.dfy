/** Which RETURN a control function may answer with, said of the characters of its types. */
module ReturnTypes {
  import opened ControlReturn

  /** White space, by code point. */
  predicate IsWhite(c: char) {
    var n := c as int;
    n in {0x9, 0xA, 0xB, 0xC, 0xD, 0x20, 0xA0, 0x1680, 0x2028, 0x2029, 0x202F, 0x205F, 0x3000, 0xFEFF} || 0x2000 <= n < 0x200B
  }

  predicate AllWhite(s: string) {
    forall i :: 0 <= i < |s| ==> IsWhite(s[i])
  }

  /** The letter itself, its lower case, or one of the two others whose capital it is. */
  predicate Spells(c: char, letter: char) {
    || c == letter || (c as int == letter as int + 0x20)
    || (letter == 'S' && c as int == 0x17F) || (letter == 'I' && c as int == 0x131)
  }

  /** The text is this letter, with white space around it at most. */
  predicate IsLetter(s: string, letter: char) {
    exists i :: 0 <= i < |s| && Spells(s[i], letter) && AllWhite(s[..i]) && AllWhite(s[i + 1..])
  }

  lemma {:induction false} WhiteIsSpace(c: char)
    ensures IsSpace(c) <==> IsWhite(c)
  {}

  lemma {:induction false} LeftTrimmed(s: string) returns (k: nat)
    ensures k <= |s| && TrimLeft(s) == s[k..] && AllWhite(s[..k]) && (k < |s| ==> !IsWhite(s[k]))
  {
    if s == "" {
      k := 0;
    } else {
      WhiteIsSpace(s[0]);
      if IsSpace(s[0]) {
        var m := LeftTrimmed(s[1..]);
        k := m + 1;
        assert s[..k] == [s[0]] + s[1..][..m];
      } else {
        k := 0;
      }
    }
  }

  lemma {:induction false} RightTrimmed(s: string) returns (k: nat)
    ensures k <= |s| && TrimRight(s) == s[..k] && AllWhite(s[k..]) && (k > 0 ==> !IsWhite(s[k - 1]))
  {
    if s == "" {
      k := 0;
    } else {
      var n := |s| - 1;
      WhiteIsSpace(s[n]);
      if IsSpace(s[n]) {
        k := RightTrimmed(s[..n]);
        assert s[k..] == s[..n][k..] + [s[n]];
      } else {
        k := |s|;
        assert s[..k] == s;
      }
    }
  }

  lemma {:induction false} UpperSpells(c: char, letter: char)
    requires letter in "AEISWX" && !IsWhite(c)
    ensures Upper(c) == letter <==> Spells(c, letter)
  {}

  /** What is left of the text after trimming: from one place to another, neither of them white. */
  lemma {:induction false} Trimmed(s: string) returns (from: nat, to: nat)
    ensures from <= to <= |s| && TrimLeft(TrimRight(s)) == s[from..to] && AllWhite(s[..from]) && AllWhite(s[to..])
    ensures from < to ==> !IsWhite(s[from]) && !IsWhite(s[to - 1])
  {
    to := RightTrimmed(s);
    from := LeftTrimmed(s[..to]);
    assert s[..to][from..] == s[from..to] && s[..to][..from] == s[..from];
  }

  lemma {:induction false} TypeIsLetter(s: string, letter: char)
    requires letter in "AEISWX"
    ensures TypeOf(s) == [letter] <==> IsLetter(s, letter)
  {
    var from, to := Trimmed(s);
    var t := s[from..to];
    if TypeOf(s) == [letter] {
      assert |t| == 1 && t[0] == s[from] && Upper(s[from]) == letter;
      UpperSpells(s[from], letter);
      assert Spells(s[from], letter) && AllWhite(s[..from]) && AllWhite(s[from + 1..]);
    }
    if IsLetter(s, letter) {
      var i :| 0 <= i < |s| && Spells(s[i], letter) && AllWhite(s[..i]) && AllWhite(s[i + 1..]);
      OneLetter(s, i, from, to);
      UpperSpells(s[i], letter);
    }
  }

  lemma {:induction false} WhiteBetween(s: string, from: nat, to: nat)
    requires from <= to <= |s| && AllWhite(s[from..to])
    ensures forall k :: from <= k < to ==> IsWhite(s[k])
  {
    forall k | from <= k < to ensures IsWhite(s[k]) {
      assert s[from..to][k - from] == s[k];
    }
  }

  lemma {:induction false} OneLetter(s: string, i: nat, from: nat, to: nat)
    requires i < |s| && !IsWhite(s[i]) && AllWhite(s[..i]) && AllWhite(s[i + 1..])
    requires from <= to <= |s| && AllWhite(s[..from]) && AllWhite(s[to..]) && (from < to ==> !IsWhite(s[from]) && !IsWhite(s[to - 1]))
    ensures from == i && to == i + 1
  {
    WhiteBetween(s, 0, i);
    WhiteBetween(s, i + 1, |s|);
    WhiteBetween(s, 0, from);
    WhiteBetween(s, to, |s|);
  }

  lemma {:induction false} TypeIsBlank(s: string)
    ensures TypeOf(s) == "" <==> AllWhite(s)
  {
    var from, to := Trimmed(s);
    if from == to {
      WhiteBetween(s, 0, from);
      WhiteBetween(s, to, |s|);
    }
  }

  /** Something that can be read: a structure whose type is text and whose other components are text or absent. */
  predicate IsReadable(r: Row) {
    r.Row? && r.typ.Text? && !r.id.NotText? && !r.number.NotText? && !r.message.NotText?
  }

  /** A message type that says something failed: abort, error, exit. */
  predicate SaysFailed(r: Row) {
    IsReadable(r) && (IsLetter(r.typ.text, 'A') || IsLetter(r.typ.text, 'E') || IsLetter(r.typ.text, 'X'))
  }

  /** One that says nothing of the kind: information, success, warning, or blank. */
  predicate SaysFine(r: Row) {
    IsReadable(r) && (AllWhite(r.typ.text) || IsLetter(r.typ.text, 'I') || IsLetter(r.typ.text, 'S') || IsLetter(r.typ.text, 'W'))
  }

  lemma {:induction false} RowSays(r: Row)
    ensures FailingRow(r) <==> SaysFailed(r)
    ensures LegalRow(r) <==> SaysFailed(r) || SaysFine(r)
  {
    if IsReadable(r) {
      var s := r.typ.text;
      TypeIsBlank(s);
      TypeIsLetter(s, 'A');
      TypeIsLetter(s, 'E');
      TypeIsLetter(s, 'I');
      TypeIsLetter(s, 'S');
      TypeIsLetter(s, 'W');
      TypeIsLetter(s, 'X');
      var t := TypeOf(s);
      assert |t| == 1 ==> t == [t[0]];
    }
  }

  /** The rows that say so, in their order. */
  predicate AreFailures(rows: seq<Row>, failures: seq<Row>)
    decreases |rows|
  {
    if rows == [] then failures == []
    else if SaysFailed(rows[0]) then failures != [] && failures[0] == rows[0] && AreFailures(rows[1..], failures[1..])
    else AreFailures(rows[1..], failures)
  }

  lemma {:induction false} FailuresJoin(a: seq<Row>, b: seq<Row>, f: seq<Row>, g: seq<Row>)
    requires AreFailures(a, f) && AreFailures(b, g)
    ensures AreFailures(a + b, f + g)
    decreases |a|
  {
    if a == [] {
      assert a + b == b && f + g == g;
    } else {
      assert (a + b)[1..] == a[1..] + b;
      if SaysFailed(a[0]) {
        FailuresJoin(a[1..], b, f[1..], g);
        assert (f + g)[1..] == f[1..] + g;
      } else {
        FailuresJoin(a[1..], b, f, g);
      }
    }
  }

  lemma {:induction false} FailingAreFailures(rows: seq<Row>)
    ensures AreFailures(rows, Failing(rows))
  {
    if rows != [] {
      var n := |rows| - 1;
      var last: seq<Row> := [rows[n]];
      FailingAreFailures(rows[..n]);
      RowSays(rows[n]);
      assert AreFailures([], []) && last[1..] == [];
      FailuresJoin(rows[..n], last, Failing(rows[..n]), if FailingRow(rows[n]) then last else []);
      assert rows == rows[..n] + last;
    }
  }

  lemma {:induction false} FailuresAreUnique(rows: seq<Row>, f: seq<Row>, g: seq<Row>)
    requires AreFailures(rows, f) && AreFailures(rows, g)
    ensures f == g
    decreases |rows|
  {
    if rows != [] {
      if SaysFailed(rows[0]) {
        FailuresAreUnique(rows[1..], f[1..], g[1..]);
        assert f == [f[0]] + f[1..] && g == [g[0]] + g[1..];
      } else {
        FailuresAreUnique(rows[1..], f, g);
      }
    }
  }

  /** One value stands for one row; no RETURN for none. */
  function RowsOf(r: Return): seq<Row> {
    if r.NoReturn? then [] else if r.Single? then [r.row] else r.rows
  }

  /**
   * A control function is approved if and only if its RETURN has rows and all of them say that nothing
   * failed. It is refused, for the failing rows in order, if all can be read and some say so.
   */
  lemma {:induction false} JudgedBySaying(r: Return, failures: seq<Row>)
    ensures Judged(r) == Approved <==> RowsOf(r) != [] && forall x :: x in RowsOf(r) ==> SaysFine(x) && !SaysFailed(x)
    ensures Judged(r) == Refused(failures) <==>
            failures != [] && AreFailures(RowsOf(r), failures) && forall x :: x in RowsOf(r) ==> SaysFine(x) || SaysFailed(x)
  {
    ApprovedIff(r);
    RowsJudgedExactly(Rows(r));
    FailingAreFailures(Rows(r));
    forall x | x in RowsOf(r) ensures (FailingRow(x) <==> SaysFailed(x)) && (LegalRow(x) <==> SaysFailed(x) || SaysFine(x)) {
      RowSays(x);
    }
    if AreFailures(RowsOf(r), failures) {
      FailuresAreUnique(RowsOf(r), failures, Failing(Rows(r)));
    }
  }
}
