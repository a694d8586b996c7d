/** Judging the RETURN parameter of BAPI_TRANSACTION_COMMIT and BAPI_TRANSACTION_ROLLBACK. */
module ControlReturn {

  /** A component of a RETURN row: not there (or null), something else than text, or text. */
  datatype Component = Absent | NotText | Text(text: string)

  datatype Row = NotAStructure | Row(typ: Component, id: Component, number: Component, message: Component)

  /** The RETURN parameter itself: missing, one value, or an array of values. */
  datatype Return = NoReturn | Single(row: Row) | Table(rows: seq<Row>)

  /** Invalid: the reply says nothing reliable. Refused: the rows with a failing type, in order. */
  datatype Verdict = Approved | Refused(rows: seq<Row>) | Invalid

  /** White space as ECMAScript's trim() sees it. */
  predicate IsSpace(c: char) {
    || c in "\t\n\r \U{000B}\U{000C}\U{00A0}\U{1680}\U{2028}\U{2029}\U{202F}\U{205F}\U{3000}\U{FEFF}"
    || '\U{2000}' <= c <= '\U{200A}'
  }

  function TrimLeft(s: string): string {
    if s != "" && IsSpace(s[0]) then TrimLeft(s[1..]) else s
  }

  function TrimRight(s: string): string {
    if s != "" && IsSpace(s[|s| - 1]) then TrimRight(s[..|s| - 1]) else s
  }

  /**
   * The upper-case letter a character maps to, for the letters that matter here. Besides the
   * ASCII letters, the long s and the dotless i have ASCII capitals.
   */
  function Upper(c: char): char {
    if 'a' <= c <= 'z' then c - 'a' + 'A'
    else if c == '\U{017F}' then 'S'
    else if c == '\U{0131}' then 'I'
    else c
  }

  /** The trimmed, upper-cased type: blank, one of the message types, or not a type at all. */
  function TypeOf(s: string): string {
    var t := TrimLeft(TrimRight(s));
    if |t| == 1 then [Upper(t[0])] else t
  }

  predicate LegalType(t: string) {
    t == "" || (|t| == 1 && t[0] in "AEISWX")
  }

  predicate FailingType(t: string) {
    |t| == 1 && t[0] in "AEX"
  }

  predicate LegalRow(r: Row) {
    && r.Row?
    && r.typ.Text? && LegalType(TypeOf(r.typ.text))
    && !r.id.NotText? && !r.number.NotText? && !r.message.NotText?
  }

  predicate FailingRow(r: Row) {
    LegalRow(r) && FailingType(TypeOf(r.typ.text))
  }

  function Rows(r: Return): seq<Row> {
    match r
    case NoReturn => []
    case Single(row) => [row]
    case Table(rows) => rows
  }

  function Failing(rows: seq<Row>): (r: seq<Row>) {
    if rows == [] then [] else Failing(rows[..|rows| - 1]) + if FailingRow(rows[|rows| - 1]) then [rows[|rows| - 1]] else []
  }

  predicate AllLegal(rows: seq<Row>) {
    rows == [] || (AllLegal(rows[..|rows| - 1]) && LegalRow(rows[|rows| - 1]))
  }

  /** Validity is judged for all rows before any failing type counts. */
  function Judged(r: Return): Verdict {
    var rows := Rows(r);
    if |rows| == 0 || !AllLegal(rows) then Invalid
    else if Failing(rows) != [] then Refused(Failing(rows))
    else Approved
  }

  lemma {:induction false} RowsJudgedExactly(rows: seq<Row>)
    ensures forall x :: x in Failing(rows) <==> x in rows && FailingRow(x)
    ensures AllLegal(rows) <==> forall x :: x in rows ==> LegalRow(x)
  {
    if rows != [] {
      var front := rows[..|rows| - 1];
      RowsJudgedExactly(front);
      assert rows == front + [rows[|rows| - 1]];
    }
  }

  /** The unit of work counts as done only on a nonempty RETURN of legal rows, none failing. */
  lemma {:induction false} ApprovedIff(r: Return)
    ensures Judged(r) == Approved <==> Rows(r) != [] && forall x :: x in Rows(r) ==> LegalRow(x) && !FailingRow(x)
    ensures Judged(r).Refused? <==> (Rows(r) != [] && (forall x :: x in Rows(r) ==> LegalRow(x)) && exists x :: x in Rows(r) && FailingRow(x))
  {
    var rows := Rows(r);
    RowsJudgedExactly(rows);
    if Failing(rows) != [] {
      assert Failing(rows)[0] in Failing(rows);
    }
  }

  /** The loop over the rows, with its early rejection of an illegal row. */
  method InspectControlReturn(r: Return) returns (v: Verdict)
    ensures v == Judged(r)
  {
    if r.NoReturn? {
      return Invalid;
    }
    var rows := if r.Single? then [r.row] else r.rows;
    if |rows| < 1 {
      return Invalid;
    }
    var failures: seq<Row> := [];
    for index := 0 to |rows|
      invariant AllLegal(rows[..index]) && failures == Failing(rows[..index])
    {
      var row := rows[index];
      OneMoreRow(rows, index);
      if !LegalRow(row) {
        IllegalRowSpoils(rows, index);
        return Invalid;
      }
      if FailingRow(row) {
        failures := failures + [row];
      }
    }
    assert rows[..|rows|] == rows;
    return if |failures| > 0 then Refused(failures) else Approved;
  }

  lemma {:induction false} OneMoreRow(rows: seq<Row>, index: nat)
    requires index < |rows|
    ensures AllLegal(rows[..index + 1]) <==> AllLegal(rows[..index]) && LegalRow(rows[index])
    ensures Failing(rows[..index + 1]) == Failing(rows[..index]) + if FailingRow(rows[index]) then [rows[index]] else []
  {
    assert rows[..index + 1][..index] == rows[..index];
  }

  lemma {:induction false} IllegalRowSpoils(rows: seq<Row>, index: nat)
    requires index < |rows| && !LegalRow(rows[index])
    ensures !AllLegal(rows)
  {
    RowsJudgedExactly(rows);
    assert rows[index] in rows;
  }
}
