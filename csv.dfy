/**
 * Python's `csv.writer` with the dialect the report builder uses: comma
 * delimiter, `QUOTE_MINIMAL`, `"` as quote character doubled inside quoted
 * fields, no escape character, `"\r\n"` as line terminator. A field is
 * `Option<string>` because the writer accepts `None` and writes it as an empty
 * field. The reader at the end is not part of the source: it is the inverse the
 * round-trip lemma uses to show that the written text keeps every field intact.
 */
module Csv {
  import opened Wrappers

  const DELIMITER: char := ','
  const QUOTECHAR: char := '"'
  const LINETERMINATOR: string := "\r\n"

  type Field = Option<string>
  type Row = seq<Field>

  /** The characters that force a field into quotes under `QUOTE_MINIMAL`. */
  predicate IsSpecial(c: char) {
    c == DELIMITER || c == QUOTECHAR || c == '\r' || c == '\n'
  }

  predicate NeedsQuotes(s: string) {
    s != [] && (IsSpecial(s[0]) || NeedsQuotes(s[1..]))
  }

  /** A field is quoted exactly when some character of it is special. */
  lemma {:induction false} NeedsQuotesIff(s: string)
    ensures NeedsQuotes(s) <==> exists k :: 0 <= k < |s| && IsSpecial(s[k])
  {
    if s != [] {
      NeedsQuotesIff(s[1..]);
      if exists k :: 0 <= k < |s| && IsSpecial(s[k]) {
        var k :| 0 <= k < |s| && IsSpecial(s[k]);
        if k > 0 {
          assert s[1..][k - 1] == s[k];
        }
      }
    }
  }

  /** The text a field holds; `None` is written as an empty field. */
  function FieldText(f: Field): string {
    if f.None? then "" else f.value
  }

  /** `s` with every quote character doubled. */
  function DoubleQuotes(s: string): (r: string)
    ensures |r| >= |s|
  {
    if s == [] then []
    else (if s[0] == QUOTECHAR then [QUOTECHAR, QUOTECHAR] else [s[0]]) + DoubleQuotes(s[1..])
  }

  /** One field as the writer emits it: quoted, with quotes doubled, exactly when it holds a special character. */
  function RenderField(f: Field): (r: string)
    ensures r == FieldText(f) <==> !NeedsQuotes(FieldText(f))
    ensures NeedsQuotes(FieldText(f)) ==> |r| >= 2 && r[0] == QUOTECHAR && r[|r| - 1] == QUOTECHAR
  {
    var s := FieldText(f);
    if NeedsQuotes(s) then [QUOTECHAR] + DoubleQuotes(s) + [QUOTECHAR] else s
  }

  /** The rendered fields of a non-empty row, separated by the delimiter. */
  function JoinFields(row: Row): string
    requires |row| >= 1
  {
    if |row| == 1 then RenderField(row[0])
    else RenderField(row[0]) + [DELIMITER] + JoinFields(row[1..])
  }

  /**
   * `writer.writerow(row)`: the joined fields and the line terminator. A row whose
   * only field renders empty is written as `""`, so that the line is not blank.
   */
  function RenderRow(row: Row): (r: string)
    ensures |r| >= 2 && r[|r| - 2] == LINETERMINATOR[0] && r[|r| - 1] == LINETERMINATOR[1]
  {
    if row == [] then LINETERMINATOR
    else if |row| == 1 && RenderField(row[0]) == "" then [QUOTECHAR, QUOTECHAR] + LINETERMINATOR
    else JoinFields(row) + LINETERMINATOR
  }

  /** `writer.writerows(rows)`. */
  function RenderRows(rows: seq<Row>): (r: string)
    ensures r == [] <==> rows == []
  {
    if rows == [] then "" else RenderRow(rows[0]) + RenderRows(rows[1..])
  }

  lemma RenderOneRow(row: Row)
    ensures RenderRows([row]) == RenderRow(row)
  {
    assert [row][1..] == [];
    assert RenderRow(row) + "" == RenderRow(row);
  }

  /** A two-field row of plain texts is written as they are, one delimiter between them. */
  lemma PlainPairRow(f: Field, g: Field)
    requires !NeedsQuotes(FieldText(f)) && !NeedsQuotes(FieldText(g))
    ensures RenderRow([f, g]) == FieldText(f) + [DELIMITER] + FieldText(g) + LINETERMINATOR
  {
    assert [f, g][1..] == [g];
    assert JoinFields([f, g]) == RenderField(f) + [DELIMITER] + RenderField(g);
  }

  lemma RenderRowsPrefix(rows: seq<Row>, i: nat)
    requires i < |rows|
    ensures RenderRows(rows[..i + 1]) == RenderRows(rows[..i]) + RenderRow(rows[i])
  {
    assert rows[..i + 1] == rows[..i] + [rows[i]];
    RenderRowsAppend(rows[..i], [rows[i]]);
    assert [rows[i]][1..] == [];
  }

  lemma {:induction false} RenderRowsAppend(a: seq<Row>, b: seq<Row>)
    ensures RenderRows(a + b) == RenderRows(a) + RenderRows(b)
  {
    if a == [] {
      assert a + b == b;
    } else {
      assert (a + b)[0] == a[0] && (a + b)[1..] == a[1..] + b;
      RenderRowsAppend(a[1..], b);
    }
  }

  /** A `csv.writer` together with the `StringIO` it writes to. */
  class Writer {
    var buffer: string

    constructor ()
      ensures buffer == ""
    {
      buffer := "";
    }

    method WriteRow(row: Row)
      modifies this
      ensures buffer == old(buffer) + RenderRow(row)
    {
      buffer := buffer + RenderRow(row);
    }

    method WriteRows(rows: seq<Row>)
      modifies this
      ensures buffer == old(buffer) + RenderRows(rows)
    {
      buffer := buffer + RenderRows(rows);
    }
  }

  // ---- Reading the text back ----

  /** An unquoted field: everything up to the next delimiter or line break. */
  function ReadPlain(s: string): (r: (string, string))
    ensures r.0 + r.1 == s
  {
    if s == [] || s[0] == DELIMITER || s[0] == '\r' || s[0] == '\n' then ("", s)
    else
      var (a, b) := ReadPlain(s[1..]);
      ([s[0]] + a, b)
  }

  /** The rest of a quoted field after its opening quote: a doubled quote stands for one, a single quote closes it. */
  function ReadQuoted(s: string): (r: Option<(string, string)>)
    ensures r.Some? ==> |r.value.1| < |s|
  {
    if s == [] then None
    else if s[0] == QUOTECHAR && !(|s| >= 2 && s[1] == QUOTECHAR) then Some(("", s[1..]))
    else
      var skip := if s[0] == QUOTECHAR then 2 else 1;
      match ReadQuoted(s[skip..])
      case None => None
      case Some((a, b)) => Some(([s[0]] + a, b))
  }

  function ReadField(s: string): (r: Option<(string, string)>)
    ensures r.Some? ==> |r.value.1| <= |s|
  {
    if s != [] && s[0] == QUOTECHAR then ReadQuoted(s[1..]) else Some(ReadPlain(s))
  }

  /** The fields of one record, up to and including its line terminator, and the text after it. */
  function ReadRecord(s: string): (r: Option<(seq<string>, string)>)
    ensures r.Some? ==> |r.value.1| < |s|
    decreases |s|
  {
    match ReadField(s)
    case None => None
    case Some((f, rest)) =>
      if |rest| >= 2 && rest[..2] == LINETERMINATOR then Some(([f], rest[2..]))
      else if rest != [] && rest[0] == DELIMITER then
        match ReadRecord(rest[1..])
        case None => None
        case Some((fs, more)) => Some(([f] + fs, more))
      else None
  }

  /** All records of a text. */
  function ReadRecords(s: string): Option<seq<seq<string>>>
    decreases |s|
  {
    if s == [] then Some([])
    else match ReadRecord(s)
      case None => None
      case Some((fs, rest)) =>
        match ReadRecords(rest)
        case None => None
        case Some(rs) => Some([fs] + rs)
  }

  /** The texts of a row's fields. */
  function Texts(row: Row): (r: seq<string>)
    ensures |r| == |row| && forall i :: 0 <= i < |row| ==> r[i] == FieldText(row[i])
  {
    seq(|row|, i requires 0 <= i < |row| => FieldText(row[i]))
  }

  /** One step of reading a quoted field: a plain character or a doubled quote stands for one character. */
  lemma ReadQuotedStep(c: char, u: string)
    ensures ReadQuoted((if c == QUOTECHAR then [QUOTECHAR, QUOTECHAR] else [c]) + u) ==
      match ReadQuoted(u)
      case None => None
      case Some((a, b)) => Some(([c] + a, b))
  {
    var head := if c == QUOTECHAR then [QUOTECHAR, QUOTECHAR] else [c];
    assert (head + u)[0] == c;
    assert (head + u)[|head|..] == u;
  }

  lemma {:induction false} ReadQuotedDoubled(x: string, rest: string)
    requires rest == [] || rest[0] != QUOTECHAR
    ensures ReadQuoted(DoubleQuotes(x) + [QUOTECHAR] + rest) == Some((x, rest))
  {
    if x == [] {
      assert DoubleQuotes(x) + [QUOTECHAR] + rest == [QUOTECHAR] + rest;
    } else {
      var head := if x[0] == QUOTECHAR then [QUOTECHAR, QUOTECHAR] else [x[0]];
      var u := DoubleQuotes(x[1..]) + [QUOTECHAR] + rest;
      assert DoubleQuotes(x) + [QUOTECHAR] + rest == head + u by {
        assert DoubleQuotes(x) == head + DoubleQuotes(x[1..]);
      }
      ReadQuotedDoubled(x[1..], rest);
      ReadQuotedStep(x[0], u);
      assert [x[0]] + x[1..] == x by {}
    }
  }

  lemma {:induction false} ReadPlainText(x: string, rest: string)
    requires !NeedsQuotes(x)
    requires rest == [] || rest[0] == DELIMITER || rest[0] == '\r'
    ensures ReadPlain(x + rest) == (x, rest)
  {
    if x == [] {
      assert x + rest == rest;
    } else {
      assert (x + rest)[0] == x[0] && (x + rest)[1..] == x[1..] + rest;
      ReadPlainText(x[1..], rest);
      assert [x[0]] + x[1..] == x;
    }
  }

  lemma ReadQuotedField(u: string)
    ensures ReadField([QUOTECHAR] + u) == ReadQuoted(u)
  {
    assert ([QUOTECHAR] + u)[1..] == u;
  }

  lemma ReadPlainField(t: string, rest: string)
    requires !NeedsQuotes(t)
    requires rest != [] && (rest[0] == DELIMITER || rest[0] == '\r')
    ensures ReadField(t + rest) == Some((t, rest))
  {
    var s := t + rest;
    assert s[0] != QUOTECHAR by {
      if t != [] {
        assert s[0] == t[0] && !IsSpecial(t[0]);
      }
    }
    ReadPlainText(t, rest);
  }

  /** A rendered field followed by a delimiter or a line terminator reads back as its text. */
  lemma ReadRenderedField(f: Field, rest: string)
    requires rest != [] && (rest[0] == DELIMITER || rest[0] == '\r')
    ensures ReadField(RenderField(f) + rest) == Some((FieldText(f), rest))
  {
    var t := FieldText(f);
    if NeedsQuotes(t) {
      var u := DoubleQuotes(t) + [QUOTECHAR] + rest;
      assert RenderField(f) + rest == [QUOTECHAR] + u;
      ReadQuotedField(u);
      ReadQuotedDoubled(t, rest);
    } else {
      ReadPlainField(t, rest);
    }
  }

  lemma ReadLastField(f: Field, more: string)
    ensures ReadRecord(RenderField(f) + LINETERMINATOR + more) == Some(([FieldText(f)], more))
  {
    var rest := LINETERMINATOR + more;
    assert RenderField(f) + LINETERMINATOR + more == RenderField(f) + rest;
    ReadRenderedField(f, rest);
    assert rest[..2] == LINETERMINATOR && rest[2..] == more;
  }

  lemma ReadNextField(f: Field, tail: string)
    ensures ReadRecord(RenderField(f) + [DELIMITER] + tail) ==
      match ReadRecord(tail)
      case None => None
      case Some((fs, more)) => Some(([FieldText(f)] + fs, more))
  {
    var rest := [DELIMITER] + tail;
    assert RenderField(f) + [DELIMITER] + tail == RenderField(f) + rest;
    ReadRenderedField(f, rest);
    assert !(|rest| >= 2 && rest[..2] == LINETERMINATOR) by {
      if |rest| >= 2 { assert rest[..2][0] == DELIMITER; }
    }
    assert rest[1..] == tail;
  }

  lemma TextsCons(row: Row)
    requires |row| >= 1
    ensures Texts(row) == [FieldText(row[0])] + Texts(row[1..])
  {
    var r := [FieldText(row[0])] + Texts(row[1..]);
    forall i | 0 <= i < |row|
      ensures r[i] == Texts(row)[i]
    {
      if i > 0 {
        assert r[i] == Texts(row[1..])[i - 1];
      }
    }
  }

  lemma {:induction false} ReadJoinedFields(row: Row, more: string)
    requires |row| >= 1
    ensures ReadRecord(JoinFields(row) + LINETERMINATOR + more) == Some((Texts(row), more))
  {
    if |row| == 1 {
      ReadLastField(row[0], more);
      assert Texts(row) == [FieldText(row[0])];
    } else {
      var tail := JoinFields(row[1..]) + LINETERMINATOR + more;
      assert JoinFields(row) + LINETERMINATOR + more == RenderField(row[0]) + [DELIMITER] + tail;
      ReadNextField(row[0], tail);
      ReadJoinedFields(row[1..], more);
      TextsCons(row);
    }
  }

  /** Reading a written non-empty row gives back the text of each field, in order. */
  lemma ReadRenderedRow(row: Row, more: string)
    requires |row| >= 1
    ensures ReadRecord(RenderRow(row) + more) == Some((Texts(row), more))
  {
    if |row| == 1 && RenderField(row[0]) == "" {
      var s := RenderRow(row) + more;
      var rest := LINETERMINATOR + more;
      assert s == [QUOTECHAR] + ([QUOTECHAR] + rest);
      assert s[1..] == [QUOTECHAR] + rest;
      assert ReadQuoted(s[1..]) == Some(("", rest));
      assert ReadField(s) == Some(("", rest));
      assert rest[..2] == LINETERMINATOR && rest[2..] == more;
      assert Texts(row) == [""];
    } else {
      assert RenderRow(row) + more == JoinFields(row) + LINETERMINATOR + more;
      ReadJoinedFields(row, more);
    }
  }

  /** The field texts of each row. */
  function TextsOf(rows: seq<Row>): (r: seq<seq<string>>)
    ensures |r| == |rows| && forall i :: 0 <= i < |rows| ==> r[i] == Texts(rows[i])
  {
    seq(|rows|, i requires 0 <= i < |rows| => Texts(rows[i]))
  }

  lemma TextsOfCons(rows: seq<Row>)
    requires |rows| >= 1
    ensures TextsOf(rows) == [Texts(rows[0])] + TextsOf(rows[1..])
  {
    var r := [Texts(rows[0])] + TextsOf(rows[1..]);
    forall i | 0 <= i < |rows|
      ensures r[i] == TextsOf(rows)[i]
    {
      if i > 0 {
        assert r[i] == TextsOf(rows[1..])[i - 1];
      }
    }
  }

  /** Round trip: the text written for non-empty rows reads back as exactly those rows' field texts. */
  lemma {:induction false} ReadRenderedRows(rows: seq<Row>)
    requires forall i :: 0 <= i < |rows| ==> |rows[i]| >= 1
    ensures ReadRecords(RenderRows(rows)) == Some(TextsOf(rows))
  {
    if rows != [] {
      var s := RenderRows(rows);
      assert s == RenderRow(rows[0]) + RenderRows(rows[1..]);
      ReadRenderedRow(rows[0], RenderRows(rows[1..]));
      ReadRenderedRows(rows[1..]);
      TextsOfCons(rows);
    }
  }
}
