/** The admin report service's query and export helpers: the date filter and
    the grouping clause spliced into the report queries, and the CSV export.

    A missing date is `""`, which is also how JavaScript's truthiness treats
    it. A report row is a JavaScript object: its properties in insertion order,
    each holding a string, an integer, `null` or `undefined` (both `Missing`,
    which `join` renders as the empty field), or some other value given by the
    text `String(value)` renders it as. */
module Reports {
  import Seqs

  // ---------------------------------------------------------------------------
  // Date filter

  datatype DateFilter = DateFilter(where: string, params: seq<string>)

  /** The pieces of the three `WHERE` clauses, each followed by a placeholder. */
  const FROM_CLAUSE := "WHERE created_at >= "
  const UNTIL_CLAUSE := "WHERE created_at <= "
  const AND_UNTIL := " AND created_at <= "

  /** `buildDateFilter`: a `WHERE` clause bounding `created_at` by the dates
      that are given, with one `?` placeholder per bound, in the order of the
      parameters. */
  function BuildDateFilter(startDate: string, endDate: string): (r: DateFilter)
    ensures Seqs.Count(r.where, '?') == |r.params|
    ensures r.params == (if startDate != "" then [startDate] else []) + (if endDate != "" then [endDate] else [])
    ensures r.where == "" <==> startDate == "" && endDate == ""
    ensures r.where != "" ==> Seqs.IsPrefix("WHERE created_at ", r.where)
  {
    if startDate != "" && endDate != "" then
      TwoPlaceholders(FROM_CLAUSE, AND_UNTIL);
      DateFilter(FROM_CLAUSE + "?" + AND_UNTIL + "?", [startDate, endDate])
    else if startDate != "" then
      OnePlaceholder(FROM_CLAUSE);
      DateFilter(FROM_CLAUSE + "?", [startDate])
    else if endDate != "" then
      OnePlaceholder(UNTIL_CLAUSE);
      DateFilter(UNTIL_CLAUSE + "?", [endDate])
    else DateFilter("", [])
  }

  lemma OnePlaceholder(text: string)
    requires '?' !in text
    ensures Seqs.Count(text + "?", '?') == 1
  {
    Seqs.CountNotIn(text, '?');
    Seqs.CountAppend(text, "?", '?');
  }

  lemma TwoPlaceholders(first: string, second: string)
    requires '?' !in first && '?' !in second
    ensures Seqs.Count(first + "?" + second + "?", '?') == 2
  {
    OnePlaceholder(first);
    OnePlaceholder(second);
    Seqs.CountAppend(first + "?", second + "?", '?');
    assert first + "?" + second + "?" == (first + "?") + (second + "?");
  }

  // ---------------------------------------------------------------------------
  // Grouping

  datatype GroupClause = GroupClause(select: string, group: string)

  /** The grouping clauses by the name of the period they bucket by. */
  const GROUPINGS: map<string, GroupClause> := map[
    "hour" := GroupClause("DATE_FORMAT(created_at, '%Y-%m-%d %H:00:00')", "DATE_FORMAT(created_at, '%Y-%m-%d %H')"),
    "day" := GroupClause("DATE(created_at)", "DATE(created_at)"),
    "week" := GroupClause("DATE_FORMAT(created_at, '%Y-%u')", "YEAR(created_at), WEEK(created_at)"),
    "month" := GroupClause("DATE_FORMAT(created_at, '%Y-%m')", "YEAR(created_at), MONTH(created_at)")
  ]

  /** `buildGroupByClause`: the clause for an hour, day, week or month, and the
      day clause for anything else. */
  function BuildGroupByClause(groupBy: string): (r: GroupClause)
    ensures groupBy in GROUPINGS ==> r == GROUPINGS[groupBy]
    ensures groupBy !in GROUPINGS ==> r == GROUPINGS["day"]
  {
    match groupBy
    case "hour" => GroupClause("DATE_FORMAT(created_at, '%Y-%m-%d %H:00:00')", "DATE_FORMAT(created_at, '%Y-%m-%d %H')")
    case "day" => GroupClause("DATE(created_at)", "DATE(created_at)")
    case "week" => GroupClause("DATE_FORMAT(created_at, '%Y-%u')", "YEAR(created_at), WEEK(created_at)")
    case "month" => GroupClause("DATE_FORMAT(created_at, '%Y-%m')", "YEAR(created_at), MONTH(created_at)")
    case _ => GroupClause("DATE(created_at)", "DATE(created_at)")
  }

  /** The four granularities group differently: the grouping a report used
      can be read back from its clause. */
  lemma GroupingsAreDistinct(a: string, b: string)
    requires a in GROUPINGS && b in GROUPINGS && a != b
    ensures BuildGroupByClause(a) != BuildGroupByClause(b)
    ensures BuildGroupByClause(a).group != BuildGroupByClause(b).group
  {
  }

  /** Every request groups by one of the four granularities: an unsupported
      value is read as `"day"`. */
  lemma UnknownGroupingIsDay(groupBy: string)
    ensures BuildGroupByClause(groupBy) in GROUPINGS.Values
    ensures BuildGroupByClause(groupBy) == BuildGroupByClause(if groupBy in GROUPINGS then groupBy else "day")
  {
  }

  // ---------------------------------------------------------------------------
  // CSV export

  /** A property value: `Missing` is `null`, `undefined` or an absent property. */
  datatype Cell = Str(s: string) | Int(n: int) | Missing | Other(rendered: string)

  /** A report row: property names with their values, in insertion order. */
  type Row = seq<(string, Cell)>

  /** `convertToCSV`'s argument: an array of rows, or anything else. */
  datatype Data = Rows(rows: seq<Row>) | NotAnArray

  /** `Object.keys(row)`. */
  function Keys(row: Row): (ks: seq<string>)
    ensures |ks| == |row| && forall i :: 0 <= i < |row| ==> ks[i] == row[i].0
  {
    seq(|row|, i requires 0 <= i < |row| => row[i].0)
  }

  /** `row[key]`: `undefined` when the row has no such property. */
  function Get(row: Row, key: string): (c: Cell)
    ensures c.Missing? || exists i :: 0 <= i < |row| && row[i] == (key, c)
  {
    if |row| == 0 then Missing
    else if row[0].0 == key then row[0].1
    else
      var c := Get(row[1..], key);
      assert c.Missing? || exists i :: 1 <= i < |row| && row[i] == (key, c) by {
        if !c.Missing? {
          var j :| 0 <= j < |row[1..]| && row[1..][j] == (key, c);
          assert row[j + 1] == (key, c);
        }
      }
      c
  }

  /** A string value needs quoting when it holds a comma or a double quote. */
  predicate NeedsQuoting(s: string) {
    ',' in s || '"' in s
  }

  /** Every double quote doubled (`replace(/"/g, '""')`). */
  function Escape(s: string): (r: string)
    ensures forall c :: c != '"' ==> (c in r <==> c in s)
  {
    if |s| == 0 then ""
    else (if s[0] == '"' then "\"\"" else [s[0]]) + Escape(s[1..])
  }

  /** A cell as it appears in a line: a string that needs it wrapped in quotes
      with its quotes doubled, any other string as it is, an integer in
      decimal, a missing value as nothing. */
  function Field(c: Cell): (f: string)
    ensures c.Str? && NeedsQuoting(c.s) ==> f == "\"" + Escape(c.s) + "\""
    ensures c.Str? && !NeedsQuoting(c.s) ==> f == c.s
    ensures c.Missing? ==> f == ""
  {
    match c
    case Str(s) => if NeedsQuoting(s) then "\"" + Escape(s) + "\"" else s
    case Int(n) => Seqs.IntText(n)
    case Missing => ""
    case Other(text) => text
  }

  /** The line of one row: its values under the given headers, comma-separated. */
  function Line(row: Row, headers: seq<string>): string {
    Seqs.Join(seq(|headers|, i requires 0 <= i < |headers| => Field(Get(row, headers[i]))), ",")
  }

  /** `convertToCSV`: nothing for an empty array or a non-array; otherwise the
      first row's property names as the header line, then one line per row,
      joined with newlines. */
  function ConvertToCsv(data: Data): (r: string)
    ensures data.NotAnArray? || |data.rows| == 0 ==> r == ""
    ensures data.Rows? && |data.rows| > 0 ==>
              var header := Seqs.Join(Keys(data.rows[0]), ",");
              |r| > |header| && r[..|header|] == header && r[|header|] == '\n'
  {
    if data.NotAnArray? || |data.rows| == 0 then ""
    else
      var headers := Keys(data.rows[0]);
      var lines := seq(|data.rows|, i requires 0 <= i < |data.rows| => Line(data.rows[i], headers));
      var all := [Seqs.Join(headers, ",")] + lines;
      assert all[1..] == lines;
      Seqs.Join(all, "\n")
  }

  // ----- properties of the export -----

  /** Collapse each doubled quote back into one, the reading side of `Escape`. */
  function Unescape(s: string): string {
    if |s| == 0 then ""
    else if |s| >= 2 && s[0] == '"' && s[1] == '"' then "\"" + Unescape(s[2..])
    else [s[0]] + Unescape(s[1..])
  }

  /** How a CSV reader takes a field back: a quoted field loses its quotes and
      has its doubled quotes collapsed; any other field is read as it is. */
  function ReadField(f: string): string {
    if |f| >= 2 && f[0] == '"' && f[|f| - 1] == '"' then Unescape(f[1..|f| - 1]) else f
  }

  lemma {:induction false} UnescapeEscape(s: string)
    ensures Unescape(Escape(s)) == s
  {
    if |s| > 0 {
      UnescapeEscape(s[1..]);
      if s[0] == '"' {
        assert Escape(s) == "\"\"" + Escape(s[1..]);
        assert Escape(s)[2..] == Escape(s[1..]);
      } else {
        assert Escape(s) == [s[0]] + Escape(s[1..]);
        assert Escape(s)[1..] == Escape(s[1..]);
      }
    }
  }

  /** Every string value survives the export: reading its field back gives
      the value, whether or not it was quoted. */
  lemma StringFieldsReadBack(s: string)
    ensures ReadField(Field(Str(s))) == s
  {
    if NeedsQuoting(s) {
      var f := "\"" + Escape(s) + "\"";
      assert f[1..|f| - 1] == Escape(s);
      UnescapeEscape(s);
    }
  }

  /** No field of a cell holds a newline unless its value does. */
  lemma FieldNewlineFree(c: Cell)
    requires c.Str? ==> '\n' !in c.s
    requires c.Other? ==> '\n' !in c.rendered
    ensures '\n' !in Field(c)
  {
  }

  /** A cell whose text holds no newline. */
  predicate NewlineFree(c: Cell) {
    match c
    case Str(s) => '\n' !in s
    case Other(text) => '\n' !in text
    case _ => true
  }

  lemma {:induction false} LineNewlineFree(row: Row, headers: seq<string>)
    requires forall i :: 0 <= i < |row| ==> NewlineFree(row[i].1)
    ensures '\n' !in Line(row, headers)
  {
    var fields := seq(|headers|, i requires 0 <= i < |headers| => Field(Get(row, headers[i])));
    forall i | 0 <= i < |headers|
      ensures '\n' !in fields[i]
    {
      var c := Get(row, headers[i]);
      if !c.Missing? {
        var j :| 0 <= j < |row| && row[j] == (headers[i], c);
        assert NewlineFree(row[j].1);
      }
      FieldNewlineFree(c);
    }
    Seqs.JoinAvoids(fields, ",", '\n');
  }

  /** With no newline in any property name or value, the export has exactly
      one line for the header and one per row. */
  lemma {:induction false} OneLinePerRow(rows: seq<Row>)
    requires |rows| > 0
    requires forall r, i :: 0 <= r < |rows| && 0 <= i < |rows[r]| ==> '\n' !in rows[r][i].0 && NewlineFree(rows[r][i].1)
    ensures Seqs.Count(ConvertToCsv(Rows(rows)), '\n') == |rows|
  {
    var headers := Keys(rows[0]);
    var lines := seq(|rows|, i requires 0 <= i < |rows| => Line(rows[i], headers));
    var all := [Seqs.Join(headers, ",")] + lines;
    assert ConvertToCsv(Rows(rows)) == Seqs.Join(all, "\n");
    Seqs.JoinAvoids(headers, ",", '\n');
    forall r | 0 <= r < |rows|
      ensures '\n' !in lines[r]
    {
      LineNewlineFree(rows[r], headers);
    }
    assert forall k :: 0 <= k < |all| ==> '\n' !in all[k] by {
      forall k | 0 <= k < |all|
        ensures '\n' !in all[k]
      {
        if k > 0 {
          assert all[k] == lines[k - 1];
        }
      }
    }
    Seqs.CountJoin(all, '\n');
  }

  /** A one-row export is the header line, a newline, and the row's line. */
  lemma SingleRowCsv(row: Row)
    ensures ConvertToCsv(Rows([row])) == Seqs.Join(Keys(row), ",") + "\n" + Line(row, Keys(row))
  {
    var headers := Keys(row);
    var lines := seq(1, i requires 0 <= i < 1 => Line([row][i], headers));
    assert lines == [Line(row, headers)];
    var all := [Seqs.Join(headers, ",")] + lines;
    assert all[1..] == lines;
    assert Seqs.Join(all[1..], "\n") == Line(row, headers);
    assert Seqs.Join(all, "\n") == Seqs.Join(headers, ",") + "\n" + Line(row, headers);
  }

  /** Newlines inside a value are written as they are, so such a value spreads
      its row over two lines: one row holding `"a\nb"` gives three lines. */
  lemma NewlinesAreNotEscaped()
    ensures Seqs.Count(ConvertToCsv(Rows([[("note", Str("a\nb"))]])), '\n') == 2
  {
    var row: Row := [("note", Str("a\nb"))];
    SingleRowCsv(row);
    NoteRowText(row);
    NoteLinesCount();
  }

  lemma NoteRowText(row: Row)
    requires row == [("note", Str("a\nb"))]
    ensures Seqs.Join(Keys(row), ",") == "note" && Line(row, Keys(row)) == "a\nb"
  {
    assert Keys(row) == ["note"];
    assert Field(Get(row, "note")) == "a\nb";
  }

  lemma NoteLinesCount()
    ensures Seqs.Count("note" + "\n" + "a\nb", '\n') == 2
  {
    Seqs.CountNotIn("note", '\n');
    Seqs.CountAppend("note", "\n", '\n');
    Seqs.CountAppend("note\n", "a\nb", '\n');
    Seqs.CountAppend("a", "\nb", '\n');
    Seqs.CountAppend("\n", "b", '\n');
    assert "note" + "\n" == "note\n" && "a" + "\nb" == "a\nb" && "\n" + "b" == "\nb";
  }
}
