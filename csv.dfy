/** The dashboard's CSV lexer: one pass over the text with a quote flag,
    the field being read and the row being built. */
module Csv {

  type Row = seq<string>

  /** What the lexer carries from one character to the next. */
  datatype LexState = LexState(cur: string, inQuotes: bool, row: Row, rows: seq<Row>)

  const Start: LexState := LexState("", false, [], [])

  predicate NoEmptyRow(rows: seq<Row>) {
    forall k :: 0 <= k < |rows| ==> |rows[k]| > 0
  }

  /** End of input: the field is kept when it is non-empty or a quote is
      still open, and the row is kept when it has a field. */
  function Flush(st: LexState): seq<Row> {
    var row := if |st.cur| > 0 || st.inQuotes then st.row + [st.cur] else st.row;
    if |row| > 0 then st.rows + [row] else st.rows
  }

  /** The lexer run on the rest `s` of the text from state `st`; it only
      ever appends to the rows already closed. */
  function Lex(s: string, st: LexState): (rows: seq<Row>)
    ensures |st.rows| <= |rows| && rows[..|st.rows|] == st.rows
    ensures NoEmptyRow(st.rows) ==> NoEmptyRow(rows)
    decreases |s|
  {
    if s == [] then Flush(st)
    else if s[0] == '"' then
      if st.inQuotes && |s| > 1 && s[1] == '"' then Lex(s[2..], st.(cur := st.cur + "\""))
      else Lex(s[1..], st.(inQuotes := !st.inQuotes))
    else if !st.inQuotes && (s[0] == ',' || s[0] == '\n' || s[0] == '\r') then
      var row := st.row + [st.cur];
      if s[0] == '\n' then Lex(s[1..], LexState("", false, [], st.rows + [row]))
      else if s[0] == '\r' && |s| > 1 && s[1] == '\n' then Lex(s[2..], LexState("", false, [], st.rows + [row]))
      else Lex(s[1..], st.(cur := "", row := row))
    else Lex(s[1..], st.(cur := st.cur + [s[0]]))
  }

  /** parseCSV as a function of the whole text. */
  function ParseCsv(text: string): (rows: seq<Row>)
    ensures NoEmptyRow(rows)
    ensures text == [] ==> rows == []
  {
    Lex(text, Start)
  }

  /** parseCSV: the character loop of the source, proved to compute ParseCsv. */
  method Parse(text: string) returns (rows: seq<Row>)
    ensures rows == ParseCsv(text)
    ensures NoEmptyRow(rows)
  {
    rows := [];
    var i, cur, inQuotes := 0, "", false;
    var curRow: Row := [];
    while i < |text|
      invariant 0 <= i <= |text|
      invariant Lex(text[i..], LexState(cur, inQuotes, curRow, rows)) == ParseCsv(text)
      decreases |text| - i
    {
      var ch := text[i];
      if ch == '"' {
        if inQuotes && i + 1 < |text| && text[i + 1] == '"' {
          assert text[i..][2..] == text[i + 2..];
          cur := cur + "\"";
          i := i + 2;
          continue;
        }
        assert text[i..][1..] == text[i + 1..];
        inQuotes := !inQuotes;
        i := i + 1;
        continue;
      }
      if !inQuotes && (ch == ',' || ch == '\n' || ch == '\r') {
        assert text[i..][1..] == text[i + 1..];
        curRow := curRow + [cur];
        cur := "";
        if ch == '\n' {
          rows := rows + [curRow];
          curRow := [];
        }
        i := i + 1;
        if ch == '\r' && i < |text| && text[i] == '\n' {
          assert text[i - 1..][2..] == text[i + 1..];
          i := i + 1;
          rows := rows + [curRow];
          curRow := [];
        }
        continue;
      }
      assert text[i..][1..] == text[i + 1..];
      cur := cur + [ch];
      i := i + 1;
    }
    if |cur| > 0 || inQuotes {
      curRow := curRow + [cur];
    }
    if |curRow| > 0 {
      rows := rows + [curRow];
    }
  }

  // ---------------------------------------------------------------------
  // Round trip: quote every field, join with ',' and end each row with '\n'.

  /** A field's characters with every '"' doubled. */
  function Escape(f: string): string {
    if f == [] then [] else (if f[0] == '"' then "\"\"" else [f[0]]) + Escape(f[1..])
  }

  function Quote(f: string): string {
    "\"" + Escape(f) + "\""
  }

  /** One row written as quoted fields separated by ',' and ended by '\n'. */
  function EncodeRow(fields: Row): string
    requires |fields| > 0
  {
    if |fields| == 1 then Quote(fields[0]) + "\n"
    else Quote(fields[0]) + "," + EncodeRow(fields[1..])
  }

  function EncodeTable(table: seq<Row>): string
    requires NoEmptyRow(table)
  {
    if table == [] then [] else EncodeRow(table[0]) + EncodeTable(table[1..])
  }

  /** Inside quotes an escaped field is read back character for character,
      whatever follows it. */
  lemma {:induction false} EscapedBody(f: string, rest: string, st: LexState)
    requires st.inQuotes
    ensures Lex(Escape(f) + rest, st) == Lex(rest, st.(cur := st.cur + f))
    decreases |f|
  {
    var s := Escape(f) + rest;
    if f == [] {
      assert s == rest && st.cur + f == st.cur;
    } else if f[0] == '"' {
      assert s == "\"\"" + (Escape(f[1..]) + rest);
      assert s[2..] == Escape(f[1..]) + rest;
      EscapedBody(f[1..], rest, st.(cur := st.cur + "\""));
      assert st.cur + "\"" + f[1..] == st.cur + f;
    } else {
      assert s == [f[0]] + (Escape(f[1..]) + rest);
      assert s[1..] == Escape(f[1..]) + rest;
      EscapedBody(f[1..], rest, st.(cur := st.cur + [f[0]]));
      assert st.cur + [f[0]] + f[1..] == st.cur + f;
    }
  }

  /** A quoted field followed by a delimiter leaves the field's text in `cur`
      and the quote flag closed. */
  lemma QuotedField(f: string, c: char, rest: string, st: LexState)
    requires !st.inQuotes && st.cur == ""
    requires c == ',' || c == '\n'
    ensures Lex(Quote(f) + [c] + rest, st) == Lex([c] + rest, st.(cur := f))
  {
    var open := st.(inQuotes := true);
    var tail := "\"" + ([c] + rest);
    assert Quote(f) + [c] + rest == "\"" + (Escape(f) + tail);
    OpenQuote(Escape(f) + tail, st);
    EscapedBody(f, tail, open);
    CloseQuote(c, rest, open.(cur := open.cur + f));
    assert open.(cur := open.cur + f).(inQuotes := false) == st.(cur := f);
  }

  /** An opening quote outside quotes only sets the flag. */
  lemma OpenQuote(t: string, st: LexState)
    requires !st.inQuotes
    ensures Lex("\"" + t, st) == Lex(t, st.(inQuotes := true))
  {
    assert ("\"" + t)[1..] == t;
  }

  /** A closing quote not followed by another quote only clears the flag. */
  lemma CloseQuote(c: char, rest: string, st: LexState)
    requires st.inQuotes && c != '"'
    ensures Lex("\"" + ([c] + rest), st) == Lex([c] + rest, st.(inQuotes := false))
  {
    var s := "\"" + ([c] + rest);
    assert s[1] == c && s[1..] == [c] + rest;
  }


  /** An encoded row closes exactly one row holding the original fields. */
  lemma {:induction false} RowRoundTrip(fields: Row, rest: string, row: Row, rows: seq<Row>)
    requires |fields| > 0
    ensures Lex(EncodeRow(fields) + rest, LexState("", false, row, rows))
         == Lex(rest, LexState("", false, [], rows + [row + fields]))
    decreases |fields|
  {
    var st := LexState("", false, row, rows);
    if |fields| == 1 {
      assert EncodeRow(fields) + rest == Quote(fields[0]) + ['\n'] + rest;
      QuotedField(fields[0], '\n', rest, st);
      assert (['\n'] + rest)[1..] == rest;
      assert row + [fields[0]] == row + fields;
    } else {
      var more := EncodeRow(fields[1..]) + rest;
      assert EncodeRow(fields) + rest == Quote(fields[0]) + [','] + more;
      QuotedField(fields[0], ',', more, st);
      assert ([','] + more)[1..] == more;
      RowRoundTrip(fields[1..], rest, row + [fields[0]], rows);
      assert row + [fields[0]] + fields[1..] == row + fields;
    }
  }

  lemma {:induction false} TableRoundTrip(table: seq<Row>, rows: seq<Row>)
    requires NoEmptyRow(table)
    ensures Lex(EncodeTable(table), LexState("", false, [], rows)) == rows + table
    decreases |table|
  {
    if table == [] {
      assert rows + table == rows;
    } else {
      RowRoundTrip(table[0], EncodeTable(table[1..]), [], rows);
      assert [] + table[0] == table[0];
      TableRoundTrip(table[1..], rows + [table[0]]);
      assert rows + [table[0]] + table[1..] == rows + table;
    }
  }

  /** Parsing a table written with every field quoted gives the table back. */
  lemma ParseEncodedTable(table: seq<Row>)
    requires NoEmptyRow(table)
    ensures ParseCsv(EncodeTable(table)) == table
  {
    TableRoundTrip(table, []);
  }

  /** The single-row form: quoting each field, joining with ',' and ending
      with '\n' parses back to exactly that one row. */
  lemma ParseEncodedRow(fields: Row)
    requires |fields| > 0
    ensures ParseCsv(EncodeRow(fields)) == [fields]
  {
    RowRoundTrip(fields, [], [], []);
    assert EncodeRow(fields) + [] == EncodeRow(fields);
    assert [] + fields == fields;
  }

  /** A quote left open at the end of the text still yields its field, even
      an empty one. */
  lemma UnterminatedQuote(f: string)
    ensures ParseCsv("\"" + Escape(f)) == [[f]]
  {
    var s := "\"" + Escape(f);
    assert s[1..] == Escape(f) + [];
    var open := Start.(inQuotes := true);
    assert s[0] == '"';
    assert Lex(s, Start) == Lex(s[1..], open);
    EscapedBody(f, [], open);
    assert open.(cur := open.cur + f) == LexState(f, true, [], []);
    assert [] + [f] == [f];
    assert [] + [[f]] == [[f]];
  }
  /** Wherever it starts, after any rows and fields already read, a quote
      left open at the end of the text still flushes its field, even an
      empty one, and closes the row it belongs to. */
  lemma UnterminatedQuoteAnywhere(f: string, row: Row, rows: seq<Row>)
    ensures Lex("\"" + Escape(f), LexState("", false, row, rows)) == rows + [row + [f]]
  {
    var s := "\"" + Escape(f);
    assert s[1..] == Escape(f) + [];
    var open := LexState("", true, row, rows);
    assert s[0] == '"';
    assert Lex(s, LexState("", false, row, rows)) == Lex(s[1..], open);
    EscapedBody(f, [], open);
    assert open.(cur := open.cur + f) == LexState(f, true, row, rows);
  }

}

module CsvLines {
  import opened Csv

  // ---------------------------------------------------------------------
  // Text without any '"': an independent description by line splitting.

  /** A bare '\r' ends a field just as ',' does. */
  predicate IsFieldBreak(c: char) {
    c == ',' || c == '\r'
  }

  /** Split on ',' and '\r'; always at least one field. */
  function SplitFields(s: string): (r: Row)
    ensures |r| >= 1
  {
    if s == [] then [""]
    else if IsFieldBreak(s[0]) then [""] + SplitFields(s[1..])
    else
      var t := SplitFields(s[1..]);
      [[s[0]] + t[0]] + t[1..]
  }

  /** The fields of a line ended by '\n'; a '\r' just before the '\n' is
      part of the line end, not a field break. */
  function LineFields(line: string): Row {
    if line != [] && line[|line| - 1] == '\r' then SplitFields(line[..|line| - 1])
    else SplitFields(line)
  }

  /** The fields after the last '\n': an empty final field is not kept. */
  function LastFields(segment: string): Row {
    var f := SplitFields(segment);
    if f[|f| - 1] == "" then f[..|f| - 1] else f
  }

  function FirstNewline(s: string): (k: nat)
    requires '\n' in s
    ensures k < |s| && s[k] == '\n' && '\n' !in s[..k]
  {
    if s[0] == '\n' then 0
    else
      assert '\n' in s[1..];
      var k := 1 + FirstNewline(s[1..]);
      assert s[..k] == [s[0]] + s[1..][..k - 1];
      k
  }

  /** Rows of a quote-free text: one per '\n'-terminated line, plus the text
      after the last '\n' when it holds a field. */
  function PlainRows(text: string): seq<Row>
    decreases |text|
  {
    if '\n' in text then
      var k := FirstNewline(text);
      [LineFields(text[..k])] + PlainRows(text[k + 1..])
    else if LastFields(text) == [] then []
    else [LastFields(text)]
  }

  /** The field being read, completed by the rest of a line. */
  function Continue(cur: string, l: string): (f: Row)
    ensures |f| >= 1
  {
    var sp := SplitFields(l);
    [cur + sp[0]] + sp[1..]
  }

  lemma ContinueEmpty(l: string)
    ensures Continue("", l) == SplitFields(l)
  {
    var sp := SplitFields(l);
    assert "" + sp[0] == sp[0];
    assert [sp[0]] + sp[1..] == sp;
  }

  /** One step of the lexer on a field break outside quotes. */
  lemma LexBreak(s: string, st: LexState)
    requires s != [] && IsFieldBreak(s[0]) && !st.inQuotes
    requires s[0] == '\r' ==> |s| == 1 || s[1] != '\n'
    ensures Lex(s, st) == Lex(s[1..], st.(cur := "", row := st.row + [st.cur]))
  {
  }

  /** One step of the lexer on an ordinary character outside quotes. */
  lemma LexOrdinary(s: string, st: LexState)
    requires s != [] && !IsFieldBreak(s[0]) && s[0] != '"' && s[0] != '\n' && !st.inQuotes
    ensures Lex(s, st) == Lex(s[1..], st.(cur := st.cur + [s[0]]))
  {
  }

  /** Lexing a quote-free piece `l` of a line, whatever text `t` follows:
      the fields of `l` are closed except the last, which is left in `cur`. */
  lemma {:induction false} PlainSegment(l: string, t: string, cur: string, row: Row, rows: seq<Row>)
    requires '"' !in l && '\n' !in l
    requires l != [] && l[|l| - 1] == '\r' ==> t == [] || t[0] != '\n'
    ensures var f := Continue(cur, l);
      Lex(l + t, LexState(cur, false, row, rows)) == Lex(t, LexState(f[|f| - 1], false, row + f[..|f| - 1], rows))
    decreases |l|, 1
  {
    if l == [] {
      assert l + t == t;
      assert cur + "" == cur && [""][1..] == [];
      assert Continue(cur, l) == [cur];
      assert row + [] == row;
    } else if IsFieldBreak(l[0]) {
      PlainSegmentBreak(l, t, cur, row, rows);
    } else {
      PlainSegmentOrdinary(l, t, cur, row, rows);
    }
  }

  lemma {:induction false} PlainSegmentBreak(l: string, t: string, cur: string, row: Row, rows: seq<Row>)
    requires '"' !in l && '\n' !in l && l != [] && IsFieldBreak(l[0])
    requires l[|l| - 1] == '\r' ==> t == [] || t[0] != '\n'
    ensures var f := Continue(cur, l);
      Lex(l + t, LexState(cur, false, row, rows)) == Lex(t, LexState(f[|f| - 1], false, row + f[..|f| - 1], rows))
    decreases |l|, 0
  {
    BreakStep(l, t, cur, row, rows);
    assert '"' !in l[1..] && '\n' !in l[1..];
    PlainSegment(l[1..], t, "", row + [cur], rows);
    var f' := Continue("", l[1..]);
    ContinueBreak(cur, l);
    ClosedFields(cur, f', row);
    var f := Continue(cur, l);
    assert f[|f| - 1] == f'[|f'| - 1] && row + f[..|f| - 1] == row + [cur] + f'[..|f'| - 1];
  }

  /** The lexer's step over the field break that starts `l`. */
  lemma BreakStep(l: string, t: string, cur: string, row: Row, rows: seq<Row>)
    requires '\n' !in l && l != [] && IsFieldBreak(l[0])
    requires l[|l| - 1] == '\r' ==> t == [] || t[0] != '\n'
    ensures Lex(l + t, LexState(cur, false, row, rows)) == Lex(l[1..] + t, LexState("", false, row + [cur], rows))
  {
    var s := l + t;
    assert s[0] == l[0] && s[1..] == l[1..] + t;
    assert |l| > 1 ==> s[1] == l[1] && l[1] in l;
    LexBreak(s, LexState(cur, false, row, rows));
  }

  /** A field break closes the field being read. */
  lemma ContinueBreak(cur: string, l: string)
    requires l != [] && IsFieldBreak(l[0])
    ensures Continue(cur, l) == [cur] + Continue("", l[1..])
  {
    ContinueEmpty(l[1..]);
    assert SplitFields(l) == [""] + SplitFields(l[1..]);
    assert cur + "" == cur;
  }

  lemma ClosedFields(cur: string, f: Row, row: Row)
    requires |f| >= 1
    ensures var g := [cur] + f;
      g[|g| - 1] == f[|f| - 1] && row + [cur] + f[..|f| - 1] == row + g[..|g| - 1]
  {
    var g := [cur] + f;
    assert g[..|g| - 1] == [cur] + f[..|f| - 1];
  }

  lemma {:induction false} PlainSegmentOrdinary(l: string, t: string, cur: string, row: Row, rows: seq<Row>)
    requires '"' !in l && '\n' !in l && l != [] && !IsFieldBreak(l[0])
    requires l[|l| - 1] == '\r' ==> t == [] || t[0] != '\n'
    ensures var f := Continue(cur, l);
      Lex(l + t, LexState(cur, false, row, rows)) == Lex(t, LexState(f[|f| - 1], false, row + f[..|f| - 1], rows))
    decreases |l|, 0
  {
    var s := l + t;
    assert s[0] == l[0] && s[1..] == l[1..] + t;
    assert '"' !in l[1..] && '\n' !in l[1..];
    assert l[0] in l;
    LexOrdinary(s, LexState(cur, false, row, rows));
    PlainSegment(l[1..], t, cur + [l[0]], row, rows);
    var sp := SplitFields(l[1..]);
    assert SplitFields(l) == [[l[0]] + sp[0]] + sp[1..];
    assert cur + ([l[0]] + sp[0]) == (cur + [l[0]]) + sp[0];
    assert Continue(cur, l) == Continue(cur + [l[0]], l[1..]);
  }

  /** A quote-free line ended by '\n' (or '\r\n') closes exactly one row. */
  lemma PlainLine(l: string, rest: string, rows: seq<Row>)
    requires '"' !in l && '\n' !in l
    ensures Lex(l + "\n" + rest, LexState("", false, [], rows))
         == Lex(rest, LexState("", false, [], rows + [LineFields(l)]))
  {
    if l != [] && l[|l| - 1] == '\r' {
      PlainCrLfLine(l[..|l| - 1], rest, rows);
      assert l[..|l| - 1] + "\r\n" + rest == l + "\n" + rest;
    } else {
      PlainLfLine(l, rest, rows);
    }
  }

  lemma PlainLfLine(l: string, rest: string, rows: seq<Row>)
    requires '"' !in l && '\n' !in l
    requires l == [] || l[|l| - 1] != '\r'
    ensures Lex(l + "\n" + rest, LexState("", false, [], rows))
         == Lex(rest, LexState("", false, [], rows + [SplitFields(l)]))
  {
    var s := "\n" + rest;
    assert l + "\n" + rest == l + s;
    PlainSegment(l, s, "", [], rows);
    var f := Continue("", l);
    ContinueEmpty(l);
    assert s[0] == '\n' && s[1..] == rest;
    assert [] + f[..|f| - 1] + [f[|f| - 1]] == f;
    assert Lex(s, LexState(f[|f| - 1], false, [] + f[..|f| - 1], rows))
        == Lex(rest, LexState("", false, [], rows + [f]));
  }

  lemma PlainCrLfLine(body: string, rest: string, rows: seq<Row>)
    requires '"' !in body && '\n' !in body
    ensures Lex(body + "\r\n" + rest, LexState("", false, [], rows))
         == Lex(rest, LexState("", false, [], rows + [SplitFields(body)]))
  {
    var s := "\r\n" + rest;
    assert body + "\r\n" + rest == body + s;
    PlainSegment(body, s, "", [], rows);
    var f := Continue("", body);
    ContinueEmpty(body);
    assert s[0] == '\r' && s[1] == '\n' && s[2..] == rest;
    assert [] + f[..|f| - 1] + [f[|f| - 1]] == f;
    assert Lex(s, LexState(f[|f| - 1], false, [] + f[..|f| - 1], rows))
        == Lex(rest, LexState("", false, [], rows + [f]));
  }

  /** The text after the last line break: kept only if it has a field,
      and an empty final field is dropped. */
  lemma PlainLast(l: string, rows: seq<Row>)
    requires '"' !in l && '\n' !in l
    ensures Lex(l, LexState("", false, [], rows))
         == rows + (if LastFields(l) == [] then [] else [LastFields(l)])
  {
    PlainSegment(l, [], "", [], rows);
    assert l + [] == l;
    var f := Continue("", l);
    ContinueEmpty(l);
    assert [] + f[..|f| - 1] == f[..|f| - 1];
    assert f[..|f| - 1] + [f[|f| - 1]] == f;
  }

  lemma {:induction false} PlainText(text: string, rows: seq<Row>)
    requires '"' !in text
    ensures Lex(text, LexState("", false, [], rows)) == rows + PlainRows(text)
    decreases |text|
  {
    if '\n' in text {
      var k := FirstNewline(text);
      assert text == text[..k] + "\n" + text[k + 1..];
      assert '"' !in text[..k] && '"' !in text[k + 1..];
      PlainLine(text[..k], text[k + 1..], rows);
      PlainText(text[k + 1..], rows + [LineFields(text[..k])]);
      assert rows + [LineFields(text[..k])] + PlainRows(text[k + 1..]) == rows + PlainRows(text);
    } else {
      PlainLast(text, rows);
    }
  }

  /** For text without quotes, parseCSV is line splitting on '\n' (a '\r'
      right before it belonging to the line end) followed by field splitting
      on ',' and on any other '\r'. */
  lemma ParsePlainText(text: string)
    requires '"' !in text
    ensures ParseCsv(text) == PlainRows(text)
  {
    PlainText(text, []);
    assert [] + PlainRows(text) == PlainRows(text);
  }

  function NewlineCount(s: string): nat {
    multiset(s)['\n']
  }

  lemma NewlineCountSplit(text: string, k: nat)
    requires k < |text| && text[k] == '\n' && '\n' !in text[..k]
    ensures NewlineCount(text) == 1 + NewlineCount(text[k + 1..])
  {
    assert text == text[..k] + ([text[k]] + text[k + 1..]);
    assert multiset(text) == multiset(text[..k]) + multiset([text[k]]) + multiset(text[k + 1..]);
    assert multiset(text[..k])['\n'] == 0;
  }

  lemma {:induction false} PlainRowsCount(text: string)
    ensures NewlineCount(text) <= |PlainRows(text)| <= NewlineCount(text) + 1
    ensures |text| > 0 && text[|text| - 1] == '\n' ==> |PlainRows(text)| == NewlineCount(text)
    decreases |text|
  {
    if '\n' in text {
      var k := FirstNewline(text);
      var rest := text[k + 1..];
      NewlineCountSplit(text, k);
      PlainRowsCount(rest);
      assert |PlainRows(text)| == 1 + |PlainRows(rest)|;
      if rest == [] {
        assert SplitFields(rest) == [""];
        assert PlainRows(rest) == [];
        assert NewlineCount(rest) == 0;
      } else {
        assert text[|text| - 1] == rest[|rest| - 1];
      }
    } else {
      assert multiset(text)['\n'] == 0;
    }
  }

  /** Each unquoted '\n' (alone or after '\r') closes exactly one row: a
      quote-free text has as many rows as line feeds, plus at most one for
      text after the last line feed, and none when it ends with '\n'. */
  lemma PlainRowCount(text: string)
    requires '"' !in text
    ensures NewlineCount(text) <= |ParseCsv(text)| <= NewlineCount(text) + 1
    ensures |text| > 0 && text[|text| - 1] == '\n' ==> |ParseCsv(text)| == NewlineCount(text)
  {
    ParsePlainText(text);
    PlainRowsCount(text);
  }
}
