/** The normalisation step of the dashboard's load(): the CSV text becomes
    a list of RspRecord values, one per non-empty data row. */
module Records {
  import opened Wrappers
  import opened Text
  import opened Csv
  import opened Price

  /** RspRecord: one price observation of the dataset. */
  datatype RspRecord = RspRecord(
    country: string,
    yearLabel: string,
    monthLabel: string,
    dateIso: string,
    product: string,
    city: string,
    price: real)

  /** The two errors load() reports: the fetch failed (response not ok, or
      the request itself threw), or the text has fewer than two rows. */
  datatype LoadError = FetchFailed | EmptyOrMalformed

  /** `row[i] ?? ''`: the cell, or the empty string past either end. */
  function Cell(row: Row, i: int): string {
    if 0 <= i < |row| then row[i] else ""
  }

  /** The row after `while (row.length < width) row.push('')`. */
  function Padded(row: Row, width: nat): (r: Row)
    ensures |r| == if |row| < width then width else |row|
    ensures r[..|row|] == row
    ensures forall k :: |row| <= k < |r| ==> r[k] == ""
    decreases width - |row|
  {
    if |row| < width then Padded(row + [""], width) else row
  }

  /** `header.map(h => h.trim())`. */
  function TrimAll(cells: Row): (r: Row)
    ensures |r| == |cells|
    ensures forall k :: 0 <= k < |r| ==> r[k] == Trim(cells[k])
  {
    seq(|cells|, k requires 0 <= k < |cells| => Trim(cells[k]))
  }

  predicate IsQuote(c: char) {
    c == '"' || c == '\''
  }

  /** `.replace(/["']/g, '')`: every double and single quote removed, all
      other characters kept in order. */
  function StripQuotes(s: string): (r: string)
    ensures |r| <= |s|
    ensures forall k :: 0 <= k < |r| ==> !IsQuote(r[k]) && r[k] in s
    ensures (forall k :: 0 <= k < |s| ==> !IsQuote(s[k])) ==> r == s
  {
    if s == [] then []
    else (if IsQuote(s[0]) then [] else [s[0]]) + StripQuotes(s[1..])
  }

  /** Stripping quotes works piece by piece: with the contract of
      StripQuotes this fixes every character of the result, so the
      characters other than quotes are kept, in order. */
  lemma {:induction false} StripQuotesAppend(a: string, b: string)
    ensures StripQuotes(a + b) == StripQuotes(a) + StripQuotes(b)
    decreases |a|
  {
    if a == [] {
      assert a + b == b;
    } else {
      var head := if IsQuote(a[0]) then [] else [a[0]];
      assert (a + b)[0] == a[0] && (a + b)[1..] == a[1..] + b;
      StripQuotesAppend(a[1..], b);
      assert StripQuotes(a + b) == head + (StripQuotes(a[1..]) + StripQuotes(b));
    }
  }

  /** A single character: a quote is dropped, anything else is kept. */
  lemma StripQuotesChar(c: char)
    ensures StripQuotes([c]) == if IsQuote(c) then [] else [c]
  {
    assert [c][1..] == [];
  }

  /** The year label: quotes stripped, then trimmed. */
  function YearLabelOf(cell: string): (r: string)
    ensures IsTrimmed(r)
    ensures forall k :: 0 <= k < |r| ==> !IsQuote(r[k])
  {
    var s := StripQuotes(cell);
    TrimKeepsQuoteFree(s);
    Trim(s)
  }

  lemma TrimKeepsQuoteFree(s: string)
    requires forall k :: 0 <= k < |s| ==> !IsQuote(s[k])
    ensures forall k :: 0 <= k < |Trim(s)| ==> !IsQuote(Trim(s)[k])
  {
    var r := Trim(s);
    var off := TrimOffset(s);
    TrimSlice(s);
    forall k | 0 <= k < |r| ensures !IsQuote(r[k]) {
      assert r[k] == s[off + k];
    }
  }

  /** The record built from a (padded) data row: text cells trimmed, the
      year label stripped of quotes, the price read from the price column. */
  function RecordOf(row: Row, priceIdx: int): RspRecord {
    RspRecord(
      Trim(Cell(row, 0)),
      YearLabelOf(Cell(row, 1)),
      Trim(Cell(row, 2)),
      Trim(Cell(row, 3)),
      Trim(Cell(row, 4)),
      Trim(Cell(row, 5)),
      ParsePrice(Cell(row, priceIdx)))
  }

  /** What every record looks like: text fields without surrounding white
      space, a year label without quotes and a price that is not negative. */
  predicate IsClean(rec: RspRecord) {
    IsTrimmed(rec.country) && IsTrimmed(rec.yearLabel) && IsTrimmed(rec.monthLabel)
    && IsTrimmed(rec.dateIso) && IsTrimmed(rec.product) && IsTrimmed(rec.city)
    && (forall k :: 0 <= k < |rec.yearLabel| ==> !IsQuote(rec.yearLabel[k]))
    && rec.price >= 0.0
  }

  lemma RecordOfClean(row: Row, priceIdx: int)
    ensures IsClean(RecordOf(row, priceIdx))
  {
  }

  /** Rows `lo` to `hi - 1` as the loop hands them on: empty rows skipped,
      every other row padded to the header's width. */
  function DataRows(rows: seq<Row>, lo: nat, hi: nat, width: nat): (d: seq<Row>)
    requires lo <= hi <= |rows|
    ensures |d| <= hi - lo
    decreases hi
  {
    if hi == lo then []
    else
      DataRows(rows, lo, hi - 1, width)
        + (if |rows[hi - 1]| == 0 then [] else [Padded(rows[hi - 1], width)])
  }

  /** One record per data row, in order. */
  function RecordsOf(data: seq<Row>, priceIdx: int): (recs: seq<RspRecord>)
    ensures |recs| == |data|
  {
    if data == [] then []
    else RecordsOf(data[..|data| - 1], priceIdx) + [RecordOf(data[|data| - 1], priceIdx)]
  }

  /** What load() leaves behind for the parsed rows of RSP.csv: an error for
      fewer than two rows, otherwise the records of the rows after the
      header, with the price column chosen from the trimmed header. */
  function Normalized(rows: seq<Row>): (r: Result<seq<RspRecord>, LoadError>)
    ensures r.Failure? <==> |rows| < 2
    ensures r.Failure? ==> r.error == EmptyOrMalformed
  {
    if |rows| < 2 then Failure(EmptyOrMalformed)
    else
      var header := TrimAll(rows[0]);
      Success(RecordsOf(DataRows(rows, 1, |rows|, |header|), PriceColumn(header)))
  }

  /** `while (row.length < width) row.push('')`: the row grows by empty
      cells up to `width` and keeps every cell it had. */
  method PadRow(row: Row, width: nat) returns (padded: Row)
    ensures padded == Padded(row, width)
    ensures |padded| >= width && padded[..|row|] == row
  {
    padded := row;
    while |padded| < width
      invariant |row| <= |padded|
      invariant |padded| <= width || padded == row
      invariant padded == Padded(row, |padded|)
    {
      padded := padded + [""];
    }
  }

  /** load(): `fetched` is the body of the response for RSP.csv, or None
      when the response was not ok or the request threw. The loop is the
      source's: skip empty rows, pad short rows in place, build a record. */
  method Load(fetched: Option<string>) returns (result: Result<seq<RspRecord>, LoadError>)
    ensures fetched.None? ==> result == Failure(FetchFailed)
    ensures fetched.Some? ==> result == Normalized(ParseCsv(fetched.value))
  {
    if fetched.None? {
      return Failure(FetchFailed);
    }
    var rows := Parse(fetched.value);
    if |rows| < 2 {
      return Failure(EmptyOrMalformed);
    }
    var header := TrimAll(rows[0]);
    var priceIdx := FindPriceIndex(header);
    var parsed: seq<RspRecord> := [];
    var rIdx := 1;
    while rIdx < |rows|
      invariant 1 <= rIdx <= |rows|
      invariant parsed == RecordsOf(DataRows(rows, 1, rIdx, |header|), priceIdx)
    {
      if |rows[rIdx]| > 0 {
        var row := PadRow(rows[rIdx], |header|);
        RecordsOfSnoc(DataRows(rows, 1, rIdx, |header|), row, priceIdx);
        parsed := parsed + [RecordOf(row, priceIdx)];
      }
      rIdx := rIdx + 1;
    }
    return Success(parsed);
  }

  // ---------------------------------------------------------------------
  // Properties of the normalisation

  /** Padding never changes a record: a missing cell and a pushed '' read
      the same. */
  lemma PaddingIrrelevant(row: Row, width: nat, priceIdx: int)
    ensures RecordOf(Padded(row, width), priceIdx) == RecordOf(row, priceIdx)
  {
    var p := Padded(row, width);
    PaddedCell(row, width, 0);
    PaddedCell(row, width, 1);
    PaddedCell(row, width, 2);
    PaddedCell(row, width, 3);
    PaddedCell(row, width, 4);
    PaddedCell(row, width, 5);
    PaddedCell(row, width, priceIdx);
  }

  lemma PaddedCell(row: Row, width: nat, i: int)
    ensures Cell(Padded(row, width), i) == Cell(row, i)
  {
    var p := Padded(row, width);
    if 0 <= i < |row| {
      assert p[..|row|][i] == row[i];
    }
  }

  lemma RecordsOfSnoc(data: seq<Row>, row: Row, priceIdx: int)
    ensures RecordsOf(data + [row], priceIdx) == RecordsOf(data, priceIdx) + [RecordOf(row, priceIdx)]
  {
    assert (data + [row])[..|data|] == data;
  }

  /** The k-th record is built from the k-th data row. */
  lemma {:induction false} RecordsOfAt(data: seq<Row>, priceIdx: int, k: nat)
    requires k < |data|
    ensures RecordsOf(data, priceIdx)[k] == RecordOf(data[k], priceIdx)
  {
    if k < |data| - 1 {
      RecordsOfAt(data[..|data| - 1], priceIdx, k);
    }
  }

  /** Without empty rows every row from `lo` to `hi - 1` is a data row,
      padded and in order. */
  lemma {:induction false} DataRowsAll(rows: seq<Row>, lo: nat, hi: nat, width: nat)
    requires lo <= hi <= |rows|
    requires forall j :: lo <= j < hi ==> |rows[j]| > 0
    ensures |DataRows(rows, lo, hi, width)| == hi - lo
    ensures forall k :: 0 <= k < hi - lo ==> DataRows(rows, lo, hi, width)[k] == Padded(rows[lo + k], width)
    decreases hi
  {
    if hi > lo {
      DataRowsAll(rows, lo, hi - 1, width);
    }
  }

  /** The records of a table without empty rows: one per row after the
      header, the k-th built from row k + 1 as it stands (padding changes
      nothing), with the price read from the first trimmed header cell that
      names a price, or from the last column when none does. */
  lemma LoadedRecords(rows: seq<Row>, k: nat)
    requires NoEmptyRow(rows) && |rows| >= 2
    requires k < |rows| - 1
    ensures |Normalized(rows).value| == |rows| - 1
    ensures Normalized(rows).value[k] == RecordOf(rows[k + 1], PriceColumn(TrimAll(rows[0])))
  {
    var header := TrimAll(rows[0]);
    DataRowsAll(rows, 1, |rows|, |header|);
    RecordsOfAt(DataRows(rows, 1, |rows|, |header|), PriceColumn(header), k);
    PaddingIrrelevant(rows[k + 1], |header|, PriceColumn(header));
  }

  /** Every row the parser returns after the header becomes a record. */
  lemma LoadedCount(text: string)
    requires |ParseCsv(text)| >= 2
    ensures |Normalized(ParseCsv(text)).value| == |ParseCsv(text)| - 1
  {
    LoadedRecords(ParseCsv(text), 0);
  }

  /** A table written out as CSV text loads into the records of the table
      itself, one per row after the header. */
  lemma LoadEncodedTable(table: seq<Row>)
    requires NoEmptyRow(table) && |table| >= 2
    ensures Normalized(ParseCsv(EncodeTable(table))) == Normalized(table)
    ensures |Normalized(ParseCsv(EncodeTable(table))).value| == |table| - 1
  {
    ParseEncodedTable(table);
    LoadedRecords(table, 0);
  }

  /** Every record load() produces is clean. */
  lemma LoadedRecordsClean(rows: seq<Row>)
    requires Normalized(rows).Success?
    ensures forall rec :: rec in Normalized(rows).value ==> IsClean(rec)
  {
    var header := TrimAll(rows[0]);
    var data := DataRows(rows, 1, |rows|, |header|);
    var recs := RecordsOf(data, PriceColumn(header));
    forall rec | rec in recs ensures IsClean(rec) {
      var k :| 0 <= k < |recs| && recs[k] == rec;
      RecordsOfAt(data, PriceColumn(header), k);
      RecordOfClean(data[k], PriceColumn(header));
    }
  }
}
