/** The choices the dashboard offers: the city and fuel lists, the year
    list of the current year mode, and the initial selections. */
module Options {
  import opened Wrappers
  import opened Text
  import opened Records
  import opened Periods

  /** Strictly ascending in the default order of Array.prototype.sort:
      sorted and without repeats. */
  predicate Ascending(s: seq<string>) {
    forall i, j :: 0 <= i < j < |s| ==> Below(s[i], s[j])
  }

  lemma AscendingDistinct(s: seq<string>, i: nat, j: nat)
    requires Ascending(s) && i < j < |s|
    ensures s[i] != s[j]
  {
    if s[i] == s[j] {
      BelowIrreflexive(s[i]);
    }
  }

  /** `x` added to an ascending list, which stays ascending. */
  function Insert(s: seq<string>, x: string): (r: seq<string>)
    requires Ascending(s)
    ensures Ascending(r)
    ensures forall y :: y in r <==> y in s || y == x
  {
    if s == [] then [x]
    else if s[0] == x then s
    else if Below(x, s[0]) then
      assert forall j :: 0 <= j < |s| ==> Below(x, s[j]) by {
        forall j | 0 <= j < |s| ensures Below(x, s[j]) {
          if j > 0 {
            BelowTransitive(x, s[0], s[j]);
          }
        }
      }
      [x] + s
    else
      BelowTotal(x, s[0]);
      var t := Insert(s[1..], x);
      assert forall y :: y in t ==> Below(s[0], y) by {
        forall y | y in t ensures Below(s[0], y) {
          if y != x {
            var j :| 0 <= j < |s[1..]| && s[1..][j] == y;
            assert s[j + 1] == y;
          }
        }
      }
      [s[0]] + t
  }

  /** `Array.from(new Set(xs)).sort()`: the distinct values of `xs` in
      ascending order. */
  function SortedSet(xs: seq<string>): (r: seq<string>)
    ensures Ascending(r)
    ensures forall y :: y in r <==> y in xs
  {
    if xs == [] then []
    else
      var init := xs[..|xs| - 1];
      assert xs == init + [xs[|xs| - 1]];
      Insert(SortedSet(init), xs[|xs| - 1])
  }

  /** An ascending list is fixed by its members: whatever order the values
      arrive in, the option list is the same. */
  lemma {:induction false} AscendingUnique(a: seq<string>, b: seq<string>)
    requires Ascending(a) && Ascending(b)
    requires forall y :: y in a <==> y in b
    ensures a == b
  {
    if a != [] && b != [] {
      assert a[0] in a && b[0] in b;
      if a[0] != b[0] {
        var i :| 0 <= i < |a| && a[i] == b[0];
        var j :| 0 <= j < |b| && b[j] == a[0];
        assert Below(a[0], a[i]) && Below(b[0], b[j]);
        BelowAsymmetric(a[0], b[0]);
        assert false;
      }
      forall y ensures y in a[1..] <==> y in b[1..] {
        OthersAfterFirst(a, y);
        OthersAfterFirst(b, y);
      }
      AscendingUnique(a[1..], b[1..]);
    } else {
      HeadIsMember(a);
      HeadIsMember(b);
    }
  }

  lemma HeadIsMember(a: seq<string>)
    ensures a != [] ==> a[0] in a
  {
  }

  lemma OthersAfterFirst(a: seq<string>, y: string)
    requires Ascending(a) && a != []
    ensures y in a[1..] <==> y in a && y != a[0]
  {
    if y in a[1..] {
      var j :| 0 <= j < |a[1..]| && a[1..][j] == y;
      AscendingDistinct(a, 0, j + 1);
    }
    if y in a && y != a[0] {
      var j :| 0 <= j < |a| && a[j] == y;
      assert a[1..][j - 1] == y;
    }
  }

  /** `.filter(Boolean)` on strings: the empty strings dropped. */
  function Present(xs: seq<string>): (r: seq<string>)
    ensures forall y :: y in r <==> y in xs && y != ""
  {
    if xs == [] then []
    else
      var init := xs[..|xs| - 1];
      var last := xs[|xs| - 1];
      assert xs == init + [last];
      Present(init) + (if last == "" then [] else [last])
  }

  function CityColumn(records: seq<RspRecord>): (cs: seq<string>)
    ensures |cs| == |records| && forall i :: 0 <= i < |records| ==> cs[i] == records[i].city
  {
    if records == [] then [] else CityColumn(records[..|records| - 1]) + [records[|records| - 1].city]
  }

  function ProductColumn(records: seq<RspRecord>): (ps: seq<string>)
    ensures |ps| == |records| && forall i :: 0 <= i < |records| ==> ps[i] == records[i].product
  {
    if records == [] then [] else ProductColumn(records[..|records| - 1]) + [records[|records| - 1].product]
  }

  /** The city list: every non-empty city of the records, once each, in
      ascending order. */
  function Cities(records: seq<RspRecord>): (r: seq<string>)
    ensures Ascending(r)
    ensures forall c :: c in r <==> c != "" && exists i :: 0 <= i < |records| && records[i].city == c
  {
    var cs := CityColumn(records);
    assert forall c :: c in cs <==> exists i :: 0 <= i < |records| && records[i].city == c by {
      forall c ensures c in cs <==> exists i :: 0 <= i < |records| && records[i].city == c {
        if c in cs {
          var i :| 0 <= i < |cs| && cs[i] == c;
          assert records[i].city == c;
        }
      }
    }
    SortedSet(Present(cs))
  }

  /** The fuel list: every non-empty product of the records, once each, in
      ascending order. */
  function Fuels(records: seq<RspRecord>): (r: seq<string>)
    ensures Ascending(r)
    ensures forall f :: f in r <==> f != "" && exists i :: 0 <= i < |records| && records[i].product == f
  {
    var ps := ProductColumn(records);
    assert forall f :: f in ps <==> exists i :: 0 <= i < |records| && records[i].product == f by {
      forall f ensures f in ps <==> exists i :: 0 <= i < |records| && records[i].product == f {
        if f in ps {
          var i :| 0 <= i < |ps| && ps[i] == f;
          assert records[i].product == f;
        }
      }
    }
    SortedSet(Present(ps))
  }

  lemma CityListed(records: seq<RspRecord>, i: nat)
    requires i < |records| && records[i].city != ""
    ensures records[i].city in Cities(records)
  {
  }

  /** The city selected after loading, `cities[0] ?? ''`: the first city in
      ascending order, or '' when no record names a city. */
  function DefaultCity(records: seq<RspRecord>): (c: string)
    ensures c == "" <==> forall i :: 0 <= i < |records| ==> records[i].city == ""
    ensures c != "" ==> c in Cities(records) && forall d :: d in Cities(records) && d != c ==> Below(c, d)
  {
    var cities := Cities(records);
    if cities == [] then
      assert forall i :: 0 <= i < |records| ==> records[i].city == "" by {
        forall i | 0 <= i < |records| ensures records[i].city == "" {
          if records[i].city != "" {
            CityListed(records, i);
          }
        }
      }
      ""
    else
      assert cities[0] in cities;
      assert forall d :: d in cities && d != cities[0] ==> Below(cities[0], d) by {
        forall d | d in cities && d != cities[0] ensures Below(cities[0], d) {
          var j :| 0 <= j < |cities| && cities[j] == d;
        }
      }
      cities[0]
  }

  /** `parsed.find(p => p.product)?.product`: the first non-empty product. */
  function FirstProduct(records: seq<RspRecord>): (r: Option<string>)
    ensures r.None? <==> forall i :: 0 <= i < |records| ==> records[i].product == ""
    ensures r.Some? ==> r.value != ""
    ensures r.Some? ==>
      exists i :: 0 <= i < |records| && records[i].product == r.value && (forall j :: 0 <= j < i ==> records[j].product == "")
  {
    if records == [] then None
    else if records[0].product != "" then Some(records[0].product)
    else
      var r := FirstProduct(records[1..]);
      assert forall i :: 1 <= i < |records| ==> records[i] == records[1..][i - 1];
      if r.Some? then
        var i :| 0 <= i < |records[1..]| && records[1..][i].product == r.value
          && (forall j :: 0 <= j < i ==> records[1..][j].product == "");
        assert records[i + 1].product == r.value;
        r
      else r
  }

  /** The fuel selected after loading: the product of the first record
      that has one, or "Petrol". */
  function DefaultFuel(records: seq<RspRecord>): (f: string)
    ensures f != ""
    ensures (forall i :: 0 <= i < |records| ==> records[i].product == "") ==> f == "Petrol"
    ensures (exists i :: 0 <= i < |records| && records[i].product != "") ==>
      exists i :: 0 <= i < |records| && records[i].product == f
        && (forall j :: 0 <= j < i ==> records[j].product == "")
  {
    match FirstProduct(records)
    case Some(p) => p
    case None => "Petrol"
  }

  // ---------------------------------------------------------------------
  // Years

  /** The year bucket of a record, or None when its dateISO is empty or
      names no day. */
  function RecordYearKey(r: RspRecord, mode: YearMode): Option<string> {
    if r.dateIso == "" then None
    else match ParseIsoDate(r.dateIso)
      case None => None
      case Some(d) => Some(YearKey(d, mode))
  }

  /** The years of the first `n` records are exactly the members of `seen`. */
  ghost predicate Collected(records: seq<RspRecord>, mode: YearMode, n: nat, seen: seq<string>)
    requires n <= |records|
  {
    forall y :: y in seen <==> exists i :: 0 <= i < n && RecordYearKey(records[i], mode) == Some(y)
  }

  lemma CollectNone(records: seq<RspRecord>, mode: YearMode, n: nat, seen: seq<string>)
    requires n < |records| && Collected(records, mode, n, seen)
    requires RecordYearKey(records[n], mode).None?
    ensures Collected(records, mode, n + 1, seen)
  {
  }

  lemma CollectKey(records: seq<RspRecord>, mode: YearMode, n: nat, seen: seq<string>, key: string)
    requires n < |records| && Collected(records, mode, n, seen)
    requires RecordYearKey(records[n], mode) == Some(key)
    ensures Collected(records, mode, n + 1, if key in seen then seen else seen + [key])
  {
    var next := if key in seen then seen else seen + [key];
    forall y ensures y in next <==> exists i :: 0 <= i < n + 1 && RecordYearKey(records[i], mode) == Some(y) {
      if y in next && y != key {
        assert y in seen;
      }
    }
  }

  lemma DatedRecordKey(r: RspRecord, mode: YearMode, d: Date)
    requires r.dateIso != "" && ParseIsoDate(r.dateIso) == Some(d)
    ensures RecordYearKey(r, mode) == Some(YearKey(d, mode))
  {
  }

  /** `years`: the buckets of all records, once each, in ascending order.
      The loop collects them in a list standing for the JavaScript Set. */
  method Years(records: seq<RspRecord>, mode: YearMode) returns (years: seq<string>)
    ensures Ascending(years)
    ensures forall y :: y in years <==>
      exists i :: 0 <= i < |records| && RecordYearKey(records[i], mode) == Some(y)
  {
    var seen: seq<string> := [];
    var k := 0;
    while k < |records|
      invariant 0 <= k <= |records|
      invariant Collected(records, mode, k, seen)
    {
      var r := records[k];
      var parsed := ParseIsoDate(r.dateIso);
      if r.dateIso == "" || parsed.None? {
        CollectNone(records, mode, k, seen);
      } else {
        var d := parsed.value;
        var key: string;
        if mode == Financial {
          var month := d.month;
          var fyStartYear := if month >= 4 then d.year else d.year - 1;
          key := ShowInt(fyStartYear) + "-" + ShowInt(fyStartYear + 1);
        } else {
          key := ShowInt(d.year);
        }
        assert key == YearKey(d, mode);
        DatedRecordKey(r, mode, d);
        CollectKey(records, mode, k, seen, key);
        if key !in seen {
          seen := seen + [key];
        }
      }
      k := k + 1;
    }
    years := SortedSet(seen);
  }

  /** A record whose dateISO is empty or names no day adds no year. */
  lemma UndatedRecordsAddNoYear(r: RspRecord, mode: YearMode)
    requires ParseIsoDate(r.dateIso).None?
    ensures RecordYearKey(r, mode).None?
  {
  }

  /** A record dated "2024-03-31" falls into financial year 2023-2024 and
      calendar year 2024. */
  lemma LastDayRecordKeys(r: RspRecord)
    requires r.dateIso == "2024-03-31"
    ensures RecordYearKey(r, Financial) == Some("2023-2024")
    ensures RecordYearKey(r, Calendar) == Some("2024")
  {
    March31Read();
    LastDayOfFinancialYear();
  }

  /** A record dated "2024-04-01" falls into financial year 2024-2025 and
      calendar year 2024. */
  lemma FirstDayRecordKeys(r: RspRecord)
    requires r.dateIso == "2024-04-01"
    ensures RecordYearKey(r, Financial) == Some("2024-2025")
    ensures RecordYearKey(r, Calendar) == Some("2024")
  {
    April1Read();
    FirstDayOfFinancialYear();
  }

  /** The year chosen once the list is known: a chosen year is kept, and
      with none chosen the earliest year is taken. */
  function InitialYear(years: seq<string>, selected: string): (y: string)
    requires Ascending(years)
    ensures selected != "" ==> y == selected
    ensures selected == "" && years != [] ==> y in years && forall z :: z in years && z != y ==> Below(y, z)
    ensures selected == "" && years == [] ==> y == ""
  {
    if |years| > 0 && selected == "" then
      assert forall z :: z in years && z != years[0] ==> Below(years[0], z) by {
        forall z | z in years && z != years[0] ensures Below(years[0], z) {
          var j :| 0 <= j < |years| && years[j] == z;
        }
      }
      years[0]
    else selected
  }
}
