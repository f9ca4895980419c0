/** The chart data: for the selected city, fuel and year, the mean price
    of each month, in the month order of the year mode. */
module Aggregate {
  import opened Wrappers
  import opened Text
  import opened Months
  import opened Periods
  import opened Records

  /** The four controls of the dashboard. An empty city, fuel or year
      filters nothing. */
  datatype Selection = Selection(city: string, fuel: string, year: string, mode: YearMode)

  /** A month's running total: `{ sum, count }`. */
  datatype Entry = Entry(sum: real, count: nat)

  /** `cats`: April to March in FY mode, January to December in CY mode;
      either way the twelve canonical months. */
  function Categories(mode: YearMode): (cats: seq<string>)
    ensures |cats| == 12
    ensures forall m :: m in cats <==> IsCanonical(m)
  {
    FinancialIsRotatedCalendar();
    if mode == Financial then FinancialOrder else CalendarOrder
  }

  /** The month a record adds its price to, or None when the record is
      skipped: a missing city, product or date, another city or fuel than
      the selected one, a date that names no day, another year bucket than
      the selected one, or an empty month word. */
  function Contribution(r: RspRecord, sel: Selection): (c: Option<string>)
    ensures c.Some? ==> c.value == MonthShortFromLabel(r.monthLabel) && c.value != ""
    ensures c.Some? ==> r.city != "" && (sel.city == "" || r.city == sel.city)
    ensures c.Some? ==> r.product != "" && (sel.fuel == "" || r.product == sel.fuel)
    ensures c.Some? ==> ParseIsoDate(r.dateIso).Some?
  {
    if r.city == "" || r.product == "" || r.dateIso == "" then None
    else if sel.city != "" && r.city != sel.city then None
    else if sel.fuel != "" && r.product != sel.fuel then None
    else match ParseIsoDate(r.dateIso)
      case None => None
      case Some(d) =>
        if sel.year != "" && YearKey(d, sel.mode) != sel.year then None
        else
          var m := MonthShortFromLabel(r.monthLabel);
          if m == "" then None else Some(m)
  }

  /** What one record hands on to the sums: the month it falls into, if
      any, and its price. */
  datatype Sample = Sample(month: Option<string>, price: real)

  /** The samples of the first `n` records, in order. */
  function SamplesUpTo(records: seq<RspRecord>, sel: Selection, n: nat): (samples: seq<Sample>)
    requires n <= |records|
    ensures |samples| == n
  {
    if n == 0 then []
    else SamplesUpTo(records, sel, n - 1) + [Sample(Contribution(records[n - 1], sel), records[n - 1].price)]
  }

  /** Sum and count of the prices the samples add to month `m`. */
  function Tally(samples: seq<Sample>, m: string): (e: Entry)
    ensures e.count <= |samples|
  {
    if samples == [] then Entry(0.0, 0)
    else
      var e := Tally(samples[..|samples| - 1], m);
      var s := samples[|samples| - 1];
      if s.month == Some(m) then Entry(e.sum + s.price, e.count + 1) else e
  }

  /** A whole number of hundredths. */
  predicate IsCents(r: real) {
    (r * 100.0).Floor as real == r * 100.0
  }

  /** `Number(x.toFixed(2))` on an exact value: the nearest whole number of
      hundredths, halves rounded away from zero. */
  function Round2(x: real): (r: real)
    ensures r - x <= 0.005 && x - r <= 0.005
    ensures x >= 0.0 ==> r >= 0.0
    ensures IsCents(r)
  {
    if x >= 0.0 then HalfUp(x) else NegateCents(HalfUp(-x)); -HalfUp(-x)
  }

  /** The whole number of hundredths nearest to a value that is not
      negative, halves up. */
  function HalfUp(x: real): (r: real)
    requires x >= 0.0
    ensures r - x <= 0.005 && x - r < 0.005 && r >= 0.0
    ensures IsCents(r)
  {
    var c := (x * 100.0 + 0.5).Floor;
    assert (c as real / 100.0) * 100.0 == c as real;
    c as real / 100.0
  }

  lemma NegateCents(r: real)
    requires IsCents(r)
    ensures IsCents(-r)
  {
    var c := (r * 100.0).Floor;
    assert -r * 100.0 == (-c) as real;
  }

  /** The rounded mean of a tally, or 0 when it counted nothing. */
  function Mean(e: Entry): real {
    if e.count > 0 then Round2(e.sum / e.count as real) else 0.0
  }

  /** The value plotted for month `m`: the rounded mean of the prices of
      the records that fall into it, or 0 when none does. */
  function MonthValue(records: seq<RspRecord>, sel: Selection, m: string): real {
    Mean(Tally(SamplesUpTo(records, sel, |records|), m))
  }

  // ---------------------------------------------------------------------
  // The aggregation as the source runs it

  /** Every key of `sums` holds the tally of the samples, and a month
      without a key has none. */
  ghost predicate Tallied(samples: seq<Sample>, sums: map<string, Entry>) {
    (forall m :: m in sums ==> sums[m] == Tally(samples, m))
    && (forall m :: m !in sums ==> Tally(samples, m) == Entry(0.0, 0))
  }

  lemma TallySnoc(samples: seq<Sample>, s: Sample, m: string)
    ensures Tally(samples + [s], m) ==
      var e := Tally(samples, m);
      if s.month == Some(m) then Entry(e.sum + s.price, e.count + 1) else e
  {
    assert (samples + [s])[..|samples|] == samples;
  }

  /** A sample of no month leaves the entries equal to the tallies. */
  lemma TallySkip(samples: seq<Sample>, s: Sample, sums: map<string, Entry>)
    requires Tallied(samples, sums)
    requires s.month == None
    ensures Tallied(samples + [s], sums)
  {
    forall x ensures Tally(samples + [s], x) == Tally(samples, x) {
      TallySnoc(samples, s, x);
    }
  }

  /** An empty entry for a month no sample has reached keeps the entries
      equal to the tallies. */
  lemma TallyCreate(samples: seq<Sample>, sums: map<string, Entry>, m: string)
    requires Tallied(samples, sums)
    requires m !in sums
    ensures Tallied(samples, sums[m := Entry(0.0, 0)])
  {
  }

  /** A sample of month `m` adds its price to the entry of `m` and leaves
      every other entry alone. */
  lemma TallyBump(samples: seq<Sample>, s: Sample, sums: map<string, Entry>, m: string)
    requires Tallied(samples, sums)
    requires m in sums
    requires s.month == Some(m)
    ensures Tallied(samples + [s], sums[m := Entry(sums[m].sum + s.price, sums[m].count + 1)])
  {
    forall x ensures Tally(samples + [s], x) ==
      var e := Tally(samples, x);
      if x == m then Entry(e.sum + s.price, e.count + 1) else e
    {
      TallySnoc(samples, s, x);
    }
  }

  /** The samples of the first `k + 1` records extend those of the first `k`. */
  lemma SamplesStep(records: seq<RspRecord>, sel: Selection, k: nat)
    requires k < |records|
    ensures SamplesUpTo(records, sel, k + 1) ==
      SamplesUpTo(records, sel, k) + [Sample(Contribution(records[k], sel), records[k].price)]
  {
  }

  /** The `useMemo` that builds `{ categories, values }`: `sums` starts
      with an empty entry per category, each record adds its price to its
      month's entry, and each category's entry gives its bar. */
  method Aggregate(records: seq<RspRecord>, sel: Selection) returns (categories: seq<string>, values: seq<real>)
    ensures categories == Categories(sel.mode)
    ensures |values| == 12
    ensures forall k :: 0 <= k < 12 ==> values[k] == MonthValue(records, sel, categories[k])
  {
    categories := if sel.mode == Financial then FinancialOrder else CalendarOrder;
    var sums := EmptySums(categories);
    sums := AddRecords(records, sel, sums);
    values := Bars(categories, sums, SamplesUpTo(records, sel, |records|));
  }

  /** `cats.forEach((m) => (sums[m] = { sum: 0, count: 0 }))`. */
  method EmptySums(cats: seq<string>) returns (sums: map<string, Entry>)
    ensures forall m :: m in sums <==> m in cats
    ensures Tallied([], sums)
  {
    sums := map[];
    var j := 0;
    while j < |cats|
      invariant 0 <= j <= |cats|
      invariant forall m :: m in sums <==> m in cats[..j]
      invariant forall m :: m in sums ==> sums[m] == Entry(0.0, 0)
    {
      sums := sums[cats[j] := Entry(0.0, 0)];
      j := j + 1;
    }
    assert cats[..j] == cats;
  }

  /** `records.forEach(...)`: every record adds its price to the entry of
      its month, creating the entry when the month has none. */
  method AddRecords(records: seq<RspRecord>, sel: Selection, sums0: map<string, Entry>) returns (sums: map<string, Entry>)
    requires Tallied([], sums0)
    ensures sums0.Keys <= sums.Keys
    ensures Tallied(SamplesUpTo(records, sel, |records|), sums)
  {
    sums := sums0;
    var k := 0;
    while k < |records|
      invariant 0 <= k <= |records|
      invariant sums0.Keys <= sums.Keys
      invariant Tallied(SamplesUpTo(records, sel, k), sums)
    {
      sums := AddRecord(records, sel, k, sums);
      k := k + 1;
    }
  }

  /** One call of the `forEach` callback, on record `k`: a skipped record
      leaves `sums` alone; otherwise the entry of its month, created empty
      when missing, gains its price. */
  method AddRecord(records: seq<RspRecord>, sel: Selection, k: nat, sums0: map<string, Entry>) returns (sums: map<string, Entry>)
    requires k < |records|
    requires Tallied(SamplesUpTo(records, sel, k), sums0)
    ensures sums0.Keys <= sums.Keys
    ensures Tallied(SamplesUpTo(records, sel, k + 1), sums)
  {
    sums := sums0;
    var r := records[k];
    var mshort := Month(r, sel);
    ghost var before := SamplesUpTo(records, sel, k);
    ghost var sample := Sample(Contribution(r, sel), r.price);
    SamplesStep(records, sel, k);
    if mshort == "" {
      TallySkip(before, sample, sums);
    } else {
      sums := AddPrice(before, sums, mshort, r.price);
    }
  }

  /** The callback's last two statements: the entry of month `m`, created
      empty when missing, gains `price`. */
  method AddPrice(ghost samples: seq<Sample>, sums0: map<string, Entry>, m: string, price: real) returns (sums: map<string, Entry>)
    requires Tallied(samples, sums0)
    ensures sums.Keys == sums0.Keys + {m}
    ensures Tallied(samples + [Sample(Some(m), price)], sums)
  {
    sums := sums0;
    if m !in sums {
      TallyCreate(samples, sums, m);
      sums := sums[m := Entry(0.0, 0)];
    }
    var e := sums[m];
    TallyBump(samples, Sample(Some(m), price), sums, m);
    sums := sums[m := Entry(e.sum + price, e.count + 1)];
  }

  /** `cats.map(...)`: the rounded mean of each category's entry, 0 for an
      entry that counted nothing. */
  method Bars(cats: seq<string>, sums: map<string, Entry>, ghost samples: seq<Sample>) returns (values: seq<real>)
    requires forall m :: m in cats ==> m in sums
    requires Tallied(samples, sums)
    ensures |values| == |cats|
    ensures forall i :: 0 <= i < |cats| ==> values[i] == Mean(Tally(samples, cats[i]))
  {
    values := [];
    var j := 0;
    while j < |cats|
      invariant 0 <= j <= |cats| && |values| == j
      invariant forall i :: 0 <= i < j ==> values[i] == Mean(Tally(samples, cats[i]))
    {
      var entry := sums[cats[j]];
      var v := if entry.count > 0 then Round2(entry.sum / entry.count as real) else 0.0;
      values := values + [v];
      j := j + 1;
    }
  }

  /** The body of the `forEach`: the early returns, the year key computed
      in place, and the month key, '' for a record that is skipped. */
  method Month(r: RspRecord, sel: Selection) returns (mshort: string)
    ensures Contribution(r, sel) == if mshort == "" then None else Some(mshort)
  {
    mshort := "";
    if r.city == "" || r.product == "" || r.dateIso == "" {
      return;
    }
    if sel.city != "" && r.city != sel.city {
      return;
    }
    if sel.fuel != "" && r.product != sel.fuel {
      return;
    }
    var parsed := ParseIsoDate(r.dateIso);
    if parsed.None? {
      return;
    }
    var d := parsed.value;
    var yearKey: string;
    if sel.mode == Financial {
      var fyStartYear := if d.month >= 4 then d.year else d.year - 1;
      yearKey := ShowInt(fyStartYear) + "-" + ShowInt(fyStartYear + 1);
    } else {
      yearKey := ShowInt(d.year);
    }
    assert yearKey == YearKey(d, sel.mode);
    if sel.year != "" && yearKey != sel.year {
      return;
    }
    mshort := MonthShortFromLabel(r.monthLabel);
  }

  // ---------------------------------------------------------------------
  // Properties of the chart values

  /** The sample of the i-th record is that record's month and price. */
  lemma {:induction false} SampleAt(records: seq<RspRecord>, sel: Selection, n: nat, i: nat)
    requires i < n <= |records|
    ensures SamplesUpTo(records, sel, n)[i] == Sample(Contribution(records[i], sel), records[i].price)
  {
    var prev := SamplesUpTo(records, sel, n - 1);
    var last := Sample(Contribution(records[n - 1], sel), records[n - 1].price);
    assert SamplesUpTo(records, sel, n) == prev + [last];
    if i < n - 1 {
      SampleAt(records, sel, n - 1, i);
      assert (prev + [last])[i] == prev[i];
    } else {
      assert (prev + [last])[i] == last;
    }
  }

  /** Records after the first `n` do not change their samples. */
  lemma {:induction false} SamplesPrefix(a: seq<RspRecord>, b: seq<RspRecord>, sel: Selection, n: nat)
    requires n <= |a|
    ensures SamplesUpTo(a + b, sel, n) == SamplesUpTo(a, sel, n)
  {
    if n > 0 {
      SamplesPrefix(a, b, sel, n - 1);
      assert (a + b)[n - 1] == a[n - 1];
    }
  }

  lemma {:induction false} SamplesAppend(a: seq<RspRecord>, b: seq<RspRecord>, sel: Selection, n: nat)
    requires n <= |b|
    ensures SamplesUpTo(a + b, sel, |a| + n) == SamplesUpTo(a, sel, |a|) + SamplesUpTo(b, sel, n)
  {
    if n == 0 {
      SamplesPrefix(a, b, sel, |a|);
    } else {
      SamplesAppend(a, b, sel, n - 1);
      assert (a + b)[|a| + n - 1] == b[n - 1];
    }
  }

  /** The samples of two lists of records one after the other. */
  lemma SamplesConcat(a: seq<RspRecord>, b: seq<RspRecord>, sel: Selection)
    ensures SamplesUpTo(a + b, sel, |a + b|) == SamplesUpTo(a, sel, |a|) + SamplesUpTo(b, sel, |b|)
  {
    var n := |a + b|;
    assert n == |a| + |b|;
    SamplesAppend(a, b, sel, |b|);
  }

  /** Tallies add up over a split of the samples. */
  lemma {:induction false} TallyAppend(a: seq<Sample>, b: seq<Sample>, m: string)
    ensures Tally(a + b, m).count == Tally(a, m).count + Tally(b, m).count
    ensures Tally(a + b, m).sum == Tally(a, m).sum + Tally(b, m).sum
    decreases |b|
  {
    if b == [] {
      assert a + b == a;
    } else {
      var init := b[..|b| - 1];
      assert (a + b)[..|a + b| - 1] == a + init;
      TallyAppend(a, init, m);
    }
  }

  /** A record falls into month `m` exactly when it names a city and a
      product, passes the city, fuel and year filters (an empty one passes
      everything), has a date that names a day, and its label gives the
      non-empty key `m`. */
  lemma ContributionExactly(r: RspRecord, sel: Selection, m: string)
    ensures Contribution(r, sel) == Some(m) <==>
      r.city != "" && r.product != ""
      && (sel.city == "" || r.city == sel.city)
      && (sel.fuel == "" || r.product == sel.fuel)
      && ParseIsoDate(r.dateIso).Some?
      && (sel.year == "" || YearKey(ParseIsoDate(r.dateIso).value, sel.mode) == sel.year)
      && m != "" && m == MonthShortFromLabel(r.monthLabel)
  {
  }

  /** The order of the records does not change the chart. */
  lemma OrderIndependent(a: seq<RspRecord>, b: seq<RspRecord>, sel: Selection, m: string)
    ensures MonthValue(a + b, sel, m) == MonthValue(b + a, sel, m)
  {
    TallyOrderIndependent(a, b, sel, m);
  }

  lemma TallyOrderIndependent(a: seq<RspRecord>, b: seq<RspRecord>, sel: Selection, m: string)
    ensures Tally(SamplesUpTo(a + b, sel, |a + b|), m).count == Tally(SamplesUpTo(b + a, sel, |b + a|), m).count
    ensures Tally(SamplesUpTo(a + b, sel, |a + b|), m).sum == Tally(SamplesUpTo(b + a, sel, |b + a|), m).sum
  {
    var sa, sb := SamplesUpTo(a, sel, |a|), SamplesUpTo(b, sel, |b|);
    SamplesConcat(a, b, sel);
    SamplesConcat(b, a, sel);
    TallyAppend(sa, sb, m);
    TallyAppend(sb, sa, m);
  }

  /** A record that does not fall into month `m` leaves its bar alone. */
  lemma SkippedRecord(records: seq<RspRecord>, r: RspRecord, sel: Selection, m: string)
    requires Contribution(r, sel) != Some(m)
    ensures MonthValue(records + [r], sel, m) == MonthValue(records, sel, m)
  {
    SamplesAppend(records, [r], sel, 1);
    assert SamplesUpTo([r], sel, 1) == [Sample(Contribution(r, sel), r.price)];
    TallySnoc(SamplesUpTo(records, sel, |records|), Sample(Contribution(r, sel), r.price), m);
  }

  /** In particular a record whose month key is none of the twelve
      canonical keys changes no bar of the chart. */
  lemma NonCanonicalIgnored(records: seq<RspRecord>, r: RspRecord, sel: Selection, k: nat)
    requires k < 12
    requires !IsCanonical(MonthShortFromLabel(r.monthLabel))
    ensures MonthValue(records + [r], sel, Categories(sel.mode)[k]) == MonthValue(records, sel, Categories(sel.mode)[k])
  {
    assert Categories(sel.mode)[k] in Categories(sel.mode);
    SkippedRecord(records, r, sel, Categories(sel.mode)[k]);
  }

  lemma {:induction false} TallyNone(samples: seq<Sample>, m: string)
    requires forall i :: 0 <= i < |samples| ==> samples[i].month != Some(m)
    ensures Tally(samples, m) == Entry(0.0, 0)
  {
    if samples != [] {
      TallyNone(samples[..|samples| - 1], m);
    }
  }

  lemma {:induction false} TallySome(samples: seq<Sample>, m: string, i: nat)
    requires i < |samples| && samples[i].month == Some(m)
    ensures Tally(samples, m).count > 0
  {
    if i < |samples| - 1 {
      TallySome(samples[..|samples| - 1], m, i);
    }
  }

  /** A month no record falls into shows 0. */
  lemma EmptyMonthIsZero(records: seq<RspRecord>, sel: Selection, m: string)
    requires forall i :: 0 <= i < |records| ==> Contribution(records[i], sel) != Some(m)
    ensures MonthValue(records, sel, m) == 0.0
  {
    var samples := SamplesUpTo(records, sel, |records|);
    forall i | 0 <= i < |samples| ensures samples[i].month != Some(m) {
      SampleAt(records, sel, |records|, i);
    }
    TallyNone(samples, m);
  }

  /** A month some record falls into counts that record, so its bar is a
      mean and not the 0 of an empty month. */
  lemma FilledMonthCounts(records: seq<RspRecord>, sel: Selection, m: string, i: nat)
    requires i < |records| && Contribution(records[i], sel) == Some(m)
    ensures Tally(SamplesUpTo(records, sel, |records|), m).count > 0
  {
    SampleAt(records, sel, |records|, i);
    TallySome(SamplesUpTo(records, sel, |records|), m, i);
  }

  /** `n` copies of `x` added up: `n * x` without a product of two
      unknowns. */
  function Times(n: nat, x: real): (r: real)
    ensures n == 0 ==> r == 0.0
  {
    if n == 0 then 0.0 else Times(n - 1, x) + x
  }

  lemma {:induction false} TimesIsProduct(n: nat, x: real)
    ensures Times(n, x) == n as real * x
  {
    if n > 0 {
      TimesIsProduct(n - 1, x);
      assert n as real * x == (n - 1) as real * x + x;
    }
  }

  /** A lower bound on every price of month `m` bounds their sum. */
  lemma {:induction false} TallyAtLeast(samples: seq<Sample>, m: string, lo: real)
    requires forall i :: 0 <= i < |samples| && samples[i].month == Some(m) ==> lo <= samples[i].price
    ensures Times(Tally(samples, m).count, lo) <= Tally(samples, m).sum
  {
    if samples != [] {
      TallyAtLeast(samples[..|samples| - 1], m, lo);
    }
  }

  /** An upper bound on every price of month `m` bounds their sum. */
  lemma {:induction false} TallyAtMost(samples: seq<Sample>, m: string, hi: real)
    requires forall i :: 0 <= i < |samples| && samples[i].month == Some(m) ==> samples[i].price <= hi
    ensures Tally(samples, m).sum <= Times(Tally(samples, m).count, hi)
  {
    if samples != [] {
      TallyAtMost(samples[..|samples| - 1], m, hi);
    }
  }

  /** A sum of `n` values between `lo` and `hi`, divided by `n`, is between them. */
  lemma MeanBetween(sum: real, n: nat, lo: real, hi: real)
    requires n > 0 && Times(n, lo) <= sum <= Times(n, hi)
    ensures lo <= sum / n as real <= hi
  {
    TimesIsProduct(n, lo);
    TimesIsProduct(n, hi);
    DivLower(sum, n as real, lo);
    DivUpper(sum, n as real, hi);
  }

  lemma DivMonotonic(a: real, b: real, k: real)
    requires k > 0.0 && a <= b
    ensures a / k <= b / k
  {
  }

  lemma DivLower(sum: real, k: real, lo: real)
    requires k > 0.0 && k * lo <= sum
    ensures lo <= sum / k
  {
    DivMonotonic(k * lo, sum, k);
    assert k * lo / k == lo;
  }

  lemma DivUpper(sum: real, k: real, hi: real)
    requires k > 0.0 && sum <= k * hi
    ensures sum / k <= hi
  {
    DivMonotonic(sum, k * hi, k);
    assert k * hi / k == hi;
  }

  /** Each bar of a month some record falls into is the mean of the
      month's prices up to rounding: within half a paisa of a value
      between the lowest and the highest of them. */
  lemma MeanWithinPrices(records: seq<RspRecord>, sel: Selection, m: string, lo: real, hi: real, i: nat)
    requires i < |records| && Contribution(records[i], sel) == Some(m)
    requires forall j :: 0 <= j < |records| && Contribution(records[j], sel) == Some(m) ==>
      lo <= records[j].price <= hi
    ensures lo - 0.005 <= MonthValue(records, sel, m) <= hi + 0.005
  {
    var samples := SamplesUpTo(records, sel, |records|);
    forall j | 0 <= j < |samples| && samples[j].month == Some(m)
      ensures lo <= samples[j].price <= hi
    {
      SampleAt(records, sel, |records|, j);
    }
    FilledMonthCounts(records, sel, m, i);
    TallyAtLeast(samples, m, lo);
    TallyAtMost(samples, m, hi);
    var e := Tally(samples, m);
    MeanBetween(e.sum, e.count, lo, hi);
  }

  /** Prices are never negative, so neither is any bar. */
  lemma ValuesNotNegative(records: seq<RspRecord>, sel: Selection, m: string)
    requires forall i :: 0 <= i < |records| ==> records[i].price >= 0.0
    ensures MonthValue(records, sel, m) >= 0.0
  {
    var samples := SamplesUpTo(records, sel, |records|);
    forall j | 0 <= j < |samples| ensures samples[j].price >= 0.0 {
      SampleAt(records, sel, |records|, j);
    }
    TallyAtLeast(samples, m, 0.0);
    TallyAtMost(samples, m, MaxPrice(samples));
    var e := Tally(samples, m);
    if e.count > 0 {
      MeanBetween(e.sum, e.count, 0.0, MaxPrice(samples));
    }
  }

  /** The highest price of the samples, or 0 for none. */
  function MaxPrice(samples: seq<Sample>): (p: real)
    ensures forall i :: 0 <= i < |samples| ==> samples[i].price <= p
  {
    if samples == [] then 0.0
    else
      var p := MaxPrice(samples[..|samples| - 1]);
      var q := samples[|samples| - 1].price;
      if q > p then q else p
  }

  /** A mean that already has two decimals is shown as it is. */
  lemma Round2Exact(x: real)
    requires x >= 0.0 && IsCents(x)
    ensures Round2(x) == x
  {
    assert (x * 100.0 + 0.5).Floor == (x * 100.0).Floor;
  }

  /** Three prices of a month, 100, 102 and 98, give a bar of 100. */
  lemma MeanExample(m: string)
    ensures Mean(Tally([Sample(Some(m), 100.0), Sample(Some(m), 102.0), Sample(Some(m), 98.0)], m)) == 100.0
  {
    var a, b, c := Sample(Some(m), 100.0), Sample(Some(m), 102.0), Sample(Some(m), 98.0);
    TallySnoc([], a, m);
    assert [] + [a] == [a];
    TallySnoc([a], b, m);
    assert [a] + [b] == [a, b];
    TallySnoc([a, b], c, m);
    assert [a, b] + [c] == [a, b, c];
    Round2Exact(100.0);
  }

  /** With a financial year selected, only dates from April of its first
      year to March of the next reach the chart. */
  lemma FinancialYearWindow(r: RspRecord, sel: Selection, s: int)
    requires sel.mode == Financial && sel.year == FyLabel(s)
    requires Contribution(r, sel).Some?
    ensures var d := ParseIsoDate(r.dateIso).value;
      s * 12 + 3 <= d.year * 12 + d.month - 1 < s * 12 + 15
  {
    var d := ParseIsoDate(r.dateIso).value;
    FinancialKeySelects(d, s);
  }

  /** With a calendar year selected, only dates of that year reach the chart. */
  lemma CalendarYearWindow(r: RspRecord, sel: Selection, y: int)
    requires sel.mode == Calendar && sel.year == ShowInt(y)
    requires Contribution(r, sel).Some?
    ensures ParseIsoDate(r.dateIso).value.year == y
  {
    var d := ParseIsoDate(r.dateIso).value;
    CalendarKeySelects(d, y);
  }
}
