/** Locating the price column in the header (findPriceIndex) and reading a
    price cell (parsePrice). Prices are exact decimals: `real` stands for the
    value parseFloat denotes before any binary rounding. */
module Price {
  import opened Text
  import opened Wrappers

  // ---------------------------------------------------------------------
  // findPriceIndex

  /** A header cell that names the price column, compared in lower case. */
  predicate IsPriceLabel(h: string) {
    var l := Lower(h);
    Contains(l, "retail") || Contains(l, "rsp") || Contains(l, "selling price") || Contains(l, "price")
  }

  /** The scan of findPriceIndex started at column `i`. */
  function PriceColumnFrom(header: seq<string>, i: nat): (idx: int)
    requires i <= |header|
    ensures (exists j :: i <= j < |header| && IsPriceLabel(header[j])) ==>
      i <= idx < |header| && IsPriceLabel(header[idx]) && forall j :: i <= j < idx ==> !IsPriceLabel(header[j])
    ensures (forall j :: i <= j < |header| ==> !IsPriceLabel(header[j])) ==> idx == |header| - 1
    decreases |header| - i
  {
    if i == |header| then |header| - 1
    else if IsPriceLabel(header[i]) then i
    else PriceColumnFrom(header, i + 1)
  }

  /** The first column whose label mentions a price, else the last column;
      in bounds whenever the header has a column. */
  function PriceColumn(header: seq<string>): (idx: int)
    ensures -1 <= idx < |header|
    ensures |header| > 0 ==> 0 <= idx
    ensures (exists j :: 0 <= j < |header| && IsPriceLabel(header[j])) ==>
      0 <= idx && IsPriceLabel(header[idx]) && forall j :: 0 <= j < idx ==> !IsPriceLabel(header[j])
    ensures (forall j :: 0 <= j < |header| ==> !IsPriceLabel(header[j])) ==> idx == |header| - 1
  {
    PriceColumnFrom(header, 0)
  }

  /** findPriceIndex: the index loop with its early return. */
  method FindPriceIndex(header: seq<string>) returns (idx: int)
    ensures idx == PriceColumn(header)
  {
    for i := 0 to |header|
      invariant PriceColumnFrom(header, i) == PriceColumn(header)
    {
      var h := Lower(header[i]);
      if Contains(h, "retail") || Contains(h, "rsp") || Contains(h, "selling price") || Contains(h, "price") {
        return i;
      }
    }
    return |header| - 1;
  }

  // ---------------------------------------------------------------------
  // parsePrice

  /** The characters the /[^\d.]/g replacement keeps. */
  predicate IsPriceChar(c: char) {
    IsDigit(c) || c == '.'
  }

  predicate AllPriceChars(s: string) {
    forall k :: 0 <= k < |s| ==> IsPriceChar(s[k])
  }

  /** Deletes every character that is neither an ASCII digit nor '.'. */
  function Sanitise(s: string): (r: string)
    ensures AllPriceChars(r)
    ensures forall k :: 0 <= k < |r| ==> r[k] in s
    ensures AllPriceChars(s) ==> r == s
  {
    if s == [] then []
    else
      var r := (if IsPriceChar(s[0]) then [s[0]] else []) + Sanitise(s[1..]);
      assert forall k :: 0 <= k < |r| ==> r[k] in s by {
        assert forall c :: c in s[1..] ==> c in s;
      }
      assert AllPriceChars(s) ==> r == [s[0]] + s[1..];
      r
  }

  lemma {:induction false} SanitiseAppend(a: string, b: string)
    ensures Sanitise(a + b) == Sanitise(a) + Sanitise(b)
    decreases |a|
  {
    if a != [] {
      assert (a + b)[1..] == a[1..] + b;
      SanitiseAppend(a[1..], b);
    } else {
      assert a + b == b;
    }
  }

  /** Length of the run of digits at the start of `s`. */
  function DigitRun(s: string): (n: nat)
    ensures n <= |s| && AllDigits(s[..n])
    ensures n < |s| ==> !IsDigit(s[n])
  {
    if s != [] && IsDigit(s[0]) then
      var n := 1 + DigitRun(s[1..]);
      assert s[..n] == [s[0]] + s[1..][..n - 1];
      n
    else 0
  }

  /** The digits after the decimal point that follows the leading digits
      of `s` ("" when no point follows them). */
  function FractionDigits(s: string): (frac: string)
    ensures AllDigits(frac)
  {
    var n := DigitRun(s);
    if n < |s| && s[n] == '.' then s[n + 1..][..DigitRun(s[n + 1..])] else []
  }

  /** The exact value of the decimal numeral `whole`.`frac` where `frac` has
      `places` digits. */
  function Decimal(whole: nat, frac: nat, places: nat): (v: real)
    ensures v >= whole as real
  {
    var scale := Pow10(places) as real;
    assert frac as real / scale >= 0.0;
    whole as real + frac as real / scale
  }

  /** parseFloat on a string of digits and dots: the longest prefix of the
      form digits, optionally '.' and digits, with at least one digit. */
  function ParseDecimal(s: string): Option<real>
    requires AllPriceChars(s)
  {
    var n := DigitRun(s);
    var frac := FractionDigits(s);
    if n == 0 && frac == [] then None
    else Some(Decimal(DigitsValue(s[..n]), DigitsValue(frac), |frac|))
  }

  /** parsePrice: 0 for an empty cell or when no number is left after
      dropping every other character; never negative, since no sign
      character survives. */
  function ParsePrice(raw: string): (p: real)
    ensures p >= 0.0
    ensures raw == [] ==> p == 0.0
  {
    if raw == [] then 0.0
    else match ParseDecimal(Sanitise(raw))
      case None => 0.0
      case Some(v) => v
  }

  /** Only the digits and dots of a cell, in order, decide its price. */
  lemma PriceDependsOnDigitsAndDots(a: string, b: string)
    requires Sanitise(a) == Sanitise(b)
    ensures ParsePrice(a) == ParsePrice(b)
  {
    if a == [] || b == [] {
      assert Sanitise(a) == [] && Sanitise(b) == [];
    }
  }

  /** A cell without any digit ("N/A", "-", "") is priced 0. */
  lemma NoDigitPriceIsZero(raw: string)
    requires forall k :: 0 <= k < |raw| ==> !IsDigit(raw[k])
    ensures ParsePrice(raw) == 0.0
  {
    var s := Sanitise(raw);
    assert forall k :: 0 <= k < |s| ==> s[k] == '.';
    if s != [] {
      assert DigitRun(s) == 0;
      assert |s[1..]| > 0 ==> s[1..][0] == '.';
      assert DigitRun(s[1..]) == 0;
      assert FractionDigits(s) == [];
    }
  }

  lemma DigitRunAll(s: string, t: string)
    requires AllDigits(s)
    requires t == [] || !IsDigit(t[0])
    ensures DigitRun(s + t) == |s|
    decreases |s|
  {
    if s != [] {
      assert (s + t)[1..] == s[1..] + t;
      DigitRunAll(s[1..], t);
    } else {
      assert s + t == t;
    }
  }

  /** A whole number written in decimal is read back exactly. */
  lemma WholePriceRoundTrip(n: nat)
    ensures ParsePrice(ShowNat(n)) == n as real
  {
    var s := ShowNat(n);
    assert AllPriceChars(s);
    DigitRunAll(s, []);
    assert s + [] == s && s[..|s|] == s;
    assert FractionDigits(s) == [];
  }

  lemma ParseDecimalOf(w: string, frac: string)
    requires AllDigits(w) && AllDigits(frac) && |w| > 0
    ensures AllPriceChars(w + "." + frac)
    ensures ParseDecimal(w + "." + frac)
         == Some(Decimal(DigitsValue(w), DigitsValue(frac), |frac|))
  {
    var s := w + "." + frac;
    assert s == w + ("." + frac);
    DigitRunAll(w, "." + frac);
    assert s[..|w|] == w && s[|w|] == '.' && s[|w| + 1..] == frac;
    DigitRunAll(frac, []);
    assert frac + [] == frac && frac[..|frac|] == frac;
    assert FractionDigits(s) == frac;
  }

  /** A decimal `whole.frac` is read back as whole + frac / 10^|frac|. */
  lemma DecimalPriceRoundTrip(whole: nat, frac: string)
    requires AllDigits(frac)
    ensures ParsePrice(ShowNat(whole) + "." + frac) == Decimal(whole, DigitsValue(frac), |frac|)
  {
    var s := ShowNat(whole) + "." + frac;
    ParseDecimalOf(ShowNat(whole), frac);
    assert Sanitise(s) == s;
  }

  /** The first column carrying a price label is the one findPriceIndex picks. */
  lemma FirstPriceColumn(header: seq<string>, k: nat)
    requires k < |header| && IsPriceLabel(header[k])
    requires forall j :: 0 <= j < k ==> !IsPriceLabel(header[j])
    ensures PriceColumn(header) == k
  {
  }
}

/** Worked examples: the dataset's header and two price cells. */
module PriceExamples {
  import opened Text
  import opened Price

  lemma NotPriceLabelOf(h: string, l: string)
    requires Lower(h) == l
    requires !Contains(l, "retail") && !Contains(l, "rsp") && !Contains(l, "selling price") && !Contains(l, "price")
    ensures !IsPriceLabel(h)
  {
  }

  lemma PriceLabelOf(h: string, l: string)
    requires Lower(h) == l && Contains(l, "retail")
    ensures IsPriceLabel(h)
  {
  }

  lemma RetailLowered()
    ensures Lower("Retail Selling Price") == "retail selling price"
  {
  }

  lemma RetailMentioned()
    ensures Contains("retail selling price", "retail")
  {
  }

  lemma CountryNotPrice()
    ensures !IsPriceLabel("Country")
  {
    NotPriceLabelOf("Country", "country");
  }

  lemma YearNotPrice()
    ensures !IsPriceLabel("Year")
  {
    NotPriceLabelOf("Year", "year");
  }

  lemma MonthNotPrice()
    ensures !IsPriceLabel("Month")
  {
    NotPriceLabelOf("Month", "month");
  }

  lemma DateNotPrice()
    ensures !IsPriceLabel("Date")
  {
    NotPriceLabelOf("Date", "date");
  }

  lemma ProductNotPrice()
    ensures !IsPriceLabel("Product")
  {
    NotPriceLabelOf("Product", "product");
  }

  lemma CityNotPrice()
    ensures !IsPriceLabel("City")
  {
    NotPriceLabelOf("City", "city");
  }

  /** The dataset's header: the price sits in the last column, 6. */
  lemma HeaderExample(header: seq<string>)
    requires header == ["Country", "Year", "Month", "Date", "Product", "City", "Retail Selling Price"]
    ensures PriceColumn(header) == 6
  {
    CountryNotPrice();
    YearNotPrice();
    MonthNotPrice();
    DateNotPrice();
    ProductNotPrice();
    CityNotPrice();
    RetailLowered();
    RetailMentioned();
    PriceLabelOf(header[6], "retail selling price");
    FirstPriceColumn(header, 6);
  }

  lemma NinetySixSeventyTwo()
    ensures Decimal(96, 72, 2) == 96.72
  {
  }

  lemma RupeeSignDropped()
    ensures Sanitise("\U{20B9} ") == []
  {
  }

  lemma RupeeCellSplit()
    ensures "\U{20B9} 96.72" == "\U{20B9} " + (ShowNat(96) + "." + "72")
  {
    assert ShowNat(96) == "96";
  }

  lemma SeventyTwo()
    ensures AllDigits("72") && |"72"| == 2 && DigitsValue("72") == 72
  {
  }

  /** A rupee sign and a space in front of the number are ignored. */
  lemma RupeeExample()
    ensures ParsePrice("\U{20B9} 96.72") == 96.72
  {
    RupeeCellSplit();
    RupeeSignDropped();
    SanitiseAppend("\U{20B9} ", ShowNat(96) + "." + "72");
    PriceDependsOnDigitsAndDots("\U{20B9} 96.72", ShowNat(96) + "." + "72");
    SeventyTwo();
    DecimalPriceRoundTrip(96, "72");
    NinetySixSeventyTwo();
  }

  /** A missing price written as "N/A" is priced 0. */
  lemma NotAvailableExample()
    ensures ParsePrice("N/A") == 0.0
  {
    NoDigitPriceIsZero("N/A");
  }
}
