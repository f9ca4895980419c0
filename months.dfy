/** Month keys: the two chart orders and monthShortFromLabel, which turns a
    label such as "June, 2025" into the three-letter key "Jun". */
module Months {
  import opened Text

  /** CY_MONTH_ORDER: January first. */
  const CalendarOrder: seq<string> :=
    ["Jan", "Feb", "Mar", "Apr", "May", "Jun", "Jul", "Aug", "Sep", "Oct", "Nov", "Dec"]

  /** FY_MONTH_ORDER: the Indian financial year, April to March. */
  const FinancialOrder: seq<string> :=
    ["Apr", "May", "Jun", "Jul", "Aug", "Sep", "Oct", "Nov", "Dec", "Jan", "Feb", "Mar"]

  /** The English month names in lower case, in calendar order. */
  const FullNames: seq<string> :=
    ["january", "february", "march", "april", "may", "june",
     "july", "august", "september", "october", "november", "december"]

  /** The canonical keys in lower case. */
  const Abbreviations: seq<string> :=
    ["jan", "feb", "mar", "apr", "may", "jun", "jul", "aug", "sep", "oct", "nov", "dec"]

  /** The object literal `mapping` of monthShortFromLabel: the full names
      and the three-letter abbreviations ("may" is both). */
  const Mapping: map<string, string> := map[
    "january" := "Jan", "february" := "Feb", "march" := "Mar", "april" := "Apr",
    "may" := "May", "june" := "Jun", "july" := "Jul", "august" := "Aug",
    "september" := "Sep", "october" := "Oct", "november" := "Nov", "december" := "Dec",
    "jan" := "Jan", "feb" := "Feb", "mar" := "Mar", "apr" := "Apr", "jun" := "Jun",
    "jul" := "Jul", "aug" := "Aug", "sep" := "Sep", "oct" := "Oct", "nov" := "Nov",
    "dec" := "Dec"]

  /** One of the twelve keys the chart has a bar for. */
  predicate IsCanonical(m: string) {
    m in CalendarOrder
  }

  /** The shape every non-empty result has: one to three characters, the
      first not a lower-case ASCII letter, the others not upper-case ASCII. */
  predicate IsMonthShaped(m: string) {
    1 <= |m| <= 3 && !('a' <= m[0] <= 'z')
    && forall k :: 1 <= k < |m| ==> !('A' <= m[k] <= 'Z')
  }

  /** Every value of the table is a canonical key, and so has the shape. */
  lemma MappingValuesCanonical()
    ensures forall key :: key in Mapping ==> IsCanonical(Mapping[key]) && IsMonthShaped(Mapping[key])
  {
  }

  /** `split(',')[0]`: the text before the first comma, or all of it. */
  function BeforeComma(s: string): (r: string)
    ensures |r| <= |s| && r == s[..|r|]
    ensures ',' !in r
    ensures |r| < |s| ==> s[|r|] == ','
  {
    if s == [] || s[0] == ',' then []
    else
      var r := [s[0]] + BeforeComma(s[1..]);
      assert r == s[..|r|] by {
        assert s[..|r|] == [s[0]] + s[1..][..|r| - 1];
      }
      r
  }

  /** The month part of a label: trimmed text before the first comma. */
  function MonthWord(monthLabel: string): string {
    Trim(BeforeComma(monthLabel))
  }

  /** The fallback for words outside the table: first character upper-cased,
      the next two lower-cased. */
  function Fallback(m: string): (r: string)
    requires m != []
    ensures |r| == if |m| < 3 then |m| else 3
    ensures r[0] == UpperChar(m[0])
    ensures forall k :: 1 <= k < |r| ==> r[k] == LowerChar(m[k])
  {
    [UpperChar(m[0])] + Lower(m[1..if |m| < 3 then |m| else 3])
  }

  /** The key of a month word: '' for no word, the table's value for a
      month name in any case, else the fallback. */
  function ShortOfWord(m: string): (r: string)
    ensures r == [] <==> m == []
  {
    if m == [] then []
    else
      var key := Lower(m);
      if key in Mapping then Mapping[key] else Fallback(m)
  }

  /** Every key of a word is a table value or the fallback, and so has the
      shape. */
  lemma ShortOfWordShaped(m: string)
    ensures ShortOfWord(m) != [] ==> IsMonthShaped(ShortOfWord(m))
  {
    MappingValuesCanonical();
  }

  /** monthShortFromLabel, with `mapping[key]` reading only the table's own
      entries: '' exactly when the label has no month word. */
  function MonthShortFromLabel(monthLabel: string): (r: string)
    ensures r == [] <==> MonthWord(monthLabel) == []
  {
    ShortOfWord(MonthWord(monthLabel))
  }

  /** A non-empty key has one to three characters: a table value or the
      fallback's at most three. */
  lemma MonthShortShaped(monthLabel: string)
    ensures MonthShortFromLabel(monthLabel) != [] ==> IsMonthShaped(MonthShortFromLabel(monthLabel))
  {
    ShortOfWordShaped(MonthWord(monthLabel));
  }

  // ---------------------------------------------------------------------
  // Recognition of month names

  lemma FullNameMapped(k: nat)
    requires k < 12
    ensures FullNames[k] in Mapping && Mapping[FullNames[k]] == CalendarOrder[k]
  {
  }

  /** A full month name, in any letter case, gives its canonical key. */
  lemma FullNameRecognised(monthLabel: string, k: nat)
    requires k < 12 && Lower(MonthWord(monthLabel)) == FullNames[k]
    ensures MonthShortFromLabel(monthLabel) == CalendarOrder[k]
  {
    FullNameMapped(k);
    WordInTable(MonthWord(monthLabel), FullNames[k]);
  }

  /** A month word whose lower case is a key of the table gets that key's value. */
  lemma WordInTable(m: string, key: string)
    requires Lower(m) == key && key in Mapping
    ensures ShortOfWord(m) == Mapping[key]
  {
    assert |m| == |key|;
    assert key != [] by {
      assert "" !in Mapping;
    }
  }

  lemma AbbreviationMapped(k: nat)
    requires k < 12
    ensures Abbreviations[k] in Mapping && Mapping[Abbreviations[k]] == CalendarOrder[k]
  {
  }

  lemma AbbreviationLowered(k: nat)
    requires k < 12
    ensures Lower(CalendarOrder[k]) == Abbreviations[k]
  {
  }

  /** A three-letter abbreviation, in any letter case, gives its canonical key. */
  lemma AbbreviationRecognised(monthLabel: string, k: nat)
    requires k < 12 && Lower(MonthWord(monthLabel)) == Lower(CalendarOrder[k])
    ensures MonthShortFromLabel(monthLabel) == CalendarOrder[k]
  {
    AbbreviationLowered(k);
    AbbreviationMapped(k);
  }

  lemma SameUpper(x: char, y: char)
    requires LowerChar(x) == LowerChar(y)
    ensures UpperChar(x) == UpperChar(y)
  {
  }

  /** Month words that differ only in letter case get the same key. */
  lemma ShortOfWordCaseInsensitive(a: string, b: string)
    requires Lower(a) == Lower(b)
    ensures ShortOfWord(a) == ShortOfWord(b)
  {
    if a != [] {
      assert |a| == |b| && LowerChar(a[0]) == LowerChar(b[0]);
      SameUpper(a[0], b[0]);
      var n := if |a| < 3 then |a| else 3;
      assert Lower(a[1..n]) == Lower(b[1..n]) by {
        forall k | 0 <= k < n - 1
          ensures Lower(a[1..n])[k] == Lower(b[1..n])[k]
        {
          assert LowerChar(a[k + 1]) == LowerChar(b[k + 1]);
        }
      }
    }
  }

  /** Letter case never matters: labels whose month words agree in lower
      case get the same key, whether from the table or the fallback. */
  lemma CaseInsensitive(a: string, b: string)
    requires Lower(MonthWord(a)) == Lower(MonthWord(b))
    ensures MonthShortFromLabel(a) == MonthShortFromLabel(b)
  {
    ShortOfWordCaseInsensitive(MonthWord(a), MonthWord(b));
  }

  /** With no comma in the text, the whole text is the month part. */
  lemma {:induction false} NoCommaBeforeComma(s: string)
    requires ',' !in s
    ensures BeforeComma(s) == s
  {
    if s != [] {
      assert ',' !in s[1..];
      NoCommaBeforeComma(s[1..]);
      assert [s[0]] + s[1..] == s;
    }
  }

  /** The year after the comma ("June, 2025") plays no part. */
  lemma LabelWithYear(word: string, rest: string)
    requires ',' !in word
    ensures MonthWord(word + "," + rest) == Trim(word)
  {
    var s := word + "," + rest;
    NoCommaBeforeComma(word);
    var r := BeforeComma(s);
    assert s[..|word|] == word && s[|word|] == ',';
  }

  /** A month word and a year: the month word alone decides the key. */
  lemma WordWithYear(word: string, rest: string)
    requires ',' !in word && Trim(word) == word
    ensures MonthWord(word + "," + rest) == word
  {
    LabelWithYear(word, rest);
    NoCommaBeforeComma(word);
  }

  predicate IsLetter(c: char) {
    'A' <= c <= 'Z' || 'a' <= c <= 'z'
  }

  /** A word of ASCII letters has no comma and no white space to trim. */
  lemma LettersOnly(m: string)
    requires forall i :: 0 <= i < |m| ==> IsLetter(m[i])
    ensures ',' !in m && Trim(m) == m
  {
    forall i | 0 <= i < |m|
      ensures m[i] != ','
    {
      assert IsLetter(m[i]);
    }
    if m != [] {
      assert IsLetter(m[0]) && IsLetter(m[|m| - 1]);
    }
    TrimmedFixpoint(m);
  }

  lemma CanonicalLetters(k: nat)
    requires k < 12
    ensures forall i :: 0 <= i < |CalendarOrder[k]| ==> IsLetter(CalendarOrder[k][i])
  {
  }

  /** Each canonical key is read back as itself. */
  lemma CanonicalFixpoint(k: nat)
    requires k < 12
    ensures MonthShortFromLabel(CalendarOrder[k]) == CalendarOrder[k]
  {
    var m := CalendarOrder[k];
    CanonicalLetters(k);
    LettersOnly(m);
    NoCommaBeforeComma(m);
    AbbreviationRecognised(m, k);
  }

  // ---------------------------------------------------------------------
  // The two orders

  /** The twelve keys are distinct. */
  lemma CalendarOrderDistinct()
    ensures |CalendarOrder| == 12
    ensures forall i, j :: 0 <= i < j < 12 ==> CalendarOrder[i] != CalendarOrder[j]
  {
  }

  /** The financial order is the calendar order rotated to start at April,
      so both hold the same twelve keys. */
  lemma FinancialIsRotatedCalendar()
    ensures FinancialOrder == CalendarOrder[3..] + CalendarOrder[..3]
    ensures forall m :: m in FinancialOrder <==> m in CalendarOrder
  {
  }

  // ---------------------------------------------------------------------
  // Worked examples

  lemma JuneTrimmed()
    ensures Trim("June") == "June"
  {
    TrimmedFixpoint("June");
  }

  lemma JuneHasNoComma()
    ensures ',' !in "June"
  {
  }

  lemma JuneLowered()
    ensures Lower("June") == "june"
  {
  }

  lemma JuneWord()
    ensures ShortOfWord("June") == "Jun"
  {
    JuneLowered();
    FullNameMapped(5);
  }

  /** The dataset's month labels: "June", a comma and the year (or
      anything else) give "Jun". */
  lemma JuneExample(rest: string)
    ensures MonthShortFromLabel("June" + "," + rest) == "Jun"
  {
    JuneHasNoComma();
    JuneTrimmed();
    WordWithYear("June", rest);
    JuneWord();
  }

  lemma JunkWord()
    ensures MonthWord("Junk") == "Junk"
  {
    NoCommaBeforeComma("Junk");
    TrimmedFixpoint("Junk");
  }

  lemma JunkLowered()
    ensures Lower("Junk") == "junk"
  {
  }

  lemma JunkUnmapped()
    ensures "junk" !in Mapping
  {
  }

  lemma JunkFallback()
    ensures Fallback("Junk") == "Jun"
  {
  }

  /** The fallback is unvalidated: a word that is no month name can still
      land on a canonical key. */
  lemma JunkExample()
    ensures MonthShortFromLabel("Junk") == "Jun"
  {
    JunkWord();
    JunkLowered();
    JunkUnmapped();
    JunkFallback();
  }

  // ---------------------------------------------------------------------
  // The lookup as written

  /** The all-lower-case property names every object literal inherits from
      Object.prototype; a lower-cased month word can name only these. */
  const InheritedNames: set<string> := {"constructor", "__proto__"}

  /** A value monthShortFromLabel can return as written: a string, or the
      inherited member (a function or an object) that `mapping[key]` finds
      when the key names one. */
  datatype ShortAsWritten = Str(s: string) | InheritedMember(name: string)

  /** monthShortFromLabel exactly as written: `mapping[key]` reads the
      prototype chain, and an inherited member is truthy, so it is returned
      in place of the fallback; no key of the table is an inherited name.
      Elsewhere it agrees with MonthShortFromLabel. */
  function MonthShortAsWritten(monthLabel: string): (r: ShortAsWritten)
    ensures r.Str? <==> Lower(MonthWord(monthLabel)) !in InheritedNames
    ensures r.Str? ==> r.s == MonthShortFromLabel(monthLabel)
  {
    WordAsWritten(MonthWord(monthLabel))
  }

  /** The month-word part of MonthShortAsWritten. */
  function WordAsWritten(m: string): (r: ShortAsWritten)
    ensures r.Str? <==> Lower(m) !in InheritedNames
    ensures r.Str? ==> r.s == ShortOfWord(m)
  {
    InheritedNamesUnmapped();
    LowerLower(m);
    if m == [] then Str([])
    else match ReadMapping(Lower(m))
      case Own(v) => Str(v)
      case Inherited(name) => InheritedMember(name)
      case Undefined => Str(Fallback(m))
  }

  /** What reading `mapping[key]` yields in JavaScript for a lower-case
      key: the table's own entry, else a member inherited from
      Object.prototype, else undefined. Of the inherited members only
      "constructor" and "__proto__" have lower-case names. */
  datatype PropertyRead = Own(value: string) | Inherited(name: string) | Undefined

  function ReadMapping(key: string): (r: PropertyRead)
    requires Lower(key) == key
    ensures r.Inherited? <==> key in InheritedNames
  {
    InheritedNamesUnmapped();
    if key in Mapping then Own(Mapping[key])
    else if key in InheritedNames then Inherited(key)
    else Undefined
  }

  /** A lower-cased word is its own lower case: the only keys the lookup
      is ever given. */
  lemma LowerLower(m: string)
    ensures Lower(Lower(m)) == Lower(m)
  {
  }

  /** The table has no entry for an inherited name. */
  lemma InheritedNamesUnmapped()
    ensures forall key :: key in InheritedNames ==> key !in Mapping
  {
  }

  lemma ConstructorWord()
    ensures forall i :: 0 <= i < |"Constructor"| ==> IsLetter("Constructor"[i])
  {
  }

  lemma ConstructorPlain()
    ensures ',' !in "Constructor" && Trim("Constructor") == "Constructor"
  {
    ConstructorWord();
    LettersOnly("Constructor");
  }

  lemma ConstructorLowered()
    ensures Lower("Constructor") == "constructor"
  {
  }

  lemma ConstructorUnmapped()
    ensures "constructor" !in Mapping && "constructor" in InheritedNames
  {
  }

  lemma ConstructorFallback()
    ensures Fallback("Constructor") == "Con"
  {
  }

  lemma ConstructorWordKeys()
    ensures ShortOfWord("Constructor") == "Con"
    ensures WordAsWritten("Constructor") == InheritedMember("constructor")
  {
    ConstructorLowered();
    ConstructorUnmapped();
    ConstructorFallback();
  }

  /** A label whose month word is "Constructor": as written the lookup
      returns Object.prototype.constructor, a function, where a three-letter
      string is meant; the corrected lookup gives the fallback "Con". */
  lemma ConstructorLabel(rest: string)
    ensures MonthShortAsWritten("Constructor" + "," + rest) == InheritedMember("constructor")
    ensures MonthShortFromLabel("Constructor" + "," + rest) == "Con"
  {
    ConstructorPlain();
    WordWithYear("Constructor", rest);
    ConstructorWordKeys();
  }
}
