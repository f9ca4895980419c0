# RSP dashboard data pipeline in Dafny

The dashboard reads `RSP.csv`, a table of retail selling prices of
petrol and diesel in Indian metro cities. It turns the table into typed
records and offers the city, fuel and year filters. It then plots the
mean price of each month, ordered by calendar year (January to December)
or by Indian financial year (April to March).

This project models that pipeline as a set of Dafny modules:

- `Text` models the JavaScript string built-ins the pipeline relies on:
  - `trim` with its white-space set
  - ASCII `toLowerCase`/`toUpperCase`
  - `includes`
  - integer rendering in template literals
  - the code-unit order of the default `sort`
- `Csv` is the character-by-character lexer `parseCSV`. It is a loop
  (`Csv.Parse`), proved equal to a recursive definition (`Csv.Lex`).
  - It comes with a round trip: quote every field, join the fields with
    `,`, end each row with `\n`, and the lexer gives the table back.
  - `CsvLines` gives an independent line-splitting description of text
    without quotes. The lexer is proved to agree with it.
- `Price` is the price-column heuristic `findPriceIndex`, a loop proved
  against `Price.PriceColumn`, and the sanitiser `parsePrice`.
  `PriceExamples` works through the dataset's header and two price cells.
- `Months` holds the two month orders and `monthShortFromLabel`.
- `Periods` holds strict `YYYY-MM-DD` dates and the year buckets:
  `"2024"` in calendar mode and `"2024-2025"` in financial mode. The
  bucketing rule, written twice in the source, is one function here:
  `Periods.YearKey`.
- `Records` holds the `RspRecord` value and the normalisation loop of
  `load()`: trim the header, pad short rows, map columns by position,
  strip quotes from the year label and read the price column.
- `Options` derives the filter choices: the city, fuel and year lists,
  and the selections made when the data arrives.
- `Aggregate` builds the chart's `{ categories, values }`.
  - `Aggregate.Aggregate` runs the source's loops over a map of
    `{ sum, count }` entries.
  - It is proved to produce, for each of the twelve months, the rounded
    mean price of the records that pass the filters and fall into that
    month (`Aggregate.MonthValue`).

The React component's state and effects are not modelled. The normaliser
and the aggregator, which are written inline in the component, become
standalone members. They take the record list and the selection (city,
fuel, year, mode) as parameters. The response of
`fetch('/RSP.csv')` is a parameter of `Records.Load`.

## Model

| member | source | states |
|---|---|---|
| Csv.Lex | my-rsp-dashboard/src/App.tsx:28-46 | the lexer from any state only appends to the rows already closed and never closes an empty row |
| Csv.ParseCsv | my-rsp-dashboard/src/App.tsx:23-48 | parseCSV never returns an empty row, and empty text gives no rows |
| Csv.Parse | my-rsp-dashboard/src/App.tsx:23-48 | the while loop over `i`, `cur`, `inQuotes` and `curRow` returns exactly `ParseCsv(text)` |
| Csv.EscapedBody | my-rsp-dashboard/src/App.tsx:30-34 | inside quotes a doubled `"` reads as one `"`, so an escaped field is read back as the field |
| Csv.QuotedField | my-rsp-dashboard/src/App.tsx:30-37 | a quoted field followed by `,` or `\n` is read back as the original field |
| Csv.RowRoundTrip | my-rsp-dashboard/src/App.tsx:23-47 | an encoded row (fields quoted, joined by `,`, ended by `\n`) closes exactly that row, whatever follows |
| Csv.TableRoundTrip | my-rsp-dashboard/src/App.tsx:23-47 | an encoded table appends exactly its rows to the rows already closed |
| Csv.ParseEncodedTable | my-rsp-dashboard/src/App.tsx:23-47 | parseCSV of an encoded table without empty rows is that table |
| Csv.ParseEncodedRow | my-rsp-dashboard/src/App.tsx:23-47 | parseCSV of one encoded row gives back exactly that one row |
| Csv.UnterminatedQuote | my-rsp-dashboard/src/App.tsx:45-46 | a text that is one open quoted field yields that field as its only row |
| Csv.UnterminatedQuoteAnywhere | my-rsp-dashboard/src/App.tsx:45-46 | after any rows and fields already read, a quote left open at the end of the text still flushes its field, even an empty one, and closes its row |
| CsvLines.SplitFields | my-rsp-dashboard/src/App.tsx:36-37 | splitting on `,` and bare `\r` always gives at least one field |
| CsvLines.FirstNewline | my-rsp-dashboard/src/App.tsx:38 | the index found holds the first `\n` of the text |
| CsvLines.LexBreak | my-rsp-dashboard/src/App.tsx:36-41 | an unquoted `,` or bare `\r` closes the field and not the row |
| CsvLines.LexOrdinary | my-rsp-dashboard/src/App.tsx:43 | any other unquoted character is appended to the field |
| CsvLines.PlainLfLine | my-rsp-dashboard/src/App.tsx:36-39 | a quote-free line ended by `\n` closes exactly one row, its fields split on `,` and `\r` |
| CsvLines.PlainCrLfLine | my-rsp-dashboard/src/App.tsx:36-41 | a quote-free line ended by `\r\n` closes exactly one row, and the `\r` is not a field |
| CsvLines.PlainLine | my-rsp-dashboard/src/App.tsx:36-41 | each unquoted `\n` or `\r\n` closes exactly one row holding the line's fields |
| CsvLines.PlainLast | my-rsp-dashboard/src/App.tsx:45-46 | text after the last line break gives a row only if it has a field, and an empty last field is dropped |
| CsvLines.PlainText | my-rsp-dashboard/src/App.tsx:23-47 | on quote-free text the lexer appends exactly the line-by-line rows |
| CsvLines.ParsePlainText | my-rsp-dashboard/src/App.tsx:23-47 | parseCSV of quote-free text equals the independent line-splitting definition |
| CsvLines.PlainRowsCount | my-rsp-dashboard/src/App.tsx:38-46 | the line-splitting definition gives one row per `\n` plus at most one more, and none more when the text ends in `\n` |
| CsvLines.PlainRowCount | my-rsp-dashboard/src/App.tsx:38-46 | parseCSV of quote-free text gives one row per `\n` plus at most one more; text ending in `\n` adds no empty trailing row |
| Text.Trim | my-rsp-dashboard/src/App.tsx:85 | `trim` leaves no white space at either end and never lengthens the text |
| Text.TrimSlice | my-rsp-dashboard/src/App.tsx:85 | `trim` keeps one contiguous slice and cuts only white space on either side |
| Text.TrimIdempotent | my-rsp-dashboard/src/App.tsx:93-98 | trimming a trimmed cell changes nothing |
| Text.Contains | my-rsp-dashboard/src/App.tsx:53 | `includes`: the pattern occurs at some offset (a definition, without a contract of its own) |
| Text.Lower | my-rsp-dashboard/src/App.tsx:52 | `toLowerCase` keeps the length and lower-cases each character (ASCII) |
| Text.ShowInt | my-rsp-dashboard/src/App.tsx:128 | `${n}` starts with a digit exactly for non-negative `n`, and with `-` then the digits otherwise |
| Text.ShowNatInjective | my-rsp-dashboard/src/App.tsx:130 | distinct non-negative numbers render as distinct strings |
| Text.BelowIrreflexive | my-rsp-dashboard/src/App.tsx:133 | the default sort order never puts a string before itself |
| Text.BelowTransitive | my-rsp-dashboard/src/App.tsx:133 | the default sort order is transitive |
| Text.BelowTotal | my-rsp-dashboard/src/App.tsx:133 | of two distinct strings, one sorts before the other |
| Text.BelowAsymmetric | my-rsp-dashboard/src/App.tsx:133 | two strings never each sort before the other |
| Price.IsPriceLabel | my-rsp-dashboard/src/App.tsx:52-53 | a header cell names the price column when its lower case contains "retail", "rsp", "selling price" or "price" (a definition) |
| Price.PriceColumnFrom | my-rsp-dashboard/src/App.tsx:51-55 | the scan from column `i` returns the first price-labelled column at or after `i`, else `header.length - 1` |
| Price.PriceColumn | my-rsp-dashboard/src/App.tsx:50-56 | the first column whose lower-cased label contains "retail", "rsp", "selling price" or "price", and no earlier column has one; otherwise the last column; in bounds for a non-empty header |
| Price.FindPriceIndex | my-rsp-dashboard/src/App.tsx:50-56 | the index loop with its early return computes `PriceColumn(header)` |
| Price.FirstPriceColumn | my-rsp-dashboard/src/App.tsx:51-53 | a price-labelled column with no price-labelled column before it is the one chosen |
| PriceExamples.HeaderExample | my-rsp-dashboard/src/App.tsx:50-56 | the header Country, Year, Month, Date, Product, City, Retail Selling Price gives column 6 |
| Price.Sanitise | my-rsp-dashboard/src/App.tsx:61 | the replacement keeps only digits and `.`, drawn from the input, and leaves such a string unchanged |
| Price.SanitiseAppend | my-rsp-dashboard/src/App.tsx:61 | sanitising distributes over concatenation |
| Price.DigitRun | my-rsp-dashboard/src/App.tsx:62 | the leading run of digits is maximal |
| Price.ParseDecimal | my-rsp-dashboard/src/App.tsx:62 | `parseFloat` on digits and dots: the leading digits, then an optional `.` and digits, with at least one digit, else NaN (a definition) |
| Price.ParseDecimalOf | my-rsp-dashboard/src/App.tsx:62 | parseFloat of `w.f`, where `w` and `f` are digits, is `w + f / 10^|f|` exactly |
| Price.ParsePrice | my-rsp-dashboard/src/App.tsx:59-64 | an empty cell is 0, and the price is never negative |
| Price.PriceDependsOnDigitsAndDots | my-rsp-dashboard/src/App.tsx:61-63 | two cells with the same digits and dots, in order, get the same price |
| Price.NoDigitPriceIsZero | my-rsp-dashboard/src/App.tsx:61-63 | a cell without a digit gives NaN after sanitising and is priced 0 |
| Price.WholePriceRoundTrip | my-rsp-dashboard/src/App.tsx:59-64 | a whole number written in decimal is read back exactly |
| Price.DecimalPriceRoundTrip | my-rsp-dashboard/src/App.tsx:59-64 | a decimal `whole.frac` is read back as its exact value |
| PriceExamples.RupeeExample | my-rsp-dashboard/src/App.tsx:59-64 | "₹ 96.72" gives 96.72 |
| PriceExamples.NotAvailableExample | my-rsp-dashboard/src/App.tsx:59-64 | "N/A" gives 0 |
| Months.MappingValuesCanonical | my-rsp-dashboard/src/App.tsx:13-17 | every value of the lookup table is one of the twelve keys |
| Months.BeforeComma | my-rsp-dashboard/src/App.tsx:11 | `split(',')[0]` is the longest comma-free prefix of the label |
| Months.Fallback | my-rsp-dashboard/src/App.tsx:19 | the fallback has at most three characters: the first upper-cased, the next two lower-cased |
| Months.MonthWord | my-rsp-dashboard/src/App.tsx:11 | the month word is the text before the first comma, trimmed (a definition) |
| Months.ShortOfWord | my-rsp-dashboard/src/App.tsx:12-19 | the key of a month word is '' exactly when the word is empty |
| Months.MonthShortFromLabel | my-rsp-dashboard/src/App.tsx:10-20 | '' exactly when the text before the first comma trims to empty |
| Months.MonthShortShaped | my-rsp-dashboard/src/App.tsx:13-19 | every non-empty key has one to three characters, the first not a lower-case letter and the rest not upper-case letters |
| Months.FullNameRecognised | my-rsp-dashboard/src/App.tsx:14-18 | a full English month name in any letter case gives its canonical key |
| Months.AbbreviationRecognised | my-rsp-dashboard/src/App.tsx:16-18 | a three-letter abbreviation in any letter case gives its canonical key |
| Months.CaseInsensitive | my-rsp-dashboard/src/App.tsx:18-19 | labels whose month words agree in lower case get the same key |
| Months.LabelWithYear | my-rsp-dashboard/src/App.tsx:11 | text after the first comma plays no part |
| Months.CanonicalFixpoint | my-rsp-dashboard/src/App.tsx:10-20 | each of the twelve keys is read back as itself |
| Months.JuneExample | my-rsp-dashboard/src/App.tsx:10-20 | "June" followed by a comma and anything gives "Jun" |
| Months.JunkExample | my-rsp-dashboard/src/App.tsx:19 | the unvalidated fallback sends "Junk" to the canonical "Jun" |
| Months.CalendarOrderDistinct | my-rsp-dashboard/src/App.tsx:6 | the calendar order holds twelve distinct keys |
| Months.FinancialIsRotatedCalendar | my-rsp-dashboard/src/App.tsx:6-7 | the financial order is the calendar order rotated to start at April, with the same keys |
| Months.MonthShortAsWritten | my-rsp-dashboard/src/App.tsx:13-19 | as written, the lookup returns an inherited member exactly when the lower-cased word is "constructor" or "__proto__", and otherwise agrees with `MonthShortFromLabel` |
| Months.ReadMapping | my-rsp-dashboard/src/App.tsx:18-19 | for the lower-case keys the lookup is given, a property read on the object literal finds an inherited member exactly for "constructor" and "__proto__" |
| Months.ConstructorLabel | my-rsp-dashboard/src/App.tsx:13-19 | "Constructor, 2025" returns Object.prototype.constructor as written and "Con" once corrected |
| Periods.DaysInMonth | my-rsp-dashboard/src/App.tsx:123-124 | every month has 28 to 31 days |
| Periods.FixedDigits | my-rsp-dashboard/src/App.tsx:123 | a number written with a fixed number of digits reads back as itself |
| Periods.ParseIsoDate | my-rsp-dashboard/src/App.tsx:123-124 | a date is found only in a ten-character string, and it names a real day of years 0 to 9999 |
| Periods.IsoRoundTrip | my-rsp-dashboard/src/App.tsx:123-124 | a date written as YYYY-MM-DD is read back as itself |
| Periods.IsoCanonical | my-rsp-dashboard/src/App.tsx:123-124 | a string read as a date is exactly that date's YYYY-MM-DD form |
| Periods.EmptyDateSkipped | my-rsp-dashboard/src/App.tsx:122 | the empty date is no date |
| Periods.FyStart | my-rsp-dashboard/src/App.tsx:126-127 | the financial year starting in `s` runs from April of `s` to March of `s + 1` and holds the date |
| Periods.FyStartUnique | my-rsp-dashboard/src/App.tsx:126-127 | only one start year has the date in its April-to-March window |
| Periods.YearKey | my-rsp-dashboard/src/App.tsx:125-131 | the one year-bucket rule of both copies (lines 125-131 and 153-159): `S-(S+1)` for the financial year starting in `S`, or the calendar year (a definition; its meaning is in FinancialKeySelects and CalendarKeySelects) |
| Periods.ShowIntInjective | my-rsp-dashboard/src/App.tsx:130 | distinct calendar years have distinct keys |
| Periods.FyLabelInjective | my-rsp-dashboard/src/App.tsx:128 | distinct financial years have distinct `S-(S+1)` labels |
| Periods.FyLabelSign | my-rsp-dashboard/src/App.tsx:128 | a financial-year label starts with a digit exactly when its start year is not negative |
| Periods.FinancialKeySelects | my-rsp-dashboard/src/App.tsx:125-128 | the financial key of a date is `S-(S+1)` exactly when the date lies between April of `S` and March of `S + 1` |
| Periods.CalendarKeySelects | my-rsp-dashboard/src/App.tsx:129-131 | the calendar key of a date is `Y` exactly when the date lies in year `Y` |
| Periods.LastDayOfFinancialYear | my-rsp-dashboard/src/App.tsx:149-159 | the date value 31 March 2024 gives "2023-2024" in FY mode and "2024" in CY mode |
| Periods.FirstDayOfFinancialYear | my-rsp-dashboard/src/App.tsx:149-159 | the date value 1 April 2024 gives "2024-2025" in FY mode and "2024" in CY mode |
| Periods.March31Read | my-rsp-dashboard/src/App.tsx:123-124 | the string "2024-03-31" is read as 31 March 2024 |
| Periods.April1Read | my-rsp-dashboard/src/App.tsx:123-124 | the string "2024-04-01" is read as 1 April 2024 |
| Records.Cell | my-rsp-dashboard/src/App.tsx:93-99 | `row[i] ?? ''`: the cell, or '' past either end (a definition) |
| Records.Padded | my-rsp-dashboard/src/App.tsx:92 | a padded row keeps its cells and adds '' up to the header's width |
| Records.PadRow | my-rsp-dashboard/src/App.tsx:92 | the padding loop computes `Padded(row, width)`, so the row is at least as wide as the header and keeps its cells |
| Records.TrimAll | my-rsp-dashboard/src/App.tsx:85 | each header cell is trimmed, and the count is kept |
| Records.StripQuotes | my-rsp-dashboard/src/App.tsx:94 | no `"` or `'` is left, every character comes from the label, and a quote-free label is unchanged |
| Records.StripQuotesAppend | my-rsp-dashboard/src/App.tsx:94 | stripping works piece by piece over concatenation, so with StripQuotesChar the other characters are kept, in order |
| Records.StripQuotesChar | my-rsp-dashboard/src/App.tsx:94 | a single quote character is dropped and any other character is kept |
| Records.YearLabelOf | my-rsp-dashboard/src/App.tsx:94 | the year label has no quotes and no surrounding white space |
| Records.RecordOf | my-rsp-dashboard/src/App.tsx:93-99 | the record of a padded row: cells 0 to 5 trimmed, the year label without quotes, the price read at the price column (a definition) |
| Records.RecordOfClean | my-rsp-dashboard/src/App.tsx:93-100 | every record has trimmed text fields, a quote-free year label and a price that is not negative |
| Records.DataRows | my-rsp-dashboard/src/App.tsx:89-92 | the loop hands on at most one padded row per row |
| Records.RecordsOf | my-rsp-dashboard/src/App.tsx:88-100 | one record per data row |
| Records.Normalized | my-rsp-dashboard/src/App.tsx:82-101 | fewer than two parsed rows is the "empty or malformed" error, and anything else is a list of records |
| Records.Load | my-rsp-dashboard/src/App.tsx:75-114 | a failed fetch is an error, and otherwise the loop's records are `Normalized(ParseCsv(text))` |
| Records.PaddingIrrelevant | my-rsp-dashboard/src/App.tsx:92-99 | padding never changes a record, since a pushed '' and a missing cell read alike |
| Records.RecordsOfAt | my-rsp-dashboard/src/App.tsx:89-100 | the k-th record is built from the k-th data row |
| Records.DataRowsAll | my-rsp-dashboard/src/App.tsx:89-92 | without empty rows, each row after the header is a data row, padded and in order |
| Records.LoadedRecords | my-rsp-dashboard/src/App.tsx:83-101 | one record per row after the header; the k-th comes from row k + 1, with its price read at the column `findPriceIndex` picks on the trimmed header |
| Records.LoadedCount | my-rsp-dashboard/src/App.tsx:82-101 | every parsed row after the header becomes a record |
| Records.LoadEncodedTable | my-rsp-dashboard/src/App.tsx:82-101 | a table written out as CSV loads into the same records as the table itself |
| Records.LoadedRecordsClean | my-rsp-dashboard/src/App.tsx:88-101 | every loaded record is clean |
| Options.AscendingDistinct | my-rsp-dashboard/src/App.tsx:116 | an ascending option list has no repeats |
| Options.Insert | my-rsp-dashboard/src/App.tsx:116 | adding a value to the Set and sorting keeps the list ascending, with exactly the old members and the value |
| Options.SortedSet | my-rsp-dashboard/src/App.tsx:116-117 | `Array.from(new Set(xs)).sort()` is ascending and holds exactly the values of `xs` |
| Options.AscendingUnique | my-rsp-dashboard/src/App.tsx:116-117 | an ascending list is fixed by its members, so the record order does not matter |
| Options.Present | my-rsp-dashboard/src/App.tsx:116-117 | `filter(Boolean)` keeps exactly the non-empty strings |
| Options.Cities | my-rsp-dashboard/src/App.tsx:116 | the city list is ascending, has no repeats and holds exactly the non-empty cities of the records |
| Options.Fuels | my-rsp-dashboard/src/App.tsx:117 | the fuel list is ascending, has no repeats and holds exactly the non-empty products of the records |
| Options.CityListed | my-rsp-dashboard/src/App.tsx:116 | every non-empty city is offered |
| Options.DefaultCity | my-rsp-dashboard/src/App.tsx:104-105 | the first city in ascending order, or '' exactly when no record names a city |
| Options.FirstProduct | my-rsp-dashboard/src/App.tsx:106 | `find` returns the product of the first record that has one, and None exactly when none has |
| Options.DefaultFuel | my-rsp-dashboard/src/App.tsx:106 | the first non-empty product in record order, else "Petrol" |
| Options.RecordYearKey | my-rsp-dashboard/src/App.tsx:122-131 | a record's year bucket, or none when its date is empty or names no day (a definition) |
| Options.CollectNone | my-rsp-dashboard/src/App.tsx:122-124 | a record without a date leaves the Set alone |
| Options.CollectKey | my-rsp-dashboard/src/App.tsx:125-131 | a dated record adds its bucket to the Set |
| Options.DatedRecordKey | my-rsp-dashboard/src/App.tsx:123-131 | a record with a valid date has the bucket `YearKey` of its date |
| Options.Years | my-rsp-dashboard/src/App.tsx:119-134 | the year list is ascending, has no repeats and holds exactly the buckets of the dated records in the current mode |
| Options.UndatedRecordsAddNoYear | my-rsp-dashboard/src/App.tsx:122-124 | a record whose date is empty or invalid adds no year |
| Options.LastDayRecordKeys | my-rsp-dashboard/src/App.tsx:122-131 | a record dated "2024-03-31" falls into "2023-2024" in FY mode and "2024" in CY mode |
| Options.FirstDayRecordKeys | my-rsp-dashboard/src/App.tsx:122-131 | a record dated "2024-04-01" falls into "2024-2025" in FY mode and "2024" in CY mode |
| Options.InitialYear | my-rsp-dashboard/src/App.tsx:136-138 | a chosen year is kept; with none chosen the earliest year is taken, or '' when the list is empty |
| Aggregate.Categories | my-rsp-dashboard/src/App.tsx:141 | the categories are twelve and are exactly the canonical month keys |
| Aggregate.Contribution | my-rsp-dashboard/src/App.tsx:146-163 | a record that counts has a city, a product and a valid date, passes the city and fuel filters, and counts under its non-empty month key |
| Aggregate.ContributionExactly | my-rsp-dashboard/src/App.tsx:146-163 | a record counts under month `m` if and only if it names a city and a product, passes every filter (an empty one passes all), has a valid date in the selected bucket, and its label gives `m` |
| Aggregate.Month | my-rsp-dashboard/src/App.tsx:146-162 | the callback's early returns and in-place year key give the month key `Contribution` describes, with '' for a skipped record |
| Aggregate.Tally | my-rsp-dashboard/src/App.tsx:164-166 | a month's count never exceeds the number of records |
| Aggregate.SamplesUpTo | my-rsp-dashboard/src/App.tsx:145 | the loop sees one sample per record |
| Aggregate.EmptySums | my-rsp-dashboard/src/App.tsx:142-143 | the dictionary starts with an empty entry for exactly the categories |
| Aggregate.AddPrice | my-rsp-dashboard/src/App.tsx:164-166 | the month's entry, created empty when missing, gains the price and a count, and no other entry changes |
| Aggregate.AddRecord | my-rsp-dashboard/src/App.tsx:145-167 | one callback keeps every entry equal to the sum and count of the records seen so far |
| Aggregate.AddRecords | my-rsp-dashboard/src/App.tsx:145-167 | after the `forEach`, every entry holds the sum and count of all records that fall into its month |
| Aggregate.Bars | my-rsp-dashboard/src/App.tsx:169-172 | each bar is the rounded mean of its entry, or 0 for an entry that counted nothing |
| Aggregate.Aggregate | my-rsp-dashboard/src/App.tsx:140-174 | `categories` is the order of the year mode, `values` has 12 entries, and each is `MonthValue` of its category |
| Aggregate.Mean | my-rsp-dashboard/src/App.tsx:170-171 | an entry's bar: the rounded mean when it counted something, else 0 (a definition) |
| Aggregate.MonthValue | my-rsp-dashboard/src/App.tsx:145-171 | the reference value of a month's bar: the Mean of the sum and count of the records that fall into the month (a definition, which Aggregate.Aggregate is proved to compute) |
| Aggregate.Round2 | my-rsp-dashboard/src/App.tsx:171 | the rounded value is within half a cent of the mean, has two decimals and is not negative for a non-negative mean |
| Aggregate.HalfUp | my-rsp-dashboard/src/App.tsx:171 | `toFixed(2)` on a non-negative value rounds to the nearest cent, with ties going up |
| Aggregate.Round2Exact | my-rsp-dashboard/src/App.tsx:171 | a mean that already has two decimals is shown unchanged |
| Aggregate.MeanExample | my-rsp-dashboard/src/App.tsx:169-172 | three samples of one month priced 100, 102 and 98 give a bar of 100 |
| Aggregate.TallySnoc | my-rsp-dashboard/src/App.tsx:164-166 | one more record adds its price and one count to its own month only |
| Aggregate.TallySkip | my-rsp-dashboard/src/App.tsx:146-163 | a skipped record leaves every entry equal to the tallies |
| Aggregate.TallyCreate | my-rsp-dashboard/src/App.tsx:164 | creating an empty entry for a month no record has reached keeps the entries equal to the tallies |
| Aggregate.TallyBump | my-rsp-dashboard/src/App.tsx:165-166 | adding a record's price to its month's entry keeps the entries equal to the tallies |
| Aggregate.SampleAt | my-rsp-dashboard/src/App.tsx:145 | the i-th sample is the i-th record's month and price |
| Aggregate.SamplesAppend | my-rsp-dashboard/src/App.tsx:145 | the samples of `a + b` are those of `a` followed by those of `b` |
| Aggregate.TallyAppend | my-rsp-dashboard/src/App.tsx:164-166 | the sums and counts of two runs of records add up |
| Aggregate.OrderIndependent | my-rsp-dashboard/src/App.tsx:145-172 | reordering the records, `a + b` against `b + a`, leaves every bar unchanged |
| Aggregate.SkippedRecord | my-rsp-dashboard/src/App.tsx:146-163 | a record that does not fall into month `m` leaves the bar of `m` unchanged |
| Aggregate.NonCanonicalIgnored | my-rsp-dashboard/src/App.tsx:162-172 | a record whose month key is none of the twelve canonical keys changes no bar |
| Aggregate.EmptyMonthIsZero | my-rsp-dashboard/src/App.tsx:171 | a month no record falls into shows 0 |
| Aggregate.FilledMonthCounts | my-rsp-dashboard/src/App.tsx:164-171 | a month some record falls into has a positive count, so its bar is a mean |
| Aggregate.TimesIsProduct | my-rsp-dashboard/src/App.tsx:165 | a helper for MeanWithinPrices: adding the same price `n` times gives `n` times the price |
| Aggregate.MeanWithinPrices | my-rsp-dashboard/src/App.tsx:164-171 | a filled month's bar lies between the lowest and highest contributing prices, within half a cent |
| Aggregate.ValuesNotNegative | my-rsp-dashboard/src/App.tsx:164-171 | with non-negative prices no bar is negative |
| Aggregate.FinancialYearWindow | my-rsp-dashboard/src/App.tsx:152-160 | with financial year `S-(S+1)` selected, only dates from April of `S` to March of `S + 1` reach the chart |
| Aggregate.CalendarYearWindow | my-rsp-dashboard/src/App.tsx:157-160 | with calendar year `Y` selected, only dates of `Y` reach the chart |

## Left out

- React state, effects and rendering are not modelled: `useState`, `useEffect`, `useMemo`, the loading and error screens and the JSX. The setters' effect is modelled by the values the members return.
- The `fetch('/RSP.csv')` request is a parameter of `Records.Load`: the response body, or None when the response was not ok or the request threw. The error messages' text is not modelled; `Records.LoadError` names the two causes.
- `my-rsp-dashboard/src/components/EChartBar.tsx` is not part of this model. It draws the chart through the echarts library, which is not part of this model either.
- Prices are exact decimals (`real`), not binary doubles. `parseFloat` is modelled on strings of digits and dots, which is all that survives sanitising. Exponents, `Infinity` and the binary rounding of large or long numerals are not modelled.
- Aggregate.Round2: `toFixed(2)` is modelled as rounding to the nearest cent with ties away from zero on the exact mean. The double's binary rounding before `toFixed`, and the `Number(...)` conversion back, are not modelled.
- Aggregate.AddPrice: the sums are added in exact arithmetic, so the order of the additions cannot change a mean. In doubles it can, in the last bits.
- Periods.ParseIsoDate: `new Date(dateISO)` is modelled as a strict parse of `YYYY-MM-DD` naming a real day, and any other string counts as an invalid date. The host's other accepted spellings (`2024-6-1`, with a time part, expanded years) and the time-zone shift between UTC parsing and local `getMonth`/`getFullYear` are not modelled.
- Months.Fallback: `charAt(0)` and `slice(1,3)` index UTF-16 code units, while the model indexes Unicode characters. For a month word that starts with a character outside the Basic Multilingual Plane, the source and the model take different characters ("😀abc" gives "😀a" in the source and "😀ab" here). Neither key is ever one of the twelve canonical keys, so no bar changes.
- Text.Lower: `toLowerCase` and `toUpperCase` are modelled on ASCII letters only, and other characters are left unchanged.
- Text.Below: the default `sort` compares UTF-16 code units. Dafny's `char` order is the Unicode scalar order, and the two differ only for characters outside the Basic Multilingual Plane.
- A JavaScript `Set` is modelled as a list without repeats in insertion order. Only its members matter, because the result is sorted.
- A bare `\r` outside quotes ends only the field and not the row, as the code at my-rsp-dashboard/src/App.tsx:36-41 does. The model follows the code here (`CsvLines.LexBreak`), although a bare `\r` could be read as a line end.

## Findings

| source | as written | input that shows it | evidently intended | confidence | as-written member | corrected member |
|---|---|---|---|---|---|---|
| my-rsp-dashboard/src/App.tsx:13-19 | `mapping[key]` reads the prototype chain of the object literal, so a key that names an inherited member returns that member (a function or an object) instead of a month string | a month label "Constructor, 2025" returns `Object.prototype.constructor`, and "__proto__" returns `Object.prototype` | look up only the table's own entries and otherwise use the three-letter fallback ("Con") | not executed | Months.ConstructorLabel | Months.MonthShortFromLabel |
