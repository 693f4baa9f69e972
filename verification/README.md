# Family finance tracker — record-processing core in Dafny

This project models the part of the family finance tracker
(`src/App.tsx`) that computes. Everything the app shows or sends is
derived from one list of monthly records. Each record has an id, a month
key (`"YYYY-MM"`), an `incomes` object keyed by contributor and an
`expenses` object keyed by category. The project models, as pure
functions:

- **`Month`**: `normalizeMonth`, which every fetched record passes
  through. JavaScript's `Date` parser is a parameter, an oracle that
  either rejects a string or names a calendar year and 0-based month.
- **`Dashboard`**: the dashboard's memos and its selected-month effect.
  - The lifetime totals, with per-contributor and per-category buckets.
  - The cumulative balance series.
  - The monthly income/expense trend.
  - The months sorted latest first, the selected-month effect that reads them, and that month's expense breakdown.
- **`DrillDown`**: `handleDrillDown`'s series for one expense category.
- **`Export`**: the text `handleExportCSV` builds.
- **`Mutations`**: the optimistic add, update and delete handlers.
  - `Begin` proposes the new list before the write.
  - `Finish` settles it on the write's outcome, which is a parameter.

Supporting modules:

- `Records`: the data model and per-record sums.
- `Order`: a lexicographic order standing in for `localeCompare`, and a
  stable sort.
- `Text`: decimal rendering and parsing, `padStart`, `join` and `split`.
- `Seqs`: `map`, sums and permutation facts.
- `Wrappers`: `Option`.

An incomes or expenses object is a sequence of `(key, amount)` entries in
`Object.entries` order. A JavaScript `undefined` from a missing key becomes
`Lookup`'s `None`, and `x || 0` becomes `AmountOr0`. Ids are either numbers
(`Date.now()` temporaries) or strings (sheet ids), compared with `===`.

Two behaviours of the code the model keeps:

- An amount filed under a contributor or category outside the enumeration
  is added to the lifetime total but to no bucket.
  `UnknownContributorEscapesBuckets` exhibits this.
- The last cumulative balance equals income minus expense even when a
  month occurs twice, because the series is per record, not per month.

## Model

| member | source | states |
|---|---|---|
| Records.Lookup | src/App.tsx:230 | looking up a key yields nothing exactly when no entry carries it, and otherwise an amount some entry stores under it |
| Records.KeyTotalIsAmount | src/App.tsx:184-193 | when keys are distinct, the sum an object contributes to a key's bucket is the value stored under that key, or 0 |
| Records.TotalSplits | src/App.tsx:182-194 | an object's total is the part filed under enumerated names plus the part filed under other names |
| Text.IntToDecimalRoundTrip | src/App.tsx:444-446 | every integer amount written into a CSV field parses back to the same integer |
| Text.IntToDecimalHasNoSeparator | src/App.tsx:446-448 | a rendered amount never contains the comma or newline the export separates with |
| Text.FourDigitRendering | src/App.tsx:26-28 | a year between 1000 and 9999 renders as exactly four digits, as the month-key pattern needs |
| Text.PadStart | src/App.tsx:27 | `padStart` keeps the string as its suffix, fills only on the left, and reaches the width when it is short |
| Text.SplitJoin | src/App.tsx:442-448 | splitting a joined list on a separator no field contains gives back the list |
| Order.LexLeTotal | src/App.tsx:199 | any two month keys are comparable |
| Order.LexLeTransitive | src/App.tsx:199 | the month comparison is transitive |
| Order.LexLeAntisymmetric | src/App.tsx:199 | keys that compare equal both ways are the same key |
| Order.SortBy | src/App.tsx:199 | the sort orders by key, permutes its input, and keeps records that share a key in their original relative order |
| Order.SortBySameElements | src/App.tsx:214 | sorting neither adds nor drops a record |
| Dashboard.ZeroBuckets | src/App.tsx:179-180 | the tallies start with one bucket per name, in the names' order, each holding 0 |
| Dashboard.FindIndex | src/App.tsx:185-186 | `findIndex` is -1 exactly when no bucket has the name, and otherwise is the first bucket with it |
| Dashboard.AddEntry | src/App.tsx:184-187 | one entry always reaches the total, and reaches the bucket named like its key and no other |
| Dashboard.TallyEntries | src/App.tsx:183-192 | walking one object adds its total to the running total and each key's amount to that key's bucket |
| Dashboard.TallyRows | src/App.tsx:182-193 | walking every row adds lifetime income and expense to the totals and each name's lifetime amount to its bucket |
| Dashboard.ComputeTotals | src/App.tsx:176-196 | totals are the lifetime sums of every entry; there is one bucket per enumerated name, in order, holding exactly that name's lifetime amount |
| Dashboard.TotalsFor | src/App.tsx:176-196 | for any lists of distinct names, one bucket per name in order holding that name's lifetime amount, and totals that are the lifetime sums |
| Dashboard.BucketsMissOnlyUnlisted | src/App.tsx:176-196 | each lifetime total equals its bucket sum plus the amounts filed under non-enumerated names |
| Dashboard.BucketsCoverKnownKeys | src/App.tsx:176-196 | if every key is enumerated, the buckets add up to the lifetime totals |
| Dashboard.UnknownContributorEscapesBuckets | src/App.tsx:182-187 | an income under an unknown name counts in the total (100) but in no bucket (0) |
| Dashboard.Running | src/App.tsx:200-210 | each running point keeps its row's month and adds the row's net to the previous balance; the last balance is the start plus the sum of the nets |
| Dashboard.CumulativeBalance | src/App.tsx:198-211 | one point per record in ascending month order, each balance the previous one (0 at first) plus that record's income minus expense |
| Dashboard.FinalBalanceIsNetTotal | src/App.tsx:198-211 | the final balance equals lifetime income minus lifetime expense from the totals memo |
| Dashboard.NeverFallsIffNoLosingMonth | src/App.tsx:198-211 | counting the 0 the series starts from, the balance never falls exactly when no record has a negative net |
| Dashboard.Trend | src/App.tsx:234-240 | ascending by month, one point per record, as a collection exactly each record's own income and expense sums, and within one month in the records' own order |
| Dashboard.FindMonth | src/App.tsx:226 | `find` fails exactly when no record has the month, and otherwise returns the first record that has it |
| Dashboard.EffectiveMonth | src/App.tsx:213-223 | with any data, the shown month belongs to some record; a chosen month that exists is kept; otherwise it is the latest month on record |
| Dashboard.MonthlyBreakdown | src/App.tsx:225-232 | the breakdown is empty exactly when no record has the month; otherwise it has one entry per category, valued from the first such record, with 0 where nothing is stored |
| Dashboard.CategoryValues | src/App.tsx:228-231 | one entry per category, in order, holding the record's stored amount or 0 |
| Dashboard.BreakdownShownWhenData | src/App.tsx:219-232 | once any record exists, the breakdown for the effective month is not empty |
| DrillDown.Points | src/App.tsx:772-774 | one point per record, in record order, carrying its month and its value for the category or 0 |
| DrillDown.Positive | src/App.tsx:775 | a point is in the result exactly when it is in the input and positive, and nothing is added |
| DrillDown.PositiveCounts | src/App.tsx:775 | the filter keeps every positive point as often as it occurs, repeats included, and no other point |
| DrillDown.PositiveAppend | src/App.tsx:775 | filtering a concatenation is concatenating the filtered parts, so kept points keep their order |
| DrillDown.Breakdown | src/App.tsx:771-775 | only positive values, latest month first, one point per record with a positive value, each being that record's month and value, and within one month in the records' own order |
| DrillDown.NothingSpentEmptySeries | src/App.tsx:771-775 | a category no record spent on has an empty drill-down |
| Month.FormatMonth | src/App.tsx:26-28 | a date whose year has four digits is formatted into a key matching `^\d{4}-\d{2}$` |
| Month.FormatMonthRoundTrip | src/App.tsx:26-28 | reading the formatted key back gives the same year and month |
| Month.NormalizeMonth | src/App.tsx:21-31 | empty stays empty; a canonical key passes unchanged; an unparseable string is kept; a parsed date becomes a key that reads back as that date |
| Month.NormalizeIdempotent | src/App.tsx:21-31 | normalizing an already normalized key changes nothing |
| Month.NormalizeRecords | src/App.tsx:678-681 | a fetch's normalization changes each record's month key and nothing else, keeping order and count |
| Month.NormalizeRecordsIdempotent | src/App.tsx:678-681 | normalizing fetched records a second time changes nothing |
| Export.HeaderText | src/App.tsx:440 | the header row is `Month`, then the five `(Income)` and the four `(Expense)` labels, in enumeration order |
| Export.ValueFields | src/App.tsx:444-445 | one field per enumerated name, rendering the stored amount or 0 |
| Export.DataRows | src/App.tsx:443-447 | one row per record in descending month order, each with ten fields, month first |
| Export.RowFieldsReadBack | src/App.tsx:444-446 | each row's fields read back as the record's month and its stored amounts, with "0" for a missing one |
| Export.ValueFieldsReadBack | src/App.tsx:444-445 | each value field parses back to the amount stored under its name, and is "0" when none is stored |
| Export.TableShape | src/App.tsx:440-447 | the table has the header row and every row has ten fields |
| Export.ReadJoined | src/App.tsx:441-448 | joining non-empty rows of separator-free fields with commas and newlines, then splitting, gives back the rows |
| Export.CsvContent | src/App.tsx:441-448 | splitting the file on newlines and then commas gives back the header and the rows, provided no month key holds a separator |
| Mutations.RemoveId | src/App.tsx:754 | no row left carries the deleted id, and exactly as many rows are dropped as carried it |
| Mutations.RemoveIdMembers | src/App.tsx:754 | a row survives the filter exactly when it was in the list and has another id |
| Mutations.ReplaceId | src/App.tsx:732 | the map keeps length and position, puts the updated row wherever the id matches, and leaves every other row alone |
| Mutations.TempRow | src/App.tsx:708-709 | the optimistic row carries the clock reading as its id and every other field as entered |
| Mutations.Propose | src/App.tsx:708-754 | add puts the temporary-id row in front of the old list; update keeps the length; delete keeps exactly the rows with another id |
| Mutations.Begin | src/App.tsx:704-754 | the in-flight state remembers the prior list and the action, and its list grows by one on add and shrinks by the matches on delete |
| Mutations.Finish | src/App.tsx:712-768 | success keeps the optimistic list; a failed update or delete restores the snapshot; a failed add drops the temporary id from the current list |
| Mutations.Mutate | src/App.tsx:704-768 | a failed update or delete leaves the list exactly as before; a failed add leaves the prior list minus rows with the temporary id |
| Mutations.FailedAddRestoresIff | src/App.tsx:708-722 | a failed add restores the prior list exactly when no row already carried the temporary id |
| Mutations.RemoveIdAppend | src/App.tsx:754 | delete filters each part of a list independently, so kept rows keep their order |
| Mutations.RemoveIdIdempotent | src/App.tsx:754 | deleting the same id twice is deleting it once |
| Mutations.ReplaceIdKeepsIds | src/App.tsx:732 | an update never changes which ids the list holds, or where |
| Mutations.ReplaceIdIdempotent | src/App.tsx:732 | applying the same update twice is applying it once |
| Mutations.ReplaceAbsentId | src/App.tsx:732 | an update whose id no row carries changes nothing |
| Mutations.ProposeKeepsIdsUnique | src/App.tsx:708-754 | every proposal keeps ids unique, an add provided its clock reading is not already an id |

## Left out

- Network: the `fetch` GET and POSTs, `res.json()`, and the background refetch after a success. The write's outcome is a parameter. The refetch's result is not modelled; `Confirmed` stands for "optimistic list shown, refetch pending".
- `isLoading`: not modelled. Besides the spinner it disables the Add button (src/App.tsx:544) and the Edit and Delete buttons (src/App.tsx:629, 637) while a write or refetch is pending. That gating is what mostly keeps mutations one at a time, the assumption of the next line. The Save button of the editor (src/App.tsx:598) is not gated, so an update can still overlap another write.
- Interleaving of several in-flight mutations and the React state-updater timing. A mutation is modelled as running alone, from the list it began with.
- JavaScript's `Date` parsing, time zones and `getFullYear`/`getMonth`: the `parse` oracle of `Month.NormalizeMonth`.
- `Number()` coercion, `NaN`, floating point and string-valued amounts: amounts are integers. `Number(x) || 0` is modelled as "missing becomes 0".
- `String(n)` for numbers with an exponent or a fraction: amounts are integers, so `Text.IntToDecimal` covers the rendering used.
- `localeCompare`: modelled as code-point lexicographic order (`Order.LexLe`). That agrees on `YYYY-MM` keys but not on arbitrary text.
- The in-place `data.sort` in the export and table renderings mutates the state array. The model sorts a copy and leaves the list itself unchanged.
- Anything handled outside the core: React rendering, recharts, `formatCurrency`, the table editor's form state, the Blob download, the PIN modal and the admin toggle.
- `sortedMonths`: modelled only through `Dashboard.EffectiveMonth`, the only place the modelled core reads it. Its other reads (src/App.tsx:341, 347) build the month `<select>` options, which are rendering.
- Month.NormalizeIdempotent: for a non-empty, non-canonical key, proved only when the parser's year is between 1000 and 9999. Empty and canonical keys need no condition. For other years `String(year)` does not give four digits, the result is not a canonical key, and a second pass asks the parser again.
- Month.NormalizeRecordsIdempotent: has the same four-digit-year condition as `Month.NormalizeIdempotent`.
- Export.CsvContent: promises the read-back only for month keys without commas or newlines. The export does not quote, so such a key would split into extra fields.
