# Expense tracker bookkeeping, in Dafny

This project models the bookkeeping inside the `ExpenseTracker` React component of a
client-side personal expense tracker: the form validator, the in-memory expense list with its
add / update / delete handlers, and the read-only queries the page renders from that list
(category and month filter, summary statistics, date-descending display order, month options).
Everything is in memory and single-threaded; the JSX markup around it is not modelled.

Layout:

- `wrappers.dfy` (`Wrappers`): `Option`, standing for `null` and for a `NaN` parse.
- `text.dfy` (`Text`): JavaScript's `trim`, `substring(0, n)` and string order.
- `seqs.dfy` (`Seqs`): `filter`, `map`, `[...new Set(xs)]` and a stable descending sort by a string key.
- `records.dfy` (`Records`): the category tags, the `Expense` record and its month key.
- `validation.dfy` (`Validation`): `validateForm` and the record `handleSubmit` builds.
- `store.dfy` (`Store`): the component state as the class `Tracker`, with `handleSubmit`,
  `handleEdit`, `handleDelete` and `handleCancel` as methods, and the list operations they use.
- `query.dfy` (`Query`): `getFilteredExpenses`, `getSummary`, the display sort and `getMonthOptions`.

Modelling choices:

- Amounts are exact `real`s, not floating point. The amount field is modelled as its text plus
  the result of `parseFloat` on it (`None` for `NaN`), supplied by the caller.
- Dates are the `YYYY-MM-DD` strings the date input produces. The month key is `date.substring(0, 7)`.
  Ordering by `new Date(...)` is modelled as string order, which for such strings is calendar order.
- The per-category and per-month sums are JavaScript objects whose key insertion order decides
  the top category on ties. They are therefore modelled as ordered association lists
  (`Query.Entries`) built by a left fold (`Query.Tally`), not as Dafny maps.
- `editingId` is tested for JavaScript truthiness (`Store.Editing`): `null` and `0` mean "not editing".
- `Date.now()` (the new id), today's date (the reset form's date) and the answer of
  `window.confirm` are parameters of the methods that use them.
- The error text asks for "a valid amount greater than 0", so a non-numeric amount is meant to
  be rejected; the code as written lets it through (see Findings). `Validation.ValidateAsWritten` models the code and
  `Validation.Validate` the intended check. They agree on every amount that parses
  (`Validation.AsWrittenAgreesWhenParsed`). The store submits through `Validate`.

## Model

| member | source | states |
|---|---|---|
| `Text.Trim` | src/components/ExpenseTracker.jsx:47 | `note.trim()` neither starts nor ends with whitespace (JavaScript's WhiteSpace and LineTerminator set) |
| `Text.TrimIsInfix` | src/components/ExpenseTracker.jsx:62 | the trimmed note is the original note with only whitespace cut from both ends |
| `Text.TrimEmptyIffBlank` | src/components/ExpenseTracker.jsx:47 | a note trims to the empty string exactly when every character of it is whitespace |
| `Text.TrimIdempotent` | src/components/ExpenseTracker.jsx:62 | trimming an already trimmed note changes nothing |
| `Text.Prefix` | src/components/ExpenseTracker.jsx:107 | `substring(0, n)` is a prefix of the string, of length `n`, or the whole string when it is shorter |
| `Text.LexLe` | src/components/ExpenseTracker.jsx:140 | in JavaScript string order a string never comes after a string it is a prefix of (reflexivity included); the order is total (`Text.LexLeTotal`) and transitive (`Text.LexLeTransitive`) |
| `Text.LexLeTotal` | src/components/ExpenseTracker.jsx:140 | any two strings are comparable in string order |
| `Text.LexLeTransitive` | src/components/ExpenseTracker.jsx:140 | string order is transitive |
| `Records.MonthOf` | src/components/ExpenseTracker.jsx:107 | the month key is a prefix of the date, 7 characters long, or the whole date when it is shorter |
| `Records.TrimmedIsFixed` | src/components/ExpenseTracker.jsx:62 | a stored note, being non-empty without surrounding whitespace, is its own `trim()` |
| `Validation.Message` | src/components/ExpenseTracker.jsx:39-49 | every failure sets a non-empty error text |
| `Validation.BlankForm` | src/components/ExpenseTracker.jsx:73 | the reset form of lines 73 and 100 carries today's date and, submitted as it stands, is rejected for its amount |
| `Validation.Validate` | src/components/ExpenseTracker.jsx:38-53 | validation passes only when the amount parsed to a number greater than 0 |
| `Validation.ValidateAsWritten` | src/components/ExpenseTracker.jsx:38-53 | the check as written passes exactly when the amount text is non-empty and does not parse to a number at most 0, the date is present and the note is not all whitespace, so an unparsable amount passes; the corrected check is `Validation.Validate` |
| `Validation.ValidateCases` | src/components/ExpenseTracker.jsx:38-53 | amount, then date, then note, first failure decides: InvalidAmount iff the amount is empty, unparsable or not > 0; MissingDate iff the amount is fine and the date empty; MissingNote iff both are fine and the note is all whitespace; Pass iff all three checks pass |
| `Validation.AsWrittenAgreesWhenParsed` | src/components/ExpenseTracker.jsx:39-50 | the check as written and the intended check give the same verdict whenever the amount is empty or parses |
| `Validation.AsWrittenAcceptsUnparsableAmount` | src/components/ExpenseTracker.jsx:39 | an amount `"abc"` with a date and a note passes the check as written and fails the intended one |
| `Validation.ZeroAmountRejected` | src/components/ExpenseTracker.jsx:39-42 | an amount of `"0"` is rejected with InvalidAmount whatever the date and note |
| `Validation.Normalize` | src/components/ExpenseTracker.jsx:58-64 | the submitted record has the given id, the parsed amount, the trimmed note, the form's date and category, and is well formed (amount > 0, date present, non-empty trimmed note) |
| `Store.ReplaceById` | src/components/ExpenseTracker.jsx:67 | the update keeps the length; each record whose id equals the edited id becomes the new record, every other record stays in its place |
| `Store.ReplaceAbsent` | src/components/ExpenseTracker.jsx:67 | updating an id no record has leaves the list unchanged |
| `Store.ReplaceLookup` | src/components/ExpenseTracker.jsx:59-67 | after an update carrying the edited id, every record with that id is the new record, the new record is present exactly when the id was, and the list of ids is unchanged |
| `Store.ReplaceKeepsOthers` | src/components/ExpenseTracker.jsx:67 | the records with other ids, and their order, are untouched by an update: deleting the id after the update gives what deleting it before gives |
| `Store.ReplaceKeepsWellFormed` | src/components/ExpenseTracker.jsx:67 | an update with a well-formed record keeps every record well formed |
| `Store.ReplaceKeepsUnique` | src/components/ExpenseTracker.jsx:67 | an update carrying the edited id keeps ids unique |
| `Store.ReplaceWithSelf` | src/components/ExpenseTracker.jsx:67 | with unique ids, updating a stored record with itself leaves the list unchanged |
| `Store.RemoveById` | src/components/ExpenseTracker.jsx:93 | delete leaves no record with the id and never lengthens the list; `Store.RemoveByIdSpec` gives the exact result |
| `Store.RemoveByIdSpec` | src/components/ExpenseTracker.jsx:93 | delete returns an order-preserving subsequence in which no record has the id, keeping every copy of each record with another id |
| `Store.RemoveAbsent` | src/components/ExpenseTracker.jsx:93 | deleting an id no record has leaves the list unchanged |
| `Store.RemoveIdempotent` | src/components/ExpenseTracker.jsx:93 | deleting the same id twice is deleting it once |
| `Store.RemoveKeepsUnique` | src/components/ExpenseTracker.jsx:93 | delete keeps ids unique |
| `Store.AppendFreshKeepsUnique` | src/components/ExpenseTracker.jsx:59-70 | appending a record under an id not yet used keeps ids unique |
| `Store.SubmitKeepsInvariants` | src/components/ExpenseTracker.jsx:55-71 | both submit branches keep every record well formed; editing keeps ids unique, adding does too when the fresh id is new |
| `Store.Editing` | src/components/ExpenseTracker.jsx:59-66 | the truthiness test of `editingId`: it holds only for a present id, and never for id 0; `Store.SubmitKeepsInvariants` and `Store.Tracker.Submit` state what each branch does |
| `Store.EditResubmitKeepsList` | src/components/ExpenseTracker.jsx:58-85 | the form `handleEdit` fills in from a stored well-formed record validates, the record `handleSubmit` builds from it is the stored record itself, and the update leaves the list unchanged (the note survives `trim()` by `Records.TrimmedIsFixed`) |
| `Store.Tracker.constructor` | src/components/ExpenseTracker.jsx:5-15 | the initial state: no expenses, not editing, a blank form dated today, no error |
| `Store.Tracker.ValidateForm` | src/components/ExpenseTracker.jsx:38-53 | returns whether the form is valid; sets the error to the first failure's message, or clears it |
| `Store.Tracker.Submit` | src/components/ExpenseTracker.jsx:55-76 | on failure only the error changes; otherwise, while editing, every record with the edited id is replaced by the normalised record keeping that id and editing stops; otherwise the normalised record is appended under the fresh id; the form is reset to today and the error cleared; well-formedness of every record is preserved, and so is id uniqueness when the fresh id is new |
| `Store.Tracker.Edit` | src/components/ExpenseTracker.jsx:78-89 | loads the record into the form, marks its id as being edited, clears the error, leaves the list alone |
| `Store.Tracker.Delete` | src/components/ExpenseTracker.jsx:91-95 | when confirmed, the list becomes the records whose id differs, otherwise it is unchanged; well-formedness and id uniqueness are preserved |
| `Store.Tracker.Cancel` | src/components/ExpenseTracker.jsx:97-102 | stops editing, resets the form to today and clears the error |
| `Seqs.Filter` | src/components/ExpenseTracker.jsx:105-109 | `filter` returns no more elements than it got, and every one it returns passes the test |
| `Seqs.Distinct` | src/components/ExpenseTracker.jsx:139 | `[...new Set(xs)]` has exactly the elements of `xs`, each once; `Seqs.DistinctPrefix` gives their order |
| `Seqs.DistinctSnoc` | src/components/ExpenseTracker.jsx:139 | adding one more element to a `Set` appends it exactly when it is new |
| `Seqs.DistinctPrefix` | src/components/ExpenseTracker.jsx:139 | the distinct elements of a prefix of `xs` are a prefix of those of `xs`, so elements are listed in order of first occurrence |
| `Seqs.Project` | src/components/ExpenseTracker.jsx:139 | `map` keeps the length and applies the function at every position |
| `Seqs.SortDesc` | src/components/ExpenseTracker.jsx:136 | the sort returns a permutation of its input whose keys never increase |
| `Query.FilterExpensesSpec` | src/components/ExpenseTracker.jsx:104-110 | the filter returns an order-preserving subsequence; every record in it matches both the category and the month selection; each matching record is kept as often as it occurs, each other one dropped |
| `Query.FilterExpensesIdempotent` | src/components/ExpenseTracker.jsx:104-110 | filtering the filtered list again with the same selection changes nothing |
| `Query.FilterAllIsIdentity` | src/components/ExpenseTracker.jsx:104-110 | the `{all, all}` selection returns the whole list |
| `Query.Matches` | src/components/ExpenseTracker.jsx:105-108 | every record matches the `{all, all}` selection; `Query.FilterExpensesSpec` gives what the filter keeps under any selection |
| `Query.FilterExpenses` | src/components/ExpenseTracker.jsx:104-110 | the filtered list is no longer than the stored one and every record in it matches the selection; `Query.FilterExpensesSpec` gives the exact result |
| `Query.Total` | src/components/ExpenseTracker.jsx:114 | the total of no records is 0, and the total of records with positive amounts is positive; `Query.TotalAppend` gives additivity |
| `Query.TotalAppend` | src/components/ExpenseTracker.jsx:114 | the total of two lists joined is the sum of their totals |
| `Query.BumpKeys` | src/components/ExpenseTracker.jsx:117 | adding to an existing key keeps the key order; a new key goes last |
| `Query.BumpValue` | src/components/ExpenseTracker.jsx:117 | adding to a key raises that key's value by the amount and no other |
| `Query.BumpTotal` | src/components/ExpenseTracker.jsx:123 | adding an amount raises the sum of all values by that amount |
| `Query.Bump` | src/components/ExpenseTracker.jsx:117 | `acc[k] = (acc[k] \|\| 0) + a` adds at most one entry and leaves the dictionary non-empty; `Query.BumpKeys`, `Query.BumpValue` and `Query.BumpTotal` give its keys, values and sum |
| `Query.Tally` | src/components/ExpenseTracker.jsx:116-125 | the per-key dictionary has at most one entry per record and is non-empty when there are records; `Query.TallyKeys`, `Query.TallyValue` and `Query.TallyTotal` give its keys, values and sum |
| `Query.TallyKeys` | src/components/ExpenseTracker.jsx:116-125 | the keys of a per-category or per-month dictionary are the distinct keys of the records, in order of first occurrence (`Seqs.DistinctPrefix`) |
| `Query.TallyKeysPrefix` | src/components/ExpenseTracker.jsx:116-125 | the keys of the dictionary built from the first records are a prefix of the keys built from all of them: a key's place is fixed by the first record carrying it, which is what decides ties for the top category |
| `Query.TallyValue` | src/components/ExpenseTracker.jsx:116-125 | the value under each key is the total of the records with that key (0 for an absent key) |
| `Query.TallyTotal` | src/components/ExpenseTracker.jsx:116-125 | the values of a per-key dictionary add up to the total of all records |
| `Query.ValueAtKey` | src/components/ExpenseTracker.jsx:117 | with distinct keys, looking up an entry's key yields that entry's value |
| `Query.TallyBreakdown` | src/components/ExpenseTracker.jsx:116-125 | a per-key dictionary has distinct keys, exactly the keys occurring among the records, each holding the total of its records |
| `Query.TopIndex` | src/components/ExpenseTracker.jsx:129-130 | the top entry has a sum no entry exceeds, and every entry before it has a strictly smaller sum (stable sort, first inserted wins) |
| `Query.Average` | src/components/ExpenseTracker.jsx:127 | the average times the count is the total when the count is positive; the average is 0 when there is nothing |
| `Query.TopCategory` | src/components/ExpenseTracker.jsx:129-130 | `topCategory` is `'none'` exactly for an empty breakdown, and its sum is one no entry exceeds; `Query.SummaryTop` gives the tie-break |
| `Query.Summarize` | src/components/ExpenseTracker.jsx:112-133 | the count is the number of records; without records both breakdowns are empty and the top is `'none'`, with records neither; `Query.SummaryTotals`, `Query.SummaryBreakdowns` and `Query.SummaryTop` give the rest |
| `Query.GetSummary` | src/components/ExpenseTracker.jsx:112-133 | the summary counts no more records than are stored, and all of them under the `{all, all}` selection |
| `Query.SummaryTotals` | src/components/ExpenseTracker.jsx:112-132 | `total` is the sum over the filtered records, `count` their number, the average is `Average` of the two, and the per-category and the per-month sums each add up to `total` |
| `Query.SummaryBreakdowns` | src/components/ExpenseTracker.jsx:116-125 | `byCategory` and `byMonth` have distinct keys, a key for exactly each category (month) present among the filtered records, each holding the total of those records |
| `Query.SummaryTop` | src/components/ExpenseTracker.jsx:129-130 | `topCategory` is `('none', 0)` exactly when nothing is shown; otherwise it is a `byCategory` entry whose sum none exceeds, every earlier entry's sum being strictly smaller |
| `Query.SummaryOfNothing` | src/components/ExpenseTracker.jsx:112-132 | the summary of an empty selection is total 0, no breakdown entries, count 0, average 0, top `('none', 0)` |
| `Query.DisplayOrder` | src/components/ExpenseTracker.jsx:136 | the displayed list is a permutation of the filtered list, most recent date first |
| `Query.MonthsPresent` | src/components/ExpenseTracker.jsx:139 | the distinct months are exactly the months some record falls in |
| `Query.StrictlyDescending` | src/components/ExpenseTracker.jsx:140 | a duplicate-free list sorted descending is strictly descending |
| `Query.MonthOptions` | src/components/ExpenseTracker.jsx:138-141 | the month options hold each month of some stored record, and only those, once each, in strictly descending order |
| `Query.TwoRecordsSummary` | src/components/ExpenseTracker.jsx:112-133 | for the records food 450 on 2025-10-05 and bills 1200 on 2025-10-04: total 1650, count 2, average 825, top category `('bills', 1200)` |
| `Query.TwoRecordsFoodFilter` | src/components/ExpenseTracker.jsx:104-110 | selecting `food` over those two records keeps only the first |

## Left out

- The JSX rendering, the form fields' `onChange` wiring, `setFilter` and `showForm` (lines 169-429, line 6): presentation. The filter selection is a parameter of the queries.
- `getCategoryBadge`, `getCategoryBar` and the category labels and colours (lines 17-25, 143-167): styling. Only the closed set of tags is kept.
- `window.confirm` (line 92) is the `confirmed` parameter of `Store.Tracker.Delete`; `window.scrollTo` (line 88) is dropped.
- `Date.now()` (line 59) is the `freshId` parameter, and `new Date().toISOString()` (lines 10, 73, 100) the `today` parameter.
- `parseFloat` itself and floating-point arithmetic: the parse result is an input and amounts are exact reals, so float rounding in sums and averages is not modelled.
- `amount.toString()` in `handleEdit` (line 80) is the `amountText` parameter of `Store.Tracker.Edit`.
- `toFixed`, `toLocaleDateString` and the percentage bar (lines 194, 328, 342, 393): display formatting.
- The demo records seeded by `useEffect` (lines 27-36): not an operation of the model. Two of them serve as the scenario in `Query.TwoRecordsSummary` and `Query.TwoRecordsFoodFilter`.
- Dates that `new Date` cannot parse: the model orders dates as strings and does not model `NaN` comparisons.
- String order compares Unicode code points, while JavaScript compares UTF-16 code units. The two differ only between characters above U+FFFF and those in U+E000-U+FFFF; dates and months are ASCII.
- Query.DisplayOrder: the sort is stable by construction, but its stability is not stated or proved.
- Query.MonthOptions: `.sort().reverse()` is modelled as one descending sort. On a duplicate-free list both give the same sequence; that equality is not proved.
- Store.Tracker.Submit: React applies the `set...` calls of one handler together after it returns; the model applies them in order within the method, which gives the same final state.
- The check as written stores `NaN` for an unparsable amount; the model does not carry that path into the store (see Findings).
- Id uniqueness is not enforced by the component (two adds in the same millisecond collide); the model proves it is preserved only when the fresh id is unused.

## Findings

| source | as written | input that shows it | evidently intended | confidence | as-written member | corrected member |
|---|---|---|---|---|---|---|
| src/components/ExpenseTracker.jsx:39 | `!formData.amount \|\| parseFloat(formData.amount) <= 0` rejects only an empty or non-positive amount; `parseFloat` of non-numeric text is `NaN`, and `NaN <= 0` is false | amount text `"abc"`, date `"2025-01-01"`, note `"x"`: validation passes and `NaN` would be stored as the amount | reject every amount that does not parse to a number greater than 0, with "Please enter a valid amount greater than 0" | low, not executed: the field is `type="number"` (line 244), so a browser normally hands over `""` for non-numeric text | `Validation.AsWrittenAcceptsUnparsableAmount` | `Validation.Validate` |
