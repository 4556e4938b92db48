# Lead CRM front-end: CSV import, lead filters and dashboard counts

This project models three pieces of logic in a small lead-management front-end. It proves their properties in Dafny.

- **CSV lead import** (`handleFileUpload` in `src/components/ImportData.tsx`):
  - The uploaded text is split on `\n`, and blank lines are dropped.
  - The first remaining line names the columns. Every cell is trimmed and loses its `"` characters.
  - Headers are matched case-insensitively against a fixed Polish/English synonym table.
  - Every further line becomes a record with `status = new` and `call_status = pending`, which is sent to the record store.
  - A line without a name counts as an error.
  - A success counter and an error counter produce the result banner.
  - The import is a method with a loop (`ImportData.HandleFileUpload`, `ImportData.ImportLines`, `ImportData.BuildRecord`). It is proved equal to a functional specification (`ImportData.Import`, `ImportData.Process`), and the properties are proved about that specification.
- **Lead search and call-status filter** (`applyFilters`, `getFilterTitle` and `getStatusBadge` in `src/components/Leads.tsx`): pure functions over the list of fetched leads.
- **Dashboard counts** (`loadDashboardData` in `src/components/Dashboard.tsx`):
  - It counts the five most recent leads by the same call-status buckets the leads page uses.
  - It shows the three totals reported by the store, with 0 when a total is missing.
  - The bucket counts cover only those five recent leads, not every lead. The model keeps that behaviour.

How the outside world is represented:
- **Record store.** The import sees the store only as an oracle `RecordStore = (nat, NewLead) -> InsertOutcome`, which gives its answer to the k-th insert request. The answer is stored, an error returned, or an exception thrown.
- **Dashboard queries.** Their answers are inputs to `Dashboard.LoadDashboard`:
  - the newest-first rows (already sorted by the store);
  - three optional counts.
- **File input.** The upload is `NoFile`, `Unreadable` (the text could not be read) or the text itself.

Modules:
- `Text` (`text.dfy`): the JavaScript string operations the code relies on:
  - `trim` with the ECMAScript white-space and line-terminator set;
  - `split` on one character;
  - `toLowerCase`;
  - `includes`;
  - `replace(/"/g, '')`;
  - decimal formatting of a count.
- `Seqs` (`seqs.dfy`): `Array.prototype.filter` over sequences and what it keeps.
- `LeadTypes` (`lead_types.dfy`): the `Lead` record and its two status enums.
- `Leads` (`leads.dfy`), `Dashboard` (`dashboard.dfy`), `ImportData` (`import_data.dfy`): the three pieces above.

## Model

| member | source | states |
|---|---|---|
| Text.Trim | src/components/ImportData.tsx:18 | `line.trim()` is empty exactly when the line is all white space; otherwise it starts and ends with a non-white-space character and is no longer than the line |
| Text.TrimIsCore | src/components/ImportData.tsx:26 | trimming is fully determined: a white-space prefix, a core with non-white-space ends and a white-space suffix trim to that core |
| Text.TrimIgnoresPadding | src/components/ImportData.tsx:26 | white space added around a text, a CRLF line's `\r` included, does not change its trimmed value |
| Text.RemoveQuotes | src/components/ImportData.tsx:26 | `replace(/"/g, '')` leaves no double quote and never lengthens the text |
| Text.RemoveQuotesKeepsUnquoted | src/components/ImportData.tsx:34 | a value without a double quote passes the quote removal unchanged |
| Text.RemoveQuotesAppend | src/components/ImportData.tsx:34 | quote removal works character by character: removing from a concatenation is concatenating the removals |
| Text.Lower | src/components/ImportData.tsx:41 | `toLowerCase` keeps the length and maps every character independently (ASCII letters to lower case) |
| Text.LowerIdempotent | src/components/Leads.tsx:49 | lowering an already lowered text changes nothing |
| Text.Split | src/components/ImportData.tsx:18 | `split` on one character yields at least one piece, and no piece contains the separator |
| Text.JoinSplit | src/components/ImportData.tsx:18 | splitting loses nothing: joining the pieces with the separator gives the text back |
| Text.SplitAfterPiece | src/components/ImportData.tsx:34 | a separator-free piece followed by the separator becomes the first piece on its own |
| Text.SplitWithoutSeparator | src/components/ImportData.tsx:34 | a text without the separator splits into itself alone |
| Text.SplitPiecesFromText | src/components/ImportData.tsx:18 | every character of every piece occurs in the split text |
| Text.ContainsIff | src/components/Leads.tsx:49-51 | `includes` holds exactly when the needle occurs in the text at some position |
| Text.ContainsSelf | src/components/Leads.tsx:49 | every text includes itself |
| Text.NatToString | src/components/ImportData.tsx:104 | `${n}` is a non-empty string of decimal digits with no leading zero unless the number is 0 |
| Text.NatToStringRoundTrip | src/components/ImportData.tsx:104 | reading the formatted digits back gives the count |
| Seqs.Select | src/components/Leads.tsx:47-52 | `filter` keeps only elements satisfying the predicate and never lengthens the list |
| Seqs.SelectMembers | src/components/Leads.tsx:47-52 | an element is kept exactly when it is in the list and satisfies the predicate |
| Seqs.SelectIsSubsequence | src/components/Leads.tsx:44-73 | `filter` returns the elements at the increasing positions whose element satisfies the predicate, exactly those positions |
| Seqs.SelectAllKept | src/components/Leads.tsx:44 | a predicate every element satisfies keeps the list unchanged |
| Seqs.SelectSelect | src/components/Leads.tsx:46-73 | two filters in a row are one filter by the conjunction |
| Seqs.SelectDisjointUnion | src/components/Dashboard.tsx:48-52 | counts under two never-overlapping predicates add up to the count under their disjunction |
| Seqs.SelectCongruent | src/components/Dashboard.tsx:48 | predicates that agree on every element keep the same elements |
| Seqs.SelectNoneKept | src/components/ImportData.tsx:18 | a predicate no element satisfies keeps nothing |
| Leads.ApplyFilters | src/components/Leads.tsx:43-76 | the filtered list is never longer than the fetched leads |
| Leads.ApplyFiltersIsConjunction | src/components/Leads.tsx:44-75 | the search and the bucket filter compose as one filter by "search matches (or query empty) and bucket matches" |
| Leads.ApplyFiltersMembers | src/components/Leads.tsx:46-73 | a lead is shown iff it was fetched, and either the query is empty or the lower-cased name or e-mail includes the lower-cased query or the phone includes the query, and it is in the filter's bucket (`all`: every lead) |
| Leads.ApplyFiltersKeepsOrder | src/components/Leads.tsx:44-73 | the shown leads are the fetched leads at increasing positions, exactly the positions of the visible leads: nothing added, duplicated or reordered |
| Leads.ApplyFiltersIdempotent | src/components/Leads.tsx:43-76 | filtering the shown leads again with the same query and filter shows the same leads |
| Leads.BucketsDisjoint | src/components/Leads.tsx:55-73 | no lead is in two different call-status buckets |
| Leads.FilterTitle | src/components/Leads.tsx:78-95 | every filter tag has a non-empty heading |
| Leads.FilterTitlesDistinct | src/components/Leads.tsx:78-95 | different filters have different headings |
| Leads.StatusBadge | src/components/Leads.tsx:97-107 | an absent call status gets the pending badge; a present one gets its own `statusMap` entry |
| Leads.BadgeLabelsDistinct | src/components/Leads.tsx:99-105 | the five call statuses have five different labels |
| Leads.BadgeAgreesWithFilter | src/components/Leads.tsx:78-107 | a lead in the "new" bucket wears the pending badge; a lead in any other bucket wears the label that is that filter's heading |
| Dashboard.RecentSnapshot | src/components/Dashboard.tsx:26-30 | the recent leads are the first min(5, n) rows of the newest-first answer, or none when the query gave no data |
| Dashboard.CountWhere | src/components/Dashboard.tsx:48-52 | a bucket count never exceeds the number of leads counted |
| Dashboard.LoadDashboard | src/components/Dashboard.tsx:44-57 | the recent list is the snapshot unchanged; each missing total reads as 0, and each present total is reported as given |
| Dashboard.CountMatchesFilter | src/components/Dashboard.tsx:48-52 | counting by a predicate equal to a bucket gives the length of the leads page's list under that filter with an empty search |
| Dashboard.StatsAgreeWithLeadsPage | src/components/Dashboard.tsx:48-52 | each of the five dashboard counts equals the number of snapshot leads the leads page shows under the matching filter |
| Dashboard.BucketCountsDisjoint | src/components/Dashboard.tsx:48-52 | the five bucket counts of any list add up to at most its length |
| Dashboard.BucketCountsBounded | src/components/Dashboard.tsx:26-30 | the five dashboard counts add up to at most the recent list, which has at most 5 leads |
| ImportData.NonBlankLines | src/components/ImportData.tsx:18 | no kept line is all white space |
| ImportData.LeadingBlankLineDropped | src/components/ImportData.tsx:18-26 | a blank first line is dropped, so it never becomes the header row |
| ImportData.BlankTextHasNoLines | src/components/ImportData.tsx:18-20 | an empty or all-white-space file has no lines |
| ImportData.Clean | src/components/ImportData.tsx:26 | a cleaned header or value contains no double quote |
| ImportData.Cells | src/components/ImportData.tsx:34 | a line has one cell per comma-separated piece, each piece cleaned |
| ImportData.CleanIgnoresPadding | src/components/ImportData.tsx:26 | white space around a cell, the `\r` of a CRLF line included, is removed |
| ImportData.QuotedCellKeepsInnerWhitespace | src/components/ImportData.tsx:34 | since trimming comes before quote removal, white space inside quotes survives |
| ImportData.QuotedCommaPieces | src/components/ImportData.tsx:34 | the comma split ignores quotes |
| ImportData.HalfQuotedCells | src/components/ImportData.tsx:34 | a quote at either end of a cell is deleted |
| ImportData.QuotedCommaSplits | src/components/ImportData.tsx:34 | a comma inside quotes still splits the cell in two |
| ImportData.HeaderMatchIgnoresCaseAndPadding | src/components/ImportData.tsx:26-41 | the field a header names does not depend on its case or on padding around the cell |
| ImportData.NazwaNamesName | src/components/ImportData.tsx:41-44 | `nazwa` and `Nazwa` both name the lead's name |
| ImportData.PaddedNazwaCleaned | src/components/ImportData.tsx:26 | the header cell ` Nazwa ` cleans to `Nazwa` |
| ImportData.PaddedHeaderMatches | src/components/ImportData.tsx:26-44 | the padded, capitalised header cell ` Nazwa ` names the lead's name |
| ImportData.FieldsUpTo | src/components/ImportData.tsx:37-39 | no field of a record is empty |
| ImportData.FieldFilledIff | src/components/ImportData.tsx:37-77 | a field is in the record iff some column has a non-empty value and a header naming that field; unknown headers, columns past the values and empty values fill nothing |
| ImportData.LaterColumnWins | src/components/ImportData.tsx:37-77 | when several columns supply a field, the record holds the last one's value |
| ImportData.UnknownColumnIgnored | src/components/ImportData.tsx:41-76 | whatever a column with an unrecognised header holds, the record is the same |
| ImportData.ExtraValuesIgnored | src/components/ImportData.tsx:37-38 | values past the last header do not change the record |
| ImportData.Draft | src/components/ImportData.tsx:79-85 | a line yields no record iff its record has no name; a record it yields has a non-empty name, no empty field, `status = new` and `call_status = pending` |
| ImportData.Drafts | src/components/ImportData.tsx:32-87 | at most one record per line, each of them fit to send |
| ImportData.Accepted | src/components/ImportData.tsx:87-94 | the store accepted at most as many requests as it was sent |
| ImportData.ProcessClosedForm | src/components/ImportData.tsx:27-99 | every line is counted once, as success or error; the store is sent exactly the named lines' records in order, whatever it answers; the successes are the requests it accepted |
| ImportData.NamelessLineIsError | src/components/ImportData.tsx:79-82 | a line without a name adds one error and sends nothing |
| ImportData.FailedInsertIsError | src/components/ImportData.tsx:87-98 | an insert the store rejects or that throws adds one error, and the loop goes on with the next line |
| ImportData.ProcessOneMore | src/components/ImportData.tsx:32-99 | the tally after one more line is one more turn of the loop |
| ImportData.BuildRecord | src/components/ImportData.tsx:35-77 | the header `forEach` builds the record the line's columns specify |
| ImportData.StepCases | src/components/ImportData.tsx:79-94 | one turn of the loop, spelled out for the record the line yields |
| ImportData.ImportLines | src/components/ImportData.tsx:29-99 | the loop's counters and its sent records are those the specification gives for the data lines; every record sent is fit to send |
| ImportData.HandleFileUpload | src/components/ImportData.tsx:17-108 | the banner and the records sent are those of the specification for the upload; every record sent has a name, no empty field, and the `new`/`pending` statuses |
| ImportData.ImportAccounting | src/components/ImportData.tsx:17-105 | a readable file always gets a banner: with no non-blank line it is `Plik jest pusty` and nothing is sent; otherwise successes + errors = non-blank lines - 1, the named lines' records are sent, and the successes are those the store accepted |
| ImportData.BlankFileIsEmpty | src/components/ImportData.tsx:20-24 | an empty or blank file reports `Plik jest pusty` and sends nothing |
| ImportData.SubmissionsIndependentOfStore | src/components/ImportData.tsx:87-98 | what is sent to the store never depends on the store's answers: a failed insert does not stop the import |
| ImportData.ImportedLeadIsNew | src/types/index.ts:1-15 | an imported lead, once stored, is in the leads page's "new" bucket, wears the pending badge and is found by searching for its own name |

## Left out

- Text.Lower: only ASCII letters are lowered. JavaScript's `toLowerCase` uses the full Unicode mapping, including context-dependent and length-changing cases. Dafny characters are Unicode scalar values, not UTF-16 code units.
- The record store, a hosted service, is an oracle parameter. The insert request, the `select ... order ... limit(5)` query and the three `count` queries are all left out. The oracle's answers and the query results are inputs. The store's sorting by `created_at` is taken as given in the newest-first rows.
- `file.text()` is an input: it either gives the text or fails (`Unreadable`). How reading can fail is not modelled.
- `console.error` logging, `async`/`await` scheduling, the `importing` busy flag and the `setResult` / `setStats` / `setRecentLeads` / `setFilteredLeads` state writes are left out. The model returns the values those writes would store, and the import is a sequential loop.
- `loadLeads` in `src/components/Leads.tsx` is not part of this model. The leads are an input to `Leads.ApplyFilters`. A failed dashboard query is modelled as "no rows" / "no count", which is what its `|| []` and `|| 0` defaults give.
- Leads.FilterTitle: the `default` branch of `getFilterTitle` (`Leady`) is unreachable for the six filter tags the type allows, so the model has no such case.
- Leads.StatusBadge: the `|| statusMap.pending` fallback covers values outside the five call statuses. The model's status type has no such value, so only the absent-status case is modelled.
- The badge's CSS class strings are kept as data. Nothing is proved about them.
- JSX rendering, `downloadTemplate` (Blob, object URLs, DOM anchor), `toLocaleDateString` and the add-lead modal are left out.
- `src/components/Login.tsx` and `App.tsx` are not part of this model. They are authentication and navigation glue.
- The naive comma split is modelled as written: a comma inside quotes splits the cell (`ImportData.QuotedCommaSplits`).
