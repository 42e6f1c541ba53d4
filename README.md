# Open-jobs tracker: import reconciliation, analytics and HTML export in Dafny

This project models the core of a small desktop tracker for installation jobs.
Jobs are keyed by their invoice number (`Invoice #`).

- **Import reconciliation.** `process_data` merges a freshly imported batch of
  jobs into the persisted job table. Each key is one of three kinds:
  - a **new** job is in the import only;
  - a **continuing** job is in both;
  - a **missing** job is persisted only.

  Each kind has its own rule for filling the fields. Source fields come from
  the import. `Status` and `Notes` belong to the user and are never imported.
  A missing job gets the sentinel status `Review - Missing from Report` and a
  timestamped alert in front of its notes. Every output row has the ten
  configured columns.

  Dates parsed into the current year but lying in the future are moved back
  one year (`_adjust_ambiguous_date_years`).
- **Analytics.** These are the record-processing parts of the reporting view:
  - the open-job filter;
  - currency coercion with a zero fallback;
  - job age in whole days and five right-closed age buckets;
  - "stuck" and "high-value aging" jobs;
  - invoice, balance and collected totals, overall, per coordinator and per bucket;
  - status counts;
  - the coordinator tab registry that `display_all_stats` keeps up to date.
- **HTML export.** This covers the mapping from display tags to CSS classes,
  the conversion of one tagged text segment to HTML, and the coordinator
  section of the exported report.
- **Configuration.** These are the schema constants everything above is built on.

Modules, one per concern:

| file | module | models |
|---|---|---|
| `wrappers.dfy` | `Wrappers` | `Option` |
| `config.dfy` | `Config` | config.py constants |
| `pystrings.dfy` | `PyStrings` | the Python string operations the core uses: whitespace and newline `strip`, `replace`, `join`, `str` of an integer, decimal parsing, string order and `sorted` |
| `cells.dfy` | `Cells` | the values a table cell can hold (missing, text, integer, number, timestamp) and their `str` |
| `dates.dfy` | `DateAdjust` | `_adjust_ambiguous_date_years` |
| `reconcile.dfy` | `Reconciliation` | `process_data`: a specification function `Reconcile` and the imperative `ProcessData` proved equal to it |
| `reconcile_props.dfy` | `ReconcileProperties` | the per-kind rules, the user-owned columns, re-runs, the missing-job alert |
| `merge_as_written.dfy` | `MergeAsWritten` | the joined row that the outer merge really produces, and the two field-loss defects (see Findings) |
| `analytics.dfy` | `Analytics` | `_prepare_open_jobs_data` and the report computations |
| `reporting.dfy` | `Reporting` | the `coordinator_tabs_widgets` registry as a class, `_create_or_get_coordinator_tab`, `display_all_stats` |
| `html_export.dfy` | `HtmlExport` | `_tkinter_tag_to_css_class`, `_convert_tkinter_text_to_html`, the coordinator section of `_generate_html_content` |

A table is a sequence of rows. A row is a sequence of ten cells, in the order
of `EXPECTED_COLUMNS`. The import is a `Frame`: column names, as read, plus rows
of cells. The clock becomes parameters:
- the alert's timestamp is an opaque string;
- `now` and `today` are `Timestamp` values;
- `DateOffset(years=1)` is a function parameter `yearBack`. All the model asks of it is that it lands in the previous year and earlier in time.

Money is an exact `real`.

`process_data` works imperatively. It visits each merged key, fills an entries
dictionary column by column, completes missing columns with defaults, and appends the row.
`ProcessData` has the same structure, with loops over `map` and `seq` values. It
is proved equal to the specification function `Reconcile`, and the properties are
proved about `Reconcile`.

`ProcessData` and `Reconcile` implement the corrected reading of two rules, not the code as written:
- a new job takes each source field from the import (data_utils.py:288 reads `row.get(col)`, which is always empty);
- a continuing job keeps the persisted value of a source column the import lacks
  (data_utils.py:326-334 reads `col_new` and `col_old`, which are both absent for such a column).

`MergeAsWritten` models the merged row and both rules as written, and exhibits the two
defects (see Findings).

The reporting view's tab registry is the class `Reporting.ReportingTab`. Its
fields are:
- the dictionary's keys, in insertion order;
- the label each tab shows.

Its methods are proved against the key-sequence functions `AddTabsFor`,
`KeepKeys` and `RefreshedTabs`.

Two things are modelled as written:
- The coordinator section is written in sorted key order. Its heading reads
  the name back with `_dot_` → `.`. That read-back is exact for names without `_`.
  `Reporting.DisplayNameMisreads` shows a name it misreads, and
  `Reporting.SafeNamesCollide` shows two coordinators that share one tab.
- A new coordinator tab is labelled with the first 20 characters of its key.
  The key is the sanitised name, not the display name: `_populate_coordinator_tab`
  sanitises the name before calling `_create_or_get_coordinator_tab`, which
  uses its argument as the label.

Everywhere else the model follows the code. For the two rules above, `Reconcile`
follows the intent stated in the code's own comments:
- data_utils.py:288 says the new-job read "refers to columns from new_df_sanitized";
- data_utils.py:325 says the continuing-job source columns "have _new and _old suffixes".

The code as written is `MergeAsWritten` (see Findings).

## Model

| member | source | states |
|---|---|---|
| Config.ExpectedColumnsShape | config.py:26-30 | ten distinct column names, the key `Invoice #` first, `Status` and `Notes` last, and each named column at its index |
| Config.StatusEnumerationContents | config.py:33-41 | the sentinel `Review - Missing from Report`, `New`, `Closed` and `Cancelled/Postponed` are allowed statuses |
| Config.CurrencyColumnsAreExpected | config.py:21 | every currency column is one of the expected columns |
| Config.PreferredWidthsWithinBounds | config.py:45-58 | every expected column has a preferred width, and every preferred width lies within [MIN_COLUMN_WIDTH, MAX_COLUMN_WIDTH] |
| Cells.IntKeysNormalise | data_utils.py:237-240 | an integer key and its decimal text become the same string key, and distinct integer keys stay distinct |
| DateAdjust.AdjustAmbiguousDateYears | data_utils.py:25-41 | a series that is empty or not of dates comes back unchanged. In a date series, exactly the entries dated in the current year and later than now are moved back a year, and all others are kept |
| DateAdjust.NoFutureDateRemains | data_utils.py:32-38 | after the adjustment, no entry of a date series is in the current year and in the future |
| DateAdjust.AdjustIdempotent | data_utils.py:32-41 | adjusting an adjusted series changes nothing |
| DateAdjust.AdjustedDatesMoveBack | data_utils.py:33-38 | an entry that changed was ambiguous and now lies in the previous year, earlier than before |
| Reconciliation.MergedKeys | data_utils.py:261-268 | the outer merge's keys are exactly the union of the import's and the persisted keys, in sorted order |
| Reconciliation.RowForKey | data_utils.py:274-334 | every merged key yields a full row of ten cells carrying that key |
| Reconciliation.Reconcile | data_utils.py:230-268 | the result is None exactly when no import column, once sanitised, is `Invoice #`; otherwise it is a table of full rows |
| Reconciliation.NewJobEntries | data_utils.py:278-289 | the entries filled for a new job describe the new-job row, by the corrected rule: source fields are read from the import (the as-written read is `MergeAsWritten.NewJobAsWrittenDropsImportedFields`) |
| Reconciliation.MissingJobEntries | data_utils.py:292-315 | the entries filled for a missing job describe the missing-job row, with the alert prepended to the notes |
| Reconciliation.ContinuingJobEntries | data_utils.py:318-334 | the entries filled for a continuing job describe the continuing-job row, by the corrected rule: a source column the import lacks keeps its persisted value (the as-written read is `MergeAsWritten.ContinuingAsWrittenDropsUnimportedFields`) |
| Reconciliation.CompleteEntries | data_utils.py:337-343 | completion keeps every filled entry. Every expected column left unset gets its default: `New` for `Status`, `""` for `Notes`, and a missing value otherwise. No other key is added |
| Reconciliation.ReconcileKey | data_utils.py:274-345 | the row built for one merged key is the specified row for that key |
| Reconciliation.ReconcileKeys | data_utils.py:271-345 | the loop over the merged keys yields, in order, the specified row of each key |
| Reconciliation.ProcessData | data_utils.py:209-362 | with unique keys on both sides, the imperative merge returns exactly `Reconcile`'s result, None included |
| ReconcileProperties.NoKeyColumnNoResult | data_utils.py:230-235 | an import without an `Invoice #` column gives None, not a partial table |
| ReconcileProperties.KeysOfReconciled | data_utils.py:261-268 | the output's keys are the merged keys, in merge order |
| ReconcileProperties.OneRowPerKey | data_utils.py:261-268 | the output keys are sorted and are exactly the union of both key sets. With unique keys there is one row per key |
| ReconcileProperties.LookupReconciled | data_utils.py:274-345 | looking up a key in the output gives the row specified for that key |
| ReconcileProperties.EmptyMergeEmptyTable | data_utils.py:347-354 | an empty import merged into an empty table gives an empty table |
| ReconcileProperties.ResultIsSnapshot | data_utils.py:337-359 | when the import's dates are converted, every output row has all ten columns with its two date cells holding dates or nothing, so the output can be persisted and merged again |
| ReconcileProperties.NewJobPolicy | data_utils.py:278-289 | a job only in the import gets status `New`, empty notes, its key, and every source field from the import; a source column the import lacks is left empty |
| ReconcileProperties.ContinuingJobPolicy | data_utils.py:318-334 | a job in both keeps its persisted status and notes, or `New` and empty notes when those are missing. Each source field takes the imported value unless that value is missing, else keeps the persisted one |
| ReconcileProperties.MissingJobPolicy | data_utils.py:292-315 | a job only in the persisted table keeps every persisted source field, gets the sentinel status, and gets notes made of the alert in front of its prior notes |
| ReconcileProperties.RowsAgreeOnSourceColumns | data_utils.py:251-252 | two import rows that differ only in `Status` and `Notes` yield the same new-job row and the same continuing-job row |
| ReconcileProperties.UserColumnsNeverImported | data_utils.py:251-252 | two imports that differ only in their `Status` and `Notes` columns give the same result |
| ReconcileProperties.NewJobRowIsStable | data_utils.py:318-334 | merging the same import row again into a new job's row changes nothing |
| ReconcileProperties.ContinuingRowIsStable | data_utils.py:318-334 | merging the same import row again into a continuing job's row changes nothing |
| ReconcileProperties.RerunKeepsImportedJobs | data_utils.py:318-334 | merging the same import a second time into the first result gives every imported job the same row again, status and notes included |
| ReconcileProperties.AlertQuotesPriorStatus | data_utils.py:311-314 | the alert quotes the prior status exactly when that status is set and is not already the sentinel, and then it contains `Previous status: '<status>'.` |
| ReconcileProperties.AlertShape | data_utils.py:311-314 | the alert is non-empty and neither starts nor ends with whitespace |
| ReconcileProperties.MissingNotesLeadWithAlert | data_utils.py:315 | the stripped notes are the alert followed by the separator and prior notes, trimmed only at their end |
| ReconcileProperties.MissingNotesKeepPriorNotes | data_utils.py:307-315 | prior notes that end in a visible character are kept whole after the alert and the `\n-----\n` separator |
| ReconcileProperties.MissingNotesWithoutPriorNotes | data_utils.py:307-315 | without prior notes the notes are the alert followed by `\n-----` |
| ReconcileProperties.MissingTwice | data_utils.py:309-315 | a job missing from two imports in a row gets the newer alert first, without quoting the sentinel, above the first alert and the original notes |
| MergeAsWritten.JoinedOldEntry | data_utils.py:261-268 | in the merged row, a persisted field of an imported column is found under `<column>_old`, and any other persisted field under its plain name |
| MergeAsWritten.JoinedNewEntry | data_utils.py:261-268 | in the merged row, an imported field is found under `<column>_new` |
| MergeAsWritten.JoinedPlainAbsent | data_utils.py:261-268 | an imported column has no plain-named entry in the merged row |
| MergeAsWritten.JoinedSuffixedAbsent | data_utils.py:261-268 | a column the import lacks has no `_old` or `_new` entry in the merged row |
| MergeAsWritten.NewJobAsWrittenDropsImportedFields | data_utils.py:288-289 | as written, a new job's row is empty in every imported source column |
| MergeAsWritten.ContinuingAsWrittenDropsUnimportedFields | data_utils.py:326-334 | as written, a continuing job's row is empty in every source column the import lacks |
| MergeAsWritten.ContinuingAsWrittenAgreesOnImportedFields | data_utils.py:318-334 | as written, a continuing job's key, status, notes and imported columns agree with the intended row |
| MergeAsWritten.MissingAsWrittenAgrees | data_utils.py:292-315 | as written, a missing job's row is the intended one |
| MergeAsWritten.NewJobLosesAccount | data_utils.py:288 | the import `{Invoice #: 7, Account: Acme}` gives a new job with an empty account as written, and `Acme` as intended |
| MergeAsWritten.ContinuingJobLosesSalesperson | data_utils.py:326-334 | a persisted job with salesperson `Kim` is reimported by an import without a `Salesperson` column. As written it loses `Kim`; as intended it keeps it |
| PyStrings.StripEmptyIff | export_tab.py:136 | `strip()` gives the empty string exactly when every character is whitespace |
| PyStrings.StripAfterNonSpaceHead | data_utils.py:315 | stripping text that starts and ends with a visible character only trims what follows |
| PyStrings.ReplaceCharRemoves | reporting_tab.py:193 | after replacing a character by text without it, the character is gone, and text without it is unchanged |
| PyStrings.ReplaceCharMembers | reporting_tab.py:193 | replacement brings in no character that is in neither the text nor the replacement |
| PyStrings.ReplaceCharSingle | reporting_tab.py:193 | the character on its own becomes the replacement |
| PyStrings.ReplaceCharConcat | reporting_tab.py:193 | replacement works piece by piece over concatenation; with the one-character case, every occurrence becomes the replacement |
| PyStrings.IntTextInjective | data_utils.py:237 | `str` of distinct integers gives distinct texts |
| PyStrings.IntTextParses | reporting_tab.py:193-199 | the decimal text of an integer reads back as that integer |
| PyStrings.StrLeTotal | reporting_tab.py:424 | any two strings are ordered one way or the other |
| PyStrings.StrLeTransitive | reporting_tab.py:424 | string order is transitive |
| PyStrings.StrLeAntisymmetric | reporting_tab.py:424 | strings ordered both ways are equal |
| PyStrings.SortStrings | reporting_tab.py:424 | `sorted` gives an ordered permutation of its input |
| PyStrings.SortedDistinct | export_tab.py:206 | sorting distinct keys gives each key exactly once |
| Analytics.OpenRows | reporting_tab.py:184-185 | every kept row is open and comes from the input, and every open input row is kept |
| Analytics.OpenRowsAppend | reporting_tab.py:185 | the filter distributes over concatenation, so the open rows keep their input order |
| Analytics.OpenRowsCount | reporting_tab.py:185 | each row whose status is not `Closed`, `Cancelled/Postponed` or the sentinel is kept as often as it occurs, and no other row is kept |
| Analytics.FilterOpen | reporting_tab.py:184-185 | the filtering loop returns exactly the open rows |
| Analytics.CurrencyIgnoresDollar | reporting_tab.py:193 | a `$` anywhere in an amount does not change its value |
| Analytics.CurrencyIgnoresSeparator | reporting_tab.py:193 | a `,` anywhere in an amount does not change its value |
| Analytics.CurrencyWithSeparator | reporting_tab.py:192-199 | `$1,250` is worth 1250 |
| Analytics.CurrencyWithCents | reporting_tab.py:192-199 | `7.50` is worth 7.5 |
| Analytics.CurrencyNegative | reporting_tab.py:192-199 | `-$75` is worth -75 |
| Analytics.CurrencyUnreadable | reporting_tab.py:192-199 | `N/A` is worth 0 rather than failing |
| Analytics.CurrencyOfInt | reporting_tab.py:192-199 | an integer amount is worth itself |
| Analytics.CurrencyOfReal | reporting_tab.py:192-199 | a float amount with at most one decimal place, printed by `str` and read back, keeps its value |
| Analytics.CurrencyOfNull | reporting_tab.py:192-199 | a missing amount is worth 0 |
| Analytics.JobAgeIsWholeDays | reporting_tab.py:204-211 | the age is missing exactly when there is no turn-in date; otherwise it is the number of whole days elapsed, rounded down |
| Analytics.BucketsAreRightClosedBins | reporting_tab.py:215-224 | an age is in bucket k exactly when it lies in (edge k, edge k+1] of -1, 7, 21, 49, 56, with the last bucket unbounded; ages at or below -1 are in no bucket |
| Analytics.BucketBoundaries | reporting_tab.py:215-224 | 0 and 7 are in the first bucket, 8 and 21 in the second, 22 and 49 in the third, 50 and 56 in the fourth, 57 in the fifth, and -1 is in none |
| Analytics.BucketsDistinct | reporting_tab.py:217-224 | the five buckets are distinct and every bucket is one of them |
| Analytics.AnnotateAll | reporting_tab.py:192-230 | the loop that derives amounts, age and bucket gives each open job its derived columns, in order |
| Analytics.PrepareOpenJobs | reporting_tab.py:176-232 | preparing the table gives nothing without jobs, and otherwise the open jobs with their derived columns |
| Analytics.AnnotateRowsInOrder | reporting_tab.py:192-230 | the i-th prepared job is the i-th open row with its derived columns |
| Analytics.AnnotateRowsMembers | reporting_tab.py:192-230 | every prepared job comes from an input row and has the bucket of its age, and every input row is prepared |
| Analytics.OpenJobsExact | reporting_tab.py:176-232 | the prepared jobs are exactly the open jobs, each with the bucket of its age |
| Analytics.StuckMeansPastThreeWeeks | reporting_tab.py:524-526 | a job is stuck exactly when its status is `New`, `Waiting Measure` or `Ready to order` and it lies in one of the three oldest buckets, that is, it is older than 21 days |
| Analytics.StuckJobs | reporting_tab.py:526 | the stuck jobs are exactly the jobs in an early status aged over 21 days |
| Analytics.StuckJobsAppend | reporting_tab.py:526 | the stuck jobs keep their order |
| Analytics.StuckJobsCount | reporting_tab.py:526-528 | each stuck job is listed as often as it occurs, so the count shown is the number of stuck jobs |
| Analytics.HighValueMeansOldestBucket | reporting_tab.py:547-549 | a job is high-value aging exactly when it is in the oldest bucket, that is, older than 56 days, and owes more than 10,000 |
| Analytics.HighValueAgingJobs | reporting_tab.py:549 | the high-value aging jobs are exactly the jobs aged over 56 days with a balance over 10,000 |
| Analytics.HighValueAgingJobsAppend | reporting_tab.py:549 | the high-value aging jobs keep their order |
| Analytics.HighValueAgingJobsCount | reporting_tab.py:549-551 | each high-value aging job is listed as often as it occurs, so the count shown is the number of such jobs |
| Analytics.TotalAppend | reporting_tab.py:307-308 | a sum over two runs of jobs is the sum of their sums |
| Analytics.JobsCounted | reporting_tab.py:603 | counting jobs gives their number |
| Analytics.CollectedIsSumOfPayments | reporting_tab.py:307-309 | the collected total, invoice total minus balance total, is the sum of what was paid on each job |
| Analytics.SummaryAdditive | reporting_tab.py:479-481 | invoice, balance and collected totals of two runs of jobs add up |
| Analytics.Select | reporting_tab.py:429 | the jobs selected for a group are exactly the jobs with that group key |
| Analytics.SelectAppend | reporting_tab.py:429 | a group keeps the order of its jobs |
| Analytics.SelectCount | reporting_tab.py:429 | a group holds each job with its key as often as it occurs and no other job, so `len` of a coordinator's jobs counts them |
| Analytics.GroupedAppend | reporting_tab.py:577 | the jobs that have a group key keep their order |
| Analytics.GroupedCount | reporting_tab.py:577 | each job with a group key is grouped as often as it occurs, and a job without one is dropped |
| Analytics.GroupTotalsAddUp | reporting_tab.py:577-581 | for distinct group keys covering every grouped job, the group totals add up to the total of the grouped jobs |
| Analytics.Coordinators | reporting_tab.py:424 | the coordinators are sorted, each appears once, and they are exactly the non-missing coordinators of the jobs |
| Analytics.PerCoordinatorTotalsAddUp | reporting_tab.py:618-621 | for every amount, age or count, the per-coordinator totals add up to the total over the jobs with a coordinator |
| Analytics.PerCoordinatorCollectedAddsUp | reporting_tab.py:619-621 | per-coordinator invoice totals minus balances add up to the collected total of the jobs with a coordinator |
| Analytics.ByBucket | reporting_tab.py:577-581 | the bucket table has one row for each of the five buckets, in bucket order, empty ones included |
| Analytics.ColumnsAreTotalsOver | reporting_tab.py:577-581 | the table's invoice column sums the per-bucket invoice totals, and its count column the per-bucket counts of jobs with a key |
| Analytics.BucketTableAddsUp | reporting_tab.py:577-581 | the bucket table's invoice column and job counts add up to those of all bucketed jobs |
| Analytics.BucketCountsAddUp | reporting_tab.py:509-513 | each bucket's count is its number of jobs, and the counts add up to the number of bucketed jobs |
| Analytics.StatusCounts | reporting_tab.py:246 | the counted statuses are exactly the statuses the jobs have |
| Analytics.StatusCountsCountJobs | reporting_tab.py:608 | each status is counted with its number of jobs |
| Analytics.StatusCountsAddUp | reporting_tab.py:608 | the status counts add up to the number of jobs with a status |
| Reporting.SafeNameIdempotent | reporting_tab.py:597-598 | a sanitised name has no `.` left, so sanitising it again in `_create_or_get_coordinator_tab` changes nothing |
| Reporting.TabLabel | reporting_tab.py:142 | a tab label is the first at most 20 characters of the name, and the whole name when it is no longer |
| Reporting.DisplayNameRoundTrip | export_tab.py:209 | a name without `_` is read back from its tab key unchanged |
| Reporting.DisplayNameMisreads | export_tab.py:209 | the name `a_dot.` is stored as `a_dot_dot_` and read back as `a.dot_` |
| Reporting.SafeNamesCollide | reporting_tab.py:130 | coordinators `a.b` and `a_dot_b` get the same tab key |
| Reporting.KeepKeys | reporting_tab.py:433-443 | the surviving keys are exactly the keys that are active |
| Reporting.Erase | reporting_tab.py:443 | deleting a key leaves exactly the other keys |
| Reporting.AddTabsForGrows | reporting_tab.py:426-430 | creating tabs keeps the existing keys in front and adds exactly the new coordinators' keys, without duplicates |
| Reporting.AddPresentTabs | reporting_tab.py:133-138 | asking for tabs that all exist changes nothing |
| Reporting.RefreshedTabsExact | reporting_tab.py:420-443 | after a refresh there is one tab per active coordinator key and no other, and the surviving tabs keep their order ahead of the new ones |
| Reporting.NoCoordinatorsNoTabs | reporting_tab.py:399-410 | without data, or without any job that has a coordinator, every coordinator tab is removed |
| Reporting.RefreshIdempotent | reporting_tab.py:374-443 | refreshing twice with the same data leaves the tabs of the first refresh |
| Reporting.ReportingTab.constructor | reporting_tab.py:21 | the view starts without coordinator tabs |
| Reporting.ReportingTab.CreateOrGetCoordinatorTab | reporting_tab.py:128-165 | an existing tab is reused as it is; otherwise a tab keyed by the sanitised name is added at the end and labelled with the name's first 20 characters |
| Reporting.ReportingTab.RemoveTab | reporting_tab.py:434-443 | the key and its label are removed and the other tabs are kept |
| Reporting.ReportingTab.RemoveTabsOutside | reporting_tab.py:432-443 | exactly the tabs outside the active set are removed, the others keep their order and labels |
| Reporting.ReportingTab.CreateTabsFor | reporting_tab.py:420-430 | the loop over the coordinators creates their tabs in order, returns the set of active keys, and labels each new tab with its key |
| Reporting.ReportingTab.DisplayAllStats | reporting_tab.py:374-445 | the tabs after a refresh are the refreshed key sequence, existing tabs keep their labels, and a new tab is labelled with its key |
| HtmlExport.CssClassOnlyForDisplayTags | export_tab.py:104-114 | a tag has a CSS class exactly when it is one of the six display tags; any other tag maps to "" |
| HtmlExport.CssClassesDistinct | export_tab.py:106-113 | different display tags have different classes |
| HtmlExport.CssClassesMembers | export_tab.py:139 | the classes are exactly the non-empty classes of the tags |
| HtmlExport.CssClassesInTagOrder | export_tab.py:139 | the classes keep the order of the tags |
| HtmlExport.NoClassNoAttribute | export_tab.py:139-140 | the class attribute is omitted exactly when no tag is a display tag |
| HtmlExport.EscapeOne | export_tab.py:128 | each character escapes on its own: `&`, `<` and `>` to their entities, so `<` becomes `&lt;` and never `&amp;lt;` |
| HtmlExport.EscapeIsPerCharacter | export_tab.py:128 | the three chained replacements escape character by character |
| HtmlExport.EscapeNoMarkup | export_tab.py:128 | escaped text has no `<` or `>` |
| HtmlExport.UnescapeEscape | export_tab.py:128 | reading the entities back gives the original text |
| HtmlExport.JoinBreaksBreakLines | export_tab.py:134 | reading the line breaks back gives the text before they were inserted |
| HtmlExport.StripNewlinesCommutes | export_tab.py:128-133 | stripping outer newlines after escaping is escaping after stripping them |
| HtmlExport.LineBreakSegment | export_tab.py:130-131 | a segment converts to `<br>\n` exactly when its text is a lone newline, whatever its tags |
| HtmlExport.BlankSegment | export_tab.py:125-137 | a segment converts to "" exactly when it is not a lone newline and, without its outer newlines, holds only whitespace other than newlines; an empty untagged segment is one of them |
| HtmlExport.ParagraphSegment | export_tab.py:133-142 | any other segment becomes `<p` + class attribute + `>` + body + `</p>\n` |
| HtmlExport.ParagraphBodyReadsBack | export_tab.py:128-134 | the paragraph body holds the text without its outer newlines: reading breaks and entities back gives exactly that text |
| HtmlExport.AppendSegments | export_tab.py:214-215 | the loop appends the converted segments in order |
| HtmlExport.ExportCoordinator | export_tab.py:209-215 | a coordinator with report text gets a heading with the read-back name and its converted segments; one without text gets nothing. The flag says which |
| HtmlExport.ExportCoordinators | export_tab.py:208-215 | the loop writes every coordinator's parts in order and reports whether any had text |
| HtmlExport.ExportCoordinatorSection | export_tab.py:201-220 | the section is opened, titled and closed. It holds the coordinators in sorted key order, or the notice for no coordinators, or the notice for no coordinator text |
| HtmlExport.SortedKeysSameText | export_tab.py:206-217 | sorting the keys does not change whether any coordinator has text |
| HtmlExport.SectionHeadingsInKeyOrder | export_tab.py:206-213 | the section's headings are those of the coordinators with text, in sorted key order, each naming the coordinator read back from its key |

## Left out

- File and database I/O (`load_excel`, `load_status`, `save_status`, the SQLite migration, the settings file, writing the HTML file and chart images) is not part of this model. The persisted table and the import are parameters.
- All Tk widgets, message boxes, logging, the charts and the text-widget insertion are left out. The report text of a coordinator tab is a parameter: a map from tab key to tagged segments.
- The clock is left out. The alert timestamp is an opaque string parameter, and `now`/`today` are parameters. Timestamp formatting is not modelled.
- The calendar is left out. `DateOffset(years=1)` is a parameter. The model asks only that it lands in the previous year and earlier in time, so leap days are not modelled.
- Floating point is left out. Amounts are exact reals, and `str` of a float is a fixed-digit rendering. Rounding, `inf` and the report's currency formatting are not modelled.
- Analytics.CoerceCurrency: reads plain decimal text with an optional sign only. Exponent notation, surrounding whitespace and `inf` count as 0 here, whereas `pd.to_numeric` would read them.
- Analytics.JobAge: only a turn-in cell that is already a date gets an age. `pd.to_datetime(errors='coerce')` (reporting_tab.py:204) would also parse date text and read an integer as nanoseconds since 1970. The loaded table's dates are converted before they reach the report, so those cases are not modelled.
- Analytics.CoordinatorKey: jobs are grouped by the `str` of the coordinator cell. The source selects with `== pc_name` on the raw values (reporting_tab.py:429), and `sorted` raises `TypeError` on a mix of integer and text coordinators (reporting_tab.py:424). Neither the raw-value comparison nor that error is modelled.
- Analytics.StatusCounts: the statuses come out in first-occurrence order. The source orders them by count (reporting_tab.py:608) or by status (reporting_tab.py:246). That order is not modelled; the contract states which statuses are counted and with what count.
- The mean age and the oldest project (reporting_tab.py:496-506) are not modelled. They need float division and `idxmax` tie-breaking.
- The overall-health and charts parts of `_generate_html_content` and its CSS header are left out. Only the coordinator section is modelled.
- Reconciliation.ProcessData: requires unique keys in the import and in the persisted table. With duplicate keys pandas pairs every duplicate with every other (a cartesian product), and this is not modelled.
- Reconciliation.Reconcile: columns outside `EXPECTED_COLUMNS` (including `#`) never reach the output, so the `#` column drop (data_utils.py:243-249) is not modelled separately.
- ReconcileProperties.ResultIsSnapshot: the final `pd.to_datetime` cast (data_utils.py:355-357) is not applied. The lemma requires instead that the import's dates are already converted, as the loader does. The final `astype(str)` of the key (data_utils.py:358-359) holds because the key cell is the key's text.
- HtmlExport.Heading: the coordinator name is not HTML-escaped, as in the source.
- Reporting.DisplayNameRoundTrip: holds for names without `_` only. A name containing `_dot` can be misread (see `Reporting.DisplayNameMisreads`).
- Reporting.ReportingTab: the widgets behind a tab (`winfo_exists`, clearing the text area, tag styles) are not modelled. A tab is its key and its label.
- Main.py is an older revision of the merge with contradicting rules and is not part of this model.

## Findings

| source | as written | input that shows it | evidently intended | confidence | as-written member | corrected member |
|---|---|---|---|---|---|---|
| data_utils.py:288 | a new job reads each source field as `row.get(col)`. The merged row holds every imported column only as `col_new`, because the persisted table has every expected column, so every source field of a new job is lost | import `{Invoice #: 7, Account: Acme}`, persisted table without job 7: the new job's `Account` is empty | a new job takes each source field from the import (`col_new`) | high, not executed | MergeAsWritten.NewJobLosesAccount | ReconcileProperties.NewJobPolicy |
| data_utils.py:326-334 | a continuing job reads `col_new` and `col_old` for every source column. A column the import lacks keeps its plain name in the merged row, so both reads are empty and the persisted value is lost | persisted job 7 with salesperson `Kim`, import with only an `Invoice #` column holding 7: the job's `Salesperson` is empty | a source column the import lacks keeps its persisted value | high, not executed | MergeAsWritten.ContinuingJobLosesSalesperson | ReconcileProperties.ContinuingJobPolicy |
