# Tag analysis core, modelled in Dafny

This project models the record-classification and pagination core of
`tag_analysis.py`. That script builds HTML browsing pages over a set of
YFCC100M photo records that carry automatic tag confidences. The model covers
these steps:

- **Loading the buckets** (`TagParser._load_files`): files each record under
  every automatic tag it scores. The record goes to the largest threshold of
  `SCORE_BUCKET` that its score meets, or to the first threshold when it meets
  none. An optional tag allow-list limits which tags are kept. Module
  `Buckets` (built on `Thresholds`).
- **Identity by ID** (`_Metadata`, `remove_duplicate` and its inline copies):
  two records are the same photo exactly when their IDs agree. Module
  `Metadata`.
- **Outlier predicates** (`is_invalid_date_meta`,
  `is_weird_aspect_ratio_meta`, `get_invalid_dates`): module `Outliers`. The
  filters and splits built on them are in module `Selection`.
- **The tag pass of `generate_img_html`**: tags in ascending order of
  population, then each tag's pooled records split into the invalid-date,
  weird-aspect and valid lists. The lists handed to the tag report and the
  threshold report are collected along the way. Then come the user-tag index
  of the valid records, the darkroom groups and the two outlier reports.
  Module `Reports`.
- **One tag of `generate_tag_dict_html`**: the excluded-ID split and its
  reports. Module `TagDict`.
- **`chunks` and the two report builders** (`prepare_img_table_for_tag`,
  `prepare_img_table_without_tag`): sorting, counting invalid dates, and the
  choice between one page and an index of pages with their bounds. Module
  `Pages` (sorting in `Sorting`).
- **`parse_user_tags` and the user-tag inverted index**: module `UserTags`.
- **`tag_and_score`**, the `tag:score|…` label: module `Labels`.

The following are parameters of the model:
- **Dates.** The two date parsers (ISO-8601 parsing of DATE_TAKEN, and
  DATE_UPLOADED read as epoch seconds) are the functions `DateParsers.taken`
  and `DateParsers.uploaded`. Each yields an instant in seconds, or `None`
  where the library call would raise.
- **Score formatting.** The two-decimal format in `tag_and_score` is the
  function parameter `fmt`.
- **Darkroom vocabulary.** It is the parameter `vocab`.

Thresholds, scores and aspect ratios are `real`. IDs are `nat`. In the
source an ID is a decimal string. It is compared as a string (`__eq__`
and `__hash__`, lines 84-89) and read with `int(ID)` only for the
excluded-ID test (line 357). The model takes every ID to be a well-formed
decimal numeral, so that the two comparisons agree.

Every report can end the run with an exception. The model returns each
exception as a `ReportError`:
- `BadKey`: the sort key raises on a record. That is a missing tag score,
  or an upload time or (for the invalid-date report) a taken date that
  does not parse.
- `NoRecords`: the mean divides by the length of an empty list.
- `ZeroPageSize`: `chunks` is called with page size 0.
- `BadDate`: a page table parses both dates of every row it shows
  (lines 145-146 and 223-224), and one of them does not parse.

`ReportFailure` gives the exception a report ends with, checked in the
source's order. The report methods are proved against it, and
`GenerateImgHtml` against `RunFailure`. `RunFailure` gives the exception
that ends a whole run.

The loops of the source are methods with loop invariants. Each is proved
against a function that states its result:
- `LoadFiles` against `Bucketed`;
- `Partition` and `Keep` against `Filter`;
- `BuildUserTagIndex` against `UserTagIndex`;
- `Paginate` against `Chunks`;
- `ClassifyTags` against `Classified`;
- `ReportLists` against `FirstFailure` and `AllReported`.

Lemmas then prove the promised properties about those functions.

## Model

| member | source | states |
|---|---|---|
| Thresholds.BucketIndex | tag_analysis.py:133-136 | the index loop ends with the largest index whose threshold the score meets, or 0 when none is met (`BucketFloor`) |
| Thresholds.BucketFloor | tag_analysis.py:133-136 | the chosen index is in range; every later threshold exceeds the score; if some threshold is met, the chosen one is met; if none is met, the index is 0 |
| Thresholds.FloorIsLargestThresholdMet | tag_analysis.py:133-138 | with increasing thresholds, a score below the first goes to the first; otherwise it goes to the largest threshold not above it |
| Thresholds.ScoreBucketExamples | tag_analysis.py:25 | on `[0.5, 0.625, 0.75, 0.875]`: 0.9 goes to 0.875, 0.6 and 0.4 go to 0.5, and 0.625 exactly goes to 0.625 |
| Thresholds.ScoreBucketIsIncreasing | tag_analysis.py:25 | the default thresholds are strictly increasing |
| Buckets.AddTag | tag_analysis.py:125-138 | handling one tag of a record: skipped when the allow-list rejects it; otherwise a fresh entry is made on first sight and the record is appended at its floor threshold |
| Buckets.AddRecord | tag_analysis.py:124-138 | after all tags of a record are handled, the table is the one built from the records so far plus this one |
| Buckets.LoadFiles | tag_analysis.py:108-140 | an empty metadata list raises (None); otherwise the result is `Bucketed` of the whole list |
| Buckets.BucketedKeys | tag_analysis.py:125-129 | a tag is a key exactly when the allow-list admits it and some record scores it |
| Buckets.BucketedShape | tag_analysis.py:128-131 | every tag entry has exactly the thresholds as keys |
| Buckets.TagEntryOfUnseen | tag_analysis.py:128-131 | a tag no record scores has the fresh entry: every threshold with an empty list |
| Buckets.BucketedMembership | tag_analysis.py:133-138 | a record is under threshold `b` of tag `t` exactly when it is in the input and `b` is its floor threshold for `t` |
| Buckets.TagEntrySnocScored | tag_analysis.py:133-138 | appending a record that scores `t` appends it to exactly one list of `t`'s entry: the one at its floor threshold |
| Buckets.TagEntrySnocUnscored | tag_analysis.py:124 | appending a record leaves the entry of a tag it does not score unchanged |
| Buckets.FanOutConservation | tag_analysis.py:123-138 | pooling a tag's thresholds gives exactly the records that score the tag, each as often as in the input; the population is their count |
| Buckets.SortTagsByPopulation | tag_analysis.py:459 | every tag exactly once, in ascending order of total bucket population |
| Metadata.RemoveDuplicate | tag_analysis.py:659-661 | the result has pairwise distinct IDs, the same ID set as the input, only input records, is no longer than the input, and is empty exactly when the input is |
| Metadata.DedupFrom | tag_analysis.py:175 | keeping the first record per unseen ID gives distinct IDs, the input's IDs minus those seen, and only input records |
| Metadata.RemoveDuplicateOfDistinct | tag_analysis.py:659-661 | a list whose IDs are already distinct is returned unchanged |
| Metadata.RemoveDuplicateIdempotent | tag_analysis.py:659-661 | de-duplicating twice equals de-duplicating once, and the ID set is still the input's |
| Metadata.RemoveDuplicateCollapsesSameId | tag_analysis.py:87-89 | two records with the same ID collapse to one |
| Metadata.PermutationKeepsIds | tag_analysis.py:175-179 | reordering keeps the ID set and the distinctness of IDs |
| Outliers.AspectRatio | tag_analysis.py:119 | the ratio of long edge to short edge is at least 1 |
| Outliers.WeirdMeansLongEdgeOverTwice | tag_analysis.py:255-256 | weird exactly when the long edge is more than twice the short edge |
| Outliers.TwoToOneIsNotWeird | tag_analysis.py:255-256 | an exact 2:1 image has ratio 2.0 and is not weird (the test is strict) |
| Outliers.JustOverTwoIsWeird | tag_analysis.py:255-256 | a 20001 by 10000 image has ratio 2.0001 and is weird |
| Outliers.ValidDateMeansTakenBeforeUploaded | tag_analysis.py:247-253 | a record is valid exactly when both dates parse and the taken instant is strictly before the upload |
| Selection.GetInvalidDates | tag_analysis.py:258-261 | the count is the number of records whose dates are invalid |
| Selection.CountWhere | tag_analysis.py:259-260 | the sum of the predicate is the number of records kept by filtering, at most the length |
| Selection.Partition | tag_analysis.py:466-478 | the split loop's two lists are the records satisfying the criterion and those not, each in input order |
| Selection.Keep | tag_analysis.py:582-585 | the keep loop's list is the records satisfying the criterion, in input order |
| Selection.FilterMembership | tag_analysis.py:502 | a record is kept exactly when it is in the input and satisfies the criterion |
| Selection.FilterKeepsOrder | tag_analysis.py:466-478 | the kept records are a subsequence of the input |
| Selection.FilterPartition | tag_analysis.py:466-478 | the two sides of a split together are the input, as a multiset |
| Selection.FilterPartitionLength | tag_analysis.py:466-478 | the two sides of a split have as many records as the input |
| Selection.FilterFilter | tag_analysis.py:472-478 | filtering a filtered list is filtering by both criteria |
| Selection.CountOfPermutation | tag_analysis.py:607-608 | counting invalid dates on the sorted list gives the count on the unsorted one |
| Reports.GatherPool | tag_analysis.py:461-463 | the tag's buckets concatenated in threshold order |
| Reports.ClassifyTag | tag_analysis.py:466-512 | one iteration of the tag loop is `Step`: split off invalid dates, split the rest by aspect, then append the tag list if non-empty and the threshold list if enabled and non-empty |
| Reports.ClassifyTags | tag_analysis.py:459-512 | the tags each once in ascending population, and the accumulated lists are `Classified` over that order |
| Reports.ClassifiedPartition | tag_analysis.py:466-478 | every visited record lands in exactly one of the invalid, weird and valid lists |
| Reports.ClassifiedMembership | tag_analysis.py:466-478 | a record is in the invalid list exactly when visited with invalid dates; in the weird list when visited, valid and weird; in the valid list when visited, valid and not weird |
| Reports.ClassifiedListsSound | tag_analysis.py:481-520 | each tag list is its tag's non-empty valid-date pool; each threshold list is that pool's records scoring strictly above `conf`, non-empty, and only present when threshold pages are on |
| Reports.ClassifiedFollowsOrder | tag_analysis.py:460-509 | the tag reports and the threshold reports come in processing order |
| Reports.ClassifiedReportedTags | tag_analysis.py:481-499 | a tag gets a tag report exactly when it is processed and has a valid-date record |
| Reports.ClassifiedThresholdTags | tag_analysis.py:501-509 | a tag gets a threshold report exactly when it is processed, threshold pages are on and a valid-date record scores strictly above `conf` |
| Reports.DatedPoolContents | tag_analysis.py:461-472 | on the loaded buckets, a tag's valid-date pool holds each input record carrying the tag with valid dates, as often as in the input |
| Reports.GapKeyNeverBadDate | tag_analysis.py:591 | the gap key is defined exactly when both dates parse, so a report sorted by it never fails in a page table's date parsing |
| Reports.FirstFailureIsFirst | tag_analysis.py:545-559 | a loop of reports has no failure exactly when no list's report fails; otherwise its exception is that of a list all of whose predecessors succeed |
| Reports.ReportLists | tag_analysis.py:545-559 | reports the lists in order and stops at the first one that raises; it fails exactly with the first failure, and otherwise every list has its report, meeting `Reported` with the list's sort key |
| Reports.GroupLists | tag_analysis.py:545-546 | one list per kept darkroom tag, in order, holding that tag's group |
| Reports.InvalidDateReport | tag_analysis.py:582-595 | keeps the invalid-date records whose DATE_TAKEN is not `'null'`, in order; the report meets `ReportedWithoutTag` with the gap key, never fails with `BadDate`, and holds only such records |
| Reports.TagPhase | tag_analysis.py:459-520 | the tag pass, then a report per tag list (by score) and per threshold list (by upload time); it fails with the first failing tag report's exception, else the first failing threshold report's; otherwise every list is reported |
| Reports.ThresholdFailureFollowsTagFailure | tag_analysis.py:481-520 | with a positive page size no threshold report fails; with page size 0 and a threshold list, the first tag report has already failed, so reporting the tag lists first gives the exception of the interleaved loop |
| Reports.UserTagPhase | tag_analysis.py:523-559 | the index of the valid records, the darkroom groups (`DarkroomMap`), the narrowed vocabulary, and the user-tag reports by upload time, failing exactly with the first failure among them |
| Reports.OutlierOutcome | tag_analysis.py:183-186 | a de-duplicated report either raises its list's outlier failure, or there is no failure and the report is made, or skipped for an empty list |
| Reports.OutlierPhase | tag_analysis.py:572-595 | when outlier pages are on: the weird-aspect report by aspect ratio, then the non-null invalid-date report by the gap key; it fails with the first exception, an empty list being no failure; when off, nothing is reported |
| Reports.GenerateImgHtml | tag_analysis.py:418-595 | fails exactly when `RunFailure` names an exception, and with that one; otherwise the order, the lists, every tag, threshold and user-tag report, the index over the valid list, the kept vocabulary and the outlier reports on the collected lists |
| Reports.ValidListClean | tag_analysis.py:510-520 | on valid-date records the upload-time key never raises and every date parses, so the report fails only for page size 0 |
| Reports.ThresholdListsClean | tag_analysis.py:501-520 | a threshold report fails exactly when the page size is 0 |
| Reports.UserListsClean | tag_analysis.py:545-559 | a user-tag report fails exactly when the page size is 0 |
| Reports.WeirdReportClean | tag_analysis.py:572-580 | the weird-aspect report raises only for page size 0 on a non-empty list |
| Reports.InvalidReportFailure | tag_analysis.py:587-595 | the invalid-date report raises `BadKey` exactly when a kept record has a date that does not parse, else `ZeroPageSize` exactly on a non-empty list with page size 0 |
| Reports.LoadedDatedRecord | tag_analysis.py:461-472 | on the loaded buckets, a record of a tag's valid-date pool scores that tag and has valid dates |
| Reports.ScoredListClean | tag_analysis.py:489-499 | a non-empty list of valid-date records scoring the tag fails its tag report only for page size 0 |
| Reports.LoadedTagListsClean | tag_analysis.py:489-499 | on the loaded buckets, a tag report fails exactly when the page size is 0 |
| Reports.ClassifiedValidDates | tag_analysis.py:466-478 | the valid and weird lists hold only valid-date records |
| Reports.LoadedRunFailure | tag_analysis.py:418-595 | on the loaded buckets with a positive page size, a run fails only in the invalid-date report, and exactly as that report does |
| Reports.LoadedRunFailureZeroPageSize | tag_analysis.py:489-499 | on the loaded buckets with page size 0, a run with a tag list fails at the first tag report with `ZeroPageSize` |
| Pages.ChunksFlatten | tag_analysis.py:672-675 | the chunks concatenated are the list |
| Pages.ChunksCount | tag_analysis.py:672-675 | there are `ceil(len/n)` chunks, and none exactly when the list is empty |
| Pages.ChunkAt | tag_analysis.py:674-675 | chunk `k` is the slice `[k*n, min(k*n+n, len))` |
| Pages.ChunkLength | tag_analysis.py:674-675 | every chunk but the last has `n` records, and the last has between 1 and `n` |
| Pages.Paginate | tag_analysis.py:615-628 | one page per chunk, with bounds `k*n` and `min(k*n+n, len)` and its own invalid-date count |
| Pages.PagedCovers | tag_analysis.py:621-622 | each page is the slice between its bounds, and the bound difference is its length; pages abut and cover the list in order; the per-page invalid counts sum to the list's |
| Pages.PrepareTagReport | tag_analysis.py:606-657 | fails exactly with `ReportFailure`: the sort key raising on a record, an empty list (the mean's division), page size 0 when chunking is needed, or a date a page table cannot parse, in that order; otherwise the records sorted ascending by the key, the invalid count, and one page exactly when the count is at most `imgs_per_page` |
| Pages.PrepareReportWithoutTag | tag_analysis.py:173-224 | de-duplicates by ID, then fails exactly with `ReportFailure` of the distinct-ID list; otherwise an index of pages over that list, with the input's ID set |
| Pages.ReportHoldsOnly | tag_analysis.py:175-179 | a report on the de-duplicated list shows only records of the list |
| UserTags.ParseUserTags | tag_analysis.py:663-665 | the split yields at least one segment |
| UserTags.ParseUserTagsRoundTrip | tag_analysis.py:663-665 | no segment holds a comma, and joining the segments with commas gives USER_TAGS back |
| UserTags.ParseUserTagsOfJoin | tag_analysis.py:663-665 | any non-empty list of comma-free segments is what its comma join parses to (empty segments kept) |
| UserTags.UserTagIndexMembership | tag_analysis.py:524-530 | the index keys are exactly the segments that occur, and each entry holds exactly the records carrying that segment |
| UserTags.IndexEntryCount | tag_analysis.py:527-530 | a record occurs in an entry once per occurrence of the segment in its USER_TAGS, times its occurrences in the input |
| UserTags.AddUserTag | tag_analysis.py:528-530 | one segment handled: entry created on first sight, then the record appended |
| UserTags.AddUserTags | tag_analysis.py:526-530 | after one record's segments, the index is the one built from the records so far plus this one |
| UserTags.BuildUserTagIndex | tag_analysis.py:524-530 | the loop builds `UserTagIndex` of the valid records |
| UserTags.DarkroomGroups | tag_analysis.py:533-543 | groups exist exactly for the vocabulary tags in the index, each the de-duplicated entry; the kept tags are the vocabulary filtered to index keys, in vocabulary order |
| UserTags.KnownTagsMembership | tag_analysis.py:540-543 | a tag is kept exactly when it is in the vocabulary and in the index |
| UserTags.KnownTagsKeepsOrder | tag_analysis.py:540-543 | the kept tags are a subsequence of the vocabulary |
| UserTags.DarkroomGroupIds | tag_analysis.py:536 | a darkroom group has distinct IDs and holds only valid records carrying that user tag |
| Labels.TagAndScore | tag_analysis.py:677-680 | every scored tag once, in ascending score order, and the label built from that order |
| Labels.Segment | tag_analysis.py:679 | an entry is the tag with spaces replaced by underscores (same length, every other character kept), a colon, then the formatted score |
| Labels.Segments | tag_analysis.py:679 | one entry per tag, in order |
| Labels.LabelRoundTrip | tag_analysis.py:679-680 | when no tag and no formatted score holds `|`, splitting the label on `|` gives the entries back |
| Labels.LabelEmptyIff | tag_analysis.py:680 | the label is empty exactly when the record has no automatic tags |
| Labels.SegmentTagName | tag_analysis.py:679 | for a tag without a colon, the text before an entry's first colon is the tag with underscores for spaces, and holds no space |
| Sorting.SortBy | tag_analysis.py:606 | the result is a permutation of the input, ordered by the key |
| TagDict.SplitExcluded | tag_analysis.py:354-360 | the included list is the records whose ID is not excluded, the excluded list those whose ID is, each in input order |
| TagDict.SplitExcludedPartition | tag_analysis.py:354-360 | the two sides together are the tag's records, as a multiset |
| TagDict.SplitExcludedMembership | tag_analysis.py:357-360 | a record is on the excluded side exactly when its ID is excluded, and on the included side exactly when it is not |
| TagDict.TagDictPagesAsWritten | tag_analysis.py:325-403 | the block as written: the tag report for a non-empty tag; the split and the included report exactly when excluded IDs are given and the tag report did not raise; the excluded report exactly when that side is non-empty and the included report succeeded; when every record is excluded, the included report fails with `NoRecords` |
| TagDict.AllExcludedExample | tag_analysis.py:353-392 | a one-record tag whose ID is excluded leaves an empty included list |
| TagDict.CleanSides | tag_analysis.py:354-360 | both sides of the split of records that all score the tag and parse their dates do so too |
| TagDict.CleanFailure | tag_analysis.py:339-349 | a non-empty list of such records fails its report only for page size 0 |
| TagDict.TagDictPages | tag_analysis.py:325-403 | with the included side guarded like the excluded side: a report is made for each non-empty side only, and none fails with `NoRecords`; when every record scores the tag and parses its dates, a report fails only on page size 0 |

## Left out

- File and network I/O, argument parsing, pickles, `read_darkroom`: the vocabulary is the parameter `vocab`.
- The image-size probe and the path rewriting (lines 114-119, 329): width and height are given positive integers.
- The date libraries are left out: the parsers are part of `DateParsers`.
- The HTML rendering (`make_table_html`, `make_index_html`, `_img_table_no_tag`, `prepare_img_table`), `plot_time_buckets`, and page and folder names and descriptions are left out: they are external or display only.
- Float means, minima, maxima and summary-row strings (lines 188, 205-213, 609, 624-632, 646-648) are left out: they are floating-point display values.
- `debug_tag`, `print_tag_analysis` and the `mturk` script are left out: they only print, or copy files.
- `prepare_img_table_without_tag` drops into the debugger on an empty list and then returns (lines 184-186). The model reports this as `NoRecords`. `OutlierFailure` does not count it as an exception, and the run goes on.
- A zero `imgs_per_page` would make `range` raise inside `chunks`. The model reports this as the `ZeroPageSize` failure.
- `generate_tag_dict_html` is modelled one tag at a time. The loop over tags, the `all_meta_included` accumulation (never read) and the index pages are left out.
- `generate_img_html` calls the tag and threshold reports inside the tag loop. The model collects the lists first and reports them after the loop. The run's outcome is the same: the first exception, by `ThresholdFailureFollowsTagFailure`. On a failure the model's `Views` still hold the whole classification, whereas the source stops classifying at the raise. Only the exception is the outcome in that case.
- ReportLists, TagPhase, UserTagPhase and GenerateImgHtml: a report that raises ends the run. The pages it wrote before raising (earlier chunks and tables) are file output and are left out.
- The per-row score column of a page table (`tag_score_func`, line 144) is not a failure of its own: tag reports are sorted by the same lookup, threshold lists are filtered on it, and user-tag reports use the constant 1.
- GatherPool: iterates over the thresholds in `SCORE_BUCKET` order, skipping absent ones, instead of the dict's keys. Every entry holds exactly those keys, in insertion order (`BucketedShape`).
- Sorting.SortBy: ties are not ordered. Python's sort is stable, and the model's insertion sort is too, but no contract states stability.
- Buckets.SortTagsByPopulation and Labels.TagAndScore: like all dict key iteration, the order of equal-key elements is not stated.
- Metadata.RemoveDuplicate: the model keeps the first record per ID, in input order. The set-based source keeps an unspecified one, in hash order. `RemoveDuplicate`'s own contract speaks only of IDs and membership. `RemoveDuplicateOfDistinct` and `RemoveDuplicateIdempotent` state list equality, which holds of the model's input-order choice only. The two report builders sort after de-duplication. The darkroom groups do not, so their order is the model's choice. `remove_duplicate` itself (lines 659-661) has no caller.
- Labels.TagAndScore: the two-decimal score format is the parameter `fmt`.
- The sort keys give the key of a record as a real, or `None` where the source's lambda raises. The key is used only to order the records. The gap key is the exact difference of the two instants in seconds, where `total_seconds()` gives a float.
- Integer widths play no role: counts and IDs are unbounded, as in Python.

The two report builders differ, and the model follows each:
- `prepare_img_table_without_tag` has no one-page case. It always builds an index of pages, even for a list that fits on one page. `prepare_img_table_for_tag` makes a single page when the list fits (line 612).
- `prepare_img_table_for_tag` does not de-duplicate its input. `prepare_img_table_without_tag` does (line 175).

## Findings

| source | as written | input that shows it | evidently intended | confidence | as-written member | corrected member |
|---|---|---|---|---|---|---|
| tag_analysis.py:381-392 | the included list is reported unguarded, while the excluded list is guarded by `len(...) > 0`; the report then divides by the list length (line 609) | a tag with one record whose ID is in `excluded_ids` (`AllExcludedExample`): the included list is empty and the mean divides by zero | guard the included side like the excluded side, so that no report is made for an empty list | not executed | TagDict.TagDictPagesAsWritten | TagDict.TagDictPages |
