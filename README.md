# limaju: Majority Judgment ranking, modelled in Dafny

limaju ranks candidates by Majority Judgment. Each judge gives every
candidate one mention from an ordered scale (EXCELLENT … REJECT, best
first). `deliberate` turns the rows of judgments into one tally per
candidate (how many judges gave each mention). It then sorts the candidates
with `sort_two_candidates` as the comparator. That comparator compares lower
medians. When the medians are equal, it removes the shared median from
copies of both tallies until the medians differ or a copy runs out.

The project models that core, one module per part of the program:

- `GradeScale` (`grade_scale.dfy`): `get_positions` and
  `load_mentions_from_string`. Python's `strip` and `split` are written out
  on `seq<char>`.
- `MedianResolver` (`median_resolver.dfy`): the tally total, the lower
  median as a function (`Median`), and the loops of `get_median` and
  `is_tally_empty` as methods proved equal to it.
- `PairwiseComparator` (`pairwise_comparator.dfy`): `decrement_mention` on
  a tally object updated in place (`TallyDict`, the `deepcopy` in the
  tie-break), and `sort_two_candidates` with its `while` loop (`BreakTie`).
  Both are proved against the functions `Dec`, `TieBreak` and `Compare`.
  The comparator's properties are proved about those functions:
  antisymmetry, reflexivity, "zero only for equal tallies", and
  transitivity for tallies of equal size.
- `RankingEngine` (`ranking_engine.dfy`): `sort_candidates`, as a stable
  insertion sort. It is proved to return a permutation, to be ordered by
  the comparator among tallies of equal size, and to keep candidates with
  equal tallies in input order.
- `TallyBuilder` (`tally_builder.dfy`): `deliberate`. The function
  `Deliberation` folds over the rows and is the specification. The method
  `Deliberate` keeps the source's loops and is proved to compute the same
  result. The three ways the program stops without a ranking are the
  `Failure` cases:
  - `UnknownMention`: the run exits (`exit(1)`).
  - `RowTooShort`: a row shorter than the candidate list raises an
    `IndexError`.
  - `MissingJudgments`: a header but no data row raises a `KeyError`.
- `DeliberationProperties` (`deliberation_properties.dfy`) holds what the
  fold computes:
  - for distinct candidate names, each tally counts exactly that
    candidate's column, a blank cell read as the lowest mention;
  - for distinct candidate names, every tally holds one judgment per data
    row;
  - the ranking is a permutation of the candidate list (the header, or the
    synthesised names), stable, and, for distinct candidate names, ordered
    by the comparator;
  - when the deliberation succeeds, and which row explains a failure.
- `Scenarios` (`scenarios.dfy`): the deliberations of the test suite, on
  rows already split into cells. Each is proved for any seven-mention scale
  and any distinct names, then applied to the suite's own scale and names.

Tallies are `seq<nat>` indexed by position on the scale, position 0 being
the best mention. A candidate ranks higher when `Compare` is negative.
This is the sign of the source's `positions[ma] - positions[mb]`.

## Model

| member | source | states |
|---|---|---|
| GradeScale.GetPositions | limaju/limaju.py:72-76 | the dictionary has exactly the scale's mentions as keys; each maps to its last position, so the map is injective; on a scale without repeats the mention at position `i` maps to `i` |
| GradeScale.IsSpace | limaju/limaju.py:164 | the characters `str.strip` removes (`str.isspace`): space, tab, newline and carriage return are among them, and no other printable ASCII character is |
| GradeScale.StripLeft | limaju/limaju.py:164 | the result is a suffix of the input; everything removed is white space; the result does not start with white space |
| GradeScale.StripRight | limaju/limaju.py:164 | the result is a prefix of the input; everything removed is white space; the result does not end with white space |
| GradeScale.Strip | limaju/limaju.py:164 | neither end of the result is white space, and it keeps only characters of the input |
| GradeScale.StripCuts | limaju/limaju.py:164 | `strip` cuts white space at both ends and nothing else: the result is a slice `s[i..j]` of the input, and everything outside it is white space |
| GradeScale.StripBlank | limaju/limaju.py:164 | the stripped text is empty exactly when the input is all white space, so such a line is dropped |
| GradeScale.StripPadded | limaju/limaju.py:164 | a label with white space on either side strips to the label |
| GradeScale.Split | limaju/limaju.py:164 | `split` gives at least one piece, and no piece contains the separator |
| GradeScale.SplitJoin | limaju/limaju.py:164 | joining the pieces of a split with the separator gives back the text |
| GradeScale.JoinSplit | limaju/limaju.py:164 | splitting the join of pieces that hold no separator gives back the pieces |
| GradeScale.KeepStripped | limaju/limaju.py:164 | keeps at most one entry per piece, each non-empty and stripped |
| GradeScale.KeepStrippedSnoc | limaju/limaju.py:164 | the stripped pieces are kept in order: one more piece adds its stripped form, unless that is blank |
| GradeScale.KeepStrippedLabels | limaju/limaju.py:164 | pieces that each strip to a non-blank label give exactly those labels, in order |
| GradeScale.LoadMentionsFromString | limaju/limaju.py:163-164 | every loaded mention is non-empty, has no white space at either end and contains no separator |
| GradeScale.LoadMentionsRoundTrip | limaju/limaju.py:163-164 | loading non-blank, unpadded, separator-free labels joined by the separator gives back the labels, in order |
| MedianResolver.Total | limaju/limaju.py:81-83 | the number of judgments in a tally; neither the best nor the worst mention has more judgments than that |
| MedianResolver.TotalZero | limaju/limaju.py:106-110 | a tally totals zero exactly when every count is zero |
| MedianResolver.Walk | limaju/limaju.py:93-101 | the walk from the worst mention upwards stops at a mention whose cumulative range contains the median index |
| MedianResolver.Median | limaju/limaju.py:79-103 | an empty tally gives the lowest mention; otherwise the median's range `[below, below + count)` contains `(total - 1) / 2`, and its count is positive |
| MedianResolver.BracketsUnique | limaju/limaju.py:91-101 | at most one mention's cumulative range contains the median index |
| MedianResolver.MedianUnique | limaju/limaju.py:91-101 | any mention whose range contains the median index is the median: the lower median is unique |
| MedianResolver.IsTallyEmpty | limaju/limaju.py:106-110 | returns true exactly when the tally holds no judgment |
| MedianResolver.GetMedian | limaju/limaju.py:79-103 | the two loops of `get_median` compute `Median` |
| PairwiseComparator.Dec | limaju/limaju.py:113-115 | removing one judgment keeps the scale and lowers the total by one |
| PairwiseComparator.DecrementMention | limaju/limaju.py:113-115 | the tally object's counts become the old counts with one judgment fewer at `p`, which must be positive |
| PairwiseComparator.TallyDict.constructor | limaju/limaju.py:127-128 | the working copy holds the same counts as the tally it copies |
| PairwiseComparator.TieBreak | limaju/limaju.py:126-140 | result within the scale's span; when both tallies are non-empty and their medians differ, it is non-zero, negative exactly when the first median is better |
| PairwiseComparator.TieBreakRounds | limaju/limaju.py:130-135 | the tie-break loop runs at most as many rounds as either tally has judgments |
| PairwiseComparator.Compare | limaju/limaju.py:118-142 | different medians decide, the better median ranking higher; the result lies strictly within the scale's span |
| PairwiseComparator.CompareStep | limaju/limaju.py:126-137 | for tallies of equal size with a shared median, comparing them equals comparing them with that median removed |
| PairwiseComparator.TieBreakIsCompare | limaju/limaju.py:126-142 | for tallies of equal size, the tie-break loop agrees with the whole comparison |
| PairwiseComparator.CompareAntisymmetric | limaju/limaju.py:118-142 | swapping the candidates negates the comparison |
| PairwiseComparator.CompareReflexive | limaju/limaju.py:118-142 | a tally compares equal to itself |
| PairwiseComparator.CompareZeroIffEqual | limaju/limaju.py:126-140 | for tallies of equal size, the comparison is zero exactly when the tallies are identical ("exact equality") |
| PairwiseComparator.DecInjective | limaju/limaju.py:113-115 | removing one judgment at the same mention from two tallies gives equal results exactly when the tallies were equal |
| PairwiseComparator.CompareTransitive | limaju/limaju.py:118-142 | for tallies of equal size, "ranks no lower than" is transitive, so the comparator is a total preorder for the sort |
| PairwiseComparator.UnequalSizesBreakTransitivity | limaju/limaju.py:118-142 | for tallies of different sizes transitivity fails: `[1,2]` ties `[0,0]`, `[0,0]` ties `[0,3]`, yet `[1,2]` ranks above `[0,3]` |
| PairwiseComparator.SortTwoCandidates | limaju/limaju.py:118-142 | the method returns `Compare` of the two candidates' tallies |
| PairwiseComparator.BreakTie | limaju/limaju.py:126-140 | the loop over the two working copies returns `TieBreak`, within `TieBreakRounds` rounds |
| RankingEngine.Insert | limaju/limaju.py:284-287 | inserting adds exactly one occurrence of the candidate and keeps every candidate tallied |
| RankingEngine.SortCandidates | limaju/limaju.py:268-287 | the sorted list is a permutation of the candidates |
| RankingEngine.RankedCons | limaju/limaju.py:284-287 | a candidate ranking no lower than every member of a ranked list can be put in front of it |
| RankingEngine.InsertRanked | limaju/limaju.py:284-287 | among tallies of one size, inserting into a ranked list keeps it ranked |
| RankingEngine.SortRanked | limaju/limaju.py:268-287 | among tallies of one size, no candidate of the result ranks strictly higher than one before it |
| RankingEngine.InsertTied | limaju/limaju.py:284-287 | inserting a candidate keeps the order of the candidates that share a tally, the inserted one coming first |
| RankingEngine.SortStable | limaju/limaju.py:284-287 | candidates with identical tallies come out in their input order |
| TallyBuilder.Cells | limaju/limaju.py:187 | `row[skip_cols:]`: the cells are the row's entries after the first `skip_cols` |
| TallyBuilder.NormCell | limaju/limaju.py:205-210 | a cell that is blank or on the scale becomes a mention of the scale |
| TallyBuilder.FirstUnknown | limaju/limaju.py:204-216 | the index of the first cell that is neither blank nor on the scale, every cell before it being known |
| TallyBuilder.Normalize | limaju/limaju.py:204-216 | succeeds exactly when every cell is known; a blank cell becomes the lowest mention, and any other cell is kept; otherwise it fails with an unknown mention of that row, taken from the cells |
| TallyBuilder.FirstNameAsWritten | limaju/limaju.py:202 | as written, the first column is named "Candidate @" and the second "Candidate A" |
| TallyBuilder.CandidateNameAsWritten | limaju/limaju.py:202 | the as-written name of column `i`: "Candidate " and one character, which is a letter A–Z exactly for columns 1 to 26, so column 0 gets none |
| TallyBuilder.CandidateNameLettered | limaju/limaju.py:202 | corrected naming: every name is "Candidate " and one character; column 0 is "Candidate A"; the first 26 columns take the letters A to Z; each name is the as-written name of the next column |
| TallyBuilder.SynthNames | limaju/limaju.py:200-202 | one name per column, no two equal (the corrected names, see Findings) |
| TallyBuilder.SynthNamesFirst | limaju/limaju.py:200-202 | with an empty header, the first candidate gets the corrected name "Candidate A" (as written: "Candidate @", see Findings) |
| TallyBuilder.Zeros | limaju/limaju.py:237-240 | a fresh tally covers the scale and holds no judgment |
| TallyBuilder.Inc | limaju/limaju.py:246 | counting one judgment keeps the scale and raises the total by one |
| TallyBuilder.AddAll | limaju/limaju.py:241-246 | counting a list of judgments raises the total by its length |
| TallyBuilder.TalliesUpTo | limaju/limaju.py:233-246 | on success, the tallies' keys are exactly the candidates, and each covers the scale; otherwise the failure names a candidate without judgments (`KeyError`) |
| TallyBuilder.Deliberation | limaju/limaju.py:167-265 | on success every ranked candidate has a tally over the scale |
| TallyBuilder.RecordUpTo | limaju/limaju.py:218-222 | appending a row's cells keeps every candidate already judged and gives each of the row's candidates a list; `DeliberationProperties.RecordKeys` and `RecordDistinct` state the exact keys and contents |
| TallyBuilder.RecordKnown | limaju/limaju.py:218-222 | recording a row of checked mentions keeps every collected judgment on the scale |
| TallyBuilder.ScanRow | limaju/limaju.py:196-222 | one data row: only a non-empty row can stop the run, and its failure (unknown mention or short row) names that row; names once set are kept; an accepted row has a cell for every candidate |
| TallyBuilder.ScanRows | limaju/limaju.py:184-222 | the row loop: the header never stops the run, and a failure names one of the data rows scanned (never a missing-judgments failure); `DeliberationProperties.ScanWhole` and `ScanFailure` state what success and failure mean |
| TallyBuilder.ScanKnown | limaju/limaju.py:184-222 | after any number of rows, every collected judgment is on the scale, so the warning at lines 242-245 is unreachable |
| TallyBuilder.ScanFailureSticks | limaju/limaju.py:211-222 | once a row stops the run, later rows change nothing |
| TallyBuilder.TallyStep | limaju/limaju.py:233-246 | one turn of the tally loop: a candidate without judgments fails the whole loop; otherwise its tally becomes its previous (or fresh) tally plus its judgments |
| TallyBuilder.TallyFailureSticks | limaju/limaju.py:233-246 | once the tally loop fails, later candidates change nothing |
| TallyBuilder.CheckCells | limaju/limaju.py:204-216 | the cell-checking loop computes `Normalize` |
| TallyBuilder.RecordRow | limaju/limaju.py:218-222 | a row shorter than the candidate list raises `RowTooShort`; otherwise each candidate's list gains its cell |
| TallyBuilder.CountJudgments | limaju/limaju.py:241-246 | the counting loop computes `AddAll` |
| TallyBuilder.ScanDataRow | limaju/limaju.py:196-222 | one data row of the main loop computes `ScanRow` |
| TallyBuilder.FreshTally | limaju/limaju.py:237-240 | the loop over the scale builds the zero tally |
| TallyBuilder.TallyCandidate | limaju/limaju.py:234-246 | one turn of the tally loop: the candidate's tally so far, or a fresh one, with its judgments counted |
| TallyBuilder.TallyCandidates | limaju/limaju.py:233-246 | the tally loop computes `TalliesUpTo` over all candidates |
| TallyBuilder.Deliberate | limaju/limaju.py:167-265 | the method with the source's loops computes `Deliberation` |
| DeliberationProperties.NoDataRows | limaju/limaju.py:196-198 | no data row has been counted exactly when every row after the header is empty |
| DeliberationProperties.FirstDataSkips | limaju/limaju.py:196-198 | empty rows do not change where the first data row is |
| DeliberationProperties.RecordKeys | limaju/limaju.py:218-222 | after recording a row, the names with judgments are the earlier ones plus the row's candidates |
| DeliberationProperties.RecordDistinct | limaju/limaju.py:218-222 | with distinct names, recording a row appends to each candidate's list exactly its own cell |
| DeliberationProperties.ScanInvHeader | limaju/limaju.py:192-194 | the header row starts the scan in its invariant |
| DeliberationProperties.ScanInvEmptyRow | limaju/limaju.py:196-198 | an empty row keeps the invariant |
| DeliberationProperties.NamesAtFirstData | limaju/limaju.py:200-202 | at the first data row, the names are the header's, or synthesised when it is empty |
| DeliberationProperties.Accepted | limaju/limaju.py:196-222 | an accepted data row has every cell known and at least as many cells as candidates; it keeps the names, or synthesises them |
| DeliberationProperties.DataRowKeys | limaju/limaju.py:218-222 | after an accepted data row, the names with judgments are exactly the candidates |
| DeliberationProperties.DataRowColumns | limaju/limaju.py:218-222 | with distinct names, each candidate's judgments after a data row are its column so far |
| DeliberationProperties.DataRowCells | limaju/limaju.py:204-222 | after an accepted data row, every data row so far has known cells and enough of them |
| DeliberationProperties.ScanInvDataRow | limaju/limaju.py:196-222 | an accepted data row keeps the invariant |
| DeliberationProperties.ColumnEmpty | limaju/limaju.py:196-198 | without data rows every column is empty |
| DeliberationProperties.ScanGathers | limaju/limaju.py:184-222 | a successful scan of `k` rows holds the invariant |
| DeliberationProperties.NamesStable | limaju/limaju.py:192-202 | once named, the candidates never change |
| DeliberationProperties.ScanWhole | limaju/limaju.py:184-222 | a successful scan names the candidate list and accepts every data row |
| DeliberationProperties.ScanSucceeds | limaju/limaju.py:184-222 | if every data row is acceptable, the scan succeeds |
| DeliberationProperties.ScanFailureAt | limaju/limaju.py:204-222 | a data row that stops the run is explained: an unknown mention in its cells, or every cell known but fewer cells than candidates |
| DeliberationProperties.ScanFailureStep | limaju/limaju.py:184-222 | the first row that fails the scan is the row the failure names, and the failure is explained |
| DeliberationProperties.ScanFailure | limaju/limaju.py:184-222 | any scan failure names an earlier row, with every data row before it accepted, and explains itself |
| DeliberationProperties.RowsAcceptedSoFar | limaju/limaju.py:184-222 | the invariant implies every data row so far is accepted |
| DeliberationProperties.TalliesOk | limaju/limaju.py:233-246 | the tally loop succeeds exactly when every candidate has judgments |
| DeliberationProperties.TalliesDistinct | limaju/limaju.py:233-246 | with distinct names, each candidate's tally is the fresh tally plus its judgments |
| DeliberationProperties.AddAllCount | limaju/limaju.py:238-246 | the count at each mention is the earlier count plus that mention's number of occurrences in the list |
| DeliberationProperties.ColumnLength | limaju/limaju.py:218-222 | a column holds one judgment per data row |
| DeliberationProperties.DeliberationParts | limaju/limaju.py:167-265 | on success: the scan succeeds, names the candidate list and collects only known mentions; the tallies are the tally loop's; the ranking is `sort_candidates` of the candidate list |
| DeliberationProperties.DeliberationRanksCandidates | limaju/limaju.py:233-265 | on success the ranking is a permutation of the candidate list, and the tallies have exactly those candidates as keys |
| DeliberationProperties.ScanColumn | limaju/limaju.py:218-222 | with distinct names, a candidate's collected judgments are its column |
| DeliberationProperties.DeliberationColumn | limaju/limaju.py:233-246 | with distinct names, a candidate's tally is its column counted on the fresh tally |
| DeliberationProperties.DeliberationCount | limaju/limaju.py:233-246 | with distinct names, a candidate's count for a mention is how often that mention occurs in its column |
| DeliberationProperties.DeliberationTotal | limaju/limaju.py:218-246 | with distinct names, every candidate's tally holds one judgment per data row |
| DeliberationProperties.DeliberationRanked | limaju/limaju.py:260-265 | with distinct names, no candidate of the ranking ranks strictly higher than one before it |
| DeliberationProperties.DeliberationStable | limaju/limaju.py:260-287 | candidates with identical tallies keep their header order |
| DeliberationProperties.DeliberationSucceeds | limaju/limaju.py:184-246 | a deliberation succeeds exactly when every data row is accepted and there is a data row or no candidate |
| DeliberationProperties.DeliberationFails | limaju/limaju.py:204-246 | a failure is explained by its row; a missing-judgments failure happens only without data rows, and names the first candidate |
| Scenarios.LoadTestMentions | limaju/test_limaju.py:17-25 | loading the suite's indented scale text gives its seven mentions, EXCELLENT to REJECT, in order |
| Scenarios.TwoJudgesTallies | limaju/test_limaju.py:27-34 | the three tallies of the two-judge run |
| Scenarios.SortTwoJudges | limaju/test_limaju.py:27-34 | medians POOR, GOOD, REJECT sort A, B, C into B, A, C |
| Scenarios.TwoJudgesRanking | limaju/test_limaju.py:53-60 | for any scale and names, the two-judge run succeeds with those tallies and ranks B, A, C |
| Scenarios.RunWithArray | limaju/test_limaju.py:27-34 | on the suite's scale and names the ranking is `['B', 'A', 'C']` |
| Scenarios.OneCandidateRanking | limaju/test_limaju.py:36-43 | one candidate judged PASSABLE and EXCELLENT is the whole ranking |
| Scenarios.DumbDeliberationWithOneCandidate | limaju/test_limaju.py:36-43 | on the suite's scale the ranking is `['A']` |
| Scenarios.OneJudgeTallies | limaju/test_limaju.py:45-51 | each tally of the one-judge run holds its single judgment |
| Scenarios.MedianOfOne | limaju/limaju.py:91-101 | a single judgment is its own median |
| Scenarios.SortOneJudge | limaju/test_limaju.py:45-51 | with D above B, B above C and all three above A, the sort gives D, B, C, A |
| Scenarios.SortOneJudgeTallies | limaju/test_limaju.py:45-51 | from the four single-judgment tallies of the one-judge run, the sort gives D, B, C, A |
| Scenarios.OneJudgeRanking | limaju/test_limaju.py:45-51 | for any scale and names, the one-judge run ranks D, B, C, A |
| Scenarios.DeliberationWithOneJudge | limaju/test_limaju.py:45-51 | on the suite's scale the ranking is `['D', 'B', 'C', 'A']` |
| Scenarios.SameMedianTallies | limaju/test_limaju.py:62-70 | each tally of the same-median run holds two EXCELLENT and its first judge's mention |
| Scenarios.MedianTwoExcellent | limaju/limaju.py:91-101 | two EXCELLENT among three judgments make EXCELLENT the median |
| Scenarios.TieBroken | limaju/limaju.py:126-137 | on a shared median and equal totals, the medians left after one removal decide the comparison |
| Scenarios.SortSameMedian | limaju/test_limaju.py:62-70 | a shared median, broken by GOOD, PASSABLE, POOR and REJECT, sorts A, B, C, D into B, D, A, C |
| Scenarios.SortSameMedianTallies | limaju/test_limaju.py:62-70 | from the four tallies of the same-median run, the sort gives B, D, A, C |
| Scenarios.SameMedianRanking | limaju/test_limaju.py:62-70 | for any scale and names, the same-median run ranks B, D, A, C |
| Scenarios.DeliberationWithSameMedianMention | limaju/test_limaju.py:62-70 | on the suite's scale the ranking is `['B', 'D', 'A', 'C']` |
| Scenarios.HeaderlessRanking | limaju/limaju.py:192-202 | an empty header row and one judge give the corrected ranking `["Candidate A"]` (as written: `["Candidate @"]`, see Findings) |

## Left out

- `plot_merit_profile`, `main` and its command-line parsing, `find_file`,
  `is_string` and `log` are left out: they are drawing, I/O and messages,
  not ranking.
- `load_judgments_from_string` (CSV parsing) is left out. `Deliberation`
  takes the rows already split into cells, so the scenarios state the
  suite's texts as rows.
- The `is_string` dispatch in `deliberate` is left out. The scale is a list
  there, and `LoadMentionsFromString` models the text form separately.
- The sort of each candidate's judgments by position (lines 226-231) is
  left out. It reorders a list that is only counted afterwards, so it
  changes no tally.
- The warning branch for an unknown mention while tallying (lines 242-245)
  is not modelled as code. `ScanKnown` proves that every collected judgment
  is on the scale, so the branch cannot be reached.
- The closure `_cmp_candidates` inside `deliberate` (lines 252-258) is never
  called and is left out.
- `ignore_blanks` is the constant `False`, so only its false branch is
  modelled. Cells are strings, so a `None` cell is not modelled. A blank
  cell is the empty string.
- `skip_rows` is the constant 0 and the header is always row 0. A negative
  `skip_cols` (Python slicing from the end) is not modelled: `skipCols` is
  a `nat`.
- `exit(1)` and the Python exceptions become `Err` results, and logging is
  left out.
- TallyBuilder.Deliberation: requires a non-empty scale without repeated
  mentions. With an empty scale, every non-blank cell is unknown and makes
  the run exit. Every blank cell raises an `IndexError` on `mentions[-1]`.
  Only an input with no candidate succeeds. With a repeated mention the
  source keeps the last position of each label. It also names the
  candidates of a file without a header with the corrected names
  "Candidate A", "Candidate B", …. As written, the source gives
  "Candidate @", "Candidate A", … (see Findings).
- TallyBuilder.Deliberate: requires a non-empty scale without repeated
  mentions, as `Deliberation` does, and likewise uses the corrected names
  for a file without a header.
- TallyBuilder.SynthNames: gives the corrected names `chr(65 + i)`, not the
  `chr(64 + i)` of line 202. `FirstNameAsWritten` states what the line
  gives.
- TallyBuilder.SynthNamesFirst: states the corrected first name
  "Candidate A". As written, line 202 gives "Candidate @".
- TallyBuilder.ScanDataRow: computes `ScanRow`, whose names for a file
  without a header are the corrected ones, not those of line 202.
- TallyBuilder.ScanRow: for a file without a header it names the
  candidates with the corrected `SynthNames` (`chr(65 + i)`), not the
  `chr(64 + i)` of line 202 (see Findings).
- TallyBuilder.ScanRows: inherits the corrected header-less names of
  `ScanRow`, not those of line 202 (see Findings).
- DeliberationProperties.NamesAtFirstData: the synthesised names it states
  for a file without a header are the corrected `SynthNames`, not those of
  line 202 (see Findings).
- DeliberationProperties.Accepted: the names it gives a file without a
  header are the corrected `SynthNames`, not those of line 202 (see
  Findings).
- Scenarios.HeaderlessRanking: proves the corrected ranking
  `["Candidate A"]`. As written, the source ranks `["Candidate @"]`.
- GradeScale.Strip: its own contract gives only the shape of the result.
  `StripCuts` and `StripBlank` state what is cut.
- GradeScale.KeepStripped: its own contract gives only the shape of the
  result. `KeepStrippedSnoc` and `KeepStrippedLabels` state which pieces
  are kept, and in what order.
- GradeScale.Split and GradeScale.LoadMentionsFromString take a
  one-character separator. Python's `sep` may be any non-empty string, but
  the program only ever splits on `"\n"`, so nothing observable is lost.
- MedianResolver.Median: the source computes the median index as
  `math.floor((count - 1) / 2.0)` in floating point (line 91). The model
  divides exactly. The two agree for totals up to 2^53. Past that, the
  conversion to a float can round: a total of 2^53 + 4 gives the float index
  2^52 + 2 where the model gives 2^52 + 1. Past about 1.8e308 judgments,
  Python raises `OverflowError`. Neither size is reachable by a real vote.
- MedianResolver.GetMedian: the same exact division as `Median`, for the
  same reason.
- GradeScale.LoadMentionsFromString: its own contract gives only the shape
  of each mention. `LoadMentionsRoundTrip` and `LoadTestMentions` state what
  is loaded.
- TallyBuilder.RowsFit: rows hold at most `0xD800 - 65` cells. Past that
  many columns, the character of a synthesised name would be a surrogate,
  which Dafny's `char` excludes.
- PairwiseComparator.SortTwoCandidates: requires a scale without repeated
  mentions. Tallies are indexed by position, so a repeated label cannot be
  expressed.
- PairwiseComparator.BreakTie: the number of rounds is a ghost
  out-parameter, used only to bound the loop.
- RankingEngine.SortCandidates: modelled as a stable insertion sort, not
  Python's Timsort. Both are stable sorts. For tallies of equal size the
  comparator is a total preorder (`CompareTransitive`), so both give the
  same order. For tallies of different sizes the comparator is not
  transitive (`UnequalSizesBreakTransitivity`), and the two sorts may
  differ. Different sizes arise only from a repeated header name.
- DeliberationProperties.DeliberationRanked and the count and total lemmas
  (`DeliberationColumn`, `DeliberationCount`, `DeliberationTotal`) assume
  distinct candidate names. A repeated header name merges the columns and
  is then counted once per occurrence. `Deliberation` models that, but only
  the permutation, stability and failure facts are proved for it.
- The scenarios state the suite's texts as rows of cells. They do not cover
  `test_plotting_deliberation`, which reads a file and draws a plot.
- The model follows the code as written in the comparator and the row
  checks. The comparator returns the difference of the two positions, not
  -1/0/1. It orders candidates consistently only among tallies of equal
  size. An unknown mention stops the whole run. The one exception is the
  naming of candidates in a file without a header, reported under Findings.

## Findings

| source | as written | input that shows it | evidently intended | confidence | as-written member | corrected member |
|---|---|---|---|---|---|---|
| limaju/limaju.py:202 | names column `i` `"Candidate %s" % chr(64 + i)`, so the first column is "Candidate @" and each later column takes the letter meant for the one before it | rows `[[], ["GOOD"]]`: the header row is empty and one data row follows | "Candidate A", "Candidate B", …, as `chr(65 + i)` | high (not executed) | TallyBuilder.FirstNameAsWritten | TallyBuilder.CandidateNameLettered |
