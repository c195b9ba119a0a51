# Verified model of the review engine

This project models the parts of the AI code-review service in which state and arithmetic decide what a
user gets to see, and proves what they guarantee:

- **Recovery from cut model output** (`OutputParser`, `TruncatedOutput`, `FencedOutput`,
  `JsonPrinter`, `PrintedKeys`, `PrintedItems`, `PrintedReviews`, `HiddenReviews`, `RecoveryLaws`). Three
  character automata recover complete findings from an answer that stops anywhere. For arbitrary text it is said
  exactly when recovery is monotone: always without a code fence, and with one under a condition on
  two recoveries. On every JSON object that RFC 8259 (sections 4, 5 and 7) allows, cut at every index,
  it is said exactly what they return, and for which reviews arrays that is exactly the complete
  reviews: all whose elements are objects, and some more.
- **Splitting diffs** (`DiffLines`, `HunkSplit`, `SplitMeaning`, `PatchMeaning`, `ContextChunks`,
  `SplitLaws`). Oversized hunks and files are cut into pieces with regenerated `@@` headers. No line is
  lost or moved, line numbers and visible lines survive, and context chunks follow the lines they belong to.
- **Packing and budgets** (`Batching`, `DiffBlocks`, `PromptAssembly`, `PromptLaws`, `ReviewRun`,
  `PlanLaws`, `LostFiles`, `LostFileInputs`, `CommentAnswer`). Greedy packing is optimal; the reduction
  cascade is pinned down step by step, and the text of every prompt part by part; it is said when packer
  and assembler agree; and the file lists of a whole review account for the files.
- **Filtering and verification** (`ResultFilter`, `FilterLaws`, `Verification`, `VerifyCap`, `ShortNames`). What is
  shown has critical findings first, is distinct and capped; what is left out is dominated; what survives
  was confirmed under its own index by the answer to its own prompt.
- **Consumers over shared Redis state** (`Dedup`, `ReviewConsumer`, `SandboxProbe`, `Superseded`,
  `ProbeSchema`). Any number of workers take atomic steps with redelivery, crashes, cancellation at
  every await, and expiry. Mutual exclusion, completion counts, the poison-job bound and the order of
  heads are proved for all runs.

Modules whose names match a source component follow its control flow: loops of the source are methods
with invariants, proved against recursive specification functions, about which the lemmas then speak.
`Wrappers`, `Seqs`, `Text` and `ReviewSchema` hold what several components share.

## What is given from outside

- `json.loads` followed by validation of one item is a function `decode`; `json.loads` of one string
  literal is a function `loads`.
- The token count of a text (`count`, `cost`) is an arbitrary function; a failed count that falls
  back to an estimate is one more such function.
- The rendering of a file (`render`), the risk hint (`riskHintOf`), the project context under a limit
  (`contextOf`), the low-priority test (`isLow`) and the serialized size of an event (`size`) are
  arbitrary functions; the shared prompt sections are arbitrary texts.
- What the model answers (`generate`, `answers`), what a pipeline or a probe runner returns (`result`,
  `status`), and which await fails and how (`fault`) are arbitrary.

## Where the code and its comments differ

- `app/kafka/consumer.py:95-97` saves the record before `mark_failed` so that a redelivered job cannot
  race it. A cancellation that arrives while the handler waits for the reply of that `mark_failed`
  (line 99) makes line 103 delete the key a second time. `ReviewConsumer.CancelledReleaseBreaksExclusion`
  gives such a run with two workers on one job; `ReviewConsumer.StepKeepsExclusionIff` says exactly
  which steps break exclusion.
- A cancellation during `_save_evaluation_record` deletes the key of a completed job
  (`app/kafka/consumer.py:91-104`), and the job can be published again:
  `ReviewConsumer.CancelledSaveRepublishes`. `ReviewConsumer.CompletionsBounded` counts these, and
  `ReviewConsumer.StepSettlesIff` says exactly which steps open a published job to another publication.
- `keep_tail` (`app/sandbox_probe/schema.py:45-52`) exceeds its limit when the limit leaves no room
  behind the 22-byte marker; `raw[-0:]` and `raw[22 - n:]` then keep too much.
  `ProbeSchema.KeepTailFitsIff` gives the exact condition. Both limits in use meet it.
- `split_hunk` (`app/review/hunk_split.py:12-60`) returns no piece for an oversized hunk that is only a
  header, so a file can leave the review without being listed as omitted.
  `SplitMeaning.TargetVanishes` says exactly when, `SplitMeaning.BareHeaderVanishes` and
  `LostFileInputs.VanishedFile` give inputs, and `LostFiles.UnaccountedIff` says that these are all the
  files a completed review names nowhere.
- A risk hint takes characters from the diff that the packer did not reserve
  (`app/review/pipeline.py:1467-1479` against `1708-1719`), so the first assembly can lose a file of a
  packed batch. `ReviewRun.FirstAssemblyLosesNothing` gives the exact condition, with the hint in it, and
  `LostFileInputs.HintLosesFile` makes every hint but the empty one lose part of a file.
- A file with one reviewed piece is meant to be noted as partly reviewed
  (`app/review/pipeline.py:731-732`). But the file counts as reviewed only if its batch drops none of
  its pieces (lines 693-697), so a file can be noted as unreviewed although the model saw a piece of it.
  `LostFiles.OmittedYetShownIff` says exactly when, and `LostFileInputs.ShownFileOmitted` gives an input.
- The item scan (`app/llm/output_parser.py:207-214`) does not count a bracket between items. It goes on
  into the first element that is an array and stops at the bracket that closes that one.
  `PrintedReviews.RecoveryIsExactIff` says exactly when this hurts, and
  `HiddenReviews.NestedReviewReplaces` gives an input. The schema asks for objects.
- A line that starts with `@@` and is no hunk header counts as a line of the new file when the whole
  patch is read (`app/review/diff_lines.py:39-45`), but starts a hunk without numbers when it is split.
  `PatchMeaning.PatchKeepsVisible` accounts for such lines, `PatchMeaning.StrayIff` says when there are
  none, and `PatchMeaning.BrokenHeaderStrays` gives an input.
- A code fence behind the findings, or inside one of their strings, makes `_strip_fence`
  (`app/llm/output_parser.py:18-24`) leave only what stands in the fence. Findings that a shorter cut
  gives can then be gone. `FencedOutput.MonotoneIff` says exactly when, `FencedOutput.FenceHidesFindings`
  gives a family of such texts, and `HiddenReviews.FencedReviewHides` a printed document.

## Model

| member | source | states |
|---|---|---|
| OutputParser.FindValueOpener | app/llm/output_parser.py:137-173 | the key scan finds the opening character of the first top-level value under the key, or nothing (the loop of 230-266 is the same one with another key and opener) |
| OutputParser.FindReviewsArrayStart | app/llm/output_parser.py:130-173 | the index behind the `[` of the top-level reviews array |
| OutputParser.ExtractArrayItemStrings | app/llm/output_parser.py:176-223 | exactly the texts of the items that close, strings and nesting respected |
| OutputParser.ReadClosedString | app/llm/output_parser.py:269-290 | the literal with both quotes, or nothing when its closing quote is missing |
| OutputParser.FindSummaryLiteral | app/llm/output_parser.py:226-266 | the literal of the top-level summary when it is closed |
| OutputParser.DedupeReviews | app/llm/output_parser.py:116-127 | the result lists findings that differ pairwise in file, line or message, covers every finding of the input, and the count says how many are gone |
| OutputParser.ParsePartialReviewOutput | app/llm/output_parser.py:68-113 | for any text, nothing exactly when no finding is recovered behind the stripping; otherwise the recovered findings, pairwise different in file, line or message and covering every decoded one, the summary or its default, and the number of duplicates |
| RecoveryLaws.RecoveredAreFirst | app/llm/output_parser.py:116-127 | of the decoded findings, in their order, exactly those are left out that agree with an earlier one in file, line and message |
| RecoveryLaws.DecodedInOrder | app/llm/output_parser.py:93-101 | an item that decodes adds its finding at the end, any other item adds nothing |
| RecoveryLaws.SummaryShown | app/llm/output_parser.py:83-108 | the decoded summary with the notice when there is one that is not empty, else the default with the notice |
| RecoveryLaws.TrimmedEnds | app/llm/output_parser.py:20 | trimming takes the spaces on both sides and nothing else |
| RecoveryLaws.FenceIsStripped | app/llm/output_parser.py:9-24 | a fence between texts without backticks leaves its trimmed contents, and a language tag goes |
| TruncatedOutput.CutOpener | app/llm/output_parser.py:130-173 | on any text, a cut hides a key match that lies behind it and creates none, a cut lookahead included |
| TruncatedOutput.CutArrayStart | app/llm/output_parser.py:130-173 | the array start never moves: a cut keeps it or hides it |
| TruncatedOutput.CutItems | app/llm/output_parser.py:176-223 | the items of a cut text are those of the whole text that close before the cut |
| TruncatedOutput.CutCloseQuote | app/llm/output_parser.py:269-290 | a cut hides a closing quote behind it and moves none |
| TruncatedOutput.TrimPrefix | app/llm/output_parser.py:20 | trimming a prefix of any text gives a prefix of the trimmed text |
| TruncatedOutput.StripIsTrimIff | app/llm/output_parser.py:18-24 | stripping does no more than trim exactly when no two fence marks stand apart from each other |
| FencedOutput.StripFenced | app/llm/output_parser.py:9-24 | otherwise the trimmed contents between the first and the last fence mark are left, without a language tag |
| FencedOutput.MonotoneIff | app/llm/output_parser.py:18-127 | for any text, the findings recovered from every prefix are a prefix of those recovered from the whole if and only if the text holds no fence, or those found up to the mark that first makes a fence are a prefix of those found in the fence |
| FencedOutput.RecoveryIsMonotone | app/llm/output_parser.py:68-127 | so always for text without a fence |
| FencedOutput.WrappedRecoveryIsMonotone | app/llm/output_parser.py:18-127 | so also for output wrapped in one fence with plain text in front, cut inside the closing mark too |
| FencedOutput.FenceHidesFindings | app/llm/output_parser.py:18-24 | a fence around a plain remark, with any backtick-free texts in front of it and behind it, leaves no finding to recover |
| HiddenReviews.FencedReviewHides | app/llm/output_parser.py:18-24 | a printed document whose first review is recovered from a cut and not from the whole, because the second one holds a fence in a string |
| JsonPrinter.WalkValue | app/llm/output_parser.py:176-223 | bracket counting outside of strings comes back to its depth behind every printed value |
| PrintedKeys.LiteralIsKey | app/llm/output_parser.py:153-163 | a printed string starts with the quoted name exactly when its body is the name, so decoys inside strings never match |
| PrintedKeys.FindMembers | app/llm/output_parser.py:130-173 | on a printed object the scan finds the first top-level member with the name and a value of the right kind; nested keys and string contents never match |
| PrintedItems.ItemsElems | app/llm/output_parser.py:176-223 | on any printed array the item scan returns the ranges of exactly the objects it meets: the elements that are objects, up to the first array, and those it meets inside that one |
| PrintedItems.Diverges | app/llm/output_parser.py:207-214 | where an object is met inside the first array, or stands behind it, some cut finds more or fewer objects than are complete |
| PrintedReviews.CutRecovery | app/llm/output_parser.py:130-223 | print any object, cut it anywhere: exactly the objects the scan meets whose closing brace lies before the cut are returned |
| PrintedReviews.CompletedPrefixRecovery | app/llm/output_parser.py:130-223 | these are exactly the complete reviews when no object hides inside or behind an array among the reviews |
| PrintedReviews.RecoveryIsExactIff | app/llm/output_parser.py:130-223 | at every cut exactly the complete reviews are returned if and only if no object hides so |
| HiddenReviews.NestedReviewReplaces | app/llm/output_parser.py:207-214 | a document whose only review is lost, with an object from inside an array in its place |
| PrintedReviews.CompletedSummaryRecovery | app/llm/output_parser.py:226-290 | the summary literal of a cut document is the printed one exactly when its closing quote survived |
| PrintedReviews.SummaryOfCutDocument | app/llm/output_parser.py:83-108 | stripping, scanning and decoding any cut document gives the decoded complete summary, else the default, with the notice; a fence in the cut leaves the summary its contents hold |
| PrintedReviews.FindingsOfCutDocument | app/llm/output_parser.py:83-103 | stripping, scanning, decoding and deduplicating any cut document gives the decoded complete objects the scan meets, without duplicates, which are the complete reviews when the scan is exact; a fence in the cut leaves what its contents hold |
| DiffLines.HeaderRoundTrip | app/review/hunk_split.py:29-35 | a regenerated header parses back to its numbers and its tail |
| SplitLaws.HeaderForms | app/review/diff_lines.py:6-12 | a header may leave out the count of either side |
| DiffLines.AnnotateHunk | app/review/diff_lines.py:15-32 | lines get the new-file numbers their header implies |
| SplitLaws.AnnotatedLine | app/review/diff_lines.py:15-32 | behind a header that starts at n, an added or kept line shows n and the number of such lines in front of it, any other line stands as it is |
| DiffLines.VisibleRightLines | app/review/diff_lines.py:35-46 | the set of new-file lines that the patch shows |
| DiffLines.SplitHunks | app/review/diff.py:55-67 | each hunk is one `@@` line and lines that start no hunk; together they hold every line from the first `@@` line on, in order |
| HunkSplit.SplitHunk | app/review/hunk_split.py:12-60 | pieces tile body and ranges without gaps, fit the limit but for single lines and markers, and none could have taken the next line |
| SplitLaws.HunkLengthIs | app/review/hunk_split.py:14-16 | the measure of a hunk is the length of its joined lines |
| SplitLaws.HunkLimitIs | app/review/hunk_split.py:101-102 | a hunk may take what the file leaves of the limit without its hunks, but always 1000 characters |
| SplitLaws.PieceFits | app/review/hunk_split.py:37-55 | the joined body of a piece of two or more lines keeps within the limit less 48 characters, markers aside |
| SplitLaws.PieceIsFull | app/review/hunk_split.py:42-55 | and with the first line of the next piece, which is no marker, it would not |
| HunkSplit.HunkNewRange | app/review/hunk_split.py:63-74 | least first and greatest last declared line of all hunks; nothing if there is none or one does not parse |
| HunkSplit.GroupHunks | app/review/hunk_split.py:110-119 | hunks keep their order, a group with two or more fits, and none could have taken the next hunk |
| HunkSplit.SplitOversizedTarget | app/review/hunk_split.py:91-119 | a file that fits stays as it is; otherwise its split hunks are grouped, each group with its own context chunks, which `SplitLaws.AttachedChunks` spells out |
| SplitLaws.AttachedChunks | app/review/hunk_split.py:63-88 | a piece carries, in their order, exactly the chunks of the file whose range parses and reaches from no later than the last declared line of some hunk to no earlier than the first declared line of some hunk of it; none when a header in it does not parse |
| SplitLaws.NewRangeIs | app/review/hunk_split.py:63-74 | the range of a group starts where one of its hunks starts, ends where one ends, and spans all |
| SplitMeaning.SplitKeepsLines | app/review/hunk_split.py:42-60 | the pieces of a hunk carry its body lines, each once and in order |
| SplitMeaning.TargetSplitKeepsLines | app/review/hunk_split.py:91-119 | the pieces of a file carry every body line once and in order, keep path and status, and fit when they hold two or more hunks |
| SplitMeaning.SplitIsUnique | app/review/hunk_split.py:12-60 | the conditions on the pieces of a hunk determine them |
| SplitMeaning.HeadersTile | app/review/hunk_split.py:29-40 | each regenerated header parses, counts its own body on both sides, and starts where the lines before it end |
| SplitMeaning.SplitKeepsAnnotation | app/review/diff_lines.py:15-32 | splitting commutes with annotation |
| SplitMeaning.VisibleIsRange | app/review/diff_lines.py:35-46 | a body shows exactly the lines of the range that starts at its header's number and is as long as its count |
| SplitMeaning.SplitKeepsVisible | app/review/diff_lines.py:35-46 | the pieces of a hunk show the lines the hunk shows |
| PatchMeaning.PatchKeepsVisible | app/review/diff_lines.py:35-46 | over any patch and any limits, the patch shows the lines its pieces show and those that stray behind `@@` lines that are no headers; so both agree exactly when every stray number is also shown |
| PatchMeaning.StrayIff | app/review/diff_lines.py:39-45 | nothing strays exactly when no `@@` line that is no header stands behind one that is |
| PatchMeaning.BrokenHeaderStrays | app/review/diff_lines.py:39-45 | a patch that shows a line none of its pieces shows |
| ContextChunks.SplitSpansIff | app/review/hunk_split.py:42-74 | of the new-file lines a hunk declares, its pieces span exactly those its body has, and the one behind them when the last piece has deleted lines only |
| ContextChunks.ChunkFollowsLine | app/review/hunk_split.py:77-118 | a context chunk sharing such a line with a hunk of a file that is split: some piece holds a part of the hunk that spans it, and the chunk is attached to that piece exactly when all headers in it parse |
| ContextChunks.WholeFileKeepsChunks | app/review/hunk_split.py:98-99 | a file that is not split keeps all of its chunks |
| ContextChunks.ChunkAttachedIff | app/review/hunk_split.py:63-88 | a chunk that covers a line of a group is attached exactly when all headers of the group parse |
| ContextChunks.TruthfulReaches | app/review/hunk_split.py:42-60 | a hunk with a body that declares what the body has reaches every line it declares |
| SplitMeaning.TargetVanishes | app/review/hunk_split.py:91-119 | a file yields no piece exactly when it is oversized and all of its hunks are oversized bare headers |
| SplitMeaning.BareHeaderVanishes | app/review/hunk_split.py:91-119 | a file that is nothing but a bare header longer than the limit is split into no piece, and in no other way |
| Batching.Pack | app/review/pipeline.py:1501-1523 | an order-preserving partition in which each batch fits its own two budgets or is one target, and none could have taken the next target |
| Batching.PackIsOptimal | app/review/pipeline.py:1501-1523 | no order-preserving partition that fits uses fewer batches, although the first batch has budgets of its own |
| Batching.CapKeepsMost | app/review/pipeline.py:1533-1541 | under any cap on the batches, no order-preserving partition that fits keeps more targets |
| Batching.OneBatchIff | app/review/pipeline.py:1525-1530 | one batch is enough exactly when all targets together fit the first one |
| Batching.OneBatchInAnyOrder | app/review/pipeline.py:1526-1530 | whether one batch is enough does not depend on the order |
| Batching.SourceFirstIsPermutation | app/review/pipeline.py:1529 | the reordering loses and doubles no target |
| Batching.SourceFirstOrder | app/review/pipeline.py:1529 | behind a test file come only test files |
| PlanLaws.SourceFirstIsStable | app/review/pipeline.py:1529 | source files, and test files, keep their own order |
| Batching.SplitTargetsIntoBatches | app/review/pipeline.py:1525-1542 | batches and omissions together are the targets in their own order when they fit one batch, else source files first; the cap is filled before anything is omitted, and no test file is kept while a source file goes |
| PlanLaws.CommonPartIs | app/review/pipeline.py:1456-1479 | the common part is measured on the prompt without files, its text written out; only the first batch counts project context and PR section |
| PlanLaws.BudgetsAre | app/review/pipeline.py:1473-1479 | the token and character budgets of the first batch and of the others |
| PlanLaws.PieceCharsIs | app/review/pipeline.py:1484 | pieces fit the first batch, but are held to no fewer than 3000 characters and never exceed 8000 |
| PlanLaws.BatchShowsPieces | app/review/pipeline.py:1485-1499 | every unit of a planned batch shows a piece of the plan under its path, measured by the text it shows |
| PlanLaws.PlannedBatchFits | app/review/pipeline.py:1501-1523 | in a planned batch of two or more pieces, the common part and the pieces keep within the token budget and within 20,000 characters |
| Text.CutAtLineBoundary | app/review/pipeline.py:165-171 | the cut is the last line boundary in the second half of the limit, or the limit |
| Text.ShrinkToCharLimit | app/review/pipeline.py:174-189 | unchanged within the target; else, if the marker fits, the front up to the last line boundary in the upper half of the room before the marker, or all of the room, and the marker; else nothing |
| Text.JoinedAt | app/review/pipeline.py:259 | joined texts stand one behind the other from start to end, the separator between any two |
| DiffBlocks.TruncateDiffBlocks | app/review/pipeline.py:211-270 | text shown, files dropped and files cut, under both limits |
| DiffBlocks.DiffTextHolds | app/review/pipeline.py:259-270 | the diff text holds the kept texts in order, an empty line between any two, and behind them the note on the dropped files |
| DiffBlocks.NoteTells | app/review/pipeline.py:260-269 | the note tells the number of the dropped files and all of their paths in order |
| DiffBlocks.KeptWithinBudget | app/review/pipeline.py:222-257 | kept texts together stay within the total, each within the per-file cap |
| DiffBlocks.KeptShowsDiff | app/review/pipeline.py:230-257 | a kept file is whole, or shows a front part that reaches below its title line |
| DiffBlocks.NothingLostIff | app/review/pipeline.py:222-257 | every file is kept whole exactly when each is within the cap and all together are within the total |
| DiffBlocks.ReportEmptyIff | app/review/pipeline.py:211-270 | no path is reported under exactly that condition |
| DiffBlocks.ReportedPaths | app/review/pipeline.py:224-254 | dropped paths are a suffix of the batch's, cut paths lie in front of it |
| PromptAssembly.ReductionShrinks | app/review/pipeline.py:1151-1165 | reducing a non-empty text by a positive overshoot always leaves less of it, for any token count |
| PromptAssembly.AssembleWithinBudget | app/review/pipeline.py:1193-1269 | a returned prompt is counted within the budget and its text is PR section, risk hint, project context if any, diff, API section, documents and suffix, in this order, the diff always among them; the report names its files; the course of the cascade: at most 16 builds, the first one unreduced, each next one by exactly one step; a prompt is returned exactly when it fits |
| PromptLaws.SectionsOf | app/review/pipeline.py:1682-1707 | each section of a prompt is the given one, or under a limit the front part that fits |
| PromptLaws.DiffOf | app/review/pipeline.py:1708-1722 | the diff is cut at its own limit, or at what the other parts leave of 20,000 characters |
| PromptLaws.ReducedLimitIs | app/review/pipeline.py:1151-1165 | the limit is the greatest number of characters within the share of tokens that may stay |
| PromptLaws.DiffFloorIs | app/review/pipeline.py:1126-1149 | a diff of at most 500 tokens is its own floor, else the share of 500 tokens is |
| PromptLaws.NewLimitIs | app/review/pipeline.py:1234-1262 | a section is limited to its share, the diff never below its floor |
| PromptLaws.CascadeOrder | app/review/pipeline.py:1193-1269 | documents, API section, project context, PR section, diff: a part is limited only when all before it are empty |
| PromptLaws.CascadeStep | app/review/pipeline.py:1227-1269 | from one build to the next exactly one limit is set, or the turn passes on |
| PromptLaws.GivenUp | app/review/pipeline.py:1229-1269 | giving up means 16 builds over budget, or that every part but the diff is empty and the diff cannot go below its floor |
| ReviewRun.FirstAssemblyLosesNothing | app/review/pipeline.py:1466-1479 | the first assembly reports nothing exactly when every file is within its cap and the batch with its risk hint within the packer's character budget |
| ReviewRun.PackedBatchLosesNothing | app/review/pipeline.py:1501-1523 | a packed batch of two or more whole files loses none of them exactly when the budget has room for its hint, so never with an empty one |
| LostFileInputs.HintLosesFile | app/review/pipeline.py:1708-1719 | for every hint but the empty one, two files whose only planned batch loses part of one of them |
| ReviewRun.PrepareUnits | app/review/pipeline.py:1484-1499 | the units are the pieces of every file in order, and name exactly the files that yield a piece |
| ReviewRun.NotesAccount | app/review/pipeline.py:730-735 | the final lists do not overlap or repeat, and with the reviewed files make up all files noted |
| ReviewRun.NotesInOrder | app/review/pipeline.py:731-735 | both lists name their files once, in the order in which they were first noted: the omitted ones those not reviewed, the partly reviewed ones those cut and then those omitted and yet reviewed |
| ReviewRun.ReviewBatch | app/review/pipeline.py:650-682 | a batch is answered, fails in generation, or its cascade gives up, over budget after 16 builds or with nothing left to shrink; every prompt ends the cascade of its batch, and the report names only its own files |
| ReviewRun.ReviewBatches | app/review/pipeline.py:644-703 | reviewed, omitted and partly reviewed files told by the fate of every batch, in the order of the cap, then of the batches; the failure reason is that of the last generation that failed |
| ReviewRun.Run | app/review/pipeline.py:603-735 | over a whole run reviewed and omitted files partition the reviewable ones, partly reviewed files are reviewed, nothing repeats, and batches and cap omissions hold every unit once |
| LostFiles.OmittedYetShownIff | app/review/pipeline.py:689-735 | a path is noted as unreviewed though a prompt showed a piece of it exactly when no answered batch has all its pieces there and some answered batch keeps one and drops another |
| LostFiles.OneUnitPerPathIsNeverTorn | app/review/pipeline.py:689-735 | if no batch holds two pieces of one file, no file is noted as unreviewed though a prompt showed it |
| LostFileInputs.ShownFileOmitted | app/review/pipeline.py:689-735 | a file of two hunks, split and planned into one batch whose prompt fits: the hint drops the second piece, and the file is noted as unreviewed only |
| LostFiles.ReviewedIsShown | app/review/pipeline.py:693-697 | a path counts as reviewed only if a prompt showed a piece of it |
| LostFiles.UnaccountedIff | app/review/pipeline.py:733-735 | a completed review names a file nowhere exactly when no target with its path yields a piece |
| LostFileInputs.VanishedFile | app/review/pipeline.py:1485-1493 | two files, one of which no completed review of them names |
| ReviewRun.SplitsKeepLines | app/review/pipeline.py:1485-1493 | the pieces behind a plan carry every changed line of every file once and in order |
| ResultFilter.SortKeeps | app/review/result_filter.py:28-31 | a permutation in order of rank and confidence, which `FilterLaws.SortedInOrder` spells out |
| ResultFilter.SortIsStable | app/review/result_filter.py:28-31 | findings of equal severity and confidence keep their order |
| ResultFilter.FilterReviews | app/review/result_filter.py:7-52 | the loops compute the selection that the rows below describe |
| ResultFilter.FilteredShape | app/review/result_filter.py:20-52 | eligible findings of the input only, in order, with distinct keys, within both caps |
| ResultFilter.ExclusionIsJustified | app/review/result_filter.py:20-52 | an eligible finding left out is dominated by a kept one with its key, by a full file of kept ones, or by a full result; `FilterLaws.CriticalLeftOut` and `FilterLaws.MajorLeftOut` spell this out |
| FilterLaws.SortedInOrder | app/review/result_filter.py:3-31 | critical before major before minor before suggestion, and of one severity the more confident first |
| FilterLaws.ShownInOrder | app/review/result_filter.py:28-52 | no critical finding is shown behind a major one, and within one severity the confidence never rises |
| FilterLaws.ShownIsEligible | app/review/result_filter.py:20-26 | what is shown is a critical or major finding of the input, confident enough, with evidence that holds text where it is asked for |
| FilterLaws.ShownWithinCaps | app/review/result_filter.py:33-52 | at most the maximum in all and in each file, and no two with one file, line and title |
| FilterLaws.CriticalLeftOut | app/review/result_filter.py:20-52 | a critical finding that meets the conditions is left out only for a shown critical one at its place with its title, for a full file of critical ones or a full result of them, all at least as confident |
| FilterLaws.MajorLeftOut | app/review/result_filter.py:20-52 | the same for a major one, to which every critical one is preferred |
| FilterLaws.EqualsKeepOrder | app/review/result_filter.py:28-31 | findings of one severity and confidence keep their order |
| Verification.SplitFindingsIntoBatches | app/review/pipeline.py:1036-1058 | the loop computes the specified batches |
| Verification.FindingBatchesShape | app/review/pipeline.py:1036-1058 | exactly the findings that fit a request of their own, under their own increasing indices, each batch within the budget |
| VerifyCap.CapSendsMost | app/review/pipeline.py:970-977 | under any cap on the requests, no order-preserving batching of the findings of a group sends more of them |
| Verification.Verify | app/review/pipeline.py:964-1018 | confirmed are exactly the findings sent under an index in one of the first five batches, where the last verdict with this index exists and confirms |
| Verification.ConfirmedByIff | app/review/pipeline.py:989-1001 | a finding is confirmed exactly by the last verdict with its index |
| Verification.GroupByPrompt | app/review/pipeline.py:931-939 | each group holds the findings of one prompt in filtered order, each finding has a group, and the prompts come once, in the order of their first finding |
| Verification.VerifyAcrossBatches | app/review/pipeline.py:911-948 | a filtered finding survives exactly when confirmed in the group of its own prompt; survivors keep their order |
| Verification.ConfirmedIsFiltered | app/review/pipeline.py:941-948 | only findings of a group are ever confirmed in it |
| Verification.LookupIsTotal | app/review/pipeline.py:719-752 | every filtered finding has a prompt, because dependency findings are minor |
| Verification.FilteredIdsDiffer | app/review/pipeline.py:747-752 | the filter never gives the same object twice |
| Verification.FilterAndVerify | app/review/pipeline.py:747-752 | filtering and verifying compose: a filtered finding survives exactly when it was sent under an index in one of the first five batches, where the last verdict with this index exists and confirms, in the group of its own prompt |
| ShortNames.SlashedSplit | app/review/pipeline.py:138-141 | joining the components of a path gives the path |
| ShortNames.SplitSlashed | app/review/pipeline.py:138-141 | splitting joined components gives them back |
| ShortNames.Grow | app/review/pipeline.py:142-147 | exactly the clashing names that can grow get one component more, and the unused components get fewer |
| ShortNames.ShortNames | app/review/pipeline.py:136-149 | terminates; every name is the shortest suffix of its path at a component boundary that no other path ends in, or the whole path if another ends in it; so distinct paths get distinct names and a unique file name stays bare |
| ProbeSchema.DecodeAll | app/sandbox_probe/schema.py:45-52 | decoding undoes UTF-8 encoding (section 3 of RFC 3629) |
| ProbeSchema.DecodeCutBytes | app/sandbox_probe/schema.py:51 | decoding from any byte on, ignoring errors, leaves exactly the characters still whole |
| ProbeSchema.KeepTailIsLongestSuffix | app/sandbox_probe/schema.py:45-52 | oversized text becomes the marker and the longest suffix that still fits |
| ProbeSchema.KeepTailFitsIff | app/sandbox_probe/schema.py:45-52 | the result is within the limit exactly when the text was or the limit exceeds the marker |
| ProbeSchema.CapCompletedEvent | app/sandbox_probe/schema.py:59-72 | the loop drops findings from the trimmed event until it fits or has none; the event shows the first findings in order and every evidence by its tail |
| ProbeSchema.TrimShows | app/sandbox_probe/schema.py:60-69 | trimming keeps the first ten findings in order, whatever capping does not touch, and the tail of every evidence under its own limit |
| ProbeSchema.CappedShows | app/sandbox_probe/schema.py:59-72 | the capped event shows the event, fits or has no finding, and one finding more would not have fitted |
| ProbeSchema.CapKeepsLongestPrefix | app/sandbox_probe/schema.py:70-72 | the event fits or has no finding, and keeps the longest front part of the findings that fits, for any size function |
| ProbeSchema.CapIsIdempotent | app/sandbox_probe/schema.py:59-72 | the capped event meets every single limit, and capping it again changes nothing |
| CommentAnswer.AssembleWithinBudget | app/comment_answer/pipeline.py:210-260 | a returned prompt is counted within the budget and holds path, line, hunk and the comments kept; the longest thread suffix that fits is used with the hunk untouched; otherwise at most three hunk limits fall strictly, each computed from the one before, never below the floor |
| CommentAnswer.ThreadText | app/comment_answer/pipeline.py:277-284 | the comments stand in the prompt in order, each under its author and time, a blank line between any two |
| CommentAnswer.HunkFloorIs | app/comment_answer/pipeline.py:185-199 | a hunk of at most 200 tokens is its own floor, else the share of 200 tokens is |
| CommentAnswer.NextLimitIs | app/comment_answer/pipeline.py:247-258 | the next limit is the reduced one or the floor, whichever is greater |
| Dedup.RedisDedupStore.TryStart | app/review/dedup.py:56-66 | acquires exactly a free key and touches no other |
| Dedup.RedisDedupStore.MarkCompleted | app/review/dedup.py:68-77 | the key says completed, whatever it said |
| Dedup.RedisDedupStore.MarkFailed | app/review/dedup.py:79-86 | the key is gone |
| Dedup.KeysDiffer | app/review/dedup.py:53-54 | two jobs have the same key exactly when they are the same job |
| ReviewConsumer.StepKeepsExclusionIff | app/kafka/consumer.py:81-104 | exactly which steps break exclusion: a second delete that meets another holder, and expiry of a held key |
| ReviewConsumer.RunIsExclusiveIff | app/kafka/consumer.py:81-104 | a run stays exclusive in all of its states exactly when none of its steps is one of those |
| ReviewConsumer.MutualExclusion | app/kafka/consumer.py:81-104 | after every run without such a step at most one worker holds a job, and its key is present |
| ReviewConsumer.CalmRunTakesNoHeldKey | app/kafka/consumer.py:99-104 | a run without expiry and without a cancellation between a mark_failed and its reply has no such step |
| ReviewConsumer.CancelledReleaseBreaksExclusion | app/kafka/consumer.py:99-104 | a run without expiry that ends with two holders of one job |
| ReviewConsumer.CompletionsBounded | app/kafka/consumer.py:89-104 | on every run the completions published for a job exceed its reopenings by at most one |
| ReviewConsumer.StepSettlesIff | app/kafka/consumer.py:89-104 | exactly which steps open a job to another publication: a late delete, or an expiry, of the key of a job that is published or may still be |
| ReviewConsumer.RunSettlesIff | app/kafka/consumer.py:89-104 | a job stays closed to it in all states of a run exactly when no step of the run is one of those |
| ReviewConsumer.AtMostOneCompletion | app/kafka/consumer.py:89-104 | on every run without such a step a job is published at most once |
| ReviewConsumer.QuietRunNeverReopens | app/kafka/consumer.py:89-104 | a run in which the key of the job does not expire, and no handler of it is cancelled behind its publication or its mark_failed, has no such step |
| ReviewConsumer.CancelledSaveRepublishes | app/kafka/consumer.py:91-104 | cancelling the save of a completed job lets it be published twice, so the bound is met |
| ReviewConsumer.ReviewRequestConsumer.Handle | app/kafka/consumer.py:67-120 | one call, whichever await fails, by cancellation or not, with or without its effect: what it leaves of the keys and of both topics, and whether it raises |
| ReviewConsumer.HandleIsARun | app/kafka/consumer.py:67-104 | whichever await fails, the steps of a handler are a run of the protocol with the same effect on keys and publications |
| SandboxProbe.InvocationsBounded | app/sandbox_probe/consumer.py:74-110 | on every run the runner is invoked at most the maximum number of attempts per lifetime of the counter |
| SandboxProbe.PoisonJobBound | app/sandbox_probe/consumer.py:91-110 | as long as the counter lives, at most the maximum number of attempts, key expiry included |
| SandboxProbe.SandboxProbeConsumer.Handle | app/sandbox_probe/consumer.py:67-89 | one call, whichever await fails: it counts an attempt, runs within the limit, closes as inconclusive beyond it, and gives the lock back exactly when something raises |
| SandboxProbe.SandboxProbeConsumer.Execute | app/sandbox_probe/consumer.py:91-110 | the counter decides whether the runner is invoked; nothing is returned when counter or runner fails |
| SandboxProbe.HandleIsARun | app/sandbox_probe/consumer.py:67-110 | whichever await fails, the steps of a handler are a run of the protocol with the same effect on keys, attempts and invocations |
| Superseded.PrHeadTracker.Record | app/review/superseded.py:53-59 | a head gets a fresh number once and keeps it; re-requests leave no trace |
| Superseded.RecordIsARun | app/review/superseded.py:53-59 | recording without interruption is a run of the two steps with the effect of the tracker |
| Superseded.PrHeadTracker.CheckSuperseded | app/review/superseded.py:61-75 | skipped exactly when recorded and some head of the pull request has a later number; a failed lookup never skips |
| Superseded.JobIdTellsHead | app/review/superseded.py:24-27 | the job id of a head request tells repository, pull request and head |
| Superseded.ReRequestIsNone | app/review/superseded.py:25-27 | a job id with anything behind it is no head request |
| Superseded.NumbersAreDistinct | app/review/superseded.py:57-58 | over any interleaving of INCR and HSETNX no two heads of a pull request share a number |
| Superseded.ExactlyOneCurrentHead | app/review/superseded.py:53-75 | exactly one recorded head of a pull request is not superseded |
| Superseded.NumbersStay | app/review/superseded.py:58 | without expiry recorded numbers never change |
| Superseded.SupersededStays | app/review/superseded.py:61-75 | a superseded head stays superseded until expiry |
| Superseded.RedeliveryChangesNothing | app/review/superseded.py:57-58 | put the two steps of recording a known head anywhere into any run, with any steps of other recorders between them: in the end the same heads are recorded and the same are superseded |
| Superseded.SkippedForALaterHead | app/review/superseded.py:71-75 | a head is skipped only for a different, current head of the same pull request with a later number |

## Left out

- FencedOutput.StripFenced: the regular expression is modelled by what it leaves, from the first to the last fence mark; its matching is not.
- DiffLines.VisibleRightLines: takes lines; `splitlines` also breaks lines at characters other than `\n`, which `split("\n")` does not. Header digits are ASCII, `\d` accepts others.
- ReviewRun.Run: the targets are given; `analyze` and its skip rules are not modelled. The retry inside generation, with its shorter prompt that leaves the report unchanged, is part of the arbitrary outcome.
- ProbeSchema.KeepTailIsLongestSuffix: lone surrogates, on which `encode` raises, are not characters of the model.
- ReviewConsumer.ReviewRequestConsumer.Handle: one await fails in a call, and the delete that answers it may fail too; interleaving with other handlers is in the protocol.
- The commit loop and graceful shutdown of the consumers: redelivery is a step that can always happen, so nothing is claimed about offsets.
- Expiry times: expiry is a step that can happen at any moment; refreshing a time to live is not modelled.
- Reducing several summaries, the markdown of notes, minor findings in the summary: constants and branches.
- The rounding of the token estimate and of `floor(len * target / current)`: the estimate is arbitrary, the division exact.
- The cached context window: a budget is fixed for one review.
- Whether a verify request as a whole fits the context: the code's sum leaves out the system prompt, and only that sum is proved.
- Clients of GitHub, Kafka, Qdrant, Notion, npm, Maven, Docker and SQL, retrieval, chunking, embeddings and metrics.
