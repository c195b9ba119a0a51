/**
 A review from targets to file notes (app/review/pipeline.py, `run`): oversize splitting, batching
 under the cap, assembly, generation, and the final lists of unreviewed and partly reviewed files.
 What the model answers to a batch is an arbitrary outcome.
 */
module ReviewRun {
  import opened Wrappers
  import opened Seqs
  import opened DiffBlocks
  import opened PromptAssembly
  import opened Batching
  import DiffLines
  import HunkSplit
  import SplitMeaning

  /** What is fixed for one review: shared texts, the tokenizer, and the settings. */
  datatype Setup = Setup(
    base: Request, contextOf: int -> string, count: string -> nat, budget: int,
    riskHintOf: seq<Unit> -> string, isLow: string -> bool, maxBatches: nat,
    render: HunkSplit.Target -> string)

  const MIN_PIECE_CHARS := 3000

  function BlocksOf(batch: seq<Unit>): seq<Block> {
    if batch == [] then [] else
    var last := batch[|batch| - 1];
    BlocksOf(batch[..|batch| - 1]) + [Block(last.path, last.text)]
  }

  lemma {:induction false} BlocksOfAt(batch: seq<Unit>)
    ensures |BlocksOf(batch)| == |batch|
    ensures forall i :: 0 <= i < |batch| ==> BlocksOf(batch)[i] == Block(batch[i].path, batch[i].text)
    ensures Map(BlockPath, BlocksOf(batch)) == Map(UnitPath, batch)
  {
    if batch != [] {
      BlocksOfAt(batch[..|batch| - 1]);
    }
  }

  /** The request of one batch; only the first one carries the shared sections. */
  function BatchRequest(setup: Setup, batch: seq<Unit>, first: bool): Request {
    setup.base.(blocks := BlocksOf(batch), riskHint := setup.riskHintOf(batch), includeShared := first)
  }

  /** The prompt without any file, which measures what a batch's common part takes. */
  function CommonPart(setup: Setup, first: bool): Prompt {
    Build(BatchRequest(setup, [], first), setup.contextOf, NO_OVERRIDES)
  }

  function CharBudget(common: Prompt): nat {
    var left := MAX_DIFF_TOTAL_CHARS
      - (|common.context| + |common.prSection| + |common.apiSpec| + |common.officialDocs|);
    if left > 0 then left else 0
  }

  function BudgetsOf(setup: Setup): Budgets {
    var first, rest := CommonPart(setup, true), CommonPart(setup, false);
    Budgets(setup.budget, Cost(first, setup.count), Cost(rest, setup.count), CharBudget(first), CharBudget(rest))
  }

  // ---------- the packer and the assembler agree ----------

  function CharsOfBatch(b: Budgets, k: nat): nat {
    if k == 0 then b.charsFirst else b.charsRest
  }

  /** The unit's measure is its rendered length, capped like the assembler caps a file. */
  predicate Measured(u: Unit) {
    u.text != "" && u.chars == if |u.text| <= MAX_DIFF_FILE_CHARS then |u.text| else MAX_DIFF_FILE_CHARS
  }

  lemma {:induction false} BatchLengths(batch: seq<Unit>)
    requires forall i :: 0 <= i < |batch| ==> Measured(batch[i]) && |batch[i].text| <= MAX_DIFF_FILE_CHARS
    ensures Lengths(TextsOf(BlocksOf(batch))) == Chars(batch)
  {
    if batch != [] {
      var front, last := batch[..|batch| - 1], batch[|batch| - 1];
      BatchLengths(front);
      TextsSnoc(BlocksOf(front), Block(last.path, last.text));
      LengthsSnoc(TextsOf(BlocksOf(front)), last.text);
    }
  }

  lemma {:induction false} TextsSnoc(blocks: seq<Block>, block: Block)
    ensures TextsOf(blocks + [block]) == TextsOf(blocks) + [block.text]
  {
    if blocks == [] {
      assert blocks + [block] == [block] && [block][1..] == [];
    } else {
      assert (blocks + [block])[0] == blocks[0] && (blocks + [block])[1..] == blocks[1..] + [block];
      TextsSnoc(blocks[1..], block);
    }
  }

  lemma {:induction false} LengthsSnoc(texts: seq<string>, text: string)
    ensures Lengths(texts + [text]) == Lengths(texts) + |text|
  {
    if texts == [] {
      assert texts + [text] == [text] && [text][1..] == [];
    } else {
      assert (texts + [text])[0] == texts[0] && (texts + [text])[1..] == texts[1..] + [text];
      LengthsSnoc(texts[1..], text);
    }
  }

  /** The first assembly leaves the packer's character budget to the diff, less the risk hint. */
  function DiffRoom(setup: Setup, batch: seq<Unit>, k: nat): nat {
    var left := CharsOfBatch(BudgetsOf(setup), k) - |setup.riskHintOf(batch)|;
    if left > 0 then left else 0
  }

  function FirstDiff(setup: Setup, batch: seq<Unit>, k: nat): DiffText {
    Build(BatchRequest(setup, batch, k == 0), setup.contextOf, NO_OVERRIDES).diff
  }

  lemma {:induction false} FirstDiffBudget(setup: Setup, batch: seq<Unit>, k: nat)
    ensures FirstDiff(setup, batch, k) == Truncated(BlocksOf(batch), MAX_DIFF_FILE_CHARS, DiffRoom(setup, batch, k))
  {
    hide Truncated, BlocksOf;
  }

  predicate EachUnitWithin(batch: seq<Unit>) {
    forall i :: 0 <= i < |batch| ==> |batch[i].text| <= MAX_DIFF_FILE_CHARS
  }

  /**
   When the packer and the assembler agree: the first assembly of a batch reports no file as dropped
   or cut exactly when each rendered file is within the per-file cap and the batch together with its
   risk hint, which the packer does not reserve, is within the packer's character budget.
   */
  lemma {:induction false} FirstAssemblyLosesNothing(setup: Setup, batch: seq<Unit>, k: nat)
    requires batch != [] && forall i :: 0 <= i < |batch| ==> Measured(batch[i])
    ensures FirstDiff(setup, batch, k).dropped == [] && FirstDiff(setup, batch, k).truncated == []
      <==> EachUnitWithin(batch) && Chars(batch) + |setup.riskHintOf(batch)| <= CharsOfBatch(BudgetsOf(setup), k)
  {
    hide FirstDiff, CharsOfBatch, BudgetsOf, Truncated;
    var blocks := BlocksOf(batch);
    BlocksOfAt(batch);
    FirstDiffBudget(setup, batch, k);
    ReportEmptyIff(blocks, MAX_DIFF_FILE_CHARS, DiffRoom(setup, batch, k));
    EachWithinIsForall(blocks, MAX_DIFF_FILE_CHARS);
    if EachUnitWithin(batch) {
      BatchLengths(batch);
      HasChars(batch);
    }
  }

  lemma {:induction false} HasChars(batch: seq<Unit>)
    requires batch != [] && Measured(batch[|batch| - 1])
    ensures Chars(batch) > 0
  {}

  /** So a packed batch of two or more whole files loses none of them exactly when the budget has room for its hint. */
  lemma {:induction false} PackedBatchLosesNothing(setup: Setup, batches: seq<seq<Unit>>, units: seq<Unit>, k: nat)
    requires IsPacking(batches, units, BudgetsOf(setup)) && k < |batches| && |batches[k]| >= 2
    requires (forall i :: 0 <= i < |batches[k]| ==> Measured(batches[k][i])) && EachUnitWithin(batches[k])
    ensures FirstDiff(setup, batches[k], k).dropped == [] && FirstDiff(setup, batches[k], k).truncated == []
      <==> |setup.riskHintOf(batches[k])| <= CharsOfBatch(BudgetsOf(setup), k) - Chars(batches[k])
    ensures setup.riskHintOf(batches[k]) == "" ==>
      FirstDiff(setup, batches[k], k).dropped == [] && FirstDiff(setup, batches[k], k).truncated == []
  {
    hide FirstDiff, BudgetsOf, Chars, Tokens;
    FirstAssemblyLosesNothing(setup, batches[k], k);
  }

  // ---------- from targets to units ----------

  function UnitOf(setup: Setup, piece: HunkSplit.Target): Unit {
    var text := setup.render(piece);
    Unit(piece.filePath, text, setup.count(text),
         if |text| <= MAX_DIFF_FILE_CHARS then |text| else MAX_DIFF_FILE_CHARS)
  }

  function SizeOf(setup: Setup): HunkSplit.Target -> nat {
    (t: HunkSplit.Target) => |setup.render(t)|
  }

  /** Pieces fit the first batch too, unless its budget is too small to be worth it. */
  function PieceChars(setup: Setup): int {
    var first := BudgetsOf(setup).charsFirst;
    Min(MAX_DIFF_FILE_CHARS, if first < MIN_PIECE_CHARS then MIN_PIECE_CHARS else first)
  }

  /** The file yields no piece: it is oversized, and every hunk of it is nothing but an oversized header. */
  predicate NoPieceOf(setup: Setup, t: HunkSplit.Target) {
    && SizeOf(setup)(t) > PieceChars(setup)
    && forall h :: h in t.hunks ==> SplitMeaning.Vanishes(h, HunkSplit.HunkLimit(t, SizeOf(setup), PieceChars(setup)))
  }

  /** The paths of the files that can be reviewed at all. */
  function ReviewablePaths(setup: Setup, targets: seq<HunkSplit.Target>): set<string> {
    set t | t in targets && !NoPieceOf(setup, t) :: t.filePath
  }

  function PathSet(units: seq<Unit>): set<string> {
    set u | u in units :: u.path
  }

  /** The pieces are what splitting each target yields, file by file. */
  ghost predicate AreSplits(setup: Setup, targets: seq<HunkSplit.Target>, splits: seq<seq<HunkSplit.Target>>) {
    |splits| == |targets| && forall i :: 0 <= i < |targets| ==> IsSplit(setup, targets[i], splits[i])
  }

  ghost predicate IsSplit(setup: Setup, t: HunkSplit.Target, pieces: seq<HunkSplit.Target>) {
    exists parts :: HunkSplit.IsTargetSplit(pieces, parts, t, SizeOf(setup), PieceChars(setup))
  }

  method PrepareUnits(setup: Setup, targets: seq<HunkSplit.Target>)
    returns (units: seq<Unit>, ghost splits: seq<seq<HunkSplit.Target>>)
    ensures AreSplits(setup, targets, splits) && units == UnitsOf(setup, Flatten(splits))
    ensures PathSet(units) == ReviewablePaths(setup, targets)
  {
    hide BudgetsOf, HunkSplit.IsTargetSplit, Flatten, AreSplits, IsSplit, UnitsOf, PathSet, ReviewablePaths,
      NoPieceOf, PieceChars;
    units, splits := [], [];
    NothingSplit(setup);
    for i := 0 to |targets|
      invariant AreSplits(setup, targets[..i], splits) && units == UnitsOf(setup, Flatten(splits))
      invariant PathSet(units) == ReviewablePaths(setup, targets[..i])
    {
      var t := targets[i];
      var pieces, parts := HunkSplit.SplitOversizedTarget(t, SizeOf(setup), PieceChars(setup));
      var more := UnitsOf(setup, pieces);
      assert targets[..i + 1] == targets[..i] + [t];
      SplitOneMore(setup, targets[..i], splits, t, pieces, parts);
      units := units + more;
      splits := splits + [pieces];
    }
    assert targets[..|targets|] == targets;
  }

  lemma {:induction false} NothingSplit(setup: Setup)
    ensures UnitsOf(setup, Flatten([])) == [] && AreSplits(setup, [], [])
    ensures PathSet([]) == ReviewablePaths(setup, []) == {}
  {}

  lemma {:induction false} SplitOneMore(
      setup: Setup, targets: seq<HunkSplit.Target>, splits: seq<seq<HunkSplit.Target>>,
      t: HunkSplit.Target, pieces: seq<HunkSplit.Target>, parts: seq<seq<DiffLines.Hunk>>)
    requires AreSplits(setup, targets, splits)
    requires HunkSplit.IsTargetSplit(pieces, parts, t, SizeOf(setup), PieceChars(setup))
    ensures AreSplits(setup, targets + [t], splits + [pieces])
    ensures UnitsOf(setup, Flatten(splits + [pieces])) == UnitsOf(setup, Flatten(splits)) + UnitsOf(setup, pieces)
    ensures forall units :: PathSet(units) == ReviewablePaths(setup, targets) ==>
      PathSet(units + UnitsOf(setup, pieces)) == ReviewablePaths(setup, targets + [t])
  {
    hide HunkSplit.IsTargetSplit, Flatten, PieceChars, NoPieceOf;
    assert IsSplit(setup, t, pieces);
    FlattenOneMore(splits, pieces);
    PathsOneMore(setup, t, pieces, parts);
    assert ReviewablePaths(setup, targets + [t]) == ReviewablePaths(setup, targets) + PathSet(UnitsOf(setup, pieces));
    assert forall units :: PathSet(units + UnitsOf(setup, pieces)) == PathSet(units) + PathSet(UnitsOf(setup, pieces));
  }

  lemma {:induction false} PathsOneMore(setup: Setup, t: HunkSplit.Target, pieces: seq<HunkSplit.Target>,
      parts: seq<seq<DiffLines.Hunk>>)
    requires HunkSplit.IsTargetSplit(pieces, parts, t, SizeOf(setup), PieceChars(setup))
    ensures PathSet(UnitsOf(setup, pieces)) == if NoPieceOf(setup, t) then {} else {t.filePath}
  {
    hide HunkSplit.IsTargetSplit, PieceChars, SplitMeaning.Vanishes;
    PiecePaths(pieces, parts, t, SizeOf(setup), PieceChars(setup));
    SplitMeaning.TargetVanishes(pieces, parts, t, SizeOf(setup), PieceChars(setup));
    UnitPaths(setup, pieces, t.filePath);
  }

  function UnitsOf(setup: Setup, pieces: seq<HunkSplit.Target>): (r: seq<Unit>)
    ensures |r| == |pieces|
    ensures forall i :: 0 <= i < |pieces| ==> r[i] == UnitOf(setup, pieces[i])
  {
    seq(|pieces|, i requires 0 <= i < |pieces| => UnitOf(setup, pieces[i]))
  }

  lemma {:induction false} PiecePaths(pieces: seq<HunkSplit.Target>, parts: seq<seq<DiffLines.Hunk>>,
      t: HunkSplit.Target, sizeOf: HunkSplit.Target -> nat, maxChars: int)
    requires HunkSplit.IsTargetSplit(pieces, parts, t, sizeOf, maxChars)
    ensures forall p :: p in pieces ==> p.filePath == t.filePath
  {}

  lemma {:induction false} UnitPaths(setup: Setup, pieces: seq<HunkSplit.Target>, path: string)
    requires forall p :: p in pieces ==> p.filePath == path
    ensures PathSet(UnitsOf(setup, pieces)) == if pieces == [] then {} else {path}
  {
    var units := UnitsOf(setup, pieces);
    if pieces != [] {
      assert units[0] in units && units[0].path == path;
    }
  }

  // ---------- the batch loop and the final notes ----------

  datatype Generation = GenerationFailed(reason: string) | Generated

  datatype Outcome =
    | ReviewFailed(reason: string)
    | Reviewed(reviewed: set<string>, omitted: seq<string>, partial: seq<string>)

  lemma {:induction false} FilterNoRepeats(s: seq<string>, p: string -> bool)
    requires NoRepeats(s)
    ensures NoRepeats(Filter(p, s))
  {
    if s != [] {
      FilterNoRepeats(s[1..], p);
      assert forall x :: x in s[1..] ==> x != s[0];
    }
  }

  /** Reviewed and omitted files partition `all`; the partly reviewed ones are among the reviewed. */
  ghost predicate Accounts(o: Outcome, all: set<string>) {
    o.Reviewed? ==>
      && NoRepeats(o.omitted) && NoRepeats(o.partial)
      && (forall p :: p in all <==> p in o.reviewed || p in o.omitted)
      && (forall p :: p in o.omitted ==> p !in o.reviewed)
      && (forall p :: p in o.partial ==> p in o.reviewed)
  }

  /** What became of a batch: its prompt got an answer, or it was lost before or during generation. */
  datatype Fate = Answered(prompt: Prompt) | Lost(unanswered: Option<Prompt>)

  /** The prompt ends the cascade of this batch, within the budget. */
  ghost predicate Assembled(setup: Setup, batch: seq<Unit>, i: nat, prompt: Prompt) {
    && Cost(prompt, setup.count) <= setup.budget
    && exists builds, turns :: IsBatchCascade(setup, batch, i, builds, turns)
         && prompt == Build(BatchRequest(setup, batch, i == 0), setup.contextOf, builds[|builds| - 1])
  }

  predicate IsBatchCascade(setup: Setup, batch: seq<Unit>, i: nat, builds: seq<Overrides>, turns: seq<nat>)
    ensures IsBatchCascade(setup, batch, i, builds, turns) ==> builds != []
  {
    IsCascade(BatchRequest(setup, batch, i == 0), setup.contextOf, setup.count, setup.budget, builds, turns)
  }

  /** The cascade of this batch gives up. */
  ghost predicate Unassemblable(setup: Setup, batch: seq<Unit>, i: nat) {
    exists builds, turns :: IsBatchCascade(setup, batch, i, builds, turns)
      && GivesUp(BatchRequest(setup, batch, i == 0), setup.contextOf, setup.count, setup.budget, builds)
  }

  ghost predicate IsFate(setup: Setup, batch: seq<Unit>, i: nat, fate: Fate, generate: (nat, Prompt) -> Generation) {
    match fate
    case Answered(prompt) => Assembled(setup, batch, i, prompt) && generate(i, prompt).Generated?
    case Lost(Some(prompt)) => Assembled(setup, batch, i, prompt) && generate(i, prompt).GenerationFailed?
    case Lost(None) => Unassemblable(setup, batch, i)
  }

  function Elements(s: seq<string>): set<string> {
    set p | p in s
  }

  lemma {:induction false} ElementsAppend(a: seq<string>, b: seq<string>)
    ensures Elements(a + b) == Elements(a) + Elements(b) && Elements([]) == {}
  {}

  lemma {:induction false} ElementsIn(s: seq<string>)
    ensures forall p :: p in Elements(s) <==> p in s
  {}

  /** The files that some answered prompt holds without dropping any of their pieces in its batch. */
  function Seen(batches: seq<seq<Unit>>, fates: seq<Fate>): set<string>
    requires |batches| == |fates|
  {
    if batches == [] then {} else
    var k := |batches| - 1;
    Seen(batches[..k], fates[..k])
      + if fates[k].Answered? then PathSet(batches[k]) - Elements(fates[k].prompt.diff.dropped) else {}
  }

  /** The files of which an answered prompt dropped a piece, or with a piece in a lost batch. */
  function Missed(batches: seq<seq<Unit>>, fates: seq<Fate>): set<string>
    requires |batches| == |fates|
  {
    if batches == [] then {} else
    var k := |batches| - 1;
    Missed(batches[..k], fates[..k])
      + if fates[k].Answered? then Elements(fates[k].prompt.diff.dropped) else PathSet(batches[k])
  }

  /** The files of which some piece was shown only in part. */
  function Cut(batches: seq<seq<Unit>>, fates: seq<Fate>): set<string>
    requires |batches| == |fates|
  {
    if batches == [] then {} else
    var k := |batches| - 1;
    Cut(batches[..k], fates[..k]) + if fates[k].Answered? then Elements(fates[k].prompt.diff.truncated) else {}
  }

  /** The files noted as omitted, in order: those beyond the cap, then batch by batch. */
  function MissedInOrder(batches: seq<seq<Unit>>, fates: seq<Fate>, capOmitted: seq<string>): seq<string>
    requires |batches| == |fates|
  {
    if batches == [] then capOmitted else
    var k := |batches| - 1;
    MissedInOrder(batches[..k], fates[..k], capOmitted)
      + if fates[k].Answered? then fates[k].prompt.diff.dropped else Map(UnitPath, batches[k])
  }

  /** The files noted as cut, batch by batch. */
  function CutInOrder(batches: seq<seq<Unit>>, fates: seq<Fate>): seq<string>
    requires |batches| == |fates|
  {
    if batches == [] then [] else
    var k := |batches| - 1;
    CutInOrder(batches[..k], fates[..k]) + if fates[k].Answered? then fates[k].prompt.diff.truncated else []
  }

  lemma {:induction false} NotedOneMore(
      batches: seq<seq<Unit>>, i: nat, fates: seq<Fate>, fate: Fate, capOmitted: seq<string>)
    requires i < |batches| && |fates| == i
    ensures MissedInOrder(batches[..i + 1], fates + [fate], capOmitted)
      == MissedInOrder(batches[..i], fates, capOmitted)
      + if fate.Answered? then fate.prompt.diff.dropped else Map(UnitPath, batches[i])
    ensures CutInOrder(batches[..i + 1], fates + [fate]) == CutInOrder(batches[..i], fates)
      + if fate.Answered? then fate.prompt.diff.truncated else []
  {
    hide Map;
    assert batches[..i + 1][..i] == batches[..i] && (fates + [fate])[..i] == fates;
  }

  /** A batch that got as far as generation and failed there gives the reason; any other changes none. */
  function ReasonAfter(i: nat, fate: Fate, reason: string, generate: (nat, Prompt) -> Generation): string {
    match fate
    case Lost(Some(prompt)) => if generate(i, prompt).GenerationFailed? then generate(i, prompt).reason else reason
    case _ => reason
  }

  function LastReason(fates: seq<Fate>, generate: (nat, Prompt) -> Generation): string {
    if fates == [] then "context_overflow" else
    var k := |fates| - 1;
    ReasonAfter(k, fates[k], LastReason(fates[..k], generate), generate)
  }

  lemma {:induction false} LastReasonSnoc(fates: seq<Fate>, fate: Fate, generate: (nat, Prompt) -> Generation)
    ensures LastReason(fates + [fate], generate) == ReasonAfter(|fates|, fate, LastReason(fates, generate), generate)
  {
    assert (fates + [fate])[..|fates|] == fates;
  }

  lemma {:induction false} NoReason(generate: (nat, Prompt) -> Generation)
    ensures LastReason([], generate) == "context_overflow"
  {}

  /** The final lists, told by what became of the batches. */
  ghost predicate Tells(o: Outcome, batches: seq<seq<Unit>>, fates: seq<Fate>, capOmitted: seq<string>)
    requires |batches| == |fates|
  {
    match o
    case ReviewFailed(_) => forall f :: f in fates ==> f.Lost?
    case Reviewed(reviewed, omitted, partial) =>
      var missed := Elements(capOmitted) + Missed(batches, fates);
      && (exists f :: f in fates && f.Answered?)
      && reviewed == Seen(batches, fates)
      && (forall p :: p in omitted <==> p in missed && p !in reviewed)
      && (forall p :: p in partial <==> p in reviewed && (p in missed || p in Cut(batches, fates)))
  }

  /** A noted file that counts as reviewed is partly reviewed; any other noted file is omitted. */
  function FinalNotes(reviewed: set<string>, omitted: seq<string>, partial: seq<string>): Outcome {
    var allPartial := partial + Filter((p: string) => p in reviewed, omitted);
    var unreviewed := Filter((p: string) => p !in reviewed, Distinct(omitted));
    Reviewed(reviewed, unreviewed, Filter((p: string) => p !in unreviewed, Distinct(allPartial)))
  }

  lemma {:induction false} NotesAccount(reviewed: set<string>, omitted: seq<string>, partial: seq<string>)
    requires Elements(partial) <= reviewed + Elements(omitted)
    ensures Accounts(FinalNotes(reviewed, omitted, partial), reviewed + Elements(omitted))
    ensures var o := FinalNotes(reviewed, omitted, partial);
      && (forall p :: p in o.omitted <==> p in omitted && p !in reviewed)
      && (forall p :: p in o.partial <==> p in reviewed && (p in omitted || p in partial))
  {
    hide Distinct, Filter;
    assert forall p :: p in partial ==> p in Elements(partial);
    var allPartial := partial + Filter((p: string) => p in reviewed, omitted);
    var unreviewed := Filter((p: string) => p !in reviewed, Distinct(omitted));
    FilterNoRepeats(Distinct(omitted), (p: string) => p !in reviewed);
    FilterNoRepeats(Distinct(allPartial), (p: string) => p !in unreviewed);
  }

  /**
   Both lists name their files in the order in which they were first noted: the omitted ones those that
   are not reviewed, the partly reviewed ones those cut before those omitted and yet reviewed.
   */
  lemma {:induction false} NotesInOrder(reviewed: set<string>, omitted: seq<string>, partial: seq<string>)
    returns (all: seq<string>, out: seq<nat>, part: seq<nat>)
    ensures |partial| <= |all| && all[..|partial|] == partial
    ensures forall i :: |partial| <= i < |all| ==> all[i] in omitted && all[i] in reviewed
    ensures var o := FinalNotes(reviewed, omitted, partial);
      && o.reviewed == reviewed
      && Picks(o.omitted, omitted, out) && Picks(o.partial, all, part)
      && (forall i :: 0 <= i < |omitted| ==> (i in out <==> omitted[i] !in reviewed && IsFirst(omitted, i)))
      && (forall i :: 0 <= i < |all| ==> (i in part <==> all[i] !in o.omitted && IsFirst(all, i)))
  {
    hide Distinct, Filter, Picks, IsFirst;
    var o := FinalNotes(reviewed, omitted, partial);
    var seen := Filter((p: string) => p in reviewed, omitted);
    all := partial + seen;
    assert forall i :: |partial| <= i < |all| ==> all[i] == seen[i - |partial|] && seen[i - |partial|] in seen;
    out := FirstsPicked((p: string) => p !in reviewed, omitted);
    part := FirstsPicked((p: string) => p !in o.omitted, all);
  }

  /** Assembles a batch and, when that succeeds, generates from it; `lastReason` stands when it fails. */
  method ReviewBatch(setup: Setup, batch: seq<Unit>, i: nat, lastReason: string, generate: (nat, Prompt) -> Generation)
    returns (result: Generation, report: PromptReport, ghost fate: Fate)
    ensures IsFate(setup, batch, i, fate, generate)
    ensures result.Generated? <==> fate.Answered?
    ensures result.Generated? ==>
      exists prompt :: Assembled(setup, batch, i, prompt) && result == generate(i, prompt) && report.Describes(prompt)
    ensures var first := Build(BatchRequest(setup, batch, i == 0), setup.contextOf, NO_OVERRIDES);
      Cost(first, setup.count) <= setup.budget ==> result == generate(i, first)
    ensures ReasonAfter(i, fate, lastReason, generate) == if result.GenerationFailed? then result.reason else lastReason
    ensures fate.Answered? ==>
      && report.Describes(fate.prompt)
      && Elements(report.droppedFiles) <= PathSet(batch) && Elements(report.truncatedFiles) <= PathSet(batch)
  {
    hide Build, Cost, IsFate, Assembled, BatchRequest, Elements, PathSet, GivesUp;
    report := new PromptReport();
    var req := BatchRequest(setup, batch, i == 0);
    var prompt, builds, turns := AssembleWithinBudget(req, setup.contextOf, setup.count, setup.budget, report);
    result := if prompt.Some? then generate(i, prompt.value) else GenerationFailed(lastReason);
    fate := if result.Generated? then Answered(prompt.value) else Lost(prompt);
    ReportInside(setup, batch, i, builds[|builds| - 1]);
    FateKnown(setup, batch, i, prompt, builds, turns, result, generate);
    if Cost(Build(req, setup.contextOf, NO_OVERRIDES), setup.count) <= setup.budget {
      FittingFirst(setup, batch, i, builds, turns);
    }
    if prompt.Some? {
      LastIsAssembled(setup, batch, i, prompt.value, builds, turns);
    }
  }

  /** A first build that fits is the last one. */
  lemma {:induction false} FittingFirst(setup: Setup, batch: seq<Unit>, i: nat, builds: seq<Overrides>, turns: seq<nat>)
    requires IsBatchCascade(setup, batch, i, builds, turns)
    requires Cost(Build(BatchRequest(setup, batch, i == 0), setup.contextOf, NO_OVERRIDES), setup.count) <= setup.budget
    ensures |builds| == 1 && builds[0] == NO_OVERRIDES
  {
    hide Build, Cost, Advances, PromptAssembly.InOrder, DiffFloor;
  }

  lemma {:induction false} LastIsAssembled(setup: Setup, batch: seq<Unit>, i: nat, prompt: Prompt,
      builds: seq<Overrides>, turns: seq<nat>)
    requires IsBatchCascade(setup, batch, i, builds, turns) && Cost(prompt, setup.count) <= setup.budget
    requires prompt == Build(BatchRequest(setup, batch, i == 0), setup.contextOf, builds[|builds| - 1])
    ensures Assembled(setup, batch, i, prompt)
  {
    hide Build, Cost, IsBatchCascade;
  }

  /** What the loop has noted so far. */
  ghost predicate Noted(reviewed: set<string>, omitted: seq<string>, partial: seq<string>,
                        batches: seq<seq<Unit>>, fates: seq<Fate>, capOmitted: seq<string>)
    requires |batches| == |fates|
  {
    && reviewed == Seen(batches, fates)
    && Elements(omitted) == Elements(capOmitted) + Missed(batches, fates)
    && Elements(partial) == Cut(batches, fates)
    && Elements(partial) <= reviewed + Elements(omitted)
    && PathSet(Flatten(batches)) + Elements(capOmitted) == reviewed + Elements(omitted)
  }

  lemma {:induction false} LostNoted(
      reviewed: set<string>, omitted: seq<string>, partial: seq<string>,
      batches: seq<seq<Unit>>, i: nat, fates: seq<Fate>, fate: Fate, capOmitted: seq<string>)
    requires i < |batches| && |fates| == i && fate.Lost?
    requires Noted(reviewed, omitted, partial, batches[..i], fates, capOmitted)
    ensures Noted(reviewed, omitted + Map(UnitPath, batches[i]), partial, batches[..i + 1], fates + [fate], capOmitted)
  {
    hide Flatten, Seen, Missed, Cut, PathSet, Elements, Map;
    SeenOneMore(batches, i);
    ElementsAppend(omitted, Map(UnitPath, batches[i]));
    FatesOneMore(batches, i, fates, fate);
  }

  lemma {:induction false} AnswerNoted(
      reviewed: set<string>, omitted: seq<string>, partial: seq<string>,
      batches: seq<seq<Unit>>, i: nat, fates: seq<Fate>, fate: Fate, capOmitted: seq<string>)
    requires i < |batches| && |fates| == i && fate.Answered?
    requires Noted(reviewed, omitted, partial, batches[..i], fates, capOmitted)
    requires var diff := fate.prompt.diff;
      Elements(diff.dropped) <= PathSet(batches[i]) && Elements(diff.truncated) <= PathSet(batches[i])
    ensures var diff := fate.prompt.diff;
      Noted(reviewed + (Elements(Map(UnitPath, batches[i])) - Elements(diff.dropped)), omitted + diff.dropped,
            partial + diff.truncated, batches[..i + 1], fates + [fate], capOmitted)
  {
    hide Flatten, Seen, Missed, Cut, PathSet, Elements, Map;
    SeenOneMore(batches, i);
    ElementsAppend(omitted, fate.prompt.diff.dropped);
    ElementsAppend(partial, fate.prompt.diff.truncated);
    FatesOneMore(batches, i, fates, fate);
  }

  method ReviewBatches(setup: Setup, batches: seq<seq<Unit>>, capOmitted: seq<string>,
      generate: (nat, Prompt) -> Generation)
    returns (o: Outcome, ghost fates: seq<Fate>)
    ensures |fates| == |batches|
    ensures forall i :: 0 <= i < |batches| ==> IsFate(setup, batches[i], i, fates[i], generate)
    ensures Tells(o, batches, fates, capOmitted)
    ensures o.ReviewFailed? ==> o.reason == LastReason(fates, generate)
    ensures o.Reviewed? ==>
      o == FinalNotes(Seen(batches, fates), MissedInOrder(batches, fates, capOmitted), CutInOrder(batches, fates))
    ensures Accounts(o, PathSet(Flatten(batches)) + Elements(capOmitted))
  {
    hide Noted, Tells, Accounts, PathSet, IsFate, Elements, Map, LastReason, ReasonAfter, Build, Cost, Assembled,
      BatchRequest, MissedInOrder, CutInOrder, FinalNotes, Seen;
    var omitted, partial: seq<string>, reviewed: set<string>, lastReason := capOmitted, [], {}, "context_overflow";
    var successes := 0;
    fates := [];
    NothingNoted(batches, capOmitted);
    NothingInOrder(batches, capOmitted);
    NoReason(generate);
    for i := 0 to |batches|
      invariant |fates| == i
      invariant forall k :: 0 <= k < i ==> IsFate(setup, batches[k], k, fates[k], generate)
      invariant successes == 0 <==> forall f :: f in fates ==> f.Lost?
      invariant lastReason == LastReason(fates, generate)
      invariant Noted(reviewed, omitted, partial, batches[..i], fates, capOmitted)
      invariant reviewed == Seen(batches[..i], fates)
      invariant omitted == MissedInOrder(batches[..i], fates, capOmitted) && partial == CutInOrder(batches[..i], fates)
    {
      var batch := batches[i];
      ghost var before := fates;
      var result, report, fate := ReviewBatch(setup, batch, i, lastReason, generate);
      if result.GenerationFailed? {
        lastReason := result.reason;
        LostNoted(reviewed, omitted, partial, batches, i, before, fate, capOmitted);
        omitted := omitted + Map(UnitPath, batch);
      } else {
        successes := successes + 1;
        AnswerNoted(reviewed, omitted, partial, batches, i, before, fate, capOmitted);
        omitted := omitted + report.droppedFiles;
        partial := partial + report.truncatedFiles;
        reviewed := reviewed + (Elements(Map(UnitPath, batch)) - Elements(report.droppedFiles));
        assert (before + [fate])[i].Answered? && fate in before + [fate];
      }
      fates := before + [fate];
      NotedOneMore(batches, i, before, fate, capOmitted);
      IsSeen(reviewed, omitted, partial, batches[..i + 1], fates, capOmitted);
      LastReasonSnoc(before, fate, generate);
    }
    assert batches[..|batches|] == batches;
    if successes == 0 {
      o := ReviewFailed(lastReason);
      FailureTells(o, batches, fates, capOmitted);
    } else {
      o := FinalNotes(reviewed, omitted, partial);
      NotesAreReviewed(reviewed, omitted, partial);
      NotesTell(reviewed, omitted, partial, batches, fates, capOmitted);
    }
  }

  lemma {:induction false} NothingNoted(batches: seq<seq<Unit>>, capOmitted: seq<string>)
    ensures Noted({}, capOmitted, [], batches[..0], [], capOmitted)
  {
    NothingSeen();
    assert batches[..0] == [];
  }

  lemma {:induction false} NothingInOrder(batches: seq<seq<Unit>>, capOmitted: seq<string>)
    ensures MissedInOrder(batches[..0], [], capOmitted) == capOmitted && CutInOrder(batches[..0], []) == []
    ensures Seen(batches[..0], []) == {}
  {
    assert batches[..0] == [];
  }

  lemma {:induction false} IsSeen(reviewed: set<string>, omitted: seq<string>, partial: seq<string>,
      batches: seq<seq<Unit>>, fates: seq<Fate>, capOmitted: seq<string>)
    requires |batches| == |fates| && Noted(reviewed, omitted, partial, batches, fates, capOmitted)
    ensures reviewed == Seen(batches, fates)
  {}

  lemma {:induction false} FailureTells(o: Outcome, batches: seq<seq<Unit>>, fates: seq<Fate>, capOmitted: seq<string>)
    requires |batches| == |fates| && o.ReviewFailed? && forall f :: f in fates ==> f.Lost?
    ensures Tells(o, batches, fates, capOmitted) && Accounts(o, PathSet(Flatten(batches)) + Elements(capOmitted))
  {}

  /** The final notes account for every file, and tell what became of it. */
  lemma {:induction false} NotesTell(
      reviewed: set<string>, omitted: seq<string>, partial: seq<string>,
      batches: seq<seq<Unit>>, fates: seq<Fate>, capOmitted: seq<string>)
    requires |batches| == |fates| && Noted(reviewed, omitted, partial, batches, fates, capOmitted)
    requires exists f :: f in fates && f.Answered?
    ensures var o := FinalNotes(reviewed, omitted, partial);
      Tells(o, batches, fates, capOmitted) && Accounts(o, PathSet(Flatten(batches)) + Elements(capOmitted))
  {
    hide Flatten, Seen, Missed, Cut, PathSet, Elements, FinalNotes;
    NotesAccount(reviewed, omitted, partial);
    NotesAreReviewed(reviewed, omitted, partial);
    ElementsIn(omitted);
    ElementsIn(partial);
  }

  lemma {:induction false} NotesAreReviewed(reviewed: set<string>, omitted: seq<string>, partial: seq<string>)
    ensures var o := FinalNotes(reviewed, omitted, partial);
      o.Reviewed? && o.reviewed == reviewed
  {}

  lemma {:induction false} NothingSeen()
    ensures Seen([], []) == Missed([], []) == Cut([], []) == {} && PathSet(Flatten<Unit>([])) == {}
  {}

  lemma {:induction false} FatesOneMore(batches: seq<seq<Unit>>, i: nat, fates: seq<Fate>, fate: Fate)
    requires i < |batches| && |fates| == i
    ensures Seen(batches[..i + 1], fates + [fate]) == Seen(batches[..i], fates)
      + if fate.Answered? then PathSet(batches[i]) - Elements(fate.prompt.diff.dropped) else {}
    ensures Missed(batches[..i + 1], fates + [fate]) == Missed(batches[..i], fates)
      + if fate.Answered? then Elements(fate.prompt.diff.dropped) else PathSet(batches[i])
    ensures Cut(batches[..i + 1], fates + [fate]) == Cut(batches[..i], fates)
      + if fate.Answered? then Elements(fate.prompt.diff.truncated) else {}
  {
    assert batches[..i + 1][..i] == batches[..i] && (fates + [fate])[..i] == fates;
  }

  lemma {:induction false} FateKnown(setup: Setup, batch: seq<Unit>, i: nat, prompt: Option<Prompt>,
                                     builds: seq<Overrides>, turns: seq<nat>,
                                     result: Generation, generate: (nat, Prompt) -> Generation)
    requires IsBatchCascade(setup, batch, i, builds, turns)
    requires var req := BatchRequest(setup, batch, i == 0);
      if prompt.Some? then
        && prompt.value == Build(req, setup.contextOf, builds[|builds| - 1])
        && Cost(prompt.value, setup.count) <= setup.budget && result == generate(i, prompt.value)
      else GivesUp(req, setup.contextOf, setup.count, setup.budget, builds) && result.GenerationFailed?
    ensures IsFate(setup, batch, i, if result.Generated? then Answered(prompt.value) else Lost(prompt), generate)
  {
    hide Build, Cost, IsBatchCascade, GivesUp;
  }

  lemma {:induction false} SeenOneMore(batches: seq<seq<Unit>>, i: nat)
    requires i < |batches|
    ensures PathSet(Flatten(batches[..i + 1])) == PathSet(Flatten(batches[..i])) + PathSet(batches[i])
    ensures PathSet(batches[i]) == Elements(Map(UnitPath, batches[i]))
  {
    assert batches[..i + 1][..i] == batches[..i];
    PathsAreElements(batches[i]);
  }

  lemma {:induction false} PathsAreElements(units: seq<Unit>)
    ensures PathSet(units) == Elements(Map(UnitPath, units))
  {
    forall p | p in PathSet(units) ensures p in Map(UnitPath, units) {
      var u :| u in units && u.path == p;
      var j :| 0 <= j < |units| && units[j] == u;
      assert Map(UnitPath, units)[j] == p;
    }
    forall p | p in Map(UnitPath, units) ensures p in PathSet(units) {
      var j :| 0 <= j < |units| && Map(UnitPath, units)[j] == p;
      assert units[j] in units;
    }
  }

  /** A report names only files of its batch. */
  lemma {:induction false} ReportInside(setup: Setup, batch: seq<Unit>, i: nat, ov: Overrides)
    ensures var diff := Build(BatchRequest(setup, batch, i == 0), setup.contextOf, ov).diff;
      Elements(diff.dropped) <= PathSet(batch) && Elements(diff.truncated) <= PathSet(batch)
  {
    var req := BatchRequest(setup, batch, i == 0);
    ReportedPaths(req.blocks, MAX_DIFF_FILE_CHARS, DiffBudgetOf(req, setup.contextOf, ov));
    hide Build, Truncated;
    BlocksOfAt(batch);
    PathsAreElements(batch);
    assert forall p :: p in Map(UnitPath, batch) ==> p in Elements(Map(UnitPath, batch));
  }

  function DiffBudgetOf(req: Request, contextOf: int -> string, ov: Overrides): int {
    var p := Build(req, contextOf, ov);
    if ov.diff.Some? then ov.diff.value else DiffBudget(req, p.context, p.prSection, p.apiSpec, p.officialDocs)
  }

  /** The plan of a review: how each file was split, the units, the batches, and the units left out by the cap. */
  datatype Plan = Plan(splits: seq<seq<HunkSplit.Target>>, units: seq<Unit>, batches: seq<seq<Unit>>,
      dropped: seq<Unit>)

  /** Every file is split, and the units of its pieces are packed in order; only the cap leaves units out. */
  ghost predicate IsPlan(setup: Setup, targets: seq<HunkSplit.Target>, plan: Plan) {
    && AreSplits(setup, targets, plan.splits) && plan.units == UnitsOf(setup, Flatten(plan.splits))
    && Flatten(plan.batches) + plan.dropped == PackingOrder(plan.units, BudgetsOf(setup), setup.isLow)
    && EachFits(plan.batches, BudgetsOf(setup)) && PackedFull(plan.batches, BudgetsOf(setup))
    && |plan.batches| <= setup.maxBatches && (plan.dropped != [] ==> |plan.batches| == setup.maxBatches)
  }

  /**
   File accounting over a whole run: through oversize splitting, the batch cap, assembly failure,
   generation failure and prompt drops, the reviewed and the omitted files of a completed review
   partition the reviewable paths, partly reviewed files are reviewed files, and no list repeats one.
   */
  method Run(setup: Setup, targets: seq<HunkSplit.Target>, generate: (nat, Prompt) -> Generation)
    returns (o: Outcome, ghost plan: Plan, ghost fates: seq<Fate>)
    ensures Accounts(o, ReviewablePaths(setup, targets))
    ensures IsPlan(setup, targets, plan) && |fates| == |plan.batches|
    ensures forall i :: 0 <= i < |fates| ==> IsFate(setup, plan.batches[i], i, fates[i], generate)
    ensures plan.batches != [] ==> Tells(o, plan.batches, fates, Map(UnitPath, plan.dropped))
    ensures o.ReviewFailed? ==> o.reason == LastReason(fates, generate)
    ensures o.Reviewed? && plan.batches != [] ==>
      o == FinalNotes(Seen(plan.batches, fates), MissedInOrder(plan.batches, fates, Map(UnitPath, plan.dropped)),
                      CutInOrder(plan.batches, fates))
    ensures plan.batches == [] ==> o == if targets == [] then Reviewed({}, [], []) else ReviewFailed("context_overflow")
  {
    hide BudgetsOf, Flatten, ReviewablePaths, Tells, LastReason, AreSplits, PackingOrder, PackedFull, EachFits, IsFate,
      MissedInOrder, CutInOrder, FinalNotes, Seen;
    NoReason(generate);
    if targets == [] {
      NothingReviewable(setup);
      EmptyPlan(setup);
      return Reviewed({}, [], []), Plan([], [], [], []), [];
    }
    var units, splits := PrepareUnits(setup, targets);
    var batches, omitted, dropped := SplitTargetsIntoBatches(units, BudgetsOf(setup), setup.isLow, setup.maxBatches);
    plan := Plan(splits, units, batches, dropped);
    if batches == [] {
      return ReviewFailed("context_overflow"), plan, [];
    }
    o, fates := ReviewBatches(setup, batches, omitted, generate);
    SamePaths(Flatten(batches), dropped, units);
  }

  lemma {:induction false} EmptyPlan(setup: Setup)
    ensures IsPlan(setup, [], Plan([], [], [], []))
  {
    assert PackingOrder([], BudgetsOf(setup), setup.isLow) == [];
  }

  /** The lines to review, file by file. */
  function LinesOf(targets: seq<HunkSplit.Target>): seq<DiffLines.Line> {
    if targets == [] then [] else
    LinesOf(targets[..|targets| - 1]) + SplitMeaning.Bodies(targets[|targets| - 1].hunks)
  }

  lemma {:induction false} LinesOfAppend(a: seq<HunkSplit.Target>, b: seq<HunkSplit.Target>)
    ensures LinesOf(a + b) == LinesOf(a) + LinesOf(b)
  {
    if b == [] {
      assert a + b == a;
    } else {
      assert (a + b)[..|a + b| - 1] == a + b[..|b| - 1];
      LinesOfAppend(a, b[..|b| - 1]);
      Assoc(LinesOf(a), LinesOf(b[..|b| - 1]), SplitMeaning.Bodies(b[|b| - 1].hunks));
    }
  }

  lemma {:induction false} LinesOfPieces(pieces: seq<HunkSplit.Target>)
    ensures LinesOf(pieces) == SplitMeaning.Bodies(HunkSplit.AllHunks(pieces))
  {
    if pieces != [] {
      var front, last := pieces[..|pieces| - 1], pieces[|pieces| - 1];
      LinesOfPieces(front);
      SplitMeaning.BodiesAppend(HunkSplit.AllHunks(front), last.hunks);
    }
  }

  /** Planning loses no changed line: the pieces behind the units carry every line of every file, in order. */
  lemma {:induction false} SplitsKeepLines(setup: Setup, targets: seq<HunkSplit.Target>,
      splits: seq<seq<HunkSplit.Target>>)
    requires AreSplits(setup, targets, splits)
    ensures LinesOf(Flatten(splits)) == LinesOf(targets)
  {
    hide BudgetsOf, HunkSplit.IsTargetSplit;
    if splits != [] {
      var k := |splits| - 1;
      SplitsKeepLines(setup, targets[..k], splits[..k]);
      assert IsSplit(setup, targets[k], splits[k]);
      var parts :| HunkSplit.IsTargetSplit(splits[k], parts, targets[k], SizeOf(setup), PieceChars(setup));
      SplitMeaning.TargetSplitKeepsLines(splits[k], parts, targets[k], SizeOf(setup), PieceChars(setup));
      LinesOfPieces(splits[k]);
      LinesOfAppend(Flatten(splits[..k]), splits[k]);
    }
  }

  lemma {:induction false} NothingReviewable(setup: Setup)
    ensures ReviewablePaths(setup, []) == {}
  {}

  lemma {:induction false} SamePaths(batched: seq<Unit>, dropped: seq<Unit>, units: seq<Unit>)
    requires multiset(batched + dropped) == multiset(units)
    ensures PathSet(batched) + Elements(Map(UnitPath, dropped)) == PathSet(units)
  {
    PathsAreElements(dropped);
    assert forall u :: u in units <==> u in multiset(batched + dropped);
    assert forall u :: u in batched + dropped <==> u in batched || u in dropped;
  }
}
