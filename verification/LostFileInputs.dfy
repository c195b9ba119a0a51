/**
 Inputs on which a review loses sight of a file: targets, what is planned for them, and what becomes of it.
 */
module LostFileInputs {
  import opened Seqs
  import opened Text
  import opened DiffBlocks
  import opened PromptAssembly
  import opened Batching
  import opened ReviewRun
  import opened LostFiles
  import DiffLines
  import HunkSplit
  import SplitMeaning

  function Xs(n: nat): (s: string)
    ensures |s| == n && forall i :: 0 <= i < n ==> s[i] == 'x'
  {
    seq(n, _ => 'x')
  }

  function HunksText(hunks: seq<DiffLines.Hunk>): string {
    if hunks == [] then "" else
    Join(hunks[0].Lines(), "\n") + (if |hunks| == 1 then "" else "\n" + HunksText(hunks[1..]))
  }

  /** A file without context chunks and related code. */
  function RenderPlain(t: HunkSplit.Target): string {
    "# " + t.filePath + " (" + t.status + ")\n" + HunksText(t.hunks)
  }

  /** A review with an API section of the given length, a given risk hint and room for every token. */
  function Example(apiChars: nat, hint: string): Setup {
    Setup(Request("", [], "", "", Xs(apiChars), "", "", true), (_: int) => "", (_: string) => 0, 0,
          (_: seq<Unit>) => hint, (_: string) => false, 1, RenderPlain)
  }

  lemma {:induction false} ExampleBudgets(apiChars: nat, hint: string)
    requires apiChars <= MAX_DIFF_TOTAL_CHARS
    ensures var b := BudgetsOf(Example(apiChars, hint));
      b.tokens == b.commonFirst == 0 && b.charsFirst == MAX_DIFF_TOTAL_CHARS - apiChars
  {
    hide Truncated;
  }

  lemma {:induction false} PairOf(u: Unit, v: Unit)
    ensures Tokens([u, v]) == u.tokens + v.tokens && Chars([u, v]) == u.chars + v.chars
    ensures Flatten([[u, v]]) == [u, v] && BlocksOf([u, v]) == [Block(u.path, u.text), Block(v.path, v.text)]
  {
    assert [u, v][..1] == [u] && [u][..0] == [] && [[u, v]][..0] == [];
    assert [] + [u] == [u] && [u] + [v] == [u, v];
    WeightsOfOneMore([], u);
    WeightsOfOneMore([u], v);
    BlocksOfAt([u, v]);
  }

  // ---------- targets of one-line hunks ----------

  const HEADER := "@@ -1,1 +1,1 @@"

  /** A hunk that adds one line of the given length. */
  function OneLine(n: nat): DiffLines.Hunk
    requires n > 0
  {
    DiffLines.Hunk(HEADER, ["+" + Xs(n - 1)])
  }

  function File(path: string, hunks: seq<DiffLines.Hunk>): HunkSplit.Target {
    HunkSplit.Target(path, "modified", hunks, [])
  }

  lemma {:induction false} OneLineLength(n: nat)
    requires n > 0
    ensures HunkSplit.HunkLength(OneLine(n)) == 16 + n
    ensures |Join(OneLine(n).Lines(), "\n")| == 16 + n
  {
    var h := OneLine(n);
    HunkSplit.CountsOne(h.body[0]);
    assert h.body == [h.body[0]];
    assert h.Lines()[1..] == h.body;
  }

  lemma {:induction false} FileLengths(path: string, m: nat, n: nat)
    requires |path| == 4 && m > 0 && n > 0
    ensures |RenderPlain(File(path, []))| == 18
    ensures |RenderPlain(File(path, [OneLine(n)]))| == 34 + n
    ensures |RenderPlain(File(path, [OneLine(m), OneLine(n)]))| == 51 + m + n
  {
    hide Join, OneLine;
    OneLineLength(m);
    OneLineLength(n);
    assert [OneLine(m), OneLine(n)][1..] == [OneLine(n)];
  }

  lemma {:induction false} PairOfHunks(g: DiffLines.Hunk, h: DiffLines.Hunk)
    ensures Flatten([[g], [h]]) == [g, h]
  {
    FlattenOneMore([], [g]);
    FlattenOneMore([[g]], [h]);
    assert [] + [[g]] == [[g]] && [[g]] + [[h]] == [[g], [h]] && [g] + [h] == [g, h];
    assert Flatten<DiffLines.Hunk>([]) == [];
  }

  /** Two hunks that do not fit together come apart, each whole. */
  lemma {:induction false} TwoPieces(path: string, g: DiffLines.Hunk, h: DiffLines.Hunk,
      sizeOf: HunkSplit.Target -> nat, maxChars: int)
    requires sizeOf(File(path, [g, h])) > maxChars
    requires var limit := HunkSplit.HunkLimit(File(path, [g, h]), sizeOf, maxChars);
      HunkSplit.HunkLength(g) <= limit && HunkSplit.HunkLength(h) <= limit
    ensures HunkSplit.IsTargetSplit(
      [File(path, [g]), File(path, [h])], [[g], [h]], File(path, [g, h]), sizeOf, maxChars)
  {
    hide HunkSplit.HunkLength, HunkSplit.HunkLimit, HunkSplit.ChunksFor;
    var t, pieces := File(path, [g, h]), [File(path, [g]), File(path, [h])];
    PairOfHunks(g, h);
    MakesPiece(t, [g]);
    MakesPiece(t, [h]);
    MakesPiece(t, [g] + [h]);
    assert [g] + [h] == [g, h];
    assert pieces[..1] == [pieces[0]] && [pieces[0]][..0] == [];
    assert HunkSplit.AllHunks([pieces[0]]) == [] + [g] == [g];
    assert HunkSplit.AllHunks(pieces) == [g] + [h];
    assert HunkSplit.GroupFull(pieces[0].hunks, pieces[1].hunks[0], t, sizeOf, maxChars);
  }

  lemma {:induction false} MakesPiece(t: HunkSplit.Target, group: seq<DiffLines.Hunk>)
    requires t.chunks == []
    ensures HunkSplit.Make(t, group) == t.(hunks := group)
  {}

  /** A plan of one batch that holds two units and keeps within the first budgets. */
  lemma {:induction false} OneBatchPlan(
      setup: Setup, targets: seq<HunkSplit.Target>, splits: seq<seq<HunkSplit.Target>>,
      p: HunkSplit.Target, q: HunkSplit.Target)
    requires AreSplits(setup, targets, splits) && Flatten(splits) == [p, q] && setup.maxBatches == 1
    requires var b, u, v := BudgetsOf(setup), UnitOf(setup, p), UnitOf(setup, q);
      b.commonFirst + u.tokens + v.tokens <= b.tokens && u.chars + v.chars <= b.charsFirst
    ensures var units := [UnitOf(setup, p), UnitOf(setup, q)];
      IsPlan(setup, targets, Plan(splits, units, [units], []))
  {
    hide AreSplits, BudgetsOf, UnitOf, Flatten, SourceFirst;
    var u, v := UnitOf(setup, p), UnitOf(setup, q);
    var units := [u, v];
    PairOf(u, v);
    assert UnitsOf(setup, [p, q]) == units;
    assert Fits(units, 0, BudgetsOf(setup));
    assert units + [] == units;
  }

  // ---------- a risk hint loses a file ----------

  /** Two files of one hunk each, rendered to the per-file cap: the plan is one batch of both. */
  function FullFiles(): seq<HunkSplit.Target> {
    [File("a.py", [OneLine(7966)]), File("b.py", [OneLine(7966)])]
  }

  lemma {:induction false} PieceLimit(apiChars: nat, hint: string)
    requires apiChars <= MAX_DIFF_TOTAL_CHARS - MAX_DIFF_FILE_CHARS
    ensures PieceChars(Example(apiChars, hint)) == MAX_DIFF_FILE_CHARS
  {
    hide BudgetsOf;
    ExampleBudgets(apiChars, hint);
  }

  lemma {:induction false} WholeFile(setup: Setup, t: HunkSplit.Target)
    requires |setup.render(t)| <= PieceChars(setup)
    ensures IsSplit(setup, t, [t])
  {
    hide PieceChars;
    assert HunkSplit.IsTargetSplit([t], [], t, SizeOf(setup), PieceChars(setup));
  }

  lemma {:induction false} PairOfSplits(p: HunkSplit.Target, q: HunkSplit.Target)
    ensures Flatten([[p], [q]]) == [p, q] && Flatten([[p, q]]) == [p, q]
  {
    FlattenOneMore([], [p]);
    FlattenOneMore([[p]], [q]);
    FlattenOneMore([], [p, q]);
    assert [] + [[p]] == [[p]] && [[p]] + [[q]] == [[p], [q]] && [p] + [q] == [p, q] && [] + [[p, q]] == [[p, q]];
    assert Flatten<HunkSplit.Target>([]) == [];
  }

  /**
   Every risk hint but the empty one: the only batch planned for two files that render to the per-file
   cap and fill the character budget together loses part of one of them.
   */
  lemma {:induction false} HintLosesFile(hint: string)
    returns (setup: Setup, targets: seq<HunkSplit.Target>, plan: Plan)
    requires hint != ""
    ensures targets == FullFiles() && (forall batch :: setup.riskHintOf(batch) == hint)
    ensures IsPlan(setup, targets, plan) && |plan.batches| == 1 && plan.dropped == []
    ensures var diff := FirstDiff(setup, plan.batches[0], 0);
      diff.dropped != [] || diff.truncated != []
  {
    hide FirstDiff, BudgetsOf, Chars, Tokens, RenderPlain, IsSplit, IsPlan, PieceChars, Flatten, OneLine;
    setup, targets := Example(4000, hint), FullFiles();
    var p, q := targets[0], targets[1];
    FileLengths("a.py", 7966, 7966);
    FileLengths("b.py", 7966, 7966);
    PieceLimit(4000, hint);
    WholeFile(setup, p);
    WholeFile(setup, q);
    PairOfSplits(p, q);
    ExampleBudgets(4000, hint);
    OneBatchPlan(setup, targets, [[p], [q]], p, q);
    var units := [UnitOf(setup, p), UnitOf(setup, q)];
    plan := Plan([[p], [q]], units, [units], []);
    PairOf(units[0], units[1]);
    NotEmpty(p);
    NotEmpty(q);
    FirstAssemblyLosesNothing(setup, units, 0);
  }

  lemma {:induction false} NotEmpty(t: HunkSplit.Target)
    ensures RenderPlain(t) != ""
  {}

  // ---------- a shown file is noted as unreviewed ----------

  /** A file of two hunks that together render to more than the per-file cap. */
  function TwoHunks(): HunkSplit.Target {
    File("a.py", [OneLine(7896), OneLine(66)])
  }

  lemma {:induction false} TwoHunksSplit(setup: Setup)
    requires setup.render == RenderPlain && PieceChars(setup) == MAX_DIFF_FILE_CHARS
    ensures IsSplit(setup, TwoHunks(), [File("a.py", [OneLine(7896)]), File("a.py", [OneLine(66)])])
  {
    hide RenderPlain, PieceChars, OneLine, HunkSplit.IsTargetSplit, HunkSplit.HunkLength;
    var g, h := OneLine(7896), OneLine(66);
    FileLengths("a.py", 7896, 66);
    OneLineLength(7896);
    OneLineLength(66);
    assert TwoHunks().(hunks := []) == File("a.py", []);
    TwoPieces("a.py", g, h, SizeOf(setup), PieceChars(setup));
  }

  /**
   The two hunks come apart, and the only batch planned holds both pieces. The hint drops the second one,
   and the file is noted as unreviewed only, although the answered prompt showed its first hunk whole.
   */
  lemma {:induction false} ShownFileOmitted() returns (setup: Setup, plan: Plan, prompt: Prompt)
    ensures IsPlan(setup, [TwoHunks()], plan) && |plan.batches| == 1 && plan.dropped == []
    ensures forall generate: (nat, Prompt) -> Generation :: generate(0, prompt) == Generated ==>
      IsFate(setup, plan.batches[0], 0, Answered(prompt), generate)
    ensures "a.py" in ShownPaths(plan.batches, [Answered(prompt)])
    ensures forall o :: Tells(o, plan.batches, [Answered(prompt)], []) ==>
      o.Reviewed? && "a.py" in o.omitted && "a.py" !in o.partial && "a.py" !in o.reviewed
  {
    hide Build, BudgetsOf, Truncated, IsFate, Tokens, Chars, Flatten, FirstDiff, BlocksOf, Tells, ShownPaths,
      RenderPlain, IsSplit, IsPlan, PieceChars, OneLine;
    setup := Example(11970, Xs(90));
    var p, q := File("a.py", [OneLine(7896)]), File("a.py", [OneLine(66)]);
    var u, v := UnitOf(setup, p), UnitOf(setup, q);
    FileLengths("a.py", 7896, 66);
    FileLengths("a.py", 66, 7896);
    PieceLimit(11970, Xs(90));
    TwoHunksSplit(setup);
    PairOfSplits(p, q);
    ExampleBudgets(11970, Xs(90));
    OneBatchPlan(setup, [TwoHunks()], [[p, q]], p, q);
    var batch := [u, v];
    plan := Plan([[p, q]], batch, [batch], []);
    PairOf(u, v);
    prompt := Build(BatchRequest(setup, batch, true), setup.contextOf, NO_OVERRIDES);
    FirstDiffBudget(setup, batch, 0);
    DiffOfFirst(setup, batch);
    SecondDropped(Block(u.path, u.text), Block(v.path, v.text), 7940);
    FirstBuildAnswers(setup, batch, prompt);
    TornIsOmitted(u, v, prompt);
  }

  lemma {:induction false} DiffOfFirst(setup: Setup, batch: seq<Unit>)
    ensures FirstDiff(setup, batch, 0) == Build(BatchRequest(setup, batch, true), setup.contextOf, NO_OVERRIDES).diff
  {}

  lemma {:induction false} TornIsOmitted(u: Unit, v: Unit, prompt: Prompt)
    requires u.path == v.path && prompt.diff.dropped == [v.path]
    ensures u.path in ShownPaths([[u, v]], [Answered(prompt)])
    ensures forall o :: Tells(o, [[u, v]], [Answered(prompt)], []) ==>
      o.Reviewed? && u.path in o.omitted && u.path !in o.partial && u.path !in o.reviewed
  {
    hide Seen, Missed, ShownPaths;
    var batches, fates, p := [[u, v]], [Answered(prompt)], u.path;
    assert KeptUnits([u, v], prompt.diff) == [u] && u in [u];
    assert TornIn(batches[0], fates[0], p);
    ShownAt(batches, fates, p);
    SeenAt(batches, fates, p);
    forall o | Tells(o, batches, fates, [])
      ensures o.Reviewed? && p in o.omitted && p !in o.partial && p !in o.reviewed
    {
      assert fates[0] in fates;
      OmittedYetShownIff(o, batches, fates, [], p);
    }
  }

  lemma {:induction false} SecondDropped(a: Block, b: Block, room: nat)
    requires 0 < |a.text| <= room <= MAX_DIFF_FILE_CHARS
    requires room - |a.text| < |TRUNC_MSG| && room - |a.text| < |b.text|
    ensures Kept([a, b], MAX_DIFF_FILE_CHARS, room) == [a.text]
    ensures Truncated([a, b], MAX_DIFF_FILE_CHARS, room).dropped == [b.path]
  {
    assert [a, b][1..] == [b];
    assert Kept([b], MAX_DIFF_FILE_CHARS, room - |a.text|) == [];
  }

  /** Where every text counts as no token, the first build is within the budget. */
  lemma {:induction false} FirstBuildAnswers(setup: Setup, batch: seq<Unit>, prompt: Prompt)
    requires setup.budget == 0 && forall s :: setup.count(s) == 0
    requires prompt == Build(BatchRequest(setup, batch, true), setup.contextOf, NO_OVERRIDES)
    ensures forall generate: (nat, Prompt) -> Generation :: generate(0, prompt) == Generated ==>
      IsFate(setup, batch, 0, Answered(prompt), generate)
  {
    hide Build, IsCascade;
    FirstIsCascade(BatchRequest(setup, batch, true), setup.contextOf, setup.count, setup.budget);
    assert IsBatchCascade(setup, batch, 0, [NO_OVERRIDES], [0]);
  }

  lemma {:induction false} FirstIsCascade(req: Request, contextOf: int -> string, count: string -> nat, budget: int)
    ensures IsCascade(req, contextOf, count, budget, [NO_OVERRIDES], [0])
  {
    hide Build, Advances, Cost, DiffFloor;
  }

  // ---------- a file vanishes ----------

  /** A file whose only hunk is an oversized header vanishes from a review that has other files. */
  lemma {:induction false} VanishedFile() returns (setup: Setup, targets: seq<HunkSplit.Target>)
    ensures exists t :: t in targets && t.filePath == "a.py"
    ensures forall o :: Accounts(o, ReviewablePaths(setup, targets)) && o.Reviewed? ==>
      && "a.py" !in o.reviewed && "a.py" !in o.omitted && "a.py" !in o.partial
      && ("b.py" in o.reviewed || "b.py" in o.omitted)
  {
    hide NoPieceOf, ReviewablePaths, RenderPlain, DiffLines.PrintHeader;
    setup := Example(0, "");
    var header := DiffLines.Hunk(DiffLines.PrintHeader(1, 1, 1, 1, Xs(9000)), []);
    var small := DiffLines.Hunk(DiffLines.PrintHeader(1, 0, 1, 1, ""), ["+x"]);
    var a := HunkSplit.Target("a.py", "modified", [header], []);
    var b := HunkSplit.Target("b.py", "modified", [small], []);
    targets := [a, b];
    HeaderOnlyVanishes(setup, a, 9000);
    BodyStays(setup, b, small);
    assert a in targets && b in targets;
    forall o | Accounts(o, ReviewablePaths(setup, targets)) && o.Reviewed?
      ensures "a.py" !in o.reviewed && "a.py" !in o.omitted && "a.py" !in o.partial
      ensures "b.py" in o.reviewed || "b.py" in o.omitted
    {
      UnaccountedIff(setup, targets, o, "a.py");
      UnaccountedIff(setup, targets, o, "b.py");
    }
  }

  lemma {:induction false} HeaderOnlySize(t: HunkSplit.Target, h: DiffLines.Hunk)
    requires t.hunks == [h] && h.body == []
    ensures |RenderPlain(t)| > |h.first|
  {
    assert h.Lines() == [h.first];
  }

  lemma {:induction false} HeaderOnlyVanishes(setup: Setup, t: HunkSplit.Target, n: nat)
    requires setup.render == RenderPlain && n > MAX_DIFF_FILE_CHARS
    requires t.hunks == [DiffLines.Hunk(DiffLines.PrintHeader(1, 1, 1, 1, Xs(n)), [])]
    ensures NoPieceOf(setup, t)
  {
    hide BudgetsOf, RenderPlain, DiffLines.PrintHeader, SplitMeaning.Vanishes;
    HeaderOnlySize(t, t.hunks[0]);
    SplitMeaning.HeaderHoldsTail(1, 1, 1, 1, Xs(n));
    var limit := HunkSplit.HunkLimit(t, SizeOf(setup), PieceChars(setup));
    SplitMeaning.LongHeaderVanishes(1, 1, 1, 1, Xs(n), limit);
  }

  lemma {:induction false} BodyStays(setup: Setup, t: HunkSplit.Target, h: DiffLines.Hunk)
    requires h in t.hunks && h.body != []
    ensures !NoPieceOf(setup, t)
  {}
}
