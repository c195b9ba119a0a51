/**
 Files a review loses sight of (app/review/pipeline.py, `run` and `_split_targets_into_batches`): exactly
 when a file that was shown ends up among the unreviewed ones, and when a file is not accounted for at all.
 */
module LostFiles {
  import opened Seqs
  import opened DiffBlocks
  import opened PromptAssembly
  import opened Batching
  import opened ReviewRun
  import HunkSplit

  // ---------- shown, and yet noted as unreviewed ----------

  /** The units a prompt shows: dropped files are the last ones of the batch. */
  function KeptUnits(batch: seq<Unit>, diff: DiffText): seq<Unit> {
    batch[..Max(|batch| - |diff.dropped|, 0)]
  }

  /** The units kept are those whose rendered text stands in the prompt, in whole or in part. */
  lemma {:induction false} KeptUnitsAreShown(batch: seq<Unit>, room: int)
    ensures var diff := Truncated(BlocksOf(batch), MAX_DIFF_FILE_CHARS, room);
      var kept := Kept(BlocksOf(batch), MAX_DIFF_FILE_CHARS, room);
      && |KeptUnits(batch, diff)| == |kept|
      && diff.dropped == Map(UnitPath, batch)[|kept|..]
  {
    BlocksOfAt(batch);
    ReportedPaths(BlocksOf(batch), MAX_DIFF_FILE_CHARS, room);
  }

  /** The paths of which some answered prompt showed a piece. */
  function ShownPaths(batches: seq<seq<Unit>>, fates: seq<Fate>): set<string>
    requires |batches| == |fates|
  {
    if batches == [] then {} else
    var k := |batches| - 1;
    ShownPaths(batches[..k], fates[..k])
      + if fates[k].Answered? then PathSet(KeptUnits(batches[k], fates[k].prompt.diff)) else {}
  }

  /** Answered without a dropped piece of the path. */
  predicate SeenIn(batch: seq<Unit>, fate: Fate, p: string) {
    fate.Answered? && p in PathSet(batch) && p !in fate.prompt.diff.dropped
  }

  predicate ShownIn(batch: seq<Unit>, fate: Fate, p: string) {
    fate.Answered? && p in PathSet(KeptUnits(batch, fate.prompt.diff))
  }

  /** Answered, with one piece of the path in the prompt and another one dropped from it. */
  predicate TornIn(batch: seq<Unit>, fate: Fate, p: string) {
    ShownIn(batch, fate, p) && p in fate.prompt.diff.dropped
  }

  lemma {:induction false} SeenAt(batches: seq<seq<Unit>>, fates: seq<Fate>, p: string)
    requires |batches| == |fates|
    ensures p in Seen(batches, fates) <==> exists i :: 0 <= i < |batches| && SeenIn(batches[i], fates[i], p)
  {
    hide SeenIn, PathSet;
    if batches != [] {
      var k := |batches| - 1;
      SeenAt(batches[..k], fates[..k], p);
      LastSeen(batches[k], fates[k], p);
      assert forall i :: 0 <= i < k ==> batches[..k][i] == batches[i] && fates[..k][i] == fates[i];
    }
  }

  lemma {:induction false} LastSeen(batch: seq<Unit>, fate: Fate, p: string)
    ensures SeenIn(batch, fate, p) <==> fate.Answered? && p in PathSet(batch) - Elements(fate.prompt.diff.dropped)
  {}

  lemma {:induction false} ShownAt(batches: seq<seq<Unit>>, fates: seq<Fate>, p: string)
    requires |batches| == |fates|
    ensures p in ShownPaths(batches, fates) <==> exists i :: 0 <= i < |batches| && ShownIn(batches[i], fates[i], p)
  {
    hide PathSet, KeptUnits;
    if batches != [] {
      var k := |batches| - 1;
      ShownAt(batches[..k], fates[..k], p);
      assert forall i :: 0 <= i < k ==> batches[..k][i] == batches[i] && fates[..k][i] == fates[i];
    }
  }

  lemma {:induction false} DroppedIsMissed(batches: seq<seq<Unit>>, fates: seq<Fate>, i: nat, p: string)
    requires |batches| == |fates| && i < |batches| && fates[i].Answered? && p in fates[i].prompt.diff.dropped
    ensures p in Missed(batches, fates)
  {
    hide PathSet;
    var k := |batches| - 1;
    if i < k {
      DroppedIsMissed(batches[..k], fates[..k], i, p);
    }
  }

  /**
   A path is noted as unreviewed although a prompt showed a piece of it exactly when no answered
   prompt has all of its pieces there, and some answered prompt keeps one of them and drops another.
   */
  lemma {:induction false} OmittedYetShownIff(o: Outcome, batches: seq<seq<Unit>>, fates: seq<Fate>,
      capOmitted: seq<string>, p: string)
    requires |batches| == |fates| && Tells(o, batches, fates, capOmitted) && o.Reviewed?
    ensures p in o.omitted && p in ShownPaths(batches, fates)
      <==> p !in Seen(batches, fates) && exists i :: 0 <= i < |batches| && TornIn(batches[i], fates[i], p)
  {
    hide Seen, Missed, ShownPaths;
    SeenAt(batches, fates, p);
    ShownAt(batches, fates, p);
    if p in o.omitted && p in ShownPaths(batches, fates) {
      var i :| 0 <= i < |batches| && ShownIn(batches[i], fates[i], p);
      assert !SeenIn(batches[i], fates[i], p);
      assert TornIn(batches[i], fates[i], p);
    }
    if exists i :: 0 <= i < |batches| && TornIn(batches[i], fates[i], p) {
      var i :| 0 <= i < |batches| && TornIn(batches[i], fates[i], p);
      DroppedIsMissed(batches, fates, i, p);
      assert ShownIn(batches[i], fates[i], p);
    }
  }

  /** No batch holds two units of one path. */
  predicate OneUnitPerPath(batches: seq<seq<Unit>>) {
    forall i :: 0 <= i < |batches| ==> NoRepeats(Map(UnitPath, batches[i]))
  }

  /** What a reader of the plan can check: then no path is noted as unreviewed although a prompt showed it. */
  lemma {:induction false} OneUnitPerPathIsNeverTorn(
      setup: Setup, o: Outcome, batches: seq<seq<Unit>>, fates: seq<Fate>, capOmitted: seq<string>,
      generate: (nat, Prompt) -> Generation, p: string)
    requires |batches| == |fates| && Tells(o, batches, fates, capOmitted) && o.Reviewed?
    requires forall i :: 0 <= i < |batches| ==> IsFate(setup, batches[i], i, fates[i], generate)
    requires OneUnitPerPath(batches)
    ensures !(p in o.omitted && p in ShownPaths(batches, fates))
  {
    hide IsFate, Tells, Seen, ShownPaths, NoRepeats;
    OmittedYetShownIff(o, batches, fates, capOmitted, p);
    forall i | 0 <= i < |batches| ensures !TornIn(batches[i], fates[i], p) {
      if fates[i].Answered? {
        NotTorn(setup, batches[i], i, fates[i], generate, p);
      }
    }
  }

  lemma {:induction false} NotTorn(setup: Setup, batch: seq<Unit>, i: nat, fate: Fate,
                                   generate: (nat, Prompt) -> Generation, p: string)
    requires IsFate(setup, batch, i, fate, generate) && fate.Answered? && NoRepeats(Map(UnitPath, batch))
    ensures !TornIn(batch, fate, p)
  {
    hide IsFate;
    DroppedSuffix(setup, batch, i, fate, generate);
    var kept, paths := KeptUnits(batch, fate.prompt.diff), Map(UnitPath, batch);
    var dropped := fate.prompt.diff.dropped;
    if ShownIn(batch, fate, p) {
      var u :| u in kept && u.path == p;
      var a :| 0 <= a < |kept| && kept[a] == u;
      assert paths[a] == p;
      forall b | 0 <= b < |dropped| ensures dropped[b] != p {
        assert paths[|kept| + b] == dropped[b];
      }
    }
  }

  /** A path counts as reviewed only if a prompt showed a piece of it. */
  lemma {:induction false} ReviewedIsShown(setup: Setup, batches: seq<seq<Unit>>, fates: seq<Fate>,
                                           generate: (nat, Prompt) -> Generation, p: string)
    requires |batches| == |fates| && forall i :: 0 <= i < |batches| ==> IsFate(setup, batches[i], i, fates[i], generate)
    requires p in Seen(batches, fates)
    ensures p in ShownPaths(batches, fates)
  {
    hide Seen, ShownPaths, IsFate;
    SeenAt(batches, fates, p);
    ShownAt(batches, fates, p);
    var i :| 0 <= i < |batches| && SeenIn(batches[i], fates[i], p);
    DroppedSuffix(setup, batches[i], i, fates[i], generate);
    var u :| u in batches[i] && u.path == p;
    var j :| 0 <= j < |batches[i]| && batches[i][j] == u;
    var kept := KeptUnits(batches[i], fates[i].prompt.diff);
    assert Map(UnitPath, batches[i])[j] == p;
    assert j < |kept| && kept[j] == u;
  }

  lemma {:induction false} DroppedSuffix(setup: Setup, batch: seq<Unit>, i: nat, fate: Fate,
      generate: (nat, Prompt) -> Generation)
    requires IsFate(setup, batch, i, fate, generate) && fate.Answered?
    ensures var diff := fate.prompt.diff;
      |KeptUnits(batch, diff)| <= |batch| && diff.dropped == Map(UnitPath, batch)[|KeptUnits(batch, diff)|..]
  {
    hide Build, Truncated, IsCascade, Kept;
    var builds, turns :| IsBatchCascade(setup, batch, i, builds, turns)
      && fate.prompt == Build(BatchRequest(setup, batch, i == 0), setup.contextOf, builds[|builds| - 1]);
    var req, ov := BatchRequest(setup, batch, i == 0), builds[|builds| - 1];
    DiffOfBuild(req, setup.contextOf, ov);
    KeptUnitsAreShown(batch, DiffBudgetOf(req, setup.contextOf, ov));
  }

  lemma {:induction false} DiffOfBuild(req: Request, contextOf: int -> string, ov: Overrides)
    ensures Build(req, contextOf, ov).diff
      == Truncated(req.blocks, MAX_DIFF_FILE_CHARS, DiffBudgetOf(req, contextOf, ov))
  {
    hide Truncated;
  }

  // ---------- not accounted for at all ----------

  /** A completed review names a file nowhere exactly when no target with its path yields a piece. */
  lemma {:induction false} UnaccountedIff(setup: Setup, targets: seq<HunkSplit.Target>, o: Outcome, p: string)
    requires Accounts(o, ReviewablePaths(setup, targets)) && o.Reviewed?
    ensures p !in o.reviewed && p !in o.omitted
      <==> forall t :: t in targets && t.filePath == p ==> NoPieceOf(setup, t)
  {
    hide NoPieceOf;
  }
}
