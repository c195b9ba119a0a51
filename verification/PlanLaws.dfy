/**
 What planning a review comes to in tokens and characters (app/review/pipeline.py,
 `_split_targets_into_batches`).
 */
module PlanLaws {
  import opened Seqs
  import opened DiffBlocks
  import opened PromptAssembly
  import opened Batching
  import opened ReviewRun
  import HunkSplit
  import PromptLaws

  /** What a batch's common part takes is measured on the prompt without any file. */
  lemma {:induction false} CommonPartIs(setup: Setup, first: bool)
    ensures var p, base := CommonPart(setup, first), setup.base;
      && p.system == base.system && p.apiSpec == base.apiSpec && p.officialDocs == base.officialDocs
      && p.context == (if first then setup.contextOf(20000) else "")
      && p.prSection == (if first then base.prSection else "")
      && p.user == p.prSection + setup.riskHintOf([])
           + (if p.context == "" then "" else "## Project Context\n" + p.context + "\n\n## Changes\n")
           + p.apiSpec + p.officialDocs + base.suffix
  {
    hide Truncated;
    var req, p := BatchRequest(setup, [], first), CommonPart(setup, first);
    PromptText(req, setup.contextOf, NO_OVERRIDES);
    PromptLaws.DiffOf(req, setup.contextOf, NO_OVERRIDES);
    var left := 20000 - |p.context| - |p.apiSpec| - |p.officialDocs| - |p.prSection| - |req.riskHint|;
    NoDiff(if left > 0 then left else 0);
    var front := p.prSection + req.riskHint
      + (if p.context == "" then "" else "## Project Context\n" + p.context + "\n\n## Changes\n");
    assert front + "" == front;
  }

  lemma {:induction false} NoDiff(limit: nat)
    ensures Truncated([], 8000, limit).text == ""
  {
    assert Map(BlockPath, []) == [];
  }

  /** The budgets: the prompt's tokens, those of either common part, and what they leave of 20,000 characters. */
  lemma {:induction false} BudgetsAre(setup: Setup)
    ensures var b, p, q := BudgetsOf(setup), CommonPart(setup, true), CommonPart(setup, false);
      && b.tokens == setup.budget
      && b.commonFirst == setup.count(p.system + p.user) && b.commonRest == setup.count(q.system + q.user)
      && IsRoom(b.charsFirst, p) && IsRoom(b.charsRest, q)
  {
    hide Build;
  }

  /** What is left of 20,000 characters beside the common part, if anything. */
  predicate IsRoom(room: nat, common: Prompt) {
    var left := 20000 - |common.context| - |common.prSection| - |common.apiSpec| - |common.officialDocs|;
    room >= left && (room == left || room == 0)
  }

  /** Pieces fit the first batch, but are held to no fewer than 3,000 characters and never exceed 8,000. */
  lemma {:induction false} PieceCharsIs(setup: Setup)
    ensures var room, limit := BudgetsOf(setup).charsFirst, PieceChars(setup);
      && (8000 <= room ==> limit == 8000) && (3000 <= room < 8000 ==> limit == room) && (room < 3000 ==> limit == 3000)
  {
    hide BudgetsOf;
  }

  /** The unit shows the piece under its path; its measures are those of the text it shows. */
  predicate IsUnitOf(setup: Setup, u: Unit, piece: HunkSplit.Target) {
    && u.path == piece.filePath && u.text == setup.render(piece) && u.tokens == setup.count(u.text)
    && u.chars <= 8000 && u.chars <= |u.text| && (u.chars == 8000 || u.chars == |u.text|)
  }

  /** Every unit of a batch shows a piece of the plan. */
  lemma {:induction false} BatchShowsPieces(
      setup: Setup, targets: seq<HunkSplit.Target>, plan: Plan, k: nat, u: Unit) returns (piece: HunkSplit.Target)
    requires IsPlan(setup, targets, plan) && k < |plan.batches| && u in plan.batches[k]
    ensures piece in Flatten(plan.splits) && IsUnitOf(setup, u, piece)
  {
    hide Flatten, AreSplits, SourceFirst, BudgetsOf, EachFits, PackedFull;
    var order := PackingOrder(plan.units, BudgetsOf(setup), setup.isLow);
    SourceFirstIsPermutation(plan.units, setup.isLow);
    assert multiset(order) == multiset(plan.units);
    MemberFlatten(plan.batches, k, u);
    assert u in Flatten(plan.batches) + plan.dropped;
    assert u in multiset(plan.units);
    var i :| 0 <= i < |plan.units| && plan.units[i] == u;
    piece := Flatten(plan.splits)[i];
  }

  /**
   In a batch of two or more pieces, the common part and the pieces, each counted on its own, keep within
   the token budget; and the shown characters of the pieces, with the shared sections, within 20,000.
   */
  lemma {:induction false} PlannedBatchFits(setup: Setup, targets: seq<HunkSplit.Target>, plan: Plan, k: nat)
    requires IsPlan(setup, targets, plan) && k < |plan.batches| && |plan.batches[k]| >= 2
    ensures var p, batch := CommonPart(setup, k == 0), plan.batches[k];
      && setup.count(p.system + p.user) + Tokens(batch) <= setup.budget
      && (Chars(batch) > 0 ==>
            |p.context| + |p.prSection| + |p.apiSpec| + |p.officialDocs| + Chars(batch) <= 20000)
  {
    hide CommonPart, Tokens, Chars, Flatten, AreSplits, PackingOrder, PackedFull;
    BudgetsAre(setup);
    hide BudgetsOf;
    assert Fits(plan.batches[k], k, BudgetsOf(setup));
  }

  /** The listed units stand in this order among all, at the given places, and are all test files or all not. */
  predicate IsKind(listed: seq<Unit>, units: seq<Unit>, places: seq<nat>, isLow: string -> bool, low: bool) {
    && |places| == |listed| && (forall k, l :: 0 <= k < l < |places| ==> places[k] < places[l])
    && (forall k :: 0 <= k < |places| ==> places[k] < |units| && listed[k] == units[places[k]])
    && (forall k :: 0 <= k < |listed| ==> isLow(listed[k].path) == low)
  }

  /** Putting source files first keeps the order within both kinds. */
  lemma {:induction false} SourceFirstIsStable(units: seq<Unit>, isLow: string -> bool)
    returns (source: seq<nat>, tests: seq<nat>)
    ensures |SourceFirst(units, isLow)| == |units| == |source| + |tests|
    ensures IsKind(SourceFirst(units, isLow)[..|source|], units, source, isLow, false)
    ensures IsKind(SourceFirst(units, isLow)[|source|..], units, tests, isLow, true)
  {
    hide Filter, IsKind;
    var front, back := Filter((u: Unit) => !isLow(u.path), units), Filter((u: Unit) => isLow(u.path), units);
    source := KindInOrder((u: Unit) => !isLow(u.path), units, isLow, false);
    tests := KindInOrder((u: Unit) => isLow(u.path), units, isLow, true);
    AllAreThere(units, isLow);
    KindLength(front, units, source, isLow, false);
    KindLength(back, units, tests, isLow, true);
    assert (front + back)[..|front|] == front && (front + back)[|front|..] == back;
  }

  lemma {:induction false} KindLength(
      listed: seq<Unit>, units: seq<Unit>, places: seq<nat>, isLow: string -> bool, low: bool)
    requires IsKind(listed, units, places, isLow, low)
    ensures |places| == |listed|
  {}

  lemma {:induction false} AllAreThere(units: seq<Unit>, isLow: string -> bool)
    ensures |SourceFirst(units, isLow)| == |units|
  {
    hide SourceFirst;
    SourceFirstIsPermutation(units, isLow);
    assert |SourceFirst(units, isLow)| == |multiset(SourceFirst(units, isLow))| == |multiset(units)| == |units|;
  }

  lemma {:induction false} KindInOrder(p: Unit -> bool, units: seq<Unit>, isLow: string -> bool, low: bool)
    returns (places: seq<nat>)
    requires forall u :: p(u) <==> isLow(u.path) == low
    ensures IsKind(Filter(p, units), units, places, isLow, low)
  {
    hide Filter;
    places := FilterPicks(p, units);
    assert forall k :: 0 <= k < |places| ==> places[k] in places;
  }
}
