/**
 Assembling a prompt within the token budget (app/review/pipeline.py, `_build_messages` and
 `_assemble_within_budget`). Rendered files, the PR section, the risk hint and the project context
 are given texts; the token count is whatever the tokenizer says about a text.
 */
module PromptAssembly {
  import opened Wrappers
  import opened Text
  import opened DiffBlocks

  const MIN_DIFF_TOKENS := 500
  const MAX_CONTEXT_CHARS := 20000

  /** Everything a prompt is made of, before any reduction. */
  datatype Request = Request(
    system: string, blocks: seq<Block>, prSection: string, riskHint: string,
    apiSpec: string, officialDocs: string, suffix: string, includeShared: bool)

  /** The sections that can be reduced, and the character limits set on them so far. */
  datatype Section = OfficialDocs | ApiSpec | Context | PrBody | Diff

  datatype Overrides = Overrides(
    officialDocs: Option<int>, apiSpec: Option<int>, context: Option<int>, prBody: Option<int>, diff: Option<int>)
  {
    function Limit(s: Section): Option<int> {
      match s
      case OfficialDocs => officialDocs
      case ApiSpec => apiSpec
      case Context => context
      case PrBody => prBody
      case Diff => diff
    }

    function Set(s: Section, limit: int): Overrides {
      match s
      case OfficialDocs => this.(officialDocs := Some(limit))
      case ApiSpec => this.(apiSpec := Some(limit))
      case Context => this.(context := Some(limit))
      case PrBody => this.(prBody := Some(limit))
      case Diff => this.(diff := Some(limit))
    }
  }

  const NO_OVERRIDES := Overrides(None, None, None, None, None)

  /** The order of reduction. */
  const REDUCTION_STEPS: seq<Section> := [OfficialDocs, ApiSpec, Context, PrBody, Diff]
  const MAX_ATTEMPTS := 16

  datatype Prompt = Prompt(
    system: string, user: string, context: string, prSection: string, apiSpec: string, officialDocs: string,
    diff: DiffText)
  {
    function Text(s: Section): string {
      match s
      case OfficialDocs => officialDocs
      case ApiSpec => apiSpec
      case Context => context
      case PrBody => prSection
      case Diff => diff.text
    }
  }

  function Shrunk(text: string, limit: Option<int>): string {
    if limit.None? then text else ShrinkToCharLimit(text, limit.value)
  }

  /** Characters left for the diff when no limit has been set on it. */
  function DiffBudget(req: Request, context: string, prSection: string, apiSpec: string, officialDocs: string): nat {
    var left := MAX_DIFF_TOTAL_CHARS - |context| - |apiSpec| - |officialDocs| - |prSection| - |req.riskHint|;
    if left > 0 then left else 0
  }

  /** `contextOf` is the project context under a total character limit. */
  function Build(req: Request, contextOf: int -> string, ov: Overrides): Prompt {
    var apiSpec := Shrunk(req.apiSpec, ov.apiSpec);
    var officialDocs := Shrunk(req.officialDocs, ov.officialDocs);
    var context :=
      if !req.includeShared then ""
      else contextOf(if ov.context.None? then MAX_CONTEXT_CHARS else ov.context.value);
    var prSection := Shrunk(if req.includeShared then req.prSection else "", ov.prBody);
    var diffBudget :=
      if ov.diff.Some? then ov.diff.value else DiffBudget(req, context, prSection, apiSpec, officialDocs);
    var diff := Truncated(req.blocks, MAX_DIFF_FILE_CHARS, diffBudget);
    var body := if context != "" then "## Project Context\n" + context + "\n\n## Changes\n" + diff.text else diff.text;
    Prompt(req.system, prSection + req.riskHint + body + apiSpec + officialDocs + req.suffix,
           context, prSection, apiSpec, officialDocs, diff)
  }

  /** Every part stands in the prompt, in this order; the diff stands there even without a project context. */
  lemma {:induction false} PromptText(req: Request, contextOf: int -> string, ov: Overrides)
    ensures var p := Build(req, contextOf, ov);
      && p.system == req.system
      && p.user == p.prSection + req.riskHint
           + (if p.context == "" then "" else "## Project Context\n" + p.context + "\n\n## Changes\n")
           + p.diff.text + p.apiSpec + p.officialDocs + req.suffix
  {
    hide Truncated, Shrunk;
    var p := Build(req, contextOf, ov);
    var before := p.prSection + req.riskHint;
    if p.context == "" {
      assert before + "" == before;
    } else {
      var head := "## Project Context\n" + p.context + "\n\n## Changes\n";
      assert before + (head + p.diff.text) == before + head + p.diff.text;
    }
  }

  function Cost(p: Prompt, count: string -> nat): int {
    count(p.system + p.user)
  }

  /** The proportional target: how many characters to keep so that about `overshoot` tokens go. */
  function ReducedCharLimit(text: string, overshoot: int, count: string -> nat): nat {
    var current := count(text);
    if current <= 0 then 0 else
    var target := if current - overshoot > 0 then current - overshoot else 0;
    DivMonotone(|text|, target, current);
    |text| * target / current
  }

  lemma {:induction false} ProductGrows(n: nat, a: nat, b: nat)
    requires a <= b
    ensures 0 <= n * a <= n * b
  {}

  lemma {:induction false} QuotientBelow(x: nat, n: nat, c: int)
    requires c > 0
    ensures x / c >= 0 && (x < n * c ==> x / c < n)
  {
    if n <= x / c {
      ProductGrows(c, n, x / c);
    }
  }

  lemma {:induction false} DivMonotone(n: nat, a: nat, c: int)
    requires c > 0
    ensures n * a / c >= 0
    ensures n > 0 && a < c ==> n * a / c < n
  {
    ProductGrows(n, 0, a);
    QuotientBelow(n * a, n, c);
    if a < c {
      ProductGrows(n, a, c - 1);
    }
  }

  /** Reducing a text by a positive overshoot always leaves less of it. */
  lemma {:induction false} ReductionShrinks(text: string, overshoot: int, count: string -> nat)
    requires overshoot > 0 && text != ""
    ensures ReducedCharLimit(text, overshoot, count) < |text|
  {
    var current := count(text);
    if current > 0 {
      DivMonotone(|text|, if current - overshoot > 0 then current - overshoot else 0, current);
    }
  }

  /** The diff is never limited below this: its own size when small, else about MIN_DIFF_TOKENS of it. */
  function DiffFloor(blocks: seq<Block>, count: string -> nat): nat {
    var original := Truncated(blocks, MAX_DIFF_FILE_CHARS, MAX_DIFF_TOTAL_CHARS).text;
    if count(original) <= MIN_DIFF_TOKENS then |original| else
    DivMonotone(|original|, MIN_DIFF_TOKENS, count(original));
    |original| * MIN_DIFF_TOKENS / count(original)
  }

  /** The limit the cascade puts on a section that is over budget by `overshoot` tokens. */
  function NewLimit(p: Prompt, s: Section, overshoot: int, floor: nat, count: string -> nat): nat {
    var reduced := ReducedCharLimit(p.Text(s), overshoot, count);
    if s == Diff && reduced < floor then floor else reduced
  }

  // ---------- what a run of the cascade looks like ----------

  /** The sections in front of a turn are empty; the diff, which is never emptied, is the last. */
  predicate Emptied(p: Prompt, turn: nat) {
    forall j :: 0 <= j < turn && j < |REDUCTION_STEPS| - 1 ==> p.Text(REDUCTION_STEPS[j]) == ""
  }

  /** No section behind a turn has a limit. */
  predicate NotReached(ov: Overrides, turn: nat) {
    forall i :: turn < i < |REDUCTION_STEPS| ==> ov.Limit(REDUCTION_STEPS[i]).None?
  }

  /** A limit is set on a section only once every section before it in the order has become empty. */
  predicate InOrder(req: Request, contextOf: int -> string, ov: Overrides, floor: nat) {
    && (forall i, j :: 0 <= j < i < |REDUCTION_STEPS| && ov.Limit(REDUCTION_STEPS[i]).Some? ==>
          Build(req, contextOf, ov).Text(REDUCTION_STEPS[j]) == "")
    && (ov.diff.Some? ==> ov.diff.value >= floor)
  }

  /**
   From one build to the next: the current section is limited below its present size, or, when it
   cannot shrink, the turn passes to the next section and the limits stay.
   */
  predicate Advances(req: Request, contextOf: int -> string, before: Overrides, turn: nat, after: Overrides, turn': nat,
                     budget: int, floor: nat, count: string -> nat) {
    && turn < |REDUCTION_STEPS|
    && var p, s := Build(req, contextOf, before), REDUCTION_STEPS[turn];
    var limit := NewLimit(p, s, Cost(p, count) - budget, floor, count);
    if limit >= |p.Text(s)| then after == before && turn' == turn + 1
    else after == before.Set(s, limit) && turn' == turn
  }

  /** Every section in front of the diff is empty, and the diff cannot go below its present size. */
  predicate Exhausted(p: Prompt, budget: int, floor: nat, count: string -> nat) {
    && Emptied(p, |REDUCTION_STEPS|)
    && NewLimit(p, Diff, Cost(p, count) - budget, floor, count) >= |p.diff.text|
  }

  /**
   The course of the cascade: an unreduced build first, then one step after the other, each build in
   order and every build but the last over budget. `turns` says which section is next to shrink.
   */
  predicate IsCascade(req: Request, contextOf: int -> string, count: string -> nat, budget: int,
                      builds: seq<Overrides>, turns: seq<nat>) {
    && 1 <= |builds| <= MAX_ATTEMPTS && |turns| == |builds| && builds[0] == NO_OVERRIDES && turns[0] == 0
    && var floor := DiffFloor(req.blocks, count);
    && (forall i :: 0 <= i < |builds| ==> InOrder(req, contextOf, builds[i], floor))
    && (forall i :: 0 <= i < |builds| - 1 ==> Cost(Build(req, contextOf, builds[i]), count) > budget)
    && (forall i, j :: 0 <= i && j == i + 1 < |builds| ==>
          Advances(req, contextOf, builds[i], turns[i], builds[j], turns[j], budget, floor, count))
  }

  /** The last build is over budget, and there is no further attempt or nothing left to shrink. */
  predicate GivesUp(req: Request, contextOf: int -> string, count: string -> nat, budget: int, builds: seq<Overrides>)
    requires builds != []
  {
    var last := Build(req, contextOf, builds[|builds| - 1]);
    && Cost(last, count) > budget
    && (|builds| == MAX_ATTEMPTS || Exhausted(last, budget, DiffFloor(req.blocks, count), count))
  }

  /** Where the caller learns which files the prompt does not show in full. */
  class PromptReport {
    var droppedFiles: seq<string>
    var truncatedFiles: seq<string>

    constructor ()
      ensures droppedFiles == [] && truncatedFiles == []
    {
      droppedFiles, truncatedFiles := [], [];
    }

    predicate Describes(p: Prompt)
      reads this
    {
      droppedFiles == p.diff.dropped && truncatedFiles == p.diff.truncated
    }
  }

  /** The text of a section other than the diff depends on its own limit only. */
  lemma {:induction false} OtherSectionsStay(req: Request, contextOf: int -> string, ov: Overrides, s: Section,
      limit: int, t: Section)
    requires t != s && t != Diff
    ensures Build(req, contextOf, ov.Set(s, limit)).Text(t) == Build(req, contextOf, ov).Text(t)
  {
    hide Truncated, ShrinkToCharLimit;
  }

  method AssembleWithinBudget(
      req: Request, contextOf: int -> string, count: string -> nat, budget: int, report: PromptReport?)
    returns (r: Option<Prompt>, ghost builds: seq<Overrides>, ghost turns: seq<nat>)
    modifies report
    ensures IsCascade(req, contextOf, count, budget, builds, turns)
    ensures var last := Build(req, contextOf, builds[|builds| - 1]);
      && (r.Some? <==> Cost(last, count) <= budget)
      && (r.Some? ==> r.value == last)
      && (r.None? ==> GivesUp(req, contextOf, count, budget, builds))
      && (report != null ==> report.Describes(last))
    ensures r.Some? ==>
      var p := r.value;
      && count(p.system + p.user) <= budget && p.system == req.system
      && p.user == p.prSection + req.riskHint
           + (if p.context == "" then "" else "## Project Context\n" + p.context + "\n\n## Changes\n")
           + p.diff.text + p.apiSpec + p.officialDocs + req.suffix
    ensures report != null && r.Some? ==>
      report.droppedFiles == r.value.diff.dropped && report.truncatedFiles == r.value.diff.truncated
  {
    hide Build, Cost, NewLimit, DiffFloor, Advances, InOrder, Exhausted, Emptied, NotReached;
    var floor := DiffFloor(req.blocks, count);
    var overrides, stepIndex := NO_OVERRIDES, 0;
    builds, turns := [], [];
    NothingLimited(Build(req, contextOf, overrides));
    for attempt := 0 to MAX_ATTEMPTS
      invariant |builds| == |turns| == attempt && 0 <= stepIndex <= |REDUCTION_STEPS|
      invariant if attempt == 0 then overrides == NO_OVERRIDES && stepIndex == 0
        else && builds[0] == NO_OVERRIDES && turns[0] == 0
             && Advances(req, contextOf, builds[attempt - 1], turns[attempt - 1], overrides, stepIndex,
                         budget, floor, count)
      invariant Emptied(Build(req, contextOf, overrides), stepIndex) && NotReached(overrides, stepIndex)
      invariant stepIndex == |REDUCTION_STEPS| ==>
        NewLimit(Build(req, contextOf, overrides), Diff,
                 Cost(Build(req, contextOf, overrides), count) - budget, floor, count)
          >= |Build(req, contextOf, overrides).diff.text|
      invariant overrides.diff.Some? ==> overrides.diff.value >= floor
      invariant forall i :: 0 <= i < |builds| ==>
        InOrder(req, contextOf, builds[i], floor) && Cost(Build(req, contextOf, builds[i]), count) > budget
      invariant forall i, j :: 0 <= i && j == i + 1 < |builds| ==>
        Advances(req, contextOf, builds[i], turns[i], builds[j], turns[j], budget, floor, count)
      invariant attempt > 0 && report != null ==> report.Describes(Build(req, contextOf, builds[attempt - 1]))
    {
      var prompt := Build(req, contextOf, overrides);
      if report != null {
        report.droppedFiles, report.truncatedFiles := prompt.diff.dropped, prompt.diff.truncated;
      }
      IsInOrder(req, contextOf, overrides, stepIndex, floor);
      builds, turns := builds + [overrides], turns + [stepIndex];
      var actual := Cost(prompt, count);
      if actual <= budget {
        CostIsCount(prompt, count);
        PromptText(req, contextOf, overrides);
        return Some(prompt), builds, turns;
      }
      if stepIndex >= |REDUCTION_STEPS| {
        IsExhausted(prompt, budget, floor, count);
        return None, builds, turns;
      }
      var step := REDUCTION_STEPS[stepIndex];
      var newLimit := NewLimit(prompt, step, actual - budget, floor, count);
      Advancing(req, contextOf, overrides, stepIndex, budget, floor, count);
      if newLimit >= |prompt.Text(step)| {
        StepDone(prompt, overrides, stepIndex, actual - budget, floor, count);
        stepIndex := stepIndex + 1;
      } else {
        LimitKeepsOrder(req, contextOf, overrides, stepIndex, newLimit);
        NewLimitFloor(prompt, step, actual - budget, floor, count);
        overrides := overrides.Set(step, newLimit);
      }
    }
    return None, builds, turns;
  }

  lemma {:induction false} CostIsCount(p: Prompt, count: string -> nat)
    ensures Cost(p, count) == count(p.system + p.user)
  {}

  lemma {:induction false} NothingLimited(p: Prompt)
    ensures Emptied(p, 0) && NotReached(NO_OVERRIDES, 0)
  {}

  lemma {:induction false} IsInOrder(req: Request, contextOf: int -> string, ov: Overrides, turn: nat, floor: nat)
    requires Emptied(Build(req, contextOf, ov), turn) && NotReached(ov, turn)
    requires ov.diff.Some? ==> ov.diff.value >= floor
    ensures InOrder(req, contextOf, ov, floor)
  {
    hide Build;
  }

  lemma {:induction false} IsExhausted(p: Prompt, budget: int, floor: nat, count: string -> nat)
    requires Emptied(p, |REDUCTION_STEPS|)
    requires NewLimit(p, Diff, Cost(p, count) - budget, floor, count) >= |p.diff.text|
    ensures Exhausted(p, budget, floor, count)
  {
    hide Cost, NewLimit;
  }

  lemma {:induction false} Advancing(req: Request, contextOf: int -> string, ov: Overrides, turn: nat,
                                     budget: int, floor: nat, count: string -> nat)
    requires turn < |REDUCTION_STEPS|
    ensures var p, s := Build(req, contextOf, ov), REDUCTION_STEPS[turn];
      var limit := NewLimit(p, s, Cost(p, count) - budget, floor, count);
      if limit >= |p.Text(s)| then Advances(req, contextOf, ov, turn, ov, turn + 1, budget, floor, count)
      else Advances(req, contextOf, ov, turn, ov.Set(s, limit), turn, budget, floor, count)
  {
    hide Build, Cost, NewLimit;
  }

  lemma {:induction false} StepDone(p: Prompt, ov: Overrides, turn: nat, overshoot: int, floor: nat,
      count: string -> nat)
    requires turn < |REDUCTION_STEPS| && Emptied(p, turn) && NotReached(ov, turn) && overshoot > 0
    requires NewLimit(p, REDUCTION_STEPS[turn], overshoot, floor, count) >= |p.Text(REDUCTION_STEPS[turn])|
    ensures Emptied(p, turn + 1) && NotReached(ov, turn + 1)
  {
    var s := REDUCTION_STEPS[turn];
    if s != Diff && p.Text(s) != "" {
      ReductionShrinks(p.Text(s), overshoot, count);
    }
  }

  lemma {:induction false} NewLimitFloor(p: Prompt, s: Section, overshoot: int, floor: nat, count: string -> nat)
    ensures s == Diff ==> NewLimit(p, s, overshoot, floor, count) >= floor
  {}

  lemma {:induction false} LimitKeepsOrder(req: Request, contextOf: int -> string, ov: Overrides, turn: nat, limit: int)
    requires turn < |REDUCTION_STEPS| && Emptied(Build(req, contextOf, ov), turn) && NotReached(ov, turn)
    ensures Emptied(Build(req, contextOf, ov.Set(REDUCTION_STEPS[turn], limit)), turn)
    ensures NotReached(ov.Set(REDUCTION_STEPS[turn], limit), turn)
  {
    hide Build;
    forall j | 0 <= j < turn
      ensures Build(req, contextOf, ov.Set(REDUCTION_STEPS[turn], limit)).Text(REDUCTION_STEPS[j])
        == Build(req, contextOf, ov).Text(REDUCTION_STEPS[j])
    {
      OtherSectionsStay(req, contextOf, ov, REDUCTION_STEPS[turn], limit, REDUCTION_STEPS[j]);
    }
  }
}
