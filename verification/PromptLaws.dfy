/**
 What the cascade's measures and limits come to (app/review/pipeline.py, `_build_messages`,
 `_reduced_char_limit`, `_diff_floor_chars`, `_assemble_within_budget`), said of the prompt's own parts.
 */
module PromptLaws {
  import opened Wrappers
  import opened Text
  import opened DiffBlocks
  import opened PromptAssembly

  // ---------- proportional limits ----------

  lemma {:induction false} QuotientIs(x: nat, c: nat)
    requires c > 0
    ensures x / c * c <= x < (x / c + 1) * c
  {}

  /** The limit is the greatest number of characters not above the share of tokens that may stay. */
  lemma {:induction false} ReducedLimitIs(text: string, overshoot: int, count: string -> nat)
    ensures count(text) == 0 ==> ReducedCharLimit(text, overshoot, count) == 0
    ensures var tokens, limit := count(text), ReducedCharLimit(text, overshoot, count);
      var left := if tokens - overshoot > 0 then tokens - overshoot else 0;
      tokens > 0 ==> limit * tokens <= |text| * left < (limit + 1) * tokens
  {
    var tokens := count(text);
    if tokens > 0 {
      var left := if tokens - overshoot > 0 then tokens - overshoot else 0;
      QuotientIs(|text| * left, tokens);
    }
  }

  /** A diff of at most 500 tokens is its own floor; of a longer one, the floor is 500 tokens' share of it. */
  lemma {:induction false} DiffFloorIs(blocks: seq<Block>, count: string -> nat)
    ensures var whole, floor := Truncated(blocks, 8000, 20000).text, DiffFloor(blocks, count);
      && (count(whole) <= 500 ==> floor == |whole|)
      && (count(whole) > 500 ==> floor * count(whole) <= |whole| * 500 < (floor + 1) * count(whole))
  {
    hide Truncated;
    var whole := Truncated(blocks, 8000, 20000).text;
    if count(whole) > 500 {
      QuotientIs(|whole| * 500, count(whole));
    }
  }

  /** The diff is limited to its share, but not below the floor; every other section to its share. */
  lemma {:induction false} NewLimitIs(p: Prompt, s: Section, overshoot: int, floor: nat, count: string -> nat)
    ensures var share, limit := ReducedCharLimit(p.Text(s), overshoot, count), NewLimit(p, s, overshoot, floor, count);
      && (s != Diff ==> limit == share)
      && (s == Diff ==> share <= limit && floor <= limit && (limit == share || limit == floor))
    ensures p.Text(OfficialDocs) == p.officialDocs && p.Text(ApiSpec) == p.apiSpec && p.Text(Context) == p.context
    ensures p.Text(PrBody) == p.prSection && p.Text(Diff) == p.diff.text
  {
    hide ReducedCharLimit;
  }

  // ---------- the parts of a prompt under limits ----------

  /** A section is the given one, or under a limit that it exceeds a marked front part or nothing. */
  lemma {:induction false} SectionsOf(req: Request, contextOf: int -> string, ov: Overrides)
    ensures var p := Build(req, contextOf, ov);
      && IsSection(p.apiSpec, req.apiSpec, ov.apiSpec) && IsSection(p.officialDocs, req.officialDocs, ov.officialDocs)
      && IsSection(p.prSection, if req.includeShared then req.prSection else "", ov.prBody)
      && (!req.includeShared ==> p.context == "")
      && (req.includeShared && ov.context.None? ==> p.context == contextOf(20000))
      && (req.includeShared && ov.context.Some? ==> p.context == contextOf(ov.context.value))
  {
    hide Truncated;
  }

  ghost predicate IsSection(shown: string, given: string, limit: Option<int>) {
    match limit
    case None => shown == given
    case Some(n) =>
      && (|given| <= n ==> shown == given) && |shown| <= (if n > 0 then n else 0)
      && (15 <= n < |given| ==> IsCutAt(given, n - 15, shown))
  }

  /** The limit of the diff is the one set, or what the other parts leave of 20,000 characters. */
  lemma {:induction false} DiffOf(req: Request, contextOf: int -> string, ov: Overrides)
    ensures var p := Build(req, contextOf, ov);
      var left := 20000 - |p.context| - |p.apiSpec| - |p.officialDocs| - |p.prSection| - |req.riskHint|;
      && (ov.diff.Some? ==> p.diff == Truncated(req.blocks, 8000, ov.diff.value))
      && (ov.diff.None? ==> p.diff == Truncated(req.blocks, 8000, if left > 0 then left else 0))
  {
    hide Truncated, Shrunk;
  }

  // ---------- the order of reduction ----------

  /**
   At most 16 builds, the first one with no limit set. The diff is limited only once all other parts are
   empty, the PR section once documents, API section and context are, the context once documents and API
   section are, the API section once the documents are; and the diff never below its floor.
   */
  lemma {:induction false} CascadeOrder(
      req: Request, contextOf: int -> string, count: string -> nat, budget: int,
      builds: seq<Overrides>, turns: seq<nat>, i: nat)
    requires IsCascade(req, contextOf, count, budget, builds, turns) && i < |builds|
    ensures |builds| <= 16 && builds[0] == Overrides(None, None, None, None, None)
    ensures var p, ov := Build(req, contextOf, builds[i]), builds[i];
      && (ov.apiSpec.Some? ==> p.officialDocs == "")
      && (ov.context.Some? ==> p.officialDocs == "" && p.apiSpec == "")
      && (ov.prBody.Some? ==> p.officialDocs == "" && p.apiSpec == "" && p.context == "")
      && (ov.diff.Some? ==>
            && p.officialDocs == "" && p.apiSpec == "" && p.context == "" && p.prSection == ""
            && ov.diff.value >= DiffFloor(req.blocks, count))
  {
    hide Build, Cost, Advances, DiffFloor;
    var p, ov := Build(req, contextOf, builds[i]), builds[i];
    assert InOrder(req, contextOf, ov, DiffFloor(req.blocks, count));
    assert REDUCTION_STEPS[0] == OfficialDocs && REDUCTION_STEPS[1] == ApiSpec && REDUCTION_STEPS[2] == Context
      && REDUCTION_STEPS[3] == PrBody && REDUCTION_STEPS[4] == Diff;
    forall a, b | 0 <= b < a < 5 && ov.Limit(REDUCTION_STEPS[a]).Some?
      ensures p.Text(REDUCTION_STEPS[b]) == ""
    {}
    assert ov.apiSpec.Some? ==> ov.Limit(REDUCTION_STEPS[1]).Some?;
    assert ov.context.Some? ==> ov.Limit(REDUCTION_STEPS[2]).Some?;
    assert ov.prBody.Some? ==> ov.Limit(REDUCTION_STEPS[3]).Some?;
    assert ov.diff.Some? ==> ov.Limit(REDUCTION_STEPS[4]).Some?;
  }

  /** From one build to the next, one section's turn comes at a time, in this order. */
  lemma {:induction false} CascadeStep(
      req: Request, contextOf: int -> string, count: string -> nat, budget: int,
      builds: seq<Overrides>, turns: seq<nat>, i: nat)
    requires IsCascade(req, contextOf, count, budget, builds, turns) && i + 1 < |builds|
    ensures turns[i] < 5 && var p, ov, next := Build(req, contextOf, builds[i]), builds[i], builds[i + 1];
      var s := [OfficialDocs, ApiSpec, Context, PrBody, Diff][turns[i]];
      var limit := NewLimit(p, s, count(p.system + p.user) - budget, DiffFloor(req.blocks, count), count);
      if limit >= |p.Text(s)| then next == ov && turns[i + 1] == turns[i] + 1
      else
        && turns[i + 1] == turns[i] && next.Limit(s) == Some(limit)
        && forall other :: other != s ==> next.Limit(other) == ov.Limit(other)
  {
    hide Build, NewLimit, DiffFloor, InOrder;
    assert Advances(req, contextOf, builds[i], turns[i], builds[i + 1], turns[i + 1], budget,
                    DiffFloor(req.blocks, count), count);
  }

  /** Giving up means 16 builds, or that every part but the diff is empty and the diff is at its floor. */
  lemma {:induction false} GivenUp(
      req: Request, contextOf: int -> string, count: string -> nat, budget: int, builds: seq<Overrides>)
    requires builds != [] && GivesUp(req, contextOf, count, budget, builds)
    ensures var p := Build(req, contextOf, builds[|builds| - 1]);
      && count(p.system + p.user) > budget
      && (|builds| == 16
          || (p.officialDocs == "" && p.apiSpec == "" && p.context == "" && p.prSection == ""
              && NewLimit(p, Diff, count(p.system + p.user) - budget, DiffFloor(req.blocks, count), count)
                   >= |p.diff.text|))
  {
    hide Build, NewLimit, DiffFloor;
    var p := Build(req, contextOf, builds[|builds| - 1]);
    if |builds| != 16 {
      assert p.Text(REDUCTION_STEPS[0]) == "" && p.Text(REDUCTION_STEPS[1]) == "";
      assert p.Text(REDUCTION_STEPS[2]) == "" && p.Text(REDUCTION_STEPS[3]) == "";
    }
  }
}
