/**
 Verifying filtered findings against the prompts they came from (app/review/pipeline.py, `_verify`,
 `_verify_across_batches`, `_split_findings_into_batches`). Identities of findings and of prompts are
 numbers; the model's answers are an arbitrary function of the prompt and the batch number.
 */
module Verification {
  import opened Wrappers
  import opened Seqs
  import opened ReviewSchema
  import opened ResultFilter

  const MAX_VERIFY_BATCHES := 5

  type Indexed = (nat, Finding)

  datatype Verdict = Verdict(index: int, confirmed: bool)

  /** The token side of verification: estimated size of a rendered finding, and the budget of a request. */
  datatype Tokens = Tokens(cost: (nat, Finding) -> nat, budget: int)

  // ---------- batches of findings ----------

  function BatchCost(batch: seq<Indexed>, t: Tokens): nat {
    if batch == [] then 0 else
    BatchCost(batch[..|batch| - 1], t) + t.cost(batch[|batch| - 1].0, batch[|batch| - 1].1)
  }

  /** The finding fits a request of its own. */
  predicate Verifiable(x: Indexed, base: nat, t: Tokens) {
    base + t.cost(x.0, x.1) <= t.budget
  }

  /** Findings from index `i` on, with their indices, as far as each fits a request of its own. */
  function Numbered(reviews: seq<Finding>, i: nat, base: nat, t: Tokens): seq<Indexed>
    decreases |reviews| - i
  {
    if i >= |reviews| then [] else
    (if Verifiable((i, reviews[i]), base, t) then [(i, reviews[i])] else [])
      + Numbered(reviews, i + 1, base, t)
  }

  /** Greedy batches: `current` is the batch being filled. */
  function Batched(xs: seq<Indexed>, current: seq<Indexed>, base: nat, t: Tokens): seq<seq<Indexed>>
    decreases |xs|
  {
    if xs == [] then if current == [] then [] else [current]
    else if current != [] && base + BatchCost(current, t) + t.cost(xs[0].0, xs[0].1) > t.budget
      then [current] + Batched(xs[1..], [xs[0]], base, t)
    else Batched(xs[1..], current + [xs[0]], base, t)
  }

  function FindingBatches(reviews: seq<Finding>, base: nat, t: Tokens): seq<seq<Indexed>> {
    Batched(Numbered(reviews, 0, base, t), [], base, t)
  }

  lemma {:induction false} BatchCostSnoc(batch: seq<Indexed>, x: Indexed, t: Tokens)
    ensures BatchCost(batch + [x], t) == BatchCost(batch, t) + t.cost(x.0, x.1)
  {
    assert (batch + [x])[..|batch|] == batch;
  }

  method SplitFindingsIntoBatches(reviews: seq<Finding>, base: nat, t: Tokens) returns (batches: seq<seq<Indexed>>)
    ensures batches == FindingBatches(reviews, base, t)
  {
    hide BatchCost;
    batches := [];
    var current: seq<Indexed>, currentTokens := [], base;
    assert BatchCost([], t) == 0 by { NoCost(t); }
    for i := 0 to |reviews|
      invariant currentTokens == base + BatchCost(current, t)
      invariant FindingBatches(reviews, base, t) == batches + Batched(Numbered(reviews, i, base, t), current, base, t)
    {
      var findingTokens := t.cost(i, reviews[i]);
      if base + findingTokens <= t.budget {
        var x: Indexed := (i, reviews[i]);
        var later := Numbered(reviews, i + 1, base, t);
        assert ([x] + later)[0] == x && ([x] + later)[1..] == later;
        if current != [] && currentTokens + findingTokens > t.budget {
          Assoc(batches, [current], Batched(later, [x], base, t));
          batches := batches + [current];
          current, currentTokens := [], base;
          NoCost(t);
        }
        assert [] + [x] == [x];
        BatchCostSnoc(current, x, t);
        current := current + [x];
        currentTokens := currentTokens + findingTokens;
      } else {
        assert [] + Numbered(reviews, i + 1, base, t) == Numbered(reviews, i + 1, base, t);
      }
    }
    if current != [] {
      batches := batches + [current];
    }
  }

  lemma {:induction false} NoCost(t: Tokens)
    ensures BatchCost([], t) == 0
  {}

  /** Pairs come from the group, in strictly increasing index order, and each fits on its own. */
  predicate InOrder(xs: seq<Indexed>, reviews: seq<Finding>, from: nat, base: nat, t: Tokens) {
    && (forall k :: 0 <= k < |xs| ==>
          from <= xs[k].0 < |reviews| && xs[k].1 == reviews[xs[k].0] && Verifiable(xs[k], base, t))
    && (forall j, k :: 0 <= j < k < |xs| ==> xs[j].0 < xs[k].0)
  }

  lemma {:induction false} NumberedInOrder(reviews: seq<Finding>, i: nat, base: nat, t: Tokens)
    ensures InOrder(Numbered(reviews, i, base, t), reviews, i, base, t)
    ensures forall k :: i <= k < |reviews| && Verifiable((k, reviews[k]), base, t) ==>
      (k, reviews[k]) in Numbered(reviews, i, base, t)
    decreases |reviews| - i
  {
    hide Verifiable, InOrder;
    if i < |reviews| {
      NumberedInOrder(reviews, i + 1, base, t);
      InOrderCons(Numbered(reviews, i + 1, base, t), reviews, i, base, t);
      assert [] + Numbered(reviews, i + 1, base, t) == Numbered(reviews, i + 1, base, t);
    } else {
      NoneInOrder(reviews, i, base, t);
    }
  }

  lemma {:induction false} NoneInOrder(reviews: seq<Finding>, i: nat, base: nat, t: Tokens)
    ensures InOrder([], reviews, i, base, t)
  {}

  lemma {:induction false} InOrderCons(xs: seq<Indexed>, reviews: seq<Finding>, i: nat, base: nat, t: Tokens)
    requires i < |reviews| && InOrder(xs, reviews, i + 1, base, t)
    ensures InOrder(xs, reviews, i, base, t)
    ensures Verifiable((i, reviews[i]), base, t) ==> InOrder([(i, reviews[i])] + xs, reviews, i, base, t)
  {
    hide Verifiable;
    var all := [(i, reviews[i])] + xs;
    assert forall k :: 0 < k < |all| ==> all[k] == xs[k - 1];
  }

  lemma {:induction false} FlattenCons<T>(first: seq<T>, rest: seq<seq<T>>)
    ensures Flatten([first] + rest) == first + Flatten(rest)
  {
    FlattenAppend([first], rest);
    assert [first][..0] == [];
  }

  /** The batches hold the pairs in order, each batch within the budget. */
  lemma {:induction false} BatchedShape(xs: seq<Indexed>, current: seq<Indexed>, base: nat, t: Tokens)
    requires forall k :: 0 <= k < |xs| ==> Verifiable(xs[k], base, t)
    requires current != [] ==> base + BatchCost(current, t) <= t.budget
    ensures var batches := Batched(xs, current, base, t);
      && Flatten(batches) == current + xs
      && forall b :: b in batches ==> b != [] && base + BatchCost(b, t) <= t.budget
    decreases |xs|
  {
    hide BatchCost, Flatten;
    if xs == [] {
      FlattenCons(current, []);
      NothingFlat();
      assert [current] + [] == [current];
    } else {
      assert xs == [xs[0]] + xs[1..] && (current + [xs[0]]) + xs[1..] == current + xs;
      assert [] + [xs[0]] == [xs[0]];
      NoCost(t);
      BatchCostSnoc([], xs[0], t);
      BatchCostSnoc(current, xs[0], t);
      if current != [] && base + BatchCost(current, t) + t.cost(xs[0].0, xs[0].1) > t.budget {
        BatchedShape(xs[1..], [xs[0]], base, t);
        FlattenCons(current, Batched(xs[1..], [xs[0]], base, t));
      } else {
        BatchedShape(xs[1..], current + [xs[0]], base, t);
      }
    }
  }

  lemma {:induction false} NothingFlat()
    ensures Flatten<Indexed>([]) == []
  {}

  /**
   The batches of a group hold exactly the findings that fit a request of their own, under their own
   indices in strictly increasing order, and every batch stays within the budget.
   */
  lemma {:induction false} FindingBatchesShape(reviews: seq<Finding>, base: nat, t: Tokens)
    ensures var batches := FindingBatches(reviews, base, t);
      && InOrder(Flatten(batches), reviews, 0, base, t)
      && (forall i :: 0 <= i < |reviews| && Verifiable((i, reviews[i]), base, t) ==>
        (i, reviews[i]) in Flatten(batches))
      && forall b :: b in batches ==> b != [] && base + BatchCost(b, t) <= t.budget
  {
    hide Verifiable, Flatten, BatchCost;
    var xs := Numbered(reviews, 0, base, t);
    NumberedInOrder(reviews, 0, base, t);
    BatchedShape(xs, [], base, t);
    assert [] + xs == xs;
  }

  // ---------- one group ----------

  /** The verdict kept for an index: the last one given (`{v.index: v for v in verdicts}`). */
  function VerdictFor(verdicts: seq<Verdict>, index: int): Option<Verdict> {
    if verdicts == [] then None
    else if verdicts[|verdicts| - 1].index == index then Some(verdicts[|verdicts| - 1])
    else VerdictFor(verdicts[..|verdicts| - 1], index)
  }

  predicate ConfirmedBy(verdicts: seq<Verdict>, index: int) {
    var v := VerdictFor(verdicts, index);
    v.Some? && v.value.confirmed
  }

  predicate ConfirmsAt(verdicts: seq<Verdict>, index: int, k: int) {
    && 0 <= k < |verdicts| && verdicts[k].index == index && verdicts[k].confirmed
    && forall l :: k < l < |verdicts| ==> verdicts[l].index != index
  }

  lemma {:induction false} ConfirmsAtSnoc(verdicts: seq<Verdict>, index: int, k: int)
    requires verdicts != []
    ensures var last := |verdicts| - 1;
      ConfirmsAt(verdicts, index, k) <==>
        if k == last then verdicts[last].index == index && verdicts[last].confirmed
        else ConfirmsAt(verdicts[..last], index, k) && verdicts[last].index != index
  {
    var last, front := |verdicts| - 1, verdicts[..|verdicts| - 1];
    assert forall l :: 0 <= l < last ==> front[l] == verdicts[l];
  }

  lemma {:induction false} ConfirmedBySome(verdicts: seq<Verdict>, index: int)
    ensures ConfirmedBy(verdicts, index) <==> exists k :: ConfirmsAt(verdicts, index, k)
  {
    if verdicts == [] {
      assert forall k :: !ConfirmsAt(verdicts, index, k);
    } else {
      ConfirmedBySome(verdicts[..|verdicts| - 1], index);
      forall k ensures ConfirmsAt(verdicts, index, k) <==>
        if k == |verdicts| - 1 then verdicts[k].index == index && verdicts[k].confirmed
        else ConfirmsAt(verdicts[..|verdicts| - 1], index, k) && verdicts[|verdicts| - 1].index != index
      {
        ConfirmsAtSnoc(verdicts, index, k);
      }
      hide ConfirmsAt;
    }
  }

  /** Of several verdicts for an index the last one counts, and it has to confirm. */
  lemma {:induction false} ConfirmedByIff(verdicts: seq<Verdict>, index: int)
    ensures ConfirmedBy(verdicts, index) <==> exists k ::
      && 0 <= k < |verdicts| && verdicts[k].index == index && verdicts[k].confirmed
      && forall l :: k < l < |verdicts| ==> verdicts[l].index != index
  {
    hide ConfirmedBy;
    ConfirmedBySome(verdicts, index);
    if exists k :: ConfirmsAt(verdicts, index, k) {
      var k :| ConfirmsAt(verdicts, index, k);
      assert 0 <= k < |verdicts| && verdicts[k].index == index && verdicts[k].confirmed;
    }
    assert forall k ::
        (&& 0 <= k < |verdicts| && verdicts[k].index == index && verdicts[k].confirmed
         && forall l :: k < l < |verdicts| ==> verdicts[l].index != index)
        ==> ConfirmsAt(verdicts, index, k);
  }

  type Answers = nat -> Option<seq<Verdict>>

  /** The finding was sent in one of the first five batches, and that answer confirms its own index. */
  ghost predicate Confirmed(f: Finding, batches: seq<seq<Indexed>>, answers: Answers) {
    exists b, i :: 0 <= b < |batches| && b < MAX_VERIFY_BATCHES && (i, f) in batches[b]
      && answers(b).Some? && ConfirmedBy(answers(b).value, i)
  }

  /** Written out: sent under some index in one of the first five batches, whose last verdict for it confirms. */
  lemma {:induction false} ConfirmedIff(f: Finding, batches: seq<seq<Indexed>>, answers: Answers)
    ensures Confirmed(f, batches, answers) <==>
      exists b, i, k ::
      && 0 <= b < |batches| && b < 5 && (i, f) in batches[b] && answers(b).Some?
      && 0 <= k < |answers(b).value| && answers(b).value[k].index == i && answers(b).value[k].confirmed
      && forall l :: k < l < |answers(b).value| ==> answers(b).value[l].index != i
  {
    hide ConfirmedBy;
    forall b, i | 0 <= b < |batches| && answers(b).Some?
      ensures ConfirmedBy(answers(b).value, i) <==> exists k ::
        && 0 <= k < |answers(b).value| && answers(b).value[k].index == i && answers(b).value[k].confirmed
        && forall l :: k < l < |answers(b).value| ==> answers(b).value[l].index != i
    {
      ConfirmedByIff(answers(b).value, i);
    }
  }

  method Verify(reviews: seq<Finding>, base: nat, t: Tokens, answers: Answers) returns (confirmed: seq<Finding>)
    ensures forall f :: f in confirmed <==> Confirmed(f, FindingBatches(reviews, base, t), answers)
    ensures var batches := FindingBatches(reviews, base, t);
      forall f :: f in confirmed <==>
        exists b, i, k ::
          && 0 <= b < |batches| && b < 5 && (i, f) in batches[b] && answers(b).Some?
          && 0 <= k < |answers(b).value| && answers(b).value[k].index == i && answers(b).value[k].confirmed
          && forall l :: k < l < |answers(b).value| ==> answers(b).value[l].index != i
  {
    hide FindingBatches, ConfirmedBy;
    var batches := SplitFindingsIntoBatches(reviews, base, t);
    if |batches| > MAX_VERIFY_BATCHES {
      batches := batches[..MAX_VERIFY_BATCHES];
    }
    confirmed := [];
    for b := 0 to |batches|
      invariant forall f :: f in confirmed <==> Confirmed(f, batches[..b], answers)
    {
      var answer := answers(b);
      ghost var before := confirmed;
      if answer.Some? {
        var more := ConfirmedIn(batches[b], answer.value);
        confirmed := confirmed + more;
      }
      OneMoreBatch(batches, b, answers);
    }
    assert batches[..|batches|] == batches;
    FirstFiveBatches(FindingBatches(reviews, base, t), answers);
    ConfirmedAreSent(confirmed, FindingBatches(reviews, base, t), answers);
  }

  lemma {:induction false} ConfirmedAreSent(confirmed: seq<Finding>, batches: seq<seq<Indexed>>, answers: Answers)
    requires forall f :: f in confirmed <==> Confirmed(f, batches, answers)
    ensures forall f :: f in confirmed <==>
        exists b, i, k ::
          && 0 <= b < |batches| && b < 5 && (i, f) in batches[b] && answers(b).Some?
          && 0 <= k < |answers(b).value| && answers(b).value[k].index == i && answers(b).value[k].confirmed
          && forall l :: k < l < |answers(b).value| ==> answers(b).value[l].index != i
  {
    hide Confirmed;
    forall f ensures f in confirmed <==>
        exists b, i, k ::
          && 0 <= b < |batches| && b < 5 && (i, f) in batches[b] && answers(b).Some?
          && 0 <= k < |answers(b).value| && answers(b).value[k].index == i && answers(b).value[k].confirmed
          && forall l :: k < l < |answers(b).value| ==> answers(b).value[l].index != i
    {
      ConfirmedIff(f, batches, answers);
    }
  }

  lemma {:induction false} OneMoreBatch(batches: seq<seq<Indexed>>, b: nat, answers: Answers)
    requires b < |batches| && b < MAX_VERIFY_BATCHES
    ensures forall f :: Confirmed(f, batches[..b + 1], answers) <==>
      Confirmed(f, batches[..b], answers)
      || (answers(b).Some? && exists i :: (i, f) in batches[b] && ConfirmedBy(answers(b).value, i))
  {
    hide ConfirmedBy;
    var upTo, next := batches[..b], batches[..b + 1];
    assert forall k :: 0 <= k < b ==> next[k] == upTo[k];
    forall f ensures Confirmed(f, next, answers) <==>
      || Confirmed(f, upTo, answers)
      || (answers(b).Some? && exists i :: (i, f) in batches[b] && ConfirmedBy(answers(b).value, i))
    {
      if Confirmed(f, next, answers) {
        var k, i :| 0 <= k < |next| && k < MAX_VERIFY_BATCHES && (i, f) in next[k]
          && answers(k).Some? && ConfirmedBy(answers(k).value, i);
        assert k == b || upTo[k] == next[k];
      }
      if answers(b).Some? && exists i :: (i, f) in batches[b] && ConfirmedBy(answers(b).value, i) {
        var i :| (i, f) in batches[b] && ConfirmedBy(answers(b).value, i);
        assert (i, f) in next[b];
      }
    }
  }

  lemma {:induction false} FirstFiveBatches(batches: seq<seq<Indexed>>, answers: Answers)
    ensures |batches| > MAX_VERIFY_BATCHES ==>
      forall f :: Confirmed(f, batches[..MAX_VERIFY_BATCHES], answers) <==> Confirmed(f, batches, answers)
  {
    hide ConfirmedBy;
  }

  method ConfirmedIn(batch: seq<Indexed>, verdicts: seq<Verdict>) returns (confirmed: seq<Finding>)
    ensures forall f :: f in confirmed <==> exists i :: (i, f) in batch && ConfirmedBy(verdicts, i)
  {
    hide ConfirmedBy;
    confirmed := [];
    for k := 0 to |batch|
      invariant forall f :: f in confirmed <==> exists i :: (i, f) in batch[..k] && ConfirmedBy(verdicts, i)
    {
      var x := batch[k];
      assert batch[..k + 1] == batch[..k] + [x];
      if ConfirmedBy(verdicts, x.0) {
        confirmed := confirmed + [x.1];
      }
    }
    assert batch[..|batch|] == batch;
  }

  // ---------- all groups ----------

  /** The prompts of a review: which one produced a finding, and its size in tokens. */
  datatype Prompts = Prompts(of: map<nat, nat>, base: nat -> nat)

  predicate KnownPrompts(fs: seq<Finding>, prompts: Prompts) {
    forall i :: 0 <= i < |fs| ==> fs[i].id in prompts.of
  }

  predicate FromPrompt(f: Finding, prompts: Prompts, p: nat) {
    f.id in prompts.of && prompts.of[f.id] == p
  }

  /** The filtered findings a prompt produced, in their filtered order. */
  function Group(filtered: seq<Finding>, prompts: Prompts, p: nat): seq<Finding> {
    Filter((f: Finding) => FromPrompt(f, prompts, p), filtered)
  }

  /** Confirmed in the group of its own generation prompt. */
  ghost predicate Survives(f: Finding, filtered: seq<Finding>, prompts: Prompts, t: Tokens, answers: nat -> Answers)
  {
    && f.id in prompts.of
    && ConfirmedInGroup(f, prompts.of[f.id], filtered, prompts, t, answers)
  }

  /** Confirmed among the filtered findings the prompt `p` produced. */
  ghost predicate ConfirmedInGroup(f: Finding, p: nat, filtered: seq<Finding>, prompts: Prompts, t: Tokens,
      answers: nat -> Answers) {
    Confirmed(f, FindingBatches(Group(filtered, prompts, p), prompts.base(p), t), answers(p))
  }

  predicate DistinctIds(fs: seq<Finding>) {
    forall i, j :: 0 <= i < j < |fs| ==> fs[i].id != fs[j].id
  }

  lemma {:induction false} FilterSnoc<T(!new)>(p: T -> bool, s: seq<T>, x: T)
    ensures Filter(p, s + [x]) == Filter(p, s) + if p(x) then [x] else []
  {
    if s == [] {
      assert s + [x] == [x] && [x][1..] == [];
    } else {
      assert (s + [x])[0] == s[0] && (s + [x])[1..] == s[1..] + [x];
      FilterSnoc(p, s[1..], x);
      Assoc(if p(s[0]) then [s[0]] else [], Filter(p, s[1..]), if p(x) then [x] else []);
    }
  }

  lemma {:induction false} NoGroups(prompts: Prompts)
    ensures forall p :: Group([], prompts, p) == []
  {}

  lemma {:induction false} FilterSame<T(!new)>(p: T -> bool, q: T -> bool, s: seq<T>)
    requires forall i :: 0 <= i < |s| ==> (p(s[i]) <==> q(s[i]))
    ensures Filter(p, s) == Filter(q, s)
  {
    if s != [] {
      assert p(s[0]) <==> q(s[0]);
      FilterSame(p, q, s[1..]);
    }
  }

  /** The prompt of each finding. */
  function PromptsOf(fs: seq<Finding>, prompts: Prompts): (r: seq<nat>)
    requires KnownPrompts(fs, prompts)
    ensures |r| == |fs| && forall i :: 0 <= i < |fs| ==> r[i] == prompts.of[fs[i].id]
  {
    seq(|fs|, i requires 0 <= i < |fs| => prompts.of[fs[i].id])
  }

  method GroupByPrompt(filtered: seq<Finding>, prompts: Prompts)
    returns (groups: map<nat, seq<Finding>>, order: seq<nat>)
    requires KnownPrompts(filtered, prompts)
    ensures order == Distinct(PromptsOf(filtered, prompts)) && NoRepeats(order)
    ensures forall p :: p in order <==> p in groups
    ensures forall p :: p in groups ==> groups[p] == Group(filtered, prompts, p)
    ensures forall i :: 0 <= i < |filtered| ==> prompts.of[filtered[i].id] in groups
  {
    NoGroups(prompts);
    hide Filter, Distinct, NoRepeats, Group, PromptsOf, FromPrompt;
    ghost var keys := PromptsOf(filtered, prompts);
    groups, order := map[], [];
    DistinctNothing(keys);
    for i := 0 to |filtered|
      invariant order == Distinct(keys[..i])
      invariant forall p :: p in order <==> p in groups
      invariant forall p :: p in groups ==> groups[p] == Group(filtered[..i], prompts, p)
      invariant forall p :: p !in groups ==> Group(filtered[..i], prompts, p) == []
    {
      var f := filtered[i];
      var key := prompts.of[f.id];
      DistinctSnoc(keys, i);
      GroupSnoc(filtered, i, prompts);
      if key !in groups {
        groups := groups[key := []];
        order := order + [key];
      }
      groups := groups[key := groups[key] + [f]];
    }
    assert filtered[..|filtered|] == filtered && keys[..|filtered|] == keys;
    assert forall i :: 0 <= i < |filtered| ==> keys[i] in order;
  }

  lemma {:induction false} GroupSnoc(filtered: seq<Finding>, i: nat, prompts: Prompts)
    requires i < |filtered| && filtered[i].id in prompts.of
    ensures forall p ::
      Group(filtered[..i + 1], prompts, p)
        == Group(filtered[..i], prompts, p) + if p == prompts.of[filtered[i].id] then [filtered[i]] else []
  {
    hide Filter;
    assert filtered[..i + 1] == filtered[..i] + [filtered[i]];
    forall p ensures Group(filtered[..i + 1], prompts, p)
      == Group(filtered[..i], prompts, p) + if p == prompts.of[filtered[i].id] then [filtered[i]] else []
    {
      FilterSnoc((f: Finding) => FromPrompt(f, prompts, p), filtered[..i], filtered[i]);
    }
  }

  /**
   Verification alignment: a filtered finding survives exactly when it was sent in one of the first
   five verify batches of the group of its own generation prompt and the answer to that batch confirms
   its own index. Survivors keep the filtered order.
   */
  method VerifyAcrossBatches(filtered: seq<Finding>, prompts: Prompts, t: Tokens, answers: nat -> Answers)
    returns (survivors: seq<Finding>)
    requires KnownPrompts(filtered, prompts) && DistinctIds(filtered)
    ensures survivors == Filter((f: Finding) => Survives(f, filtered, prompts, t, answers), filtered)
  {
    hide FindingBatches, Confirmed, Filter, Distinct, NoRepeats, PromptsOf, Group, Survives;
    var groups, order := GroupByPrompt(filtered, prompts);
    var confirmedIds: set<nat> := {};
    for k := 0 to |order|
      invariant forall id :: id in confirmedIds <==>
        exists j: nat, f: Finding :: 0 <= j < k && f.id == id
          && ConfirmedInGroup(f, order[j], filtered, prompts, t, answers)
    {
      var p := order[k];
      assert p in groups;
      var confirmed := Verify(groups[p], prompts.base(p), t, answers(p));
      confirmedIds := confirmedIds + set f | f in confirmed :: f.id;
    }
    survivors := Filter((f: Finding) => f.id in confirmedIds, filtered);
    forall i | 0 <= i < |filtered|
      ensures filtered[i].id in confirmedIds <==> Survives(filtered[i], filtered, prompts, t, answers)
    {
      ConfirmedIdIff(filtered[i], filtered, prompts, t, answers, order);
    }
    FilterSame((f: Finding) => f.id in confirmedIds,
               (f: Finding) => Survives(f, filtered, prompts, t, answers), filtered);
  }

  /** An identity is confirmed in some group exactly when its finding survives. */
  lemma {:induction false} ConfirmedIdIff(
      f: Finding, filtered: seq<Finding>, prompts: Prompts, t: Tokens, answers: nat -> Answers, order: seq<nat>)
    requires KnownPrompts(filtered, prompts) && DistinctIds(filtered) && f in filtered && prompts.of[f.id] in order
    ensures Survives(f, filtered, prompts, t, answers)
      <==> exists j: nat, g: Finding :: 0 <= j < |order| && g.id == f.id
             && ConfirmedInGroup(g, order[j], filtered, prompts, t, answers)
  {
    hide ConfirmedInGroup;
    var j :| 0 <= j < |order| && order[j] == prompts.of[f.id];
    if exists l: nat, g: Finding :: 0 <= l < |order| && g.id == f.id
         && ConfirmedInGroup(g, order[l], filtered, prompts, t, answers)
    {
      var l: nat, g: Finding :| 0 <= l < |order| && g.id == f.id
        && ConfirmedInGroup(g, order[l], filtered, prompts, t, answers);
      ConfirmedIsFiltered(g, order[l], filtered, prompts, t, answers);
      assert g == f;
    }
  }

  /** Only findings of the group itself are ever confirmed in it. */
  lemma {:induction false} ConfirmedIsFiltered(f: Finding, p: nat, filtered: seq<Finding>, prompts: Prompts, t: Tokens,
      answers: nat -> Answers)
    requires ConfirmedInGroup(f, p, filtered, prompts, t, answers)
    ensures f in filtered && FromPrompt(f, prompts, p)
  {
    hide ConfirmedBy, FindingBatches;
    var group := Group(filtered, prompts, p);
    var batches := FindingBatches(group, prompts.base(p), t);
    FindingBatchesShape(group, prompts.base(p), t);
    var b, i :| 0 <= b < |batches| && (i, f) in batches[b];
    MemberFlatten(batches, b, (i, f));
    assert f == group[i] && f in group;
  }

  // ---------- every filtered finding has a prompt ----------

  /** Dependency findings are all minor, so only findings of the model pass the filter. */
  lemma {:induction false} LookupIsTotal(llm: seq<Finding>, dependency: seq<Finding>, s: Settings, prompts: Prompts)
    requires forall f :: f in dependency ==> f.comment.severity == Minor
    requires KnownPrompts(llm, prompts)
    ensures KnownPrompts(Filtered(llm + dependency, s), prompts)
  {
    hide Filtered, IsSorted, DistinctKeys;
    FilteredShape(llm + dependency, s);
    var kept := Filtered(llm + dependency, s);
    forall i | 0 <= i < |kept| ensures kept[i].id in prompts.of {
      var f := kept[i];
      assert f in kept;
      assert f in llm;
    }
  }

  /** Different findings stay different objects, since kept findings have different keys. */
  lemma {:induction false} FilteredIdsDiffer(reviews: seq<Finding>, s: Settings)
    requires DistinctIds(reviews)
    ensures DistinctIds(Filtered(reviews, s))
  {
    hide Filtered, IsSorted;
    FilteredShape(reviews, s);
    var kept := Filtered(reviews, s);
    forall i, j | 0 <= i < j < |kept| ensures kept[i].id != kept[j].id {
      assert kept[i] in kept && kept[j] in kept;
      var a :| 0 <= a < |reviews| && reviews[a] == kept[i];
      var b :| 0 <= b < |reviews| && reviews[b] == kept[j];
      assert KeyOf(kept[i]) != KeyOf(kept[j]);
    }
  }

  /** Filtering and verifying in one: the filter's output meets what verification asks for. */
  method FilterAndVerify(llm: seq<Finding>, dependency: seq<Finding>, s: Settings, prompts: Prompts, t: Tokens,
      answers: nat -> Answers)
    returns (survivors: seq<Finding>)
    requires forall f :: f in dependency ==> f.comment.severity == Minor
    requires KnownPrompts(llm, prompts) && DistinctIds(llm + dependency)
    ensures var filtered := Filtered(llm + dependency, s);
      survivors == Filter((f: Finding) => Survives(f, filtered, prompts, t, answers), filtered)
    ensures var filtered := Filtered(llm + dependency, s);
      forall f :: f in filtered ==>
        f.id in prompts.of
        && var p := prompts.of[f.id];
        var batches := FindingBatches(Group(filtered, prompts, p), prompts.base(p), t);
        f in survivors <==>
        exists b, i, k ::
          && 0 <= b < |batches| && b < 5 && (i, f) in batches[b] && answers(p)(b).Some?
          && 0 <= k < |answers(p)(b).value| && answers(p)(b).value[k].index == i && answers(p)(b).value[k].confirmed
          && forall l :: k < l < |answers(p)(b).value| ==> answers(p)(b).value[l].index != i
  {
    hide Filter, FindingBatches, Group, Filtered, Confirmed, DistinctIds;
    LookupIsTotal(llm, dependency, s, prompts);
    FilteredIdsDiffer(llm + dependency, s);
    var filtered := FilterReviews(llm + dependency, s);
    survivors := VerifyAcrossBatches(filtered, prompts, t, answers);
    forall f | f in filtered
      ensures f.id in prompts.of
        && var p := prompts.of[f.id];
        var batches := FindingBatches(Group(filtered, prompts, p), prompts.base(p), t);
        f in survivors <==>
        exists b, i, k ::
          && 0 <= b < |batches| && b < 5 && (i, f) in batches[b] && answers(p)(b).Some?
          && 0 <= k < |answers(p)(b).value| && answers(p)(b).value[k].index == i && answers(p)(b).value[k].confirmed
          && forall l :: k < l < |answers(p)(b).value| ==> answers(p)(b).value[l].index != i
    {
      var p := prompts.of[f.id];
      ConfirmedIff(f, FindingBatches(Group(filtered, prompts, p), prompts.base(p), t), answers(p));
    }
  }
}
