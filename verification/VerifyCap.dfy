/**
 The cap on verify requests (app/review/pipeline.py, `_verify`): no other order-preserving batching sends
 more findings in as many requests. Findings are packed as review targets are, under one budget.
 */
module VerifyCap {
  import opened Seqs
  import opened ResultFilter
  import opened Verification
  import Batching

  /** A batch of findings as a batch of targets that take tokens only. */
  function Units(batch: seq<Indexed>, t: Tokens): (r: seq<Batching.Unit>)
    ensures |r| == |batch|
    ensures forall i :: 0 <= i < |batch| ==> r[i] == Batching.Unit("", "", t.cost(batch[i].0, batch[i].1), 0)
  {
    seq(|batch|, i requires 0 <= i < |batch| => Batching.Unit("", "", t.cost(batch[i].0, batch[i].1), 0))
  }

  function AllUnits(batches: seq<seq<Indexed>>, t: Tokens): (r: seq<seq<Batching.Unit>>)
    ensures |r| == |batches|
    ensures forall i :: 0 <= i < |batches| ==> r[i] == Units(batches[i], t)
  {
    seq(|batches|, i requires 0 <= i < |batches| => Units(batches[i], t))
  }

  function OneBudget(base: nat, t: Tokens): Batching.Budgets {
    Batching.Budgets(t.budget, base, base, 0, 0)
  }

  lemma {:induction false} UnitWeights(batch: seq<Indexed>, t: Tokens)
    ensures Batching.Tokens(Units(batch, t)) == BatchCost(batch, t) && Batching.Chars(Units(batch, t)) == 0
  {
    if batch != [] {
      var front := batch[..|batch| - 1];
      assert Units(batch, t)[..|batch| - 1] == Units(front, t);
      UnitWeights(front, t);
    }
  }

  lemma {:induction false} FlattenUnits(batches: seq<seq<Indexed>>, t: Tokens)
    ensures Flatten(AllUnits(batches, t)) == Units(Flatten(batches), t)
  {
    if batches != [] {
      var k := |batches| - 1;
      assert AllUnits(batches, t)[..k] == AllUnits(batches[..k], t);
      FlattenUnits(batches[..k], t);
    }
  }

  /** The batch could not have taken the pair. */
  predicate IsFull(batch: seq<Indexed>, next: Indexed, base: nat, t: Tokens) {
    base + BatchCost(batch, t) + t.cost(next.0, next.1) > t.budget
  }

  /** No batch could have taken the first pair of the next one. */
  predicate BatchedFull(batches: seq<seq<Indexed>>, base: nat, t: Tokens) {
    forall k, next :: 0 <= k && next == k + 1 < |batches| && batches[next] != [] ==>
      IsFull(batches[k], batches[next][0], base, t)
  }

  lemma {:induction false} FullCons(batch: seq<Indexed>, batches: seq<seq<Indexed>>, base: nat, t: Tokens)
    requires BatchedFull(batches, base, t)
    requires batches != [] && batches[0] != [] ==> IsFull(batch, batches[0][0], base, t)
    ensures BatchedFull([batch] + batches, base, t)
  {
    hide IsFull;
    var all := [batch] + batches;
    assert forall k :: 0 < k < |all| ==> all[k] == batches[k - 1];
  }

  /** Greedy batching starts with the batch being filled, and leaves only full batches behind. */
  lemma {:induction false} BatchedIsFull(xs: seq<Indexed>, current: seq<Indexed>, base: nat, t: Tokens)
    ensures BatchedFull(Batched(xs, current, base, t), base, t)
    ensures current != [] ==> Batched(xs, current, base, t) != [] && current <= Batched(xs, current, base, t)[0]
    decreases |xs|
  {
    hide BatchedFull, IsFull;
    if xs == [] {
      FewAreFull(Batched(xs, current, base, t), base, t);
    } else if current != [] && base + BatchCost(current, t) + t.cost(xs[0].0, xs[0].1) > t.budget {
      var rest := Batched(xs[1..], [xs[0]], base, t);
      BatchedIsFull(xs[1..], [xs[0]], base, t);
      assert rest[0][0] == xs[0];
      assert IsFull(current, xs[0], base, t) by { FullBy(current, xs[0], base, t); }
      FullCons(current, rest, base, t);
    } else {
      BatchedIsFull(xs[1..], current + [xs[0]], base, t);
    }
  }

  lemma {:induction false} FullBy(batch: seq<Indexed>, next: Indexed, base: nat, t: Tokens)
    requires base + BatchCost(batch, t) + t.cost(next.0, next.1) > t.budget
    ensures IsFull(batch, next, base, t)
  {}

  lemma {:induction false} FewAreFull(batches: seq<seq<Indexed>>, base: nat, t: Tokens)
    requires |batches| <= 1
    ensures BatchedFull(batches, base, t)
  {}

  /** Findings in order, in batches that each hold one and stay within the budget. */
  predicate IsBatching(batches: seq<seq<Indexed>>, xs: seq<Indexed>, base: nat, t: Tokens) {
    && Flatten(batches) == xs
    && forall k :: 0 <= k < |batches| ==> batches[k] != [] && base + BatchCost(batches[k], t) <= t.budget
  }

  lemma {:induction false} BatchingIsPacking(batches: seq<seq<Indexed>>, xs: seq<Indexed>, base: nat, t: Tokens)
    requires IsBatching(batches, xs, base, t)
    ensures Batching.IsPacking(AllUnits(batches, t), Units(xs, t), OneBudget(base, t))
  {
    hide BatchCost, Batching.Tokens, Batching.Chars, Flatten;
    FlattenUnits(batches, t);
    forall k | 0 <= k < |batches|
      ensures AllUnits(batches, t)[k] != [] && Batching.Fits(AllUnits(batches, t)[k], k, OneBudget(base, t))
    {
      UnitWeights(batches[k], t);
    }
  }

  lemma {:induction false} FullIsPacked(batches: seq<seq<Indexed>>, base: nat, t: Tokens)
    requires BatchedFull(batches, base, t) && forall k :: 0 <= k < |batches| ==> batches[k] != []
    ensures Batching.PackedFull(AllUnits(batches, t), OneBudget(base, t))
  {
    hide BatchCost, Batching.Tokens, Batching.Chars;
    var all := AllUnits(batches, t);
    forall k, next | 0 <= k && next == k + 1 < |all| && all[next] != []
      ensures !Batching.Fits(all[k] + [all[next][0]], k, OneBudget(base, t))
    {
      UnitWeights(batches[k], t);
      Batching.WeightsOfOneMore(all[k], all[next][0]);
      assert IsFull(batches[k], batches[next][0], base, t);
    }
  }

  /** The findings of the first `cap` batches. */
  function Sent(batches: seq<seq<Indexed>>, cap: nat): seq<Indexed> {
    Flatten(batches[..Min(cap, |batches|)])
  }

  lemma {:induction false} SentUnits(batches: seq<seq<Indexed>>, cap: nat, t: Tokens)
    ensures |Batching.Within(AllUnits(batches, t), cap)| == |Sent(batches, cap)|
  {
    var k := Min(cap, |batches|);
    assert AllUnits(batches, t)[..k] == AllUnits(batches[..k], t);
    FlattenUnits(batches[..k], t);
  }

  lemma {:induction false} SentIsFront(batches: seq<seq<Indexed>>, xs: seq<Indexed>, cap: nat)
    requires Flatten(batches) == xs
    ensures Sent(batches, cap) <= xs
  {
    var k := Min(cap, |batches|);
    assert batches == batches[..k] + batches[k..];
    FlattenAppend(batches[..k], batches[k..]);
  }

  /**
   Under a cap on the requests of a group, greedy batching sends the most: whatever other batching keeps
   the order of the verifiable findings, the findings in its first `cap` batches are among the first of
   those that are sent.
   */
  lemma {:induction false} CapSendsMost(reviews: seq<Finding>, base: nat, t: Tokens, other: seq<seq<Indexed>>, cap: nat)
    requires IsBatching(other, Numbered(reviews, 0, base, t), base, t)
    ensures Sent(other, cap) <= Sent(FindingBatches(reviews, base, t), cap)
  {
    hide Flatten, BatchCost, Verifiable, BatchedFull, Batching.IsPacking, Batching.PackedFull, Numbered, Batched, Sent;
    var xs, batches := Numbered(reviews, 0, base, t), FindingBatches(reviews, base, t);
    NumberedInOrder(reviews, 0, base, t);
    BatchedShape(xs, [], base, t);
    assert [] + xs == xs;
    assert forall k :: 0 <= k < |batches| ==> batches[k] in batches;
    BatchedIsFull(xs, [], base, t);
    BatchingIsPacking(batches, xs, base, t);
    BatchingIsPacking(other, xs, base, t);
    FullIsPacked(batches, base, t);
    Batching.CapKeepsMost(AllUnits(batches, t), AllUnits(other, t), Units(xs, t), OneBudget(base, t), cap);
    SentUnits(batches, cap, t);
    SentUnits(other, cap, t);
    SentIsFront(batches, xs, cap);
    SentIsFront(other, xs, cap);
  }
}
