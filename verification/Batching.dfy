/**
 Packing review targets into batches (app/review/pipeline.py, `_split_targets_into_batches`). The
 token count of a rendered target is whatever the tokenizer says; the first batch shares its
 budgets with the PR description and the project context, the others do not.
 */
module Batching {
  import opened Seqs

  /** A piece of a file with the measures of its rendered text. */
  datatype Unit = Unit(path: string, text: string, tokens: nat, chars: nat)

  /** Token budget of a prompt, tokens of its common part, and characters left for the diff. */
  datatype Budgets = Budgets(tokens: int, commonFirst: int, commonRest: int, charsFirst: nat, charsRest: nat)

  function Tokens(batch: seq<Unit>): nat {
    if batch == [] then 0 else Tokens(batch[..|batch| - 1]) + batch[|batch| - 1].tokens
  }

  function Chars(batch: seq<Unit>): nat {
    if batch == [] then 0 else Chars(batch[..|batch| - 1]) + batch[|batch| - 1].chars
  }

  /** Batch number `k` keeps within both of its budgets. */
  predicate WithinBudgets(batch: seq<Unit>, k: nat, b: Budgets) {
    && (if k == 0 then b.commonFirst else b.commonRest) + Tokens(batch) <= b.tokens
    && Chars(batch) <= if k == 0 then b.charsFirst else b.charsRest
  }

  /** A batch fits when it keeps within its budgets or is a single target. */
  predicate Fits(batch: seq<Unit>, k: nat, b: Budgets) {
    |batch| <= 1 || WithinBudgets(batch, k, b)
  }

  predicate EachFits(batches: seq<seq<Unit>>, b: Budgets) {
    forall k :: 0 <= k < |batches| ==> batches[k] != [] && Fits(batches[k], k, b)
  }

  /** An order-preserving partition into batches that fit. */
  predicate IsPacking(batches: seq<seq<Unit>>, units: seq<Unit>, b: Budgets) {
    Flatten(batches) == units && EachFits(batches, b)
  }

  /** No batch could have taken the first target of the next one. */
  predicate PackedFull(batches: seq<seq<Unit>>, b: Budgets) {
    forall k, next :: 0 <= k && next == k + 1 < |batches| && batches[next] != [] ==>
      !Fits(batches[k] + [batches[next][0]], k, b)
  }

  lemma {:induction false} WeightsOfOneMore(batch: seq<Unit>, unit: Unit)
    ensures Tokens(batch + [unit]) == Tokens(batch) + unit.tokens
    ensures Chars(batch + [unit]) == Chars(batch) + unit.chars
  {
    assert (batch + [unit])[..|batch|] == batch;
  }

  lemma {:induction false} NothingPacked()
    ensures Tokens([]) == Chars([]) == 0 && Flatten<Unit>([]) == []
  {}

  /** The batch could not have taken the target. */
  predicate IsFull(batch: seq<Unit>, next: Unit, k: nat, b: Budgets) {
    !Fits(batch + [next], k, b)
  }

  /** Closing a batch behind the packed ones. */
  lemma {:induction false} CloseBatch(packed: seq<seq<Unit>>, current: seq<Unit>, b: Budgets)
    requires EachFits(packed, b) && PackedFull(packed, b) && current != [] && Fits(current, |packed|, b)
    requires packed != [] ==> IsFull(packed[|packed| - 1], current[0], |packed| - 1, b)
    ensures EachFits(packed + [current], b) && PackedFull(packed + [current], b)
    ensures Flatten(packed + [current]) == Flatten(packed) + current
  {
    hide Fits, Flatten;
    FlattenOneMore(packed, current);
  }

  method Pack(units: seq<Unit>, b: Budgets) returns (packed: seq<seq<Unit>>)
    ensures IsPacking(packed, units, b) && PackedFull(packed, b)
  {
    hide Tokens, Chars, Flatten, EachFits, PackedFull;
    packed := [];
    NothingPacked();
    NothingFull(b);
    var current: seq<Unit> := [];
    var currentTokens, currentChars, charBudget := b.commonFirst, 0, b.charsFirst;
    for i := 0 to |units|
      invariant Flatten(packed) + current == units[..i]
      invariant current == [] ==> i == 0 && packed == []
      invariant currentTokens == (if packed == [] then b.commonFirst else b.commonRest) + Tokens(current)
      invariant currentChars == Chars(current)
      invariant charBudget == if packed == [] then b.charsFirst else b.charsRest
      invariant Fits(current, |packed|, b)
      invariant EachFits(packed, b) && PackedFull(packed, b)
      invariant packed != [] ==> IsFull(packed[|packed| - 1], current[0], |packed| - 1, b)
    {
      var unit := units[i];
      assert units[..i + 1] == units[..i] + [unit];
      WeightsOfOneMore(current, unit);
      if current != [] && (currentTokens + unit.tokens > b.tokens || currentChars + unit.chars > charBudget) {
        CloseBatch(packed, current, b);
        packed := packed + [current];
        current, currentTokens, currentChars, charBudget := [], b.commonRest, 0, b.charsRest;
        WeightsOfOneMore(current, unit);
      }
      Assoc(Flatten(packed), current, [unit]);
      current := current + [unit];
      currentTokens, currentChars := currentTokens + unit.tokens, currentChars + unit.chars;
    }
    assert units[..|units|] == units;
    if current != [] {
      CloseBatch(packed, current, b);
      packed := packed + [current];
    }
  }

  lemma {:induction false} NothingFull(b: Budgets)
    ensures EachFits([], b) && PackedFull([], b)
  {}

  // ---------- greedy packing is optimal ----------

  lemma {:induction false} WeightsAppend(a: seq<Unit>, b: seq<Unit>)
    ensures Tokens(a + b) == Tokens(a) + Tokens(b)
    ensures Chars(a + b) == Chars(a) + Chars(b)
  {
    if b == [] {
      assert a + b == a;
    } else {
      assert (a + b)[..|a + b| - 1] == a + b[..|b| - 1];
      WeightsAppend(a, b[..|b| - 1]);
    }
  }

  /** A stretch of a batch that fits still fits. */
  lemma {:induction false} StretchFits(units: seq<Unit>, lo: nat, from: nat, to: nat, hi: nat, k: nat, b: Budgets)
    requires lo <= from <= to <= hi <= |units| && Fits(units[lo..hi], k, b)
    ensures Fits(units[from..to], k, b)
  {
    assert units[lo..hi] == units[lo..from] + units[from..to] + units[to..hi];
    WeightsAppend(units[lo..from] + units[from..to], units[to..hi]);
    WeightsAppend(units[lo..from], units[from..to]);
  }

  /** How many targets the first `k` batches hold. */
  function Reach(batches: seq<seq<Unit>>, k: nat): nat
    requires k <= |batches|
  {
    |Flatten(batches[..k])|
  }

  lemma {:induction false} BatchIsStretch(batches: seq<seq<Unit>>, units: seq<Unit>, k: nat)
    requires Flatten(batches) == units && k < |batches|
    ensures Reach(batches, k + 1) == Reach(batches, k) + |batches[k]| <= |units|
    ensures batches[k] == units[Reach(batches, k)..Reach(batches, k + 1)]
  {
    assert batches[..k + 1][..k] == batches[..k];
    assert batches == batches[..k + 1] + batches[k + 1..];
    FlattenAppend(batches[..k + 1], batches[k + 1..]);
  }

  lemma {:induction false} GreedyStaysAhead(packed: seq<seq<Unit>>, other: seq<seq<Unit>>, units: seq<Unit>,
      b: Budgets, k: nat)
    requires IsPacking(packed, units, b) && PackedFull(packed, b) && IsPacking(other, units, b)
    requires k <= |packed| && k <= |other|
    ensures Reach(other, k) <= Reach(packed, k)
  {
    hide Fits;
    if k > 0 {
      var j := k - 1;
      GreedyStaysAhead(packed, other, units, b, j);
      BatchIsStretch(packed, units, j);
      BatchIsStretch(other, units, j);
      assert k == |packed| ==> packed[..k] == packed && Reach(packed, k) == |units|;
      if Reach(packed, k) < Reach(other, k) {
        if k < |packed| {
          BatchIsStretch(packed, units, k);
          assert packed[j] + [packed[k][0]] == units[Reach(packed, j)..Reach(packed, k) + 1];
          StretchFits(units, Reach(other, j), Reach(packed, j), Reach(packed, k) + 1, Reach(other, k), j, b);
        }
      }
    }
  }

  /**
   Greedy packing is optimal: no order-preserving partition into batches that each keep within both
   budgets, or hold a single target, uses fewer batches.
   */
  lemma {:induction false} PackIsOptimal(packed: seq<seq<Unit>>, other: seq<seq<Unit>>, units: seq<Unit>, b: Budgets)
    requires IsPacking(packed, units, b) && PackedFull(packed, b) && IsPacking(other, units, b)
    ensures |packed| <= |other|
  {
    hide Fits;
    var k := |other|;
    if k < |packed| {
      assert other[..k] == other && packed[k] != [];
      GreedyStaysAhead(packed, other, units, b, k);
      BatchIsStretch(packed, units, k);
    }
  }

  /** The targets of the first `cap` batches. */
  function Within(batches: seq<seq<Unit>>, cap: nat): seq<Unit> {
    Flatten(batches[..Min(cap, |batches|)])
  }

  /** A cap on the number of batches keeps the most targets: no order-preserving packing puts more into as many. */
  lemma {:induction false} CapKeepsMost(packed: seq<seq<Unit>>, other: seq<seq<Unit>>, units: seq<Unit>, b: Budgets,
      cap: nat)
    requires IsPacking(packed, units, b) && PackedFull(packed, b) && IsPacking(other, units, b)
    ensures Within(other, cap) <= Within(packed, cap) <= units
  {
    hide Fits;
    PackIsOptimal(packed, other, units, b);
    var k, l := Min(cap, |packed|), Min(cap, |other|);
    assert packed[..|packed|] == packed;
    FirstBatchesArePrefix(packed, units, k);
    FirstBatchesArePrefix(other, units, l);
    if k == |packed| {
      assert Within(packed, cap) == units;
    } else {
      GreedyStaysAhead(packed, other, units, b, k);
    }
  }

  lemma {:induction false} FirstBatchesArePrefix(batches: seq<seq<Unit>>, units: seq<Unit>, k: nat)
    requires Flatten(batches) == units && k <= |batches|
    ensures Flatten(batches[..k]) <= units
  {
    assert batches == batches[..k] + batches[k..];
    FlattenAppend(batches[..k], batches[k..]);
  }

  // ---------- one batch does not depend on the order ----------

  function Without<T>(s: seq<T>, j: nat): (r: seq<T>)
    requires j < |s|
    ensures |r| == |s| - 1
  {
    s[..j] + s[j + 1..]
  }

  lemma {:induction false} MultisetWithout<T>(s: seq<T>, j: nat)
    requires j < |s|
    ensures multiset(Without(s, j)) == multiset(s) - multiset{s[j]}
  {
    assert s == s[..j] + [s[j]] + s[j + 1..];
  }

  lemma {:induction false} WeightsWithout(batch: seq<Unit>, j: nat)
    requires j < |batch|
    ensures Tokens(batch) == Tokens(Without(batch, j)) + batch[j].tokens
    ensures Chars(batch) == Chars(Without(batch, j)) + batch[j].chars
  {
    hide Tokens, Chars;
    assert batch == (batch[..j] + [batch[j]]) + batch[j + 1..];
    WeightsAppend(batch[..j] + [batch[j]], batch[j + 1..]);
    WeightsOfOneMore(batch[..j], batch[j]);
    WeightsAppend(batch[..j], batch[j + 1..]);
  }

  lemma {:induction false} WeightsOfPermutation(a: seq<Unit>, p: seq<Unit>)
    requires multiset(a) == multiset(p)
    ensures Tokens(a) == Tokens(p) && Chars(a) == Chars(p) && |a| == |p|
    decreases |a|
  {
    hide Tokens, Chars, Without;
    assert |a| == |multiset(a)| == |multiset(p)| == |p|;
    if a == [] {
      assert p == [];
    } else {
      assert a[0] in multiset(p);
      var j :| 0 <= j < |p| && p[j] == a[0];
      MultisetWithout(a, 0);
      MultisetWithout(p, j);
      WeightsWithout(a, 0);
      WeightsWithout(p, j);
      WeightsOfPermutation(Without(a, 0), Without(p, j));
    }
  }

  /** One batch is enough exactly when all targets together fit the first one. */
  lemma {:induction false} OneBatchIff(packed: seq<seq<Unit>>, units: seq<Unit>, b: Budgets)
    requires IsPacking(packed, units, b) && PackedFull(packed, b)
    ensures |packed| <= 1 <==> Fits(units, 0, b)
  {
    hide Flatten, WithinBudgets, PackedFull;
    NothingPacked();
    FlattenOneMore([], units);
    assert [units] == [] + [units] && Flatten([units]) == units;
    if |packed| == 1 {
      FlattenOneMore([], packed[0]);
      assert packed == [] + [packed[0]] && units == packed[0];
    } else if |packed| > 1 && Fits(units, 0, b) && units != [] {
      PackIsOptimal(packed, [units], units, b);
    } else if |packed| > 1 && units == [] {
      PackIsOptimal(packed, [], units, b);
    }
  }

  /** If one batch is enough for the targets in one order, it is enough in every order. */
  lemma {:induction false} OneBatchInAnyOrder(
      packed: seq<seq<Unit>>, units: seq<Unit>, repacked: seq<seq<Unit>>, reordered: seq<Unit>, b: Budgets)
    requires IsPacking(packed, units, b) && PackedFull(packed, b)
    requires IsPacking(repacked, reordered, b) && PackedFull(repacked, b)
    requires multiset(units) == multiset(reordered)
    ensures |packed| <= 1 <==> |repacked| <= 1
  {
    OneBatchIff(packed, units, b);
    OneBatchIff(repacked, reordered, b);
    WeightsOfPermutation(units, reordered);
  }

  // ---------- the batches of a review ----------

  /** Python's stable sort by "is a test file": source files first, order kept within both kinds. */
  function SourceFirst(units: seq<Unit>, isLow: string -> bool): seq<Unit> {
    Filter((u: Unit) => !isLow(u.path), units) + Filter((u: Unit) => isLow(u.path), units)
  }

  function UnitPath(unit: Unit): string {
    unit.path
  }

  lemma {:induction false} FilterSplits(units: seq<Unit>, p: Unit -> bool, q: Unit -> bool)
    requires forall u :: p(u) <==> !q(u)
    ensures multiset(Filter(p, units)) + multiset(Filter(q, units)) == multiset(units)
  {
    if units != [] {
      FilterSplits(units[1..], p, q);
      assert units == [units[0]] + units[1..];
    }
  }

  lemma {:induction false} SourceFirstIsPermutation(units: seq<Unit>, isLow: string -> bool)
    ensures multiset(SourceFirst(units, isLow)) == multiset(units)
  {
    FilterSplits(units, (u: Unit) => !isLow(u.path), (u: Unit) => isLow(u.path));
  }

  /** Behind a test file come only test files. */
  lemma {:induction false} SourceFirstOrder(units: seq<Unit>, isLow: string -> bool, i: nat, j: nat)
    requires i <= j < |SourceFirst(units, isLow)| && isLow(SourceFirst(units, isLow)[i].path)
    ensures isLow(SourceFirst(units, isLow)[j].path)
  {
    var source := Filter((u: Unit) => !isLow(u.path), units);
    var tests := Filter((u: Unit) => isLow(u.path), units);
    forall k | 0 <= k < |source| ensures !isLow(source[k].path) {
      assert source[k] in source;
    }
    assert tests[j - |source|] in tests;
  }

  /** The order in which targets are packed: their own when one batch is enough, source files first otherwise. */
  function PackingOrder(units: seq<Unit>, b: Budgets, isLow: string -> bool): seq<Unit> {
    if Fits(units, 0, b) then units else SourceFirst(units, isLow)
  }

  /**
   Batches and the files the batch cap leaves out: the greedy packing of the packing order, cut at the
   cap. Every target lands in a batch or is left out; no test file is kept while a source file goes.
   */
  method SplitTargetsIntoBatches(units: seq<Unit>, b: Budgets, isLow: string -> bool, maxBatches: nat)
    returns (batches: seq<seq<Unit>>, omitted: seq<string>, ghost dropped: seq<Unit>)
    ensures omitted == Map(UnitPath, dropped) && |batches| <= maxBatches
    ensures Flatten(batches) + dropped == PackingOrder(units, b, isLow)
    ensures multiset(Flatten(batches) + dropped) == multiset(units)
    ensures EachFits(batches, b) && PackedFull(batches, b)
    ensures dropped != [] ==>
      && |batches| == maxBatches
      && (maxBatches > 0 ==> !Fits(batches[maxBatches - 1] + [dropped[0]], maxBatches - 1, b))
    ensures dropped != [] && maxBatches > 0 ==>
      forall u, v :: u in Flatten(batches) && isLow(u.path) && v in dropped ==> isLow(v.path)
  {
    hide Flatten, Fits, SourceFirst, EachFits, PackedFull;
    batches := Pack(units, b);
    ghost var order := units;
    dropped := [];
    omitted := [];
    OneBatchIff(batches, units, b);
    if |batches| > 1 {
      ghost var first := batches;
      order := SourceFirst(units, isLow);
      SourceFirstIsPermutation(units, isLow);
      batches := Pack(SourceFirst(units, isLow), b);
      OneBatchInAnyOrder(first, units, batches, order, b);
    }
    assert Flatten(batches) + dropped == order;
    if |batches| > maxBatches {
      var cut := Flatten(batches[maxBatches..]);
      CutAtCap(batches, order, b, maxBatches);
      dropped := cut;
      omitted := Map(UnitPath, cut);
      batches := batches[..maxBatches];
      if maxBatches > 0 {
        TestFilesGoFirst(Flatten(batches), dropped, units, isLow);
      }
    }
  }

  lemma {:induction false} CutAtCap(packed: seq<seq<Unit>>, units: seq<Unit>, b: Budgets, cap: nat)
    requires IsPacking(packed, units, b) && PackedFull(packed, b) && cap < |packed|
    ensures var kept, cut := packed[..cap], Flatten(packed[cap..]);
      && Flatten(kept) + cut == units && EachFits(kept, b) && PackedFull(kept, b)
      && cut != [] && (cap > 0 ==> !Fits(kept[cap - 1] + [cut[0]], cap - 1, b))
  {
    hide Fits, Flatten;
    assert packed == packed[..cap] + packed[cap..];
    FlattenAppend(packed[..cap], packed[cap..]);
    assert packed[cap..][0] == packed[cap] != [];
    FirstOfFlatten(packed[cap..]);
  }

  lemma {:induction false} FirstOfFlatten(parts: seq<seq<Unit>>)
    requires parts != [] && parts[0] != []
    ensures Flatten(parts) != [] && Flatten(parts)[0] == parts[0][0]
  {
    if |parts| > 1 {
      FirstOfFlatten(parts[..|parts| - 1]);
    } else {
      assert parts[..0] == [];
    }
  }

  lemma {:induction false} TestFilesGoFirst(kept: seq<Unit>, dropped: seq<Unit>, units: seq<Unit>,
      isLow: string -> bool)
    requires kept + dropped == SourceFirst(units, isLow)
    ensures forall u, v :: u in kept && isLow(u.path) && v in dropped ==> isLow(v.path)
  {
    hide SourceFirst;
    forall u, v | u in kept && isLow(u.path) && v in dropped ensures isLow(v.path) {
      var i :| 0 <= i < |kept| && kept[i] == u;
      var j :| 0 <= j < |dropped| && dropped[j] == v;
      assert (kept + dropped)[i] == u && (kept + dropped)[|kept| + j] == v;
      SourceFirstOrder(units, isLow, i, |kept| + j);
    }
  }
}
