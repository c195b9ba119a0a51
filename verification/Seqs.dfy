/** Small facts about sequences and numbers that several components use. */
module Seqs {
  function Min(a: int, b: int): int {
    if a < b then a else b
  }

  function Max(a: int, b: int): int {
    if a < b then b else a
  }

  function Flatten<T>(parts: seq<seq<T>>): seq<T> {
    if parts == [] then [] else Flatten(parts[..|parts| - 1]) + parts[|parts| - 1]
  }

  lemma {:induction false} FlattenOneMore<T>(parts: seq<seq<T>>, part: seq<T>)
    ensures Flatten(parts + [part]) == Flatten(parts) + part
  {
    assert (parts + [part])[..|parts|] == parts;
  }

  lemma {:induction false} FlattenAppend<T>(a: seq<seq<T>>, b: seq<seq<T>>)
    ensures Flatten(a + b) == Flatten(a) + Flatten(b)
  {
    if b == [] {
      assert a + b == a;
    } else {
      assert (a + b)[..|a + b| - 1] == a + b[..|b| - 1];
      FlattenAppend(a, b[..|b| - 1]);
      Assoc(Flatten(a), Flatten(b[..|b| - 1]), b[|b| - 1]);
    }
  }

  lemma {:induction false} FlattenMember<T>(parts: seq<seq<T>>, x: T) returns (i: nat)
    requires x in Flatten(parts)
    ensures i < |parts| && x in parts[i]
  {
    if x in parts[|parts| - 1] {
      i := |parts| - 1;
    } else {
      i := FlattenMember(parts[..|parts| - 1], x);
    }
  }

  lemma {:induction false} MemberFlatten<T>(parts: seq<seq<T>>, i: nat, x: T)
    requires i < |parts| && x in parts[i]
    ensures x in Flatten(parts)
  {
    if i < |parts| - 1 {
      MemberFlatten(parts[..|parts| - 1], i, x);
    }
  }

  lemma {:induction false} Assoc<T>(a: seq<T>, b: seq<T>, c: seq<T>)
    ensures a + (b + c) == (a + b) + c
  {}

  lemma {:induction false} Uncons<T>(a: seq<T>, b: seq<T>)
    requires a != []
    ensures a + b == [a[0]] + (a[1..] + b)
  {}

  lemma {:induction false} ConsEqual<T>(a: T, x: seq<T>, b: T, y: seq<T>)
    ensures [a] + x == [b] + y <==> a == b && x == y
  {
    assert ([a] + x)[1..] == x && ([b] + y)[1..] == y;
    assert ([a] + x)[0] == a && ([b] + y)[0] == b;
  }

  lemma {:induction false} SplitAt<T>(s: seq<T>, p: nat, a: seq<T>, b: seq<T>)
    requires p <= |s| && s[p..] == a + b
    ensures p + |a| <= |s| && s[p..p + |a|] == a && s[p + |a|..] == b
  {
    assert s[p..][..|a|] == a;
    assert s[p..][|a|..] == b;
  }

  lemma {:induction false} SliceOfPrefix<T>(s: seq<T>, k: nat, a: nat, b: nat)
    requires a <= b <= k <= |s|
    ensures s[..k][a..b] == s[a..b]
  {}

  function Map<T, U>(f: T -> U, s: seq<T>): (r: seq<U>)
    ensures |r| == |s|
    ensures forall i :: 0 <= i < |s| ==> r[i] == f(s[i])
  {
    seq(|s|, i requires 0 <= i < |s| => f(s[i]))
  }

  /** First occurrences, in order (`dict.fromkeys`). */
  function Distinct<T(==,!new)>(s: seq<T>): (r: seq<T>)
    ensures NoRepeats(r)
    ensures forall x :: x in r <==> x in s
  {
    if s == [] then [] else
    var front := Distinct(s[..|s| - 1]);
    if s[|s| - 1] in front then front else front + [s[|s| - 1]]
  }

  lemma {:induction false} DistinctSnoc<T(!new)>(s: seq<T>, i: nat)
    requires i < |s|
    ensures Distinct(s[..i + 1]) == if s[i] in Distinct(s[..i]) then Distinct(s[..i]) else Distinct(s[..i]) + [s[i]]
  {
    assert s[..i + 1][..i] == s[..i];
  }

  lemma {:induction false} DistinctNothing<T(!new)>(s: seq<T>)
    ensures Distinct(s[..0]) == []
  {}

  /** The elements satisfying `p`, in order. */
  function Filter<T(!new)>(p: T -> bool, s: seq<T>): (r: seq<T>)
    ensures forall x :: x in r <==> x in s && p(x)
  {
    if s == [] then [] else (if p(s[0]) then [s[0]] else []) + Filter(p, s[1..])
  }

  predicate NoRepeats<T(==)>(s: seq<T>) {
    forall i, j :: 0 <= i < j < |s| ==> s[i] != s[j]
  }

  // ---------- picking elements in order ----------

  /** `out` is what `all` holds at the indices `kept`, which increase. */
  predicate Picks<T(==)>(out: seq<T>, all: seq<T>, kept: seq<nat>) {
    && |kept| == |out|
    && (forall k :: 0 <= k < |kept| ==> kept[k] < |all| && out[k] == all[kept[k]])
    && (forall k, l :: 0 <= k < l < |kept| ==> kept[k] < kept[l])
  }

  function Raised(later: seq<nat>): (r: seq<nat>)
    ensures |r| == |later| && forall k :: 0 <= k < |later| ==> r[k] == later[k] + 1
  {
    seq(|later|, k requires 0 <= k < |later| => later[k] + 1)
  }

  /** The indices for one more element in front, which is picked or not. */
  function PickFront(later: seq<nat>, picked: bool): seq<nat> {
    if picked then [0] + Raised(later) else Raised(later)
  }

  lemma {:induction false} PicksSkip<T>(out: seq<T>, all: seq<T>, later: seq<nat>, x: T)
    requires Picks(out, all, later)
    ensures Picks(out, [x] + all, Raised(later))
  {
    var whole, kept := [x] + all, Raised(later);
    forall k | 0 <= k < |kept| ensures kept[k] < |whole| && out[k] == whole[kept[k]] {
      assert whole[later[k] + 1] == all[later[k]];
    }
  }

  lemma {:induction false} PicksTake<T>(out: seq<T>, whole: seq<T>, raised: seq<nat>)
    requires Picks(out, whole, raised) && whole != [] && forall k :: 0 <= k < |raised| ==> raised[k] > 0
    ensures Picks([whole[0]] + out, whole, [0] + raised)
  {
    var taken, kept := [whole[0]] + out, [0] + raised;
    forall k | 0 <= k < |kept| ensures kept[k] < |whole| && taken[k] == whole[kept[k]] {
      assert k > 0 ==> kept[k] == raised[k - 1] && taken[k] == out[k - 1];
    }
    forall k, l | 0 <= k < l < |kept| ensures kept[k] < kept[l] {
      assert kept[l] == raised[l - 1];
      assert k > 0 ==> kept[k] == raised[k - 1];
    }
  }

  lemma {:induction false} PicksFront<T>(out: seq<T>, all: seq<T>, later: seq<nat>, x: T, picked: bool)
    requires Picks(out, all, later)
    ensures Picks((if picked then [x] else []) + out, [x] + all, PickFront(later, picked))
  {
    hide Picks;
    PicksSkip(out, all, later, x);
    if picked {
      PicksTake(out, [x] + all, Raised(later));
    } else {
      assert [] + out == out;
    }
  }

  lemma {:induction false} PickedFront(later: seq<nat>, picked: bool, i: nat)
    ensures i in PickFront(later, picked) <==> if i == 0 then picked else i - 1 in later
  {
    var raised := Raised(later);
    if i in raised {
      var k :| 0 <= k < |raised| && raised[k] == i;
      assert later[k] == i - 1;
    }
    if i > 0 && i - 1 in later {
      var k :| 0 <= k < |later| && later[k] == i - 1;
      assert raised[k] == i;
    }
  }

  lemma {:induction false} NothingPicked<T>(all: seq<T>)
    ensures Picks([], all, [])
  {}

  /** Filtering picks exactly the elements that satisfy the condition, in order. */
  lemma {:induction false} FilterPicks<T(!new)>(p: T -> bool, s: seq<T>) returns (kept: seq<nat>)
    ensures Picks(Filter(p, s), s, kept)
    ensures forall i :: 0 <= i < |s| ==> (i in kept <==> p(s[i]))
  {
    hide Picks, PickFront;
    if s == [] {
      kept := [];
      NothingPicked(s);
    } else {
      var later := FilterPicks(p, s[1..]);
      kept := PickFront(later, p(s[0]));
      PicksFront(Filter(p, s[1..]), s[1..], later, s[0], p(s[0]));
      assert [s[0]] + s[1..] == s;
      forall i | 0 <= i < |s| ensures i in kept <==> p(s[i]) {
        PickedFront(later, p(s[0]), i);
      }
    }
  }

  /** `i` holds a first occurrence. */
  predicate IsFirst<T(==)>(s: seq<T>, i: nat)
    requires i < |s|
  {
    forall j :: 0 <= j < i ==> s[j] != s[i]
  }

  /** The distinct elements are the first occurrences, in order. */
  lemma {:induction false} DistinctPicks<T(!new)>(s: seq<T>) returns (kept: seq<nat>)
    ensures Picks(Distinct(s), s, kept)
    ensures forall i :: 0 <= i < |s| ==> (i in kept <==> IsFirst(s, i))
  {
    hide Picks, IsFirst, Distinct;
    if s == [] {
      DistinctNothing(s);
      assert s[..0] == s;
      kept := [];
      NothingPicked(s);
    } else {
      var n := |s| - 1;
      assert s[..n + 1] == s;
      kept := DistinctPicks(s[..n]);
      DistinctSnoc(s, n);
      PicksSnoc(Distinct(s[..n]), s, n, kept);
      FirstsSnoc(s, n);
      PickedInFront(Distinct(s[..n]), s[..n], kept);
      if s[n] !in Distinct(s[..n]) {
        kept := kept + [n];
      }
    }
  }

  lemma {:induction false} PicksSnoc<T>(out: seq<T>, s: seq<T>, n: nat, kept: seq<nat>)
    requires n < |s| && Picks(out, s[..n], kept)
    ensures Picks(out, s, kept) && Picks(out + [s[n]], s, kept + [n])
  {
    assert forall k :: 0 <= k < |kept| ==> s[..n][kept[k]] == s[kept[k]];
  }

  lemma {:induction false} PickedInFront<T>(out: seq<T>, s: seq<T>, kept: seq<nat>)
    requires Picks(out, s, kept)
    ensures forall i :: i in kept ==> i < |s|
  {}

  lemma {:induction false} FirstsSnoc<T>(s: seq<T>, n: nat)
    requires n < |s|
    ensures forall i :: 0 <= i < n ==> (IsFirst(s, i) <==> IsFirst(s[..n], i))
    ensures IsFirst(s, n) <==> s[n] !in s[..n]
  {}

  /** Picking from what was picked. */
  lemma {:induction false} PicksOfPicks<T>(s: seq<T>, mid: seq<T>, out: seq<T>, first: seq<nat>, second: seq<nat>)
    returns (kept: seq<nat>)
    requires Picks(mid, s, first) && Picks(out, mid, second)
    ensures Picks(out, s, kept) && |kept| == |second|
    ensures forall k :: 0 <= k < |second| ==> second[k] < |first| && kept[k] == first[second[k]]
  {
    kept := seq(|second|, k requires 0 <= k < |second| => first[second[k]]);
  }

  /** Of the distinct elements, those that satisfy the condition: their first occurrences, in order. */
  lemma {:induction false} FirstsPicked<T(!new)>(p: T -> bool, s: seq<T>) returns (kept: seq<nat>)
    ensures Picks(Filter(p, Distinct(s)), s, kept)
    ensures forall i :: 0 <= i < |s| ==> (i in kept <==> p(s[i]) && IsFirst(s, i))
  {
    hide Distinct, Filter, IsFirst;
    var first := DistinctPicks(s);
    var second := FilterPicks(p, Distinct(s));
    kept := PicksOfPicks(s, Distinct(s), Filter(p, Distinct(s)), first, second);
    forall i | 0 <= i < |s| ensures i in kept <==> p(s[i]) && IsFirst(s, i) {
      if i in kept {
        var k :| 0 <= k < |kept| && kept[k] == i;
        assert second[k] in second && first[second[k]] in first;
      }
      if p(s[i]) && IsFirst(s, i) {
        var m :| 0 <= m < |first| && first[m] == i;
        assert Distinct(s)[m] == s[i];
        var k :| 0 <= k < |second| && second[k] == m;
        assert kept[k] == i;
      }
    }
  }
}
