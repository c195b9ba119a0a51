/** Choosing the findings worth an inline comment (app/review/result_filter.py). */
module ResultFilter {
  import opened Seqs
  import opened ReviewSchema
  import OutputParser

  /** A finding with the identity of the object that carries it. */
  datatype Finding = Finding(id: nat, comment: ReviewComment)

  type Key = (string, int, string)

  function KeyOf(f: Finding): Key {
    (f.comment.filePath, f.comment.line, f.comment.title)
  }

  function Rank(s: Severity): nat {
    match s
    case Critical => 0
    case Major => 1
    case Minor => 2
    case Suggestion => 3
  }

  /** `a` sorts no later than `b`: severity first, then confidence. */
  predicate AtLeast(a: Finding, b: Finding) {
    || Rank(a.comment.severity) < Rank(b.comment.severity)
    || (a.comment.severity == b.comment.severity && a.comment.confidence >= b.comment.confidence)
  }

  /** `text.strip()` leaves something. */
  predicate HasText(text: string) {
    exists i :: 0 <= i < |text| && !OutputParser.IsSpace(text[i])
  }

  datatype Settings = Settings(minConfidence: real, maxComments: nat, maxPerFile: nat, requireEvidence: bool)

  predicate Eligible(f: Finding, s: Settings) {
    && (f.comment.severity == Critical || f.comment.severity == Major)
    && f.comment.confidence >= s.minConfidence
    && (s.requireEvidence ==> exists i :: 0 <= i < |f.comment.evidence| && HasText(f.comment.evidence[i]))
  }

  // ---------- the stable sort ----------

  predicate IsSorted(fs: seq<Finding>) {
    forall i, j :: 0 <= i < j < |fs| ==> AtLeast(fs[i], fs[j])
  }

  function Insert(f: Finding, sorted: seq<Finding>): seq<Finding> {
    if sorted == [] || AtLeast(f, sorted[0]) then [f] + sorted
    else [sorted[0]] + Insert(f, sorted[1..])
  }

  /** Python's `sorted`, as far as it is visible: ordered, and stable. */
  function Sort(fs: seq<Finding>): seq<Finding> {
    if fs == [] then [] else Insert(fs[0], Sort(fs[1..]))
  }

  lemma {:induction false} InsertKeeps(f: Finding, sorted: seq<Finding>)
    requires IsSorted(sorted)
    ensures IsSorted(Insert(f, sorted))
    ensures multiset(Insert(f, sorted)) == multiset{f} + multiset(sorted)
  {
    hide AtLeast;
    if sorted != [] && !AtLeast(f, sorted[0]) {
      NotLater(f, sorted[0]);
      InsertKeeps(f, sorted[1..]);
      assert sorted == [sorted[0]] + sorted[1..];
      var rest := Insert(f, sorted[1..]);
      assert multiset(rest) == multiset{f} + multiset(sorted[1..]);
      forall j | 0 <= j < |rest| ensures AtLeast(sorted[0], rest[j]) {
        assert rest[j] in multiset(rest);
        assert rest[j] == f || rest[j] in sorted[1..];
      }
    } else if sorted != [] {
      forall j | 0 <= j < |sorted| ensures AtLeast(f, sorted[j]) {
        if j > 0 {
          AtLeastTransitive(f, sorted[0], sorted[j]);
        }
      }
    }
  }

  lemma {:induction false} NotLater(a: Finding, b: Finding)
    requires !AtLeast(a, b)
    ensures AtLeast(b, a)
  {}

  lemma {:induction false} AtLeastTransitive(a: Finding, b: Finding, c: Finding)
    requires AtLeast(a, b) && AtLeast(b, c)
    ensures AtLeast(a, c)
  {}

  lemma {:induction false} SortKeeps(fs: seq<Finding>)
    ensures IsSorted(Sort(fs)) && multiset(Sort(fs)) == multiset(fs)
  {
    if fs != [] {
      SortKeeps(fs[1..]);
      InsertKeeps(fs[0], Sort(fs[1..]));
      assert fs == [fs[0]] + fs[1..];
    }
  }

  predicate SamePlace(f: Finding, like: Finding) {
    AtLeast(f, like) && AtLeast(like, f)
  }

  /** The findings with the severity and confidence of `like`. */
  function Alike(fs: seq<Finding>, like: Finding): seq<Finding> {
    if fs == [] then [] else (if SamePlace(fs[0], like) then [fs[0]] else []) + Alike(fs[1..], like)
  }

  /** Findings of equal severity and confidence keep their order. */
  lemma {:induction false} SortIsStable(fs: seq<Finding>, like: Finding)
    ensures Alike(Sort(fs), like) == Alike(fs, like)
  {
    if fs != [] {
      SortIsStable(fs[1..], like);
      InsertIsStable(fs[0], Sort(fs[1..]), like);
    }
  }

  lemma {:induction false} InsertIsStable(f: Finding, sorted: seq<Finding>, like: Finding)
    ensures Alike(Insert(f, sorted), like) == (if SamePlace(f, like) then [f] else []) + Alike(sorted, like)
  {
    hide AtLeast, SamePlace;
    if sorted == [] || AtLeast(f, sorted[0]) {
      assert ([f] + sorted)[1..] == sorted;
    } else {
      InsertIsStable(f, sorted[1..], like);
      assert ([sorted[0]] + Insert(f, sorted[1..]))[1..] == Insert(f, sorted[1..]);
      OneOfThem(f, sorted[0], like);
    }
  }

  lemma {:induction false} OneOfThem(f: Finding, g: Finding, like: Finding)
    requires !AtLeast(f, g)
    ensures !SamePlace(f, like) || !SamePlace(g, like)
  {}

  // ---------- deduplication and caps ----------

  /** First occurrences by key, given the keys already seen. */
  function FirstByKey(fs: seq<Finding>, seen: set<Key>): seq<Finding> {
    if fs == [] then []
    else if KeyOf(fs[0]) in seen then FirstByKey(fs[1..], seen)
    else [fs[0]] + FirstByKey(fs[1..], seen + {KeyOf(fs[0])})
  }

  function InFile(fs: seq<Finding>, path: string): nat {
    if fs == [] then 0 else
    InFile(fs[..|fs| - 1], path) + if fs[|fs| - 1].comment.filePath == path then 1 else 0
  }

  /** `kept`, continued with what the caps still admit of `fs`. */
  function Capped(fs: seq<Finding>, kept: seq<Finding>, s: Settings): seq<Finding> {
    if fs == [] || |kept| >= s.maxComments then kept
    else if InFile(kept, fs[0].comment.filePath) >= s.maxPerFile then Capped(fs[1..], kept, s)
    else Capped(fs[1..], kept + [fs[0]], s)
  }

  function Filtered(reviews: seq<Finding>, s: Settings): seq<Finding> {
    Capped(FirstByKey(Sort(Filter((f: Finding) => Eligible(f, s), reviews)), {}), [], s)
  }

  method FilterReviews(reviews: seq<Finding>, s: Settings) returns (result: seq<Finding>)
    ensures result == Filtered(reviews, s)
  {
    hide Sort, Eligible, Filter;
    var sortedKept := Sort(Filter((f: Finding) => Eligible(f, s), reviews));
    var seen: set<Key>, deduped: seq<Finding> := {}, [];
    assert sortedKept[0..] == sortedKept;
    for i := 0 to |sortedKept|
      invariant FirstByKey(sortedKept, {}) == deduped + FirstByKey(sortedKept[i..], seen)
    {
      assert sortedKept[i..][0] == sortedKept[i] && sortedKept[i..][1..] == sortedKept[i + 1..];
      var key := KeyOf(sortedKept[i]);
      if key !in seen {
        Assoc(deduped, [sortedKept[i]], FirstByKey(sortedKept[i + 1..], seen + {key}));
        seen := seen + {key};
        deduped := deduped + [sortedKept[i]];
      }
    }
    assert deduped == FirstByKey(sortedKept, {});
    result := CapPerFile(deduped, s);
  }

  method CapPerFile(deduped: seq<Finding>, s: Settings) returns (result: seq<Finding>)
    ensures result == Capped(deduped, [], s)
  {
    var perFile: map<string, nat> := map[];
    result := [];
    var i := 0;
    assert deduped[0..] == deduped;
    while i < |deduped|
      invariant 0 <= i <= |deduped|
      invariant Capped(deduped, [], s) == Capped(deduped[i..], result, s)
      invariant forall path :: InFile(result, path) == if path in perFile then perFile[path] else 0
    {
      if |result| >= s.maxComments {
        break;
      }
      var r := deduped[i];
      assert deduped[i..][0] == r && deduped[i..][1..] == deduped[i + 1..];
      var path := r.comment.filePath;
      var used := if path in perFile then perFile[path] else 0;
      if used < s.maxPerFile {
        assert (result + [r])[..|result|] == result;
        perFile := perFile[path := used + 1];
        result := result + [r];
      }
      i := i + 1;
    }
  }

  // ---------- the shape of the result ----------

  predicate DistinctKeys(fs: seq<Finding>) {
    forall i, j :: 0 <= i < j < |fs| ==> KeyOf(fs[i]) != KeyOf(fs[j])
  }

  lemma {:induction false} SortedTail(fs: seq<Finding>)
    requires fs != [] && IsSorted(fs)
    ensures IsSorted(fs[1..]) && forall f :: f in fs[1..] ==> AtLeast(fs[0], f)
  {
    hide AtLeast;
  }

  lemma {:induction false} SortedCons(f: Finding, fs: seq<Finding>)
    requires IsSorted(fs) && forall g :: g in fs ==> AtLeast(f, g)
    ensures IsSorted([f] + fs)
  {
    hide AtLeast;
  }

  lemma {:induction false} FirstByKeyShape(fs: seq<Finding>, seen: set<Key>)
    requires IsSorted(fs)
    ensures var r := FirstByKey(fs, seen);
      && IsSorted(r) && DistinctKeys(r)
      && forall f :: f in r ==> f in fs && KeyOf(f) !in seen
  {
    hide AtLeast, IsSorted;
    if fs == [] {
      NothingSorted();
    } else {
      SortedTail(fs);
      if KeyOf(fs[0]) in seen {
        FirstByKeyShape(fs[1..], seen);
      } else {
        var rest := FirstByKey(fs[1..], seen + {KeyOf(fs[0])});
        FirstByKeyShape(fs[1..], seen + {KeyOf(fs[0])});
        SortedCons(fs[0], rest);
      }
    }
  }

  lemma {:induction false} NothingSorted()
    ensures IsSorted([])
  {}

  /** Every finding has a first one with its key, which is at least as good. */
  lemma {:induction false} FirstByKeyDominates(fs: seq<Finding>, seen: set<Key>, r: Finding) returns (d: Finding)
    requires IsSorted(fs) && r in fs && KeyOf(r) !in seen
    ensures d in FirstByKey(fs, seen) && KeyOf(d) == KeyOf(r) && AtLeast(d, r)
  {
    hide IsSorted;
    SortedTail(fs);
    if KeyOf(fs[0]) == KeyOf(r) {
      d := fs[0];
    } else if KeyOf(fs[0]) in seen {
      d := FirstByKeyDominates(fs[1..], seen, r);
    } else {
      d := FirstByKeyDominates(fs[1..], seen + {KeyOf(fs[0])}, r);
    }
  }

  lemma {:induction false} KeepOne(kept: seq<Finding>, fs: seq<Finding>)
    requires fs != [] && IsSorted(kept + fs) && DistinctKeys(kept + fs)
    ensures IsSorted((kept + [fs[0]]) + fs[1..]) && DistinctKeys((kept + [fs[0]]) + fs[1..])
    ensures IsSorted(kept + fs[1..]) && DistinctKeys(kept + fs[1..])
    ensures IsSorted(kept) && DistinctKeys(kept)
  {
    hide AtLeast;
    assert (kept + [fs[0]]) + fs[1..] == kept + fs;
    assert forall i :: 0 <= i < |kept| ==> (kept + fs)[i] == kept[i] && (kept + fs[1..])[i] == kept[i];
    assert forall i :: |kept| <= i < |kept + fs[1..]| ==> (kept + fs[1..])[i] == (kept + fs)[i + 1];
  }

  lemma {:induction false} InFileSnoc(kept: seq<Finding>, f: Finding, path: string)
    ensures InFile(kept + [f], path) == InFile(kept, path) + if f.comment.filePath == path then 1 else 0
  {
    assert (kept + [f])[..|kept|] == kept;
  }

  lemma {:induction false} CappedShape(fs: seq<Finding>, kept: seq<Finding>, s: Settings)
    requires IsSorted(kept + fs) && DistinctKeys(kept + fs) && |kept| <= s.maxComments
    requires forall path :: InFile(kept, path) <= s.maxPerFile
    ensures var r := Capped(fs, kept, s);
      && IsSorted(r) && DistinctKeys(r) && |r| <= s.maxComments && kept <= r
      && (forall path :: InFile(r, path) <= s.maxPerFile)
      && forall f :: f in r ==> f in kept || f in fs
    decreases |fs|
  {
    hide IsSorted, DistinctKeys, InFile;
    if fs == [] {
      assert kept + fs == kept;
    } else {
      KeepOne(kept, fs);
      if |kept| < s.maxComments {
        if InFile(kept, fs[0].comment.filePath) >= s.maxPerFile {
          CappedShape(fs[1..], kept, s);
        } else {
          forall path ensures InFile(kept + [fs[0]], path) <= s.maxPerFile {
            InFileSnoc(kept, fs[0], path);
          }
          CappedShape(fs[1..], kept + [fs[0]], s);
        }
      }
    }
  }

  /** Sorted, distinct, within both caps, and every kept finding is an eligible one of the input. */
  lemma {:induction false} FilteredShape(reviews: seq<Finding>, s: Settings)
    ensures var r := Filtered(reviews, s);
      && IsSorted(r) && DistinctKeys(r) && |r| <= s.maxComments
      && (forall path :: InFile(r, path) <= s.maxPerFile)
      && forall f :: f in r ==> f in reviews && Eligible(f, s)
  {
    hide Eligible, IsSorted, DistinctKeys;
    var eligible := Filter((f: Finding) => Eligible(f, s), reviews);
    SortKeeps(eligible);
    FirstByKeyShape(Sort(eligible), {});
    var deduped := FirstByKey(Sort(eligible), {});
    assert [] + deduped == deduped;
    CappedShape(deduped, [], s);
    forall f | f in Filtered(reviews, s) ensures f in reviews && Eligible(f, s) {
      assert f in multiset(Sort(eligible));
    }
  }

  // ---------- justified exclusion ----------

  /** How many of the findings are equal to or better than `r`. */
  function Better(fs: seq<Finding>, r: Finding): nat {
    if fs == [] then 0 else
    Better(fs[..|fs| - 1], r) + if AtLeast(fs[|fs| - 1], r) then 1 else 0
  }

  function BetterInFile(fs: seq<Finding>, r: Finding): nat {
    if fs == [] then 0 else
    BetterInFile(fs[..|fs| - 1], r)
      + if AtLeast(fs[|fs| - 1], r) && fs[|fs| - 1].comment.filePath == r.comment.filePath then 1 else 0
  }

  lemma {:induction false} BetterGrows(kept: seq<Finding>, r: seq<Finding>, d: Finding)
    requires kept <= r
    ensures Better(kept, d) <= Better(r, d) && BetterInFile(kept, d) <= BetterInFile(r, d)
  {
    if |kept| < |r| {
      BetterGrows(kept, r[..|r| - 1], d);
    } else {
      assert kept == r;
    }
  }

  lemma {:induction false} AllBetter(kept: seq<Finding>, d: Finding)
    requires forall i :: 0 <= i < |kept| ==> AtLeast(kept[i], d)
    ensures Better(kept, d) == |kept| && BetterInFile(kept, d) == InFile(kept, d.comment.filePath)
  {
    hide AtLeast;
    if kept != [] {
      AllBetter(kept[..|kept| - 1], d);
    }
  }

  /** What is no better than `d` is dominated by whatever dominates `d`. */
  lemma {:induction false} BetterThanWorse(fs: seq<Finding>, d: Finding, r: Finding)
    requires AtLeast(d, r) && d.comment.filePath == r.comment.filePath
    ensures Better(fs, d) <= Better(fs, r) && BetterInFile(fs, d) <= BetterInFile(fs, r)
  {
    hide AtLeast;
    if fs != [] {
      BetterThanWorse(fs[..|fs| - 1], d, r);
      if AtLeast(fs[|fs| - 1], d) {
        AtLeastTransitive(fs[|fs| - 1], d, r);
      }
    }
  }

  lemma {:induction false} KeptAreBetter(kept: seq<Finding>, fs: seq<Finding>, d: Finding)
    requires IsSorted(kept + fs) && d in fs
    ensures forall i :: 0 <= i < |kept| ==> AtLeast(kept[i], d)
  {
    hide AtLeast;
    var j :| 0 <= j < |fs| && fs[j] == d;
    forall i | 0 <= i < |kept| ensures AtLeast(kept[i], d) {
      assert (kept + fs)[i] == kept[i] && (kept + fs)[|kept| + j] == d;
    }
  }

  lemma {:induction false} CapExcludes(fs: seq<Finding>, kept: seq<Finding>, s: Settings, d: Finding)
    requires IsSorted(kept + fs) && DistinctKeys(kept + fs)
    requires d in fs && d !in Capped(fs, kept, s)
    ensures kept <= Capped(fs, kept, s)
    ensures Better(Capped(fs, kept, s), d) >= s.maxComments
         || BetterInFile(Capped(fs, kept, s), d) >= s.maxPerFile
    decreases |fs|
  {
    hide AtLeast, IsSorted, DistinctKeys, Better, BetterInFile, InFile;
    KeptAreBetter(kept, fs, d);
    AllBetter(kept, d);
    KeepOne(kept, fs);
    CappedExtends(fs, kept, s);
    BetterGrows(kept, Capped(fs, kept, s), d);
    if |kept| < s.maxComments {
      if InFile(kept, fs[0].comment.filePath) >= s.maxPerFile {
        if fs[0] != d {
          CapExcludes(fs[1..], kept, s, d);
        }
      } else {
        CappedExtends(fs[1..], kept + [fs[0]], s);
        assert fs[0] in kept + [fs[0]];
        CapExcludes(fs[1..], kept + [fs[0]], s, d);
      }
    }
  }

  lemma {:induction false} CappedExtends(fs: seq<Finding>, kept: seq<Finding>, s: Settings)
    ensures kept <= Capped(fs, kept, s)
    decreases |fs|
  {
    if fs != [] && |kept| < s.maxComments {
      CappedExtends(fs[1..], kept, s);
      CappedExtends(fs[1..], kept + [fs[0]], s);
    }
  }

  /**
   Justified exclusion: an eligible finding that is left out is dominated by an equal-or-better kept
   one with its key, by a full file of them, or by a full result of them.
   */
  lemma {:induction false} ExclusionIsJustified(reviews: seq<Finding>, s: Settings, r: Finding)
    requires r in reviews && Eligible(r, s) && r !in Filtered(reviews, s)
    ensures var kept := Filtered(reviews, s);
      || (exists k :: k in kept && KeyOf(k) == KeyOf(r) && AtLeast(k, r))
      || BetterInFile(kept, r) >= s.maxPerFile
      || Better(kept, r) >= s.maxComments
  {
    hide Eligible, AtLeast, IsSorted, DistinctKeys, Better, BetterInFile, Capped, FirstByKey, Sort;
    var eligible := Filter((f: Finding) => Eligible(f, s), reviews);
    SortKeeps(eligible);
    assert r in multiset(Sort(eligible));
    FirstByKeyShape(Sort(eligible), {});
    var d := FirstByKeyDominates(Sort(eligible), {}, r);
    var deduped := FirstByKey(Sort(eligible), {});
    assert [] + deduped == deduped;
    if d !in Filtered(reviews, s) {
      CapExcludes(deduped, [], s, d);
      BetterThanWorse(Filtered(reviews, s), d, r);
    }
  }
}
