/**
 What the filter shows and leaves out (app/review/result_filter.py), said of severities, confidences and
 places themselves.
 */
module FilterLaws {
  import opened Wrappers
  import opened Seqs
  import opened ReviewSchema
  import opened ResultFilter
  import OutputParser

  /** Critical findings come first, and of two findings of one severity the more confident one does. */
  lemma {:induction false} ShownInOrder(reviews: seq<Finding>, s: Settings, i: nat, j: nat)
    requires i < j < |Filtered(reviews, s)|
    ensures var a, b := Filtered(reviews, s)[i].comment, Filtered(reviews, s)[j].comment;
      && (b.severity == Critical ==> a.severity == Critical)
      && (a.severity == b.severity ==> a.confidence >= b.confidence)
  {
    hide Filtered, Eligible, DistinctKeys;
    FilteredShape(reviews, s);
    var r := Filtered(reviews, s);
    assert AtLeast(r[i], r[j]);
  }

  /** Sorting puts critical before major, minor and suggestion, and so on, and the more confident first. */
  lemma {:induction false} SortedInOrder(fs: seq<Finding>, i: nat, j: nat)
    requires i < j < |Sort(fs)|
    ensures var a, b := Sort(fs)[i].comment, Sort(fs)[j].comment;
      && (b.severity == Critical ==> a.severity == Critical)
      && (b.severity == Major ==> a.severity == Critical || a.severity == Major)
      && (a.severity == Suggestion ==> b.severity == Suggestion)
      && (a.severity == b.severity ==> a.confidence >= b.confidence)
  {
    hide Sort;
    SortKeeps(fs);
    assert AtLeast(Sort(fs)[i], Sort(fs)[j]);
  }

  /** Whatever is shown is critical or major, confident enough, and has evidence with text, if that is asked for. */
  lemma {:induction false} ShownIsEligible(reviews: seq<Finding>, s: Settings, f: Finding)
    requires f in Filtered(reviews, s)
    ensures f in reviews && (f.comment.severity == Critical || f.comment.severity == Major)
    ensures f.comment.confidence >= s.minConfidence
    ensures s.requireEvidence ==>
      exists i, k :: 0 <= i < |f.comment.evidence| && 0 <= k < |f.comment.evidence[i]|
        && !OutputParser.IsSpace(f.comment.evidence[i][k])
  {
    hide Filtered, IsSorted, DistinctKeys;
    FilteredShape(reviews, s);
  }

  // ---------- counting ----------

  /** The places of the findings of a file. */
  function PlacesInFile(fs: seq<Finding>, path: string): set<nat> {
    set i: nat | i < |fs| && fs[i].comment.filePath == path
  }

  lemma {:induction false} InFileCounts(fs: seq<Finding>, path: string)
    ensures InFile(fs, path) == |PlacesInFile(fs, path)|
  {
    if fs == [] {
      assert PlacesInFile(fs, path) == {};
    } else {
      var k := |fs| - 1;
      InFileCounts(fs[..k], path);
      assert PlacesInFile(fs, path)
        == PlacesInFile(fs[..k], path) + if fs[k].comment.filePath == path then {k} else {};
    }
  }

  /** No more than the maximum in all and in one file; no two findings with the same file, line and title. */
  lemma {:induction false} ShownWithinCaps(reviews: seq<Finding>, s: Settings, path: string)
    ensures var r := Filtered(reviews, s);
      && |r| <= s.maxComments
      && |(set i: nat | i < |r| && r[i].comment.filePath == path)| <= s.maxPerFile
      && (forall i, j :: 0 <= i < j < |r| ==>
            r[i].comment.filePath != r[j].comment.filePath || r[i].comment.line != r[j].comment.line
            || r[i].comment.title != r[j].comment.title)
  {
    hide Filtered, IsSorted, Eligible;
    FilteredShape(reviews, s);
    var r := Filtered(reviews, s);
    InFileCounts(r, path);
    assert (set i: nat | i < |r| && r[i].comment.filePath == path) == PlacesInFile(r, path);
    forall i, j | 0 <= i < j < |r|
      ensures r[i].comment.filePath != r[j].comment.filePath || r[i].comment.line != r[j].comment.line
        || r[i].comment.title != r[j].comment.title
    {
      assert KeyOf(r[i]) != KeyOf(r[j]);
    }
  }

  lemma {:induction false} NoWorseIff(k: Finding, f: Finding)
    requires k.comment.severity == Critical || k.comment.severity == Major
    requires f.comment.severity == Critical || f.comment.severity == Major
    ensures AtLeast(k, f) <==>
      || (k.comment.severity == f.comment.severity && k.comment.confidence >= f.comment.confidence)
      || (k.comment.severity == Critical && f.comment.severity == Major)
  {}

  function BetterPlaces(fs: seq<Finding>, f: Finding): set<nat> {
    set i: nat | i < |fs| && AtLeast(fs[i], f)
  }

  function BetterPlacesInFile(fs: seq<Finding>, f: Finding): set<nat> {
    set i: nat | i < |fs| && AtLeast(fs[i], f) && fs[i].comment.filePath == f.comment.filePath
  }

  lemma {:induction false} BetterCount(fs: seq<Finding>, f: Finding)
    ensures Better(fs, f) == |BetterPlaces(fs, f)|
  {
    hide AtLeast;
    if fs == [] {
      assert BetterPlaces(fs, f) == {};
    } else {
      var k := |fs| - 1;
      var front := BetterPlaces(fs[..k], f);
      BetterCount(fs[..k], f);
      assert k !in front;
      assert BetterPlaces(fs, f) == front + if AtLeast(fs[k], f) then {k} else {};
    }
  }

  lemma {:induction false} BetterInFileCount(fs: seq<Finding>, f: Finding)
    ensures BetterInFile(fs, f) == |BetterPlacesInFile(fs, f)|
  {
    hide AtLeast;
    if fs == [] {
      assert BetterPlacesInFile(fs, f) == {};
    } else {
      var k := |fs| - 1;
      var front := BetterPlacesInFile(fs[..k], f);
      BetterInFileCount(fs[..k], f);
      assert k !in front;
      assert BetterPlacesInFile(fs, f)
        == front + if AtLeast(fs[k], f) && fs[k].comment.filePath == f.comment.filePath then {k} else {};
    }
  }

  lemma {:induction false} BetterCounts(fs: seq<Finding>, f: Finding)
    ensures Better(fs, f) == |BetterPlaces(fs, f)| && BetterInFile(fs, f) == |BetterPlacesInFile(fs, f)|
  {
    BetterCount(fs, f);
    BetterInFileCount(fs, f);
  }

  /**
   A critical finding that meets the conditions is left out only for a shown critical one with its file,
   line and title and at least its confidence, for a full file of shown critical ones at least as
   confident, or for a full result of such.
   */
  lemma {:induction false} CriticalLeftOut(reviews: seq<Finding>, s: Settings, f: Finding)
    requires f in reviews && f !in Filtered(reviews, s) && f.comment.severity == Critical
    requires f.comment.confidence >= s.minConfidence
    requires s.requireEvidence ==>
      exists i, k :: 0 <= i < |f.comment.evidence| && 0 <= k < |f.comment.evidence[i]|
        && !OutputParser.IsSpace(f.comment.evidence[i][k])
    ensures var r := Filtered(reviews, s);
      || (exists k :: 0 <= k < |r|
            && r[k].comment.severity == Critical && r[k].comment.confidence >= f.comment.confidence
            && r[k].comment.filePath == f.comment.filePath && r[k].comment.line == f.comment.line
            && r[k].comment.title == f.comment.title)
      || |(set k: nat | k < |r| && r[k].comment.severity == Critical && r[k].comment.confidence >= f.comment.confidence
                     && r[k].comment.filePath == f.comment.filePath)| >= s.maxPerFile
      || |(set k: nat | k < |r| && r[k].comment.severity == Critical
                     && r[k].comment.confidence >= f.comment.confidence)| >= s.maxComments
  {
    hide Filtered, IsSorted, DistinctKeys, AtLeast;
    var r := Filtered(reviews, s);
    IsEligible(f, s);
    ExclusionIsJustified(reviews, s, f);
    FilteredShape(reviews, s);
    BetterCounts(r, f);
    forall k | 0 <= k < |r|
      ensures AtLeast(r[k], f) <==> r[k].comment.severity == Critical && r[k].comment.confidence >= f.comment.confidence
    {
      assert r[k] in r;
      ShownIsEligible(reviews, s, r[k]);
      NoWorseIff(r[k], f);
    }
    assert BetterPlaces(r, f) == set k: nat |
      k < |r| && r[k].comment.severity == Critical && r[k].comment.confidence >= f.comment.confidence;
    assert BetterPlacesInFile(r, f) == set k: nat |
      k < |r| && r[k].comment.severity == Critical && r[k].comment.confidence >= f.comment.confidence
      && r[k].comment.filePath == f.comment.filePath;
    if exists k :: k in r && KeyOf(k) == KeyOf(f) && AtLeast(k, f) {
      var g :| g in r && KeyOf(g) == KeyOf(f) && AtLeast(g, f);
      var k :| 0 <= k < |r| && r[k] == g;
      assert r[k].comment.filePath == f.comment.filePath;
    }
  }

  lemma {:induction false} IsEligible(f: Finding, s: Settings)
    requires f.comment.severity == Critical || f.comment.severity == Major
    requires f.comment.confidence >= s.minConfidence
    requires s.requireEvidence ==>
      exists i, k :: 0 <= i < |f.comment.evidence| && 0 <= k < |f.comment.evidence[i]|
        && !OutputParser.IsSpace(f.comment.evidence[i][k])
    ensures Eligible(f, s)
  {
    if s.requireEvidence {
      var i, k :| 0 <= i < |f.comment.evidence| && 0 <= k < |f.comment.evidence[i]|
        && !OutputParser.IsSpace(f.comment.evidence[i][k]);
      assert HasText(f.comment.evidence[i]);
    }
  }

  /** The same for a major finding: critical ones count as better, whatever their confidence. */
  lemma {:induction false} MajorLeftOut(reviews: seq<Finding>, s: Settings, f: Finding)
    requires f in reviews && f !in Filtered(reviews, s) && f.comment.severity == Major
    requires f.comment.confidence >= s.minConfidence
    requires s.requireEvidence ==>
      exists i, k :: 0 <= i < |f.comment.evidence| && 0 <= k < |f.comment.evidence[i]|
        && !OutputParser.IsSpace(f.comment.evidence[i][k])
    ensures var r := Filtered(reviews, s);
      || (exists k :: 0 <= k < |r|
            && (r[k].comment.severity == Critical || r[k].comment.confidence >= f.comment.confidence)
            && r[k].comment.filePath == f.comment.filePath && r[k].comment.line == f.comment.line
            && r[k].comment.title == f.comment.title)
      || |(set k: nat | k < |r| && (r[k].comment.severity == Critical
                     || r[k].comment.confidence >= f.comment.confidence)
                     && r[k].comment.filePath == f.comment.filePath)| >= s.maxPerFile
      || |(set k: nat | k < |r| && (r[k].comment.severity == Critical
                     || r[k].comment.confidence >= f.comment.confidence))| >= s.maxComments
  {
    hide Filtered, IsSorted, DistinctKeys, AtLeast;
    var r := Filtered(reviews, s);
    IsEligible(f, s);
    ExclusionIsJustified(reviews, s, f);
    FilteredShape(reviews, s);
    BetterCounts(r, f);
    forall k | 0 <= k < |r|
      ensures AtLeast(r[k], f) <==> r[k].comment.severity == Critical || r[k].comment.confidence >= f.comment.confidence
    {
      assert r[k] in r;
      ShownIsEligible(reviews, s, r[k]);
      NoWorseIff(r[k], f);
    }
    assert BetterPlaces(r, f) == set k: nat |
      k < |r| && (r[k].comment.severity == Critical || r[k].comment.confidence >= f.comment.confidence);
    assert BetterPlacesInFile(r, f) == set k: nat |
      k < |r| && (r[k].comment.severity == Critical || r[k].comment.confidence >= f.comment.confidence)
      && r[k].comment.filePath == f.comment.filePath;
    if exists k :: k in r && KeyOf(k) == KeyOf(f) && AtLeast(k, f) {
      var g :| g in r && KeyOf(g) == KeyOf(f) && AtLeast(g, f);
      var k :| 0 <= k < |r| && r[k] == g;
      assert r[k].comment.filePath == f.comment.filePath;
    }
  }

  // ---------- stability ----------

  lemma {:induction false} SamePlaceIff(f: Finding, like: Finding)
    ensures SamePlace(f, like)
      <==> f.comment.severity == like.comment.severity && f.comment.confidence == like.comment.confidence
  {}

  lemma {:induction false} AlikeIs(fs: seq<Finding>, like: Finding)
    ensures Alike(fs, like) == Filter((f: Finding) =>
      f.comment.severity == like.comment.severity && f.comment.confidence == like.comment.confidence, fs)
  {
    hide SamePlace;
    if fs != [] {
      SamePlaceIff(fs[0], like);
      AlikeIs(fs[1..], like);
    }
  }

  /** Findings of one severity and confidence come out of the sorting in the order in which they go in. */
  lemma {:induction false} EqualsKeepOrder(fs: seq<Finding>, severity: Severity, confidence: real)
    ensures Filter((f: Finding) => f.comment.severity == severity && f.comment.confidence == confidence, Sort(fs))
         == Filter((f: Finding) => f.comment.severity == severity && f.comment.confidence == confidence, fs)
  {
    hide Sort, Filter, Alike;
    var like := Finding(0, ReviewComment(severity, confidence, "", 0, "", "", [], None));
    SortIsStable(fs, like);
    AlikeIs(fs, like);
    AlikeIs(Sort(fs), like);
    LikeFilter(fs, like);
    LikeFilter(Sort(fs), like);
  }

  lemma {:induction false} LikeFilter(fs: seq<Finding>, like: Finding)
    ensures var severity, confidence := like.comment.severity, like.comment.confidence;
      Filter((f: Finding) =>
        f.comment.severity == like.comment.severity && f.comment.confidence == like.comment.confidence, fs)
      == Filter((f: Finding) => f.comment.severity == severity && f.comment.confidence == confidence, fs)
  {
    if fs != [] {
      LikeFilter(fs[1..], like);
    }
  }
}
