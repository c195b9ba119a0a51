/**
 Splitting and whole patches (app/review/diff.py, app/review/diff_lines.py): which new-file lines a
 patch shows, and which of them its pieces show.
 */
module PatchMeaning {
  import opened Wrappers
  import opened Seqs
  import opened DiffLines
  import opened HunkSplit
  import opened SplitMeaning

  /** The number of the next new-file line behind the lines, once known. */
  function NumberAfter(lines: seq<Line>, next: Option<nat>): Option<nat> {
    if lines == [] then next else
    var line, header := lines[0], ParseHeader(lines[0]);
    NumberAfter(lines[1..],
      if header.Some? then Some(header.value.newStart)
      else if next.None? || !CountsAsNewFileLine(line) then next else Some(next.value + 1))
  }

  lemma {:induction false} NumberBehind(lines: seq<Line>, hunk: Hunk, next: Option<nat>)
    requires NoHunkStart(hunk.body)
    ensures NumberAfter(lines + hunk.Lines(), next).Some? <==>
      NumberAfter(lines, next).Some? || ParseHeader(hunk.first).Some?
    ensures Visible(lines + hunk.Lines(), next)
      == Visible(lines, next) + Visible(hunk.Lines(), NumberAfter(lines, next))
  {
    hide ParseHeader, CountsAsNewFileLine;
    if lines == [] {
      assert lines + hunk.Lines() == hunk.Lines();
      assert hunk.Lines()[0] == hunk.first && hunk.Lines()[1..] == hunk.body;
      KnownStaysKnown(hunk.body, if ParseHeader(hunk.first).Some? then Some(ParseHeader(hunk.first).value.newStart)
        else if next.None? || !CountsAsNewFileLine(hunk.first) then next else Some(next.value + 1));
    } else {
      var line := lines[0];
      assert (lines + hunk.Lines())[0] == line && (lines + hunk.Lines())[1..] == lines[1..] + hunk.Lines();
      var header := ParseHeader(line);
      NumberBehind(lines[1..], hunk,
        if header.Some? then Some(header.value.newStart)
        else if next.None? || !CountsAsNewFileLine(line) then next else Some(next.value + 1));
    }
  }

  lemma {:induction false} KnownStaysKnown(body: seq<Line>, next: Option<nat>)
    requires NoHunkStart(body)
    ensures NumberAfter(body, next).Some? <==> next.Some?
    ensures next.None? ==> Visible(body, next) == {}
  {
    hide ParseHeader, NoHunkStart, CountsAsNewFileLine;
    if body != [] {
      NoHeaderAhead(body);
      KnownStaysKnown(body[1..], if next.None? || !CountsAsNewFileLine(body[0]) then next else Some(next.value + 1));
    }
  }

  /** What the patch shows of hunks whose `@@` line is no header: their lines are numbered on from the hunk before. */
  function Stray(hunks: seq<Hunk>): set<nat> {
    if hunks == [] then {} else
    var front, last := hunks[..|hunks| - 1], hunks[|hunks| - 1];
    Stray(front)
      + if ParseHeader(last.first).None? then Visible(last.Lines(), NumberAfter(AllLines(front), None)) else {}
  }

  lemma {:induction false} VisibleOfHunks(hunks: seq<Hunk>)
    requires forall h :: h in hunks ==> IsHunk(h)
    ensures Visible(AllLines(hunks), None) == VisibleIn(hunks) + Stray(hunks)
  {
    hide ParseHeader, IsHunk;
    if hunks != [] {
      var front, last := hunks[..|hunks| - 1], hunks[|hunks| - 1];
      assert last in hunks;
      VisibleOfHunks(front);
      OneHunkMore(AllLines(front), last);
    }
  }

  lemma {:induction false} OneHunkMore(lines: seq<Line>, hunk: Hunk)
    requires IsHunk(hunk)
    ensures Visible(lines + hunk.Lines(), None)
      == Visible(lines, None) + Visible(hunk.Lines(), NumberAfter(lines, None))
    ensures if ParseHeader(hunk.first).Some?
      then Visible(hunk.Lines(), NumberAfter(lines, None)) == Visible(hunk.Lines(), None)
      else Visible(hunk.Lines(), None) == {}
  {
    hide ParseHeader, CountsAsNewFileLine;
    NumberBehind(lines, hunk, None);
    assert hunk.Lines()[0] == hunk.first && hunk.Lines()[1..] == hunk.body;
    KnownStaysKnown(hunk.body, None);
  }

  /** Nothing strays exactly when no `@@` line that is no header stands behind one that is. */
  lemma {:induction false} StrayIff(hunks: seq<Hunk>)
    requires forall h :: h in hunks ==> IsHunk(h)
    ensures Stray(hunks) == {} <==>
      forall i, j :: 0 <= i < j < |hunks| && ParseHeader(hunks[i].first).Some? ==> ParseHeader(hunks[j].first).Some?
    ensures NumberAfter(AllLines(hunks), None).Some?
      <==> exists i :: 0 <= i < |hunks| && ParseHeader(hunks[i].first).Some?
  {
    hide ParseHeader;
    if hunks != [] {
      var k := |hunks| - 1;
      var front, last := hunks[..k], hunks[k];
      assert last in hunks;
      StrayIff(front);
      assert forall i :: 0 <= i < k ==> front[i] == hunks[i];
      NumberBehind(AllLines(front), last, None);
      if ParseHeader(last.first).None? {
        StrayLine(last, NumberAfter(AllLines(front), None));
      }
    }
  }

  /** An `@@` line that is no header counts as a line of the file where numbers are known. */
  lemma {:induction false} StrayLine(hunk: Hunk, next: Option<nat>)
    requires IsHunk(hunk) && ParseHeader(hunk.first).None?
    ensures Visible(hunk.Lines(), next) == {} <==> next.None?
    ensures next.Some? ==> next.value in Visible(hunk.Lines(), next)
  {
    hide ParseHeader;
    assert hunk.Lines()[0] == hunk.first && hunk.Lines()[1..] == hunk.body;
    KnownStaysKnown(hunk.body, None);
    assert CountsAsNewFileLine(hunk.first);
  }

  lemma {:induction false} VisibleFromFirstHunk(patch: seq<Line>)
    ensures Visible(patch, None) == Visible(FromFirstHunk(patch), None)
  {
    if patch != [] && !StartsHunk(patch[0]) {
      VisibleFromFirstHunk(patch[1..]);
    }
  }

  /** Each hunk is split under a limit of its own. */
  predicate SplitBy(parts: seq<seq<Hunk>>, hunks: seq<Hunk>, limits: seq<int>) {
    && |parts| == |hunks| == |limits|
    && forall i :: 0 <= i < |hunks| ==> IsSplitOf(parts[i], hunks[i], limits[i])
  }

  /**
   Over a whole patch, whatever limits its hunks are split under: the patch shows the lines its pieces
   show, and those that stray behind `@@` lines that are no headers. So both show the same exactly when
   every stray number is also that of a line some piece shows.
   */
  lemma {:induction false} PatchKeepsVisible(patch: seq<Line>, hunks: seq<Hunk>, parts: seq<seq<Hunk>>,
      limits: seq<int>)
    requires forall h :: h in hunks ==> IsHunk(h)
    requires AllLines(hunks) == FromFirstHunk(patch)
    requires SplitBy(parts, hunks, limits)
    ensures Visible(patch, None) == VisibleIn(Flatten(parts)) + Stray(hunks)
    ensures Visible(patch, None) == VisibleIn(Flatten(parts)) <==> Stray(hunks) <= VisibleIn(Flatten(parts))
  {
    hide ParseHeader, IsSplitOf, IsHunk;
    VisibleFromFirstHunk(patch);
    VisibleOfHunks(hunks);
    PartsKeepVisible(parts, hunks, limits);
  }

  /** A patch with a stray line: the pieces do not show the line that the broken header counts as. */
  lemma {:induction false} BrokenHeaderStrays() returns (patch: seq<Line>, hunks: seq<Hunk>)
    ensures (forall h :: h in hunks ==> IsHunk(h)) && AllLines(hunks) == FromFirstHunk(patch)
    ensures 2 in Visible(patch, None)
    ensures forall parts, limits :: SplitBy(parts, hunks, limits) ==> 2 !in VisibleIn(Flatten(parts))
  {
    hide ParseHeader, PrintHeader, Visible, NumberAfter;
    var good, broken := Hunk(PrintHeader(1, 1, 1, 1, ""), ["+a"]), Hunk("@@", []);
    hunks := [good, broken];
    patch := good.Lines() + broken.Lines();
    HeaderStartsHunk(1, 1, 1, 1, "");
    AddedLineStartsNoHunk();
    assert IsHunk(good);
    assert broken.first[..2] == "@@" && IsHunk(broken);
    AllLinesSnoc([], good);
    AllLinesSnoc([good], broken);
    assert [] + [good] == [good] && [good] + [broken] == hunks && AllLines([]) == [];
    assert patch[0] == good.first;
    OneLineShown(good);
    BrokenHeader(broken);
    StrayLine(broken, Some(2));
    OneHunkMore(good.Lines(), broken);
    VisibleInAppend([], [good]);
    VisibleInAppend([good], [broken]);
    assert [good][..0] == [] && [broken][..0] == [];
    forall parts, limits | SplitBy(parts, hunks, limits) ensures 2 !in VisibleIn(Flatten(parts)) {
      PartsKeepVisible(parts, hunks, limits);
    }
  }

  lemma {:induction false} OneLineShown(hunk: Hunk)
    requires hunk == Hunk(PrintHeader(1, 1, 1, 1, ""), ["+a"])
    ensures Visible(hunk.Lines(), None) == {1} && NumberAfter(hunk.Lines(), None) == Some(2)
  {
    hide ParseHeader, PrintHeader;
    HeaderRoundTrip(1, 1, 1, 1, "");
    assert hunk.Lines()[0] == hunk.first && hunk.Lines()[1..] == ["+a"] && ["+a"][1..] == [];
    AddedLineStartsNoHunk();
    NoHeaderAhead(["+a"]);
    assert Visible(["+a"], Some(1)) == {1} + Visible([], Some(2));
    assert NumberAfter(["+a"], Some(1)) == NumberAfter([], Some(2));
  }

  lemma {:induction false} AddedLineStartsNoHunk()
    ensures NoHunkStart(["+a"])
  {
    assert "+a"[0] != "@@"[0];
  }

  lemma {:induction false} BrokenHeader(hunk: Hunk)
    requires hunk == Hunk("@@", [])
    ensures ParseHeader(hunk.first).None?
  {
    assert !("@@ -" <= hunk.first);
  }

  lemma {:induction false} HeaderStartsHunk(oldStart: nat, oldCount: nat, newStart: nat, newCount: nat, tail: string)
    ensures StartsHunk(PrintHeader(oldStart, oldCount, newStart, newCount, tail))
  {
    hide PrintRange;
    assert PrintHeader(oldStart, oldCount, newStart, newCount, tail)[..2] == "@@";
  }

  lemma {:induction false} PartsKeepVisible(parts: seq<seq<Hunk>>, hunks: seq<Hunk>, limits: seq<int>)
    requires SplitBy(parts, hunks, limits) && forall h :: h in hunks ==> IsHunk(h)
    ensures VisibleIn(Flatten(parts)) == VisibleIn(hunks)
  {
    hide IsSplitOf;
    if parts != [] {
      var k := |parts| - 1;
      assert hunks[k] in hunks;
      SplitKeepsVisible(parts[k], hunks[k], limits[k]);
      PartsKeepVisible(parts[..k], hunks[..k], limits[..k]);
      VisibleInAppend(Flatten(parts[..k]), parts[k]);
    }
  }
}
