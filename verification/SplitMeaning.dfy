/**
 Splitting preserves meaning: no line is lost or moved, line numbers and visible lines survive,
 regenerated headers tell the truth, and context chunks follow the lines they belong to.
 */
module SplitMeaning {
  import opened Wrappers
  import opened Seqs
  import opened DiffLines
  import opened HunkSplit

  // ---------- lines ----------

  function Bodies(hunks: seq<Hunk>): seq<Line> {
    if hunks == [] then [] else Bodies(hunks[..|hunks| - 1]) + hunks[|hunks| - 1].body
  }

  lemma {:induction false} BodiesAppend(a: seq<Hunk>, b: seq<Hunk>)
    ensures Bodies(a + b) == Bodies(a) + Bodies(b)
  {
    if b == [] {
      assert a + b == a;
    } else {
      var front, last := b[..|b| - 1], b[|b| - 1];
      assert (a + b)[..|a + b| - 1] == a + front;
      BodiesAppend(a, front);
      Assoc(Bodies(a), Bodies(front), last.body);
    }
  }

  lemma {:induction false} TilesCarryBody(pieces: seq<Hunk>, body: seq<Line>, o: nat, n: nat, tail: string)
    requires Tiles(pieces, body, o, n, tail)
    ensures Bodies(pieces) == body
  {
    if pieces != [] {
      TilesCarryBody(pieces[..|pieces| - 1], body[..|body| - |pieces[|pieces| - 1].body|], o, n, tail);
    }
  }

  /** The pieces of a hunk carry its body lines, each once and in order. */
  lemma {:induction false} SplitKeepsLines(pieces: seq<Hunk>, hunk: Hunk, maxChars: int)
    requires IsSplitOf(pieces, hunk, maxChars)
    ensures Bodies(pieces) == hunk.body
  {
    var header := ParseHeader(hunk.first);
    if HunkLength(hunk) <= maxChars || header.None? {
      assert [hunk][..0] == [];
    } else {
      TilesCarryBody(pieces, hunk.body, header.value.oldStart, header.value.newStart, header.value.tail);
    }
  }

  lemma {:induction false} PartsKeepLines(parts: seq<seq<Hunk>>, hunks: seq<Hunk>, limit: int)
    requires SplitEach(parts, hunks, limit)
    ensures Bodies(Flatten(parts)) == Bodies(hunks)
  {
    if parts != [] {
      var k := |parts| - 1;
      SplitKeepsLines(parts[k], hunks[k], limit);
      PartsKeepLines(parts[..k], hunks[..k], limit);
      BodiesAppend(Flatten(parts[..k]), parts[k]);
    }
  }

  /** The pieces of a file carry every hunk body line exactly once and in order. */
  lemma {:induction false} TargetSplitKeepsLines(
      pieces: seq<Target>, parts: seq<seq<Hunk>>, target: Target, sizeOf: Target -> nat, maxChars: int)
    requires IsTargetSplit(pieces, parts, target, sizeOf, maxChars)
    ensures Bodies(AllHunks(pieces)) == Bodies(target.hunks)
    ensures forall p :: p in pieces ==> p.filePath == target.filePath && p.status == target.status
    ensures forall p :: p in pieces && |p.hunks| >= 2 ==> sizeOf(p) <= maxChars
  {
    if sizeOf(target) <= maxChars {
      assert pieces[..0] == [] && AllHunks(pieces) == target.hunks;
    } else {
      PartsKeepLines(parts, target.hunks, HunkLimit(target, sizeOf, maxChars));
    }
  }

  // ---------- one split only ----------

  /** The lines in front of the last piece. */
  function Earlier(pieces: seq<Hunk>, body: seq<Line>): seq<Line>
    requires pieces != [] && |pieces[|pieces| - 1].body| <= |body|
  {
    body[..|body| - |pieces[|pieces| - 1].body|]
  }

  lemma {:induction false} TilesUnfold(pieces: seq<Hunk>, body: seq<Line>, o: nat, n: nat, tail: string)
    requires Tiles(pieces, body, o, n, tail) && pieces != []
    ensures var last := pieces[|pieces| - 1];
      && last.body != [] && |last.body| <= |body| && body == Earlier(pieces, body) + last.body
      && Tiles(pieces[..|pieces| - 1], Earlier(pieces, body), o, n, tail)
      && last == Piece(last.body, o + OldCount(Earlier(pieces, body)), n + NewCount(Earlier(pieces, body)), tail)
  {
    hide Piece, OldCount, NewCount;
  }

  lemma {:induction false} BodiesSnoc(pieces: seq<Hunk>, i: nat)
    requires i < |pieces|
    ensures Bodies(pieces[..i + 1]) == Bodies(pieces[..i]) + pieces[i].body
  {
    assert pieces[..i + 1][..i] == pieces[..i];
  }

  /** A piece stands behind the bodies in front of it, and its header follows from them. */
  lemma {:induction false} TileAt(pieces: seq<Hunk>, body: seq<Line>, o: nat, n: nat, tail: string, i: nat)
    requires Tiles(pieces, body, o, n, tail) && i < |pieces|
    ensures var done := Bodies(pieces[..i]);
      && pieces[i].body != [] && done + pieces[i].body <= body && Bodies(pieces[..i + 1]) == done + pieces[i].body
      && pieces[i] == Piece(pieces[i].body, o + OldCount(done), n + NewCount(done), tail)
  {
    hide Piece, OldCount, NewCount, Tiles, Bodies;
    var k := |pieces| - 1;
    TilesUnfold(pieces, body, o, n, tail);
    var before := Earlier(pieces, body);
    BodiesSnoc(pieces, i);
    if i < k {
      TileAt(pieces[..k], before, o, n, tail, i);
      assert pieces[..k][..i] == pieces[..i] && pieces[..k][..i + 1] == pieces[..i + 1];
    } else {
      TilesCarryBody(pieces[..k], before, o, n, tail);
    }
  }

  lemma {:induction false} FrontFits(front: seq<Line>, line: Line, body: seq<Line>, limit: int)
    requires front != [] && front + [line] <= body && Fits(body, limit)
    ensures !Overflows(front, line, limit)
  {
    CountsAppend(front, [line]);
    CountsOne(line);
    assert body[..|front| + 1] == front + [line] && body[|front|] == line;
  }

  lemma {:induction false} CutLateAt(pieces: seq<Hunk>, limit: int, j: nat)
    requires CutLate(pieces, limit) && j < |pieces|
    ensures pieces[j].body != [] && Fits(pieces[j].body, limit)
    ensures j + 1 < |pieces| ==> pieces[j + 1].body != [] && Overflows(pieces[j].body, pieces[j + 1].body[0], limit)
  {
    hide Fits, Overflows;
  }

  /** Cutting late, a piece is never shorter than the piece another split has in its place. */
  lemma {:induction false} NotShorter(a: seq<Hunk>, b: seq<Hunk>, body: seq<Line>, o: nat, n: nat, tail: string,
      limit: int, j: nat)
    requires Tiles(a, body, o, n, tail) && CutLate(a, limit) && Tiles(b, body, o, n, tail) && CutLate(b, limit)
    requires j < |a| && j < |b| && a[..j] == b[..j]
    ensures |a[j].body| >= |b[j].body|
  {
    hide Tiles, Piece, OldCount, NewCount, Fits, Overflows, CutLate, Bodies;
    CutLateAt(a, limit, j);
    CutLateAt(b, limit, j);
    TileAt(a, body, o, n, tail, j);
    TileAt(b, body, o, n, tail, j);
    var done, m := Bodies(a[..j]), |a[j].body|;
    if m < |b[j].body| {
      if j + 1 == |a| {
        assert a[..j + 1] == a;
        TilesCarryBody(a, body, o, n, tail);
      } else {
        TileAt(a, body, o, n, tail, j + 1);
        var line := a[j + 1].body[0];
        assert body[|done| + m] == line && body[|done| + m] == b[j].body[m];
        assert body[|done|..|done| + m] == a[j].body;
        assert b[j].body[..m + 1] == a[j].body + [line];
        FrontFits(a[j].body, line, b[j].body, limit);
      }
    }
  }

  lemma {:induction false} SameFront(a: seq<Hunk>, b: seq<Hunk>, body: seq<Line>, o: nat, n: nat, tail: string,
      limit: int, i: nat)
    requires Tiles(a, body, o, n, tail) && CutLate(a, limit) && Tiles(b, body, o, n, tail) && CutLate(b, limit)
    requires i <= |a|
    ensures i <= |b| && a[..i] == b[..i]
  {
    hide Tiles, Piece, CutLate, OldCount, NewCount;
    if i > 0 {
      var j := i - 1;
      SameFront(a, b, body, o, n, tail, limit, j);
      TileAt(a, body, o, n, tail, j);
      assert j == |b| ==> b[..j] == b;
      if j == |b| {
        TilesCarryBody(b, body, o, n, tail);
      } else {
        TileAt(b, body, o, n, tail, j);
        NotShorter(a, b, body, o, n, tail, limit, j);
        NotShorter(b, a, body, o, n, tail, limit, j);
        var done := Bodies(a[..j]);
        assert a[j].body == body[|done|..|done| + |a[j].body|] == b[j].body;
      }
    }
  }

  /** The conditions on the pieces of a hunk determine them. */
  lemma {:induction false} SplitIsUnique(a: seq<Hunk>, b: seq<Hunk>, hunk: Hunk, maxChars: int)
    requires IsSplitOf(a, hunk, maxChars) && IsSplitOf(b, hunk, maxChars)
    ensures a == b
  {
    hide ParseHeader, Tiles, CutLate;
    var header := ParseHeader(hunk.first);
    if HunkLength(hunk) > maxChars && header.Some? {
      var h, limit := header.value, Max(maxChars - HEADER_RESERVE, 1);
      SameFront(a, b, hunk.body, h.oldStart, h.newStart, h.tail, limit, |a|);
      SameFront(b, a, hunk.body, h.oldStart, h.newStart, h.tail, limit, |b|);
      assert a[..|a|] == a && b[..|b|] == b;
    }
  }

  // ---------- headers ----------

  /** Both sides of the header count the body, and it starts at the given old and new lines. */
  predicate HeaderTells(piece: Hunk, oldStart: nat, newStart: nat, tail: string) {
    ParseHeader(piece.first)
      == Some(Header(oldStart, Some(OldCount(piece.body)), newStart, Some(NewCount(piece.body)), tail))
  }

  lemma {:induction false} LastTile(pieces: seq<Hunk>, body: seq<Line>, o: nat, n: nat, tail: string)
    requires Tiles(pieces, body, o, n, tail) && pieces != []
    ensures var last := pieces[|pieces| - 1];
      && last.body != [] && |last.body| <= |body| && body == Earlier(pieces, body) + last.body
      && Tiles(pieces[..|pieces| - 1], Earlier(pieces, body), o, n, tail)
      && HeaderTells(last, o + OldCount(Earlier(pieces, body)), n + NewCount(Earlier(pieces, body)), tail)
  {
    hide OldCount, NewCount, PrintHeader, ParseHeader, Tiles;
    TilesUnfold(pieces, body, o, n, tail);
    var last, done := pieces[|pieces| - 1], Earlier(pieces, body);
    HeaderRoundTrip(o + OldCount(done), OldCount(last.body), n + NewCount(done), NewCount(last.body), tail);
  }

  /** Every regenerated header parses back, counts its body, and starts where the lines before it end. */
  lemma {:induction false} HeadersTile(pieces: seq<Hunk>, body: seq<Line>, o: nat, n: nat, tail: string, i: nat)
    requires Tiles(pieces, body, o, n, tail) && i < |pieces|
    ensures HeaderTells(pieces[i], o + OldCount(Bodies(pieces[..i])), n + NewCount(Bodies(pieces[..i])), tail)
  {
    hide Tiles, HeaderTells, OldCount, NewCount;
    var k := |pieces| - 1;
    LastTile(pieces, body, o, n, tail);
    if i < k {
      HeadersTile(pieces[..k], Earlier(pieces, body), o, n, tail, i);
      assert pieces[..k][..i] == pieces[..i];
    } else {
      TilesCarryBody(pieces[..k], Earlier(pieces, body), o, n, tail);
    }
  }

  // ---------- annotation ----------

  /** A line that starts no hunk is no header. */
  lemma {:induction false} NoHeaderAhead(lines: seq<Line>)
    requires NoHunkStart(lines) && lines != []
    ensures ParseHeader(lines[0]).None? && NoHunkStart(lines[1..])
  {
    hide ParseHeader;
  }

  lemma {:induction false} NoHunkStartParts(a: seq<Line>, b: seq<Line>)
    requires NoHunkStart(a + b)
    ensures NoHunkStart(a) && NoHunkStart(b)
  {
    hide StartsHunk;
    assert forall i :: 0 <= i < |a| ==> a[i] == (a + b)[i];
    assert forall i :: 0 <= i < |b| ==> b[i] == (a + b)[|a| + i];
  }

  /** What a line behind a header shows. */
  function Shown(line: Line, n: nat): Line {
    if CountsAsNewFileLine(line) then Label(n, line) else line
  }

  function After(line: Line, n: nat): nat {
    if CountsAsNewFileLine(line) then n + 1 else n
  }

  lemma {:induction false} AnnotatedCons(line: Line, rest: seq<Line>, n: nat)
    requires ParseHeader(line).None?
    ensures Annotated([line] + rest, Some(n)) == [Shown(line, n)] + Annotated(rest, Some(After(line, n)))
    ensures NewCount([line] + rest) + n == NewCount(rest) + After(line, n)
  {
    hide ParseHeader, Label, CountsAsNewFileLine;
    assert ([line] + rest)[0] == line && ([line] + rest)[1..] == rest;
  }

  lemma {:induction false} AnnotatedAppend(a: seq<Line>, b: seq<Line>, n: nat)
    requires NoHunkStart(a)
    ensures Annotated(a + b, Some(n)) == Annotated(a, Some(n)) + Annotated(b, Some(n + NewCount(a)))
  {
    hide ParseHeader, NoHunkStart, After, Shown, Annotated, NewCount;
    if a == [] {
      assert a + b == b;
      NothingAnnotated(n);
    } else {
      var m := After(a[0], n);
      Uncons(a, b);
      assert a == [a[0]] + a[1..];
      NoHeaderAhead(a);
      AnnotatedCons(a[0], a[1..] + b, n);
      AnnotatedCons(a[0], a[1..], n);
      AnnotatedAppend(a[1..], b, m);
      Assoc([Shown(a[0], n)], Annotated(a[1..], Some(m)), Annotated(b, Some(n + NewCount(a))));
    }
  }

  lemma {:induction false} NothingAnnotated(n: nat)
    ensures Annotated([], Some(n)) == [] && NewCount([]) == 0
  {}

  /** What `annotate_hunk` shows behind the first line. */
  function AnnotatedBody(hunk: Hunk): seq<Line> {
    Annotated(hunk.Lines(), None)[1..]
  }

  function AnnotatedBodies(hunks: seq<Hunk>): seq<Line> {
    if hunks == [] then [] else AnnotatedBodies(hunks[..|hunks| - 1]) + AnnotatedBody(hunks[|hunks| - 1])
  }

  lemma {:induction false} AnnotatedFromHeader(hunk: Hunk)
    requires ParseHeader(hunk.first).Some?
    ensures AnnotatedBody(hunk) == Annotated(hunk.body, Some(ParseHeader(hunk.first).value.newStart))
  {
    hide ParseHeader;
    assert hunk.Lines()[0] == hunk.first && hunk.Lines()[1..] == hunk.body;
  }

  lemma {:induction false} TilesKeepAnnotation(pieces: seq<Hunk>, body: seq<Line>, o: nat, n: nat, tail: string)
    requires Tiles(pieces, body, o, n, tail) && NoHunkStart(body)
    ensures AnnotatedBodies(pieces) == Annotated(body, Some(n))
  {
    hide ParseHeader, NoHunkStart, Tiles, OldCount, NewCount, Annotated, AnnotatedBody;
    if pieces == [] {
      NoTiles(body, o, n, tail);
    } else {
      var k := |pieces| - 1;
      LastTile(pieces, body, o, n, tail);
      var done := Earlier(pieces, body);
      NoHunkStartParts(done, pieces[k].body);
      TilesKeepAnnotation(pieces[..k], done, o, n, tail);
      AnnotatedFromHeader(pieces[k]);
      AnnotatedAppend(done, pieces[k].body, n);
    }
  }

  lemma {:induction false} NoTiles(body: seq<Line>, o: nat, n: nat, tail: string)
    requires Tiles([], body, o, n, tail)
    ensures body == [] && Annotated(body, Some(n)) == [] && Visible(body, Some(n)) == {}
  {}

  /** Splitting commutes with annotation: the annotated bodies of the pieces make up the hunk's own. */
  lemma {:induction false} SplitKeepsAnnotation(pieces: seq<Hunk>, hunk: Hunk, maxChars: int)
    requires IsSplitOf(pieces, hunk, maxChars) && NoHunkStart(hunk.body)
    ensures AnnotatedBodies(pieces) == AnnotatedBody(hunk)
  {
    hide ParseHeader;
    var header := ParseHeader(hunk.first);
    if HunkLength(hunk) <= maxChars || header.None? {
      assert [hunk][..0] == [];
    } else {
      TilesKeepAnnotation(pieces, hunk.body, header.value.oldStart, header.value.newStart, header.value.tail);
      AnnotatedFromHeader(hunk);
    }
  }

  // ---------- visible lines ----------

  lemma {:induction false} VisibleAppend(a: seq<Line>, b: seq<Line>, n: nat)
    requires NoHunkStart(a)
    ensures Visible(a + b, Some(n)) == Visible(a, Some(n)) + Visible(b, Some(n + NewCount(a)))
  {
    hide ParseHeader, NoHunkStart, CountsAsNewFileLine;
    if a == [] {
      assert a + b == b;
    } else {
      assert (a + b)[0] == a[0] && (a + b)[1..] == a[1..] + b;
      NoHeaderAhead(a);
      VisibleAppend(a[1..], b, if CountsAsNewFileLine(a[0]) then n + 1 else n);
    }
  }

  /** A body shows exactly the lines its header's range names. */
  lemma {:induction false} VisibleIsRange(body: seq<Line>, n: nat)
    requires NoHunkStart(body)
    ensures forall x :: x in Visible(body, Some(n)) <==> n <= x < n + NewCount(body)
  {
    hide ParseHeader, NoHunkStart, CountsAsNewFileLine;
    if body != [] {
      NoHeaderAhead(body);
      VisibleIsRange(body[1..], if CountsAsNewFileLine(body[0]) then n + 1 else n);
    }
  }

  function VisibleIn(hunks: seq<Hunk>): set<nat> {
    if hunks == [] then {} else VisibleIn(hunks[..|hunks| - 1]) + Visible(hunks[|hunks| - 1].Lines(), None)
  }

  lemma {:induction false} VisibleInAppend(a: seq<Hunk>, b: seq<Hunk>)
    ensures VisibleIn(a + b) == VisibleIn(a) + VisibleIn(b)
  {
    if b == [] {
      assert a + b == a;
    } else {
      assert (a + b)[..|a + b| - 1] == a + b[..|b| - 1];
      VisibleInAppend(a, b[..|b| - 1]);
    }
  }

  lemma {:induction false} VisibleFromHeader(hunk: Hunk)
    requires ParseHeader(hunk.first).Some?
    ensures Visible(hunk.Lines(), None) == Visible(hunk.body, Some(ParseHeader(hunk.first).value.newStart))
  {
    hide ParseHeader;
    assert hunk.Lines()[0] == hunk.first && hunk.Lines()[1..] == hunk.body;
  }

  lemma {:induction false} TilesKeepVisible(pieces: seq<Hunk>, body: seq<Line>, o: nat, n: nat, tail: string)
    requires Tiles(pieces, body, o, n, tail) && NoHunkStart(body)
    ensures VisibleIn(pieces) == Visible(body, Some(n))
  {
    hide ParseHeader, NoHunkStart, Tiles, OldCount, NewCount, Visible;
    if pieces == [] {
      NoTiles(body, o, n, tail);
    } else {
      var k := |pieces| - 1;
      LastTile(pieces, body, o, n, tail);
      var done := Earlier(pieces, body);
      NoHunkStartParts(done, pieces[k].body);
      TilesKeepVisible(pieces[..k], done, o, n, tail);
      VisibleFromHeader(pieces[k]);
      VisibleAppend(done, pieces[k].body, n);
    }
  }

  lemma {:induction false} SplitKeepsVisible(pieces: seq<Hunk>, hunk: Hunk, maxChars: int)
    requires IsSplitOf(pieces, hunk, maxChars) && NoHunkStart(hunk.body)
    ensures VisibleIn(pieces) == Visible(hunk.Lines(), None)
  {
    hide ParseHeader;
    var header := ParseHeader(hunk.first);
    if HunkLength(hunk) <= maxChars || header.None? {
      assert [hunk][..0] == [];
    } else {
      TilesKeepVisible(pieces, hunk.body, header.value.oldStart, header.value.newStart, header.value.tail);
      VisibleFromHeader(hunk);
    }
  }

  // ---------- files that vanish ----------

  /** An oversized hunk that is nothing but its header yields no piece. */
  predicate Vanishes(hunk: Hunk, limit: int) {
    hunk.body == [] && HunkLength(hunk) > limit && ParseHeader(hunk.first).Some?
  }

  lemma {:induction false} NoPieces(pieces: seq<Hunk>, hunk: Hunk, maxChars: int)
    requires IsSplitOf(pieces, hunk, maxChars)
    ensures pieces == [] <==> Vanishes(hunk, maxChars)
  {}

  lemma {:induction false} FlattenEmpty<T>(parts: seq<seq<T>>)
    ensures Flatten(parts) == [] <==> forall i :: 0 <= i < |parts| ==> parts[i] == []
  {
    if parts != [] {
      FlattenEmpty(parts[..|parts| - 1]);
    }
  }

  /** A file yields no piece at all exactly when it is oversized and all of its hunks vanish. */
  lemma {:induction false} TargetVanishes(
      pieces: seq<Target>, parts: seq<seq<Hunk>>, target: Target, sizeOf: Target -> nat, maxChars: int)
    requires IsTargetSplit(pieces, parts, target, sizeOf, maxChars)
    ensures pieces == [] <==>
      && sizeOf(target) > maxChars
      && forall h :: h in target.hunks ==> Vanishes(h, HunkLimit(target, sizeOf, maxChars))
  {
    if sizeOf(target) > maxChars {
      hide IsSplitOf, Vanishes;
      var limit := HunkLimit(target, sizeOf, maxChars);
      forall i | 0 <= i < |parts| ensures parts[i] == [] <==> Vanishes(target.hunks[i], limit) {
        NoPieces(parts[i], target.hunks[i], limit);
      }
      FlattenEmpty(parts);
      if pieces != [] {
        assert AllHunks(pieces) != [];
      }
    }
  }

  lemma {:induction false} HeaderHoldsTail(oldStart: nat, oldCount: nat, newStart: nat, newCount: nat, tail: string)
    ensures |PrintHeader(oldStart, oldCount, newStart, newCount, tail)| > |tail|
  {
    hide PrintRange;
  }

  /** A bare header vanishes as soon as its tail alone exceeds the limit. */
  lemma {:induction false} LongHeaderVanishes(oldStart: nat, oldCount: nat, newStart: nat, newCount: nat, tail: string,
      limit: int)
    requires |tail| > limit
    ensures Vanishes(Hunk(PrintHeader(oldStart, oldCount, newStart, newCount, tail), []), limit)
  {
    hide ParseHeader, PrintHeader;
    HeaderRoundTrip(oldStart, oldCount, newStart, newCount, tail);
    HeaderHoldsTail(oldStart, oldCount, newStart, newCount, tail);
  }

  lemma {:induction false} VanishesIntoNothing(h: Hunk, limit: int)
    requires Vanishes(h, limit)
    ensures IsSplitOf([], h, limit)
  {
    hide ParseHeader;
  }

  lemma {:induction false} NothingGrouped(target: Target, sizeOf: Target -> nat, maxChars: int)
    ensures Groups([], target, sizeOf, maxChars) && AllHunks([]) == []
  {}

  /** A file whose only hunk vanishes is split into nothing. */
  lemma {:induction false} SplitIntoNothing(target: Target, h: Hunk, sizeOf: Target -> nat, maxChars: int)
    requires target.hunks == [h] && sizeOf(target) > maxChars && Vanishes(h, HunkLimit(target, sizeOf, maxChars))
    ensures IsTargetSplit([], [[]], target, sizeOf, maxChars)
  {
    hide HunkLimit, Vanishes, IsSplitOf, Flatten, Groups, AllHunks;
    var parts: seq<seq<Hunk>> := [[]];
    VanishesIntoNothing(h, HunkLimit(target, sizeOf, maxChars));
    NothingGrouped(target, sizeOf, maxChars);
    FlattenEmpty(parts);
    assert parts[0] == [];
  }

  /** So a file that is nothing but an oversized header is split into no piece, and in no other way. */
  lemma {:induction false} BareHeaderVanishes(target: Target, sizeOf: Target -> nat, maxChars: int, tail: string)
    returns (vanishing: Target)
    requires sizeOf(target.(hunks := [Hunk(PrintHeader(1, 1, 1, 1, tail), [])])) > maxChars
    requires |tail| > HunkLimit(target, sizeOf, maxChars)
    ensures vanishing == target.(hunks := [Hunk(PrintHeader(1, 1, 1, 1, tail), [])])
    ensures IsTargetSplit([], [[]], vanishing, sizeOf, maxChars)
    ensures forall pieces, parts :: IsTargetSplit(pieces, parts, vanishing, sizeOf, maxChars) ==> pieces == []
  {
    hide PrintHeader, IsTargetSplit, Vanishes;
    var h := Hunk(PrintHeader(1, 1, 1, 1, tail), []);
    vanishing := target.(hunks := [h]);
    assert vanishing.(hunks := []) == target.(hunks := []);
    LongHeaderVanishes(1, 1, 1, 1, tail, HunkLimit(vanishing, sizeOf, maxChars));
    SplitIntoNothing(vanishing, h, sizeOf, maxChars);
    forall pieces, parts | IsTargetSplit(pieces, parts, vanishing, sizeOf, maxChars) ensures pieces == [] {
      TargetVanishes(pieces, parts, vanishing, sizeOf, maxChars);
    }
  }
}
