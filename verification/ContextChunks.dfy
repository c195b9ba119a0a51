/** Context chunks follow the lines they cover into the pieces of a file (app/review/hunk_split.py). */
module ContextChunks {
  import opened Seqs
  import opened DiffLines
  import opened HunkSplit
  import opened SplitMeaning

  predicate InRange(hunk: Hunk, x: int) {
    DeclaredRange(hunk).Some? && DeclaredRange(hunk).value.0 <= x <= DeclaredRange(hunk).value.1
  }

  /** The last piece has deleted lines only, so its header names the line behind the hunk. */
  predicate EndsWithDeletions(pieces: seq<Hunk>) {
    pieces != [] && NewCount(pieces[|pieces| - 1].body) == 0
  }

  predicate SomeSpans(pieces: seq<Hunk>, x: int) {
    exists i :: 0 <= i < |pieces| && InRange(pieces[i], x)
  }

  /** The lines that the pieces of a body span. */
  lemma {:induction false} TilesSpanIff(pieces: seq<Hunk>, body: seq<Line>, o: nat, n: nat, tail: string, x: int)
    requires Tiles(pieces, body, o, n, tail) && n <= x
    ensures SomeSpans(pieces, x)
      <==> pieces != [] && (x < n + NewCount(body) || (x == n + NewCount(body) && EndsWithDeletions(pieces)))
  {
    hide ParseHeader, OldCount, NewCount, Tiles, PrintHeader;
    if pieces != [] {
      var k := |pieces| - 1;
      LastTile(pieces, body, o, n, tail);
      var done, last := Earlier(pieces, body), pieces[k];
      CountsAppend(done, last.body);
      TilesSpanIff(pieces[..k], done, o, n, tail, x);
      SpansSnoc(pieces, x);
      NothingCounted(pieces[..k], done, o, n, tail);
    }
  }

  lemma {:induction false} SpansSnoc(pieces: seq<Hunk>, x: int)
    requires pieces != []
    ensures SomeSpans(pieces, x) <==> SomeSpans(pieces[..|pieces| - 1], x) || InRange(pieces[|pieces| - 1], x)
  {
    hide InRange;
    var front := pieces[..|pieces| - 1];
    assert forall i :: 0 <= i < |front| ==> front[i] == pieces[i];
  }

  lemma {:induction false} NothingCounted(pieces: seq<Hunk>, body: seq<Line>, o: nat, n: nat, tail: string)
    requires Tiles(pieces, body, o, n, tail)
    ensures pieces == [] ==> NewCount(body) == 0
  {}

  /**
   The new-file line is one of those that the hunk's body has, or the one behind them when the last piece
   has deleted lines only; or the hunk is not split at all.
   */
  predicate Reaches(pieces: seq<Hunk>, hunk: Hunk, x: int, limit: int) {
    HunkLength(hunk) <= limit
    || (ParseHeader(hunk.first).Some? && pieces != []
        && var behind := ParseHeader(hunk.first).value.newStart + NewCount(hunk.body);
        x < behind || (x == behind && EndsWithDeletions(pieces)))
  }

  /** Of the lines that a hunk declares, its pieces span exactly those it reaches. */
  lemma {:induction false} SplitSpansIff(pieces: seq<Hunk>, hunk: Hunk, maxChars: int, x: int)
    requires IsSplitOf(pieces, hunk, maxChars) && InRange(hunk, x)
    ensures SomeSpans(pieces, x) <==> Reaches(pieces, hunk, x, maxChars)
  {
    hide ParseHeader, Tiles, NewCount, EndsWithDeletions;
    var header := ParseHeader(hunk.first).value;
    if HunkLength(hunk) <= maxChars {
      assert pieces[0] == hunk;
    } else {
      TilesSpanIff(pieces, hunk.body, header.oldStart, header.newStart, header.tail, x);
    }
  }

  /** A header that declares what its body has, a body of at least one line: every declared line is reached. */
  lemma {:induction false} TruthfulReaches(pieces: seq<Hunk>, hunk: Hunk, maxChars: int, x: int)
    requires IsSplitOf(pieces, hunk, maxChars) && InRange(hunk, x) && hunk.body != []
    requires var header := ParseHeader(hunk.first).value;
      NewCount(hunk.body) == if header.newCount.Some? then header.newCount.value else 1
    ensures Reaches(pieces, hunk, x, maxChars)
  {
    hide ParseHeader, NewCount, OldCount, Tiles, PrintHeader;
    var header := ParseHeader(hunk.first).value;
    if HunkLength(hunk) > maxChars {
      TilesCarryBody(pieces, hunk.body, header.oldStart, header.newStart, header.tail);
      assert pieces == [] ==> Bodies(pieces) == [];
      LastTile(pieces, hunk.body, header.oldStart, header.newStart, header.tail);
      CountsAppend(Earlier(pieces, hunk.body), pieces[|pieces| - 1].body);
    }
  }

  /** The range of a group contains the range of each of its hunks. */
  lemma {:induction false} NewRangeContains(hunks: seq<Hunk>, q: Hunk)
    requires q in hunks && forall h :: h in hunks ==> DeclaredRange(h).Some?
    ensures NewRange(hunks).Some?
    ensures NewRange(hunks).value.0 <= DeclaredRange(q).value.0 && DeclaredRange(q).value.1 <= NewRange(hunks).value.1
  {
    hide DeclaredRange;
    var front, last := hunks[..|hunks| - 1], hunks[|hunks| - 1];
    assert last in hunks;
    if front != [] {
      assert front[0] in front;
      NewRangeContains(front, if q in front then q else front[0]);
    }
  }

  lemma {:induction false} PieceHolding(pieces: seq<Target>, q: Hunk) returns (p: Target)
    requires q in AllHunks(pieces)
    ensures p in pieces && q in p.hunks
  {
    if q in pieces[|pieces| - 1].hunks {
      p := pieces[|pieces| - 1];
    } else {
      p := PieceHolding(pieces[..|pieces| - 1], q);
    }
  }

  lemma {:induction false} NoRangeWithout(hunks: seq<Hunk>)
    ensures NewRange(hunks).Some? <==> hunks != [] && forall h :: h in hunks ==> DeclaredRange(h).Some?
  {
    hide DeclaredRange;
    if hunks != [] {
      var front, last := hunks[..|hunks| - 1], hunks[|hunks| - 1];
      assert last in hunks;
      NoRangeWithout(front);
    }
  }

  /** Of a piece with a part that spans `x`, a chunk that covers `x` is attached exactly when all its headers parse. */
  lemma {:induction false} ChunkAttachedIff(target: Target, group: seq<Hunk>, chunk: Chunk, part: Hunk, x: int)
    requires chunk in target.chunks && chunk.range.Some? && chunk.range.value.0 <= x <= chunk.range.value.1
    requires part in group && InRange(part, x)
    ensures chunk in Make(target, group).chunks <==> forall h :: h in group ==> ParseHeader(h.first).Some?
  {
    hide ParseHeader, NewRange;
    NoRangeWithout(group);
    assert forall h :: DeclaredRange(h).Some? <==> ParseHeader(h.first).Some?;
    if forall h :: h in group ==> ParseHeader(h.first).Some? {
      NewRangeContains(group, part);
    }
  }

  /**
   A context chunk follows the lines it covers: if it shares the new-file line `x` with a hunk of a file
   that is split, and the hunk reaches that line, some piece holds a hunk part that spans `x`, and the
   chunk is attached to that piece exactly when all headers in the piece parse.
   */
  lemma {:induction false} ChunkFollowsLine(
      pieces: seq<Target>, parts: seq<seq<Hunk>>, target: Target, sizeOf: Target -> nat, maxChars: int,
      chunk: Chunk, i: nat, x: int)
    returns (piece: Target, part: Hunk)
    requires IsTargetSplit(pieces, parts, target, sizeOf, maxChars) && sizeOf(target) > maxChars
    requires chunk in target.chunks && chunk.range.Some? && chunk.range.value.0 <= x <= chunk.range.value.1
    requires i < |target.hunks| && InRange(target.hunks[i], x)
    requires Reaches(parts[i], target.hunks[i], x, HunkLimit(target, sizeOf, maxChars))
    ensures piece in pieces && part in parts[i] && part in piece.hunks && InRange(part, x)
    ensures chunk in piece.chunks <==> forall h :: h in piece.hunks ==> ParseHeader(h.first).Some?
  {
    hide IsSplitOf, InRange, ParseHeader, ChunksFor, Reaches;
    SplitSpansIff(parts[i], target.hunks[i], HunkLimit(target, sizeOf, maxChars), x);
    var j :| 0 <= j < |parts[i]| && InRange(parts[i][j], x);
    part := parts[i][j];
    MemberFlatten(parts, i, part);
    piece := PieceHolding(pieces, part);
    assert piece == Make(target, piece.hunks);
    ChunkAttachedIff(target, piece.hunks, chunk, part, x);
  }

  /** A file that is not split keeps all of its chunks. */
  lemma {:induction false} WholeFileKeepsChunks(
      pieces: seq<Target>, parts: seq<seq<Hunk>>, target: Target, sizeOf: Target -> nat, maxChars: int)
    requires IsTargetSplit(pieces, parts, target, sizeOf, maxChars) && sizeOf(target) <= maxChars
    ensures pieces == [target] && pieces[0].chunks == target.chunks
  {}
}
