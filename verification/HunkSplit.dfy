/** Splitting oversized hunks and files (app/review/hunk_split.py). */
module HunkSplit {
  import opened Wrappers
  import opened Seqs
  import opened DiffLines

  const HEADER_RESERVE := 48
  const MIN_HUNK_LIMIT := 1000

  /** Characters of the lines, each with its line break. */
  function BodyLength(lines: seq<Line>): nat {
    if lines == [] then 0 else |lines[0]| + 1 + BodyLength(lines[1..])
  }

  /** `len` of the hunk's text, its lines joined by line breaks. */
  function HunkLength(hunk: Hunk): nat {
    |hunk.first| + BodyLength(hunk.body)
  }

  /** `\ No newline at end of file` and the like. */
  predicate IsMarker(line: Line) {
    line != "" && line[0] == '\\'
  }

  // ---------- what split_hunk returns ----------

  function Piece(body: seq<Line>, oldStart: nat, newStart: nat, tail: string): Hunk {
    Hunk(PrintHeader(oldStart, OldCount(body), newStart, NewCount(body), tail), body)
  }

  /** The pieces carry `body` in order, and their headers tile the old and the new lines without gaps. */
  predicate Tiles(pieces: seq<Hunk>, body: seq<Line>, oldStart: nat, newStart: nat, tail: string) {
    if pieces == [] then body == [] else
    var front, last := pieces[..|pieces| - 1], pieces[|pieces| - 1];
    && last.body != [] && |last.body| <= |body|
    && var done := body[..|body| - |last.body|];
    && body == done + last.body
    && last == Piece(last.body, oldStart + OldCount(done), newStart + NewCount(done), tail)
    && Tiles(front, done, oldStart, newStart, tail)
  }

  /** Every line behind the first either is a marker or still fits the limit. */
  predicate Fits(body: seq<Line>, limit: int) {
    forall j :: 1 <= j < |body| && !IsMarker(body[j]) ==> BodyLength(body[..j + 1]) <= limit
  }

  /** The line does not fit behind the body, so a new piece starts with it. */
  predicate Overflows(body: seq<Line>, line: Line, limit: int) {
    !IsMarker(line) && BodyLength(body) + |line| + 1 > limit
  }

  /** Pieces fit, and none could have taken the line its successor starts with. */
  predicate CutLate(pieces: seq<Hunk>, limit: int) {
    && (forall i :: 0 <= i < |pieces| ==> pieces[i].body != [] && Fits(pieces[i].body, limit))
    && (forall i, j :: 0 <= i && j == i + 1 < |pieces| ==> Overflows(pieces[i].body, pieces[j].body[0], limit))
  }

  /** The pieces of a hunk; these conditions determine them. */
  predicate IsSplitOf(pieces: seq<Hunk>, hunk: Hunk, maxChars: int) {
    var header := ParseHeader(hunk.first);
    if HunkLength(hunk) <= maxChars || header.None? then pieces == [hunk]
    else
      && Tiles(pieces, hunk.body, header.value.oldStart, header.value.newStart, header.value.tail)
      && CutLate(pieces, Max(maxChars - HEADER_RESERVE, 1))
  }

  lemma {:induction false} CountsAppend(a: seq<Line>, b: seq<Line>)
    ensures OldCount(a + b) == OldCount(a) + OldCount(b)
    ensures NewCount(a + b) == NewCount(a) + NewCount(b)
    ensures BodyLength(a + b) == BodyLength(a) + BodyLength(b)
  {
    if a == [] {
      assert a + b == b;
    } else {
      Uncons(a, b);
      assert (a + b)[1..] == a[1..] + b;
      CountsAppend(a[1..], b);
    }
  }

  lemma {:induction false} CountsOne(line: Line)
    ensures OldCount([line]) == if CountsAsOldFileLine(line) then 1 else 0
    ensures NewCount([line]) == if CountsAsNewFileLine(line) then 1 else 0
    ensures BodyLength([line]) == |line| + 1
  {
    assert [line][1..] == [];
  }

  lemma {:induction false} FitsSnoc(body: seq<Line>, line: Line, limit: int)
    requires Fits(body, limit)
    requires body == [] || !Overflows(body, line, limit)
    ensures Fits(body + [line], limit)
  {
    CountsAppend(body, [line]);
    CountsOne(line);
    forall j | 1 <= j < |body + [line]| && !IsMarker((body + [line])[j])
      ensures BodyLength((body + [line])[..j + 1]) <= limit
    {
      if j < |body| {
        assert (body + [line])[..j + 1] == body[..j + 1];
      } else {
        assert (body + [line])[..j + 1] == body + [line];
      }
    }
  }

  /** Flushing appends one tile. */
  lemma {:induction false} Flush(pieces: seq<Hunk>, done: seq<Line>, body: seq<Line>, o: nat, n: nat, tail: string,
      limit: int)
    requires Tiles(pieces, done, o, n, tail) && body != []
    requires CutLate(pieces, limit) && Fits(body, limit)
    requires pieces != [] ==> Overflows(pieces[|pieces| - 1].body, body[0], limit)
    ensures var last := Piece(body, o + OldCount(done), n + NewCount(done), tail);
      && Tiles(pieces + [last], done + body, o, n, tail) && CutLate(pieces + [last], limit)
  {
    hide Fits, Overflows, OldCount, NewCount, PrintHeader;
    var last := Piece(body, o + OldCount(done), n + NewCount(done), tail);
    assert (pieces + [last])[..|pieces|] == pieces;
    assert (done + body)[..|done|] == done;
  }

  method SplitHunk(hunk: Hunk, maxChars: int) returns (pieces: seq<Hunk>)
    ensures IsSplitOf(pieces, hunk, maxChars)
  {
    hide ParseHeader, PrintHeader, Tiles, CutLate, Fits, OldCount, NewCount;
    if HunkLength(hunk) <= maxChars {
      return [hunk];
    }
    var header := ParseHeader(hunk.first);
    if header.None? {
      return [hunk];
    }
    var oldStart, newStart, tail := header.value.oldStart, header.value.newStart, header.value.tail;
    ghost var o, n, done: seq<Line> := oldStart, newStart, [];
    var lines := hunk.body;
    var limit := Max(maxChars - HEADER_RESERVE, 1);
    pieces := [];
    var current: seq<Line>, currentLen, oldCount, newCount := [], 0, 0, 0;
    NothingSplit(o, n, tail, limit);
    for i := 0 to |lines|
      invariant done + current == lines[..i]
      invariant current == [] ==> i == 0 && pieces == []
      invariant Tiles(pieces, done, o, n, tail) && CutLate(pieces, limit) && Fits(current, limit)
      invariant pieces != [] ==> Overflows(pieces[|pieces| - 1].body, current[0], limit)
      invariant oldStart == o + OldCount(done) && newStart == n + NewCount(done)
      invariant currentLen == BodyLength(current)
      invariant oldCount == OldCount(current) && newCount == NewCount(current)
    {
      var line := lines[i];
      var isMarker := IsMarker(line);
      assert lines[..i + 1] == lines[..i] + [line];
      if current != [] && !isMarker && currentLen + |line| + 1 > limit {
        Flush(pieces, done, current, o, n, tail, limit);
        CountsAppend(done, current);
        pieces := pieces + [Hunk(PrintHeader(oldStart, oldCount, newStart, newCount, tail), current)];
        done := done + current;
        oldStart, newStart := oldStart + oldCount, newStart + newCount;
        current, currentLen, oldCount, newCount := [], 0, 0, 0;
        NothingSplit(o, n, tail, limit);
      }
      CountsAppend(current, [line]);
      CountsOne(line);
      FitsSnoc(current, line, limit);
      current := current + [line];
      currentLen := currentLen + |line| + 1;
      if !isMarker {
        if line != "" && line[0] == '-' {
          oldCount := oldCount + 1;
        } else if line != "" && line[0] == '+' {
          newCount := newCount + 1;
        } else {
          oldCount, newCount := oldCount + 1, newCount + 1;
        }
      }
    }
    assert lines[..|lines|] == lines;
    if current != [] {
      Flush(pieces, done, current, o, n, tail, limit);
      pieces := pieces + [Hunk(PrintHeader(oldStart, oldCount, newStart, newCount, tail), current)];
    }
  }

  lemma {:induction false} NothingSplit(o: nat, n: nat, tail: string, limit: int)
    ensures Tiles([], [], o, n, tail) && CutLate([], limit) && Fits([], limit)
    ensures OldCount([]) == NewCount([]) == BodyLength([]) == 0
  {}

  // ---------- files ----------

  /** A context chunk: the line range its title line names, if that can be parsed, and its text. */
  datatype Chunk = Chunk(range: Option<(nat, nat)>, text: string)

  datatype Target = Target(filePath: string, status: string, hunks: seq<Hunk>, chunks: seq<Chunk>)

  /** First and last new-file line a header declares; a hunk without new lines still spans one. */
  function DeclaredRange(hunk: Hunk): Option<(int, int)> {
    match ParseHeader(hunk.first)
    case None => None
    case Some(h) =>
      var count := if h.newCount.Some? then h.newCount.value else 1;
      Some((h.newStart, h.newStart + Max(count, 1) - 1))
  }

  /** The new-file lines from the first to the last hunk; nothing when there is none or a header does not parse. */
  function NewRange(hunks: seq<Hunk>): Option<(int, int)> {
    if hunks == [] then None else
    var front, last := hunks[..|hunks| - 1], DeclaredRange(hunks[|hunks| - 1]);
    if last.None? then None
    else if front == [] then last
    else match NewRange(front)
      case None => None
      case Some(r) => Some((Min(r.0, last.value.0), Max(r.1, last.value.1)))
  }

  predicate Overlaps(chunk: Chunk, range: (int, int)) {
    chunk.range.Some? && chunk.range.value.0 <= range.1 && chunk.range.value.1 >= range.0
  }

  function ChunksFor(chunks: seq<Chunk>, hunks: seq<Hunk>): seq<Chunk> {
    match NewRange(hunks)
    case None => []
    case Some(range) => Filter((chunk: Chunk) => Overlaps(chunk, range), chunks)
  }

  function Make(target: Target, group: seq<Hunk>): Target {
    target.(hunks := group, chunks := ChunksFor(target.chunks, group))
  }

  method HunkNewRange(hunks: seq<Hunk>) returns (r: Option<(int, int)>)
    ensures r == NewRange(hunks)
  {
    hide ParseHeader;
    r := None;
    for i := 0 to |hunks|
      invariant r == NewRange(hunks[..i])
      invariant i > 0 ==> r.Some?
    {
      assert hunks[..i + 1][..i] == hunks[..i];
      var declared := DeclaredRange(hunks[i]);
      if declared.None? {
        NoRangeAbove(hunks, i);
        return None;
      }
      if r.None? {
        r := declared;
      } else {
        r := Some((Min(r.value.0, declared.value.0), Max(r.value.1, declared.value.1)));
      }
    }
    assert hunks[..|hunks|] == hunks;
  }

  lemma {:induction false} NoRangeAbove(hunks: seq<Hunk>, i: nat)
    requires i < |hunks| && DeclaredRange(hunks[i]).None?
    ensures NewRange(hunks) == None
  {
    if i < |hunks| - 1 {
      NoRangeAbove(hunks[..|hunks| - 1], i);
    }
  }

  function AllHunks(pieces: seq<Target>): seq<Hunk> {
    if pieces == [] then [] else AllHunks(pieces[..|pieces| - 1]) + pieces[|pieces| - 1].hunks
  }

  function HunkLimit(target: Target, sizeOf: Target -> nat, maxChars: int): int {
    Max(maxChars - sizeOf(target.(hunks := [])), MIN_HUNK_LIMIT)
  }

  /** A group is never empty, and it holds a second hunk only when it then still fits. */
  predicate IsGroup(piece: Target, target: Target, sizeOf: Target -> nat, maxChars: int) {
    && piece == Make(target, piece.hunks) && piece.hunks != []
    && (|piece.hunks| >= 2 ==> sizeOf(piece) <= maxChars)
  }

  /** The next hunk would have made the group too large. */
  predicate GroupFull(group: seq<Hunk>, next: Hunk, target: Target, sizeOf: Target -> nat, maxChars: int) {
    sizeOf(Make(target, group + [next])) > maxChars
  }

  predicate Groups(pieces: seq<Target>, target: Target, sizeOf: Target -> nat, maxChars: int) {
    && (forall i :: 0 <= i < |pieces| ==> IsGroup(pieces[i], target, sizeOf, maxChars))
    && (forall i, j :: 0 <= i && j == i + 1 < |pieces| ==>
          GroupFull(pieces[i].hunks, pieces[j].hunks[0], target, sizeOf, maxChars))
  }

  predicate SplitEach(parts: seq<seq<Hunk>>, hunks: seq<Hunk>, limit: int) {
    |parts| == |hunks| && forall i :: 0 <= i < |hunks| ==> IsSplitOf(parts[i], hunks[i], limit)
  }

  /** What split_oversized_target returns; `parts` are the split hunks. */
  predicate IsTargetSplit(pieces: seq<Target>, parts: seq<seq<Hunk>>, target: Target, sizeOf: Target -> nat,
      maxChars: int) {
    if sizeOf(target) <= maxChars then pieces == [target] && parts == []
    else
      && SplitEach(parts, target.hunks, HunkLimit(target, sizeOf, maxChars))
      && AllHunks(pieces) == Flatten(parts) && Groups(pieces, target, sizeOf, maxChars)
  }

  lemma {:induction false} SplitOneMore(parts: seq<seq<Hunk>>, hunks: seq<Hunk>, part: seq<Hunk>, hunk: Hunk,
      limit: int)
    requires SplitEach(parts, hunks, limit) && IsSplitOf(part, hunk, limit)
    ensures SplitEach(parts + [part], hunks + [hunk], limit)
  {
    hide IsSplitOf;
  }

  method SplitOversizedTarget(target: Target, sizeOf: Target -> nat, maxChars: int)
    returns (pieces: seq<Target>, ghost parts: seq<seq<Hunk>>)
    ensures IsTargetSplit(pieces, parts, target, sizeOf, maxChars)
    ensures sizeOf(target) <= maxChars ==> pieces == [target]
    ensures sizeOf(target) > maxChars ==> Groups(pieces, target, sizeOf, maxChars)
  {
    hide IsSplitOf, SplitEach, Groups, AllHunks, HunkLimit, Flatten;
    if sizeOf(target) <= maxChars {
      return [target], [];
    }
    var limit := HunkLimit(target, sizeOf, maxChars);
    var hunks: seq<Hunk> := [];
    parts := [];
    assert SplitEach([], [], limit) && Flatten<Hunk>([]) == [] by { NoHunks(limit); }
    for i := 0 to |target.hunks|
      invariant SplitEach(parts, target.hunks[..i], limit) && hunks == Flatten(parts)
    {
      var split := SplitHunk(target.hunks[i], limit);
      assert target.hunks[..i + 1] == target.hunks[..i] + [target.hunks[i]];
      SplitOneMore(parts, target.hunks[..i], split, target.hunks[i], limit);
      FlattenOneMore(parts, split);
      hunks := hunks + split;
      parts := parts + [split];
    }
    assert target.hunks[..|target.hunks|] == target.hunks;
    pieces := GroupHunks(target, hunks, sizeOf, maxChars);
  }

  lemma {:induction false} NoHunks(limit: int)
    ensures SplitEach([], [], limit) && Flatten<Hunk>([]) == []
  {}

  /** Closing a group appends its hunks. */
  lemma {:induction false} CloseGroup(pieces: seq<Target>, group: seq<Hunk>, target: Target, sizeOf: Target -> nat,
      maxChars: int)
    requires Groups(pieces, target, sizeOf, maxChars) && group != []
    requires |group| >= 2 ==> sizeOf(Make(target, group)) <= maxChars
    requires pieces != [] ==> GroupFull(pieces[|pieces| - 1].hunks, group[0], target, sizeOf, maxChars)
    ensures Groups(pieces + [Make(target, group)], target, sizeOf, maxChars)
    ensures AllHunks(pieces + [Make(target, group)]) == AllHunks(pieces) + group
  {
    hide ChunksFor, GroupFull;
    assert (pieces + [Make(target, group)])[..|pieces|] == pieces;
  }

  lemma {:induction false} NoGroups(target: Target, sizeOf: Target -> nat, maxChars: int)
    ensures Groups([], target, sizeOf, maxChars) && AllHunks([]) == []
  {}

  method GroupHunks(target: Target, hunks: seq<Hunk>, sizeOf: Target -> nat, maxChars: int)
    returns (pieces: seq<Target>)
    ensures AllHunks(pieces) == hunks && Groups(pieces, target, sizeOf, maxChars)
  {
    hide ChunksFor, Groups, AllHunks;
    pieces := [];
    NoGroups(target, sizeOf, maxChars);
    var group: seq<Hunk> := [];
    for i := 0 to |hunks|
      invariant AllHunks(pieces) + group == hunks[..i]
      invariant group == [] ==> i == 0 && pieces == []
      invariant |group| >= 2 ==> sizeOf(Make(target, group)) <= maxChars
      invariant Groups(pieces, target, sizeOf, maxChars)
      invariant pieces != [] ==> GroupFull(pieces[|pieces| - 1].hunks, group[0], target, sizeOf, maxChars)
    {
      assert hunks[..i + 1] == hunks[..i] + [hunks[i]];
      if group != [] && sizeOf(Make(target, group + [hunks[i]])) > maxChars {
        CloseGroup(pieces, group, target, sizeOf, maxChars);
        pieces := pieces + [Make(target, group)];
        group := [];
      }
      Assoc(AllHunks(pieces), group, [hunks[i]]);
      group := group + [hunks[i]];
    }
    assert hunks[..|hunks|] == hunks;
    if group != [] {
      CloseGroup(pieces, group, target, sizeOf, maxChars);
      pieces := pieces + [Make(target, group)];
    }
  }
}
