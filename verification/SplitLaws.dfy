/**
 What splitting comes to in numbers and texts (app/review/hunk_split.py, app/review/diff_lines.py): line
 numbers, lengths, limits, header forms, and the context chunks of a piece.
 */
module SplitLaws {
  import opened Wrappers
  import opened Seqs
  import opened Text
  import opened DiffLines
  import opened HunkSplit
  import opened SplitMeaning

  // ---------- numbered lines ----------

  /**
   Behind a header that starts at `n`, an added or kept line shows its number, which is `n` and the number
   of such lines in front of it, and the line; any other line stands as it is.
   */
  lemma {:induction false} AnnotatedLine(body: seq<Line>, n: nat, k: nat) returns (number: string)
    requires NoHunkStart(body) && k < |body|
    ensures var line, shown := body[k], Annotated(body, Some(n))[k];
      if line != "" && (line[0] == '-' || line[0] == '\\') then shown == line
      else
        && shown == "R" + number + " " + line && number != ""
        && (forall i :: 0 <= i < |number| ==> '0' <= number[i] <= '9')
        && ParseNat(number)
          == n + |(set i: nat | i < k && (body[i] == "" || (body[i][0] != '-' && body[i][0] != '\\')))|
  {
    hide ParseHeader, PrintNat, ParseNat;
    number := PrintNat(n + NewCount(body[..k]));
    ParsePrintNat(n + NewCount(body[..k]));
    AnnotatedAt(body, n, k);
    NewCountIs(body[..k]);
    assert (set i: nat | i < k && (body[i] == "" || (body[i][0] != '-' && body[i][0] != '\\')))
      == NewPlaces(body[..k]);
  }

  lemma {:induction false} AnnotatedAt(body: seq<Line>, n: nat, k: nat)
    requires NoHunkStart(body) && k < |body|
    ensures Annotated(body, Some(n))[k]
      == if CountsAsNewFileLine(body[k]) then Label(n + NewCount(body[..k]), body[k]) else body[k]
  {
    hide ParseHeader, Label, CountsAsNewFileLine, NoHunkStart;
    NoHeaderAhead(body);
    if k > 0 {
      AnnotatedAt(body[1..], if CountsAsNewFileLine(body[0]) then n + 1 else n, k - 1);
      assert body[..k][0] == body[0] && body[..k][1..] == body[1..][..k - 1];
    } else {
      assert body[..k] == [];
    }
  }

  function NewPlaces(lines: seq<Line>): set<nat> {
    set i: nat | i < |lines| && (lines[i] == "" || (lines[i][0] != '-' && lines[i][0] != '\\'))
  }

  lemma {:induction false} NewCountIs(lines: seq<Line>)
    ensures NewCount(lines) == |NewPlaces(lines)|
  {
    hide NewCount, NewPlaces, CountsAsNewFileLine;
    if lines == [] {
      NoPlaces();
    } else {
      var k := |lines| - 1;
      NewCountIs(lines[..k]);
      CountsAppend(lines[..k], [lines[k]]);
      CountsOne(lines[k]);
      assert lines == lines[..k] + [lines[k]];
      OneMorePlace(lines, k);
    }
  }

  lemma {:induction false} NoPlaces()
    ensures NewCount([]) == 0 == |NewPlaces([])|
  {
    assert NewPlaces([]) == {};
  }

  lemma {:induction false} OneMorePlace(lines: seq<Line>, k: nat)
    requires |lines| == k + 1
    ensures |NewPlaces(lines)| == |NewPlaces(lines[..k])| + if CountsAsNewFileLine(lines[k]) then 1 else 0
  {
    var front := NewPlaces(lines[..k]);
    assert k !in front;
    assert NewPlaces(lines) == front + if CountsAsNewFileLine(lines[k]) then {k} else {};
  }

  // ---------- headers ----------

  /** Numerals are decimal. */
  lemma {:induction false} NumeralSample()
    ensures PrintNat(1024) == "1024" && ParseNat("1024") == 1024
  {
    assert PrintNat(10) == PrintNat(1) + "0" == "10";
    assert PrintNat(102) == PrintNat(10) + "2" == "102";
    assert PrintNat(1024) == PrintNat(102) + "4";
    ParsePrintNat(1024);
  }

  /** A header may leave out a count on either side; that parses to no count. */
  lemma {:induction false} HeaderForms(
      oldStart: nat, oldCount: Option<nat>, newStart: nat, newCount: Option<nat>, tail: string)
    ensures ParseHeader(
        "@@ -" + (Range(oldStart, oldCount) + (" +" + (Range(newStart, newCount) + (" @@" + tail)))))
      == Some(Header(oldStart, oldCount, newStart, newCount, tail))
  {
    hide EatRange, Range;
    var s3 := " @@" + tail;
    var s2 := Range(newStart, newCount) + s3;
    var s1 := " +" + s2;
    var s0 := Range(oldStart, oldCount) + s1;
    EatPrefix("@@ -", s0);
    EatRangeForm(oldStart, oldCount, s1);
    EatPrefix(" +", s2);
    EatRangeForm(newStart, newCount, s3);
    EatPrefix(" @@", tail);
  }

  function Range(start: nat, count: Option<nat>): string {
    PrintNat(start) + if count.None? then "" else "," + PrintNat(count.value)
  }

  lemma {:induction false} EatRangeForm(start: nat, count: Option<nat>, rest: string)
    requires rest != "" && rest[0] == ' '
    ensures EatRange(Range(start, count) + rest) == Some((start, count, rest))
  {
    hide PrintNat, EatNat;
    if count.None? {
      assert Range(start, count) + rest == PrintNat(start) + rest;
      EatPrintedNat(start, rest);
    } else {
      assert Range(start, count) + rest == PrintRange(start, count.value) + rest;
      EatPrintedRange(start, count.value, rest);
    }
  }

  // ---------- lengths and limits ----------

  /** The length of a hunk is that of its lines joined by line breaks. */
  lemma {:induction false} HunkLengthIs(hunk: Hunk)
    ensures HunkLength(hunk) == |Join(hunk.Lines(), "\n")|
  {
    JoinedLength(hunk.first, hunk.body);
  }

  lemma {:induction false} JoinedLength(first: Line, body: seq<Line>)
    ensures |Join([first] + body, "\n")| == |first| + BodyLength(body)
    decreases |body|
  {
    var lines := [first] + body;
    if body != [] {
      assert lines[1..] == body == [body[0]] + body[1..];
      JoinedLength(body[0], body[1..]);
    }
  }

  /** What the file leaves of the limit without its hunks, but at least 1000 characters, is the limit of a hunk. */
  lemma {:induction false} HunkLimitIs(target: Target, sizeOf: Target -> nat, maxChars: int)
    ensures var limit, left := HunkLimit(target, sizeOf, maxChars), maxChars - sizeOf(target.(hunks := []));
      limit >= left && limit >= 1000 && (limit == left || limit == 1000)
  {}

  /**
   A piece of a split hunk takes a second line, if that is no marker, only within the limit less 48
   characters for its header, or less if the limit is below 49.
   */
  lemma {:induction false} PieceFits(pieces: seq<Hunk>, hunk: Hunk, maxChars: int, i: nat, j: nat)
    requires IsSplitOf(pieces, hunk, maxChars) && HunkLength(hunk) > maxChars && ParseHeader(hunk.first).Some?
    requires i < |pieces| && 1 <= j < |pieces[i].body| && !(pieces[i].body[j] != "" && pieces[i].body[j][0] == '\\')
    ensures |Join(pieces[i].body[..j + 1], "\n")| + 1 <= if maxChars - 48 > 1 then maxChars - 48 else 1
  {
    hide ParseHeader, Tiles;
    var body := pieces[i].body[..j + 1];
    assert body == [body[0]] + body[1..];
    JoinedLength(body[0], body[1..]);
    CutLateAt(pieces, Max(maxChars - HEADER_RESERVE, 1), i);
  }

  /** Nor could a piece have taken the first line of the next one, which is no marker. */
  lemma {:induction false} PieceIsFull(pieces: seq<Hunk>, hunk: Hunk, maxChars: int, i: nat)
    requires IsSplitOf(pieces, hunk, maxChars) && HunkLength(hunk) > maxChars && ParseHeader(hunk.first).Some?
    requires i + 1 < |pieces|
    ensures pieces[i + 1].body != []
    ensures var line, limit := pieces[i + 1].body[0], if maxChars - 48 > 1 then maxChars - 48 else 1;
      && !(line != "" && line[0] == '\\')
      && |Join(pieces[i].body + [line], "\n")| + 1 > limit
  {
    hide ParseHeader, Tiles, BodyLength, Join, Fits;
    CutLateAt(pieces, Max(maxChars - HEADER_RESERVE, 1), i);
    LengthWith(pieces[i].body, pieces[i + 1].body[0]);
  }

  lemma {:induction false} LengthWith(body: seq<Line>, line: Line)
    requires body != []
    ensures |Join(body + [line], "\n")| == BodyLength(body) + |line|
  {
    hide Join;
    var rest := body[1..] + [line];
    assert body + [line] == [body[0]] + rest;
    JoinedLength(body[0], rest);
    CountsAppend(body[1..], [line]);
    CountsOne(line);
  }

  // ---------- the context chunks of a piece ----------

  predicate IsWithin(hunk: Hunk, range: (int, int)) {
    && DeclaredRange(hunk).Some?
    && range.0 <= DeclaredRange(hunk).value.0 && DeclaredRange(hunk).value.1 <= range.1
  }

  /** The range of a group runs from the least first line to the greatest last line of its hunks. */
  lemma {:induction false} NewRangeIs(hunks: seq<Hunk>) returns (g: Hunk, h: Hunk)
    requires NewRange(hunks).Some?
    ensures g in hunks && h in hunks && DeclaredRange(g).Some? && DeclaredRange(h).Some?
    ensures NewRange(hunks).value == (DeclaredRange(g).value.0, DeclaredRange(h).value.1)
    ensures forall q :: q in hunks ==> IsWithin(q, NewRange(hunks).value)
  {
    hide DeclaredRange;
    var front, last := hunks[..|hunks| - 1], hunks[|hunks| - 1];
    g, h := last, last;
    if front != [] {
      var a, b := NewRangeIs(front);
      assert forall q :: q in hunks ==> q in front || q == last;
      if DeclaredRange(a).value.0 < DeclaredRange(last).value.0 {
        g := a;
      }
      if DeclaredRange(b).value.1 > DeclaredRange(last).value.1 {
        h := b;
      }
    }
  }

  /** A missing count is one line, and a hunk without new lines still spans one. */
  lemma {:induction false} DeclaredRangeIs(hunk: Hunk)
    ensures DeclaredRange(hunk).Some? <==> ParseHeader(hunk.first).Some?
    ensures ParseHeader(hunk.first).Some? ==>
      var header := ParseHeader(hunk.first).value;
      && DeclaredRange(hunk).value.0 == header.newStart
      && DeclaredRange(hunk).value.1 == header.newStart
           + if header.newCount.Some? && header.newCount.value > 0 then header.newCount.value - 1 else 0
  {
    hide ParseHeader;
  }

  lemma {:induction false} NoRange(hunks: seq<Hunk>)
    ensures NewRange(hunks).Some? <==> hunks != [] && forall h :: h in hunks ==> DeclaredRange(h).Some?
  {
    hide DeclaredRange;
    if hunks != [] {
      var front, last := hunks[..|hunks| - 1], hunks[|hunks| - 1];
      assert last in hunks;
      NoRange(front);
    }
  }

  /** Both headers parse, and the chunk reaches from no later than the end of the second to the start of the first. */
  predicate Reaches(chunk: Chunk, g: Hunk, h: Hunk) {
    && ParseHeader(g.first).Some? && ParseHeader(h.first).Some? && chunk.range.Some?
    && chunk.range.value.1 >= ParseHeader(g.first).value.newStart
    && chunk.range.value.0 <= LastLine(ParseHeader(h.first).value)
  }

  /** The last new-file line a header declares. */
  function LastLine(header: Header): int {
    header.newStart + if header.newCount.Some? && header.newCount.value > 0 then header.newCount.value - 1 else 0
  }

  /**
   Of the chunks of a file that is split, a piece carries, in their order, exactly those whose range
   parses and reaches from no later than the last line of some hunk of the piece to no earlier than the
   first line of some hunk of the piece; and none if a header in the piece does not parse.
   */
  lemma {:induction false} AttachedChunks(
      pieces: seq<Target>, parts: seq<seq<Hunk>>, target: Target, sizeOf: Target -> nat, maxChars: int, piece: Target)
    returns (kept: seq<nat>)
    requires IsTargetSplit(pieces, parts, target, sizeOf, maxChars) && sizeOf(target) > maxChars && piece in pieces
    ensures |kept| == |piece.chunks| && (forall k, l :: 0 <= k < l < |kept| ==> kept[k] < kept[l])
    ensures forall k :: 0 <= k < |kept| ==> kept[k] < |target.chunks| && piece.chunks[k] == target.chunks[kept[k]]
    ensures forall i :: 0 <= i < |target.chunks| ==>
      (i in kept <==>
        && target.chunks[i].range.Some?
        && (forall q :: q in piece.hunks ==> ParseHeader(q.first).Some?)
        && exists g, h :: g in piece.hunks && h in piece.hunks && Reaches(target.chunks[i], g, h))
  {
    hide ParseHeader, NewRange, DeclaredRange, SplitEach, LastLine;
    var hunks := piece.hunks;
    assert piece == Make(target, hunks) && hunks != [];
    NoRange(hunks);
    forall q: Hunk ensures DeclaredRange(q).Some? <==> ParseHeader(q.first).Some?
      ensures DeclaredRange(q).Some? ==>
        DeclaredRange(q).value == (ParseHeader(q.first).value.newStart as int, LastLine(ParseHeader(q.first).value))
    {
      RangeOf(q);
    }
    if NewRange(hunks).None? {
      kept := [];
      assert piece.chunks == [];
    } else {
      var range := NewRange(hunks).value;
      var g, h := NewRangeIs(hunks);
      kept := FilterPicks((chunk: Chunk) => Overlaps(chunk, range), target.chunks);
      forall i | 0 <= i < |target.chunks|
        ensures Overlaps(target.chunks[i], range) <==>
          && target.chunks[i].range.Some?
          && exists a, b :: a in hunks && b in hunks && Reaches(target.chunks[i], a, b)
      {
        OverlapIff(target.chunks[i], range, hunks, g, h);
      }
    }
  }

  lemma {:induction false} RangeOf(q: Hunk)
    ensures DeclaredRange(q).Some? <==> ParseHeader(q.first).Some?
    ensures DeclaredRange(q).Some? ==>
      DeclaredRange(q).value == (ParseHeader(q.first).value.newStart as int, LastLine(ParseHeader(q.first).value))
  {
    hide ParseHeader, DeclaredRange;
    DeclaredRangeIs(q);
  }

  lemma {:induction false} OverlapIff(chunk: Chunk, range: (int, int), hunks: seq<Hunk>, g: Hunk, h: Hunk)
    requires g in hunks && h in hunks && DeclaredRange(g).Some? && DeclaredRange(h).Some?
    requires range == (DeclaredRange(g).value.0, DeclaredRange(h).value.1)
    requires forall q :: q in hunks ==> IsWithin(q, range)
    ensures Overlaps(chunk, range) <==>
      && chunk.range.Some?
      && exists a, b :: a in hunks && b in hunks && Reaches(chunk, a, b)
  {
    hide ParseHeader, DeclaredRange, LastLine;
    RangeOf(g);
    RangeOf(h);
    if a, b :| a in hunks && b in hunks && Reaches(chunk, a, b) {
      RangeOf(a);
      RangeOf(b);
    }
    if Overlaps(chunk, range) {
      assert Reaches(chunk, g, h);
    }
  }
}
