/**
 Hunk headers and new-file line numbers (app/review/diff_lines.py, app/review/diff.py). Text is a
 sequence of lines without line breaks.
 */
module DiffLines {
  import opened Wrappers
  import opened Seqs
  import opened Text

  type Line = string

  // ---------- hunk headers ----------

  /** What the three header patterns capture; a count is absent when the header leaves it out. */
  datatype Header = Header(oldStart: nat, oldCount: Option<nat>, newStart: nat, newCount: Option<nat>, tail: string)

  function Eat(prefix: string, s: string): Option<string> {
    if prefix <= s then Some(s[|prefix|..]) else None
  }

  /** `\d+` at the front of `s`. */
  function EatNat(s: string): Option<(nat, string)> {
    var n := Digits(s);
    if n == 0 then None else Some((ParseNat(s[..n]), s[n..]))
  }

  /** `(?:,\d+)?` at the front of `s`. */
  function EatCount(s: string): (Option<nat>, string) {
    if s == "" || s[0] != ',' then (None, s)
    else match EatNat(s[1..])
      case None => (None, s)
      case Some(n) => (Some(n.0), n.1)
  }

  /** One side of a header: `start` or `start,count`. */
  function EatRange(s: string): Option<(nat, Option<nat>, string)> {
    match EatNat(s)
    case None => None
    case Some(start) => var count := EatCount(start.1); Some((start.0, count.0, count.1))
  }

  function ParseHeader(line: Line): (h: Option<Header>)
    ensures h.Some? ==> "@@" <= line
  {
    match Eat("@@ -", line)
    case None => None
    case Some(s0) =>
      match EatRange(s0)
      case None => None
      case Some((oldStart, oldCount, s1)) =>
        match Eat(" +", s1)
        case None => None
        case Some(s2) =>
          match EatRange(s2)
          case None => None
          case Some((newStart, newCount, s3)) =>
            match Eat(" @@", s3)
            case None => None
            case Some(tail) => Some(Header(oldStart, oldCount, newStart, newCount, tail))
  }

  function PrintRange(start: nat, count: nat): string {
    PrintNat(start) + ("," + PrintNat(count))
  }

  function PrintHeader(oldStart: nat, oldCount: nat, newStart: nat, newCount: nat, tail: string): Line {
    "@@ -" + (PrintRange(oldStart, oldCount) + (" +" + (PrintRange(newStart, newCount) + (" @@" + tail))))
  }

  lemma {:induction false} EatPrintedNat(n: nat, rest: string)
    requires rest == "" || !IsDigit(rest[0])
    ensures EatNat(PrintNat(n) + rest) == Some((n, rest))
  {
    var s := PrintNat(n);
    DigitsOver(s, rest);
    ParsePrintNat(n);
    assert (s + rest)[..|s|] == s && (s + rest)[|s|..] == rest;
  }

  lemma {:induction false} EatPrintedRange(start: nat, count: nat, rest: string)
    requires rest == "" || !IsDigit(rest[0])
    ensures EatRange(PrintRange(start, count) + rest) == Some((start, Some(count), rest))
  {
    hide PrintNat;
    var s := "," + (PrintNat(count) + rest);
    assert PrintRange(start, count) + rest == PrintNat(start) + s;
    EatPrintedNat(start, s);
    assert s[1..] == PrintNat(count) + rest;
    EatPrintedNat(count, rest);
  }

  lemma {:induction false} EatPrefix(prefix: string, rest: string)
    ensures Eat(prefix, prefix + rest) == Some(rest)
  {
    assert (prefix + rest)[|prefix|..] == rest;
  }

  /** A regenerated header parses back to its own numbers. */
  lemma {:induction false} HeaderRoundTrip(oldStart: nat, oldCount: nat, newStart: nat, newCount: nat, tail: string)
    ensures ParseHeader(PrintHeader(oldStart, oldCount, newStart, newCount, tail))
         == Some(Header(oldStart, Some(oldCount), newStart, Some(newCount), tail))
  {
    var s3 := " @@" + tail;
    var s2 := PrintRange(newStart, newCount) + s3;
    var s1 := " +" + s2;
    var s0 := PrintRange(oldStart, oldCount) + s1;
    EatPrefix("@@ -", s0);
    EatPrintedRange(oldStart, oldCount, s1);
    EatPrefix(" +", s2);
    EatPrintedRange(newStart, newCount, s3);
    EatPrefix(" @@", tail);
  }

  // ---------- line numbers ----------

  predicate CountsAsNewFileLine(line: Line) {
    line == "" || (line[0] != '-' && line[0] != '\\')
  }

  predicate CountsAsOldFileLine(line: Line) {
    line == "" || (line[0] != '+' && line[0] != '\\')
  }

  function NewCount(lines: seq<Line>): nat {
    if lines == [] then 0 else (if CountsAsNewFileLine(lines[0]) then 1 else 0) + NewCount(lines[1..])
  }

  function OldCount(lines: seq<Line>): nat {
    if lines == [] then 0 else (if CountsAsOldFileLine(lines[0]) then 1 else 0) + OldCount(lines[1..])
  }

  function Label(n: nat, line: Line): Line {
    "R" + PrintNat(n) + " " + line
  }

  /** The lines with new-file numbers in front; `next` is the number of the next new-file line, once known. */
  function Annotated(lines: seq<Line>, next: Option<nat>): (r: seq<Line>)
    ensures |r| == |lines|
  {
    if lines == [] then [] else
    var line, rest := lines[0], lines[1..];
    var header := ParseHeader(line);
    if header.Some? then [line] + Annotated(rest, Some(header.value.newStart))
    else if next.None? || !CountsAsNewFileLine(line) then [line] + Annotated(rest, next)
    else [Label(next.value, line)] + Annotated(rest, Some(next.value + 1))
  }

  /** The new-file lines a reader of the patch can see. */
  function Visible(lines: seq<Line>, next: Option<nat>): set<nat> {
    if lines == [] then {} else
    var line, rest := lines[0], lines[1..];
    var header := ParseHeader(line);
    if header.Some? then Visible(rest, Some(header.value.newStart))
    else if next.None? || !CountsAsNewFileLine(line) then Visible(rest, next)
    else {next.value} + Visible(rest, Some(next.value + 1))
  }

  method AnnotateHunk(hunk: seq<Line>) returns (out: seq<Line>)
    ensures out == Annotated(hunk, None)
  {
    hide ParseHeader, Label, CountsAsNewFileLine;
    out := [];
    var newLine: Option<nat> := None;
    assert hunk[0..] == hunk;
    for i := 0 to |hunk|
      invariant Annotated(hunk, None) == out + Annotated(hunk[i..], newLine)
    {
      var line := hunk[i];
      assert hunk[i..][0] == line && hunk[i..][1..] == hunk[i + 1..];
      var header := ParseHeader(line);
      ghost var rest := hunk[i + 1..];
      if header.Some? {
        newLine := Some(header.value.newStart);
        Assoc(out, [line], Annotated(rest, newLine));
        out := out + [line];
      } else if newLine.None? || !CountsAsNewFileLine(line) {
        Assoc(out, [line], Annotated(rest, newLine));
        out := out + [line];
      } else {
        Assoc(out, [Label(newLine.value, line)], Annotated(rest, Some(newLine.value + 1)));
        out := out + [Label(newLine.value, line)];
        newLine := Some(newLine.value + 1);
      }
    }
  }

  method VisibleRightLines(patch: seq<Line>) returns (lines: set<nat>)
    ensures lines == Visible(patch, None)
  {
    hide ParseHeader, CountsAsNewFileLine;
    lines := {};
    var newLine: Option<nat> := None;
    assert patch[0..] == patch;
    for i := 0 to |patch|
      invariant Visible(patch, None) == lines + Visible(patch[i..], newLine)
    {
      var line := patch[i];
      assert patch[i..][0] == line && patch[i..][1..] == patch[i + 1..];
      var header := ParseHeader(line);
      if header.Some? {
        newLine := Some(header.value.newStart);
      } else if newLine.Some? && CountsAsNewFileLine(line) {
        lines := lines + {newLine.value};
        newLine := Some(newLine.value + 1);
      }
    }
  }

  // ---------- patches and hunks ----------

  predicate StartsHunk(line: Line) {
    "@@" <= line
  }

  predicate NoHunkStart(lines: seq<Line>) {
    forall i :: 0 <= i < |lines| ==> !StartsHunk(lines[i])
  }

  /** A hunk's text: its first line, and the lines behind it. Splitting any text yields a first line. */
  datatype Hunk = Hunk(first: Line, body: seq<Line>) {
    function Lines(): seq<Line> {
      [first] + body
    }
  }

  /** One `@@` line, then lines that start no hunk. */
  predicate IsHunk(hunk: Hunk) {
    StartsHunk(hunk.first) && NoHunkStart(hunk.body)
  }

  function AllLines(hunks: seq<Hunk>): seq<Line> {
    if hunks == [] then [] else AllLines(hunks[..|hunks| - 1]) + hunks[|hunks| - 1].Lines()
  }

  /** What a patch keeps once the lines before its first `@@` line are gone. */
  function FromFirstHunk(patch: seq<Line>): seq<Line> {
    if patch == [] || StartsHunk(patch[0]) then patch else FromFirstHunk(patch[1..])
  }

  lemma {:induction false} FromFirstHunkSnoc(lines: seq<Line>, line: Line)
    ensures FromFirstHunk(lines + [line])
         == if FromFirstHunk(lines) != [] || StartsHunk(line) then FromFirstHunk(lines) + [line] else []
  {
    if lines == [] {
      assert lines + [line] == [line] && [line][1..] == [];
    } else {
      assert (lines + [line])[0] == lines[0] && (lines + [line])[1..] == lines[1..] + [line];
      if !StartsHunk(lines[0]) {
        FromFirstHunkSnoc(lines[1..], line);
      }
    }
  }

  lemma {:induction false} AllLinesSnoc(hunks: seq<Hunk>, hunk: Hunk)
    ensures AllLines(hunks + [hunk]) == AllLines(hunks) + hunk.Lines()
  {
    assert (hunks + [hunk])[..|hunks|] == hunks;
  }

  lemma {:induction false} OneLineMore(hunk: Hunk, line: Line)
    requires IsHunk(hunk) && !StartsHunk(line)
    ensures IsHunk(Hunk(hunk.first, hunk.body + [line]))
    ensures Hunk(hunk.first, hunk.body + [line]).Lines() == hunk.Lines() + [line]
  {
    hide StartsHunk;
  }

  lemma {:induction false} FirstLine(line: Line)
    requires StartsHunk(line)
    ensures IsHunk(Hunk(line, [])) && Hunk(line, []).Lines() == [line]
    ensures AllLines([]) == FromFirstHunk([]) == []
  {}

  function Pending(current: Option<Hunk>): seq<Line> {
    if current.Some? then current.value.Lines() else []
  }

  /** The hunks of a patch: they hold every line from the first `@@` line on, in order. */
  method SplitHunks(patch: seq<Line>) returns (hunks: seq<Hunk>)
    ensures forall h :: h in hunks ==> IsHunk(h)
    ensures AllLines(hunks) == FromFirstHunk(patch)
  {
    hide StartsHunk, IsHunk;
    hunks := [];
    var current: Option<Hunk> := None;
    for i := 0 to |patch|
      invariant forall h :: h in hunks ==> IsHunk(h)
      invariant current.None? ==> hunks == []
      invariant current.Some? ==> IsHunk(current.value)
      invariant FromFirstHunk(patch[..i]) == AllLines(hunks) + Pending(current)
    {
      var line := patch[i];
      assert patch[..i + 1] == patch[..i] + [line];
      FromFirstHunkSnoc(patch[..i], line);
      if StartsHunk(line) {
        FirstLine(line);
        if current.Some? {
          AllLinesSnoc(hunks, current.value);
          hunks := hunks + [current.value];
        }
        current := Some(Hunk(line, []));
      } else if current.Some? {
        OneLineMore(current.value, line);
        Assoc(AllLines(hunks), current.value.Lines(), [line]);
        current := Some(Hunk(current.value.first, current.value.body + [line]));
      }
    }
    assert patch[..|patch|] == patch;
    if current.Some? {
      AllLinesSnoc(hunks, current.value);
      hunks := hunks + [current.value];
    }
  }
}
