/** Cutting the rendered files of a batch down to the diff budget (`_truncate_diff_blocks_detailed`). */
module DiffBlocks {
  import opened Wrappers
  import opened Seqs
  import opened Text

  const MAX_DIFF_FILE_CHARS := 8000
  const MAX_DIFF_TOTAL_CHARS := 20000

  /** A file and its rendered text. */
  datatype Block = Block(path: string, text: string)

  /** `text.find("\n")`. */
  function FirstNewline(text: string): (r: int)
    ensures -1 <= r < |text|
    ensures r >= 0 ==> text[r] == '\n'
    ensures forall i :: 0 <= i < |text| && (r < 0 || i < r) ==> text[i] != '\n'
  {
    if text == "" then -1
    else if text[0] == '\n' then 0
    else
      var r := FirstNewline(text[1..]);
      if r < 0 then -1 else r + 1
  }

  /**
   A cut at the limit ends on the title line or inside it: the first line break stands in the upper half of
   the limit or behind it, and no other one in front of the limit.
   */
  ghost predicate OnlyTitle(text: string, limit: nat) {
    exists h: nat ::
      && h < |text| && text[h] == '\n' && (forall i :: 0 <= i < h ==> text[i] != '\n')
      && limit / 2 <= h && (forall i :: h < i < limit && i < |text| ==> text[i] != '\n')
  }

  /** What is shown of a file under a limit; nothing when not even one line below its title would be. */
  function Shown(text: string, limit: int): (r: Option<string>)
    requires limit > 0
    ensures r.Some? ==> |r.value| <= limit
    ensures |text| <= limit ==> r == Some(text)
    ensures |text| > limit && r.Some? ==> limit >= |TRUNC_MSG| && IsCutAt(text, limit - |TRUNC_MSG|, r.value)
    ensures |text| > limit ==> (r.None? <==> limit < |TRUNC_MSG| || OnlyTitle(text, limit - |TRUNC_MSG|))
    ensures r.Some? && |text| > limit ==>
      exists cut: nat :: cut < |text| && FirstNewline(text) < cut && r.value == text[..cut] + TRUNC_MSG
  {
    if |text| <= limit then Some(text)
    else if limit < |TRUNC_MSG| then None
    else
      var cut := CutAtLineBoundary(text, limit - |TRUNC_MSG|);
      var headerEnd := FirstNewline(text);
      if headerEnd != -1 && cut <= headerEnd then None
      else Some(text[..cut] + TRUNC_MSG)
  }

  /** The texts shown, one for each file of a front part of the blocks. */
  function Kept(blocks: seq<Block>, maxFile: int, room: int): (r: seq<string>)
    requires maxFile > 0
    ensures |r| <= |blocks|
  {
    if blocks == [] || room <= 0 then [] else
    match Shown(blocks[0].text, Min(maxFile, room))
    case None => []
    case Some(text) => [text] + Kept(blocks[1..], maxFile, room - |text|)
  }

  function BlockPath(block: Block): string {
    block.path
  }

  /** Paths of the files shown only in part. */
  function CutPaths(blocks: seq<Block>, kept: seq<string>): seq<string>
    requires |kept| <= |blocks|
  {
    if kept == [] then [] else
    CutPaths(blocks[..|kept| - 1], kept[..|kept| - 1])
      + if kept[|kept| - 1] != blocks[|kept| - 1].text then [blocks[|kept| - 1].path] else []
  }

  /** Tells the model that files it cannot see have changed. */
  function DroppedNote(dropped: seq<string>): string {
    if dropped == [] then "" else
    "\n\n(크기 제한으로 생략된 파일 " + PrintNat(|dropped|) + "개: " + Join(dropped, ", ")
      + " — 내용은 볼 수 없으나 변경이 있었다는 사실은 알아둘 것)"
  }

  datatype DiffText = DiffText(text: string, dropped: seq<string>, truncated: seq<string>)

  function Truncated(blocks: seq<Block>, maxFile: int, maxTotal: int): DiffText
    requires maxFile > 0
  {
    var kept := Kept(blocks, maxFile, maxTotal);
    var dropped := Map(BlockPath, blocks[|kept|..]);
    DiffText(Join(kept, "\n\n") + DroppedNote(dropped), dropped, CutPaths(blocks[..|kept|], kept))
  }

  lemma {:induction false} KeptFrom(blocks: seq<Block>, i: nat, maxFile: int, room: int)
    requires i < |blocks| && maxFile > 0
    ensures Kept(blocks[i..], maxFile, room) ==
      if room <= 0 then [] else
      match Shown(blocks[i].text, Min(maxFile, room))
      case None => []
      case Some(text) => [text] + Kept(blocks[i + 1..], maxFile, room - |text|)
  {
    hide Shown;
    assert blocks[i..][0] == blocks[i] && blocks[i..][1..] == blocks[i + 1..];
  }

  lemma {:induction false} CutPathsSnoc(blocks: seq<Block>, texts: seq<string>, text: string)
    requires |texts| < |blocks|
    ensures CutPaths(blocks[..|texts| + 1], texts + [text])
         == CutPaths(blocks[..|texts|], texts) + if text != blocks[|texts|].text then [blocks[|texts|].path] else []
  {
    assert blocks[..|texts| + 1][..|texts|] == blocks[..|texts|];
    assert (texts + [text])[..|texts|] == texts;
  }

  lemma {:induction false} NothingKept(blocks: seq<Block>, maxFile: int, room: int)
    requires maxFile > 0
    ensures Kept([], maxFile, room) == [] && CutPaths(blocks[..0], []) == []
  {}

  method TruncateDiffBlocks(blocks: seq<Block>, maxFile: int, maxTotal: int) returns (r: DiffText)
    requires maxFile > 0
    ensures r == Truncated(blocks, maxFile, maxTotal)
  {
    hide Shown, Join, DroppedNote, Map, Kept, CutPaths;
    NothingKept(blocks, maxFile, maxTotal);
    var truncated: seq<string>, droppedPaths: seq<string>, truncatedPaths: seq<string> := [], [], [];
    var total, i := 0, 0;
    assert blocks[0..] == blocks;
    while i < |blocks|
      invariant 0 <= i <= |blocks| && |truncated| == i
      invariant Kept(blocks, maxFile, maxTotal) == truncated + Kept(blocks[i..], maxFile, maxTotal - total)
      invariant truncatedPaths == CutPaths(blocks[..i], truncated)
      invariant droppedPaths == []
    {
      var remaining := maxTotal - total;
      KeptFrom(blocks, i, maxFile, remaining);
      if remaining <= 0 {
        droppedPaths := Map(BlockPath, blocks[i..]);
        break;
      }
      var shown := Shown(blocks[i].text, Min(maxFile, remaining));
      if shown.None? {
        droppedPaths := Map(BlockPath, blocks[i..]);
        break;
      }
      CutPathsSnoc(blocks, truncated, shown.value);
      Assoc(truncated, [shown.value], Kept(blocks[i + 1..], maxFile, remaining - |shown.value|));
      if shown.value != blocks[i].text {
        truncatedPaths := truncatedPaths + [blocks[i].path];
      }
      truncated := truncated + [shown.value];
      total := total + |shown.value|;
      i := i + 1;
    }
    NothingKept(blocks, maxFile, maxTotal - total);
    assert Kept(blocks, maxFile, maxTotal) == truncated;
    r := DiffText(Join(truncated, "\n\n") + DroppedNote(droppedPaths), droppedPaths, truncatedPaths);
  }

  // ---------- what truncation guarantees ----------

  function Lengths(texts: seq<string>): nat {
    if texts == [] then 0 else |texts[0]| + Lengths(texts[1..])
  }

  function TextsOf(blocks: seq<Block>): (r: seq<string>)
    ensures |r| == |blocks|
  {
    if blocks == [] then [] else [blocks[0].text] + TextsOf(blocks[1..])
  }

  /** Kept texts together stay within the total, and each within the per-file cap. */
  lemma {:induction false} KeptWithinBudget(blocks: seq<Block>, maxFile: int, room: int)
    requires maxFile > 0
    ensures var kept := Kept(blocks, maxFile, room);
      && Lengths(kept) <= (if room > 0 then room else 0)
      && forall i :: 0 <= i < |kept| ==> |kept[i]| <= maxFile
  {
    if blocks != [] && room > 0 {
      var shown := Shown(blocks[0].text, Min(maxFile, room));
      if shown.Some? {
        KeptWithinBudget(blocks[1..], maxFile, room - |shown.value|);
      }
    }
  }

  /** Every kept file shows its whole text, or a front part that reaches below its title line. */
  lemma {:induction false} KeptShowsDiff(blocks: seq<Block>, maxFile: int, room: int, i: nat)
    requires maxFile > 0 && i < |Kept(blocks, maxFile, room)|
    ensures var kept, text := Kept(blocks, maxFile, room)[i], blocks[i].text;
      kept == text || exists cut: nat :: cut < |text| && FirstNewline(text) < cut && kept == text[..cut] + TRUNC_MSG
  {
    hide Shown;
    if i > 0 {
      KeptShowsDiff(blocks[1..], maxFile, room - |Kept(blocks, maxFile, room)[0]|, i - 1);
    }
  }

  predicate EachWithin(blocks: seq<Block>, maxFile: int) {
    blocks == [] || (|blocks[0].text| <= maxFile && EachWithin(blocks[1..], maxFile))
  }

  lemma {:induction false} EachWithinIsForall(blocks: seq<Block>, maxFile: int)
    ensures EachWithin(blocks, maxFile) <==> forall i :: 0 <= i < |blocks| ==> |blocks[i].text| <= maxFile
  {
    if blocks != [] {
      EachWithinIsForall(blocks[1..], maxFile);
      assert forall i :: 0 <= i < |blocks[1..]| ==> blocks[1..][i] == blocks[i + 1];
      assert forall i :: 0 < i < |blocks| ==> blocks[i] == blocks[1..][i - 1];
    }
  }

  /**
   Nothing is dropped or cut exactly when every file is within the per-file cap and all of them
   together are within the total. Rendered files are never empty: they start with a title line.
   */
  lemma {:induction false} NothingLostIff(blocks: seq<Block>, maxFile: int, room: int)
    requires maxFile > 0 && forall i :: 0 <= i < |blocks| ==> blocks[i].text != ""
    ensures Kept(blocks, maxFile, room) == TextsOf(blocks)
      <==> blocks == [] || (EachWithin(blocks, maxFile) && Lengths(TextsOf(blocks)) <= room)
  {
    hide Shown, FirstNewline, EachWithin, Lengths, Kept, TextsOf;
    KeptFirst(blocks, maxFile, room);
    NoTexts(maxFile);
    if blocks != [] {
      var text, rest := blocks[0].text, blocks[1..];
      LengthsFirst(blocks, maxFile);
      if room > 0 {
        var shown := Shown(text, Min(maxFile, room));
        if shown.Some? {
          ConsEqual(shown.value, Kept(rest, maxFile, room - |shown.value|), text, TextsOf(rest));
          NothingLostIff(rest, maxFile, room - |shown.value|);
          assert rest == [] ==> EachWithin(rest, maxFile) && Lengths(TextsOf(rest)) == 0;
        }
      }
    }
  }

  lemma {:induction false} NoTexts(maxFile: int)
    ensures TextsOf([]) == [] && Lengths([]) == 0 && EachWithin([], maxFile)
  {}

  lemma {:induction false} KeptFirst(blocks: seq<Block>, maxFile: int, room: int)
    requires maxFile > 0
    ensures Kept(blocks, maxFile, room) ==
      if blocks == [] || room <= 0 then []
      else match Shown(blocks[0].text, Min(maxFile, room))
        case None => []
        case Some(text) => [text] + Kept(blocks[1..], maxFile, room - |text|)
  {
    hide Shown;
  }

  lemma {:induction false} LengthsFirst(blocks: seq<Block>, maxFile: int)
    requires blocks != []
    ensures TextsOf(blocks) == [blocks[0].text] + TextsOf(blocks[1..])
    ensures Lengths(TextsOf(blocks)) == |blocks[0].text| + Lengths(TextsOf(blocks[1..]))
    ensures EachWithin(blocks, maxFile) <==> |blocks[0].text| <= maxFile && EachWithin(blocks[1..], maxFile)
  {
    assert ([blocks[0].text] + TextsOf(blocks[1..]))[1..] == TextsOf(blocks[1..]);
  }

  /** Then no path is reported, neither as dropped nor as cut. */
  lemma {:induction false} NothingReported(blocks: seq<Block>, maxFile: int, room: int)
    requires maxFile > 0 && Kept(blocks, maxFile, room) == TextsOf(blocks)
    ensures Truncated(blocks, maxFile, room).dropped == [] && Truncated(blocks, maxFile, room).truncated == []
  {
    NothingCut(blocks);
    assert blocks[..|blocks|] == blocks;
  }

  lemma {:induction false} TextsOfAt(blocks: seq<Block>, i: nat)
    requires i < |blocks|
    ensures TextsOf(blocks)[i] == blocks[i].text
  {
    if i > 0 {
      TextsOfAt(blocks[1..], i - 1);
    }
  }

  lemma {:induction false} NothingCut(blocks: seq<Block>)
    ensures CutPaths(blocks, TextsOf(blocks)) == []
  {
    if blocks != [] {
      var k := |blocks| - 1;
      TextsOfAt(blocks, k);
      assert TextsOf(blocks)[..k] == TextsOf(blocks[..k]) by {
        forall i | 0 <= i < k ensures TextsOf(blocks)[i] == TextsOf(blocks[..k])[i] {
          TextsOfAt(blocks, i);
          TextsOfAt(blocks[..k], i);
        }
      }
      NothingCut(blocks[..k]);
    }
  }

  lemma {:induction false} NoneCutIsWhole(blocks: seq<Block>, kept: seq<string>)
    requires |kept| == |blocks| && CutPaths(blocks, kept) == []
    ensures kept == TextsOf(blocks)
  {
    if kept != [] {
      var k := |kept| - 1;
      NoneCutIsWhole(blocks[..k], kept[..k]);
      TextsOfAt(blocks, k);
      forall i | 0 <= i < k ensures kept[i] == TextsOf(blocks)[i] {
        TextsOfAt(blocks, i);
        TextsOfAt(blocks[..k], i);
      }
    }
  }

  /** The report stays empty exactly when the files fit, one by one and together. */
  lemma {:induction false} ReportEmptyIff(blocks: seq<Block>, maxFile: int, room: int)
    requires maxFile > 0 && forall i :: 0 <= i < |blocks| ==> blocks[i].text != ""
    ensures var r := Truncated(blocks, maxFile, room);
      r.dropped == [] && r.truncated == []
      <==> blocks == [] || (EachWithin(blocks, maxFile) && Lengths(TextsOf(blocks)) <= room)
  {
    NothingLostIff(blocks, maxFile, room);
    var kept, r := Kept(blocks, maxFile, room), Truncated(blocks, maxFile, room);
    if r.dropped == [] && r.truncated == [] {
      assert |blocks[|kept|..]| == 0 && blocks[..|kept|] == blocks;
      NoneCutIsWhole(blocks, kept);
    }
    if kept == TextsOf(blocks) {
      NothingReported(blocks, maxFile, room);
    }
  }

  /** Dropped paths are a suffix of the batch's, cut paths come from the files in front of it. */
  lemma {:induction false} ReportedPaths(blocks: seq<Block>, maxFile: int, room: int)
    requires maxFile > 0
    ensures var r, k := Truncated(blocks, maxFile, room), |Kept(blocks, maxFile, room)|;
      && r.dropped == Map(BlockPath, blocks)[k..]
      && forall p :: p in r.truncated ==> p in Map(BlockPath, blocks)[..k]
  {
    var kept := Kept(blocks, maxFile, room);
    assert Map(BlockPath, blocks[|kept|..]) == Map(BlockPath, blocks)[|kept|..];
    CutPathsInside(blocks[..|kept|], kept);
    assert Map(BlockPath, blocks[..|kept|]) == Map(BlockPath, blocks)[..|kept|];
  }

  lemma {:induction false} CutPathsInside(blocks: seq<Block>, kept: seq<string>)
    requires |kept| <= |blocks|
    ensures forall p :: p in CutPaths(blocks, kept) ==> p in Map(BlockPath, blocks)
  {
    if kept != [] {
      var k := |kept| - 1;
      CutPathsInside(blocks[..k], kept[..k]);
      assert Map(BlockPath, blocks[..k]) == Map(BlockPath, blocks)[..k];
      assert Map(BlockPath, blocks)[k] == blocks[k].path;
    }
  }

  // ---------- the text shown ----------

  /** The note on dropped files: their number, and their paths one behind the other. */
  lemma {:induction false} NoteTells(dropped: seq<string>) returns (number: string, list: string, starts: seq<nat>)
    ensures dropped == [] <==> DroppedNote(dropped) == ""
    ensures dropped != [] ==>
      && DroppedNote(dropped) == "\n\n(크기 제한으로 생략된 파일 " + number + "개: " + list
           + " — 내용은 볼 수 없으나 변경이 있었다는 사실은 알아둘 것)"
      && (forall i :: 0 <= i < |number| ==> '0' <= number[i] <= '9') && ParseNat(number) == |dropped|
      && |starts| == |dropped| && starts[0] == 0 && starts[|dropped| - 1] + |dropped[|dropped| - 1]| == |list|
      && (forall i :: 0 <= i < |dropped| ==>
            starts[i] + |dropped[i]| <= |list| && list[starts[i]..starts[i] + |dropped[i]|] == dropped[i])
      && (forall i, next :: 0 <= i && next == i + 1 < |dropped| ==>
            var end := starts[i] + |dropped[i]|;
            starts[next] == end + 2 && list[end..starts[next]] == ", ")
  {
    hide Join, PrintNat, ParseNat;
    number, list := PrintNat(|dropped|), Join(dropped, ", ");
    ParsePrintNat(|dropped|);
    starts := JoinedAt(dropped, ", ");
  }

  /**
   The diff text holds the kept texts one behind the other, an empty line between any two, and behind the
   last one the note on the dropped files, if there are any.
   */
  lemma {:induction false} DiffTextHolds(blocks: seq<Block>, maxFile: int, maxTotal: int)
    returns (starts: seq<nat>, end: nat)
    requires maxFile > 0
    ensures var kept, diff := Kept(blocks, maxFile, maxTotal), Truncated(blocks, maxFile, maxTotal);
      && |starts| == |kept| && end <= |diff.text|
      && (forall i :: 0 <= i < |kept| ==>
            starts[i] + |kept[i]| <= end && diff.text[starts[i]..starts[i] + |kept[i]|] == kept[i])
      && (if kept == [] then end == 0 else starts[0] == 0 && end == starts[|kept| - 1] + |kept[|kept| - 1]|)
      && (forall i, next :: 0 <= i && next == i + 1 < |kept| ==>
            var stop := starts[i] + |kept[i]|;
            starts[next] == stop + 2 && diff.text[stop..starts[next]] == "\n\n")
      && diff.text[end..] == DroppedNote(diff.dropped)
      && |diff.dropped| == |blocks| - |kept|
      && forall i :: 0 <= i < |diff.dropped| ==> diff.dropped[i] == blocks[|kept| + i].path
  {
    hide Kept, Join, DroppedNote, CutPaths;
    var kept, diff := Kept(blocks, maxFile, maxTotal), Truncated(blocks, maxFile, maxTotal);
    starts := JoinedAt(kept, "\n\n");
    var joined, note := Join(kept, "\n\n"), DroppedNote(diff.dropped);
    end := |joined|;
    assert diff.text == joined + note;
    assert diff.text[end..] == note;
    forall i | 0 <= i < |kept| ensures diff.text[starts[i]..starts[i] + |kept[i]|] == kept[i] {
      InFront(joined, note, starts[i], starts[i] + |kept[i]|);
    }
    forall i, next | 0 <= i && next == i + 1 < |kept|
      ensures diff.text[starts[i] + |kept[i]|..starts[next]] == "\n\n"
    {
      InFront(joined, note, starts[i] + |kept[i]|, starts[next]);
    }
  }

  lemma {:induction false} InFront(text: string, back: string, a: nat, b: nat)
    requires a <= b <= |text|
    ensures (text + back)[a..b] == text[a..b]
  {}
}
