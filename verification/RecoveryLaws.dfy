/**
 What recovery returns, said of the findings themselves (app/llm/output_parser.py): the first findings at
 each place and message, in their order, and the summary with its notice.
 */
module RecoveryLaws {
  import opened Wrappers
  import opened Seqs
  import opened ReviewSchema
  import opened OutputParser
  import opened TruncatedOutput
  import opened FencedOutput

  // ---------- duplicates ----------

  /** Decoding item by item: an item that decodes adds its finding at the end, any other adds nothing. */
  lemma {:induction false} DecodedInOrder(raw: seq<string>, item: string, decode: string -> Option<ReviewComment>)
    ensures DecodeItems([], decode) == []
    ensures DecodeItems(raw + [item], decode)
      == DecodeItems(raw, decode) + if decode(item).Some? then [decode(item).value] else []
  {
    if raw == [] {
      assert raw + [item] == [item] && [item][1..] == [];
    } else {
      assert (raw + [item])[0] == raw[0] && (raw + [item])[1..] == raw[1..] + [item];
      DecodedInOrder(raw[1..], item, decode);
      var first := match decode(raw[0]) case None => [] case Some(r) => [r];
      Assoc(first, DecodeItems(raw[1..], decode), if decode(item).Some? then [decode(item).value] else []);
    }
  }

  /**
   Of the decoded findings, in their order, exactly those are recovered that agree with no earlier one in
   file, line and message; so no two recovered findings agree in all three.
   */
  lemma {:induction false} RecoveredAreFirst(text: string, decode: string -> Option<ReviewComment>)
    returns (kept: seq<nat>)
    ensures var all, found := DecodeItems(RecoveredItems(Strip(text)), decode), RecoveredFindings(text, decode);
      && |kept| == |found| && (forall k :: 0 <= k < |kept| ==> kept[k] < |all| && found[k] == all[kept[k]])
      && (forall k, l :: 0 <= k < l < |kept| ==> kept[k] < kept[l])
      && (forall i :: 0 <= i < |all| ==>
            (i !in kept <==> exists j :: 0 <= j < i && all[j].filePath == all[i].filePath
                                           && all[j].line == all[i].line && all[j].message == all[i].message))
      && (forall a, b :: 0 <= a < b < |found| ==>
            || found[a].filePath != found[b].filePath || found[a].line != found[b].line
            || found[a].message != found[b].message)
  {
    hide DedupeKey, Dedupe, DecodeItems, RecoveredItems, Strip;
    var all, found := DecodeItems(RecoveredItems(Strip(text)), decode), RecoveredFindings(text, decode);
    kept := FirstsAt(all, {});
    forall i, j | 0 <= j < i < |all|
      ensures DedupeKey(all[j]) == DedupeKey(all[i])
        <==> all[j].filePath == all[i].filePath && all[j].line == all[i].line && all[j].message == all[i].message
    {
      SameKeyIff(all[j], all[i]);
    }
    forall a, b | 0 <= a < b < |found| ensures DedupeKey(found[a]) != DedupeKey(found[b]) {
      assert kept[b] in kept && !IsRepeat(all, {}, kept[b]);
    }
    forall a, b | 0 <= a < b < |found|
      ensures found[a].filePath != found[b].filePath || found[a].line != found[b].line
        || found[a].message != found[b].message
    {
      SameKeyIff(found[a], found[b]);
    }
  }

  // ---------- the summary ----------

  /** What is shown of a summary literal: its decoded text if there is one, else the default, and the notice. */
  lemma {:induction false} SummaryShown(literal: Option<string>, loads: string -> Option<string>)
    ensures literal.Some? && loads(literal.value).Some? && loads(literal.value).value != "" ==>
      ShownSummary(literal, loads)
        == loads(literal.value).value + "\n\n※ 모델 출력이 중간에 잘려 일부 finding만 복구했습니다."
    ensures literal.None? || loads(literal.value).None? || loads(literal.value).value == "" ==>
      ShownSummary(literal, loads)
        == "모델 출력이 중간에 잘려 summary를 복구하지 못했습니다." + "\n\n※ 모델 출력이 중간에 잘려 일부 finding만 복구했습니다."
  {}

  // ---------- stripping ----------

  /** Trimming takes the spaces on both sides, and no more. */
  lemma {:induction false} TrimmedEnds(text: string) returns (a: nat, b: nat)
    ensures a <= b <= |text| && Trim(text) == text[a..b]
    ensures forall i :: 0 <= i < |text| && (i < a || b <= i) ==> IsSpace(text[i])
    ensures a < b ==> !IsSpace(text[a]) && !IsSpace(text[b - 1])
  {
    hide IsSpace;
    a := Spaces(text);
    var left := text[a..];
    b := |text| - TrailingSpaces(left);
    SpacesAreSpaces(text);
    SpacesStop(text);
    assert forall i :: b <= i < |text| ==> text[i] == left[i - a];
    assert a < b ==> text[b - 1] == left[b - 1 - a];
  }

  lemma {:induction false} SpacesStop(text: string)
    ensures Spaces(text) < |text| ==> !IsSpace(text[Spaces(text)])
  {
    hide IsSpace;
    if text != "" && IsSpace(text[0]) {
      SpacesStop(text[1..]);
    }
  }

  /** The characters that count as spaces, one by one. */
  lemma {:induction false} SpacesAre(c: char)
    ensures IsSpace(c) <==>
      || c in "\U{09}\U{0A}\U{0B}\U{0C}\U{0D}\U{1C}\U{1D}\U{1E}\U{1F}\U{20}\U{85}\U{A0}\U{1680}"
      || c in "\U{2000}\U{2001}\U{2002}\U{2003}\U{2004}\U{2005}\U{2006}\U{2007}\U{2008}\U{2009}\U{200A}"
      || c in "\U{2028}\U{2029}\U{202F}\U{205F}\U{3000}"
  {}

  /**
   A fence between texts without backticks, whatever it holds: stripping leaves its trimmed contents, and a
   language tag in front of them goes.
   */
  lemma {:induction false} FenceIsStripped(front: string, body: string, back: string)
    requires '`' !in front && '`' !in back && body != ""
    ensures |body| <= 4 || body[..4] != "json" ==> Strip(front + "```" + body + "```" + back) == Trim(body)
    ensures |body| > 4 && body[..4] == "json" ==> Strip(front + "```" + body + "```" + back) == Trim(body[4..])
  {
    hide Trim, Strip, FirstFence, LastFence;
    var text := front + "```" + body + "```" + back;
    var i, j := |front|, |front| + 3 + |body|;
    OuterMarks(front, body, back);
    assert text[i + 3..j] == body;
    if |body| > 4 {
      assert text[i + 3..i + 7] == body[..4] by { SliceOfSlice(text, i + 3, j, 0, 4); }
      assert text[i + 7..j] == body[4..] by { SliceOfSlice(text, i + 3, j, 4, |body|); }
    }
    StripFenced(text);
  }

  lemma {:induction false} OuterMarks(front: string, body: string, back: string)
    requires '`' !in front && '`' !in back && body != ""
    ensures var text := front + "```" + body + "```" + back;
      FirstFence(text) == Some(|front|) && LastFence(text) == Some(|front| + 3 + |body|)
  {
    hide FirstFence, LastFence;
    var text := front + "```" + body + "```" + back;
    var i, j := |front|, |front| + 3 + |body|;
    assert text[i..i + 3] == "```" && text[j..j + 3] == "```";
    ThreeMarks(text, i);
    ThreeMarks(text, j);
    forall k: nat | k < i ensures !FenceAt(text, k) {
      assert text[k] == front[k] && front[k] in front;
    }
    forall k: nat | j < k ensures !FenceAt(text, k) {
      if k + 3 <= |text| {
        assert text[k + 2] == back[k + 2 - j - 3] && back[k + 2 - j - 3] in back;
      }
    }
  }

  lemma {:induction false} ThreeMarks(text: string, i: nat)
    requires i + 3 <= |text| && text[i..i + 3] == "```"
    ensures FenceAt(text, i)
  {
    var marks := text[i..i + 3];
    assert marks == ['`', '`', '`'];
    assert text[i] == marks[0] && text[i + 1] == marks[1] && text[i + 2] == marks[2];
  }
}
