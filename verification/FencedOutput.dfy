/**
 Recovery and code fences (app/llm/output_parser.py, `_strip_fence`): exactly when the findings recovered
 from every prefix are a prefix of those recovered from the whole.
 */
module FencedOutput {
  import opened Wrappers
  import opened Seqs
  import opened ReviewSchema
  import opened OutputParser
  import opened TruncatedOutput
  import opened JsonPrinter
  import opened PrintedKeys

  // ---------- text without quotes and brackets ----------

  function ShiftSpans(spans: seq<(nat, nat)>, d: nat): seq<(nat, nat)> {
    if spans == [] then [] else [(spans[0].0 + d, spans[0].1 + d)] + ShiftSpans(spans[1..], d)
  }

  lemma {:induction false} SpansShift(rest: string, pos: nat, s: Scan, d: nat)
    ensures ItemSpans(rest, pos + d, s.(start := s.start + d)) == ShiftSpans(ItemSpans(rest, pos, s), d)
    decreases |rest|
  {
    if rest != "" {
      var c, tail := rest[0], rest[1..];
      if s.inString {
        SpansShift(tail, pos + 1,
          if s.escape then s.(escape := false)
          else if c == '\\' then s.(escape := true)
          else if c == '"' then s.(inString := false) else s, d);
      } else if c == '"' {
        SpansShift(tail, pos + 1, s.(inString := true), d);
      } else if s.depth == 0 {
        SpansShift(tail, pos + 1, if c == '{' then s.(depth := 1, start := pos) else s, d);
      } else if c == '{' || c == '[' {
        SpansShift(tail, pos + 1, s.(depth := s.depth + 1), d);
      } else if c == '}' || c == ']' {
        SpansShift(tail, pos + 1, s.(depth := s.depth - 1), d);
        ShiftCons((s.start, pos + 1), ItemSpans(tail, pos + 1, s.(depth := 0)), d);
      } else {
        SpansShift(tail, pos + 1, s, d);
      }
    }
  }

  lemma {:induction false} ShiftCons(span: (nat, nat), spans: seq<(nat, nat)>, d: nat)
    ensures ShiftSpans([span] + spans, d) == [(span.0 + d, span.1 + d)] + ShiftSpans(spans, d)
  {
    assert ([span] + spans)[1..] == spans;
  }

  lemma {:induction false} ShiftAt(spans: seq<(nat, nat)>, d: nat)
    ensures |ShiftSpans(spans, d)| == |spans|
    ensures forall i :: 0 <= i < |spans| ==> ShiftSpans(spans, d)[i] == (spans[i].0 + d, spans[i].1 + d)
  {
    if spans != [] {
      ShiftAt(spans[1..], d);
    }
  }

  lemma {:induction false} SlicesBehind(front: string, text: string, spans: seq<(nat, nat)>)
    requires forall span :: span in spans ==> span.0 <= span.1 <= |text|
    ensures forall span :: span in ShiftSpans(spans, |front|) ==> span.0 <= span.1 <= |front + text|
    ensures Slices(front + text, ShiftSpans(spans, |front|)) == Slices(text, spans)
  {
    hide ShiftSpans;
    var whole, d := front + text, |front|;
    ShiftAt(spans, d);
    forall i | 0 <= i < |spans|
      ensures spans[i].0 <= spans[i].1 <= |text|
      ensures whole[spans[i].0 + d..spans[i].1 + d] == text[spans[i].0..spans[i].1]
    {
      assert spans[i] in spans;
    }
  }

  /** The items do not depend on what stands in front of the array's start. */
  lemma {:induction false} ItemsBehind(front: string, text: string, start: nat)
    requires start <= |text|
    ensures ItemStrings(front + text, |front| + start) == ItemStrings(text, start)
  {
    hide ItemSpans, ShiftSpans, Slices;
    var whole, d, s := front + text, |front|, Scan(0, false, false, start);
    assert whole[d + start..] == text[start..];
    SpansShift(text[start..], start, s, d);
    SpansInside(text[start..], start, s);
    SlicesBehind(front, text, ItemsFrom(text, start));
  }

  lemma {:induction false} PlainAhead(plain: string, text: string)
    requires Plain(plain)
    ensures RecoveredItems(plain + text) == RecoveredItems(text)
  {
    hide FindOpener, ItemStrings, Plain;
    FindPlain(plain, text, Quoted(REVIEWS), '[', START);
    var start := ReviewsArrayStart(text);
    if start.Some? {
      ItemsBehind(plain, text, start.value);
    }
  }

  /** An item ends with a closing bracket. */
  lemma {:induction false} SpansEndInBracket(rest: string, pos: nat, s: Scan)
    ensures forall span :: span in ItemSpans(rest, pos, s) ==>
      pos < span.1 <= pos + |rest| && (rest[span.1 - 1 - pos] == '}' || rest[span.1 - 1 - pos] == ']')
    decreases |rest|
  {
    if rest != "" {
      var c, tail := rest[0], rest[1..];
      var next :=
        if s.inString then
          if s.escape then s.(escape := false)
          else if c == '\\' then s.(escape := true)
          else if c == '"' then s.(inString := false) else s
        else if c == '"' then s.(inString := true)
        else if s.depth == 0 then if c == '{' then s.(depth := 1, start := pos) else s
        else if c == '{' || c == '[' then s.(depth := s.depth + 1)
        else if c == '}' || c == ']' then s.(depth := s.depth - 1)
        else s;
      SpansEndInBracket(tail, pos + 1, next);
      forall span | span in ItemSpans(tail, pos + 1, next)
        ensures pos < span.1 <= pos + |rest| && (rest[span.1 - 1 - pos] == '}' || rest[span.1 - 1 - pos] == ']')
      {
        assert rest[span.1 - 1 - pos] == tail[span.1 - 1 - (pos + 1)];
      }
    }
  }

  lemma {:induction false} AllEndBy(spans: seq<(nat, nat)>, limit: nat)
    requires forall span :: span in spans ==> span.1 <= limit
    ensures EndingBy(spans, limit) == spans
  {
    if spans != [] {
      assert spans[0] in spans;
      AllEndBy(spans[1..], limit);
    }
  }

  lemma {:induction false} PlainBehind(text: string, plain: string)
    requires Plain(plain)
    ensures RecoveredItems(text + plain) == RecoveredItems(text)
  {
    hide FindOpener, ItemSpans, EndingBy;
    var whole, k := text + plain, |text|;
    assert whole[..k] == text;
    CutArrayStart(whole, k);
    var start := ReviewsArrayStart(whole);
    if start.Some? {
      assert whole[start.value - 1] == '[';
      assert start.value <= k;
      CutItems(whole, start.value, k);
      SpansEndInBracket(whole[start.value..], start.value, Scan(0, false, false, start.value));
      var spans := ItemsFrom(whole, start.value);
      forall span | span in spans ensures span.1 <= k {
        assert whole[span.1 - 1] == whole[start.value..][span.1 - 1 - start.value];
      }
      AllEndBy(spans, k);
    }
  }

  lemma {:induction false} SpacesArePlain(text: string)
    requires forall i :: 0 <= i < |text| ==> IsSpace(text[i])
    ensures Plain(text)
  {}

  /** Trimming changes nothing for recovery. */
  lemma {:induction false} TrimKeepsRecovery(text: string)
    ensures RecoveredItems(Trim(text)) == RecoveredItems(text)
  {
    hide RecoveredItems, IsSpace, Trim, Plain;
    var a, b := TrimSlice(text);
    SpacesArePlain(text[..a]);
    SpacesArePlain(text[b..]);
    assert text == (text[..a] + text[a..b]) + text[b..];
    PlainBehind(text[..a] + text[a..b], text[b..]);
    PlainAhead(text[..a], text[a..b]);
  }

  // ---------- output wrapped in a fence ----------

  /** Two fence marks with something between them: the first and the last one. */
  predicate HasFence(text: string) {
    FirstFence(text).Some? && LastFence(text).Some? && FirstFence(text).value + 4 <= LastFence(text).value
  }

  /** What stands in the fence, behind a language tag. */
  function Fenced(text: string): string
    requires HasFence(text)
  {
    text[FenceBody(text, FirstFence(text).value, LastFence(text).value)..LastFence(text).value]
  }

  /** The first and the last fence mark of a slice that holds both. */
  lemma {:induction false} FencesOfSlice(text: string, a: nat, b: nat)
    requires HasFence(text) && a <= FirstFence(text).value && LastFence(text).value + 3 <= b <= |text|
    ensures HasFence(text[a..b])
    ensures FirstFence(text[a..b]).value + a == FirstFence(text).value
    ensures LastFence(text[a..b]).value + a == LastFence(text).value
  {
    hide FenceAt, FirstFence, LastFence;
    var i, j, s := FirstFence(text).value, LastFence(text).value, text[a..b];
    FenceInSlice(text, a, b, i - a);
    FenceInSlice(text, a, b, j - a);
    assert FirstFence(s).Some? && LastFence(s).Some?;
    FenceInSlice(text, a, b, FirstFence(s).value);
    FenceInSlice(text, a, b, LastFence(s).value);
  }

  lemma {:induction false} FencedOfSlice(text: string, a: nat, b: nat)
    requires HasFence(text) && a <= FirstFence(text).value && LastFence(text).value + 3 <= b <= |text|
    ensures HasFence(text[a..b]) && Fenced(text[a..b]) == Fenced(text)
  {
    hide FenceAt, FirstFence, LastFence;
    FencesOfSlice(text, a, b);
    var i, j := FirstFence(text).value, LastFence(text).value;
    if i + 7 < j {
      SliceOfSlice(text, a, b, i - a + 3, i - a + 7);
    }
    SliceOfSlice(text, a, b, FenceBody(text, i, j) - a, j - a);
  }

  lemma {:induction false} SliceOfSlice(s: string, a: nat, b: nat, x: nat, y: nat)
    requires a <= b <= |s| && x <= y <= b - a
    ensures s[a..b][x..y] == s[a + x..a + y]
  {
    var t := s[a..b];
    forall k | 0 <= k < y - x ensures t[x..y][k] == s[a + x..a + y][k] {
      assert t[x..y][k] == t[x + k] == s[a + (x + k)];
    }
  }

  /** On fenced text `_strip_fence` gives the trimmed contents of the fence. */
  lemma {:induction false} StripFenced(text: string)
    requires HasFence(text)
    ensures Strip(text) == Trim(Fenced(text))
  {
    hide Trim, IsSpace, FenceBody;
    var a, b := TrimSlice(text);
    FenceInside(text, a, b, FirstFence(text).value);
    FenceInside(text, a, b, LastFence(text).value);
    FencedOfSlice(text, a, b);
  }

  lemma {:induction false} HasFenceIff(text: string)
    ensures HasFence(text) <==> !FenceFree(text)
  {
    hide FenceAt;
    if HasFence(text) {
      assert FenceAt(text, FirstFence(text).value) && FenceAt(text, LastFence(text).value);
    }
    if !FenceFree(text) {
      var i, j :| 0 <= i && i + 4 <= j && FenceAt(text, i) && FenceAt(text, j);
      assert FirstFence(text).value <= i && j <= LastFence(text).value;
    }
  }

  // ---------- exactly when recovery is monotone ----------

  /** The mark that first makes a fence: the first one with something between it and the first mark. */
  function SecondMark(text: string): (m: nat)
    requires HasFence(text)
    ensures FirstFence(text).value + 4 <= m <= LastFence(text).value && FenceAt(text, m)
    ensures forall p :: FirstFence(text).value + 4 <= p < m ==> !FenceAt(text, p)
  {
    var from := FirstFence(text).value + 4;
    MarksBehind(text, from);
    from + FirstFence(text[from..]).value
  }

  lemma {:induction false} MarksBehind(text: string, from: nat)
    requires from <= |text|
    ensures forall p :: from <= p ==> (FenceAt(text, p) <==> FenceAt(text[from..], p - from))
  {}

  /** What stands before the second mark is complete holds no fence. */
  lemma {:induction false} OpenIsFenceFree(text: string, k: nat)
    requires HasFence(text) && k <= |text| && k <= SecondMark(text) + 2
    ensures FenceFree(text[..k])
  {
    hide FenceAt, FirstFence, LastFence, SecondMark;
    forall i, j | 0 <= i && i + 4 <= j && FenceAt(text[..k], i) && FenceAt(text[..k], j) ensures false {
      PrefixMark(text, k, i);
      PrefixMark(text, k, j);
    }
  }

  lemma {:induction false} PrefixMark(text: string, k: nat, i: nat)
    requires k <= |text|
    ensures FenceAt(text[..k], i) <==> i + 3 <= k && FenceAt(text, i)
  {}

  /** Behind the second mark every cut holds a fence, from the first mark on. */
  lemma {:induction false} ClosedHasFence(text: string, k: nat)
    requires HasFence(text) && SecondMark(text) + 3 <= k <= |text|
    ensures HasFence(text[..k]) && FirstFence(text[..k]) == FirstFence(text)
    ensures SecondMark(text) <= LastFence(text[..k]).value <= LastFence(text).value
  {
    hide FenceAt, FirstFence, LastFence, SecondMark;
    var i, m, cut := FirstFence(text).value, SecondMark(text), text[..k];
    PrefixMark(text, k, i);
    PrefixMark(text, k, m);
    PrefixMark(text, k, FirstFence(cut).value);
    PrefixMark(text, k, LastFence(cut).value);
  }

  /** A language tag with nothing behind it: the cut takes it for the contents of the fence. */
  predicate EndsAtTag(text: string, cut: string)
    requires HasFence(text) && HasFence(cut)
  {
    var i := FirstFence(text).value;
    i + 7 < LastFence(text).value && text[i + 3..i + 7] == "json" && LastFence(cut).value <= i + 7
  }

  /** Otherwise the contents of the fence of a cut are the front of those of the whole. */
  lemma {:induction false} FencedFront(text: string, k: nat)
    requires HasFence(text) && k <= |text| && HasFence(text[..k]) && !EndsAtTag(text, text[..k])
    requires FirstFence(text[..k]) == FirstFence(text) && LastFence(text[..k]).value <= LastFence(text).value
    requires LastFence(text[..k]).value + 3 <= k && LastFence(text).value + 3 <= |text|
    ensures Fenced(text[..k]) <= Fenced(text)
  {
    hide FenceAt, FirstFence, LastFence;
    var i, cut := FirstFence(text).value, text[..k];
    var j, j' := LastFence(text).value, LastFence(cut).value;
    var from := FenceBody(text, i, j);
    if i + 7 < j' {
      SliceOfPrefix(text, k, i + 3, i + 7);
    }
    assert FenceBody(cut, i, j') == from;
    SliceOfPrefix(text, k, from, j');
    SliceOfSlice(text, from, j, 0, j' - from);
    assert text[from..j][0..j' - from] == text[from..j][..j' - from];
  }

  /** Each cut behind the second mark gives the first of the items that the whole gives. */
  lemma {:induction false} FencedOfCut(text: string, k: nat)
    requires HasFence(text) && SecondMark(text) + 3 <= k <= |text|
    ensures HasFence(text[..k])
    ensures RecoveredItems(Fenced(text[..k])) <= RecoveredItems(Fenced(text))
  {
    hide RecoveredItems, FirstFence, LastFence, SecondMark, Fenced;
    ClosedHasFence(text, k);
    var cut := text[..k];
    if EndsAtTag(text, cut) {
      TagOnly(text, cut);
    } else {
      FencedFront(text, k);
      assert Fenced(text)[..|Fenced(cut)|] == Fenced(cut);
      CutRecoveredItems(Fenced(text), |Fenced(cut)|);
    }
  }

  lemma {:induction false} TagOnly(text: string, cut: string)
    requires HasFence(text) && HasFence(cut) && cut <= text && FirstFence(cut) == FirstFence(text)
    requires EndsAtTag(text, cut)
    ensures RecoveredItems(Fenced(cut)) == []
  {
    hide RecoveredItems, FirstFence, LastFence;
    var i, j' := FirstFence(text).value, LastFence(cut).value;
    var tag := text[i + 3..i + 7];
    TagIsPlain();
    assert tag == ['j', 's', 'o', 'n'];
    assert text[i + 4] == tag[1] && text[i + 5] == tag[2] && text[i + 6] == tag[3];
    assert FenceAt(cut, j') && cut[j'] == text[j'];
    assert j' == i + 7;
    assert Fenced(cut) == cut[i + 3..i + 7] == tag;
    NothingInPlain("json");
  }

  lemma {:induction false} NothingInPlain(plain: string)
    requires Plain(plain)
    ensures RecoveredItems(plain) == []
  {
    hide Plain;
    PlainAhead(plain, "");
    assert plain + "" == plain;
  }

  /** What is recovered from a text with a fence in it, and from one without. */
  lemma {:induction false} RecoveredByStripping(text: string)
    ensures RecoveredItems(Strip(text)) == RecoveredItems(if HasFence(text) then Fenced(text) else text)
  {
    hide RecoveredItems, Strip, Trim, FenceFree, FirstFence, LastFence;
    HasFenceIff(text);
    if HasFence(text) {
      StripFenced(text);
      TrimKeepsRecovery(Fenced(text));
    } else {
      StripIsTrimIff(text);
      TrimKeepsRecovery(text);
    }
  }

  /** The findings of an item list. */
  function FindingsOf(items: seq<string>, decode: string -> Option<ReviewComment>): seq<ReviewComment> {
    Dedupe(DecodeItems(items, decode), {})
  }

  lemma {:induction false} FindingsPrefix(a: seq<string>, b: seq<string>, decode: string -> Option<ReviewComment>)
    requires a <= b
    ensures FindingsOf(a, decode) <= FindingsOf(b, decode)
  {
    DecodePrefix(a, b, decode);
    DedupePrefix(DecodeItems(a, decode), DecodeItems(b, decode), {});
  }

  /** The text holds no fence, or what it gives up to its second mark is the first of what its fence gives. */
  predicate KeepsFindings(text: string, decode: string -> Option<ReviewComment>) {
    HasFence(text) ==>
      FindingsOf(RecoveredItems(text[..SecondMark(text) + 2]), decode)
        <= FindingsOf(RecoveredItems(Fenced(text)), decode)
  }

  lemma {:induction false} CutKeepsFindings(text: string, k: nat, decode: string -> Option<ReviewComment>)
    requires k <= |text| && KeepsFindings(text, decode)
    ensures RecoveredFindings(text[..k], decode) <= RecoveredFindings(text, decode)
  {
    hide RecoveredItems, FindingsOf, Fenced, FirstFence, LastFence, SecondMark, Strip;
    RecoveredByStripping(text);
    RecoveredByStripping(text[..k]);
    FindingsAre(text, decode);
    FindingsAre(text[..k], decode);
    if !HasFence(text) {
      HasFenceIff(text);
      SliceIsFenceFree(text, 0, k);
      assert text[0..k] == text[..k];
      HasFenceIff(text[..k]);
      CutRecoveredItems(text, k);
      FindingsPrefix(RecoveredItems(text[..k]), RecoveredItems(text), decode);
    } else if k <= SecondMark(text) + 2 {
      var open := text[..SecondMark(text) + 2];
      OpenIsFenceFree(text, k);
      HasFenceIff(text[..k]);
      assert open[..k] == text[..k];
      CutRecoveredItems(open, k);
      FindingsPrefix(RecoveredItems(text[..k]), RecoveredItems(open), decode);
    } else {
      FencedOfCut(text, k);
      FindingsPrefix(RecoveredItems(Fenced(text[..k])), RecoveredItems(Fenced(text)), decode);
    }
  }

  lemma {:induction false} FindingsAre(text: string, decode: string -> Option<ReviewComment>)
    ensures RecoveredFindings(text, decode) == FindingsOf(RecoveredItems(Strip(text)), decode)
  {}

  /**
   Exactly when recovery is monotone, for any text: at every cut the findings are the first of those of
   the whole if and only if the text holds no fence, or those found up to the mark that first makes a
   fence are the first of those found in the fence.
   */
  lemma {:induction false} MonotoneIff(text: string, decode: string -> Option<ReviewComment>)
    ensures KeepsFindings(text, decode) <==>
      forall k :: 0 <= k <= |text| ==> RecoveredFindings(text[..k], decode) <= RecoveredFindings(text, decode)
  {
    hide RecoveredItems, FindingsOf, Fenced, FirstFence, LastFence, SecondMark, Strip, RecoveredFindings;
    if KeepsFindings(text, decode) {
      forall k | 0 <= k <= |text| ensures RecoveredFindings(text[..k], decode) <= RecoveredFindings(text, decode) {
        CutKeepsFindings(text, k, decode);
      }
    } else {
      var k := SecondMark(text) + 2;
      MarkInside(text, SecondMark(text));
      OpenIsFenceFree(text, k);
      HasFenceIff(text[..k]);
      RecoveredByStripping(text);
      RecoveredByStripping(text[..k]);
      FindingsAre(text, decode);
      FindingsAre(text[..k], decode);
    }
  }

  lemma {:induction false} MarkInside(text: string, m: nat)
    requires FenceAt(text, m)
    ensures m + 3 <= |text|
  {}

  /**
   So recovery is monotone on arbitrary fence-free text, well-formed or not: the findings recovered from
   a prefix are a prefix of the findings recovered from the whole.
   */
  lemma {:induction false} RecoveryIsMonotone(text: string, k: nat, decode: string -> Option<ReviewComment>)
    requires FenceFree(text) && k <= |text|
    ensures RecoveredFindings(text[..k], decode) <= RecoveredFindings(text, decode)
  {
    hide FenceFree, RecoveredFindings, HasFence;
    HasFenceIff(text);
    MonotoneIff(text, decode);
  }

  /** Nothing but plain text stands in front of the fence, and no fence closes before its last mark. */
  ghost predicate IsWrapped(text: string) {
    HasFence(text) && Plain(text[..FirstFence(text).value]) && FenceFree(text[..LastFence(text).value + 2])
  }

  /** Without the last character of its closing mark, wrapped text holds the same items as its fence. */
  lemma {:induction false} OpenFenceItems(text: string)
    requires IsWrapped(text)
    ensures RecoveredItems(text[..LastFence(text).value + 2]) == RecoveredItems(Fenced(text))
  {
    hide RecoveredItems, FenceFree;
    var i, j := FirstFence(text).value, LastFence(text).value;
    var cut, from := text[..j + 2], FenceBody(text, i, j);
    HeadIsPlain(text);
    ThreeParts(text, from, j, j + 2);
    assert text[j..j + 2] == ['`', '`'];
    PlainBehind(text[..from] + text[from..j], text[j..j + 2]);
    PlainAhead(text[..from], text[from..j]);
  }

  lemma {:induction false} ThreeParts(text: string, a: nat, b: nat, c: nat)
    requires a <= b <= c <= |text|
    ensures text[..c] == (text[..a] + text[a..b]) + text[b..c]
  {
    assert text[..a] + text[a..b] == text[..b];
    assert text[..b] + text[b..c] == text[..c];
  }

  lemma {:induction false} PlainJoin(a: string, b: string)
    requires Plain(a) && Plain(b)
    ensures Plain(a + b)
  {}

  lemma {:induction false} TagIsPlain()
    ensures "json" == ['j', 's', 'o', 'n'] && Plain("json")
  {}

  lemma {:induction false} MarkIsPlain(text: string, i: nat)
    requires FenceAt(text, i)
    ensures i + 3 <= |text| && Plain(text[i..i + 3])
  {}

  lemma {:induction false} HeadIsPlain(text: string)
    requires IsWrapped(text)
    ensures Plain(text[..FenceBody(text, FirstFence(text).value, LastFence(text).value)])
  {
    hide FenceFree, FenceAt, Plain;
    var i, j := FirstFence(text).value, LastFence(text).value;
    MarkIsPlain(text, i);
    MarkIsPlain(text, j);
    var from := FenceBody(text, i, j);
    PlainJoin(text[..i], text[i..i + 3]);
    assert text[..i] + text[i..i + 3] == text[..i + 3];
    if from == i + 7 {
      TagIsPlain();
      assert text[i + 3..i + 7] == "json";
      PlainJoin(text[..i + 3], text[i + 3..i + 7]);
      assert text[..i + 3] + text[i + 3..i + 7] == text[..i + 7];
    }
  }

  /** Where no fence closes before the last mark, that mark is the second one. */
  lemma {:induction false} LastIsSecond(text: string)
    requires HasFence(text) && FenceFree(text[..LastFence(text).value + 2])
    ensures SecondMark(text) == LastFence(text).value
  {
    hide FenceAt, FirstFence, LastFence, SecondMark;
    var i, j, m := FirstFence(text).value, LastFence(text).value, SecondMark(text);
    if m < j {
      MarksApart(text, m, j);
      PrefixMark(text, j + 2, i);
      PrefixMark(text, j + 2, m);
    }
  }

  lemma {:induction false} MarksApart(text: string, m: nat, j: nat)
    requires FenceAt(text, m) && FenceAt(text, j) && m < j
    ensures m + 3 <= j + 2 <= |text|
  {}

  /** So recovery is monotone on wrapped output: cut anywhere, it gives the first of the findings of the whole. */
  lemma {:induction false} WrappedRecoveryIsMonotone(text: string, k: nat, decode: string -> Option<ReviewComment>)
    requires IsWrapped(text) && k <= |text|
    ensures RecoveredFindings(text[..k], decode) <= RecoveredFindings(text, decode)
  {
    hide RecoveredItems, RecoveredFindings, FenceFree, Plain, FindingsOf, Fenced, FirstFence, LastFence, SecondMark;
    LastIsSecond(text);
    OpenFenceItems(text);
    MonotoneIff(text, decode);
  }

  // ---------- where it is not ----------

  /** The marks of a text whose only backticks are those of one fence around one character. */
  lemma {:induction false} OnlyMarks(text: string, n: nat)
    requires n + 7 <= |text|
    requires forall i :: 0 <= i < |text| ==> (text[i] == '`' <==> n <= i < n + 7 && i != n + 3)
    ensures FirstFence(text) == Some(n) && LastFence(text) == Some(n + 4)
  {
    hide FirstFence, LastFence;
    assert FenceAt(text, n) && FenceAt(text, n + 4);
    assert forall i: nat :: FenceAt(text, i) ==> i == n || i == n + 4;
  }

  lemma {:induction false} MarksAround(front: string, back: string)
    requires '`' !in front && '`' !in back
    ensures var text := front + "```x```" + back;
      HasFence(text) && FirstFence(text) == Some(|front|) && LastFence(text) == Some(|front| + 4) && Fenced(text) == "x"
  {
    hide FirstFence, LastFence;
    var text, n := front + "```x```" + back, |front|;
    forall i | 0 <= i < |text| ensures text[i] == '`' <==> n <= i < n + 7 && i != n + 3 {
      InThreeParts(front, "```x```", back, i);
      TheFence();
      if i < n {
        assert front[i] in front;
      } else if n + 7 <= i {
        assert back[i - n - 7] in back;
      }
    }
    InThreeParts(front, "```x```", back, n + 3);
    OnlyMarks(text, n);
    assert text[n + 3] == 'x';
    assert text[n + 3..n + 4] == ['x'];
  }

  lemma {:induction false} TheFence()
    ensures |"```x```"| == 7 && forall i :: 0 <= i < 7 ==> ("```x```"[i] == '`' <==> i != 3)
    ensures "```x```"[3] == 'x'
  {
    assert "```x```" == ['`', '`', '`', 'x', '`', '`', '`'];
  }

  lemma {:induction false} InThreeParts(a: string, b: string, c: string, i: nat)
    requires i < |a + b + c|
    ensures (a + b + c)[i]
      == if i < |a| then a[i] else if i < |a| + |b| then b[i - |a|] else c[i - |a| - |b|]
  {}

  /** A fence around a plain remark hides every finding, in front of it and behind it. */
  lemma {:induction false} FenceHidesFindings(front: string, back: string, decode: string -> Option<ReviewComment>)
    requires '`' !in front && '`' !in back
    ensures RecoveredFindings(front + "```x```" + back, decode) == []
  {
    hide RecoveredItems, Strip, FirstFence, LastFence;
    var text := front + "```x```" + back;
    MarksAround(front, back);
    RecoveredByStripping(text);
    NothingInPlain("x");
    FindingsAre(text, decode);
    assert RecoveredItems(Strip(text)) == [];
  }
}
