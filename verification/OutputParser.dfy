/**
 Recovery of complete findings from model output that was cut at an arbitrary point
 (app/llm/output_parser.py). The scanners are character automata; their specifications are
 recursive functions over the text still to be read, and the methods run the source's loops.
 */
module OutputParser {
  import opened Wrappers
  import opened ReviewSchema
  import opened Seqs

  // ---------- characters ----------

  /** Python's `str.isspace` for one character. */
  predicate IsSpace(c: char) {
    var n := c as int;
    || 9 <= n <= 13 || 28 <= n <= 32 || n == 0x85 || n == 0xA0 || n == 0x1680
    || 0x2000 <= n <= 0x200A || n == 0x2028 || n == 0x2029 || n == 0x202F || n == 0x205F || n == 0x3000
  }

  /** How many characters at the front of `text` are spaces. */
  function Spaces(text: string): (n: nat)
    ensures n <= |text|
  {
    if text == "" || !IsSpace(text[0]) then 0 else 1 + Spaces(text[1..])
  }

  /** The first index at or behind `j` that holds no space. */
  function SkipFrom(text: string, j: nat): (r: nat)
    requires j <= |text|
    ensures j <= r <= |text|
  {
    j + Spaces(text[j..])
  }

  lemma {:induction false} SkipFromStep(text: string, j: nat)
    requires j < |text|
    ensures SkipFrom(text, j) == if IsSpace(text[j]) then SkipFrom(text, j + 1) else j
  {
    assert text[j..][0] == text[j] && text[j..][1..] == text[j + 1..];
  }

  // ---------- the automaton shared by the key scanners ----------

  /** What the scanners remember: open brackets, and where they are inside a string. */
  datatype Lex = Lex(stack: seq<char>, inString: bool, escape: bool)

  const START: Lex := Lex([], false, false)
  const TOP_OBJECT: Lex := Lex(['{'], false, false)

  function Step(lex: Lex, c: char): Lex {
    if lex.inString then
      if lex.escape then lex.(escape := false)
      else if c == '\\' then lex.(escape := true)
      else if c == '"' then lex.(inString := false)
      else lex
    else if c == '"' then lex.(inString := true)
    else if c == '{' || c == '[' then lex.(stack := lex.stack + [c])
    else if (c == '}' || c == ']') && lex.stack != [] then lex.(stack := lex.stack[..|lex.stack| - 1])
    else lex
  }

  function Shift(n: nat, o: Option<nat>): Option<nat> {
    match o case None => None case Some(k) => Some(n + k)
  }

  /** The offset of `opener` when `rest` reads: quoted key, spaces, colon, spaces, opener. */
  function MatchKey(rest: string, key: string, opener: char): (r: Option<nat>)
    ensures r.Some? ==> |key| < r.value < |rest| && rest[r.value] == opener && key <= rest
  {
    if !(key <= rest) then None else
    var colon := SkipFrom(rest, |key|);
    if colon >= |rest| || rest[colon] != ':' then None else
    var value := SkipFrom(rest, colon + 1);
    if value >= |rest| || rest[value] != opener then None else Some(value)
  }

  predicate AtKey(lex: Lex, rest: string, key: string, opener: char) {
    rest != "" && rest[0] == '"' && !lex.inString && lex.stack == ['{'] && MatchKey(rest, key, opener).Some?
  }

  /** The offset of the opening character of the first top-level value stored under `key`. */
  function FindOpener(rest: string, key: string, opener: char, lex: Lex): (r: Option<nat>)
    ensures r.Some? ==> r.value < |rest| && rest[r.value] == opener
  {
    if rest == "" then None
    else if AtKey(lex, rest, key, opener) then MatchKey(rest, key, opener)
    else Shift(1, FindOpener(rest[1..], key, opener, Step(lex, rest[0])))
  }

  // ---------- scanning the array ----------

  /** `depth` counts open brackets of the current item, which starts at `start` when `depth > 0`. */
  datatype Scan = Scan(depth: nat, inString: bool, escape: bool, start: nat)

  /** The half-open index ranges of the items closed in `rest`, whose first character has index `pos`. */
  function ItemSpans(rest: string, pos: nat, s: Scan): seq<(nat, nat)> {
    if rest == "" then [] else
    var c, tail := rest[0], rest[1..];
    if s.inString then
      ItemSpans(tail, pos + 1,
        if s.escape then s.(escape := false)
        else if c == '\\' then s.(escape := true)
        else if c == '"' then s.(inString := false) else s)
    else if c == '"' then ItemSpans(tail, pos + 1, s.(inString := true))
    else if s.depth == 0 then
      if c == '{' then ItemSpans(tail, pos + 1, s.(depth := 1, start := pos))
      else if c == ']' then []
      else ItemSpans(tail, pos + 1, s)
    else if c == '{' || c == '[' then ItemSpans(tail, pos + 1, s.(depth := s.depth + 1))
    else if c == '}' || c == ']' then
      if s.depth == 1 then [(s.start, pos + 1)] + ItemSpans(tail, pos + 1, s.(depth := 0))
      else ItemSpans(tail, pos + 1, s.(depth := s.depth - 1))
    else ItemSpans(tail, pos + 1, s)
  }

  lemma {:induction false} SpansInside(rest: string, pos: nat, s: Scan)
    requires s.start <= pos
    ensures forall span :: span in ItemSpans(rest, pos, s) ==>
      s.start <= span.0 < span.1 <= pos + |rest| && pos < span.1
    decreases |rest|
  {
    if rest != "" {
      var c, tail := rest[0], rest[1..];
      if s.inString {
        SpansInside(tail, pos + 1,
          if s.escape then s.(escape := false)
          else if c == '\\' then s.(escape := true)
          else if c == '"' then s.(inString := false) else s);
      } else if c == '"' {
        SpansInside(tail, pos + 1, s.(inString := true));
      } else if s.depth == 0 {
        SpansInside(tail, pos + 1, if c == '{' then s.(depth := 1, start := pos) else s);
      } else if c == '{' || c == '[' {
        SpansInside(tail, pos + 1, s.(depth := s.depth + 1));
      } else if c == '}' || c == ']' {
        SpansInside(tail, pos + 1, s.(depth := s.depth - 1));
      } else {
        SpansInside(tail, pos + 1, s);
      }
    }
  }

  function Slices(text: string, spans: seq<(nat, nat)>): (r: seq<string>)
    requires forall span :: span in spans ==> span.0 <= span.1 <= |text|
    ensures |r| == |spans|
    ensures forall i :: 0 <= i < |spans| ==> r[i] == text[spans[i].0..spans[i].1]
  {
    seq(|spans|, i requires 0 <= i < |spans| => text[spans[i].0..spans[i].1])
  }

  // ---------- what each scanner computes ----------

  function Quoted(body: string): string {
    ['"'] + body + ['"']
  }

  const REVIEWS := "reviews"
  const SUMMARY := "summary"

  /** The index just behind the `[` of the top-level reviews array. */
  function ReviewsArrayStart(text: string): (r: Option<nat>)
    ensures r.Some? ==> 0 < r.value <= |text|
  {
    Shift(1, FindOpener(text, Quoted(REVIEWS), '[', START))
  }

  function ItemsFrom(text: string, start: nat): seq<(nat, nat)>
    requires start <= |text|
  {
    ItemSpans(text[start..], start, Scan(0, false, false, start))
  }

  function ItemStrings(text: string, start: nat): seq<string>
    requires start <= |text|
  {
    SpansInside(text[start..], start, Scan(0, false, false, start));
    Slices(text, ItemsFrom(text, start))
  }

  /** The offset of the quote that closes a string whose remaining text is `rest`. */
  function CloseQuote(rest: string, escape: bool): (r: Option<nat>)
    ensures r.Some? ==> r.value < |rest| && rest[r.value] == '"'
  {
    if rest == "" then None
    else if escape then Shift(1, CloseQuote(rest[1..], false))
    else if rest[0] == '\\' then Shift(1, CloseQuote(rest[1..], true))
    else if rest[0] == '"' then Some(0)
    else Shift(1, CloseQuote(rest[1..], false))
  }

  /** The literal, both quotes included, that opens at `quote`; nothing when it is cut. */
  function ClosedLiteral(text: string, quote: nat): Option<string>
    requires quote < |text|
  {
    match CloseQuote(text[quote + 1..], false)
    case None => None
    case Some(k) => Some(text[quote..quote + 1 + k + 1])
  }

  /** The literal of the top-level summary, when it is closed. */
  function SummaryLiteral(text: string): Option<string> {
    match FindOpener(text, Quoted(SUMMARY), '"', START)
    case None => None
    case Some(q) => ClosedLiteral(text, q)
  }

  /** First occurrences by (file_path, line, message), given the keys already seen. */
  function Dedupe(reviews: seq<ReviewComment>, seen: set<(string, int, string)>): seq<ReviewComment> {
    if reviews == [] then [] else
    var key := DedupeKey(reviews[0]);
    if key in seen then Dedupe(reviews[1..], seen)
    else [reviews[0]] + Dedupe(reviews[1..], seen + {key})
  }

  function DedupeKey(r: ReviewComment): (string, int, string) {
    (r.filePath, r.line, r.message)
  }

  // ---------- which findings are first occurrences ----------

  lemma {:induction false} SameKeyIff(a: ReviewComment, b: ReviewComment)
    ensures DedupeKey(a) == DedupeKey(b) <==> a.filePath == b.filePath && a.line == b.line && a.message == b.message
  {}

  /** The key is taken, or an earlier finding has it. */
  predicate IsRepeat(all: seq<ReviewComment>, seen: set<(string, int, string)>, i: nat)
    requires i < |all|
  {
    DedupeKey(all[i]) in seen || exists j :: 0 <= j < i && DedupeKey(all[j]) == DedupeKey(all[i])
  }

  /** Which findings stay, when some keys are taken already. */
  lemma {:induction false} FirstsAt(all: seq<ReviewComment>, seen: set<(string, int, string)>)
    returns (kept: seq<nat>)
    ensures Picks(Dedupe(all, seen), all, kept)
    ensures forall i :: 0 <= i < |all| ==> (i !in kept <==> IsRepeat(all, seen, i))
  {
    hide DedupeKey, Picks, PickFront, IsRepeat;
    if all == [] {
      kept := [];
      NothingPicked(all);
    } else {
      var key, rest := DedupeKey(all[0]), all[1..];
      var isNew := key !in seen;
      var seen' := if isNew then seen + {key} else seen;
      var later := FirstsAt(rest, seen');
      kept := PickFront(later, isNew);
      PicksFront(Dedupe(rest, seen'), rest, later, all[0], isNew);
      assert [all[0]] + rest == all;
      assert [] + Dedupe(rest, seen') == Dedupe(rest, seen');
      forall i | 0 <= i < |all| ensures i !in kept <==> IsRepeat(all, seen, i) {
        PickedFront(later, isNew, i);
        if i > 0 {
          EarlierSame(all, seen, i);
        } else {
          FirstRepeats(all, seen);
        }
      }
    }
  }

  lemma {:induction false} FirstRepeats(all: seq<ReviewComment>, seen: set<(string, int, string)>)
    requires all != []
    ensures IsRepeat(all, seen, 0) <==> DedupeKey(all[0]) in seen
  {}

  lemma {:induction false} EarlierSame(all: seq<ReviewComment>, seen: set<(string, int, string)>, i: nat)
    requires 0 < i < |all|
    ensures IsRepeat(all, seen, i) <==> IsRepeat(all[1..], seen + {DedupeKey(all[0])}, i - 1)
    ensures DedupeKey(all[0]) in seen ==> seen + {DedupeKey(all[0])} == seen
  {
    hide DedupeKey;
    var key, rest := DedupeKey(all[i]), all[1..];
    if j :| 0 <= j < i && DedupeKey(all[j]) == key {
      assert j > 0 ==> DedupeKey(rest[j - 1]) == key;
    }
    if j :| 0 <= j < i - 1 && DedupeKey(rest[j]) == key {
      assert DedupeKey(all[j + 1]) == key;
    }
  }

  /** No two findings agree in file, line and message. */
  lemma {:induction false} FirstsDiffer(all: seq<ReviewComment>) returns (kept: seq<nat>)
    ensures var found := Dedupe(all, {});
      && Picks(found, all, kept) && (forall i :: 0 <= i < |all| ==> (i !in kept <==> IsRepeat(all, {}, i)))
      && (forall a, b :: 0 <= a < b < |found| ==>
            found[a].filePath != found[b].filePath || found[a].line != found[b].line
            || found[a].message != found[b].message)
      && (forall i :: 0 <= i < |all| ==>
            exists k :: 0 <= k < |found| && found[k].filePath == all[i].filePath
                          && found[k].line == all[i].line && found[k].message == all[i].message)
  {
    hide DedupeKey, Dedupe;
    var found := Dedupe(all, {});
    kept := FirstsAt(all, {});
    forall a, b | 0 <= a < b < |found|
      ensures found[a].filePath != found[b].filePath || found[a].line != found[b].line
        || found[a].message != found[b].message
    {
      assert kept[b] in kept && !IsRepeat(all, {}, kept[b]);
      SameKeyIff(found[a], found[b]);
    }
    forall i | 0 <= i < |all|
      ensures exists k :: 0 <= k < |found| && found[k].filePath == all[i].filePath
                        && found[k].line == all[i].line && found[k].message == all[i].message
    {
      var k := KeptLike(all, kept, i);
      SameKeyIff(all[kept[k]], all[i]);
      assert found[k] == all[kept[k]];
    }
  }

  lemma {:induction false} KeptLike(all: seq<ReviewComment>, kept: seq<nat>, i: nat) returns (k: nat)
    requires i < |all| && forall j :: 0 <= j < |all| ==> (j !in kept <==> IsRepeat(all, {}, j))
    requires forall l :: 0 <= l < |kept| ==> kept[l] < |all|
    ensures k < |kept| && DedupeKey(all[kept[k]]) == DedupeKey(all[i])
  {
    hide DedupeKey;
    if i in kept {
      k :| 0 <= k < |kept| && kept[k] == i;
    } else {
      assert IsRepeat(all, {}, i);
      var j :| 0 <= j < i && DedupeKey(all[j]) == DedupeKey(all[i]);
      k := KeptLike(all, kept, j);
    }
  }

  // ---------- the whole recovery ----------

  predicate FenceAt(text: string, i: nat) {
    i + 3 <= |text| && text[i] == text[i + 1] == text[i + 2] == '`'
  }

  function FirstFence(text: string): (r: Option<nat>)
    ensures r.Some? ==> FenceAt(text, r.value) && forall i :: 0 <= i < r.value ==> !FenceAt(text, i)
    ensures r.None? ==> forall i :: 0 <= i ==> !FenceAt(text, i)
  {
    if FenceAt(text, 0) then Some(0)
    else if |text| <= 3 then None
    else
      assert forall i :: 0 < i ==> (FenceAt(text, i) <==> FenceAt(text[1..], i - 1));
      Shift(1, FirstFence(text[1..]))
  }

  function LastFence(text: string): (r: Option<nat>)
    ensures r.Some? ==> FenceAt(text, r.value) && forall i :: r.value < i ==> !FenceAt(text, i)
    ensures r.None? ==> forall i :: 0 <= i ==> !FenceAt(text, i)
  {
    if |text| < 3 then None
    else if FenceAt(text, |text| - 3) then Some(|text| - 3)
    else
      var front := text[..|text| - 1];
      assert forall i :: 0 <= i < |text| - 3 ==> (FenceAt(front, i) <==> FenceAt(text, i));
      LastFence(front)
  }

  /** The text holds no code fence: no two fence marks with something between them. */
  ghost predicate FenceFree(text: string) {
    forall i, j :: 0 <= i && i + 4 <= j ==> !(FenceAt(text, i) && FenceAt(text, j))
  }

  /** Where the body of a fence opened at `i` starts: behind the language tag, if something is left in front of `j`. */
  function FenceBody(text: string, i: nat, j: nat): (r: nat)
    requires i + 4 <= j <= |text|
    ensures i + 3 <= r < j
  {
    if i + 7 < j && text[i + 3..i + 7] == "json" then i + 7 else i + 3
  }

  /** `str.strip`. */
  function Trim(text: string): (r: string)
    ensures |r| <= |text|
  {
    var left := text[Spaces(text)..];
    left[..|left| - TrailingSpaces(left)]
  }

  /**
   `_strip_fence`: the pattern matches from the first fence mark to the last one, when anything stands
   between them; its group takes all that stands there but the language tag and outer spaces.
   */
  function Strip(text: string): string {
    var candidate := Trim(text);
    var first, last := FirstFence(candidate), LastFence(candidate);
    if first.Some? && last.Some? && first.value + 4 <= last.value
    then Trim(candidate[FenceBody(candidate, first.value, last.value)..last.value])
    else candidate
  }

  function TrailingSpaces(text: string): (n: nat)
    ensures n <= |text|
    ensures forall k :: |text| - n <= k < |text| ==> IsSpace(text[k])
    ensures n < |text| ==> !IsSpace(text[|text| - n - 1])
  {
    if text == "" || !IsSpace(text[|text| - 1]) then 0 else 1 + TrailingSpaces(text[..|text| - 1])
  }

  /** Decoded items in order; items that do not decode are skipped. */
  function DecodeItems(raw: seq<string>, decode: string -> Option<ReviewComment>): seq<ReviewComment> {
    if raw == [] then [] else
    (match decode(raw[0]) case None => [] case Some(r) => [r]) + DecodeItems(raw[1..], decode)
  }

  function RecoveredItems(candidate: string): seq<string> {
    match ReviewsArrayStart(candidate)
    case None => []
    case Some(start) => ItemStrings(candidate, start)
  }

  /** The findings recovered from `text`, duplicates removed. */
  function RecoveredFindings(text: string, decode: string -> Option<ReviewComment>): seq<ReviewComment> {
    Dedupe(DecodeItems(RecoveredItems(Strip(text)), decode), {})
  }

  const DEFAULT_TRUNCATED_SUMMARY := "모델 출력이 중간에 잘려 summary를 복구하지 못했습니다."
  const TRUNCATION_NOTICE := "\n\n※ 모델 출력이 중간에 잘려 일부 finding만 복구했습니다."

  function RecoveredSummary(text: string, loads: string -> Option<string>): string {
    ShownSummary(SummaryLiteral(Strip(text)), loads)
  }

  /** The summary shown to the user; an absent, undecodable or empty one falls back to the default. */
  function ShownSummary(literal: Option<string>, loads: string -> Option<string>): string {
    var found := match literal case None => None case Some(raw) => loads(raw);
    (if found.None? || found.value == "" then DEFAULT_TRUNCATED_SUMMARY else found.value) + TRUNCATION_NOTICE
  }

  datatype PartialRecovery = PartialRecovery(summary: string, reviews: seq<ReviewComment>, duplicatesRemoved: nat)

  // ---------- the source's loops ----------

  method SkipSpaces(text: string, start: nat) returns (j: nat)
    requires start <= |text|
    ensures j == SkipFrom(text, start)
  {
    j := start;
    while j < |text| && IsSpace(text[j])
      invariant start <= j <= |text|
      invariant SkipFrom(text, start) == SkipFrom(text, j)
    {
      SkipFromStep(text, j);
      j := j + 1;
    }
    if j < |text| {
      SkipFromStep(text, j);
    }
  }

  /** The lookahead both key scanners run at an opening quote; `rest` starts there. */
  method LookAhead(rest: string, key: string, opener: char) returns (r: Option<nat>)
    ensures r == MatchKey(rest, key, opener)
  {
    if key <= rest {
      var j := SkipSpaces(rest, |key|);
      if j < |rest| && rest[j] == ':' {
        j := SkipSpaces(rest, j + 1);
        if j < |rest| && rest[j] == opener {
          return Some(j);
        }
      }
    }
    return None;
  }

  lemma {:induction false} FindOpenerFrom(text: string, i: nat, key: string, opener: char, lex: Lex)
    requires i <= |text|
    ensures FindOpener(text[i..], key, opener, lex) ==
      if i == |text| then None
      else if AtKey(lex, text[i..], key, opener) then MatchKey(text[i..], key, opener)
      else Shift(1, FindOpener(text[i + 1..], key, opener, Step(lex, text[i])))
  {
    hide MatchKey, AtKey, Step;
    assert i < |text| ==> text[i..][0] == text[i] && text[i..][1..] == text[i + 1..];
  }

  method FindValueOpener(text: string, key: string, opener: char) returns (r: Option<nat>)
    ensures r == FindOpener(text, key, opener, START)
  {
    hide MatchKey, IsSpace, FindOpener;
    var stack: seq<char>, inString, escape, i := [], false, false, 0;
    assert text[0..] == text;
    while i < |text|
      invariant 0 <= i <= |text|
      invariant FindOpener(text, key, opener, START)
             == Shift(i, FindOpener(text[i..], key, opener, Lex(stack, inString, escape)))
    {
      var ch := text[i];
      ghost var lex := Lex(stack, inString, escape);
      FindOpenerFrom(text, i, key, opener, lex);
      assert text[i..][0] == ch;
      if inString {
        if escape {
          escape := false;
        } else if ch == '\\' {
          escape := true;
        } else if ch == '"' {
          inString := false;
        }
      } else if ch == '"' {
        if |stack| == 1 && stack[0] == '{' {
          assert stack == ['{'];
          var found := LookAhead(text[i..], key, opener);
          if found.Some? {
            assert AtKey(lex, text[i..], key, opener);
            return Some(i + found.value);
          }
        }
        inString := true;
      } else if ch == '{' || ch == '[' {
        stack := stack + [ch];
      } else if ch == '}' || ch == ']' {
        if stack != [] {
          stack := stack[..|stack| - 1];
        }
      }
      assert !AtKey(lex, text[i..], key, opener);
      assert Lex(stack, inString, escape) == Step(lex, ch);
      i := i + 1;
    }
    FindOpenerFrom(text, i, key, opener, Lex(stack, inString, escape));
    return None;
  }

  method FindReviewsArrayStart(text: string) returns (r: Option<nat>)
    ensures r == ReviewsArrayStart(text)
  {
    var opener := FindValueOpener(text, Quoted(REVIEWS), '[');
    r := if opener.Some? then Some(opener.value + 1) else None;
  }

  method ExtractArrayItemStrings(text: string, start: nat) returns (items: seq<string>)
    requires start <= |text|
    ensures items == ItemStrings(text, start)
  {
    items := [];
    ghost var spans: seq<(nat, nat)>, from: nat := [], start;
    var i, inString, escape, depth: nat := start, false, false, 0;
    var itemStart: Option<nat> := None;
    while i < |text|
      invariant start <= i <= |text|
      invariant itemStart.Some? <==> depth > 0
      invariant itemStart.Some? ==> itemStart.value < i
      invariant forall span :: span in spans ==> span.0 <= span.1 <= |text|
      invariant items == Slices(text, spans)
      invariant itemStart.Some? ==> from == itemStart.value
      invariant ItemsFrom(text, start) == spans + ItemSpans(text[i..], i, Scan(depth, inString, escape, from))
    {
      var ch := text[i];
      assert text[i..][0] == ch && text[i..][1..] == text[i + 1..];
      if inString {
        if escape {
          escape := false;
        } else if ch == '\\' {
          escape := true;
        } else if ch == '"' {
          inString := false;
        }
        i := i + 1;
        continue;
      }
      if ch == '"' {
        inString := true;
        i := i + 1;
        continue;
      }
      if depth == 0 {
        if ch == '{' {
          itemStart := Some(i);
          from := i;
          depth := 1;
        } else if ch == ']' {
          break;
        }
        i := i + 1;
        continue;
      }
      if ch == '{' || ch == '[' {
        depth := depth + 1;
      } else if ch == '}' || ch == ']' {
        depth := depth - 1;
        if depth == 0 && itemStart.Some? {
          items := items + [text[itemStart.value..i + 1]];
          spans := spans + [(itemStart.value, i + 1)];
          itemStart := None;
        }
      }
      i := i + 1;
    }
    assert ItemsFrom(text, start) == spans;
  }

  method ReadClosedString(text: string, quote: nat) returns (raw: Option<string>)
    requires quote < |text|
    ensures raw == ClosedLiteral(text, quote)
  {
    var i, escape := quote + 1, false;
    while i < |text|
      invariant quote < i <= |text|
      invariant CloseQuote(text[quote + 1..], false) == Shift(i - quote - 1, CloseQuote(text[i..], escape))
    {
      var ch := text[i];
      assert text[i..][0] == ch && text[i..][1..] == text[i + 1..];
      if escape {
        escape := false;
      } else if ch == '\\' {
        escape := true;
      } else if ch == '"' {
        return Some(text[quote..i + 1]);
      }
      i := i + 1;
    }
    return None;
  }

  method FindSummaryLiteral(text: string) returns (raw: Option<string>)
    ensures raw == SummaryLiteral(text)
  {
    var quote := FindValueOpener(text, Quoted(SUMMARY), '"');
    if quote.None? {
      return None;
    }
    raw := ReadClosedString(text, quote.value);
  }

  method DedupeReviews(reviews: seq<ReviewComment>) returns (deduped: seq<ReviewComment>, duplicates: nat)
    ensures deduped == Dedupe(reviews, {})
    ensures |deduped| + duplicates == |reviews|
    ensures forall a, b :: 0 <= a < b < |deduped| ==>
      deduped[a].filePath != deduped[b].filePath || deduped[a].line != deduped[b].line
      || deduped[a].message != deduped[b].message
    ensures forall i :: 0 <= i < |reviews| ==> exists k ::
      && 0 <= k < |deduped| && deduped[k].filePath == reviews[i].filePath
      && deduped[k].line == reviews[i].line && deduped[k].message == reviews[i].message
  {
    hide DedupeKey;
    var seen: set<(string, int, string)> := {};
    deduped, duplicates := [], 0;
    assert reviews[0..] == reviews;
    for i := 0 to |reviews|
      invariant Dedupe(reviews, {}) == deduped + Dedupe(reviews[i..], seen)
      invariant |deduped| + duplicates == i
    {
      assert reviews[i..][0] == reviews[i] && reviews[i..][1..] == reviews[i + 1..];
      var key := DedupeKey(reviews[i]);
      if key in seen {
        duplicates := duplicates + 1;
      } else {
        Assoc(deduped, [reviews[i]], Dedupe(reviews[i + 1..], seen + {key}));
        seen := seen + {key};
        deduped := deduped + [reviews[i]];
      }
    }
    var _ := FirstsDiffer(reviews);
  }

  method DecodeAll(items: seq<string>, decode: string -> Option<ReviewComment>) returns (reviews: seq<ReviewComment>)
    ensures reviews == DecodeItems(items, decode)
  {
    reviews := [];
    assert items[0..] == items;
    for i := 0 to |items|
      invariant DecodeItems(items, decode) == reviews + DecodeItems(items[i..], decode)
    {
      assert items[i..][1..] == items[i + 1..];
      var decoded := decode(items[i]);
      if decoded.Some? {
        reviews := reviews + [decoded.value];
      }
    }
  }

  /** `decode` is json.loads plus validation of one item, `loads` json.loads of one string literal. */
  method ParsePartialReviewOutput(text: string, decode: string -> Option<ReviewComment>,
      loads: string -> Option<string>)
    returns (r: Option<PartialRecovery>)
    ensures r.None? <==> RecoveredFindings(text, decode) == []
    ensures r.Some? ==> r.value.reviews == RecoveredFindings(text, decode)
    ensures r.Some? ==> r.value.summary == RecoveredSummary(text, loads)
    ensures r.Some? ==>
      |r.value.reviews| + r.value.duplicatesRemoved == |DecodeItems(RecoveredItems(Strip(text)), decode)|
    ensures r.Some? ==> forall a, b :: 0 <= a < b < |r.value.reviews| ==>
      var x, y := r.value.reviews[a], r.value.reviews[b];
      x.filePath != y.filePath || x.line != y.line || x.message != y.message
    ensures r.Some? ==> forall x :: x in DecodeItems(RecoveredItems(Strip(text)), decode) ==>
      exists y :: y in r.value.reviews && y.filePath == x.filePath && y.line == x.line && y.message == x.message
  {
    var candidate := Strip(text);
    var start := FindReviewsArrayStart(candidate);
    var items: seq<string> := [];
    if start.Some? {
      items := ExtractArrayItemStrings(candidate, start.value);
    }
    var reviews := DecodeAll(items, decode);
    var deduped, duplicates := DedupeReviews(reviews);
    assert forall k :: 0 <= k < |deduped| ==> deduped[k] in deduped;
    if deduped == [] {
      return None;
    }
    var raw := FindSummaryLiteral(candidate);
    var summary := if raw.Some? then loads(raw.value) else None;
    var shown := if summary.Some? && summary.value != "" then summary.value else DEFAULT_TRUNCATED_SUMMARY;
    r := Some(PartialRecovery(shown + TRUNCATION_NOTICE, deduped, duplicates));
  }
}
