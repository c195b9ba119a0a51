/**
 What a cut does to recovery, for arbitrary text: each scanner, run on a prefix, finds exactly what
 it finds in the whole text before the cut.
 */
module TruncatedOutput {
  import opened Wrappers
  import opened ReviewSchema
  import opened OutputParser

  /** What is left of an offset when the text is cut after `k` characters. */
  function Before(o: Option<nat>, k: nat): Option<nat> {
    if o.Some? && o.value < k then o else None
  }

  function Quotes(text: string): nat {
    if text == "" then 0 else (if text[0] == '"' then 1 else 0) + Quotes(text[1..])
  }

  lemma {:induction false} QuotesAppend(a: string, b: string)
    ensures Quotes(a + b) == Quotes(a) + Quotes(b)
  {
    if a == "" {
      assert a + b == b;
    } else {
      assert (a + b)[0] == a[0] && (a + b)[1..] == a[1..] + b;
      QuotesAppend(a[1..], b);
    }
  }

  lemma {:induction false} SpacesHoldNoQuote(text: string)
    ensures Quotes(text[..Spaces(text)]) == 0
  {
    if text != "" && IsSpace(text[0]) {
      assert text[..Spaces(text)][1..] == text[1..][..Spaces(text[1..])];
      SpacesHoldNoQuote(text[1..]);
    }
  }

  lemma {:induction false} SkippedHoldNoQuote(text: string, j: nat)
    requires j <= |text|
    ensures Quotes(text[j..SkipFrom(text, j)]) == 0
  {
    assert text[j..SkipFrom(text, j)] == text[j..][..Spaces(text[j..])];
    SpacesHoldNoQuote(text[j..]);
  }

  // ---------- the lookahead ----------

  lemma {:induction false} CutSkip(text: string, j: nat, k: nat)
    requires j <= k <= |text|
    ensures SkipFrom(text[..k], j) == if SkipFrom(text, j) <= k then SkipFrom(text, j) else k
    decreases k - j
  {
    if j < k {
      SkipFromStep(text, j);
      SkipFromStep(text[..k], j);
      if IsSpace(text[j]) {
        CutSkip(text, j + 1, k);
      }
    }
  }

  lemma {:induction false} CutMatch(rest: string, key: string, opener: char, k: nat)
    requires k <= |rest|
    requires opener != ':' && !IsSpace(opener) && !IsSpace(':')
    ensures MatchKey(rest[..k], key, opener) == Before(MatchKey(rest, key, opener), k)
  {
    if key <= rest && |key| <= k {
      assert key <= rest[..k];
      CutSkip(rest, |key|, k);
      var colon := SkipFrom(rest, |key|);
      if colon < k && rest[colon] == ':' {
        CutSkip(rest, colon + 1, k);
      }
    }
  }

  /** From the key to the opener there are only the key's own two quotes. */
  lemma {:induction false} MatchedQuotes(rest: string, key: string, opener: char, k: nat)
    requires MatchKey(rest, key, opener).Some? && k <= MatchKey(rest, key, opener).value
    ensures Quotes(rest[..k]) <= Quotes(key)
  {
    var colon := SkipFrom(rest, |key|);
    var value := SkipFrom(rest, colon + 1);
    SkippedHoldNoQuote(rest, |key|);
    SkippedHoldNoQuote(rest, colon + 1);
    assert rest[..value] == key + rest[|key|..colon] + [':'] + rest[colon + 1..value];
    QuotesAppend(key + rest[|key|..colon] + [':'], rest[colon + 1..value]);
    QuotesAppend(key + rest[|key|..colon], [':']);
    QuotesAppend(key, rest[|key|..colon]);
    assert rest[..value] == rest[..k] + rest[k..value];
    QuotesAppend(rest[..k], rest[k..value]);
  }

  // ---------- the key scan ----------

  /** Too few quotes are left for a key to start. */
  lemma {:induction false} NoKeyLeft(rest: string, key: string, opener: char, lex: Lex)
    requires Quotes(rest) <= if lex.inString then 1 else 0
    ensures FindOpener(rest, key, opener, lex) == None
    decreases |rest|
  {
    if rest != "" {
      NoKeyLeft(rest[1..], key, opener, Step(lex, rest[0]));
    }
  }

  /** On any text, a cut hides a match that lies behind it and creates none. */
  lemma {:induction false} CutOpener(rest: string, key: string, opener: char, lex: Lex, k: nat)
    requires k <= |rest|
    requires opener != ':' && !IsSpace(opener) && Quotes(key) == 2
    ensures FindOpener(rest[..k], key, opener, lex) == Before(FindOpener(rest, key, opener, lex), k)
    decreases |rest|
  {
    if k > 0 {
      CutMatch(rest, key, opener, k);
      assert rest[..k][1..] == rest[1..][..k - 1];
      if AtKey(lex, rest, key, opener) && MatchKey(rest, key, opener).value >= k {
        MatchedQuotes(rest, key, opener, k);
        NoKeyLeft(rest[..k][1..], key, opener, Step(lex, rest[0]));
      } else if !AtKey(lex, rest, key, opener) {
        CutOpener(rest[1..], key, opener, Step(lex, rest[0]), k - 1);
      }
    }
  }

  // ---------- the item scan ----------

  /** The spans that end within the first `limit` characters. */
  function EndingBy(spans: seq<(nat, nat)>, limit: nat): seq<(nat, nat)> {
    if spans == [] then [] else
    (if spans[0].1 <= limit then [spans[0]] else []) + EndingBy(spans[1..], limit)
  }

  lemma {:induction false} NoneEndBy(spans: seq<(nat, nat)>, limit: nat)
    requires forall s :: s in spans ==> limit < s.1
    ensures EndingBy(spans, limit) == []
  {
    if spans != [] {
      assert spans[0] in spans;
      NoneEndBy(spans[1..], limit);
    }
  }

  lemma {:induction false} EndingByCons(span: (nat, nat), spans: seq<(nat, nat)>, limit: nat)
    ensures EndingBy([span] + spans, limit) == (if span.1 <= limit then [span] else []) + EndingBy(spans, limit)
  {
    assert ([span] + spans)[1..] == spans;
  }

  lemma {:induction false} CutSpans(rest: string, pos: nat, s: Scan, k: nat)
    requires k <= |rest| && s.start <= pos
    ensures ItemSpans(rest[..k], pos, s) == EndingBy(ItemSpans(rest, pos, s), pos + k)
    decreases |rest|
  {
    hide EndingBy;
    NoneEndBy([], pos + k);
    if k == 0 {
      SpansInside(rest, pos, s);
      NoneEndBy(ItemSpans(rest, pos, s), pos);
    } else {
      var c, tail := rest[0], rest[1..];
      assert rest[..k][1..] == tail[..k - 1];
      if s.inString {
        CutSpans(tail, pos + 1,
          if s.escape then s.(escape := false)
          else if c == '\\' then s.(escape := true)
          else if c == '"' then s.(inString := false) else s, k - 1);
      } else if c == '"' {
        CutSpans(tail, pos + 1, s.(inString := true), k - 1);
      } else if s.depth == 0 {
        CutSpans(tail, pos + 1, if c == '{' then s.(depth := 1, start := pos) else s, k - 1);
      } else if c == '{' || c == '[' {
        CutSpans(tail, pos + 1, s.(depth := s.depth + 1), k - 1);
      } else if c == '}' || c == ']' {
        CutSpans(tail, pos + 1, s.(depth := s.depth - 1), k - 1);
        EndingByCons((s.start, pos + 1), ItemSpans(tail, pos + 1, s.(depth := 0)), pos + k);
      } else {
        CutSpans(tail, pos + 1, s, k - 1);
      }
    }
  }

  // ---------- a closed string ----------

  lemma {:induction false} CutCloseQuote(rest: string, escape: bool, k: nat)
    requires k <= |rest|
    ensures CloseQuote(rest[..k], escape) == Before(CloseQuote(rest, escape), k)
    decreases |rest|
  {
    if k > 0 {
      assert rest[..k][1..] == rest[1..][..k - 1];
      CutCloseQuote(rest[1..], !escape && rest[0] == '\\', k - 1);
    }
  }

  // ---------- recovery as a whole ----------

  predicate EndsIncrease(spans: seq<(nat, nat)>) {
    forall i, j :: 0 <= i < j < |spans| ==> spans[i].1 < spans[j].1
  }

  lemma {:induction false} IncreaseCons(span: (nat, nat), spans: seq<(nat, nat)>)
    requires EndsIncrease(spans) && forall later :: later in spans ==> span.1 < later.1
    ensures EndsIncrease([span] + spans)
  {
    var all := [span] + spans;
    assert forall j :: 0 < j < |all| ==> all[j] == spans[j - 1] && all[j] in spans;
  }

  lemma {:induction false} SpansIncrease(rest: string, pos: nat, s: Scan)
    requires s.start <= pos
    ensures EndsIncrease(ItemSpans(rest, pos, s))
    decreases |rest|
  {
    if rest == "" {
      assert EndsIncrease([]);
    } else {
      hide EndsIncrease;
      var c, tail := rest[0], rest[1..];
      if s.inString {
        SpansIncrease(tail, pos + 1,
          if s.escape then s.(escape := false)
          else if c == '\\' then s.(escape := true)
          else if c == '"' then s.(inString := false) else s);
      } else if c == '"' {
        SpansIncrease(tail, pos + 1, s.(inString := true));
      } else if s.depth == 0 {
        SpansIncrease(tail, pos + 1, if c == '{' then s.(depth := 1, start := pos) else s);
        NoIncrease();
      } else if c == '{' || c == '[' {
        SpansIncrease(tail, pos + 1, s.(depth := s.depth + 1));
      } else if c == '}' || c == ']' {
        var s' := s.(depth := s.depth - 1);
        SpansIncrease(tail, pos + 1, s');
        SpansInside(tail, pos + 1, s');
        IncreaseCons((s.start, pos + 1), ItemSpans(tail, pos + 1, s'));
      } else {
        SpansIncrease(tail, pos + 1, s);
      }
    }
  }

  lemma {:induction false} NoIncrease()
    ensures EndsIncrease([])
  {}

  lemma {:induction false} EndingByIsPrefix(spans: seq<(nat, nat)>, limit: nat)
    requires EndsIncrease(spans)
    ensures EndingBy(spans, limit) <= spans
    ensures forall s :: s in EndingBy(spans, limit) <==> s in spans && s.1 <= limit
  {
    if spans != [] {
      EndingByIsPrefix(spans[1..], limit);
      if limit < spans[0].1 {
        NoneEndBy(spans[1..], limit);
      }
    }
  }

  /** The array start never moves: a cut either keeps it or hides it. */
  lemma {:induction false} CutArrayStart(text: string, k: nat)
    requires k <= |text|
    ensures ReviewsArrayStart(text[..k])
         == if ReviewsArrayStart(text).Some? && ReviewsArrayStart(text).value <= k
            then ReviewsArrayStart(text) else None
  {
    QuotedQuotes(REVIEWS);
    CutOpener(text, Quoted(REVIEWS), '[', START, k);
  }

  lemma {:induction false} QuotedQuotes(body: string)
    requires '"' !in body
    ensures Quotes(Quoted(body)) == 2
  {
    NoQuotes(body);
    QuotesAppend(['"'] + body, ['"']);
    QuotesAppend(['"'], body);
  }

  lemma {:induction false} NoQuotes(text: string)
    requires '"' !in text
    ensures Quotes(text) == 0
  {
    if text != "" {
      assert text[0] in text;
      NoQuotes(text[1..]);
    }
  }

  lemma {:induction false} SlicesOfPrefix(text: string, k: nat, cut: seq<(nat, nat)>, whole: seq<(nat, nat)>)
    requires k <= |text| && cut <= whole
    requires forall span :: span in cut ==> span.0 <= span.1 <= k
    requires forall span :: span in whole ==> span.0 <= span.1 <= |text|
    ensures Slices(text[..k], cut) <= Slices(text, whole)
  {
    forall i | 0 <= i < |cut| ensures Slices(text[..k], cut)[i] == Slices(text, whole)[i] {
      assert cut[i] in cut;
      assert text[..k][cut[i].0..cut[i].1] == text[cut[i].0..cut[i].1];
    }
  }

  /** The items of a cut text are the items of the whole text that close before the cut. */
  lemma {:induction false} CutItems(text: string, start: nat, k: nat)
    requires start <= k <= |text|
    ensures ItemsFrom(text[..k], start) == EndingBy(ItemsFrom(text, start), k)
    ensures ItemStrings(text[..k], start) <= ItemStrings(text, start)
  {
    hide ItemSpans, EndingBy, Slices, EndsIncrease;
    var s := Scan(0, false, false, start);
    assert text[..k][start..] == text[start..][..k - start];
    CutSpans(text[start..], start, s, k - start);
    SpansInside(text[start..], start, s);
    SpansInside(text[..k][start..], start, s);
    SpansIncrease(text[start..], start, s);
    EndingByIsPrefix(ItemsFrom(text, start), k);
    var cut, whole := ItemStrings(text[..k], start), ItemStrings(text, start);
    SlicesOfPrefix(text, k, ItemsFrom(text[..k], start), ItemsFrom(text, start));
  }

  lemma {:induction false} CutRecoveredItems(text: string, k: nat)
    requires k <= |text|
    ensures RecoveredItems(text[..k]) <= RecoveredItems(text)
  {
    CutArrayStart(text, k);
    var start := ReviewsArrayStart(text[..k]);
    if start.Some? {
      CutItems(text, start.value, k);
    }
  }

  lemma {:induction false} DecodePrefix(a: seq<string>, b: seq<string>, decode: string -> Option<ReviewComment>)
    requires a <= b
    ensures DecodeItems(a, decode) <= DecodeItems(b, decode)
  {
    if a != [] {
      DecodePrefix(a[1..], b[1..], decode);
    }
  }

  lemma {:induction false} DedupePrefix(a: seq<ReviewComment>, b: seq<ReviewComment>, seen: set<(string, int, string)>)
    requires a <= b
    ensures Dedupe(a, seen) <= Dedupe(b, seen)
  {
    if a != [] {
      DedupePrefix(a[1..], b[1..], seen + {DedupeKey(a[0])});
      if DedupeKey(a[0]) in seen {
        DedupePrefix(a[1..], b[1..], seen);
      }
    }
  }

  lemma {:induction false} TrimPrefix(text: string, k: nat)
    requires k <= |text|
    ensures Trim(text[..k]) <= Trim(text)
  {
    var lead := Spaces(text);
    CutSkip(text, 0, k);
    assert text[0..] == text && text[..k][0..] == text[..k];
    if lead <= k {
      var whole, cut := text[lead..], text[..k][lead..];
      assert cut == whole[..k - lead];
      var kept := |cut| - TrailingSpaces(cut);
      if kept > 0 {
        assert !IsSpace(cut[kept - 1]) && cut[kept - 1] == whole[kept - 1];
      }
      assert kept <= |whole| - TrailingSpaces(whole);
    } else {
      assert text[..k][Spaces(text[..k])..] == "";
    }
  }

  /** What trimming leaves is a slice, with spaces on both sides of it. */
  lemma {:induction false} TrimSlice(text: string) returns (a: nat, b: nat)
    ensures a <= b <= |text| && Trim(text) == text[a..b]
    ensures forall i :: 0 <= i < |text| && (i < a || b <= i) ==> IsSpace(text[i])
  {
    a := Spaces(text);
    var left := text[a..];
    b := |text| - TrailingSpaces(left);
    SpacesAreSpaces(text);
    assert forall i :: b <= i < |text| ==> text[i] == left[i - a];
  }

  lemma {:induction false} SpacesAreSpaces(text: string)
    ensures forall i :: 0 <= i < Spaces(text) ==> IsSpace(text[i])
  {
    if text != "" && IsSpace(text[0]) {
      SpacesAreSpaces(text[1..]);
      assert forall i :: 0 < i < Spaces(text) ==> text[i] == text[1..][i - 1];
    }
  }

  lemma {:induction false} FenceInSlice(text: string, a: nat, b: nat, i: nat)
    requires a <= b <= |text|
    ensures FenceAt(text[a..b], i) <==> a + i + 3 <= b && FenceAt(text, a + i)
  {}

  /** No part of a fence-free text holds a fence. */
  lemma {:induction false} SliceIsFenceFree(text: string, a: nat, b: nat)
    requires a <= b <= |text| && FenceFree(text)
    ensures FenceFree(text[a..b])
  {
    hide FenceAt;
    forall i, j | 0 <= i && i + 4 <= j && FenceAt(text[a..b], i) && FenceAt(text[a..b], j) ensures false {
      FenceInSlice(text, a, b, i);
      FenceInSlice(text, a, b, j);
    }
  }

  lemma {:induction false} FenceInside(text: string, a: nat, b: nat, i: nat)
    requires a <= b <= |text| && FenceAt(text, i)
    requires forall k :: 0 <= k < |text| && (k < a || b <= k) ==> IsSpace(text[k])
    ensures a <= i && i + 3 <= b
  {
    assert !IsSpace('`');
  }

  /** Exactly on fence-free text, `_strip_fence` does no more than trim. */
  lemma {:induction false} StripIsTrimIff(text: string)
    ensures Strip(text) == Trim(text) <==> FenceFree(text)
  {
    hide Trim, IsSpace;
    var a, b := TrimSlice(text);
    var c := Trim(text);
    if FenceFree(text) {
      SliceIsFenceFree(text, a, b);
    } else {
      var i, j :| 0 <= i && i + 4 <= j && FenceAt(text, i) && FenceAt(text, j);
      FenceInside(text, a, b, i);
      FenceInside(text, a, b, j);
      FenceInSlice(text, a, b, i - a);
      FenceInSlice(text, a, b, j - a);
      var first, last := FirstFence(c).value, LastFence(c).value;
      assert first <= i - a && j - a <= last;
      assert |c[FenceBody(c, first, last)..last]| < |c|;
    }
  }
}
