/**
 Completed-prefix recovery: print any JSON object and cut it anywhere. The scanners return exactly the
 printed objects that the item scan meets, and the printed summary, as far as they are complete before
 the cut; and it is said when these are the reviews of the document.
 */
module PrintedReviews {
  import opened Wrappers
  import opened Seqs
  import opened ReviewSchema
  import opened OutputParser
  import opened TruncatedOutput
  import opened FencedOutput
  import opened JsonPrinter
  import opened PrintedKeys
  import opened PrintedItems

  // ---------- a printed document ----------

  function Document(gap: string, ms: Members): string {
    ['{'] + (gap + MembersThen(ms, ['}']))
  }

  lemma {:induction false} DocumentIsPrinted(gap: string, ms: Members)
    ensures Document(gap, ms) == Print(Obj(gap, ms))
  {
    assert ['}'] + "" == ['}'];
  }

  lemma {:induction false} DocumentScan(gap: string, ms: Members, name: string, opener: char)
    requires Blank(gap) && WellFormedMembers(ms)
    requires forall i :: 0 <= i < |name| ==> name[i] != '"' && name[i] != '\\'
    ensures FindOpener(Document(gap, ms), Quoted(name), opener, START)
         == Shift(1 + |gap|, OffsetOf(FirstValue(ms, name, opener)))
  {
    hide FindOpener, MembersThen, FirstValue;
    FindStep('{', gap + MembersThen(ms, ['}']), Quoted(name), opener, START);
    assert Step(START, '{') == TOP_OBJECT;
    FindPlain(gap, MembersThen(ms, ['}']), Quoted(name), opener, TOP_OBJECT);
    FindMembers(ms, name, opener);
  }

  lemma {:induction false} DropAt(s: string, p: nat, q: nat, a: string, b: string)
    requires p <= |s| && s[p..] == a + b && q == p + |a|
    ensures q <= |s| && s[q..] == b
  {
    SplitAt(s, p, a, b);
  }

  lemma {:induction false} KeyFrom(pre: string, key: string, beforeColon: string, afterColon: string, tail: string)
    ensures var text, at := pre + KeyThen(key, beforeColon, afterColon, tail),
        |pre| + 1 + |key| + 1 + |beforeColon| + 1 + |afterColon|;
      at <= |text| && text[at..] == tail
  {
    var front := KeyThen(key, beforeColon, afterColon, "");
    KeyAppend(key, beforeColon, afterColon, "", tail);
    assert "" + tail == tail;
    KeyLength(key, beforeColon, afterColon);
    hide KeyThen;
    Assoc(pre, front, tail);
    assert ((pre + front) + tail)[|pre + front|..] == tail;
  }

  lemma {:induction false} KeyLength(key: string, beforeColon: string, afterColon: string)
    ensures |KeyThen(key, beforeColon, afterColon, "")| == 1 + |key| + 1 + |beforeColon| + 1 + |afterColon|
  {}

  /** The value of a printed member, and the members behind it, stand at their offsets. */
  lemma {:induction false} MemberText(ms: Members)
    requires ms.Member?
    ensures var text, next := MembersThen(ms, ['}']), ValueOffset(ms) + |Print(ms.value)| + |ms.post| + 1;
      && ValueOffset(ms) <= |text|
      && text[ValueOffset(ms)..] == PrintThen(ms.value, ms.post + MoreMembersThen(ms.rest, ['}']))
      && (ms.rest.Member? ==> next <= |text| && text[next..] == MembersThen(ms.rest, ['}']))
  {
    hide Print, PrintThen, KeyThen, MembersThen, MoreMembersThen;
    var more := MoreMembersThen(ms.rest, ['}']);
    var text, at := MembersThen(ms, ['}']), ValueOffset(ms);
    MembersText(ms, ['}']);
    MembersText(ms.rest, ['}']);
    KeyFrom(ms.pre, ms.key, ms.beforeColon, ms.afterColon, PrintThen(ms.value, ms.post + more));
    hide ValueOffset;
    PrintAppend(ms.value, ms.post + more);
    DropAt(text, at, at + |Print(ms.value)|, Print(ms.value), ms.post + more);
    DropAt(text, at + |Print(ms.value)|, at + |Print(ms.value)| + |ms.post|, ms.post, more);
    if ms.rest.Member? {
      var end := at + |Print(ms.value)| + |ms.post|;
      DropAt(text, end, end + 1, [','], MembersThen(ms.rest, ['}']));
    }
  }

  /** At the offset of a found value stands that value. */
  lemma {:induction false} ValueText(ms: Members, name: string, opener: char) returns (tail: string)
    requires WellFormedMembers(ms) && FirstValue(ms, name, opener).Some?
    ensures var found := FirstValue(ms, name, opener).value;
      && WellFormed(found.1) && Opening(found.1) == opener
      && found.0 <= |MembersThen(ms, ['}'])|
      && MembersThen(ms, ['}'])[found.0..] == PrintThen(found.1, tail)
  {
    hide Print, PrintThen, Opening, MembersThen, MoreMembersThen, ValueOffset, WellFormed;
    MemberText(ms);
    tail := ms.post + MoreMembersThen(ms.rest, ['}']);
    if ms.key != name || Opening(ms.value) != opener {
      var text, next := MembersThen(ms, ['}']), ValueOffset(ms) + |Print(ms.value)| + |ms.post| + 1;
      tail := ValueText(ms.rest, name, opener);
      var at := FirstValue(ms.rest, name, opener).value.0;
      assert text[next..][at..] == text[next + at..];
    }
  }

  lemma {:induction false} DocumentOpens(gap: string, ms: Members, k: nat)
    requires k <= |Document(gap, ms)|
    ensures Spaces(Document(gap, ms)[..k]) == 0
  {}

  lemma {:induction false} DocumentFrom(gap: string, ms: Members, at: nat)
    requires at <= |MembersThen(ms, ['}'])|
    ensures 1 + |gap| + at <= |Document(gap, ms)|
    ensures Document(gap, ms)[1 + |gap| + at..] == MembersThen(ms, ['}'])[at..]
  {}

  // ---------- its reviews ----------

  /** The elements of the first top-level reviews array and the index from which on they are printed. */
  function ReviewElems(gap: string, ms: Members): Option<(Elems, nat)>
    requires WellFormedMembers(ms)
  {
    var found := FirstValue(ms, REVIEWS, '[');
    if found.None? || !found.value.1.Arr? then None else
    Some((found.value.1.elems, 1 + |gap| + found.value.0 + 1 + |found.value.1.gap|))
  }

  /** The objects that the item scan meets in a document. */
  function ScannedReviews(gap: string, ms: Members): seq<Placed>
    requires WellFormedMembers(ms)
  {
    match ReviewElems(gap, ms) case None => [] case Some((es, pos)) => Scanned(es, pos)
  }

  /** The reviews of a document: the elements of its reviews array that are objects. */
  function Reviews(gap: string, ms: Members): seq<Placed>
    requires WellFormedMembers(ms)
  {
    match ReviewElems(gap, ms) case None => [] case Some((es, pos)) => Objects(es, pos)
  }

  /** No review is hidden inside or behind an array among the reviews. */
  predicate ReviewsScanExactly(gap: string, ms: Members)
    requires WellFormedMembers(ms)
  {
    match ReviewElems(gap, ms) case None => true case Some((es, _)) => ScansExactly(es)
  }

  /** The reviews array stands in the document, and its elements behind its bracket and its gap. */
  lemma {:induction false} ReviewsStand(gap: string, ms: Members) returns (tail: string)
    requires Blank(gap) && WellFormedMembers(ms) && FirstValue(ms, REVIEWS, '[').Some?
    ensures var text, v, start := Document(gap, ms), FirstValue(ms, REVIEWS, '[').value.1,
        1 + |gap| + FirstValue(ms, REVIEWS, '[').value.0;
      && v.Arr? && WellFormed(v) && start < |text| && text[start..] == PrintThen(v, tail)
      && start + 1 + |v.gap| <= |text|
      && text[start + 1..] == v.gap + ElemsThen(v.elems, [']'] + tail)
      && text[start + 1 + |v.gap|..] == ElemsThen(v.elems, [']'] + tail)
  {
    hide Document, FirstValue, MembersThen, WellFormed, WellFormedMembers, Blank, PrintThen, ElemsThen;
    var text, found := Document(gap, ms), FirstValue(ms, REVIEWS, '[').value;
    tail := ValueText(ms, REVIEWS, '[');
    var start, v := 1 + |gap| + found.0, found.1;
    OpeningTells(v);
    DocumentFrom(gap, ms, found.0);
    ArrayText(v, tail);
    SplitAt(text, start, ['['], v.gap + ElemsThen(v.elems, [']'] + tail));
    SplitAt(text, start + 1, v.gap, ElemsThen(v.elems, [']'] + tail));
  }

  lemma {:induction false} ElemsWellFormed(v: Json)
    requires WellFormed(v) && v.Arr?
    ensures Blank(v.gap) && WellFormedElems(v.elems)
  {}

  lemma {:induction false} BlankIsPlain(ws: string)
    requires Blank(ws)
    ensures Plain(ws)
  {}

  lemma {:induction false} ItemsOfArray(text: string, start: nat, v: Json, tail: string, k: nat)
    requires v.Arr? && WellFormed(v)
    requires k <= |text| && 0 < start && start + |v.gap| <= |text|
    requires text[start..] == v.gap + ElemsThen(v.elems, [']'] + tail)
    requires text[start + |v.gap|..] == ElemsThen(v.elems, [']'] + tail)
    ensures (if start <= k then ItemStrings(text[..k], start) else []) == Complete(Scanned(v.elems, start + |v.gap|), k)
  {
    hide ItemSpans, Complete, Scanned, ElemsThen, Spans, EndingBy, Stand, WellFormed, Plain, Blank, Print;
    var pos := start + |v.gap|;
    var ps := Scanned(v.elems, pos);
    ElemsWellFormed(v);
    BlankIsPlain(v.gap);
    ScannedStand(text, v.elems, [']'] + tail, pos);
    if k < start {
      NoneComplete(text, ps, pos, k);
    } else {
      CutItems(text, start, k);
      StartForgotten(text[start..], start, Scan(0, false, false, start));
      ItemsPlain(v.gap, ElemsThen(v.elems, [']'] + tail), start);
      ItemsElems(v.elems, tail, pos);
      var spans := ItemsFrom(text[..k], start);
      assert spans == EndingBy(Spans(ps), k);
      SpansHoldPrints(text, ps, pos, k);
      SpansInside(text[..k][start..], start, Scan(0, false, false, start));
      SlicesOfPrefix(text, k, spans, spans);
    }
  }

  lemma {:induction false} CutDocumentItems(gap: string, ms: Members, k: nat)
    requires Blank(gap) && WellFormedMembers(ms) && k <= |Document(gap, ms)|
    ensures RecoveredItems(Document(gap, ms)[..k]) == Complete(ScannedReviews(gap, ms), k)
  {
    hide FindOpener, FirstValue, MembersThen, PrintThen, Complete, Scanned, ItemStrings, WellFormed,
      WellFormedMembers, Document, Blank, ElemsThen;
    var text := Document(gap, ms);
    DocumentScan(gap, ms, REVIEWS, '[');
    CutArrayStart(text, k);
    var found := FirstValue(ms, REVIEWS, '[');
    if found.Some? {
      var tail := ReviewsStand(gap, ms);
      ItemsOfArray(text, 1 + |gap| + found.value.0 + 1, found.value.1, tail, k);
    } else {
      NothingComplete(k);
    }
  }

  lemma {:induction false} NothingComplete(k: nat)
    ensures Complete([], k) == []
  {}

  /**
   Print any object and cut it at any index: the array-start scan followed by the item scan returns
   exactly the printed texts of the objects it meets whose closing brace lies before the cut.
   */
  lemma {:induction false} CutRecovery(gap: string, ms: Members, k: nat)
    requires WellFormed(Obj(gap, ms)) && k <= |Print(Obj(gap, ms))|
    ensures RecoveredItems(Print(Obj(gap, ms))[..k]) == Complete(ScannedReviews(gap, ms), k)
  {
    hide RecoveredItems, Complete, ScannedReviews, Document, Print;
    DocumentIsPrinted(gap, ms);
    CutDocumentItems(gap, ms, k);
  }

  /** These are the complete reviews of the document, when none is hidden inside or behind an array. */
  lemma {:induction false} CompletedPrefixRecovery(gap: string, ms: Members, k: nat)
    requires WellFormed(Obj(gap, ms)) && k <= |Print(Obj(gap, ms))| && ReviewsScanExactly(gap, ms)
    ensures RecoveredItems(Print(Obj(gap, ms))[..k]) == Complete(Reviews(gap, ms), k)
  {
    hide RecoveredItems, Complete, Scanned, Objects, ScansExactly, FirstValue, Print, WellFormedMembers;
    CutRecovery(gap, ms, k);
    var found := ReviewElems(gap, ms);
    if found.Some? {
      ExactScan(found.value.0, found.value.1);
    }
  }

  /** And that is the exact condition: otherwise some cut recovers more, or less, than is complete. */
  lemma {:induction false} RecoveryIsExactIff(gap: string, ms: Members)
    requires WellFormed(Obj(gap, ms))
    ensures ReviewsScanExactly(gap, ms) <==>
      forall k :: 0 <= k <= |Print(Obj(gap, ms))| ==>
        RecoveredItems(Print(Obj(gap, ms))[..k]) == Complete(Reviews(gap, ms), k)
  {
    hide RecoveredItems, Complete, Scanned, Objects, ScansExactly, FirstValue, Print, WellFormedMembers;
    if ReviewsScanExactly(gap, ms) {
      forall k | 0 <= k <= |Print(Obj(gap, ms))|
        ensures RecoveredItems(Print(Obj(gap, ms))[..k]) == Complete(Reviews(gap, ms), k)
      {
        CompletedPrefixRecovery(gap, ms, k);
      }
    } else {
      var found := ReviewElems(gap, ms).value;
      var k := Diverges(found.0, found.1);
      ReviewsWithin(gap, ms);
      CutRecovery(gap, ms, k);
    }
  }

  lemma {:induction false} ReviewsWithin(gap: string, ms: Members)
    requires WellFormed(Obj(gap, ms)) && ReviewElems(gap, ms).Some?
    ensures ReviewElems(gap, ms).value.1 + |ElemsThen(ReviewElems(gap, ms).value.0, "")| <= |Print(Obj(gap, ms))|
  {
    hide FirstValue, Print, WellFormedMembers, ElemsThen, Document;
    DocumentIsPrinted(gap, ms);
    var tail := ReviewsStand(gap, ms);
    ElemsAppend(ReviewElems(gap, ms).value.0, [']'] + tail);
  }

  // ---------- its summary ----------

  lemma {:induction false} CloseStep(c: char, rest: string, escape: bool)
    ensures CloseQuote([c] + rest, escape)
      == if !escape && c == '"' then Some(0) else Shift(1, CloseQuote(rest, !escape && c == '\\'))
  {
    assert ([c] + rest)[1..] == rest;
  }

  lemma {:induction false} CloseOver(body: string, tail: string, escape: bool)
    requires if escape then body != "" && Escaped(body[1..]) else Escaped(body)
    ensures CloseQuote(body + (['"'] + tail), escape) == Some(|body|)
    decreases |body|
  {
    hide CloseQuote;
    if body == "" {
      assert body + (['"'] + tail) == ['"'] + tail;
      CloseStep('"', tail, escape);
    } else {
      Uncons(body, ['"'] + tail);
      CloseStep(body[0], body[1..] + (['"'] + tail), escape);
      CloseOver(body[1..], tail, !escape && body[0] == '\\');
    }
  }

  /** The printed literal of the first top-level summary that is a string, if its closing quote is not cut. */
  function CompleteSummary(gap: string, ms: Members, k: nat): Option<string>
    requires WellFormedMembers(ms)
  {
    var found := FirstValue(ms, SUMMARY, '"');
    if found.Some? && found.value.1.Str? && 1 + |gap| + found.value.0 + |found.value.1.body| + 2 <= k
    then Some(Quoted(found.value.1.body)) else None
  }

  lemma {:induction false} CutDocumentSummary(gap: string, ms: Members, k: nat)
    requires Blank(gap) && WellFormedMembers(ms) && k <= |Document(gap, ms)|
    ensures SummaryLiteral(Document(gap, ms)[..k]) == CompleteSummary(gap, ms, k)
  {
    hide FindOpener, FirstValue, MembersThen, PrintThen, ClosedLiteral, WellFormed;
    var text := Document(gap, ms);
    DocumentScan(gap, ms, SUMMARY, '"');
    QuotedQuotes(SUMMARY);
    CutOpener(text, Quoted(SUMMARY), '"', START, k);
    var found := FirstValue(ms, SUMMARY, '"');
    if found.Some? {
      var tail := ValueText(ms, SUMMARY, '"');
      var quote := 1 + |gap| + found.value.0;
      OpeningTells(found.value.1);
      ClosedPrinted(text, quote, found.value.1, tail, k);
    }
  }

  lemma {:induction false} LiteralText(v: Json, tail: string)
    requires WellFormed(v) && v.Str?
    ensures Escaped(v.body) && PrintThen(v, tail) == Quoted(v.body) + tail
    ensures PrintThen(v, tail)[1..] == v.body + (['"'] + tail)
  {
    hide Escaped;
  }

  lemma {:induction false} ClosedPrinted(text: string, quote: nat, v: Json, tail: string, k: nat)
    requires k <= |text| && quote < |text|
    requires WellFormed(v) && v.Str? && text[quote..] == PrintThen(v, tail)
    ensures quote < k ==>
      ClosedLiteral(text[..k], quote) == if quote + |v.body| + 2 <= k then Some(Quoted(v.body)) else None
  {
    hide CloseQuote, PrintThen, WellFormed, Escaped;
    var rest := v.body + (['"'] + tail);
    LiteralText(v, tail);
    assert text[quote + 1..] == text[quote..][1..] == rest;
    CloseOver(v.body, tail, false);
    if quote < k {
      CutCloseQuote(rest, false, k - quote - 1);
      assert text[..k][quote + 1..] == rest[..k - quote - 1];
      if quote + |v.body| + 2 <= k {
        SplitAt(text, quote, Quoted(v.body), tail);
        SliceOfPrefix(text, k, quote, quote + |v.body| + 2);
      }
    }
  }

  /** The summary literal of a cut document is the printed one exactly when its closing quote survived. */
  lemma {:induction false} CompletedSummaryRecovery(gap: string, ms: Members, k: nat)
    requires WellFormed(Obj(gap, ms)) && k <= |Print(Obj(gap, ms))|
    ensures SummaryLiteral(Print(Obj(gap, ms))[..k]) == CompleteSummary(gap, ms, k)
  {
    hide SummaryLiteral, CompleteSummary, Document, Print;
    DocumentIsPrinted(gap, ms);
    CutDocumentSummary(gap, ms, k);
  }

  // ---------- from the raw text to findings and summary ----------

  /** Stripping a fence-free cut document takes the spaces at its end, and nothing else. */
  lemma {:induction false} StripCut(gap: string, ms: Members, k: nat) returns (k': nat)
    requires k <= |Document(gap, ms)| && FenceFree(Document(gap, ms)[..k])
    ensures k' <= k && Strip(Document(gap, ms)[..k]) == Document(gap, ms)[..k']
    ensures forall i :: k' <= i < k ==> IsSpace(Document(gap, ms)[i])
  {
    hide Strip, FenceFree, Document, IsSpace;
    var text, cut := Document(gap, ms), Document(gap, ms)[..k];
    StripIsTrimIff(cut);
    k' := k - TrailingSpaces(cut);
    assert Spaces(cut) == 0 by { DocumentOpens(gap, ms, k); }
    assert cut[0..] == cut;
    assert forall i :: k' <= i < k ==> text[i] == cut[i];
  }

  /**
   The findings recovered from a cut document without a fence are the decoded texts of the complete
   objects the scan meets, duplicates removed; of the complete reviews, when the scan is exact. A fence in
   the cut leaves what its contents hold.
   */
  lemma {:induction false} FindingsOfCutDocument(gap: string, ms: Members, k: nat,
      decode: string -> Option<ReviewComment>)
    requires WellFormed(Obj(gap, ms)) && k <= |Print(Obj(gap, ms))|
    ensures var cut := Print(Obj(gap, ms))[..k];
      && RecoveredFindings(cut, decode)
           == FindingsOf(
                if HasFence(cut) then RecoveredItems(Fenced(cut)) else Complete(ScannedReviews(gap, ms), k), decode)
      && (!HasFence(cut) && ReviewsScanExactly(gap, ms) ==>
           RecoveredFindings(cut, decode) == FindingsOf(Complete(Reviews(gap, ms), k), decode))
  {
    hide Complete, Print, Strip, RecoveredItems, ScannedReviews, Reviews, ReviewsScanExactly, HasFence, Fenced;
    var cut := Print(Obj(gap, ms))[..k];
    RecoveredByStripping(cut);
    FindingsAre(cut, decode);
    CutRecovery(gap, ms, k);
    if ReviewsScanExactly(gap, ms) {
      CompletedPrefixRecovery(gap, ms, k);
    }
  }

  lemma {:induction false} TrimKeepsSummary(gap: string, ms: Members, k': nat, k: nat)
    requires Blank(gap) && WellFormedMembers(ms) && k' <= k <= |Document(gap, ms)|
    requires forall i :: k' <= i < k ==> IsSpace(Document(gap, ms)[i])
    ensures CompleteSummary(gap, ms, k') == CompleteSummary(gap, ms, k)
  {
    hide Document, FirstValue, MembersThen, PrintThen, WellFormed, WellFormedMembers, Blank;
    var text, found := Document(gap, ms), FirstValue(ms, SUMMARY, '"');
    if found.Some? {
      var tail := ValueText(ms, SUMMARY, '"');
      OpeningTells(found.value.1);
      DocumentFrom(gap, ms, found.value.0);
      LiteralText(found.value.1, tail);
      var quote, body := 1 + |gap| + found.value.0, found.value.1.body;
      SplitAt(text, quote, Quoted(body), tail);
      assert text[quote + |body| + 1] == text[quote..quote + |Quoted(body)|][|body| + 1] == '"';
      assert !IsSpace('"');
    }
  }

  /**
   The summary recovered from a cut document without a fence is the decoded printed one if it is
   complete, else the default. A fence in the cut leaves the summary its contents hold.
   */
  lemma {:induction false} SummaryOfCutDocument(gap: string, ms: Members, k: nat, loads: string -> Option<string>)
    requires WellFormed(Obj(gap, ms)) && k <= |Print(Obj(gap, ms))|
    ensures var cut := Print(Obj(gap, ms))[..k];
      RecoveredSummary(cut, loads) == ShownSummary(
        if HasFence(cut) then SummaryLiteral(Trim(Fenced(cut))) else CompleteSummary(gap, ms, k), loads)
  {
    hide Document, Print, Strip, CompleteSummary, SummaryLiteral, FenceFree, IsSpace, HasFence, Fenced;
    var cut := Print(Obj(gap, ms))[..k];
    HasFenceIff(cut);
    if HasFence(cut) {
      StripFenced(cut);
    } else {
      DocumentIsPrinted(gap, ms);
      var k' := StripCut(gap, ms, k);
      CutDocumentSummary(gap, ms, k');
      TrimKeepsSummary(gap, ms, k', k);
    }
  }
}
