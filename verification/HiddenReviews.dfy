/**
 Printed documents whose reviews are not recovered: one behind an array among the reviews, and one behind
 which a review holds a code fence in a string.
 */
module HiddenReviews {
  import opened Wrappers
  import opened ReviewSchema
  import opened OutputParser
  import opened FencedOutput
  import opened JsonPrinter
  import opened PrintedKeys
  import opened PrintedItems
  import opened PrintedReviews

  // ---------- an array among the reviews ----------

  /** The printed array `[[{}],{ }]`. */
  function NestedArray(): Json {
    var inner := Arr("", Elem("", Obj("", NoMembers), "", NoElems));
    Arr("", Elem("", inner, "", Elem("", Obj(" ", NoMembers), "", NoElems)))
  }

  // Printing without spaces.

  lemma {:induction false} TightArray(elems: Elems, tail: string)
    ensures PrintThen(Arr("", elems), tail) == ['['] + ElemsThen(elems, [']'] + tail)
  {
    hide ElemsThen;
    assert "" + ElemsThen(elems, [']'] + tail) == ElemsThen(elems, [']'] + tail);
  }

  lemma {:induction false} TightElem(v: Json, rest: Elems, tail: string)
    ensures ElemsThen(Elem("", v, "", rest), tail) == PrintThen(v, MoreElemsThen(rest, tail))
  {
    hide PrintThen, MoreElemsThen;
    ElementsText(Elem("", v, "", rest), tail);
    assert "" + MoreElemsThen(rest, tail) == MoreElemsThen(rest, tail);
    assert "" + PrintThen(v, MoreElemsThen(rest, tail)) == PrintThen(v, MoreElemsThen(rest, tail));
  }

  lemma {:induction false} EmptyObject(gap: string, tail: string)
    ensures PrintThen(Obj(gap, NoMembers), tail) == ['{'] + gap + ['}'] + tail
  {
    assert MembersThen(NoMembers, ['}'] + tail) == ['}'] + tail;
  }

  lemma {:induction false} TightMember(key: string, v: Json, tail: string)
    ensures MembersThen(Member("", key, "", "", v, "", NoMembers), tail) == Quoted(key) + [':'] + PrintThen(v, tail)
  {
    hide PrintThen;
    assert MoreMembersThen(NoMembers, tail) == tail && "" + tail == tail;
  }

  lemma {:induction false} MoreElems(es: Elems, tail: string)
    ensures MoreElemsThen(NoElems, tail) == tail
    ensures es.Elem? ==> MoreElemsThen(es, tail) == [','] + ElemsThen(es, tail)
  {}

  lemma {:induction false} NestedTexts(tail: string)
    ensures Print(Obj("", NoMembers)) == "{}" && Print(Obj(" ", NoMembers)) == "{ }"
    ensures PrintThen(NestedArray(), tail) == "[[{}],{ }]" + tail
    ensures Print(NestedArray().elems.value) == "[{}]"
  {
    hide PrintThen, ElemsThen, MoreElemsThen;
    EmptyObject("", "");
    EmptyObject(" ", "");
    InnerText("");
    var es, close := NestedArray().elems, [']'] + tail;
    TightArray(es, tail);
    TightElem(es.value, es.rest, close);
    MoreElems(es.rest, close);
    TightElem(es.rest.value, NoElems, close);
    MoreElems(NoElems, close);
    EmptyObject(" ", close);
    assert ElemsThen(es.rest, close) == "{ }" + close;
    InnerText([','] + ("{ }" + close));
    assert ElemsThen(es, close) == "[{}]" + ([','] + ("{ }" + close));
    ArrayLiteral(tail);
  }

  lemma {:induction false} ArrayLiteral(tail: string)
    ensures ['['] + ("[{}]" + ([','] + ("{ }" + ([']'] + tail)))) == "[[{}],{ }]" + tail
  {}

  lemma {:induction false} DocumentLiteral()
    ensures ['{'] + ("" + (Quoted(REVIEWS) + [':'] + ("[[{}],{ }]" + ['}']))) == "{\"reviews\":[[{}],{ }]}"
  {}

  lemma {:induction false} InnerText(tail: string)
    ensures PrintThen(NestedArray().elems.value, tail) == "[{}]" + tail
  {
    hide PrintThen, ElemsThen, MoreElemsThen;
    var inner := NestedArray().elems.value;
    TightArray(inner.elems, tail);
    TightElem(Obj("", NoMembers), NoElems, [']'] + tail);
    MoreElems(NoElems, [']'] + tail);
    EmptyObject("", [']'] + tail);
  }

  lemma {:induction false} NestedObjects(pos: nat)
    ensures Scanned(NestedArray().elems, pos) == [Placed(pos + 1, Obj("", NoMembers))]
    ensures Objects(NestedArray().elems, pos) == [Placed(pos + 5, Obj(" ", NoMembers))]
  {
    hide Print, PrintThen;
    NestedTexts("");
    var es := NestedArray().elems;
    assert Scanned(es, pos) == Scanned(es.value.elems, pos + 1);
    assert Scanned(NoElems, pos) == Objects(NoElems, pos) == [];
    assert Scanned(es.value.elems, pos + 1) == [Placed(pos + 1, Obj("", NoMembers))];
    assert Objects(es.rest, pos + 5) == [Placed(pos + 5, Obj(" ", NoMembers))];
    assert Objects(es, pos) == [] + Objects(es.rest, pos + 5);
  }

  lemma {:induction false} OneComplete(p: Placed, k: nat)
    requires p.End() <= k
    ensures Complete([p], k) == [Print(p.value)]
  {
    assert [p][1..] == [];
  }

  lemma {:induction false} NestedDocument(ms: Members)
    requires ms == Member("", REVIEWS, "", "", NestedArray(), "", NoMembers)
    ensures WellFormed(Obj("", ms)) && Print(Obj("", ms)) == "{\"reviews\":[[{}],{ }]}"
    ensures ReviewElems("", ms) == Some((NestedArray().elems, 12))
  {
    hide PrintThen, MembersThen, Print, FirstValue, WellFormed, WellFormedMembers, Quoted;
    NestedTexts(['}']);
    NestedWellFormed(ms);
    DocumentIsPrinted("", ms);
    TightMember(REVIEWS, NestedArray(), ['}']);
    DocumentLiteral();
  }

  lemma {:induction false} NestedWellFormed(ms: Members)
    requires ms == Member("", REVIEWS, "", "", NestedArray(), "", NoMembers)
    ensures WellFormed(Obj("", ms)) && FirstValue(ms, REVIEWS, '[') == Some((10, NestedArray()))
  {
    hide Print, PrintThen;
    NameIsEscaped();
    assert WellFormed(NestedArray()) && Opening(NestedArray()) == '[';
    assert ValueOffset(ms) == 10;
  }

  lemma {:induction false} PlainIsEscaped(text: string)
    requires forall i :: 0 <= i < |text| ==> text[i] != '"' && text[i] != '\\'
    ensures Escaped(text)
  {
    if text != "" {
      PlainIsEscaped(text[1..]);
    }
  }

  lemma {:induction false} NameIsEscaped()
    ensures Escaped(REVIEWS)
  {
    assert REVIEWS == ['r', 'e', 'v', 'i', 'e', 'w', 's'];
    PlainIsEscaped(['r', 'e', 'v', 'i', 'e', 'w', 's']);
  }

  /** A review behind an array is lost, and an object inside that array comes up in its place. */
  lemma {:induction false} NestedReviewReplaces() returns (ms: Members)
    ensures WellFormed(Obj("", ms)) && Print(Obj("", ms)) == "{\"reviews\":[[{}],{ }]}"
    ensures RecoveredItems(Print(Obj("", ms))) == ["{}"]
    ensures Complete(Reviews("", ms), |Print(Obj("", ms))|) == ["{ }"]
  {
    hide Print, RecoveredItems, WellFormed, FirstValue, Complete, Scanned, Objects;
    ms := Member("", REVIEWS, "", "", NestedArray(), "", NoMembers);
    var doc := Print(Obj("", ms));
    NestedTexts("");
    NestedDocument(ms);
    NestedObjects(12);
    OneComplete(Placed(13, Obj("", NoMembers)), |doc|);
    OneComplete(Placed(17, Obj(" ", NoMembers)), |doc|);
    assert doc[..|doc|] == doc;
    CutRecovery("", ms, |doc|);
  }

  // ---------- a fence in a string ----------

  const FENCE_IN_STRING := Str("```x```")

  /** The printed array `[{},{"a":"```x```"}]`. */
  function FencedArray(): Json {
    Arr("", Elem("", Obj("", NoMembers), "", Elem("", FencedReview(), "", NoElems)))
  }

  function FencedReview(): Json {
    Obj("", Member("", "a", "", "", FENCE_IN_STRING, "", NoMembers))
  }

  const FENCED_REVIEW := "{\"a\":\"```x```\"}"

  lemma {:induction false} FencedReviewText(tail: string)
    ensures PrintThen(FencedReview(), tail) == FENCED_REVIEW + tail
  {
    hide PrintThen, MembersThen;
    ObjectText(FencedReview(), tail);
    TightMember("a", FENCE_IN_STRING, ['}'] + tail);
    StringText("```x```", ['}'] + tail);
    FencedReviewLiteral(tail);
  }

  lemma {:induction false} ObjectText(v: Json, tail: string)
    requires v.Obj?
    ensures PrintThen(v, tail) == ['{'] + (v.gap + MembersThen(v.members, ['}'] + tail))
  {}

  lemma {:induction false} StringText(body: string, tail: string)
    ensures PrintThen(Str(body), tail) == ['"'] + (body + (['"'] + tail))
  {}

  lemma {:induction false} FencedReviewLiteral(tail: string)
    ensures ['{'] + ("" + (Quoted("a") + [':'] + (['"'] + ("```x```" + (['"'] + (['}'] + tail))))))
      == FENCED_REVIEW + tail
  {}

  lemma {:induction false} FencedArrayText(tail: string)
    ensures Print(Obj("", NoMembers)) == "{}" && Print(FencedReview()) == FENCED_REVIEW
    ensures PrintThen(FencedArray(), tail) == "[{}," + FENCED_REVIEW + "]" + tail
  {
    hide PrintThen, ElemsThen, MoreElemsThen;
    EmptyObject("", "");
    FencedReviewText("");
    var es, close := FencedArray().elems, [']'] + tail;
    TightArray(es, tail);
    TightElem(es.value, es.rest, close);
    MoreElems(es.rest, close);
    TightElem(es.rest.value, NoElems, close);
    MoreElems(NoElems, close);
    FencedReviewText(close);
    assert ElemsThen(es.rest, close) == FENCED_REVIEW + close;
    EmptyObject("", [','] + (FENCED_REVIEW + close));
    assert ElemsThen(es, close) == "{}" + ([','] + (FENCED_REVIEW + close));
    assert ['['] + ("{}" + ([','] + (FENCED_REVIEW + close))) == "[{}," + FENCED_REVIEW + "]" + tail;
  }

  const FRONT := "{\"reviews\":[{},{\"a\":\""
  const BACK := "\"}]}"

  lemma {:induction false} FencedDocument(ms: Members)
    requires ms == Member("", REVIEWS, "", "", FencedArray(), "", NoMembers)
    ensures WellFormed(Obj("", ms)) && Print(Obj("", ms)) == FRONT + "```x```" + BACK
    ensures ReviewElems("", ms) == Some((FencedArray().elems, 12))
  {
    hide PrintThen, MembersThen, Print, FirstValue, WellFormed, WellFormedMembers, Quoted;
    FencedArrayText(['}']);
    FencedWellFormed(ms);
    DocumentIsPrinted("", ms);
    TightMember(REVIEWS, FencedArray(), ['}']);
    FencedLiteral();
  }

  lemma {:induction false} FencedLiteral()
    ensures ['{'] + ("" + (Quoted(REVIEWS) + [':'] + ("[{}," + FENCED_REVIEW + "]" + ['}'])))
      == FRONT + "```x```" + BACK
  {}

  lemma {:induction false} FencedWellFormed(ms: Members)
    requires ms == Member("", REVIEWS, "", "", FencedArray(), "", NoMembers)
    ensures WellFormed(Obj("", ms)) && FirstValue(ms, REVIEWS, '[') == Some((10, FencedArray()))
  {
    hide Print, PrintThen, Escaped;
    NameIsEscaped();
    PlainIsEscaped("a");
    PlainIsEscaped("```x```");
    assert WellFormed(FencedReview());
    assert WellFormed(FencedArray()) && Opening(FencedArray()) == '[';
    assert ValueOffset(ms) == 10;
  }

  lemma {:induction false} FencedObjects(k: nat)
    requires 14 <= k < 30
    ensures Complete(Scanned(FencedArray().elems, 12), k) == ["{}"]
  {
    hide Print, PrintThen;
    FencedArrayText("");
    var es := FencedArray().elems;
    var first, second := Placed(12, Obj("", NoMembers)), Placed(15, FencedReview());
    assert Scanned(NoElems, 31) == [];
    assert Scanned(es.rest, 15) == [second];
    assert Scanned(es, 12) == [first] + [second];
    ConsPlaced([first], [second]);
    ConsPlaced([second], []);
    assert [second] + [] == [second];
    assert first.End() == 14 && second.End() == 30;
    assert Complete([], k) == [];
  }

  /**
   Recovery is not monotone on this document: cut in front of the fence, the finding that is complete
   there is recovered; of the whole document, none is.
   */
  lemma {:induction false} FencedReviewHides(decode: string -> Option<ReviewComment>, c: ReviewComment)
    returns (ms: Members, k: nat)
    requires decode("{}") == Some(c)
    ensures WellFormed(Obj("", ms)) && k <= |Print(Obj("", ms))|
    ensures Print(Obj("", ms)) == "{\"reviews\":[{},{\"a\":\"```x```\"}]}"
    ensures RecoveredFindings(Print(Obj("", ms))[..k], decode) == [c]
    ensures RecoveredFindings(Print(Obj("", ms)), decode) == []
  {
    hide Print, WellFormed, FirstValue, Complete, Scanned, RecoveredFindings, HasFence, FindingsOf;
    ms, k := Member("", REVIEWS, "", "", FencedArray(), "", NoMembers), |FRONT|;
    FencedDocument(ms);
    var doc := Print(Obj("", ms));
    assert doc == "{\"reviews\":[{},{\"a\":\"```x```\"}]}";
    FrontAndBack();
    FenceHidesFindings(FRONT, BACK, decode);
    assert doc[..k] == FRONT;
    NoFence(FRONT);
    FencedObjects(k);
    FindingsOfCutDocument("", ms, k, decode);
    OneFinding(decode, c);
  }

  lemma {:induction false} FrontAndBack()
    ensures '`' !in FRONT && '`' !in BACK && |FRONT| == 21
  {}

  lemma {:induction false} NoFence(text: string)
    requires '`' !in text
    ensures !HasFence(text)
  {
    assert forall i: nat :: !FenceAt(text, i);
  }

  lemma {:induction false} OneFinding(decode: string -> Option<ReviewComment>, c: ReviewComment)
    requires decode("{}") == Some(c)
    ensures FindingsOf(["{}"], decode) == [c]
  {
    assert ["{}"][1..] == [] && [c] + [] == [c] && [c][1..] == [];
    assert DecodeItems(["{}"], decode) == [c] + DecodeItems([], decode);
    assert Dedupe([c], {}) == [c] + Dedupe([], {} + {DedupeKey(c)});
  }
}
