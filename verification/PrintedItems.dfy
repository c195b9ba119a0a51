/**
 The item scan on printed arrays: which objects it meets, and that it returns exactly those. It does not
 count a bracket between items, so it walks into the first element that is itself an array, and stops
 where that one ends.
 */
module PrintedItems {
  import opened Wrappers
  import opened Seqs
  import opened OutputParser
  import opened TruncatedOutput
  import opened JsonPrinter
  import opened PrintedKeys

  const BETWEEN: Scan := Scan(0, false, false, 0)

  /** Between items the remembered start does not matter. */
  lemma {:induction false} StartForgotten(rest: string, pos: nat, s: Scan)
    requires s.depth == 0
    ensures ItemSpans(rest, pos, s) == ItemSpans(rest, pos, s.(start := 0))
  {
    if rest != "" && (s.inString || (rest[0] != '{' && rest[0] != ']')) {
      var c := rest[0];
      var next := if !s.inString then s.(inString := c == '"')
        else if s.escape then s.(escape := false)
        else if c == '\\' then s.(escape := true)
        else if c == '"' then s.(inString := false) else s;
      StartForgotten(rest[1..], pos + 1, next);
      assert next.(start := 0).start == 0;
    }
  }

  lemma {:induction false} ItemsWalked(text: string, tail: string, pos: nat, s: Scan)
    requires s.depth >= 1
    requires Walk(text, Depth(s.depth, s.inString, s.escape)) == Some(Depth(1, false, false))
    ensures ItemSpans(text + tail, pos, s) == ItemSpans(tail, pos + |text|, Scan(1, false, false, s.start))
  {
    if text == "" {
      assert text + tail == tail;
    } else {
      var c := text[0];
      assert (text + tail)[0] == c && (text + tail)[1..] == text[1..] + tail;
      var next :=
        if s.inString then
          if s.escape then s.(escape := false)
          else if c == '\\' then s.(escape := true)
          else if c == '"' then s.(inString := false) else s
        else if c == '"' then s.(inString := true)
        else if c == '{' || c == '[' then s.(depth := s.depth + 1)
        else if c == '}' || c == ']' then s.(depth := s.depth - 1) else s;
      ItemsWalked(text[1..], tail, pos + 1, next);
    }
  }

  lemma {:induction false} ItemsPlain(text: string, tail: string, pos: nat)
    requires Plain(text)
    ensures ItemSpans(text + tail, pos, BETWEEN) == ItemSpans(tail, pos + |text|, BETWEEN)
  {
    if text == "" {
      assert text + tail == tail;
    } else {
      assert (text + tail)[0] == text[0] && (text + tail)[1..] == text[1..] + tail;
      ItemsPlain(text[1..], tail, pos + 1);
    }
  }

  lemma {:induction false} ItemsBody(body: string, tail: string, pos: nat, escape: bool)
    requires if escape then body != "" && Escaped(body[1..]) else Escaped(body)
    ensures ItemSpans(body + tail, pos, Scan(0, true, escape, 0))
      == ItemSpans(tail, pos + |body|, Scan(0, true, false, 0))
    decreases |body|
  {
    if body == "" {
      assert body + tail == tail;
    } else {
      assert (body + tail)[0] == body[0] && (body + tail)[1..] == body[1..] + tail;
      ItemsBody(body[1..], tail, pos + 1, !escape && body[0] == '\\');
    }
  }

  /** An object between items is one item; a scalar or a string is none. */
  lemma {:induction false} ItemsValue(v: Json, tail: string, pos: nat)
    requires WellFormed(v) && !v.Arr?
    ensures ItemSpans(PrintThen(v, tail), pos, BETWEEN)
         == (if v.Obj? then [(pos, pos + |Print(v)|)] else []) + ItemSpans(tail, pos + |Print(v)|, BETWEEN)
  {
    PrintAppend(v, tail);
    match v
    case Scalar(text) => ItemsPlain(text, tail, pos);
    case Str(body) =>
      var text := body + (['"'] + tail);
      assert PrintThen(v, tail)[1..] == text;
      ItemsBody(body, ['"'] + tail, pos + 1, false);
      assert (['"'] + tail)[1..] == tail;
    case Obj(_, _) =>
      var text := Inner(v) + (['}'] + tail);
      ContainerText(v, tail);
      WalkInner(v);
      assert PrintThen(v, tail)[1..] == text;
      ItemsWalked(Inner(v), ['}'] + tail, pos + 1, Scan(1, false, false, pos));
      assert (['}'] + tail)[1..] == tail;
      StartForgotten(tail, pos + |Print(v)|, Scan(0, false, false, pos));
  }

  lemma {:induction false} ArrayText(v: Json, tail: string)
    requires v.Arr?
    ensures PrintThen(v, tail) == ['['] + (v.gap + ElemsThen(v.elems, [']'] + tail))
  {}

  lemma {:induction false} ElementsText(es: Elems, tail: string)
    requires es.Elem?
    ensures ElemsThen(es, tail) == es.pre + PrintThen(es.value, es.post + MoreElemsThen(es.rest, tail))
    ensures es.rest.Elem? ==> MoreElemsThen(es.rest, tail) == [','] + ElemsThen(es.rest, tail)
  {
    hide PrintThen;
  }

  lemma {:induction false} FirstElementText(text: string, es: Elems, tail: string, pos: nat)
    requires es.Elem? && pos <= |text| && text[pos..] == ElemsThen(es, tail)
    ensures var a := pos + |es.pre|;
      var b := a + |Print(es.value)|;
      && b <= |text| && text[a..b] == Print(es.value)
      && (es.rest.Elem? ==> b + |es.post| + 1 <= |text| && text[b + |es.post| + 1..] == ElemsThen(es.rest, tail))
  {
    hide Print, PrintThen, ElemsThen, MoreElemsThen;
    ElementsText(es, tail);
    var more := MoreElemsThen(es.rest, tail);
    var a := pos + |es.pre|;
    var b := a + |Print(es.value)|;
    PrintAppend(es.value, es.post + more);
    SplitAt(text, pos, es.pre, PrintThen(es.value, es.post + more));
    SplitAt(text, a, Print(es.value), es.post + more);
    SplitAt(text, b, es.post, more);
    if es.rest.Elem? {
      SplitAt(text, b + |es.post|, [','], ElemsThen(es.rest, tail));
    }
  }

  // ---------- the objects of an array ----------

  /** An object and the index at which it is printed. */
  datatype Placed = Placed(at: nat, value: Json) {
    function End(): nat {
      at + |Print(value)|
    }
  }

  /** The elements that are objects, when the elements are printed from index `pos` on. */
  function Objects(es: Elems, pos: nat): seq<Placed> {
    match es
    case NoElems => []
    case Elem(pre, value, post, rest) =>
      var a := pos + |pre|;
      (if value.Obj? then [Placed(a, value)] else []) + Objects(rest, a + |Print(value)| + |post| + 1)
  }

  /** The objects the item scan meets: it goes on into the first array, and never comes back. */
  function Scanned(es: Elems, pos: nat): seq<Placed> {
    match es
    case NoElems => []
    case Elem(pre, value, post, rest) =>
      var a := pos + |pre|;
      if value.Arr? then Scanned(value.elems, a + 1 + |value.gap|)
      else (if value.Obj? then [Placed(a, value)] else []) + Scanned(rest, a + |Print(value)| + |post| + 1)
  }

  function Spans(ps: seq<Placed>): seq<(nat, nat)> {
    if ps == [] then [] else [(ps[0].at, ps[0].End())] + Spans(ps[1..])
  }

  /** The texts of the objects that end within the first `k` characters. */
  function Complete(ps: seq<Placed>, k: nat): seq<string> {
    if ps == [] then [] else (if ps[0].End() <= k then [Print(ps[0].value)] else []) + Complete(ps[1..], k)
  }

  lemma {:induction false} ConsPlaced(first: seq<Placed>, rest: seq<Placed>)
    requires |first| <= 1
    ensures Spans(first + rest) == (if first == [] then [] else [(first[0].at, first[0].End())]) + Spans(rest)
    ensures forall k ::
      Complete(first + rest, k)
        == (if first != [] && first[0].End() <= k then [Print(first[0].value)] else []) + Complete(rest, k)
  {
    if first == [] {
      assert first + rest == rest;
    } else {
      assert (first + rest)[0] == first[0] && (first + rest)[1..] == rest;
    }
  }

  lemma {:induction false} ItemsBracket(tail: string, pos: nat)
    ensures ItemSpans(['['] + tail, pos, BETWEEN) == ItemSpans(tail, pos + 1, BETWEEN)
  {
    assert (['['] + tail)[1..] == tail;
  }

  /** On a printed array the item scan returns the ranges of exactly the objects it meets. */
  lemma {:induction false} ItemsElems(es: Elems, tail: string, pos: nat)
    requires WellFormedElems(es)
    ensures ItemSpans(ElemsThen(es, [']'] + tail), pos, BETWEEN) == Spans(Scanned(es, pos))
  {
    hide Print, PrintThen, Spans, ElemsThen, MoreElemsThen, ItemSpans;
    if es.NoElems? {
      ItemsEnd(tail, pos);
    } else {
      ElementsText(es, [']'] + tail);
      var more := MoreElemsThen(es.rest, [']'] + tail);
      var a := pos + |es.pre|;
      var b := a + |Print(es.value)|;
      ItemsPlain(es.pre, PrintThen(es.value, es.post + more), pos);
      if es.value.Arr? {
        ArrayText(es.value, es.post + more);
        ItemsBracket(es.value.gap + ElemsThen(es.value.elems, [']'] + (es.post + more)), a);
        ItemsPlain(es.value.gap, ElemsThen(es.value.elems, [']'] + (es.post + more)), a + 1);
        ItemsElems(es.value.elems, es.post + more, a + 1 + |es.value.gap|);
      } else {
        ItemsValue(es.value, es.post + more, a);
        ItemsPlain(es.post, more, b);
        if es.rest.Elem? {
          ElementsText(es, [']'] + tail);
          ItemsPlain([','], ElemsThen(es.rest, [']'] + tail), b + |es.post|);
          ItemsElems(es.rest, tail, b + |es.post| + 1);
        } else {
          NoMoreElements(es, [']'] + tail);
          ItemsEnd(tail, b + |es.post|);
        }
        ConsPlaced(if es.value.Obj? then [Placed(a, es.value)] else [], Scanned(es.rest, b + |es.post| + 1));
      }
    }
  }

  lemma {:induction false} NoMoreElements(es: Elems, tail: string)
    requires es.Elem? && es.rest.NoElems?
    ensures MoreElemsThen(es.rest, tail) == tail
  {}

  lemma {:induction false} ItemsEnd(tail: string, pos: nat)
    ensures ElemsThen(NoElems, [']'] + tail) == [']'] + tail
    ensures ItemSpans([']'] + tail, pos, BETWEEN) == [] == Spans([])
  {}

  // ---------- their texts ----------

  /** Every object stands in the text, from index `pos` on. */
  predicate Stand(text: string, ps: seq<Placed>, pos: nat) {
    forall i :: 0 <= i < |ps| ==>
      && ps[i].value.Obj? && pos <= ps[i].at && ps[i].End() <= |text|
      && text[ps[i].at..ps[i].End()] == Print(ps[i].value)
  }

  lemma {:induction false} ScannedStand(text: string, es: Elems, tail: string, pos: nat)
    requires pos <= |text| && text[pos..] == ElemsThen(es, tail)
    ensures Stand(text, Scanned(es, pos), pos)
  {
    hide Print, PrintThen, ElemsThen;
    if es.Elem? {
      FirstElementText(text, es, tail, pos);
      var a := pos + |es.pre|;
      var b := a + |Print(es.value)|;
      if es.value.Arr? {
        ArrayElementText(text, es, tail, pos);
        ScannedStand(text, es.value.elems, [']'] + (es.post + MoreElemsThen(es.rest, tail)), a + 1 + |es.value.gap|);
      } else if es.rest.Elem? {
        ScannedStand(text, es.rest, tail, b + |es.post| + 1);
      }
    }
  }

  lemma {:induction false} ArrayElementText(text: string, es: Elems, tail: string, pos: nat)
    requires es.Elem? && es.value.Arr? && pos <= |text| && text[pos..] == ElemsThen(es, tail)
    ensures var p := pos + |es.pre| + 1 + |es.value.gap|;
      p <= |text| && text[p..] == ElemsThen(es.value.elems, [']'] + (es.post + MoreElemsThen(es.rest, tail)))
  {
    hide Print, PrintThen, ElemsThen, MoreElemsThen;
    ElementsText(es, tail);
    var more, a := es.post + MoreElemsThen(es.rest, tail), pos + |es.pre|;
    var inner := ElemsThen(es.value.elems, [']'] + more);
    ArrayText(es.value, more);
    SplitAt(text, pos, es.pre, PrintThen(es.value, more));
    SplitAt(text, a, ['['], es.value.gap + inner);
    SplitAt(text, a + 1, es.value.gap, inner);
  }

  lemma {:induction false} NoSpans(text: string, k: nat)
    ensures EndingBy([], k) == [] && Slices(text, []) == []
  {}

  /** Cutting the ranges of objects out of a text in which they stand gives their texts. */
  lemma {:induction false} SpansHoldPrints(text: string, ps: seq<Placed>, pos: nat, k: nat)
    requires Stand(text, ps, pos)
    ensures forall span :: span in EndingBy(Spans(ps), k) ==> span.0 <= span.1 <= |text|
    ensures Slices(text, EndingBy(Spans(ps), k)) == Complete(ps, k)
  {
    hide Print, EndingBy, Slices;
    NoSpans(text, k);
    if ps != [] {
      SpansHoldPrints(text, ps[1..], pos, k);
      OneSpanMore(text, (ps[0].at, ps[0].End()), Spans(ps[1..]), Complete(ps[1..], k), k);
    }
  }

  /** One more range in front of those already accounted for. */
  lemma {:induction false} OneSpanMore(text: string, first: (nat, nat), others: seq<(nat, nat)>, rest: seq<string>,
      k: nat)
    requires first.0 <= first.1 <= |text|
    requires forall span :: span in EndingBy(others, k) ==> span.0 <= span.1 <= |text|
    requires Slices(text, EndingBy(others, k)) == rest
    ensures var spans := [first] + others;
      && (forall span :: span in EndingBy(spans, k) ==> span.0 <= span.1 <= |text|)
      && Slices(text, EndingBy(spans, k)) == (if first.1 <= k then [text[first.0..first.1]] else []) + rest
  {
    assert ([first] + others)[1..] == others;
  }

  lemma {:induction false} NoneComplete(text: string, ps: seq<Placed>, pos: nat, k: nat)
    requires Stand(text, ps, pos) && k < pos
    ensures Complete(ps, k) == []
  {
    if ps != [] {
      NoneComplete(text, ps[1..], pos, k);
    }
  }

  // ---------- when the scan is exact ----------

  predicate NoObject(es: Elems) {
    es.NoElems? || (!es.value.Obj? && NoObject(es.rest))
  }

  /** The scan meets no object: none stands in front of the first array, nor does it meet one inside. */
  predicate MeetsNone(es: Elems) {
    es.NoElems? || (if es.value.Arr? then MeetsNone(es.value.elems) else !es.value.Obj? && MeetsNone(es.rest))
  }

  /** No object is met inside the first element that is an array, and none stands behind it. */
  predicate ScansExactly(es: Elems) {
    es.NoElems? || (if es.value.Arr? then MeetsNone(es.value.elems) && NoObject(es.rest) else ScansExactly(es.rest))
  }

  lemma {:induction false} NoObjectIff(es: Elems, pos: nat)
    ensures NoObject(es) <==> Objects(es, pos) == []
  {
    if es.Elem? {
      NoObjectIff(es.rest, pos + |es.pre| + |Print(es.value)| + |es.post| + 1);
    }
  }

  lemma {:induction false} MeetsNoneIff(es: Elems, pos: nat)
    ensures MeetsNone(es) <==> Scanned(es, pos) == []
  {
    if es.Elem? {
      if es.value.Arr? {
        MeetsNoneIff(es.value.elems, pos + |es.pre| + 1 + |es.value.gap|);
      } else {
        MeetsNoneIff(es.rest, pos + |es.pre| + |Print(es.value)| + |es.post| + 1);
      }
    }
  }

  /** An array of objects is scanned exactly, and so is any array without an array in it. */
  lemma {:induction false} FlatScansExactly(es: Elems)
    requires NoArray(es)
    ensures ScansExactly(es)
  {
    if es.Elem? {
      FlatScansExactly(es.rest);
    }
  }

  predicate NoArray(es: Elems) {
    es.NoElems? || (!es.value.Arr? && NoArray(es.rest))
  }

  lemma {:induction false} ExactScan(es: Elems, pos: nat)
    requires ScansExactly(es)
    ensures Scanned(es, pos) == Objects(es, pos)
  {
    if es.Elem? {
      var next := pos + |es.pre| + |Print(es.value)| + |es.post| + 1;
      if es.value.Arr? {
        MeetsNoneIff(es.value.elems, pos + |es.pre| + 1 + |es.value.gap|);
        NoObjectIff(es.rest, next);
      } else {
        ExactScan(es.rest, next);
      }
    }
  }

  lemma {:induction false} ScannedWithin(es: Elems, pos: nat)
    ensures forall i :: 0 <= i < |Scanned(es, pos)| ==>
      pos <= Scanned(es, pos)[i].at && Scanned(es, pos)[i].End() <= pos + |ElemsThen(es, "")|
  {
    var text := seq(pos, _ => ' ') + ElemsThen(es, "");
    assert text[pos..] == ElemsThen(es, "");
    ScannedStand(text, es, "", pos);
  }

  lemma {:induction false} ObjectsWithin(es: Elems, pos: nat)
    ensures forall i :: 0 <= i < |Objects(es, pos)| ==>
      pos <= Objects(es, pos)[i].at && Objects(es, pos)[i].End() <= pos + |ElemsThen(es, "")|
  {
    hide Print, PrintThen;
    if es.Elem? {
      ElementsText(es, "");
      PrintAppend(es.value, es.post + MoreElemsThen(es.rest, ""));
      if es.rest.Elem? {
        ObjectsWithin(es.rest, pos + |es.pre| + |Print(es.value)| + |es.post| + 1);
      }
    }
  }

  lemma {:induction false} FirstComplete(ps: seq<Placed>)
    requires ps != []
    ensures Complete(ps, ps[0].End()) != []
  {}

  lemma {:induction false} CompleteBehind(ps: seq<Placed>, k: nat)
    requires forall i :: 0 <= i < |ps| ==> k < ps[i].at
    ensures Complete(ps, k) == []
  {
    if ps != [] {
      CompleteBehind(ps[1..], k);
    }
  }

  /** Where the scan is not exact, some cut tells: the scan has then found more, or fewer, than are complete. */
  lemma {:induction false} Diverges(es: Elems, pos: nat) returns (k: nat)
    requires !ScansExactly(es)
    ensures pos <= k <= pos + |ElemsThen(es, "")|
    ensures |Complete(Scanned(es, pos), k)| != |Complete(Objects(es, pos), k)|
  {
    hide Print, PrintThen, Complete, ElemsThen, MoreElemsThen;
    ElementsText(es, "");
    PrintAppend(es.value, es.post + MoreElemsThen(es.rest, ""));
    var a := pos + |es.pre|;
    var next := a + |Print(es.value)| + |es.post| + 1;
    RestText(es);
    if !es.value.Arr? {
      k := Diverges(es.rest, next);
      var first := if es.value.Obj? then [Placed(a, es.value)] else [];
      ConsPlaced(first, Scanned(es.rest, next));
      ConsPlaced(first, Objects(es.rest, next));
    } else {
      var inside := Scanned(es.value.elems, a + 1 + |es.value.gap|);
      var behind := Objects(es.rest, next);
      assert [] + behind == behind && Objects(es, pos) == behind;
      MeetsNoneIff(es.value.elems, a + 1 + |es.value.gap|);
      NoObjectIff(es.rest, next);
      ScannedWithin(es.value.elems, a + 1 + |es.value.gap|);
      ObjectsWithin(es.rest, next);
      ArraySize(es.value);
      if inside != [] {
        k := inside[0].End();
        FirstComplete(inside);
        CompleteBehind(behind, k);
      } else {
        k := behind[0].End();
        FirstComplete(behind);
        CompleteBehind(inside, k);
      }
    }
  }

  lemma {:induction false} RestText(es: Elems)
    requires es.Elem?
    ensures es.rest.Elem? ==> |MoreElemsThen(es.rest, "")| == 1 + |ElemsThen(es.rest, "")|
  {}

  lemma {:induction false} ArraySize(v: Json)
    requires v.Arr?
    ensures |Print(v)| == 1 + |v.gap| + |ElemsThen(v.elems, "")| + 1
  {
    hide ElemsThen;
    ArrayText(v, "");
    ElemsAppend(v.elems, [']'] + "");
  }
}
