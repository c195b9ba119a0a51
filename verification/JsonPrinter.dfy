/**
 JSON texts as sections 4, 5 and 7 of RFC 8259 allow them: any insignificant space, any choice of
 escapes. `Then` printers take the text that follows, so that a scanner can be followed through them.
 */
module JsonPrinter {
  import opened Wrappers
  import opened Seqs
  import opened OutputParser

  /** `body` is the text between a string's quotes; `gap` the space behind an opening bracket. */
  datatype Json =
    | Scalar(text: string)
    | Str(body: string)
    | Arr(gap: string, elems: Elems)
    | Obj(gap: string, members: Members)

  datatype Elems =
    | NoElems
    | Elem(pre: string, value: Json, post: string, rest: Elems)

  datatype Members =
    | NoMembers
    | Member(pre: string, key: string, beforeColon: string, afterColon: string,
             value: Json, post: string, rest: Members)

  // ---------- well-formedness ----------

  predicate Blank(ws: string) {
    forall i :: 0 <= i < |ws| ==> ws[i] == ' ' || ws[i] == '\t' || ws[i] == '\n' || ws[i] == '\r'
  }

  /** Quotes and backslashes are escaped: what section 7 allows, and more. */
  predicate Escaped(body: string) {
    || body == ""
    || (body[0] == '\\' && |body| >= 2 && Escaped(body[2..]))
    || (body[0] != '\\' && body[0] != '"' && Escaped(body[1..]))
  }

  predicate Plain(text: string) {
    forall i :: 0 <= i < |text| ==>
      text[i] != '"' && text[i] != '{' && text[i] != '}' && text[i] != '[' && text[i] != ']'
  }

  predicate WellFormed(v: Json) {
    match v
    case Scalar(text) => text != "" && Plain(text) && text[0] != ':' && !IsSpace(text[0])
    case Str(body) => Escaped(body)
    case Arr(gap, elems) => Blank(gap) && WellFormedElems(elems)
    case Obj(gap, members) => Blank(gap) && WellFormedMembers(members)
  }

  predicate WellFormedElems(es: Elems) {
    match es
    case NoElems => true
    case Elem(pre, value, post, rest) =>
      Blank(pre) && WellFormed(value) && Blank(post) && WellFormedElems(rest)
  }

  predicate WellFormedMembers(ms: Members) {
    match ms
    case NoMembers => true
    case Member(pre, key, beforeColon, afterColon, value, post, rest) =>
      && Blank(pre) && Escaped(key) && Blank(beforeColon) && Blank(afterColon)
      && WellFormed(value) && Blank(post) && WellFormedMembers(rest)
  }

  // ---------- printing ----------

  function Print(v: Json): string {
    PrintThen(v, "")
  }

  function PrintThen(v: Json, tail: string): string
    decreases v, 0
  {
    match v
    case Scalar(text) => text + tail
    case Str(body) => ['"'] + (body + (['"'] + tail))
    case Arr(gap, elems) => ['['] + (gap + ElemsThen(elems, [']'] + tail))
    case Obj(gap, members) => ['{'] + (gap + MembersThen(members, ['}'] + tail))
  }

  function ElemsThen(es: Elems, tail: string): string
    decreases es, 0
  {
    match es
    case NoElems => tail
    case Elem(pre, value, post, rest) => pre + PrintThen(value, post + MoreElemsThen(rest, tail))
  }

  function MoreElemsThen(es: Elems, tail: string): string
    decreases es, 1
  {
    if es.NoElems? then tail else [','] + ElemsThen(es, tail)
  }

  function MembersThen(ms: Members, tail: string): string
    decreases ms, 0
  {
    match ms
    case NoMembers => tail
    case Member(pre, key, beforeColon, afterColon, value, post, rest) =>
      pre + KeyThen(key, beforeColon, afterColon, PrintThen(value, post + MoreMembersThen(rest, tail)))
  }

  /** A quoted key, its colon, and the text that follows. */
  function KeyThen(key: string, beforeColon: string, afterColon: string, tail: string): string {
    ['"'] + (key + (['"'] + (beforeColon + ([':'] + (afterColon + tail)))))
  }

  function MoreMembersThen(ms: Members, tail: string): string
    decreases ms, 1
  {
    if ms.NoMembers? then tail else [','] + MembersThen(ms, tail)
  }

  lemma {:induction false} PrintAppend(v: Json, tail: string)
    ensures PrintThen(v, tail) == Print(v) + tail
    decreases v, 0
  {
    match v
    case Scalar(text) =>
    case Str(body) =>
    case Arr(gap, elems) =>
      ElemsAppend(elems, [']'] + tail);
      ElemsAppend(elems, [']']);
      assert [']'] + "" == [']'];
      assert gap + (ElemsThen(elems, "") + ([']'] + tail)) == (gap + (ElemsThen(elems, "") + [']'])) + tail;
    case Obj(gap, members) =>
      MembersAppend(members, ['}'] + tail);
      MembersAppend(members, ['}']);
      assert ['}'] + "" == ['}'];
      assert gap + (MembersThen(members, "") + (['}'] + tail)) == (gap + (MembersThen(members, "") + ['}'])) + tail;
  }

  lemma {:induction false} ElemsAppend(es: Elems, tail: string)
    ensures ElemsThen(es, tail) == ElemsThen(es, "") + tail
    decreases es, 0
  {
    match es
    case NoElems =>
    case Elem(pre, value, post, rest) =>
      ElemsAppend(rest, tail);
      PrintAppend(value, post + MoreElemsThen(rest, tail));
      PrintAppend(value, post + MoreElemsThen(rest, ""));
  }

  lemma {:induction false} KeyAppend(key: string, beforeColon: string, afterColon: string, a: string, b: string)
    ensures KeyThen(key, beforeColon, afterColon, a + b) == KeyThen(key, beforeColon, afterColon, a) + b
  {
    Assoc(afterColon, a, b);
    Assoc([':'], afterColon + a, b);
    Assoc(beforeColon, [':'] + (afterColon + a), b);
    Assoc(['"'], beforeColon + ([':'] + (afterColon + a)), b);
    Assoc(key, ['"'] + (beforeColon + ([':'] + (afterColon + a))), b);
    Assoc(['"'], key + (['"'] + (beforeColon + ([':'] + (afterColon + a)))), b);
  }

  lemma {:induction false} MembersText(ms: Members, tail: string)
    ensures ms.NoMembers? ==> MembersThen(ms, tail) == MoreMembersThen(ms, tail) == tail
    ensures ms.Member? ==>
      && MembersThen(ms, tail) == ms.pre + KeyThen(ms.key, ms.beforeColon, ms.afterColon,
           PrintThen(ms.value, ms.post + MoreMembersThen(ms.rest, tail)))
      && MoreMembersThen(ms, tail) == [','] + MembersThen(ms, tail)
  {
    hide PrintThen, KeyThen;
  }

  lemma {:induction false} MembersAppend(ms: Members, tail: string)
    ensures MembersThen(ms, tail) == MembersThen(ms, "") + tail
    decreases ms, 0
  {
    hide PrintThen, Print, KeyThen, MembersThen, MoreMembersThen;
    MembersText(ms, tail);
    MembersText(ms, "");
    if ms.Member? {
      MembersAppend(ms.rest, tail);
      MembersText(ms.rest, tail);
      MembersText(ms.rest, "");
      var more := MoreMembersThen(ms.rest, "");
      assert MoreMembersThen(ms.rest, tail) == more + tail;
      assert ms.post + (more + tail) == (ms.post + more) + tail;
      PrintAppend(ms.value, ms.post + more + tail);
      PrintAppend(ms.value, ms.post + more);
      var printed := PrintThen(ms.value, ms.post + more);
      Assoc(Print(ms.value), ms.post + more, tail);
      KeyAppend(ms.key, ms.beforeColon, ms.afterColon, printed, tail);
      Assoc(ms.pre, KeyThen(ms.key, ms.beforeColon, ms.afterColon, printed), tail);
    }
  }

  // ---------- depth ----------

  datatype Depth = Depth(level: nat, inString: bool, escape: bool)

  /** The depth behind `text`; nothing when the bracket open at level 1 is closed on the way. */
  function Walk(text: string, d: Depth): (r: Option<Depth>) {
    if text == "" then Some(d) else
    var c, tail := text[0], text[1..];
    if d.inString then
      Walk(tail, if d.escape then d.(escape := false)
                 else if c == '\\' then d.(escape := true)
                 else if c == '"' then d.(inString := false) else d)
    else if c == '"' then Walk(tail, d.(inString := true))
    else if c == '{' || c == '[' then Walk(tail, d.(level := d.level + 1))
    else if c == '}' || c == ']' then if d.level <= 1 then None else Walk(tail, d.(level := d.level - 1))
    else Walk(tail, d)
  }

  lemma {:induction false} WalkPlain(text: string, tail: string, d: Depth)
    requires Plain(text) && !d.inString
    ensures Walk(text + tail, d) == Walk(tail, d)
  {
    if text == "" {
      assert text + tail == tail;
    } else {
      assert (text + tail)[0] == text[0] && (text + tail)[1..] == text[1..] + tail;
      WalkPlain(text[1..], tail, d);
    }
  }

  lemma {:induction false} WalkBody(body: string, tail: string, level: nat)
    requires Escaped(body)
    ensures Walk(body + tail, Depth(level, true, false)) == Walk(tail, Depth(level, true, false))
    decreases |body|
  {
    if body == "" {
      assert body + tail == tail;
    } else {
      assert (body + tail)[0] == body[0] && (body + tail)[1..] == body[1..] + tail;
      if body[0] == '\\' {
        assert (body[1..] + tail)[0] == body[1] && (body[1..] + tail)[1..] == body[2..] + tail;
        WalkBody(body[2..], tail, level);
      } else {
        WalkBody(body[1..], tail, level);
      }
    }
  }

  lemma {:induction false} WalkChar(c: char, tail: string, d: Depth)
    requires !d.inString
    ensures Walk([c] + tail, d) ==
      if c == '"' then Walk(tail, d.(inString := true))
      else if c == '{' || c == '[' then Walk(tail, d.(level := d.level + 1))
      else if c == '}' || c == ']' then if d.level <= 1 then None else Walk(tail, d.(level := d.level - 1))
      else Walk(tail, d)
  {
    assert ([c] + tail)[1..] == tail;
  }

  lemma {:induction false} WalkLiteral(body: string, tail: string, level: nat)
    requires Escaped(body)
    ensures Walk(['"'] + (body + (['"'] + tail)), Depth(level, false, false)) == Walk(tail, Depth(level, false, false))
  {
    WalkChar('"', body + (['"'] + tail), Depth(level, false, false));
    WalkBody(body, ['"'] + tail, level);
    assert (['"'] + tail)[1..] == tail;
  }

  /** A printed value leaves the depth as it was and never closes an outer bracket. */
  lemma {:induction false} WalkValue(v: Json, tail: string, level: nat)
    requires WellFormed(v) && level >= 1
    ensures Walk(PrintThen(v, tail), Depth(level, false, false)) == Walk(tail, Depth(level, false, false))
    decreases v, 0
  {
    var d, inner := Depth(level, false, false), Depth(level + 1, false, false);
    match v
    case Scalar(text) => WalkPlain(text, tail, d);
    case Str(body) => WalkLiteral(body, tail, level);
    case Arr(gap, elems) =>
      WalkChar('[', gap + ElemsThen(elems, [']'] + tail), d);
      WalkPlain(gap, ElemsThen(elems, [']'] + tail), inner);
      WalkElems(elems, [']'] + tail, level + 1);
      WalkChar(']', tail, inner);
    case Obj(gap, members) =>
      WalkChar('{', gap + MembersThen(members, ['}'] + tail), d);
      WalkPlain(gap, MembersThen(members, ['}'] + tail), inner);
      WalkMembers(members, ['}'] + tail, level + 1);
      WalkChar('}', tail, inner);
  }

  lemma {:induction false} WalkElems(es: Elems, tail: string, level: nat)
    requires WellFormedElems(es) && level >= 1
    ensures Walk(ElemsThen(es, tail), Depth(level, false, false)) == Walk(tail, Depth(level, false, false))
    decreases es, 0
  {
    var d := Depth(level, false, false);
    match es
    case NoElems =>
    case Elem(pre, value, post, rest) =>
      var more := MoreElemsThen(rest, tail);
      WalkPlain(pre, PrintThen(value, post + more), d);
      WalkValue(value, post + more, level);
      WalkPlain(post, more, d);
      if rest.Elem? {
        WalkChar(',', ElemsThen(rest, tail), d);
      }
      WalkElems(rest, tail, level);
  }

  lemma {:induction false} WalkMembers(ms: Members, tail: string, level: nat)
    requires WellFormedMembers(ms) && level >= 1
    ensures Walk(MembersThen(ms, tail), Depth(level, false, false)) == Walk(tail, Depth(level, false, false))
    decreases ms, 0
  {
    var d := Depth(level, false, false);
    match ms
    case NoMembers =>
    case Member(pre, key, beforeColon, afterColon, value, post, rest) =>
      var more := MoreMembersThen(rest, tail);
      var printed := PrintThen(value, post + more);
      var colon := beforeColon + ([':'] + (afterColon + printed));
      WalkPlain(pre, ['"'] + (key + (['"'] + colon)), d);
      WalkLiteral(key, colon, level);
      WalkPlain(beforeColon, [':'] + (afterColon + printed), d);
      WalkChar(':', afterColon + printed, d);
      WalkPlain(afterColon, printed, d);
      WalkValue(value, post + more, level);
      WalkPlain(post, more, d);
      if rest.Member? {
        WalkChar(',', MembersThen(rest, tail), d);
      }
      WalkMembers(rest, tail, level);
  }
}
