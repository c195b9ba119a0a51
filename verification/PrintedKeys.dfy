/**
 The key scan on printed text: it follows the printer through literals, values and members, and finds
 the first top-level member with the name.
 */
module PrintedKeys {
  import opened Wrappers
  import opened Seqs
  import opened OutputParser
  import opened JsonPrinter

  function RunLex(text: string, lex: Lex): Lex {
    if text == "" then lex else RunLex(text[1..], Step(lex, text[0]))
  }

  /** One step of the key scan where no key can start. */
  lemma {:induction false} FindStep(c: char, tail: string, key: string, opener: char, lex: Lex)
    requires c != '"' || lex.inString || lex.stack != ['{']
    ensures FindOpener([c] + tail, key, opener, lex) == Shift(1, FindOpener(tail, key, opener, Step(lex, c)))
  {
    hide MatchKey;
    assert ([c] + tail)[1..] == tail;
  }

  /** The scan's brackets, counted from inside the top-level object. */
  function DepthOf(lex: Lex): Depth
    requires lex.stack != []
  {
    Depth(|lex.stack| - 1, lex.inString, lex.escape)
  }

  lemma {:induction false} WalkStep(text: string, lex: Lex)
    requires text != "" && |lex.stack| >= 2 && Walk(text, DepthOf(lex)).Some?
    ensures var next := Step(lex, text[0]);
      && |next.stack| >= 2 && next.stack[0] == lex.stack[0]
      && Walk(text[1..], DepthOf(next)) == Walk(text, DepthOf(lex))
  {}

  lemma {:induction false} WalkEnds(lex: Lex)
    requires |lex.stack| >= 2
    ensures Walk("", DepthOf(lex)) == Some(DepthOf(lex))
  {}

  /** Below the top level no key is looked for, so a walked segment is passed over. */
  lemma {:induction false} FindWalked(text: string, tail: string, key: string, opener: char, lex: Lex)
    requires |lex.stack| >= 2 && Walk(text, DepthOf(lex)).Some?
    ensures FindOpener(text + tail, key, opener, lex)
         == Shift(|text|, FindOpener(tail, key, opener, RunLex(text, lex)))
    ensures var end := RunLex(text, lex);
      && end.stack != [] && end.stack[0] == lex.stack[0]
      && Walk(text, DepthOf(lex)).value == DepthOf(end)
    decreases |text|
  {
    hide FindOpener, Walk, Step;
    if text == "" {
      assert text + tail == tail;
      WalkEnds(lex);
    } else {
      Uncons(text, tail);
      WalkStep(text, lex);
      FindStep(text[0], text[1..] + tail, key, opener, lex);
      FindWalked(text[1..], tail, key, opener, Step(lex, text[0]));
    }
  }

  lemma {:induction false} FindPlain(text: string, tail: string, key: string, opener: char, lex: Lex)
    requires Plain(text) && !lex.inString
    ensures FindOpener(text + tail, key, opener, lex) == Shift(|text|, FindOpener(tail, key, opener, lex))
  {
    hide FindOpener;
    if text == "" {
      assert text + tail == tail;
    } else {
      Uncons(text, tail);
      FindStep(text[0], text[1..] + tail, key, opener, lex);
      FindPlain(text[1..], tail, key, opener, lex);
    }
  }

  lemma {:induction false} FindBody(body: string, tail: string, key: string, opener: char, lex: Lex)
    requires lex.inString && if lex.escape then body != "" && Escaped(body[1..]) else Escaped(body)
    ensures FindOpener(body + tail, key, opener, lex)
         == Shift(|body|, FindOpener(tail, key, opener, lex.(escape := false)))
  {
    hide FindOpener;
    if body == "" {
      assert body + tail == tail;
    } else {
      Uncons(body, tail);
      FindStep(body[0], body[1..] + tail, key, opener, lex);
      FindBody(body[1..], tail, key, opener, Step(lex, body[0]));
    }
  }

  /** A literal at the top level that is no matching key is passed over. */
  lemma {:induction false} FindLiteral(body: string, tail: string, key: string, opener: char)
    requires Escaped(body)
    requires MatchKey(['"'] + (body + (['"'] + tail)), key, opener).None?
    ensures FindOpener(['"'] + (body + (['"'] + tail)), key, opener, TOP_OBJECT)
         == Shift(|body| + 2, FindOpener(tail, key, opener, TOP_OBJECT))
  {
    hide FindOpener, MatchKey, Escaped;
    FindNoMatch(body + (['"'] + tail), key, opener);
    FindBody(body, ['"'] + tail, key, opener, TOP_OBJECT.(inString := true));
    FindStep('"', tail, key, opener, TOP_OBJECT.(inString := true));
  }

  lemma {:induction false} FindNoMatch(text: string, key: string, opener: char)
    requires MatchKey(['"'] + text, key, opener).None?
    ensures FindOpener(['"'] + text, key, opener, TOP_OBJECT)
         == Shift(1, FindOpener(text, key, opener, TOP_OBJECT.(inString := true)))
  {
    hide MatchKey;
    assert (['"'] + text)[1..] == text;
  }

  /** A printed literal starts with a quoted name exactly when its body is that name. */
  lemma {:induction false} LiteralIsKey(body: string, name: string, tail: string)
    requires Escaped(body)
    requires forall i :: 0 <= i < |name| ==> name[i] != '"' && name[i] != '\\'
    ensures name + ['"'] <= body + (['"'] + tail) <==> body == name
  {
    var text := body + (['"'] + tail);
    if body == "" || name == "" {
      if body != "" {
        assert text[0] == body[0];
      } else if name != "" {
        assert (name + ['"'])[0] == name[0];
      }
    } else {
      assert text[0] == body[0] && text[1..] == body[1..] + (['"'] + tail);
      assert (name + ['"'])[0] == name[0] && (name + ['"'])[1..] == name[1..] + ['"'];
      if body[0] == name[0] {
        LiteralIsKey(body[1..], name[1..], tail);
        assert name + ['"'] <= text <==> name[1..] + ['"'] <= text[1..];
        assert body == [body[0]] + body[1..] && name == [name[0]] + name[1..];
      }
    }
  }

  lemma {:induction false} SpacesOver(ws: string, tail: string)
    requires Blank(ws) && (tail == "" || !IsSpace(tail[0]))
    ensures Spaces(ws + tail) == |ws|
  {
    if ws == "" {
      assert ws + tail == tail;
    } else {
      assert (ws + tail)[0] == ws[0] && (ws + tail)[1..] == ws[1..] + tail;
      SpacesOver(ws[1..], tail);
    }
  }

  /** The lookahead at a printed literal, with whatever non-blank text stands behind the blanks. */
  lemma {:induction false} MatchLiteral(body: string, ws: string, rest: string, name: string, opener: char)
    requires Escaped(body) && Blank(ws) && rest != "" && !IsSpace(rest[0])
    requires forall i :: 0 <= i < |name| ==> name[i] != '"' && name[i] != '\\'
    ensures var text := ['"'] + (body + (['"'] + (ws + rest)));
      if body != name || rest[0] != ':' then MatchKey(text, Quoted(name), opener).None?
      else
        var at := |name| + 2 + |ws| + 1;
        var value := SkipFrom(text, at);
        MatchKey(text, Quoted(name), opener) == if value < |text| && text[value] == opener then Some(value) else None
  {
    hide IsSpace, Spaces, Escaped, Blank;
    var text := ['"'] + (body + (['"'] + (ws + rest)));
    LiteralIsKey(body, name, ws + rest);
    assert Quoted(name) == ['"'] + (name + ['"']);
    assert text[1..] == body + (['"'] + (ws + rest));
    assert Quoted(name)[1..] == name + ['"'];
    assert Quoted(name) <= text <==> Quoted(name)[1..] <= text[1..];
    if body == name {
      assert text[|name| + 2..] == ws + rest;
      SpacesOver(ws, rest);
      assert text[|name| + 2 + |ws|] == rest[0];
    }
  }

  // ---------- top-level members ----------

  /** The character a printed value starts with. */
  function Opening(v: Json): char
    requires WellFormed(v)
  {
    match v
    case Scalar(text) => text[0]
    case Str(_) => '"'
    case Arr(_, _) => '['
    case Obj(_, _) => '{'
  }

  lemma {:induction false} PrintOpening(v: Json, tail: string)
    requires WellFormed(v)
    ensures PrintThen(v, tail) != "" && PrintThen(v, tail)[0] == Opening(v)
    ensures !IsSpace(Opening(v)) && Opening(v) != ':'
  {}

  lemma {:induction false} OpeningTells(v: Json)
    requires WellFormed(v)
    ensures Opening(v) == '[' <==> v.Arr?
    ensures Opening(v) == '"' <==> v.Str?
  {}

  /** A value at the top level is passed over when no colon follows it. */
  lemma {:induction false} FindValue(v: Json, ws: string, rest: string, name: string, opener: char)
    requires WellFormed(v) && Blank(ws) && rest != "" && !IsSpace(rest[0]) && rest[0] != ':'
    requires forall i :: 0 <= i < |name| ==> name[i] != '"' && name[i] != '\\'
    ensures FindOpener(PrintThen(v, ws + rest), Quoted(name), opener, TOP_OBJECT)
         == Shift(|Print(v)|, FindOpener(ws + rest, Quoted(name), opener, TOP_OBJECT))
  {
    hide FindOpener, MatchKey, Walk;
    var tail := ws + rest;
    match v
    case Scalar(text) => FindPlain(text, tail, Quoted(name), opener, TOP_OBJECT);
    case Str(body) =>
      MatchLiteral(body, ws, rest, name, opener);
      FindLiteral(body, tail, Quoted(name), opener);
    case Arr(_, _) => FindContainer(v, tail, Quoted(name), opener);
    case Obj(_, _) => FindContainer(v, tail, Quoted(name), opener);
  }

  /** What stands between the brackets of a printed container. */
  function Inner(v: Json): string
    requires v.Arr? || v.Obj?
  {
    v.gap + if v.Arr? then ElemsThen(v.elems, "") else MembersThen(v.members, "")
  }

  lemma {:induction false} ContainerText(v: Json, tail: string)
    requires v.Arr? || v.Obj?
    ensures PrintThen(v, tail) ==
      [if v.Arr? then '[' else '{'] + (Inner(v) + ([if v.Arr? then ']' else '}'] + tail))
  {
    if v.Arr? {
      ElemsAppend(v.elems, [']'] + tail);
    } else {
      MembersAppend(v.members, ['}'] + tail);
    }
  }

  lemma {:induction false} WalkInner(v: Json)
    requires WellFormed(v) && (v.Arr? || v.Obj?)
    ensures Walk(Inner(v), Depth(1, false, false)) == Some(Depth(1, false, false))
  {
    if v.Arr? {
      WalkPlain(v.gap, ElemsThen(v.elems, ""), Depth(1, false, false));
      WalkElems(v.elems, "", 1);
    } else {
      WalkPlain(v.gap, MembersThen(v.members, ""), Depth(1, false, false));
      WalkMembers(v.members, "", 1);
    }
  }

  lemma {:induction false} FindContainer(v: Json, tail: string, key: string, opener: char)
    requires WellFormed(v) && (v.Arr? || v.Obj?)
    ensures FindOpener(PrintThen(v, tail), key, opener, TOP_OBJECT)
         == Shift(|Print(v)|, FindOpener(tail, key, opener, TOP_OBJECT))
  {
    hide FindOpener, Walk, PrintThen, Inner;
    PrintAppend(v, tail);
    ContainerText(v, tail);
    WalkInner(v);
    FindBracketed(if v.Arr? then '[' else '{', Inner(v), if v.Arr? then ']' else '}', tail, key, opener);
  }

  lemma {:induction false} FindBracketed(open: char, inner: string, close: char, tail: string, key: string,
      opener: char)
    requires (open == '[' || open == '{') && (close == ']' || close == '}')
    requires Walk(inner, Depth(1, false, false)) == Some(Depth(1, false, false))
    ensures FindOpener([open] + (inner + ([close] + tail)), key, opener, TOP_OBJECT)
         == Shift(|inner| + 2, FindOpener(tail, key, opener, TOP_OBJECT))
  {
    hide FindOpener, Walk;
    var inside := TOP_OBJECT.(stack := ['{'] + [open]);
    FindStep(open, inner + ([close] + tail), key, opener, TOP_OBJECT);
    FindWalked(inner, [close] + tail, key, opener, inside);
    var end := RunLex(inner, inside);
    FindStep(close, tail, key, opener, end);
    assert Step(end, close) == TOP_OBJECT;
  }

  /** Where the value of a member starts, counted from the member's own start. */
  function ValueOffset(ms: Members): nat
    requires ms.Member?
  {
    |ms.pre| + 1 + |ms.key| + 1 + |ms.beforeColon| + 1 + |ms.afterColon|
  }

  /** The first member printed under `name` whose value starts with `opener`, and its offset. */
  function FirstValue(ms: Members, name: string, opener: char): Option<(nat, Json)>
    requires WellFormedMembers(ms)
  {
    if ms.NoMembers? then None
    else if ms.key == name && Opening(ms.value) == opener then Some((ValueOffset(ms), ms.value))
    else match FirstValue(ms.rest, name, opener)
      case None => None
      case Some(found) => Some((ValueOffset(ms) + |Print(ms.value)| + |ms.post| + 1 + found.0, found.1))
  }

  function OffsetOf(found: Option<(nat, Json)>): Option<nat> {
    match found case None => None case Some(f) => Some(f.0)
  }

  /** The text of a member from its key on. */
  function FromKey(m: Members, more: string): string
    requires m.Member?
  {
    KeyThen(m.key, m.beforeColon, m.afterColon, PrintThen(m.value, m.post + more))
  }

  lemma {:induction false} MatchMember(m: Members, more: string, name: string, opener: char)
    requires m.Member? && WellFormedMembers(m)
    requires forall i :: 0 <= i < |name| ==> name[i] != '"' && name[i] != '\\'
    ensures MatchKey(FromKey(m, more), Quoted(name), opener)
         == if m.key == name && Opening(m.value) == opener then Some(ValueOffset(m) - |m.pre|) else None
  {
    hide MatchKey, PrintThen, Escaped, Blank, Spaces, Opening;
    var printed := PrintThen(m.value, m.post + more);
    var colon := [':'] + (m.afterColon + printed);
    MatchLiteral(m.key, m.beforeColon, colon, name, opener);
    if m.key == name {
      PrintOpening(m.value, m.post + more);
      SpacesOver(m.afterColon, printed);
      var text, at := FromKey(m, more), |name| + 2 + |m.beforeColon| + 1;
      assert text == (['"'] + m.key + ['"'] + m.beforeColon + [':']) + (m.afterColon + printed);
      assert text[at..] == m.afterColon + printed;
    }
  }

  lemma {:induction false} SkipMember(m: Members, more: string, name: string, opener: char)
    requires m.Member? && WellFormedMembers(m)
    requires more != "" && !IsSpace(more[0]) && more[0] != ':'
    requires forall i :: 0 <= i < |name| ==> name[i] != '"' && name[i] != '\\'
    requires m.key != name || Opening(m.value) != opener
    ensures FindOpener(FromKey(m, more), Quoted(name), opener, TOP_OBJECT)
         == Shift(ValueOffset(m) - |m.pre| + |Print(m.value)| + |m.post|,
                  FindOpener(more, Quoted(name), opener, TOP_OBJECT))
  {
    hide FindOpener, MatchKey;
    var printed := PrintThen(m.value, m.post + more);
    var colon := m.beforeColon + ([':'] + m.afterColon);
    MatchMember(m, more, name, opener);
    assert colon + printed == m.beforeColon + ([':'] + (m.afterColon + printed));
    FindLiteral(m.key, colon + printed, Quoted(name), opener);
    FindPlain(colon, printed, Quoted(name), opener, TOP_OBJECT);
    FindValue(m.value, m.post, more, name, opener);
    FindPlain(m.post, more, Quoted(name), opener, TOP_OBJECT);
  }

  lemma {:induction false} FindNothing(key: string, opener: char)
    ensures FindOpener(['}'], key, opener, TOP_OBJECT) == None
  {
    assert ['}'][1..] == "";
  }

  lemma {:induction false} FindHere(text: string, key: string, opener: char)
    requires text != "" && text[0] == '"' && MatchKey(text, key, opener).Some?
    ensures FindOpener(text, key, opener, TOP_OBJECT) == MatchKey(text, key, opener)
  {}

  /** On a whole printed object the key scan finds the first value printed under the name. */
  lemma {:induction false} FindMembers(ms: Members, name: string, opener: char)
    requires WellFormedMembers(ms)
    requires forall i :: 0 <= i < |name| ==> name[i] != '"' && name[i] != '\\'
    ensures FindOpener(MembersThen(ms, ['}']), Quoted(name), opener, TOP_OBJECT)
         == OffsetOf(FirstValue(ms, name, opener))
  {
    hide FindOpener, MatchKey, PrintThen, Print, Opening, KeyThen;
    if ms.NoMembers? {
      FindNothing(Quoted(name), opener);
    } else {
      var more := MoreMembersThen(ms.rest, ['}']);
      FindPlain(ms.pre, FromKey(ms, more), Quoted(name), opener, TOP_OBJECT);
      MatchMember(ms, more, name, opener);
      if ms.key == name && Opening(ms.value) == opener {
        FindHere(FromKey(ms, more), Quoted(name), opener);
      } else {
        SkipMember(ms, more, name, opener);
        FindMembers(ms.rest, name, opener);
        if ms.rest.Member? {
          FindPlain([','], MembersThen(ms.rest, ['}']), Quoted(name), opener, TOP_OBJECT);
        }
      }
    }
  }
}
