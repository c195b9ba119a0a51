/** Text utilities of the prompt builders: line-boundary cuts, joining and decimal numbers. */
module Text {
  import opened Seqs

  const TRUNC_MSG := "\n...(truncated)"

  /** `text.rfind("\n", 0, hi)`. */
  function LastNewline(text: string, hi: nat): (r: int)
    ensures -1 <= r < hi && r < |text|
    ensures r >= 0 ==> text[r] == '\n'
    ensures forall i :: r < i < hi && i < |text| ==> text[i] != '\n'
  {
    if hi == 0 then -1
    else if hi <= |text| && text[hi - 1] == '\n' then hi - 1
    else LastNewline(text, hi - 1)
  }

  /** A cut gives up at most half of the limit, and only to end on a line boundary. */
  function CutAtLineBoundary(text: string, limit: nat): (cut: nat)
    ensures limit / 2 <= cut <= limit
    ensures cut < limit ==> cut < |text| && text[cut] == '\n'
    ensures forall i :: cut < i < limit && limit / 2 <= i < |text| ==> text[i] != '\n'
  {
    var cut := LastNewline(text, limit);
    if cut == -1 || cut < limit / 2 then limit else cut
  }

  /**
   The result is a marked front part of the text that keeps at least half of the limit; it ends at the last
   line break there, or at the limit if there is none.
   */
  ghost predicate IsCutAt(text: string, limit: nat, r: string) {
    exists cut: nat ::
      && limit / 2 <= cut <= limit && cut <= |text| && r == text[..cut] + TRUNC_MSG
      && (cut < limit ==> cut < |text| && text[cut] == '\n')
      && (forall i :: cut < i < limit && limit / 2 <= i < |text| ==> text[i] != '\n')
  }

  /** Text within the limit is kept; longer text is cut and marked, or emptied when the marker does not fit. */
  function ShrinkToCharLimit(text: string, target: int): (r: string)
    ensures |r| <= if target > 0 then target else 0
    ensures |text| <= target ==> r == text
    ensures r == text || r == "" || exists cut: nat :: cut < |text| && r == text[..cut] + TRUNC_MSG
    ensures |TRUNC_MSG| <= target < |text| ==> IsCutAt(text, target - |TRUNC_MSG|, r)
    ensures target < |TRUNC_MSG| && target < |text| ==> r == ""
  {
    if target <= 0 then ""
    else if |text| <= target then text
    else if target < |TRUNC_MSG| then ""
    else
      var cut := CutAtLineBoundary(text, target - |TRUNC_MSG|);
      assert text[..cut] + TRUNC_MSG == text[..cut] + TRUNC_MSG;
      text[..cut] + TRUNC_MSG
  }

  /** `separator.join(parts)`. */
  function Join(parts: seq<string>, separator: string): string {
    if parts == [] then "" else if |parts| == 1 then parts[0]
    else parts[0] + separator + Join(parts[1..], separator)
  }

  function JoinStarts(later: seq<nat>, shift: nat): (r: seq<nat>)
    ensures |r| == |later| + 1 && r[0] == 0
    ensures forall i :: 0 < i < |r| ==> r[i] == later[i - 1] + shift
  {
    [0] + seq(|later|, i requires 0 <= i < |later| => later[i] + shift)
  }

  lemma {:induction false} Behind(front: string, text: string, a: nat, b: nat)
    requires a <= b <= |text|
    ensures (front + text)[|front| + a..|front| + b] == text[a..b]
  {}

  predicate PartsStand(text: string, parts: seq<string>, starts: seq<nat>)
    requires |starts| == |parts|
  {
    forall i :: 0 <= i < |parts| ==>
      starts[i] + |parts[i]| <= |text| && text[starts[i]..starts[i] + |parts[i]|] == parts[i]
  }

  predicate GapsStand(text: string, parts: seq<string>, separator: string, starts: seq<nat>)
    requires |starts| == |parts|
  {
    forall i, next :: 0 <= i && next == i + 1 < |parts| ==>
      GapStands(text, separator, starts[i] + |parts[i]|, starts[next])
  }

  predicate GapStands(text: string, separator: string, end: nat, start: nat) {
    start == end + |separator| && start <= |text| && text[end..start] == separator
  }

  lemma {:induction false} PartsBehind(first: string, front: string, text: string, parts: seq<string>, starts: seq<nat>)
    requires |starts| == |parts| && PartsStand(text, parts, starts) && first <= front
    ensures PartsStand(front + text, [first] + parts, JoinStarts(starts, |front|))
  {
    var all, later := [first] + parts, JoinStarts(starts, |front|);
    assert (front + text)[..|first|] == front[..|first|] == first;
    forall i | 0 < i < |all|
      ensures later[i] + |all[i]| <= |front + text| && (front + text)[later[i]..later[i] + |all[i]|] == all[i]
    {
      assert all[i] == parts[i - 1] && later[i] == starts[i - 1] + |front|;
      Behind(front, text, starts[i - 1], starts[i - 1] + |parts[i - 1]|);
    }
  }

  lemma {:induction false} GapsBehind(
      first: string, separator: string, text: string, parts: seq<string>, starts: seq<nat>)
    requires |starts| == |parts| && parts != [] && starts[0] == 0 && GapsStand(text, parts, separator, starts)
    ensures GapsStand(first + separator + text, [first] + parts, separator, JoinStarts(starts, |first + separator|))
  {
    var front, all := first + separator, [first] + parts;
    var whole, later := front + text, JoinStarts(starts, |front|);
    assert GapStands(whole, separator, |first|, |front|) by {
      assert whole[|first|..|front|] == separator;
    }
    forall i, next | 0 <= i && next == i + 1 < |all|
      ensures GapStands(whole, separator, later[i] + |all[i]|, later[next])
    {
      assert later[next] == starts[next - 1] + |front|;
      if i > 0 {
        assert all[i] == parts[i - 1] && later[i] == starts[i - 1] + |front|;
        GapBehind(front, text, separator, starts[i - 1] + |parts[i - 1]|, starts[next - 1]);
      }
    }
  }

  lemma {:induction false} GapBehind(front: string, text: string, separator: string, end: nat, start: nat)
    requires GapStands(text, separator, end, start)
    ensures GapStands(front + text, separator, end + |front|, start + |front|)
  {
    Behind(front, text, end, start);
  }

  lemma {:induction false} JoinedParts(parts: seq<string>, separator: string) returns (starts: seq<nat>)
    requires parts != []
    ensures var text := Join(parts, separator);
      && |starts| == |parts| && starts[0] == 0 && starts[|parts| - 1] + |parts[|parts| - 1]| == |text|
      && PartsStand(text, parts, starts) && GapsStand(text, parts, separator, starts)
  {
    hide PartsStand, GapsStand, Join;
    JoinUnfolds(parts, separator);
    if |parts| == 1 {
      starts := [0];
      OnePart(parts[0], separator);
      assert parts == [parts[0]];
    } else {
      var rest := parts[1..];
      var later := JoinedParts(rest, separator);
      var front := parts[0] + separator;
      starts := JoinStarts(later, |front|);
      assert parts == [parts[0]] + rest && rest[|rest| - 1] == parts[|parts| - 1];
      PartsBehind(parts[0], front, Join(rest, separator), rest, later);
      GapsBehind(parts[0], separator, Join(rest, separator), rest, later);
    }
  }

  lemma {:induction false} JoinUnfolds(parts: seq<string>, separator: string)
    requires parts != []
    ensures Join(parts, separator)
      == if |parts| == 1 then parts[0] else (parts[0] + separator) + Join(parts[1..], separator)
  {}

  lemma {:induction false} OnePart(part: string, separator: string)
    ensures PartsStand(part, [part], [0]) && GapsStand(part, [part], separator, [0])
  {}

  /** Joined parts stand one behind the other, from the start to the end, with the separator between any two. */
  lemma {:induction false} JoinedAt(parts: seq<string>, separator: string) returns (starts: seq<nat>)
    ensures var text := Join(parts, separator);
      && |starts| == |parts| && (parts == [] ==> text == "") && (parts != [] ==> starts[0] == 0)
      && (forall i :: 0 <= i < |parts| ==>
            starts[i] + |parts[i]| <= |text| && text[starts[i]..starts[i] + |parts[i]|] == parts[i])
      && (forall i, next :: 0 <= i && next == i + 1 < |parts| ==>
            var end := starts[i] + |parts[i]|;
            starts[next] == end + |separator| && starts[next] <= |text| && text[end..starts[next]] == separator)
      && (parts != [] ==> starts[|parts| - 1] + |parts[|parts| - 1]| == |text|)
  {
    if parts == [] {
      starts := [];
    } else {
      hide Join;
      starts := JoinedParts(parts, separator);
    }
  }

  // ---------- decimal numbers ----------

  predicate IsDigit(c: char) {
    '0' <= c <= '9'
  }

  function PrintNat(n: nat): (s: string)
    ensures s != "" && forall i :: 0 <= i < |s| ==> IsDigit(s[i])
  {
    (if n < 10 then "" else PrintNat(n / 10)) + ['0' + (n % 10) as char]
  }

  function Digits(s: string): (n: nat)
    ensures n <= |s|
    ensures forall i :: 0 <= i < n ==> IsDigit(s[i])
  {
    if s == "" || !IsDigit(s[0]) then 0 else 1 + Digits(s[1..])
  }

  function ParseNat(s: string): nat
    requires forall i :: 0 <= i < |s| ==> IsDigit(s[i])
  {
    if s == "" then 0 else
    assert IsDigit(s[|s| - 1]);
    10 * ParseNat(s[..|s| - 1]) + (s[|s| - 1] as int - '0' as int)
  }

  lemma {:induction false} ParsePrintNat(n: nat)
    ensures ParseNat(PrintNat(n)) == n
  {
    var s := PrintNat(n);
    if n >= 10 {
      assert s[..|s| - 1] == PrintNat(n / 10);
      ParsePrintNat(n / 10);
    } else {
      assert s[..|s| - 1] == "";
    }
    assert s[|s| - 1] == '0' + (n % 10) as char;
  }

  lemma {:induction false} DigitsOver(s: string, rest: string)
    requires forall i :: 0 <= i < |s| ==> IsDigit(s[i])
    requires rest == "" || !IsDigit(rest[0])
    ensures Digits(s + rest) == |s|
  {
    if s == "" {
      assert s + rest == rest;
    } else {
      Uncons(s, rest);
      assert ([s[0]] + (s[1..] + rest))[1..] == s[1..] + rest;
      DigitsOver(s[1..], rest);
    }
  }
}
