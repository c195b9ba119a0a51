/**
 Capping sandbox-probe events (app/sandbox_probe/schema.py). Characters are Unicode scalar values,
 encoded as section 3 of RFC 3629 says.
 */
module ProbeSchema {
  import opened Wrappers
  import opened Seqs

  // ---------- UTF-8 ----------

  type Byte = x: int | 0 <= x < 256

  function Encode(c: char): (bytes: seq<Byte>)
    ensures 1 <= |bytes| <= 4
  {
    var n := c as int;
    if n < 0x80 then [n]
    else if n < 0x800 then [0xC0 + n / 64, 0x80 + n % 64]
    else if n < 0x10000 then [0xE0 + n / 4096, 0x80 + n / 64 % 64, 0x80 + n % 64]
    else [0xF0 + n / 262144, 0x80 + n / 4096 % 64, 0x80 + n / 64 % 64, 0x80 + n % 64]
  }

  /** `text.encode()`. */
  function EncodeAll(text: string): seq<Byte> {
    if text == "" then [] else Encode(text[0]) + EncodeAll(text[1..])
  }

  predicate IsContinuation(b: Byte) {
    0x80 <= b < 0xC0
  }

  predicate Continued(bytes: seq<Byte>, n: nat) {
    n <= |bytes| && forall i :: 1 <= i < n ==> IsContinuation(bytes[i])
  }

  predicate IsScalar(n: int) {
    0 <= n < 0xD800 || 0xE000 <= n < 0x110000
  }

  /** What byte `i` contributes below its marker bits. */
  function Bits(bytes: seq<Byte>, i: nat, marker: int): int
    requires i < |bytes|
  {
    bytes[i] as int - marker
  }

  /** The character at the front of the bytes and its length, when the front is well-formed. */
  function DecodeOne(bytes: seq<Byte>): (r: Option<(char, nat)>)
    ensures r.Some? ==> 1 <= r.value.1 <= |bytes|
  {
    if bytes == [] then None
    else if bytes[0] < 0x80 then Some((bytes[0] as char, 1))
    else if 0xC2 <= bytes[0] < 0xE0 && Continued(bytes, 2) then
      Some(((Bits(bytes, 0, 0xC0) * 64 + Bits(bytes, 1, 0x80)) as char, 2))
    else if 0xE0 <= bytes[0] < 0xF0 && Continued(bytes, 3) then
      var n := Bits(bytes, 0, 0xE0) * 4096 + Bits(bytes, 1, 0x80) * 64 + Bits(bytes, 2, 0x80);
      if n >= 0x800 && IsScalar(n) then Some((n as char, 3)) else None
    else if 0xF0 <= bytes[0] < 0xF5 && Continued(bytes, 4) then
      var n := Bits(bytes, 0, 0xF0) * 262144 + Bits(bytes, 1, 0x80) * 4096 + Bits(bytes, 2, 0x80) * 64
        + Bits(bytes, 3, 0x80);
      if n >= 0x10000 && IsScalar(n) then Some((n as char, 4)) else None
    else None
  }

  /** `bytes.decode(errors="ignore")`: bytes that start no character are skipped. */
  function DecodeIgnoring(bytes: seq<Byte>): string {
    if bytes == [] then "" else
    match DecodeOne(bytes)
    case None => DecodeIgnoring(bytes[1..])
    case Some((c, n)) => [c] + DecodeIgnoring(bytes[n..])
  }

  lemma {:induction false} DecodeEncoded(c: char, rest: seq<Byte>)
    ensures DecodeOne(Encode(c) + rest) == Some((c, |Encode(c)|))
  {
    var n, bytes := c as int, Encode(c) + rest;
    assert forall i :: 0 <= i < |Encode(c)| ==> bytes[i] == Encode(c)[i];
    if n < 0x80 {
    } else if n < 0x800 {
      assert n == n / 64 * 64 + n % 64;
    } else if n < 0x10000 {
      assert n / 4096 == n / 64 / 64 && n / 64 == n / 4096 * 64 + n / 64 % 64 && n == n / 64 * 64 + n % 64;
    } else {
      assert n / 4096 == n / 64 / 64 && n / 262144 == n / 4096 / 64;
      assert n / 4096 == n / 262144 * 64 + n / 4096 % 64;
      assert n / 64 == n / 4096 * 64 + n / 64 % 64 && n == n / 64 * 64 + n % 64;
    }
  }

  lemma {:induction false} TailBytesContinue(c: char)
    ensures forall i :: 1 <= i < |Encode(c)| ==> IsContinuation(Encode(c)[i])
  {}

  /** Decoding undoes encoding. */
  lemma {:induction false} DecodeAll(text: string)
    ensures DecodeIgnoring(EncodeAll(text)) == text
  {
    hide Encode, DecodeOne;
    if text != "" {
      DecodeEncoded(text[0], EncodeAll(text[1..]));
      DecodeAll(text[1..]);
      assert (Encode(text[0]) + EncodeAll(text[1..]))[|Encode(text[0])|..] == EncodeAll(text[1..]);
    }
  }

  lemma {:induction false} SkipContinuations(bytes: seq<Byte>, rest: seq<Byte>)
    requires forall i :: 0 <= i < |bytes| ==> IsContinuation(bytes[i])
    ensures DecodeIgnoring(bytes + rest) == DecodeIgnoring(rest)
  {
    if bytes == [] {
      assert bytes + rest == rest;
    } else {
      assert (bytes + rest)[0] == bytes[0] && (bytes + rest)[1..] == bytes[1..] + rest;
      SkipContinuations(bytes[1..], rest);
    }
  }

  /** The first character that starts at or behind byte `j`. */
  function CharFrom(text: string, j: nat): (i: nat)
    ensures i <= |text|
  {
    if text == "" || j == 0 then 0
    else 1 + CharFrom(text[1..], if j < |Encode(text[0])| then 0 else j - |Encode(text[0])|)
  }

  /** Dropping bytes off the front and decoding leaves the characters that are still whole. */
  lemma {:induction false} DecodeCutBytes(text: string, j: nat)
    requires j <= |EncodeAll(text)|
    ensures DecodeIgnoring(EncodeAll(text)[j..]) == text[CharFrom(text, j)..]
  {
    hide Encode, DecodeOne, IsContinuation;
    if j == 0 {
      assert EncodeAll(text)[0..] == EncodeAll(text);
      DecodeAll(text);
    } else {
      var first, rest := Encode(text[0]), EncodeAll(text[1..]);
      if j < |first| {
        assert (first + rest)[j..] == first[j..] + rest;
        TailBytesContinue(text[0]);
        SkipContinuations(first[j..], rest);
        DecodeAll(text[1..]);
      } else {
        assert (first + rest)[j..] == rest[j - |first|..];
        DecodeCutBytes(text[1..], j - |first|);
      }
    }
  }

  /** From there on at most `j` bytes are gone, and one character more would not do. */
  lemma {:induction false} CharFromIsFirst(text: string, j: nat)
    requires j <= |EncodeAll(text)|
    ensures |EncodeAll(text[CharFrom(text, j)..])| <= |EncodeAll(text)| - j
    ensures forall k :: 0 <= k < CharFrom(text, j) ==> |EncodeAll(text[k..])| > |EncodeAll(text)| - j
  {
    hide Encode;
    if j > 0 {
      var j' := if j < |Encode(text[0])| then 0 else j - |Encode(text[0])|;
      CharFromIsFirst(text[1..], j');
      forall k | 0 <= k < CharFrom(text, j) ensures |EncodeAll(text[k..])| > |EncodeAll(text)| - j {
        if k > 0 {
          assert text[k..] == text[1..][k - 1..];
        } else {
          assert text[0..] == text;
        }
      }
      assert text[CharFrom(text, j)..] == text[1..][CharFrom(text[1..], j')..];
    } else {
      assert text[0..] == text;
    }
  }

  lemma {:induction false} EncodeAppend(a: string, b: string)
    ensures EncodeAll(a + b) == EncodeAll(a) + EncodeAll(b)
  {
    hide Encode;
    if a == "" {
      assert a + b == b;
    } else {
      assert (a + b)[0] == a[0] && (a + b)[1..] == a[1..] + b;
      EncodeAppend(a[1..], b);
      Assoc(Encode(a[0]), EncodeAll(a[1..]), EncodeAll(b));
    }
  }

  lemma {:induction false} UniformLength(text: string, width: nat)
    requires forall i :: 0 <= i < |text| ==> |Encode(text[i])| == width
    ensures |EncodeAll(text)| == |text| * width
  {
    hide Encode;
    if text != "" {
      UniformLength(text[1..], width);
      assert (|text| - 1) * width + width == |text| * width;
    }
  }

  // ---------- keep_tail ----------

  const TRUNCATION_MARKER := "...(" + "앞부분" + " " + "생략" + ")\n"
  const MARKER_BYTES := 22

  lemma {:induction false} MarkerBytes()
    ensures |EncodeAll(TRUNCATION_MARKER)| == MARKER_BYTES
  {
    EncodeAppend("...(" + "앞부분" + " " + "생략", ")\n");
    EncodeAppend("...(" + "앞부분" + " ", "생략");
    EncodeAppend("...(" + "앞부분", " ");
    EncodeAppend("...(", "앞부분");
    UniformLength("...(", 1);
    UniformLength("앞부분", 3);
    UniformLength(" ", 1);
    UniformLength("생략", 3);
    UniformLength(")\n", 1);
  }

  /** Python's `raw[start:]` for a start of any sign. */
  function From(raw: seq<Byte>, start: int): seq<Byte> {
    if start >= |raw| then []
    else if start >= 0 then raw[start..]
    else if -start >= |raw| then raw
    else raw[|raw| + start..]
  }

  function KeepTail(text: string, maxBytes: int): string {
    var raw := EncodeAll(text);
    if |raw| <= maxBytes then text
    else
      var budget := maxBytes - |EncodeAll(TRUNCATION_MARKER)|;
      TRUNCATION_MARKER + DecodeIgnoring(From(raw, -budget))
  }

  /**
   Oversized text becomes the marker and the longest suffix of its characters whose encoding still
   fits beside the marker.
   */
  lemma {:induction false} KeepTailIsLongestSuffix(text: string, maxBytes: int) returns (i: nat)
    requires |EncodeAll(text)| > maxBytes > MARKER_BYTES
    ensures i <= |text| && KeepTail(text, maxBytes) == TRUNCATION_MARKER + text[i..]
    ensures |EncodeAll(text[i..])| <= maxBytes - MARKER_BYTES
    ensures forall k :: 0 <= k < i ==> |EncodeAll(text[k..])| > maxBytes - MARKER_BYTES
  {
    hide EncodeAll, DecodeIgnoring, CharFrom;
    MarkerBytes();
    var j := |EncodeAll(text)| - (maxBytes - MARKER_BYTES);
    i := CharFrom(text, j);
    DecodeCutBytes(text, j);
    CharFromIsFirst(text, j);
  }

  /** The result is within the limit exactly when the text was, or the limit has room behind the marker. */
  lemma {:induction false} KeepTailFitsIff(text: string, maxBytes: int)
    ensures |EncodeAll(KeepTail(text, maxBytes))| <= maxBytes
      <==> |EncodeAll(text)| <= maxBytes || maxBytes > MARKER_BYTES
  {
    hide EncodeAll, DecodeIgnoring;
    MarkerBytes();
    if |EncodeAll(text)| > maxBytes {
      var tail := DecodeIgnoring(From(EncodeAll(text), MARKER_BYTES - maxBytes));
      EncodeAppend(TRUNCATION_MARKER, tail);
      if maxBytes > MARKER_BYTES {
        var i := KeepTailIsLongestSuffix(text, maxBytes);
        EncodeAppend(TRUNCATION_MARKER, text[i..]);
      } else if maxBytes == MARKER_BYTES {
        assert EncodeAll(text)[0..] == EncodeAll(text);
        DecodeAll(text);
      }
    }
  }

  // ---------- cap_completed_event ----------

  const MAX_EVIDENCE_BYTES := 8 * 1024
  const MAX_FINDING_EVIDENCE_BYTES := 4 * 1024
  const MAX_FINDINGS := 10
  const MAX_EVENT_BYTES := 512 * 1024

  /** `head` stands for the fields that capping does not touch. */
  datatype ProbeFinding = ProbeFinding(head: string, evidence: string)
  datatype ProbeEvent = ProbeEvent(head: string, evidence: string, findings: seq<ProbeFinding>)

  function TrimFinding(f: ProbeFinding): ProbeFinding {
    f.(evidence := KeepTail(f.evidence, MAX_FINDING_EVIDENCE_BYTES))
  }

  function TrimFindings(fs: seq<ProbeFinding>): (r: seq<ProbeFinding>)
    ensures |r| == |fs| && forall i :: 0 <= i < |fs| ==> r[i] == TrimFinding(fs[i])
  {
    seq(|fs|, i requires 0 <= i < |fs| => TrimFinding(fs[i]))
  }

  /** Evidence cut to its limits, findings to their number. */
  function Trim(e: ProbeEvent): ProbeEvent {
    var first := if |e.findings| > MAX_FINDINGS then e.findings[..MAX_FINDINGS] else e.findings;
    e.(evidence := KeepTail(e.evidence, MAX_EVIDENCE_BYTES), findings := TrimFindings(first))
  }

  /** The text within the limit; or the marker and the longest suffix that fits beside its 22 bytes. */
  ghost predicate IsTailOf(shown: string, text: string, maxBytes: nat) {
    if |EncodeAll(text)| <= maxBytes then shown == text else
    exists i ::
      && 0 <= i <= |text| && shown == TRUNCATION_MARKER + text[i..] && |EncodeAll(text[i..])| <= maxBytes - 22
      && forall k :: 0 <= k < i ==> |EncodeAll(text[k..])| > maxBytes - 22
  }

  lemma {:induction false} KeepTailIsTail(text: string, maxBytes: nat)
    requires maxBytes > MARKER_BYTES
    ensures IsTailOf(KeepTail(text, maxBytes), text, maxBytes)
  {
    hide EncodeAll, DecodeIgnoring;
    if |EncodeAll(text)| > maxBytes {
      var i := KeepTailIsLongestSuffix(text, maxBytes);
    }
  }

  /** `capped` shows the event: the first findings, ten at most, in their order, and every evidence by its tail. */
  ghost predicate Shows(capped: ProbeEvent, e: ProbeEvent) {
    && capped.head == e.head && IsTailOf(capped.evidence, e.evidence, 8192)
    && |capped.findings| <= |e.findings| && |capped.findings| <= 10
    && forall i :: 0 <= i < |capped.findings| ==>
         && capped.findings[i].head == e.findings[i].head
         && IsTailOf(capped.findings[i].evidence, e.findings[i].evidence, 4096)
  }

  /** Trimming drops no finding but those behind the tenth. */
  lemma {:induction false} TrimShows(e: ProbeEvent)
    ensures Shows(Trim(e), e)
    ensures |Trim(e).findings| == if |e.findings| <= 10 then |e.findings| else 10
  {
    hide EncodeAll, KeepTail, IsTailOf;
    KeepTailIsTail(e.evidence, 8192);
    forall i | 0 <= i < |Trim(e).findings|
      ensures Trim(e).findings[i].head == e.findings[i].head
      ensures IsTailOf(Trim(e).findings[i].evidence, e.findings[i].evidence, 4096)
    {
      KeepTailIsTail(e.findings[i].evidence, 4096);
    }
  }

  /**
   The capped event shows the event within 524,288 bytes or without findings; and fewer than ten of them,
   or fewer than there are, only when one more would not have fitted.
   */
  lemma {:induction false} CappedShows(e: ProbeEvent, size: ProbeEvent -> nat)
    ensures var r := DropUntilFits(Trim(e), size);
      && Shows(r, e) && (size(r) <= 524288 || r.findings == [])
      && (|r.findings| < |e.findings| && |r.findings| < 10 ==>
            exists more: ProbeEvent ::
              && Shows(more, e) && |more.findings| == |r.findings| + 1 && more.findings[..|r.findings|] == r.findings
              && size(more) > 524288)
  {
    hide EncodeAll, KeepTail, IsTailOf, Trim, DropUntilFits;
    TrimShows(e);
    CapKeepsLongestPrefix(Trim(e), size);
    var t, r := Trim(e), DropUntilFits(Trim(e), size);
    if |r.findings| < |t.findings| {
      var more := t.(findings := t.findings[..|r.findings| + 1]);
      assert more.findings[..|r.findings|] == r.findings;
      assert Shows(more, e) && size(more) > 524288;
    }
  }

  /** Findings are dropped from the end until the event fits or has none. */
  function DropUntilFits(e: ProbeEvent, size: ProbeEvent -> nat): ProbeEvent
    decreases |e.findings|
  {
    if size(e) > MAX_EVENT_BYTES && e.findings != []
    then DropUntilFits(e.(findings := e.findings[..|e.findings| - 1]), size) else e
  }

  method CapCompletedEvent(e: ProbeEvent, size: ProbeEvent -> nat) returns (capped: ProbeEvent)
    ensures capped == DropUntilFits(Trim(e), size)
    ensures Shows(capped, e) && (size(capped) <= 524288 || capped.findings == [])
  {
    CappedShows(e, size);
    hide Trim, Shows;
    capped := Trim(e);
    while size(capped) > MAX_EVENT_BYTES && capped.findings != []
      invariant DropUntilFits(capped, size) == DropUntilFits(Trim(e), size)
      decreases |capped.findings|
    {
      capped := capped.(findings := capped.findings[..|capped.findings| - 1]);
    }
  }

  /** The capped event fits or has no finding left; it keeps the longest front part of the findings that does. */
  lemma {:induction false} CapKeepsLongestPrefix(e: ProbeEvent, size: ProbeEvent -> nat)
    ensures var r := DropUntilFits(e, size);
      && |r.findings| <= |e.findings| && r == e.(findings := e.findings[..|r.findings|])
      && (size(r) <= MAX_EVENT_BYTES || r.findings == [])
      && forall m :: |r.findings| < m <= |e.findings| ==> size(e.(findings := e.findings[..m])) > MAX_EVENT_BYTES
    decreases |e.findings|
  {
    assert e.findings[..|e.findings|] == e.findings;
    if size(e) > MAX_EVENT_BYTES && e.findings != [] {
      var shorter := e.(findings := e.findings[..|e.findings| - 1]);
      CapKeepsLongestPrefix(shorter, size);
      forall m | |DropUntilFits(e, size).findings| < m <= |e.findings|
        ensures size(e.(findings := e.findings[..m])) > MAX_EVENT_BYTES
      {
        if m < |e.findings| {
          assert shorter.findings[..m] == e.findings[..m];
        }
      }
      var k := |DropUntilFits(shorter, size).findings|;
      assert shorter.findings[..k] == e.findings[..k];
    }
  }

  predicate Trimmed(e: ProbeEvent) {
    && |EncodeAll(e.evidence)| <= MAX_EVIDENCE_BYTES && |e.findings| <= MAX_FINDINGS
    && forall i :: 0 <= i < |e.findings| ==> |EncodeAll(e.findings[i].evidence)| <= MAX_FINDING_EVIDENCE_BYTES
  }

  lemma {:induction false} TrimIsTrimmed(e: ProbeEvent)
    ensures Trimmed(Trim(e))
  {
    hide EncodeAll, KeepTail;
    KeepTailFitsIff(e.evidence, MAX_EVIDENCE_BYTES);
    forall i | 0 <= i < |Trim(e).findings|
      ensures |EncodeAll(Trim(e).findings[i].evidence)| <= MAX_FINDING_EVIDENCE_BYTES
    {
      KeepTailFitsIff(e.findings[i].evidence, MAX_FINDING_EVIDENCE_BYTES);
    }
  }

  lemma {:induction false} TrimKeepsTrimmed(e: ProbeEvent)
    requires Trimmed(e)
    ensures Trim(e) == e
  {
    hide EncodeAll;
    assert TrimFindings(e.findings) == e.findings;
  }

  /** The capped event stays within every limit it can, and capping it again changes nothing. */
  lemma {:induction false} CapIsIdempotent(e: ProbeEvent, size: ProbeEvent -> nat)
    ensures var r := DropUntilFits(Trim(e), size);
      Trimmed(r) && DropUntilFits(Trim(r), size) == r
  {
    hide EncodeAll, KeepTail, Trim;
    TrimIsTrimmed(e);
    CapKeepsLongestPrefix(Trim(e), size);
    var r := DropUntilFits(Trim(e), size);
    forall i | 0 <= i < |r.findings| ensures |EncodeAll(r.findings[i].evidence)| <= MAX_FINDING_EVIDENCE_BYTES {
      assert r.findings[i] == Trim(e).findings[i];
    }
    TrimKeepsTrimmed(r);
  }
}
