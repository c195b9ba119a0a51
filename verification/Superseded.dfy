/**
 Skipping reviews of superseded heads (app/review/superseded.py): many recorders number the heads of
 pull requests with two separate Redis steps, INCR and HSETNX, in any interleaving.
 */
module Superseded {
  import opened Text

  type Recorder = nat
  type Pr = (nat, nat)

  /** A review request: repository, pull request, job id and head. */
  datatype Event = Event(repositoryId: nat, prNumber: nat, reviewJobId: string, headSha: string) {
    function Pr(): Pr {
      (repositoryId, prNumber)
    }
  }

  /** Re-requests carry a suffix in their job id; they are neither recorded nor skipped. */
  predicate IsHeadRequest(e: Event) {
    e.reviewJobId == PrintNat(e.repositoryId) + ":" + PrintNat(e.prNumber) + ":" + e.headSha
  }

  /** The job id of a head request tells repository, pull request and head. */
  lemma {:induction false} JobIdTellsHead(a: Event, b: Event)
    requires IsHeadRequest(a) && IsHeadRequest(b) && a.reviewJobId == b.reviewJobId
    ensures a == b
  {
    hide PrintNat;
    SameNumeral(a.repositoryId, PrintNat(a.prNumber) + (":" + a.headSha), b.repositoryId,
                PrintNat(b.prNumber) + (":" + b.headSha), a.reviewJobId);
    SameNumeral(a.prNumber, a.headSha, b.prNumber, b.headSha, PrintNat(a.prNumber) + (":" + a.headSha));
  }

  /** A number and what follows its colon are told by the text. */
  lemma {:induction false} SameNumeral(m: nat, tail: string, n: nat, tail': string, text: string)
    requires text == PrintNat(m) + (":" + tail) == PrintNat(n) + (":" + tail')
    ensures m == n && tail == tail'
  {
    hide PrintNat;
    NumeralFront(m, tail);
    NumeralFront(n, tail');
  }

  lemma {:induction false} NumeralFront(n: nat, tail: string)
    ensures var text := PrintNat(n) + (":" + tail);
      && Digits(text) == |PrintNat(n)| && Digits(text) < |text|
      && ParseNat(text[..Digits(text)]) == n && text[Digits(text) + 1..] == tail
  {
    hide PrintNat;
    DigitsOver(PrintNat(n), ":" + tail);
    ParsePrintNat(n);
    assert (PrintNat(n) + (":" + tail))[..|PrintNat(n)|] == PrintNat(n);
  }

  /** A re-request, with anything behind the job id of the head, is no head request. */
  lemma {:induction false} ReRequestIsNone(e: Event, suffix: string)
    requires IsHeadRequest(e)
    ensures IsHeadRequest(e.(reviewJobId := e.reviewJobId + suffix)) <==> suffix == ""
  {
    hide PrintNat;
    if suffix == "" {
      assert e.reviewJobId + suffix == e.reviewJobId;
    } else {
      assert |e.reviewJobId + suffix| > |e.reviewJobId|;
    }
  }

  lemma {:induction false} HeadRequestSample()
    ensures IsHeadRequest(Event(7, 12, "7:12:abc", "abc")) && !IsHeadRequest(Event(7, 12, "7:12:abc_c5", "abc"))
  {
    assert PrintNat(12) == PrintNat(1) + "2" == "12";
    assert PrintNat(7) + ":" + PrintNat(12) + ":" + "abc" == "7:12:abc";
    assert "7:12:abc_c5"[8] == '_';
  }

  type Heads = map<string, nat>

  /** Some head of the pull request has a later number. */
  predicate IsSuperseded(heads: Heads, sha: string) {
    sha in heads && exists other :: other in heads && heads[other] > heads[sha]
  }

  /** `HSETNX`: the first number a head gets stays. */
  function SetIfAbsent(heads: Heads, sha: string, n: nat): Heads {
    if sha in heads then heads else heads[sha := n]
  }

  // ---------- the tracker ----------

  class Redis {
    var counter: nat
    var hashes: map<Pr, Heads>

    constructor ()
      ensures counter == 0 && hashes == map[]
    {
      counter, hashes := 0, map[];
    }
  }

  function HeadsOf(hashes: map<Pr, Heads>, pr: Pr): Heads {
    if pr in hashes then hashes[pr] else map[]
  }

  class PrHeadTracker {
    const redis: Redis

    constructor (redis: Redis)
      ensures this.redis == redis
    {
      this.redis := redis;
    }

    method Record(e: Event)
      modifies redis
      ensures !IsHeadRequest(e) ==> redis.counter == old(redis.counter) && redis.hashes == old(redis.hashes)
      ensures IsHeadRequest(e) ==>
        && redis.counter == old(redis.counter) + 1
        && redis.hashes == old(redis.hashes)[e.Pr() :=
             if e.headSha in HeadsOf(old(redis.hashes), e.Pr()) then HeadsOf(old(redis.hashes), e.Pr())
             else HeadsOf(old(redis.hashes), e.Pr())[e.headSha := redis.counter]]
    {
      if !IsHeadRequest(e) {
        return;
      }
      redis.counter := redis.counter + 1;
      redis.hashes := redis.hashes[e.Pr() := SetIfAbsent(HeadsOf(redis.hashes, e.Pr()), e.headSha, redis.counter)];
    }

    /** A failed lookup never skips a review. */
    method CheckSuperseded(e: Event, lookupFails: bool) returns (superseded: bool)
      ensures superseded <==>
        && IsHeadRequest(e) && !lookupFails
        && e.headSha in HeadsOf(redis.hashes, e.Pr())
        && exists other :: other in HeadsOf(redis.hashes, e.Pr())
             && HeadsOf(redis.hashes, e.Pr())[other] > HeadsOf(redis.hashes, e.Pr())[e.headSha]
    {
      if !IsHeadRequest(e) || lookupFails {
        return false;
      }
      superseded := IsSuperseded(HeadsOf(redis.hashes, e.Pr()), e.headSha);
    }
  }

  // ---------- the protocol ----------

  /** A recorder between its two steps: it holds a number for a head. */
  datatype Pending = Pending(pr: Pr, sha: string, n: nat)

  datatype State = State(counter: nat, hashes: map<Pr, Heads>, pending: map<Recorder, Pending>)

  const START := State(0, map[], map[])

  datatype Action =
    | Incr(r: Recorder, pr: Pr, sha: string)
    | HSetNx(r: Recorder)
    | Crash(r: Recorder)
    | Expire(pr: Pr)

  predicate Enabled(s: State, a: Action) {
    match a
    case Incr(r, _, _) => r !in s.pending
    case HSetNx(r) => r in s.pending
    case Crash(r) => r in s.pending
    case Expire(pr) => pr in s.hashes
  }

  function Next(s: State, a: Action): State
    requires Enabled(s, a)
  {
    match a
    case Incr(r, pr, sha) => State(s.counter + 1, s.hashes, s.pending[r := Pending(pr, sha, s.counter + 1)])
    case HSetNx(r) =>
      var p := s.pending[r];
      State(s.counter, s.hashes[p.pr := SetIfAbsent(HeadsOf(s.hashes, p.pr), p.sha, p.n)], s.pending - {r})
    case Crash(r) => s.(pending := s.pending - {r})
    case Expire(pr) => s.(hashes := s.hashes - {pr})
  }

  predicate IsRun(s: State, actions: seq<Action>)
    decreases |actions|
  {
    actions == [] || (Enabled(s, actions[0]) && IsRun(Next(s, actions[0]), actions[1..]))
  }

  function After(s: State, actions: seq<Action>): State
    requires IsRun(s, actions)
    decreases |actions|
  {
    if actions == [] then s else After(Next(s, actions[0]), actions[1..])
  }

  /** The head is recorded for the pull request under number `n`. */
  predicate Recorded(s: State, pr: Pr, sha: string, n: nat) {
    sha in HeadsOf(s.hashes, pr) && HeadsOf(s.hashes, pr)[sha] == n
  }

  /** No number is used twice, neither in the hashes nor by recorders under way, and none is from the future. */
  ghost predicate Numbered(s: State) {
    && (forall pr, sha, n: nat :: Recorded(s, pr, sha, n) ==> 1 <= n <= s.counter)
    && (forall r :: r in s.pending ==> 1 <= s.pending[r].n <= s.counter)
    && (forall q, r :: q in s.pending && r in s.pending && q != r ==> s.pending[q].n != s.pending[r].n)
    && (forall r, pr, sha, n: nat :: r in s.pending && Recorded(s, pr, sha, n) ==> s.pending[r].n != n)
    && (forall pr, sha, n: nat, pr', sha' :: Recorded(s, pr, sha, n) && Recorded(s, pr', sha', n) ==>
      pr == pr' && sha == sha')
  }

  lemma {:induction false} RecordedAfter(s: State, a: Action, pr: Pr, sha: string, n: nat)
    requires Enabled(s, a)
    ensures Recorded(Next(s, a), pr, sha, n) ==>
      || Recorded(s, pr, sha, n)
      || (a.HSetNx? && s.pending[a.r] == Pending(pr, sha, n))
  {}

  lemma {:induction false} StepKeepsNumbered(s: State, a: Action)
    requires Numbered(s) && Enabled(s, a)
    ensures Numbered(Next(s, a))
  {
    var t := Next(s, a);
    forall pr, sha, n: nat | Recorded(t, pr, sha, n)
      ensures Recorded(s, pr, sha, n) || (a.HSetNx? && s.pending[a.r] == Pending(pr, sha, n))
    {
      RecordedAfter(s, a, pr, sha, n);
    }
    hide Recorded;
  }

  lemma {:induction false} RunIsNumbered(s: State, actions: seq<Action>)
    requires Numbered(s) && IsRun(s, actions)
    ensures Numbered(After(s, actions))
    decreases |actions|
  {
    if actions != [] {
      StepKeepsNumbered(s, actions[0]);
      RunIsNumbered(Next(s, actions[0]), actions[1..]);
    }
  }

  /** In every reachable state no two heads of a pull request share a number. */
  lemma {:induction false} NumbersAreDistinct(actions: seq<Action>, pr: Pr, a: string, b: string)
    requires IsRun(START, actions)
    requires a in HeadsOf(After(START, actions).hashes, pr) && b in HeadsOf(After(START, actions).hashes, pr) && a != b
    ensures HeadsOf(After(START, actions).hashes, pr)[a] != HeadsOf(After(START, actions).hashes, pr)[b]
  {
    RunIsNumbered(START, actions);
    var s := After(START, actions);
    assert Recorded(s, pr, a, HeadsOf(s.hashes, pr)[a]) && Recorded(s, pr, b, HeadsOf(s.hashes, pr)[b]);
  }

  lemma {:induction false} LatestHead(heads: Heads, shas: set<string>) returns (latest: string)
    requires shas != {} && shas <= heads.Keys
    ensures latest in shas && forall sha :: sha in shas ==> heads[sha] <= heads[latest]
  {
    var sha :| sha in shas;
    if shas == {sha} {
      latest := sha;
    } else {
      latest := LatestHead(heads, shas - {sha});
      if heads[latest] < heads[sha] {
        latest := sha;
      }
    }
  }

  /**
   Over any interleaving of the two steps by any number of recorders: as soon as a pull request has a
   recorded head, exactly one of its heads is not superseded.
   */
  lemma {:induction false} ExactlyOneCurrentHead(actions: seq<Action>, pr: Pr) returns (current: string)
    requires IsRun(START, actions) && HeadsOf(After(START, actions).hashes, pr) != map[]
    ensures var heads := HeadsOf(After(START, actions).hashes, pr);
      current in heads && forall sha :: sha in heads ==> (IsSuperseded(heads, sha) <==> sha != current)
  {
    var heads := HeadsOf(After(START, actions).hashes, pr);
    assert heads.Keys != {};
    current := LatestHead(heads, heads.Keys);
    forall sha | sha in heads ensures IsSuperseded(heads, sha) <==> sha != current {
      if sha != current {
        NumbersAreDistinct(actions, pr, sha, current);
      }
    }
  }

  /** Recording without interruption is a run of the two steps, with the effect that the tracker has. */
  lemma {:induction false} RecordIsARun(s: State, r: Recorder, e: Event)
    requires r !in s.pending
    ensures var actions, heads := [Incr(r, e.Pr(), e.headSha), HSetNx(r)], HeadsOf(s.hashes, e.Pr());
      && IsRun(s, actions)
      && After(s, actions) == State(
           s.counter + 1,
           s.hashes[e.Pr() := if e.headSha in heads then heads else heads[e.headSha := s.counter + 1]],
           s.pending)
  {
    var t := Next(s, Incr(r, e.Pr(), e.headSha));
    OneStep(s, Incr(r, e.Pr(), e.headSha));
    OneStep(t, HSetNx(r));
    RunsJoin(s, [Incr(r, e.Pr(), e.headSha)], [HSetNx(r)]);
    assert [Incr(r, e.Pr(), e.headSha)] + [HSetNx(r)] == [Incr(r, e.Pr(), e.headSha), HSetNx(r)];
    assert s.pending[r := Pending(e.Pr(), e.headSha, s.counter + 1)] - {r} == s.pending;
  }

  /** A recorder can be lost between its two steps, and a record can expire, at any time. */
  lemma {:induction false} LossIsAStep(s: State, r: Recorder, pr: Pr)
    ensures r in s.pending ==> Enabled(s, Crash(r)) && Next(s, Crash(r)) == s.(pending := s.pending - {r})
    ensures pr in s.hashes ==> Enabled(s, Expire(pr)) && Next(s, Expire(pr)) == s.(hashes := s.hashes - {pr})
  {}

  predicate Unexpired(actions: seq<Action>, pr: Pr) {
    forall i :: 0 <= i < |actions| ==> actions[i] != Expire(pr)
  }

  /** Without expiry recorded numbers never change. */
  lemma {:induction false} NumbersStay(s: State, actions: seq<Action>, pr: Pr, sha: string, n: nat)
    requires IsRun(s, actions) && Unexpired(actions, pr) && Recorded(s, pr, sha, n)
    ensures Recorded(After(s, actions), pr, sha, n)
    decreases |actions|
  {
    if actions != [] {
      assert actions[0] != Expire(pr);
      NumbersStay(Next(s, actions[0]), actions[1..], pr, sha, n);
    }
  }

  /** A superseded head stays superseded until the pull request's record expires. */
  lemma {:induction false} SupersededStays(s: State, actions: seq<Action>, pr: Pr, sha: string)
    requires IsRun(s, actions) && Unexpired(actions, pr) && IsSuperseded(HeadsOf(s.hashes, pr), sha)
    ensures IsSuperseded(HeadsOf(After(s, actions).hashes, pr), sha)
  {
    var heads := HeadsOf(s.hashes, pr);
    var other :| other in heads && heads[other] > heads[sha];
    NumbersStay(s, actions, pr, sha, heads[sha]);
    NumbersStay(s, actions, pr, other, heads[other]);
  }

  // ---------- redelivery ----------

  // A redelivered head takes a number and gives it away again: a run with the redelivery is the run
  // without it, with every number behind that one moved up by one.

  function Shift(n: nat, c: nat): nat {
    if n <= c then n else n + 1
  }

  function ShiftHeads(heads: Heads, c: nat): Heads {
    map sha | sha in heads :: Shift(heads[sha], c)
  }

  function ShiftPending(p: Pending, c: nat): Pending {
    p.(n := Shift(p.n, c))
  }

  function Shifted(s: State, c: nat): State {
    State(s.counter + 1, map pr | pr in s.hashes :: ShiftHeads(s.hashes[pr], c),
          map r | r in s.pending :: ShiftPending(s.pending[r], c))
  }

  /** The state with one more recorder under way. */
  function With(s: State, r: Recorder, p: Pending): State {
    s.(pending := s.pending[r := p])
  }

  /** The action is not the recorder's. */
  predicate NotBy(a: Action, r: Recorder) {
    a.Expire? || a.r != r
  }

  predicate NoneBy(actions: seq<Action>, r: Recorder) {
    forall i :: 0 <= i < |actions| ==> NotBy(actions[i], r)
  }

  lemma {:induction false} ShiftHeadsOf(s: State, pr: Pr, c: nat)
    ensures HeadsOf(Shifted(s, c).hashes, pr) == ShiftHeads(HeadsOf(s.hashes, pr), c)
  {}

  lemma {:induction false} ShiftSet(heads: Heads, sha: string, n: nat, c: nat)
    ensures ShiftHeads(SetIfAbsent(heads, sha, n), c) == SetIfAbsent(ShiftHeads(heads, c), sha, Shift(n, c))
  {}

  lemma {:induction false} ShiftHSetNx(s: State, r: Recorder, c: nat)
    requires r in s.pending
    ensures Next(Shifted(s, c), HSetNx(r)) == Shifted(Next(s, HSetNx(r)), c)
  {
    hide HeadsOf, ShiftHeads, SetIfAbsent;
    var p := s.pending[r];
    ShiftHeadsOf(s, p.pr, c);
    ShiftSet(HeadsOf(s.hashes, p.pr), p.sha, p.n, c);
    var left, right := Next(Shifted(s, c), HSetNx(r)), Shifted(Next(s, HSetNx(r)), c);
    assert left.hashes == right.hashes;
    assert left.pending == right.pending;
  }

  lemma {:induction false} ShiftOther(s: State, a: Action, c: nat)
    requires Enabled(s, a) && c <= s.counter && !a.HSetNx?
    ensures Next(Shifted(s, c), a) == Shifted(Next(s, a), c)
  {
    hide ShiftHeads, HeadsOf;
    var left, right := Next(Shifted(s, c), a), Shifted(Next(s, a), c);
    assert left.hashes == right.hashes;
    assert left.pending == right.pending;
  }

  lemma {:induction false} ShiftStep(s: State, a: Action, c: nat)
    requires Enabled(s, a) && c <= s.counter
    ensures Enabled(Shifted(s, c), a) && Next(Shifted(s, c), a) == Shifted(Next(s, a), c)
    ensures c <= Next(s, a).counter
  {
    hide ShiftHeads, HeadsOf;
    if a.HSetNx? {
      ShiftHSetNx(s, a.r, c);
    } else {
      ShiftOther(s, a, c);
    }
  }

  lemma {:induction false} ShiftRun(s: State, actions: seq<Action>, c: nat)
    requires IsRun(s, actions) && c <= s.counter
    ensures IsRun(Shifted(s, c), actions) && After(Shifted(s, c), actions) == Shifted(After(s, actions), c)
    decreases |actions|
  {
    hide Shifted, Enabled, Next;
    if actions != [] {
      ShiftStep(s, actions[0], c);
      ShiftRun(Next(s, actions[0]), actions[1..], c);
    }
  }

  lemma {:induction false} WithStep(s: State, a: Action, r: Recorder, p: Pending)
    requires Enabled(s, a) && NotBy(a, r)
    ensures Enabled(With(s, r, p), a) && Next(With(s, r, p), a) == With(Next(s, a), r, p)
    ensures r !in s.pending ==> r !in Next(s, a).pending
  {
    assert Next(With(s, r, p), a).pending == With(Next(s, a), r, p).pending;
  }

  lemma {:induction false} WithRun(s: State, actions: seq<Action>, r: Recorder, p: Pending)
    requires IsRun(s, actions) && NoneBy(actions, r)
    ensures IsRun(With(s, r, p), actions) && After(With(s, r, p), actions) == With(After(s, actions), r, p)
    ensures r !in s.pending ==> r !in After(s, actions).pending
    decreases |actions|
  {
    hide With, Enabled, Next;
    if actions != [] {
      WithStep(s, actions[0], r, p);
      WithRun(Next(s, actions[0]), actions[1..], r, p);
    }
  }

  lemma {:induction false} StartsShifted(s: State, r: Recorder, pr: Pr, sha: string)
    requires Numbered(s) && r !in s.pending
    ensures Next(s, Incr(r, pr, sha)) == With(Shifted(s, s.counter), r, Pending(pr, sha, s.counter + 1))
  {
    forall q | q in s.hashes ensures ShiftHeads(s.hashes[q], s.counter) == s.hashes[q] {
      forall h | h in s.hashes[q] ensures s.hashes[q][h] <= s.counter {
        assert Recorded(s, q, h, s.hashes[q][h]);
      }
    }
    assert Shifted(s, s.counter).hashes == s.hashes && Shifted(s, s.counter).pending == s.pending;
  }

  /** The number is given away: the head keeps the one it has. */
  lemma {:induction false} EndsShifted(t: State, c: nat, r: Recorder, p: Pending)
    requires r !in t.pending && p.sha in HeadsOf(t.hashes, p.pr)
    ensures Enabled(With(Shifted(t, c), r, p), HSetNx(r)) && Next(With(Shifted(t, c), r, p), HSetNx(r)) == Shifted(t, c)
  {
    var u := With(Shifted(t, c), r, p);
    ShiftHeadsOf(t, p.pr, c);
    assert Next(u, HSetNx(r)).hashes == Shifted(t, c).hashes;
    assert Next(u, HSetNx(r)).pending == Shifted(t, c).pending;
  }

  lemma {:induction false} ShiftKeepsVerdict(heads: Heads, c: nat, sha: string)
    ensures IsSuperseded(ShiftHeads(heads, c), sha) <==> IsSuperseded(heads, sha)
  {
    if IsSuperseded(heads, sha) {
      var other :| other in heads && heads[other] > heads[sha];
      assert other in ShiftHeads(heads, c) && ShiftHeads(heads, c)[other] > ShiftHeads(heads, c)[sha];
    }
  }

  lemma {:induction false} RunsJoin(s: State, first: seq<Action>, second: seq<Action>)
    requires IsRun(s, first) && IsRun(After(s, first), second)
    ensures IsRun(s, first + second) && After(s, first + second) == After(After(s, first), second)
    decreases |first|
  {
    if first == [] {
      assert first + second == second;
    } else {
      assert (first + second)[1..] == first[1..] + second;
      RunsJoin(Next(s, first[0]), first[1..], second);
    }
  }

  lemma {:induction false} RunsPart(s: State, first: seq<Action>, second: seq<Action>)
    requires IsRun(s, first + second)
    ensures IsRun(s, first) && IsRun(After(s, first), second)
    ensures After(s, first + second) == After(After(s, first), second)
    decreases |first|
  {
    if first == [] {
      assert first + second == second;
    } else {
      assert (first + second)[1..] == first[1..] + second;
      RunsPart(Next(s, first[0]), first[1..], second);
    }
  }

  lemma {:induction false} OneStep(s: State, a: Action)
    requires Enabled(s, a)
    ensures IsRun(s, [a]) && After(s, [a]) == Next(s, a)
  {
    assert [a][1..] == [] && IsRun(Next(s, a), []);
  }

  /** The run with a redelivery: its two steps stand anywhere, others in between. */
  function Redelivered(r: Recorder, pr: Pr, sha: string, between: seq<Action>, later: seq<Action>): seq<Action> {
    ([Incr(r, pr, sha)] + between) + ([HSetNx(r)] + later)
  }

  lemma {:induction false} RedeliveredRun(s: State, between: seq<Action>, later: seq<Action>, r: Recorder, pr: Pr,
      sha: string)
    requires Numbered(s) && r !in s.pending && sha in HeadsOf(s.hashes, pr)
    requires IsRun(s, between + later) && NoneBy(between, r) && Unexpired(between, pr)
    ensures IsRun(s, Redelivered(r, pr, sha, between, later))
    ensures After(s, Redelivered(r, pr, sha, between, later)) == Shifted(After(s, between + later), s.counter)
  {
    hide IsRun, After, Shifted, With, Next, Enabled, HeadsOf, Numbered;
    var c, p := s.counter, Pending(pr, sha, s.counter + 1);
    RunsPart(s, between, later);
    var t := After(s, between);
    CounterGrows(s, between);
    CanIncr(s, r, pr, sha);
    StartsShifted(s, r, pr, sha);
    OneStep(s, Incr(r, pr, sha));
    ShiftRun(s, between, c);
    WithRun(Shifted(s, c), between, r, p);
    RunsJoin(s, [Incr(r, pr, sha)], between);
    WithRun(s, between, r, p);
    HeadStays(s, between, pr, sha);
    EndsShifted(t, c, r, p);
    OneStep(With(Shifted(t, c), r, p), HSetNx(r));
    ShiftRun(t, later, c);
    RunsJoin(With(Shifted(t, c), r, p), [HSetNx(r)], later);
    RunsJoin(s, [Incr(r, pr, sha)] + between, [HSetNx(r)] + later);
  }

  lemma {:induction false} CanIncr(s: State, r: Recorder, pr: Pr, sha: string)
    requires r !in s.pending
    ensures Enabled(s, Incr(r, pr, sha))
  {}

  lemma {:induction false} HeadStays(s: State, actions: seq<Action>, pr: Pr, sha: string)
    requires IsRun(s, actions) && Unexpired(actions, pr) && sha in HeadsOf(s.hashes, pr)
    ensures sha in HeadsOf(After(s, actions).hashes, pr)
  {
    NumbersStay(s, actions, pr, sha, HeadsOf(s.hashes, pr)[sha]);
  }

  lemma {:induction false} CounterGrows(s: State, actions: seq<Action>)
    requires IsRun(s, actions)
    ensures s.counter <= After(s, actions).counter
    decreases |actions|
  {
    if actions != [] {
      CounterGrows(Next(s, actions[0]), actions[1..]);
    }
  }

  /**
   Redelivery changes nothing: put the two steps of recording a known head again anywhere into a run,
   with any steps of other recorders between them, and in the end the same heads are recorded for every
   pull request, and the same ones are superseded.
   */
  lemma {:induction false} RedeliveryChangesNothing(
      before: seq<Action>, between: seq<Action>, later: seq<Action>, r: Recorder, pr: Pr, sha: string)
    requires IsRun(START, before)
    requires var s := After(START, before);
      && r !in s.pending && sha in HeadsOf(s.hashes, pr)
      && IsRun(s, between + later) && NoneBy(between, r) && Unexpired(between, pr)
    ensures var s := After(START, before);
      && IsRun(s, Redelivered(r, pr, sha, between, later))
      && var with, without := After(s, Redelivered(r, pr, sha, between, later)), After(s, between + later);
      forall q, h ::
        && (h in HeadsOf(with.hashes, q) <==> h in HeadsOf(without.hashes, q))
        && (IsSuperseded(HeadsOf(with.hashes, q), h) <==> IsSuperseded(HeadsOf(without.hashes, q), h))
  {
    hide IsSuperseded, Redelivered, Shifted;
    RunIsNumbered(START, before);
    var s := After(START, before);
    RedeliveredRun(s, between, later, r, pr, sha);
    var without := After(s, between + later);
    forall q, h
      ensures h in HeadsOf(Shifted(without, s.counter).hashes, q) <==> h in HeadsOf(without.hashes, q)
      ensures IsSuperseded(HeadsOf(Shifted(without, s.counter).hashes, q), h)
        <==> IsSuperseded(HeadsOf(without.hashes, q), h)
    {
      ShiftHeadsOf(without, q, s.counter);
      ShiftKeepsVerdict(HeadsOf(without.hashes, q), s.counter, h);
    }
  }

  /** A head is skipped only for a different head of the same pull request with a later number. */
  lemma {:induction false} SkippedForALaterHead(actions: seq<Action>, pr: Pr, sha: string) returns (other: string)
    requires IsRun(START, actions) && IsSuperseded(HeadsOf(After(START, actions).hashes, pr), sha)
    ensures var heads := HeadsOf(After(START, actions).hashes, pr);
      other in heads && other != sha && heads[other] > heads[sha] && !IsSuperseded(heads, other)
  {
    other := ExactlyOneCurrentHead(actions, pr);
    var heads := HeadsOf(After(START, actions).hashes, pr);
    var later :| later in heads && heads[later] > heads[sha];
    assert !IsSuperseded(heads, other);
  }
}
