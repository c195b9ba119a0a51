/**
 The sandbox-probe consumer as a protocol (app/sandbox_probe/consumer.py): a counter that survives
 the process bounds how often a job that keeps killing its worker is run.
 */
module SandboxProbe {
  import opened Wrappers
  import opened Seqs
  import opened Dedup

  type Worker = nat

  datatype Phase =
    | Idle
    | Started(job: Job)              // won try_start
    | Counted(job: Job, n: nat)      // INCR has returned n
    | Running(job: Job)              // runner.run has been invoked
    | HasResult(job: Job)            // a probe result, or inconclusive because of too many attempts
    | Published(job: Job)
    | Marked(job: Job)               // mark_completed has taken effect
    | Failing(job: Job)              // an exception or a cancellation was caught, the delete is due

  datatype State = State(
    keys: Keys, counters: map<Job, nat>, workers: map<Worker, Phase>,
    invocations: map<Job, nat>, expiries: map<Job, nat>)

  const START := State(map[], map[], map[], map[], map[])

  function PhaseOf(s: State, w: Worker): Phase {
    if w in s.workers then s.workers[w] else Idle
  }

  datatype Action =
    | TryStart(w: Worker, job: Job)
    | TryStartLost(w: Worker, job: Job)  // the key was set, but the worker never learnt it
    | Count(w: Worker)
    | CountLost(w: Worker)               // INCR took effect, the worker failed before using it
    | Decide(w: Worker)                  // run the probe, or give up
    | Return(w: Worker)
    | Publish(w: Worker)
    | Mark(w: Worker)
    | Finish(w: Worker)
    | Fail(w: Worker)                    // any exception or cancellation inside the try block
    | DeleteOnFail(w: Worker)
    | Die(w: Worker)                     // crash
    | ExpireKey(job: Job)
    | ExpireCounter(job: Job)

  predicate Enabled(s: State, a: Action) {
    match a
    case TryStart(w, _) => PhaseOf(s, w).Idle?
    case TryStartLost(w, job) => PhaseOf(s, w).Idle? && CanStart(s.keys, job)
    case Count(w) => PhaseOf(s, w).Started?
    case CountLost(w) => PhaseOf(s, w).Started?
    case Decide(w) => PhaseOf(s, w).Counted?
    case Return(w) => PhaseOf(s, w).Running?
    case Publish(w) => PhaseOf(s, w).HasResult?
    case Mark(w) => PhaseOf(s, w).Published?
    case Finish(w) => PhaseOf(s, w).Marked?
    case Fail(w) => !PhaseOf(s, w).Idle? && !PhaseOf(s, w).Failing?
    case DeleteOnFail(w) => PhaseOf(s, w).Failing?
    case Die(w) => !PhaseOf(s, w).Idle?
    case ExpireKey(_) => true
    case ExpireCounter(_) => true
  }

  function Move(s: State, w: Worker, p: Phase): State {
    s.(workers := s.workers[w := p])
  }

  function Next(s: State, a: Action, maxAttempts: nat): State
    requires Enabled(s, a)
  {
    match a
    case TryStart(w, job) =>
      if CanStart(s.keys, job) then Move(s, w, Started(job)).(keys := SetState(s.keys, job, InProgress)) else s
    case TryStartLost(w, job) => s.(keys := SetState(s.keys, job, InProgress))
    case Count(w) =>
      var job := PhaseOf(s, w).job;
      Move(s, w, Counted(job, CountOf(s.counters, job) + 1)).(counters := Add(s.counters, job))
    case CountLost(w) =>
      var job := PhaseOf(s, w).job;
      Move(s, w, Failing(job)).(counters := Add(s.counters, job))
    case Decide(w) =>
      var p := PhaseOf(s, w);
      if p.n > maxAttempts then Move(s, w, HasResult(p.job))
      else Move(s, w, Running(p.job)).(invocations := Add(s.invocations, p.job))
    case Return(w) => Move(s, w, HasResult(PhaseOf(s, w).job))
    case Publish(w) => Move(s, w, Published(PhaseOf(s, w).job))
    case Mark(w) =>
      var job := PhaseOf(s, w).job;
      Move(s, w, Marked(job)).(keys := SetState(s.keys, job, Completed))
    case Finish(w) => Move(s, w, Idle)
    case Fail(w) => Move(s, w, Failing(PhaseOf(s, w).job))
    case DeleteOnFail(w) => Move(s, w, Idle).(keys := Delete(s.keys, PhaseOf(s, w).job))
    case Die(w) => Move(s, w, Idle)
    case ExpireKey(job) => s.(keys := Delete(s.keys, job))
    case ExpireCounter(job) => s.(counters := s.counters - {job}, expiries := Add(s.expiries, job))
  }

  predicate IsRun(s: State, actions: seq<Action>, maxAttempts: nat)
    decreases |actions|
  {
    actions == [] || (Enabled(s, actions[0]) && IsRun(Next(s, actions[0], maxAttempts), actions[1..], maxAttempts))
  }

  function After(s: State, actions: seq<Action>, maxAttempts: nat): State
    requires IsRun(s, actions, maxAttempts)
    decreases |actions|
  {
    if actions == [] then s else After(Next(s, actions[0], maxAttempts), actions[1..], maxAttempts)
  }

  // ---------- the bound ----------

  /** The worker holds a counter value that still lets it invoke the runner. */
  predicate MayRun(p: Phase, j: Job, maxAttempts: nat) {
    p.Counted? && p.job == j && p.n <= maxAttempts
  }

  function Waiting(s: State, j: Job, maxAttempts: nat): set<Worker> {
    set w | w in s.workers && MayRun(s.workers[w], j, maxAttempts)
  }

  /** Every invocation, made or still to come, owns a counter value of its own that is within the limit. */
  predicate Owned(s: State, j: Job, maxAttempts: nat) {
    CountOf(s.invocations, j) + |Waiting(s, j, maxAttempts)|
      <= Min(CountOf(s.counters, j), maxAttempts) + maxAttempts * CountOf(s.expiries, j)
  }

  lemma {:induction false} IsWaiting(s: State, w: Worker, j: Job, maxAttempts: nat)
    ensures w in Waiting(s, j, maxAttempts) <==> MayRun(PhaseOf(s, w), j, maxAttempts)
  {}

  lemma {:induction false} OthersWait(s: State, w: Worker, p: Phase, j: Job, maxAttempts: nat)
    ensures Waiting(Move(s, w, p), j, maxAttempts) - {w} == Waiting(s, j, maxAttempts) - {w}
  {
    hide MayRun;
  }

  lemma {:induction false} WithAndWithout(workers: set<Worker>, w: Worker)
    ensures |workers| == |workers - {w}| + if w in workers then 1 else 0
  {}

  lemma {:induction false} WaitingAfterMove(s: State, w: Worker, p: Phase, j: Job, maxAttempts: nat)
    ensures |Waiting(Move(s, w, p), j, maxAttempts)| == |Waiting(s, j, maxAttempts)|
      - (if MayRun(PhaseOf(s, w), j, maxAttempts) then 1 else 0) + (if MayRun(p, j, maxAttempts) then 1 else 0)
  {
    hide Waiting, MayRun;
    IsWaiting(s, w, j, maxAttempts);
    IsWaiting(Move(s, w, p), w, j, maxAttempts);
    OthersWait(s, w, p, j, maxAttempts);
    WithAndWithout(Waiting(s, j, maxAttempts), w);
    WithAndWithout(Waiting(Move(s, w, p), j, maxAttempts), w);
  }

  lemma {:induction false} OneMoreExpiry(maxAttempts: nat, e: nat)
    ensures maxAttempts * (e + 1) == maxAttempts * e + maxAttempts
  {}

  lemma {:induction false} SameWaiting(s: State, t: State, j: Job, maxAttempts: nat)
    requires s.workers == t.workers
    ensures Waiting(s, j, maxAttempts) == Waiting(t, j, maxAttempts)
  {}

  /** Steps that move no worker: a lost start, and expiry. */
  lemma {:induction false} IdleStepKeepsOwned(s: State, a: Action, j: Job, maxAttempts: nat)
    requires Enabled(s, a) && Owned(s, j, maxAttempts) && (a.ExpireKey? || a.ExpireCounter? || a.TryStartLost?)
    ensures Owned(Next(s, a, maxAttempts), j, maxAttempts)
  {
    hide Waiting;
    OneMoreExpiry(maxAttempts, CountOf(s.expiries, j));
    SameWaiting(s, Next(s, a, maxAttempts), j, maxAttempts);
  }

  lemma {:induction false} StepKeepsOwned(s: State, a: Action, j: Job, maxAttempts: nat)
    requires Enabled(s, a) && Owned(s, j, maxAttempts)
    ensures Owned(Next(s, a, maxAttempts), j, maxAttempts)
  {
    hide Waiting;
    var t := Next(s, a, maxAttempts);
    if a.ExpireKey? || a.ExpireCounter? || a.TryStartLost? {
      IdleStepKeepsOwned(s, a, j, maxAttempts);
    } else if t.workers == s.workers {
      SameWaiting(s, t, j, maxAttempts);
    } else {
      WaitingAfterMove(s, a.w, PhaseOf(t, a.w), j, maxAttempts);
      assert t.expiries == s.expiries;
      assert t.workers == s.workers[a.w := PhaseOf(t, a.w)];
      SameWaiting(t, Move(s, a.w, PhaseOf(t, a.w)), j, maxAttempts);
    }
  }

  lemma {:induction false} RunKeepsOwned(s: State, actions: seq<Action>, j: Job, maxAttempts: nat)
    requires IsRun(s, actions, maxAttempts) && Owned(s, j, maxAttempts)
    ensures Owned(After(s, actions, maxAttempts), j, maxAttempts)
    decreases |actions|
  {
    if actions != [] {
      StepKeepsOwned(s, actions[0], j, maxAttempts);
      RunKeepsOwned(Next(s, actions[0], maxAttempts), actions[1..], j, maxAttempts);
    }
  }

  /**
   Poison-job bound: on every run of crashes, cancellations, redeliveries and key expiries the runner
   is invoked at most `maxAttempts` times per job and lifetime of its counter.
   */
  lemma {:induction false} InvocationsBounded(actions: seq<Action>, j: Job, maxAttempts: nat)
    requires IsRun(START, actions, maxAttempts)
    ensures CountOf(After(START, actions, maxAttempts).invocations, j)
      <= maxAttempts * (1 + CountOf(After(START, actions, maxAttempts).expiries, j))
  {
    assert Waiting(START, j, maxAttempts) == {};
    RunKeepsOwned(START, actions, j, maxAttempts);
    OneMoreExpiry(maxAttempts, CountOf(After(START, actions, maxAttempts).expiries, j));
  }

  predicate CounterLives(actions: seq<Action>) {
    forall i :: 0 <= i < |actions| ==> !actions[i].ExpireCounter?
  }

  lemma {:induction false} NoExpiries(s: State, actions: seq<Action>, maxAttempts: nat)
    requires IsRun(s, actions, maxAttempts) && CounterLives(actions)
    ensures After(s, actions, maxAttempts).expiries == s.expiries
    decreases |actions|
  {
    if actions != [] {
      NoExpiries(Next(s, actions[0], maxAttempts), actions[1..], maxAttempts);
    }
  }

  /** As long as the counter lives, the runner is invoked at most `maxAttempts` times per job. */
  lemma {:induction false} PoisonJobBound(actions: seq<Action>, j: Job, maxAttempts: nat)
    requires IsRun(START, actions, maxAttempts) && CounterLives(actions)
    ensures CountOf(After(START, actions, maxAttempts).invocations, j) <= maxAttempts
  {
    InvocationsBounded(actions, j, maxAttempts);
    NoExpiries(START, actions, maxAttempts);
    assert maxAttempts * (1 + 0) == maxAttempts;
  }

  // ---------- the handler ----------

  const ATTEMPTS_KEY_PREFIX := "ai-review:sandbox-probe-attempts:"

  class AttemptCounter {
    var counts: map<string, nat>

    constructor ()
      ensures counts == map[]
    {
      counts := map[];
    }

    method Incr(key: string) returns (n: nat)
      modifies this
      ensures counts == Add(old(counts), key) && n == CountOf(counts, key)
    {
      counts := Add(counts, key);
      n := CountOf(counts, key);
    }
  }

  datatype ProbeResult = Inconclusive | Probed(status: string)

  /** The awaited calls of a handler; counting includes setting the counter's expiry. */
  datatype Stage = Starting | Counting | InRunner | Publishing | Marking

  /**
   The one call that does not return, by an exception or by cancellation, with or without its effect.
   `deleted` says whether the delete that answers it takes effect.
   */
  datatype Fault = Fault(stage: Stage, tookEffect: bool, deleted: bool)

  predicate At(fault: Option<Fault>, stage: Stage) {
    fault.Some? && fault.value.stage == stage
  }

  /** The attempt is counted, unless the counter fails without effect. */
  predicate IsCounted(fault: Option<Fault>) {
    At(fault, Counting) ==> fault.value.tookEffect
  }

  /** The handler gets as far as invoking the runner, if the attempt is within the limit. */
  predicate Decides(fault: Option<Fault>) {
    !At(fault, Counting)
  }

  /** The fault happens: a runner that is not invoked does not fail. */
  predicate Raises(fault: Option<Fault>, withinLimit: bool) {
    fault.Some? && (fault.value.stage == InRunner ==> withinLimit)
  }

  predicate IsPublished(fault: Option<Fault>, withinLimit: bool) {
    Raises(fault, withinLimit) ==>
      (fault.value.stage == Publishing && fault.value.tookEffect) || fault.value.stage == Marking
  }

  predicate IsMarked(fault: Option<Fault>, withinLimit: bool) {
    Raises(fault, withinLimit) ==> fault.value.stage == Marking && fault.value.tookEffect
  }

  /** What a handler that won try_start leaves of the keys: any exception gives the key back. */
  function KeysAfter(keys: Keys, key: string, fault: Option<Fault>, withinLimit: bool): Keys {
    if Raises(fault, withinLimit) && fault.value.deleted then keys - {key}
    else keys[key := if IsMarked(fault, withinLimit) then Completed else InProgress]
  }

  class SandboxProbeConsumer {
    const dedup: RedisDedupStore
    const counter: AttemptCounter
    const maxAttempts: nat
    var completedTopic: seq<(Job, ProbeResult)>
    var invoked: seq<Job>

    constructor (dedup: RedisDedupStore, counter: AttemptCounter, maxAttempts: nat)
      ensures this.dedup == dedup && this.counter == counter && this.maxAttempts == maxAttempts
      ensures completedTopic == [] && invoked == []
    {
      this.dedup, this.counter, this.maxAttempts := dedup, counter, maxAttempts;
      completedTopic, invoked := [], [];
    }

    /**
     One call, whichever of its awaits fails. A job that is invalid or already started leaves no trace.
     Otherwise its attempt is counted; within the limit the runner is invoked, beyond it the job is
     closed as inconclusive without running. An exception or a cancellation gives the key back.
     */
    method Handle(event: Option<Job>, status: string, fault: Option<Fault>) returns (raised: bool)
      modifies this, dedup.redis, counter
      ensures event.None? || (!At(fault, Starting) && dedup.Key(event.value) in old(dedup.redis.keys)) ==>
        && !raised && dedup.redis.keys == old(dedup.redis.keys) && counter.counts == old(counter.counts)
        && completedTopic == old(completedTopic) && invoked == old(invoked)
      ensures event.Some? && At(fault, Starting) ==>
        && raised && counter.counts == old(counter.counts)
        && completedTopic == old(completedTopic) && invoked == old(invoked)
        && dedup.redis.keys == if fault.value.tookEffect && dedup.Key(event.value) !in old(dedup.redis.keys)
             then old(dedup.redis.keys)[dedup.Key(event.value) := InProgress] else old(dedup.redis.keys)
      ensures event.Some? && !At(fault, Starting) && dedup.Key(event.value) !in old(dedup.redis.keys) ==>
        var job := event.value;
        var within := CountOf(old(counter.counts), ATTEMPTS_KEY_PREFIX + job) + 1 <= maxAttempts;
        && raised == Raises(fault, within)
        && counter.counts
          == (if IsCounted(fault) then Add(old(counter.counts), ATTEMPTS_KEY_PREFIX + job) else old(counter.counts))
        && invoked == old(invoked) + (if within && Decides(fault) then [job] else [])
        && dedup.redis.keys == KeysAfter(old(dedup.redis.keys), dedup.Key(job), fault, within)
        && completedTopic == old(completedTopic) + (
             if IsPublished(fault, within) then [(job, if within then Probed(status) else Inconclusive)] else [])
    {
      if event.None? {
        return false;
      }
      var job := event.value;
      if At(fault, Starting) {
        if fault.value.tookEffect {
          var _ := dedup.TryStart(job);
        }
        return true;
      }
      var acquired := dedup.TryStart(job);
      if !acquired {
        return false;
      }
      raised := Process(job, status, fault);
      if raised && fault.value.deleted {
        dedup.MarkFailed(job);
      }
    }

    /** The try block. */
    method Process(job: Job, status: string, fault: Option<Fault>) returns (raised: bool)
      requires !At(fault, Starting)
      modifies this, dedup.redis, counter
      ensures var within := CountOf(old(counter.counts), ATTEMPTS_KEY_PREFIX + job) + 1 <= maxAttempts;
        && raised == Raises(fault, within)
        && counter.counts
          == (if IsCounted(fault) then Add(old(counter.counts), ATTEMPTS_KEY_PREFIX + job) else old(counter.counts))
        && invoked == old(invoked) + (if within && Decides(fault) then [job] else [])
        && dedup.redis.keys == (
             if IsMarked(fault, within)
               then old(dedup.redis.keys)[dedup.Key(job) := Completed] else old(dedup.redis.keys))
        && completedTopic == old(completedTopic) + (
             if IsPublished(fault, within) then [(job, if within then Probed(status) else Inconclusive)] else [])
    {
      var result := Execute(job, status, fault);
      if result.None? {
        return true;
      }
      if !At(fault, Publishing) || fault.value.tookEffect {
        completedTopic := completedTopic + [(job, result.value)];
      }
      if At(fault, Publishing) {
        return true;
      }
      if !At(fault, Marking) || fault.value.tookEffect {
        dedup.MarkCompleted(job);
      }
      return At(fault, Marking);
    }

    /** Nothing is returned when the counter or the runner fails. */
    method Execute(job: Job, status: string, fault: Option<Fault>) returns (result: Option<ProbeResult>)
      modifies this`invoked, counter
      ensures var within := CountOf(old(counter.counts), ATTEMPTS_KEY_PREFIX + job) + 1 <= maxAttempts;
        && counter.counts
          == (if IsCounted(fault) then Add(old(counter.counts), ATTEMPTS_KEY_PREFIX + job) else old(counter.counts))
        && invoked == old(invoked) + (if within && Decides(fault) then [job] else [])
        && result == if At(fault, Counting) then None
             else if !within then Some(Inconclusive)
             else if At(fault, InRunner) then None else Some(Probed(status))
    {
      if At(fault, Counting) {
        if fault.value.tookEffect {
          var _ := counter.Incr(ATTEMPTS_KEY_PREFIX + job);
        }
        return None;
      }
      var attempts := counter.Incr(ATTEMPTS_KEY_PREFIX + job);
      if attempts > maxAttempts {
        return Some(Inconclusive);
      }
      invoked := invoked + [job];
      return if At(fault, InRunner) then None else Some(Probed(status));
    }
  }

  // ---------- the handler is a run of the protocol ----------

  /** The answer to a failure: the key is given back, unless that fails too. */
  function GiveBack(w: Worker, fault: Fault): Action {
    if fault.deleted then DeleteOnFail(w) else Die(w)
  }

  /** The protocol steps from a result on. */
  function ResultSteps(w: Worker, fault: Option<Fault>): seq<Action> {
    if At(fault, Publishing) then
      (if fault.value.tookEffect then [Publish(w)] else []) + [Fail(w), GiveBack(w, fault.value)]
    else [Publish(w)] + MarkSteps(w, fault)
  }

  function MarkSteps(w: Worker, fault: Option<Fault>): seq<Action> {
    if At(fault, Marking) then
      (if fault.value.tookEffect then [Mark(w)] else []) + [Fail(w), GiveBack(w, fault.value)]
    else [Mark(w)] + [Finish(w)]
  }

  /** The protocol steps of a handler that wins try_start. */
  function HandleSteps(w: Worker, job: Job, fault: Option<Fault>, withinLimit: bool): seq<Action> {
    [TryStart(w, job)]
      + if At(fault, Counting) then
          [if fault.value.tookEffect then CountLost(w) else Fail(w)] + [GiveBack(w, fault.value)]
        else [Count(w)] + ([Decide(w)] + DecidedSteps(w, fault, withinLimit))
  }

  function DecidedSteps(w: Worker, fault: Option<Fault>, withinLimit: bool): seq<Action> {
    if !withinLimit then ResultSteps(w, fault)
    else if At(fault, InRunner) then [Fail(w), GiveBack(w, fault.value)]
    else [Return(w)] + ResultSteps(w, fault)
  }

  /** The actions are a run from `s` after which the worker is done, and keys, counters and invocations are these. */
  predicate Leaves(s: State, w: Worker, actions: seq<Action>, maxAttempts: nat,
                   keys: Keys, counters: map<Job, nat>, invocations: map<Job, nat>) {
    && IsRun(s, actions, maxAttempts)
    && var t := After(s, actions, maxAttempts);
    PhaseOf(t, w).Idle? && t.keys == keys && t.counters == counters && t.invocations == invocations
  }

  lemma {:induction false} LeavesCons(s: State, w: Worker, a: Action, rest: seq<Action>, maxAttempts: nat,
      keys: Keys, counters: map<Job, nat>, invocations: map<Job, nat>)
    requires Enabled(s, a) && Leaves(Next(s, a, maxAttempts), w, rest, maxAttempts, keys, counters, invocations)
    ensures Leaves(s, w, [a] + rest, maxAttempts, keys, counters, invocations)
  {
    hide Enabled, Next;
    assert ([a] + rest)[1..] == rest;
  }

  /** A step that ends the worker's turn. */
  lemma {:induction false} LeavesOne(s: State, w: Worker, a: Action, maxAttempts: nat)
    requires Enabled(s, a) && PhaseOf(Next(s, a, maxAttempts), w).Idle?
    ensures var t := Next(s, a, maxAttempts);
      Leaves(s, w, [a], maxAttempts, t.keys, t.counters, t.invocations)
  {
    hide Enabled, Next;
    var t := Next(s, a, maxAttempts);
    LeavesNothing(t, w, maxAttempts);
    LeavesCons(s, w, a, [], maxAttempts, t.keys, t.counters, t.invocations);
    assert [a] + [] == [a];
  }

  lemma {:induction false} LeavesNothing(s: State, w: Worker, maxAttempts: nat)
    requires PhaseOf(s, w).Idle?
    ensures Leaves(s, w, [], maxAttempts, s.keys, s.counters, s.invocations)
  {}

  lemma {:induction false} FailureLeaves(s: State, w: Worker, job: Job, fault: Fault, maxAttempts: nat)
    requires var p := PhaseOf(s, w); !p.Idle? && !p.Failing? && p.job == job
    ensures Leaves(s, w, [Fail(w), GiveBack(w, fault)], maxAttempts,
                   if fault.deleted then s.keys - {job} else s.keys, s.counters, s.invocations)
  {
    hide Leaves;
    var t := Next(s, Fail(w), maxAttempts);
    LeavesOne(t, w, GiveBack(w, fault), maxAttempts);
    assert [Fail(w)] + [GiveBack(w, fault)] == [Fail(w), GiveBack(w, fault)];
    LeavesCons(s, w, Fail(w), [GiveBack(w, fault)], maxAttempts,
               if fault.deleted then s.keys - {job} else s.keys, s.counters, s.invocations);
  }

  lemma {:induction false} MarkLeaves(s: State, w: Worker, job: Job, fault: Option<Fault>, maxAttempts: nat)
    requires PhaseOf(s, w) == Published(job)
    ensures Leaves(s, w, MarkSteps(w, fault), maxAttempts,
                   if !At(fault, Marking) then s.keys[job := Completed]
                   else if fault.value.deleted then s.keys - {job}
                   else if fault.value.tookEffect then s.keys[job := Completed] else s.keys,
                   s.counters, s.invocations)
  {
    hide Leaves;
    var t := Next(s, Mark(w), maxAttempts);
    if !At(fault, Marking) {
      LeavesOne(t, w, Finish(w), maxAttempts);
      LeavesCons(s, w, Mark(w), [Finish(w)], maxAttempts, t.keys, s.counters, s.invocations);
    } else if fault.value.tookEffect {
      FailureLeaves(t, w, job, fault.value, maxAttempts);
      var keys := if fault.value.deleted then t.keys - {job} else t.keys;
      assert t.keys - {job} == s.keys - {job};
      LeavesCons(s, w, Mark(w), [Fail(w), GiveBack(w, fault.value)], maxAttempts, keys, s.counters, s.invocations);
    } else {
      FailureLeaves(s, w, job, fault.value, maxAttempts);
      assert [] + [Fail(w), GiveBack(w, fault.value)] == [Fail(w), GiveBack(w, fault.value)];
    }
  }

  /** `withinLimit` matters here for a failure of the runner only, and that is behind. */
  lemma {:induction false} ResultLeaves(
      s: State, w: Worker, job: Job, fault: Option<Fault>, withinLimit: bool, maxAttempts: nat)
    requires PhaseOf(s, w) == HasResult(job) && !At(fault, Starting) && !At(fault, Counting)
    requires At(fault, InRunner) ==> !withinLimit
    requires job in s.keys && s.keys[job] == InProgress
    ensures Leaves(s, w, ResultSteps(w, fault), maxAttempts,
                   KeysAfter(s.keys, job, fault, withinLimit), s.counters, s.invocations)
  {
    hide Leaves, MarkSteps;
    var t := Next(s, Publish(w), maxAttempts);
    assert s.keys[job := InProgress] == s.keys;
    if At(fault, Publishing) {
      var failure := [Fail(w), GiveBack(w, fault.value)];
      if fault.value.tookEffect {
        FailureLeaves(t, w, job, fault.value, maxAttempts);
        LeavesCons(s, w, Publish(w), failure, maxAttempts,
                   KeysAfter(s.keys, job, fault, withinLimit), s.counters, s.invocations);
      } else {
        FailureLeaves(s, w, job, fault.value, maxAttempts);
        assert [] + failure == failure;
      }
    } else {
      MarkLeaves(t, w, job, fault, maxAttempts);
      LeavesCons(s, w, Publish(w), MarkSteps(w, fault), maxAttempts,
                 KeysAfter(s.keys, job, fault, withinLimit), s.counters, s.invocations);
    }
  }

  lemma {:induction false} DecisionLeaves(s: State, w: Worker, job: Job, n: nat, fault: Option<Fault>, maxAttempts: nat)
    requires PhaseOf(s, w) == Counted(job, n) && !At(fault, Starting) && !At(fault, Counting)
    requires job in s.keys && s.keys[job] == InProgress
    ensures Leaves(s, w, [Decide(w)] + DecidedSteps(w, fault, n <= maxAttempts), maxAttempts,
                   KeysAfter(s.keys, job, fault, n <= maxAttempts), s.counters,
                   if n <= maxAttempts then Add(s.invocations, job) else s.invocations)
  {
    hide Leaves, ResultSteps;
    var within, t := n <= maxAttempts, Next(s, Decide(w), maxAttempts);
    var keys := KeysAfter(s.keys, job, fault, within);
    if !within {
      ResultLeaves(t, w, job, fault, within, maxAttempts);
    } else if At(fault, InRunner) {
      FailureLeaves(t, w, job, fault.value, maxAttempts);
      assert s.keys[job := InProgress] == s.keys;
    } else {
      ResultLeaves(Next(t, Return(w), maxAttempts), w, job, fault, within, maxAttempts);
      LeavesCons(t, w, Return(w), ResultSteps(w, fault), maxAttempts, keys, t.counters, t.invocations);
    }
    LeavesCons(s, w, Decide(w), DecidedSteps(w, fault, within), maxAttempts, keys, t.counters, t.invocations);
  }

  lemma {:induction false} CountingLeaves(s: State, w: Worker, job: Job, fault: Fault, maxAttempts: nat)
    requires PhaseOf(s, w) == Started(job)
    ensures Leaves(s, w, [if fault.tookEffect then CountLost(w) else Fail(w)] + [GiveBack(w, fault)], maxAttempts,
                   if fault.deleted then s.keys - {job} else s.keys,
                   if fault.tookEffect then Add(s.counters, job) else s.counters, s.invocations)
  {
    hide Leaves;
    var a := if fault.tookEffect then CountLost(w) else Fail(w);
    var u := Next(s, a, maxAttempts);
    LeavesOne(u, w, GiveBack(w, fault), maxAttempts);
    LeavesCons(s, w, a, [GiveBack(w, fault)], maxAttempts,
               if fault.deleted then s.keys - {job} else s.keys, u.counters, u.invocations);
  }

  lemma {:induction false} CountedLeaves(s: State, w: Worker, job: Job, fault: Option<Fault>, maxAttempts: nat)
    requires PhaseOf(s, w) == Started(job) && !At(fault, Starting) && !At(fault, Counting)
    requires job in s.keys && s.keys[job] == InProgress
    ensures var within := CountOf(s.counters, job) + 1 <= maxAttempts;
      Leaves(s, w, [Count(w)] + ([Decide(w)] + DecidedSteps(w, fault, within)), maxAttempts,
             KeysAfter(s.keys, job, fault, within), Add(s.counters, job),
             if within then Add(s.invocations, job) else s.invocations)
  {
    hide Leaves, DecidedSteps, KeysAfter;
    var within, u := CountOf(s.counters, job) + 1 <= maxAttempts, Next(s, Count(w), maxAttempts);
    DecisionLeaves(u, w, job, CountOf(s.counters, job) + 1, fault, maxAttempts);
    LeavesCons(s, w, Count(w), [Decide(w)] + DecidedSteps(w, fault, within), maxAttempts,
               KeysAfter(s.keys, job, fault, within), Add(s.counters, job),
               if within then Add(s.invocations, job) else s.invocations);
  }

  lemma {:induction false} KeysFromStarted(keys: Keys, job: Job, fault: Option<Fault>, withinLimit: bool)
    requires job !in keys
    ensures KeysAfter(keys[job := InProgress], job, fault, withinLimit) == KeysAfter(keys, job, fault, withinLimit)
  {
    assert keys[job := InProgress] - {job} == keys - {job};
  }

  /**
   Whatever await fails, the steps of a handler are a run of the protocol, and they leave the keys, the
   attempts and the invocations that the handler leaves.
   */
  lemma {:induction false} HandleIsARun(s: State, w: Worker, job: Job, fault: Option<Fault>, maxAttempts: nat)
    requires PhaseOf(s, w).Idle? && job !in s.keys && !At(fault, Starting)
    ensures var within := CountOf(s.counters, job) + 1 <= maxAttempts;
      Leaves(s, w, HandleSteps(w, job, fault, within), maxAttempts,
             KeysAfter(s.keys, job, fault, within),
             if IsCounted(fault) then Add(s.counters, job) else s.counters,
             if within && Decides(fault) then Add(s.invocations, job) else s.invocations)
  {
    hide Leaves, DecidedSteps, Add;
    var within := CountOf(s.counters, job) + 1 <= maxAttempts;
    var t := Next(s, TryStart(w, job), maxAttempts);
    var rest := HandleSteps(w, job, fault, within)[1..];
    KeysFromStarted(s.keys, job, fault, within);
    if At(fault, Counting) {
      CountingLeaves(t, w, job, fault.value, maxAttempts);
    } else {
      CountedLeaves(t, w, job, fault, maxAttempts);
    }
    LeavesCons(s, w, TryStart(w, job), rest, maxAttempts, KeysAfter(s.keys, job, fault, within),
               if IsCounted(fault) then Add(s.counters, job) else s.counters,
               if within && Decides(fault) then Add(s.invocations, job) else s.invocations);
  }

  /** What no handler does by itself: a start whose reply is lost, a crash, and expiry can happen at any time. */
  lemma {:induction false} LossIsAStep(s: State, w: Worker, job: Job, maxAttempts: nat)
    ensures PhaseOf(s, w).Idle? && job !in s.keys ==>
      && Enabled(s, TryStartLost(w, job))
      && Next(s, TryStartLost(w, job), maxAttempts) == s.(keys := s.keys[job := InProgress])
    ensures !PhaseOf(s, w).Idle? ==>
      && Enabled(s, Die(w)) && PhaseOf(Next(s, Die(w), maxAttempts), w).Idle?
      && Next(s, Die(w), maxAttempts).keys == s.keys && Next(s, Die(w), maxAttempts).counters == s.counters
    ensures Enabled(s, ExpireKey(job)) && Next(s, ExpireKey(job), maxAttempts) == s.(keys := s.keys - {job})
    ensures Enabled(s, ExpireCounter(job)) && job !in Next(s, ExpireCounter(job), maxAttempts).counters
      && Next(s, ExpireCounter(job), maxAttempts).keys == s.keys
  {}
}
