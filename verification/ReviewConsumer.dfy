/**
 The review consumer as a protocol (app/kafka/consumer.py over app/review/dedup.py): any number of
 workers take atomic steps over shared keys, with redelivery, crashes, cancellation at every await,
 and key expiry. A Redis command can take effect and still be cancelled before its reply is seen.
 */
module ReviewConsumer {
  import opened Wrappers
  import opened Dedup

  type Worker = nat

  /** Where a worker stands in `handle`. */
  datatype Phase =
    | Idle
    | Working(job: Job)                                   // won try_start, pipeline running
    | Published(job: Job)                                 // publish_completed has taken effect
    | Marked(job: Job)                                    // mark_completed has taken effect, saving the record
    | FailPublished(job: Job)                             // publish_failed has taken effect, saving the record
    | Releasing(job: Job)                                 // its mark_failed has taken effect, reply awaited
    | Cancelling(job: Job, published: bool, released: bool) // cancelled, the delete of the except branch is due

  datatype State = State(keys: Keys, workers: map<Worker, Phase>, publishes: map<Job, nat>, reopenings: map<Job, nat>)

  const START := State(map[], map[], map[], map[])

  function PhaseOf(s: State, w: Worker): Phase {
    if w in s.workers then s.workers[w] else Idle
  }

  datatype Action =
    | TryStart(w: Worker, job: Job)       // also a redelivered message; does nothing but skip when the key is set
    | TryStartLost(w: Worker, job: Job)   // the key was set, but the worker never learnt it
    | PublishCompleted(w: Worker)
    | MarkCompleted(w: Worker)
    | PublishFailed(w: Worker)
    | Release(w: Worker)                  // mark_failed on the failure path takes effect
    | Finish(w: Worker)                   // the handler returns
    | Cancel(w: Worker)                   // CancelledError is raised inside the try block
    | DeleteOnCancel(w: Worker)           // mark_failed of the except branch takes effect
    | Die(w: Worker)                      // crash, or any other exception: the handler ends, keys stay
    | Expire(job: Job)

  predicate Enabled(s: State, a: Action) {
    match a
    case TryStart(w, _) => PhaseOf(s, w).Idle?
    case TryStartLost(w, job) => PhaseOf(s, w).Idle? && CanStart(s.keys, job)
    case PublishCompleted(w) => PhaseOf(s, w).Working?
    case MarkCompleted(w) => PhaseOf(s, w).Published?
    case PublishFailed(w) => PhaseOf(s, w).Working?
    case Release(w) => PhaseOf(s, w).FailPublished?
    case Finish(w) => PhaseOf(s, w).Marked? || PhaseOf(s, w).Releasing?
    case Cancel(w) => !PhaseOf(s, w).Idle? && !PhaseOf(s, w).Cancelling?
    case DeleteOnCancel(w) => PhaseOf(s, w).Cancelling?
    case Die(w) => !PhaseOf(s, w).Idle?
    case Expire(job) => job in s.keys
  }

  function Move(s: State, w: Worker, p: Phase): State {
    s.(workers := s.workers[w := p])
  }

  /** What is due after cancellation in a phase. */
  function Cancelled(p: Phase): Phase
    requires !p.Idle? && !p.Cancelling?
  {
    Cancelling(p.job, p.Published? || p.Marked?, p.Releasing?)
  }

  /** A delete that can reopen a settled job: its worker had published, or had already given the key back. */
  predicate IsLate(p: Phase) {
    p.Cancelling? && (p.published || p.released)
  }

  function Next(s: State, a: Action): State
    requires Enabled(s, a)
  {
    match a
    case TryStart(w, job) =>
      if CanStart(s.keys, job) then Move(s, w, Working(job)).(keys := SetState(s.keys, job, InProgress)) else s
    case TryStartLost(w, job) => s.(keys := SetState(s.keys, job, InProgress))
    case PublishCompleted(w) =>
      var job := PhaseOf(s, w).job;
      Move(s, w, Published(job)).(publishes := Add(s.publishes, job))
    case MarkCompleted(w) =>
      var job := PhaseOf(s, w).job;
      Move(s, w, Marked(job)).(keys := SetState(s.keys, job, Completed))
    case PublishFailed(w) => Move(s, w, FailPublished(PhaseOf(s, w).job))
    case Release(w) =>
      var job := PhaseOf(s, w).job;
      Move(s, w, Releasing(job)).(keys := Delete(s.keys, job))
    case Finish(w) => Move(s, w, Idle)
    case Cancel(w) => Move(s, w, Cancelled(PhaseOf(s, w)))
    case DeleteOnCancel(w) =>
      var p := PhaseOf(s, w);
      Move(s, w, Idle).(
        keys := Delete(s.keys, p.job),
        reopenings := if IsLate(p) then Add(s.reopenings, p.job) else s.reopenings)
    case Die(w) => Move(s, w, Idle)
    case Expire(job) => s.(keys := Delete(s.keys, job), reopenings := Add(s.reopenings, job))
  }

  /** A run: enabled actions, one after the other. */
  predicate IsRun(s: State, actions: seq<Action>)
    decreases |actions|
  {
    actions == [] || (Enabled(s, actions[0]) && IsRun(Next(s, actions[0]), actions[1..]))
  }

  function After(s: State, actions: seq<Action>): State
    requires IsRun(s, actions)
    decreases |actions|
  {
    if actions == [] then s else After(Next(s, actions[0]), actions[1..])
  }

  // ---------- mutual exclusion ----------

  /** Between a successful try_start and the moment its own mark_failed takes effect or its handler ends. */
  predicate Holds(p: Phase, j: Job) {
    !p.Idle? && !p.Releasing? && p.job == j && !(p.Cancelling? && p.released)
  }

  /** Every holder's key is present, and no job has two holders. */
  ghost predicate Exclusive(s: State) {
    && (forall w, j :: Holds(PhaseOf(s, w), j) ==> j in s.keys)
    && (forall v, w, j :: Holds(PhaseOf(s, v), j) && Holds(PhaseOf(s, w), j) ==> v == w)
  }

  /** A worker that has already given its key back deletes the key again, and someone else holds it by now. */
  ghost predicate TakesKeyFromHolder(s: State, a: Action) {
    && a.DeleteOnCancel? && PhaseOf(s, a.w).Cancelling? && PhaseOf(s, a.w).released
    && exists v :: Holds(PhaseOf(s, v), PhaseOf(s, a.w).job)
  }

  /** An expiring key has a holder. */
  ghost predicate ExpiresUnderHolder(s: State, a: Action) {
    a.Expire? && exists v :: Holds(PhaseOf(s, v), a.job)
  }

  /**
   Exactly which steps break mutual exclusion: a second delete that meets another holder, and the
   expiry of a held key. Everything else, cancellation and crashes included, keeps it.
   */
  lemma {:induction false} StepKeepsExclusionIff(s: State, a: Action)
    requires Exclusive(s) && Enabled(s, a)
    ensures Exclusive(Next(s, a)) <==> !TakesKeyFromHolder(s, a) && !ExpiresUnderHolder(s, a)
  {
    var t := Next(s, a);
    if a.Expire? {
      assert forall v :: PhaseOf(t, v) == PhaseOf(s, v);
    } else {
      assert forall v :: v != a.w ==> PhaseOf(t, v) == PhaseOf(s, v);
      if TakesKeyFromHolder(s, a) {
        var v :| Holds(PhaseOf(s, v), PhaseOf(s, a.w).job);
        assert v != a.w && Holds(PhaseOf(t, v), PhaseOf(s, a.w).job);
      }
    }
  }

  /** Exclusion holds in the state and in every state the run comes through. */
  ghost predicate StaysExclusive(s: State, actions: seq<Action>)
    requires IsRun(s, actions)
    decreases |actions|
  {
    Exclusive(s) && (actions == [] || StaysExclusive(Next(s, actions[0]), actions[1..]))
  }

  /** No step of the run takes a key from a holder, neither by a second delete nor by expiry. */
  ghost predicate TakesNoHeldKey(s: State, actions: seq<Action>)
    requires IsRun(s, actions)
    decreases |actions|
  {
    actions == [] ||
    (!TakesKeyFromHolder(s, actions[0]) && !ExpiresUnderHolder(s, actions[0])
      && TakesNoHeldKey(Next(s, actions[0]), actions[1..]))
  }

  /** From an exclusive state, a run stays exclusive throughout exactly when none of its steps takes a held key. */
  lemma {:induction false} RunIsExclusiveIff(s: State, actions: seq<Action>)
    requires IsRun(s, actions) && Exclusive(s)
    ensures StaysExclusive(s, actions) <==> TakesNoHeldKey(s, actions)
    decreases |actions|
  {
    hide Exclusive, TakesKeyFromHolder, ExpiresUnderHolder, Enabled, Next;
    if actions != [] {
      StepKeepsExclusionIff(s, actions[0]);
      if Exclusive(Next(s, actions[0])) {
        RunIsExclusiveIff(Next(s, actions[0]), actions[1..]);
      } else {
        assert !StaysExclusive(Next(s, actions[0]), actions[1..]);
      }
    }
  }

  lemma {:induction false} StaysExclusiveToTheEnd(s: State, actions: seq<Action>)
    requires IsRun(s, actions) && StaysExclusive(s, actions)
    ensures Exclusive(After(s, actions))
    decreases |actions|
  {
    hide Exclusive;
    if actions != [] {
      StaysExclusiveToTheEnd(Next(s, actions[0]), actions[1..]);
    }
  }

  /**
   Mutual exclusion: with any number of workers, redeliveries, crashes and cancellations, on every run
   that takes no held key, at most one worker holds a job, and its key is present until that worker's
   own mark_failed takes effect.
   */
  lemma {:induction false} MutualExclusion(actions: seq<Action>, v: Worker, w: Worker, j: Job)
    requires IsRun(START, actions) && TakesNoHeldKey(START, actions)
    requires Holds(PhaseOf(After(START, actions), v), j)
    ensures j in After(START, actions).keys
    ensures Holds(PhaseOf(After(START, actions), w), j) ==> v == w
  {
    RunIsExclusiveIff(START, actions);
    StaysExclusiveToTheEnd(START, actions);
  }

  /** No key expires, and no cancellation arrives between a mark_failed and its reply. */
  predicate Calm(s: State, actions: seq<Action>)
    requires IsRun(s, actions)
    decreases |actions|
  {
    actions == [] ||
    (!actions[0].Expire? && !(actions[0].Cancel? && PhaseOf(s, actions[0].w).Releasing?)
      && Calm(Next(s, actions[0]), actions[1..]))
  }

  /** No worker has given its key back and is about to delete it again. */
  ghost predicate NoneReleasedTwice(s: State) {
    forall w :: PhaseOf(s, w).Cancelling? ==> !PhaseOf(s, w).released
  }

  /** What a reader of the actions can check: a calm run takes no held key. */
  lemma {:induction false} CalmRunTakesNoHeldKey(s: State, actions: seq<Action>)
    requires IsRun(s, actions) && Calm(s, actions) && NoneReleasedTwice(s)
    ensures TakesNoHeldKey(s, actions)
    decreases |actions|
  {
    if actions != [] {
      var a := actions[0];
      assert forall v :: !a.Expire? && v != a.w ==> PhaseOf(Next(s, a), v) == PhaseOf(s, v);
      CalmRunTakesNoHeldKey(Next(s, a), actions[1..]);
    }
  }

  /** A worker that has given its key back and waits for the reply. */
  function ReleasedBy0(j: Job): State {
    State(map[], map[0 := Releasing(j)], map[], map[])
  }

  lemma {:induction false} Releases(j: Job)
    ensures var first := [TryStart(0, j), PublishFailed(0), Release(0)];
      IsRun(START, first) && After(START, first) == ReleasedBy0(j)
  {
    hide IsRun, After;
    ThreeSteps(START, [TryStart(0, j), PublishFailed(0), Release(0)]);
    assert After(START, [TryStart(0, j), PublishFailed(0), Release(0)]) == ReleasedBy0(j);
  }

  lemma {:induction false} SecondDelete(j: Job)
    ensures var second := [TryStart(1, j), Cancel(0), DeleteOnCancel(0), TryStart(2, j)];
      && IsRun(ReleasedBy0(j), second)
      && Holds(PhaseOf(After(ReleasedBy0(j), second), 1), j) && Holds(PhaseOf(After(ReleasedBy0(j), second), 2), j)
  {
    hide IsRun, After;
    FourSteps(ReleasedBy0(j), [TryStart(1, j), Cancel(0), DeleteOnCancel(0), TryStart(2, j)]);
  }

  /**
   Without expiry exclusion can still break: a worker cancelled while it waits for the reply of its
   mark_failed deletes the key a second time, from under the next holder, and a third worker starts
   beside that one.
   */
  lemma {:induction false} CancelledReleaseBreaksExclusion(j: Job) returns (actions: seq<Action>)
    ensures IsRun(START, actions) && forall i :: 0 <= i < |actions| ==> !actions[i].Expire?
    ensures Holds(PhaseOf(After(START, actions), 1), j) && Holds(PhaseOf(After(START, actions), 2), j)
  {
    hide IsRun, After, PhaseOf, Holds, ReleasedBy0;
    var first := [TryStart(0, j), PublishFailed(0), Release(0)];
    var second := [TryStart(1, j), Cancel(0), DeleteOnCancel(0), TryStart(2, j)];
    Releases(j);
    SecondDelete(j);
    RunsJoin(START, first, second);
    actions := first + second;
  }

  lemma {:induction false} RunsJoin(s: State, first: seq<Action>, second: seq<Action>)
    requires IsRun(s, first) && IsRun(After(s, first), second)
    ensures IsRun(s, first + second) && After(s, first + second) == After(After(s, first), second)
    decreases |first|
  {
    if first == [] {
      assert first + second == second;
    } else {
      assert (first + second)[1..] == first[1..] + second;
      RunsJoin(Next(s, first[0]), first[1..], second);
    }
  }

  lemma {:induction false} ThreeSteps(s: State, actions: seq<Action>)
    requires |actions| == 3 && Enabled(s, actions[0]) && Enabled(Next(s, actions[0]), actions[1])
    requires Enabled(Next(Next(s, actions[0]), actions[1]), actions[2])
    ensures IsRun(s, actions) && After(s, actions) == Next(Next(Next(s, actions[0]), actions[1]), actions[2])
  {
    hide IsRun, After, Next, Enabled;
    var s1 := Next(s, actions[0]);
    var s2 := Next(s1, actions[1]);
    Done(Next(s2, actions[2]));
    assert actions[1..][0] == actions[1] && actions[2..][0] == actions[2];
    assert actions[1..][1..] == actions[2..] && actions[2..][1..] == [];
    Unroll(s2, actions[2..]);
    Unroll(s1, actions[1..]);
    Unroll(s, actions);
  }

  lemma {:induction false} FourSteps(s: State, actions: seq<Action>)
    requires |actions| == 4 && Enabled(s, actions[0]) && Enabled(Next(s, actions[0]), actions[1])
    requires Enabled(Next(Next(s, actions[0]), actions[1]), actions[2])
    requires Enabled(Next(Next(Next(s, actions[0]), actions[1]), actions[2]), actions[3])
    ensures IsRun(s, actions)
    ensures After(s, actions) == Next(Next(Next(Next(s, actions[0]), actions[1]), actions[2]), actions[3])
  {
    hide IsRun, After, Next, Enabled;
    var tail := actions[1..];
    assert tail[0] == actions[1] && tail[1] == actions[2] && tail[2] == actions[3];
    ThreeSteps(Next(s, actions[0]), tail);
    Unroll(s, actions);
  }

  lemma {:induction false} Done(s: State)
    ensures IsRun(s, []) && After(s, []) == s
  {}

  lemma {:induction false} Unroll(s: State, actions: seq<Action>)
    requires actions != [] && Enabled(s, actions[0])
    requires IsRun(Next(s, actions[0]), actions[1..])
    ensures IsRun(s, actions) && After(s, actions) == After(Next(s, actions[0]), actions[1..])
  {}

  // ---------- how often a job is completed ----------

  /** The worker has started the job and neither published a completion nor given the key back. */
  predicate Unpublished(p: Phase, j: Job) {
    Holds(p, j) && (p.Working? || p.FailPublished? || (p.Cancelling? && !p.published))
  }

  function UnpublishedWorkers(s: State, j: Job): set<Worker> {
    set w | w in s.workers && Unpublished(s.workers[w], j)
  }

  /** Publications made and still possible are paid for by the key and the reopenings. */
  predicate Paid(s: State, j: Job) {
    CountOf(s.publishes, j) + |UnpublishedWorkers(s, j)|
      <= CountOf(s.reopenings, j) + if j in s.keys then 1 else 0
  }

  lemma {:induction false} UnpublishedAfterMove(s: State, w: Worker, p: Phase, j: Job)
    ensures |UnpublishedWorkers(Move(s, w, p), j)| == |UnpublishedWorkers(s, j)|
      - (if Unpublished(PhaseOf(s, w), j) then 1 else 0) + (if Unpublished(p, j) then 1 else 0)
  {
    var before, after := UnpublishedWorkers(s, j), UnpublishedWorkers(Move(s, w, p), j);
    var others := before - {w};
    assert after == if Unpublished(p, j) then others + {w} else others;
    assert before == if Unpublished(PhaseOf(s, w), j) then others + {w} else others;
  }

  lemma {:induction false} StepStaysPaid(s: State, a: Action, j: Job)
    requires Enabled(s, a) && Paid(s, j)
    ensures Paid(Next(s, a), j)
  {
    var t := Next(s, a);
    if a.Expire? || a.TryStartLost? {
      assert UnpublishedWorkers(t, j) == UnpublishedWorkers(s, j);
    } else {
      UnpublishedAfterMove(s, a.w, PhaseOf(t, a.w), j);
      assert t.workers == s.workers || t.workers == s.workers[a.w := PhaseOf(t, a.w)];
      assert UnpublishedWorkers(t, j) == UnpublishedWorkers(Move(s, a.w, PhaseOf(t, a.w)), j)
        || UnpublishedWorkers(t, j) == UnpublishedWorkers(s, j);
    }
  }

  lemma {:induction false} RunStaysPaid(s: State, actions: seq<Action>, j: Job)
    requires IsRun(s, actions) && Paid(s, j)
    ensures Paid(After(s, actions), j)
    decreases |actions|
  {
    if actions != [] {
      StepStaysPaid(s, actions[0], j);
      RunStaysPaid(Next(s, actions[0]), actions[1..], j);
    }
  }

  /**
   On every run, whatever is cancelled, crashes or expires: completions published for a job exceed
   its reopenings by at most one.
   */
  lemma {:induction false} CompletionsBounded(actions: seq<Action>, j: Job)
    requires IsRun(START, actions)
    ensures CountOf(After(START, actions).publishes, j) <= 1 + CountOf(After(START, actions).reopenings, j)
  {
    assert UnpublishedWorkers(START, j) == {};
    RunStaysPaid(START, actions, j);
  }

  /** Publications of the job made and still possible. */
  function Publications(s: State, j: Job): nat {
    CountOf(s.publishes, j) + |UnpublishedWorkers(s, j)|
  }

  /** At most one publication is made or possible, and none without the key. */
  predicate Settled(s: State, j: Job) {
    Publications(s, j) <= if j in s.keys then 1 else 0
  }

  /** The key of a job that is published, or may still be, is deleted late or expires. */
  predicate Reopens(s: State, a: Action, j: Job) {
    && Publications(s, j) > 0
    && (a == Expire(j) || (a.DeleteOnCancel? && IsLate(PhaseOf(s, a.w)) && PhaseOf(s, a.w).job == j))
  }

  /** Exactly which steps unsettle a job. */
  lemma {:induction false} StepSettlesIff(s: State, a: Action, j: Job)
    requires Settled(s, j) && Enabled(s, a)
    ensures Settled(Next(s, a), j) <==> !Reopens(s, a, j)
  {
    var t := Next(s, a);
    if a.Expire? || a.TryStartLost? {
      assert UnpublishedWorkers(t, j) == UnpublishedWorkers(s, j);
    } else {
      UnpublishedAfterMove(s, a.w, PhaseOf(t, a.w), j);
      assert t.workers == s.workers || t.workers == s.workers[a.w := PhaseOf(t, a.w)];
      assert UnpublishedWorkers(t, j) == UnpublishedWorkers(Move(s, a.w, PhaseOf(t, a.w)), j)
        || UnpublishedWorkers(t, j) == UnpublishedWorkers(s, j);
    }
  }

  predicate StaysSettled(s: State, actions: seq<Action>, j: Job)
    requires IsRun(s, actions)
    decreases |actions|
  {
    Settled(s, j) && (actions == [] || StaysSettled(Next(s, actions[0]), actions[1..], j))
  }

  predicate NeverReopens(s: State, actions: seq<Action>, j: Job)
    requires IsRun(s, actions)
    decreases |actions|
  {
    actions == [] || (!Reopens(s, actions[0], j) && NeverReopens(Next(s, actions[0]), actions[1..], j))
  }

  /** From a settled state, a job stays settled throughout a run exactly when no step of the run reopens it. */
  lemma {:induction false} RunSettlesIff(s: State, actions: seq<Action>, j: Job)
    requires IsRun(s, actions) && Settled(s, j)
    ensures StaysSettled(s, actions, j) <==> NeverReopens(s, actions, j)
    decreases |actions|
  {
    hide Settled, Reopens, Enabled, Next;
    if actions != [] {
      StepSettlesIff(s, actions[0], j);
      if Settled(Next(s, actions[0]), j) {
        RunSettlesIff(Next(s, actions[0]), actions[1..], j);
      } else {
        assert !StaysSettled(Next(s, actions[0]), actions[1..], j);
      }
    }
  }

  lemma {:induction false} StaysSettledToTheEnd(s: State, actions: seq<Action>, j: Job)
    requires IsRun(s, actions) && StaysSettled(s, actions, j)
    ensures Settled(After(s, actions), j)
    decreases |actions|
  {
    hide Settled;
    if actions != [] {
      StaysSettledToTheEnd(Next(s, actions[0]), actions[1..], j);
    }
  }

  /** A job that no step reopens is published at most once, whatever else is cancelled, crashes or expires. */
  lemma {:induction false} AtMostOneCompletion(actions: seq<Action>, j: Job)
    requires IsRun(START, actions) && NeverReopens(START, actions, j)
    ensures CountOf(After(START, actions).publishes, j) <= 1
  {
    assert UnpublishedWorkers(START, j) == {};
    RunSettlesIff(START, actions, j);
    StaysSettledToTheEnd(START, actions, j);
  }

  /** The job's key does not expire, and no handler of it is cancelled behind its publication or its mark_failed. */
  predicate Quiet(s: State, actions: seq<Action>, j: Job)
    requires IsRun(s, actions)
    decreases |actions|
  {
    actions == [] ||
    (actions[0] != Expire(j) && !(actions[0].Cancel? && CancelsLate(PhaseOf(s, actions[0].w), j))
      && Quiet(Next(s, actions[0]), actions[1..], j))
  }

  predicate CancelsLate(p: Phase, j: Job) {
    (p.Published? || p.Marked? || p.Releasing?) && p.job == j
  }

  /** No late delete of the job is due. */
  ghost predicate NoneLate(s: State, j: Job) {
    forall w :: IsLate(PhaseOf(s, w)) ==> PhaseOf(s, w).job != j
  }

  lemma {:induction false} StepStaysNoneLate(s: State, a: Action, j: Job)
    requires Enabled(s, a) && NoneLate(s, j)
    requires a.Cancel? ==> !CancelsLate(PhaseOf(s, a.w), j)
    ensures NoneLate(Next(s, a), j)
  {
    var t := Next(s, a);
    if a.Expire? {
      assert forall v :: PhaseOf(t, v) == PhaseOf(s, v);
    } else {
      assert forall v :: v != a.w ==> PhaseOf(t, v) == PhaseOf(s, v);
    }
  }

  /** What a reader of the actions can check: a quiet run never reopens the job. */
  lemma {:induction false} QuietRunNeverReopens(s: State, actions: seq<Action>, j: Job)
    requires IsRun(s, actions) && Quiet(s, actions, j) && NoneLate(s, j)
    ensures NeverReopens(s, actions, j)
    decreases |actions|
  {
    hide Publications, Next, Enabled, CancelsLate, IsLate;
    if actions != [] {
      StepStaysNoneLate(s, actions[0], j);
      QuietRunNeverReopens(Next(s, actions[0]), actions[1..], j);
    }
  }

  /** A worker that has published and marked the job and is saving its record. */
  function MarkedBy0(j: Job): State {
    State(map[j := Completed], map[0 := Marked(j)], map[j := 1], map[])
  }

  lemma {:induction false} Completes(j: Job)
    ensures var first := [TryStart(0, j), PublishCompleted(0), MarkCompleted(0)];
      IsRun(START, first) && After(START, first) == MarkedBy0(j)
  {
    hide IsRun, After;
    ThreeSteps(START, [TryStart(0, j), PublishCompleted(0), MarkCompleted(0)]);
    assert After(START, [TryStart(0, j), PublishCompleted(0), MarkCompleted(0)]) == MarkedBy0(j);
  }

  lemma {:induction false} LateDelete(j: Job)
    ensures var second := [Cancel(0), DeleteOnCancel(0), TryStart(1, j), PublishCompleted(1)];
      && IsRun(MarkedBy0(j), second)
      && CountOf(After(MarkedBy0(j), second).publishes, j) == 2
      && CountOf(After(MarkedBy0(j), second).reopenings, j) == 1
  {
    hide IsRun, After;
    FourSteps(MarkedBy0(j), [Cancel(0), DeleteOnCancel(0), TryStart(1, j), PublishCompleted(1)]);
  }

  /** The bound is met: cancelling the save after mark_completed deletes the completed key. */
  lemma {:induction false} CancelledSaveRepublishes(j: Job) returns (actions: seq<Action>)
    ensures IsRun(START, actions) && forall i :: 0 <= i < |actions| ==> !actions[i].Expire?
    ensures CountOf(After(START, actions).publishes, j) == 2 && CountOf(After(START, actions).reopenings, j) == 1
  {
    hide IsRun, After, CountOf, MarkedBy0;
    var first := [TryStart(0, j), PublishCompleted(0), MarkCompleted(0)];
    var second := [Cancel(0), DeleteOnCancel(0), TryStart(1, j), PublishCompleted(1)];
    Completes(j);
    LateDelete(j);
    RunsJoin(START, first, second);
    actions := first + second;
  }

  // ---------- the handler ----------

  datatype ReviewResult = ReviewCompleted | ReviewFailed

  /** The awaited calls of a handler; marking is mark_completed or mark_failed, as the result asks for. */
  datatype Stage = Starting | InPipeline | Publishing | Marking | Saving

  /**
   The one call that does not return: by cancellation or by another exception, and with or without its
   effect. `deleted` says whether the delete that answers a cancellation takes effect.
   */
  datatype Fault = Fault(stage: Stage, cancelled: bool, tookEffect: bool, deleted: bool)

  predicate At(fault: Option<Fault>, stage: Stage) {
    fault.Some? && fault.value.stage == stage
  }

  /** An exception while saving the record is swallowed. */
  predicate Raises(fault: Option<Fault>) {
    fault.Some? && (fault.value.stage == Saving ==> fault.value.cancelled)
  }

  /** The result reaches its topic. */
  predicate IsPublished(fault: Option<Fault>) {
    fault.Some? ==> match fault.value.stage
      case Starting => false
      case InPipeline => false
      case Publishing => fault.value.tookEffect
      case _ => true
  }

  /** The mark takes effect. A completed job is marked before its record is saved, a failed one behind it. */
  predicate IsMarked(result: ReviewResult, fault: Option<Fault>) {
    fault.Some? ==> match fault.value.stage
      case Marking => fault.value.tookEffect
      case Saving => result.ReviewCompleted? || !fault.value.cancelled
      case _ => false
  }

  /** The delete that answers a cancellation takes effect. */
  predicate IsDeleted(fault: Option<Fault>) {
    Raises(fault) && fault.value.cancelled && fault.value.deleted
  }

  /** What a handler that won try_start leaves of the keys. */
  function KeysAfter(keys: Keys, key: string, result: ReviewResult, fault: Option<Fault>): Keys {
    if IsDeleted(fault) then keys - {key}
    else if !IsMarked(result, fault) then keys[key := InProgress]
    else if result.ReviewCompleted? then keys[key := Completed]
    else keys - {key}
  }

  /** The consumer with the topics it publishes to. A payload that does not validate is `None`. */
  class ReviewRequestConsumer {
    const dedup: RedisDedupStore
    var completedTopic: seq<Job>
    var failedTopic: seq<Job>

    constructor (dedup: RedisDedupStore)
      ensures this.dedup == dedup && completedTopic == [] && failedTopic == []
    {
      this.dedup := dedup;
      completedTopic, failedTopic := [], [];
    }

    /**
     One call, whichever of its awaits fails. An invalid, superseded or already started job leaves no
     trace. A failing try_start may leave the key behind; no other handler is undone by it. Behind
     try_start the result is published at most once, and the key says how far the handler came.
     */
    method Handle(event: Option<Job>, superseded: bool, result: ReviewResult, fault: Option<Fault>)
      returns (raised: bool)
      modifies this, dedup.redis
      ensures event.None? || superseded ==>
        !raised && dedup.redis.keys == old(dedup.redis.keys)
        && completedTopic == old(completedTopic) && failedTopic == old(failedTopic)
      ensures event.Some? && !superseded && At(fault, Starting) ==>
        && raised && completedTopic == old(completedTopic) && failedTopic == old(failedTopic)
        && dedup.redis.keys == if fault.value.tookEffect && dedup.Key(event.value) !in old(dedup.redis.keys)
             then old(dedup.redis.keys)[dedup.Key(event.value) := InProgress] else old(dedup.redis.keys)
      ensures event.Some? && !superseded && !At(fault, Starting) ==>
        if dedup.Key(event.value) in old(dedup.redis.keys) then
          !raised && dedup.redis.keys == old(dedup.redis.keys)
          && completedTopic == old(completedTopic) && failedTopic == old(failedTopic)
        else
          && raised == Raises(fault)
          && dedup.redis.keys == KeysAfter(old(dedup.redis.keys), dedup.Key(event.value), result, fault)
          && completedTopic
            == old(completedTopic) + (if result.ReviewCompleted? && IsPublished(fault) then [event.value] else [])
          && failedTopic
            == old(failedTopic) + (if result.ReviewFailed? && IsPublished(fault) then [event.value] else [])
    {
      if event.None? || superseded {
        return false;
      }
      var job := event.value;
      if At(fault, Starting) {
        if fault.value.tookEffect {
          var _ := dedup.TryStart(job);
        }
        return true;
      }
      var acquired := dedup.TryStart(job);
      if !acquired {
        return false;
      }
      raised := Process(job, result, fault);
      if raised && fault.value.cancelled && fault.value.deleted {
        dedup.MarkFailed(job);
      }
    }

    /** The try block. */
    method Process(job: Job, result: ReviewResult, fault: Option<Fault>) returns (raised: bool)
      requires !At(fault, Starting)
      modifies this, dedup.redis
      ensures raised == Raises(fault)
      ensures dedup.redis.keys ==
        if !IsMarked(result, fault) then old(dedup.redis.keys)
        else if result.ReviewCompleted? then old(dedup.redis.keys)[dedup.Key(job) := Completed]
        else old(dedup.redis.keys) - {dedup.Key(job)}
      ensures completedTopic
        == old(completedTopic) + (if result.ReviewCompleted? && IsPublished(fault) then [job] else [])
      ensures failedTopic == old(failedTopic) + (if result.ReviewFailed? && IsPublished(fault) then [job] else [])
    {
      if At(fault, InPipeline) {
        return true;
      }
      if !At(fault, Publishing) || fault.value.tookEffect {
        if result.ReviewCompleted? {
          completedTopic := completedTopic + [job];
        } else {
          failedTopic := failedTopic + [job];
        }
      }
      if At(fault, Publishing) {
        return true;
      }
      if result.ReviewFailed? && At(fault, Saving) && fault.value.cancelled {
        return true;
      }
      if !At(fault, Marking) || fault.value.tookEffect {
        if result.ReviewCompleted? {
          dedup.MarkCompleted(job);
        } else {
          dedup.MarkFailed(job);
        }
      }
      return At(fault, Marking) || (At(fault, Saving) && fault.value.cancelled);
    }
  }

  // ---------- the handler is a run of the protocol ----------

  /** The protocol steps of a handler that wins try_start. */
  function HandleSteps(w: Worker, job: Job, result: ReviewResult, fault: Option<Fault>): seq<Action> {
    [TryStart(w, job)]
      + if IsPublished(fault) then [Publish(w, result)] + StepsFromMark(w, result, fault) else Ending(w, fault)
  }

  function Publish(w: Worker, result: ReviewResult): Action {
    if result.ReviewCompleted? then PublishCompleted(w) else PublishFailed(w)
  }

  function StepsFromMark(w: Worker, result: ReviewResult, fault: Option<Fault>): seq<Action> {
    if !IsMarked(result, fault) then Ending(w, fault)
    else [if result.ReviewCompleted? then MarkCompleted(w) else Release(w)] + Ending(w, fault)
  }

  function Ending(w: Worker, fault: Option<Fault>): seq<Action> {
    if !Raises(fault) then [Finish(w)]
    else if !fault.value.cancelled then [Die(w)]
    else [Cancel(w), if fault.value.deleted then DeleteOnCancel(w) else Die(w)]
  }

  /** The state `t` shows what the handler leaves behind, and the worker is done. */
  predicate IsHandled(s: State, t: State, w: Worker, job: Job, result: ReviewResult, fault: Option<Fault>) {
    && t.keys == KeysAfter(s.keys, job, result, fault)
    && CountOf(t.publishes, job)
      == CountOf(s.publishes, job) + (if result.ReviewCompleted? && IsPublished(fault) then 1 else 0)
    && PhaseOf(t, w).Idle?
  }

  /** A worker's phase, the keys, and the publications of its job. */
  datatype Standing = Standing(phase: Phase, keys: Keys, publications: nat)

  predicate Stands(t: State, w: Worker, job: Job, x: Standing) {
    PhaseOf(t, w) == x.phase && t.keys == x.keys && CountOf(t.publishes, job) == x.publications
  }

  predicate CanStep(x: Standing, w: Worker, job: Job, a: Action) {
    match a
    case TryStart(v, j) => v == w && j == job && x.phase.Idle? && job !in x.keys
    case PublishCompleted(v) => v == w && x.phase == Working(job)
    case MarkCompleted(v) => v == w && x.phase == Published(job)
    case PublishFailed(v) => v == w && x.phase == Working(job)
    case Release(v) => v == w && x.phase == FailPublished(job)
    case Finish(v) => v == w && (x.phase == Marked(job) || x.phase == Releasing(job))
    case Cancel(v) => v == w && !x.phase.Idle? && !x.phase.Cancelling? && x.phase.job == job
    case DeleteOnCancel(v) => v == w && x.phase.Cancelling? && x.phase.job == job
    case Die(v) => v == w && !x.phase.Idle?
    case _ => false
  }

  function Stepped(x: Standing, w: Worker, job: Job, a: Action): Standing
    requires CanStep(x, w, job, a)
  {
    match a
    case TryStart(_, _) => x.(phase := Working(job), keys := x.keys[job := InProgress])
    case PublishCompleted(_) => x.(phase := Published(job), publications := x.publications + 1)
    case MarkCompleted(_) => x.(phase := Marked(job), keys := x.keys[job := Completed])
    case PublishFailed(_) => x.(phase := FailPublished(job))
    case Release(_) => x.(phase := Releasing(job), keys := x.keys - {job})
    case Finish(_) => x.(phase := Idle)
    case Cancel(_) => x.(phase := Cancelled(x.phase))
    case DeleteOnCancel(_) => x.(phase := Idle, keys := x.keys - {job})
    case Die(_) => x.(phase := Idle)
  }

  lemma {:induction false} StepOfWorker(t: State, w: Worker, job: Job, x: Standing, a: Action)
    requires Stands(t, w, job, x) && CanStep(x, w, job, a)
    ensures Enabled(t, a) && Stands(Next(t, a), w, job, Stepped(x, w, job, a))
  {}

  predicate CanWalk(x: Standing, w: Worker, job: Job, actions: seq<Action>)
    decreases |actions|
  {
    actions == [] || (CanStep(x, w, job, actions[0]) && CanWalk(Stepped(x, w, job, actions[0]), w, job, actions[1..]))
  }

  function Walked(x: Standing, w: Worker, job: Job, actions: seq<Action>): Standing
    requires CanWalk(x, w, job, actions)
    decreases |actions|
  {
    if actions == [] then x else Walked(Stepped(x, w, job, actions[0]), w, job, actions[1..])
  }

  lemma {:induction false} WalkCons(x: Standing, w: Worker, job: Job, a: Action, rest: seq<Action>)
    requires CanStep(x, w, job, a) && CanWalk(Stepped(x, w, job, a), w, job, rest)
    ensures CanWalk(x, w, job, [a] + rest)
    ensures Walked(x, w, job, [a] + rest) == Walked(Stepped(x, w, job, a), w, job, rest)
  {
    assert ([a] + rest)[1..] == rest;
  }

  /** What a worker can walk is a run of the protocol. */
  lemma {:induction false} WalkIsARun(s: State, w: Worker, job: Job, x: Standing, actions: seq<Action>)
    requires Stands(s, w, job, x) && CanWalk(x, w, job, actions)
    ensures IsRun(s, actions) && Stands(After(s, actions), w, job, Walked(x, w, job, actions))
    decreases |actions|
  {
    hide Stands, CanStep, Stepped, Enabled, Next;
    if actions != [] {
      StepOfWorker(s, w, job, x, actions[0]);
      WalkIsARun(Next(s, actions[0]), w, job, Stepped(x, w, job, actions[0]), actions[1..]);
    }
  }

  lemma {:induction false} WalkEnding(x: Standing, w: Worker, job: Job, result: ReviewResult, fault: Option<Fault>)
    requires match x.phase
      case Working(j) => j == job && !IsPublished(fault) && Raises(fault)
      case Published(j) => j == job && !IsMarked(result, fault) && Raises(fault)
      case FailPublished(j) => j == job && !IsMarked(result, fault) && Raises(fault)
      case Marked(j) => j == job
      case Releasing(j) => j == job
      case _ => false
    ensures CanWalk(x, w, job, Ending(w, fault))
    ensures Walked(x, w, job, Ending(w, fault))
      == x.(phase := Idle, keys := if IsDeleted(fault) then x.keys - {job} else x.keys)
  {
    hide CanWalk, Walked;
    var ending := Ending(w, fault);
    var y := Stepped(x, w, job, ending[0]);
    if |ending| == 2 {
      WalkNothing(Stepped(y, w, job, ending[1]), w, job);
      WalkCons(y, w, job, ending[1], []);
      assert [ending[0]] + [ending[1]] == ending && [ending[1]] + [] == [ending[1]];
      WalkCons(x, w, job, ending[0], [ending[1]]);
    } else {
      WalkNothing(y, w, job);
      WalkCons(x, w, job, ending[0], []);
      assert [ending[0]] + [] == ending;
    }
  }

  lemma {:induction false} WalkNothing(x: Standing, w: Worker, job: Job)
    ensures CanWalk(x, w, job, []) && Walked(x, w, job, []) == x
  {}

  lemma {:induction false} WalkFromMark(x: Standing, w: Worker, job: Job, result: ReviewResult, fault: Option<Fault>)
    requires x.phase == if result.ReviewCompleted? then Published(job) else FailPublished(job)
    requires IsPublished(fault)
    ensures CanWalk(x, w, job, StepsFromMark(w, result, fault))
    ensures var keys := if !IsMarked(result, fault) then x.keys
        else if result.ReviewCompleted? then x.keys[job := Completed] else x.keys - {job};
      Walked(x, w, job, StepsFromMark(w, result, fault))
        == x.(phase := Idle, keys := if IsDeleted(fault) then keys - {job} else keys)
  {
    hide CanWalk, Walked, Ending;
    if IsMarked(result, fault) {
      var a := if result.ReviewCompleted? then MarkCompleted(w) else Release(w);
      WalkEnding(Stepped(x, w, job, a), w, job, result, fault);
      WalkCons(x, w, job, a, Ending(w, fault));
    } else {
      WalkEnding(x, w, job, result, fault);
    }
  }

  /** Whatever await fails, the steps of a handler are a run, and they leave what the handler leaves. */
  lemma {:induction false} HandleIsARun(s: State, w: Worker, job: Job, result: ReviewResult, fault: Option<Fault>)
    requires PhaseOf(s, w).Idle? && job !in s.keys && !At(fault, Starting)
    ensures IsRun(s, HandleSteps(w, job, result, fault))
    ensures IsHandled(s, After(s, HandleSteps(w, job, result, fault)), w, job, result, fault)
  {
    hide CanWalk, Walked, Ending, StepsFromMark, IsRun, After;
    var x := Standing(PhaseOf(s, w), s.keys, CountOf(s.publishes, job));
    var y := Stepped(x, w, job, TryStart(w, job));
    if IsPublished(fault) {
      WalkFromMark(Stepped(y, w, job, Publish(w, result)), w, job, result, fault);
      WalkCons(y, w, job, Publish(w, result), StepsFromMark(w, result, fault));
      WalkCons(x, w, job, TryStart(w, job), [Publish(w, result)] + StepsFromMark(w, result, fault));
    } else {
      WalkEnding(y, w, job, result, fault);
      WalkCons(x, w, job, TryStart(w, job), Ending(w, fault));
    }
    WalkIsARun(s, w, job, x, HandleSteps(w, job, result, fault));
  }

  /** What no handler does by itself: a start whose reply is lost, a crash, and expiry can happen at any time. */
  lemma {:induction false} LossIsAStep(s: State, w: Worker, job: Job)
    ensures PhaseOf(s, w).Idle? && job !in s.keys ==>
      && Enabled(s, TryStartLost(w, job))
      && Next(s, TryStartLost(w, job)) == s.(keys := s.keys[job := InProgress])
    ensures !PhaseOf(s, w).Idle? ==>
      && Enabled(s, Die(w)) && PhaseOf(Next(s, Die(w)), w).Idle?
      && Next(s, Die(w)).keys == s.keys && Next(s, Die(w)).publishes == s.publishes
    ensures job in s.keys ==>
      && Enabled(s, Expire(job)) && Next(s, Expire(job)).keys == s.keys - {job}
      && Next(s, Expire(job)).workers == s.workers
  {}
}
