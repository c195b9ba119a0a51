/** Assembling the prompt for a comment answer (app/comment_answer/pipeline.py). */
module CommentAnswer {
  import opened Wrappers
  import opened Text
  import PromptAssembly
  import PromptLaws

  const MIN_DIFF_HUNK_TOKENS := 200
  const HUNK_ATTEMPTS := 3

  datatype ThreadComment = ThreadComment(author: string, createdAt: string, body: string)

  /** The thread is chronological: its first comment is the oldest. */
  datatype Event = Event(path: string, line: string, diffHunk: string, thread: seq<ThreadComment>)

  datatype Messages = Messages(system: string, user: string)

  function Rendered(thread: seq<ThreadComment>): seq<string> {
    if thread == [] then [] else
    ["[" + thread[0].author + "] " + thread[0].createdAt + "\n" + thread[0].body] + Rendered(thread[1..])
  }

  function ShownHunk(e: Event, limit: Option<int>): string {
    if limit.None? then e.diffHunk else ShrinkToCharLimit(e.diffHunk, limit.value)
  }

  function Build(system: string, e: Event, thread: seq<ThreadComment>, limit: Option<int>): Messages {
    Messages(system,
      "## File\n" + e.path + " (line " + e.line + ")\n\n## Diff hunk\n" + ShownHunk(e, limit)
        + "\n\n## Thread\n" + Join(Rendered(thread), "\n\n"))
  }

  function Cost(m: Messages, count: string -> nat): nat {
    count(m.system + m.user)
  }

  /** Everything an assembly depends on. */
  datatype Job = Job(system: string, event: Event, count: string -> nat, budget: int)

  /** The prompt with the comments from `k` on and the full hunk fits. */
  predicate SuffixFits(job: Job, k: nat)
    requires k <= |job.event.thread|
  {
    Cost(Build(job.system, job.event, job.event.thread[k..], None), job.count) <= job.budget
  }

  predicate NoSuffixFits(job: Job, upTo: nat)
    requires upTo <= |job.event.thread| + 1
  {
    forall k :: 0 <= k < upTo ==> !SuffixFits(job, k)
  }

  /** The prompt without comments and with the hunk under a limit. */
  function Limited(job: Job, limit: int): Messages {
    Build(job.system, job.event, [], Some(limit))
  }

  /** The hunk is never limited below this. */
  function HunkFloor(hunk: string, count: string -> nat): nat {
    if count(hunk) <= MIN_DIFF_HUNK_TOKENS then |hunk| else
    PromptAssembly.DivMonotone(|hunk|, MIN_DIFF_HUNK_TOKENS, count(hunk));
    |hunk| * MIN_DIFF_HUNK_TOKENS / count(hunk)
  }

  /** The limit that follows when a prompt without comments is over budget. */
  function NextLimit(job: Job, limit: Option<int>): nat {
    var overshoot := Cost(Build(job.system, job.event, [], limit), job.count) - job.budget;
    var reduced := PromptAssembly.ReducedCharLimit(ShownHunk(job.event, limit), overshoot, job.count);
    var floor := HunkFloor(job.event.diffHunk, job.count);
    if reduced < floor then floor else reduced
  }

  function LastOf(limits: seq<int>): Option<int> {
    if limits == [] then None else Some(limits[|limits| - 1])
  }

  /** Limits set one after the other: each computed from the one before, at or above the floor, and strictly below. */
  predicate TriedLimits(job: Job, limits: seq<int>) {
    && (forall i :: 0 <= i < |limits| ==> limits[i] == NextLimit(job, LastOf(limits[..i])))
    && (forall i :: 0 <= i < |limits| ==> HunkFloor(job.event.diffHunk, job.count) <= limits[i] < |job.event.diffHunk|)
    && (forall i, j :: 0 <= i < j < |limits| ==> limits[j] < limits[i])
  }

  predicate AllOver(job: Job, limits: seq<int>) {
    forall i :: 0 <= i < |limits| ==> Cost(Limited(job, limits[i]), job.count) > job.budget
  }

  /**
   If any suffix of the thread fits with the full hunk, the longest such suffix is used and the hunk is
   untouched. Otherwise only the hunk is limited, at most three times; a returned prompt fits, and
   giving up means that three limits were not enough or that the hunk cannot shrink further.
   */
  method AssembleWithinBudget(job: Job) returns (r: Option<Messages>, ghost kept: nat, ghost limits: seq<int>)
    ensures kept <= |job.event.thread| && |limits| <= 3 && TriedLimits(job, limits)
    ensures r.Some? ==>
      var e, m := job.event, r.value;
      && job.count(m.system + m.user) <= job.budget && m.system == job.system
      && m.user == "## File\n" + e.path + " (line " + e.line + ")\n\n## Diff hunk\n"
           + (if limits == [] then e.diffHunk else ShrinkToCharLimit(e.diffHunk, limits[|limits| - 1]))
           + "\n\n## Thread\n" + Join(Rendered(e.thread[kept..]), "\n\n")
    ensures forall k :: 0 <= k <= |job.event.thread| && NoSuffixFits(job, k) && SuffixFits(job, k) ==>
      r == Some(Build(job.system, job.event, job.event.thread[k..], None))
    ensures NoSuffixFits(job, kept) && (limits != [] ==> kept == |job.event.thread| && !SuffixFits(job, kept))
    ensures r.Some? && limits == [] ==>
      r.value == Build(job.system, job.event, job.event.thread[kept..], None) && SuffixFits(job, kept)
    ensures r.Some? && limits != [] ==>
      && r.value == Limited(job, limits[|limits| - 1]) && Cost(r.value, job.count) <= job.budget
      && AllOver(job, limits[..|limits| - 1])
    ensures r.None? ==>
      && kept == |job.event.thread| && !SuffixFits(job, kept) && AllOver(job, limits)
      && (|limits| == 3 || NextLimit(job, LastOf(limits)) >= |ShownHunk(job.event, LastOf(limits))|)
  {
    hide Build, Cost, NextLimit, HunkFloor, TriedLimits, AllOver, ShownHunk;
    var n := |job.event.thread|;
    var thread, diffHunkMaxChars: Option<int> := job.event.thread, None;
    kept, limits := 0, [];
    assert job.event.thread[0..] == job.event.thread;
    NothingTried(job);
    for attempt := 0 to 1 + n + HUNK_ATTEMPTS
      invariant kept <= n && thread == job.event.thread[kept..] && NoSuffixFits(job, kept)
      invariant diffHunkMaxChars == LastOf(limits) && |limits| <= HUNK_ATTEMPTS + 1
      invariant attempt == kept + |limits|
      invariant limits != [] ==> thread == [] && !SuffixFits(job, kept) && AllOver(job, limits[..|limits| - 1])
      invariant TriedLimits(job, limits)
    {
      var messages := Build(job.system, job.event, thread, diffHunkMaxChars);
      var actual := Cost(messages, job.count);
      if actual <= job.budget {
        LongestSuffix(job, kept);
        MessageText(job, thread, diffHunkMaxChars);
        return Some(messages), kept, limits;
      }
      if thread != [] {
        assert thread[1..] == job.event.thread[kept + 1..];
        thread := thread[1..];
        kept := kept + 1;
      } else {
        assert thread == [] == job.event.thread[kept..];
        LastIsOver(job, limits);
        var current := ShownHunk(job.event, diffHunkMaxChars);
        var newLimit := NextLimit(job, diffHunkMaxChars);
        if newLimit >= |current| {
          LongestSuffix(job, kept);
          return None, kept, limits;
        }
        TryNext(job, limits);
        limits := limits + [newLimit];
        diffHunkMaxChars := Some(newLimit);
      }
    }
    FirstTried(job, limits);
    LongestSuffix(job, kept);
    return None, kept, limits[..HUNK_ATTEMPTS];
  }

  lemma {:induction false} MessageText(job: Job, thread: seq<ThreadComment>, limit: Option<int>)
    ensures var e, m := job.event, Build(job.system, job.event, thread, limit);
      && Cost(m, job.count) == job.count(m.system + m.user) && m.system == job.system
      && m.user == "## File\n" + e.path + " (line " + e.line + ")\n\n## Diff hunk\n"
           + (if limit.None? then e.diffHunk else ShrinkToCharLimit(e.diffHunk, limit.value))
           + "\n\n## Thread\n" + Join(Rendered(thread), "\n\n")
  {
    hide ShrinkToCharLimit, Join, Rendered;
  }

  lemma {:induction false} RenderedAt(thread: seq<ThreadComment>)
    ensures |Rendered(thread)| == |thread|
    ensures forall i :: 0 <= i < |thread| ==>
      Rendered(thread)[i] == "[" + thread[i].author + "] " + thread[i].createdAt + "\n" + thread[i].body
  {
    if thread != [] {
      RenderedAt(thread[1..]);
    }
  }

  /**
   The thread's text holds every comment, under its author and time, in order and with a blank line
   between any two; `comments` are their texts and `starts` their places.
   */
  lemma {:induction false} ThreadText(thread: seq<ThreadComment>) returns (comments: seq<string>, starts: seq<nat>)
    ensures |comments| == |starts| == |thread|
    ensures forall i :: 0 <= i < |thread| ==>
      comments[i] == "[" + thread[i].author + "] " + thread[i].createdAt + "\n" + thread[i].body
    ensures var text := Join(Rendered(thread), "\n\n");
      && (thread == [] ==> text == "")
      && (forall i :: 0 <= i < |thread| ==>
            starts[i] + |comments[i]| <= |text| && text[starts[i]..starts[i] + |comments[i]|] == comments[i])
      && (forall i, next :: 0 <= i && next == i + 1 < |thread| ==>
            var end := starts[i] + |comments[i]|;
            starts[next] == end + 2 && starts[next] <= |text| && text[end..starts[next]] == "\n\n")
  {
    hide Join, Rendered;
    RenderedAt(thread);
    comments := Rendered(thread);
    starts := JoinedAt(comments, "\n\n");
  }

  /** A hunk of at most 200 tokens is its own floor; of a longer one, the floor is 200 tokens' share of it. */
  lemma {:induction false} HunkFloorIs(hunk: string, count: string -> nat)
    ensures var floor := HunkFloor(hunk, count);
      && (count(hunk) <= 200 ==> floor == |hunk|)
      && (count(hunk) > 200 ==> floor * count(hunk) <= |hunk| * 200 < (floor + 1) * count(hunk))
  {
    if count(hunk) > 200 {
      PromptLaws.QuotientIs(|hunk| * 200, count(hunk));
    }
  }

  /** The next limit is what proportional reduction leaves of the present hunk, but not below the floor. */
  lemma {:induction false} NextLimitIs(job: Job, limit: Option<int>)
    ensures var m, hunk := Build(job.system, job.event, [], limit),
        if limit.None? then job.event.diffHunk else ShrinkToCharLimit(job.event.diffHunk, limit.value);
      var overshoot := job.count(m.system + m.user) - job.budget;
      var share := PromptAssembly.ReducedCharLimit(hunk, overshoot, job.count);
      var floor, next := HunkFloor(job.event.diffHunk, job.count), NextLimit(job, limit);
      share <= next && floor <= next && (next == share || next == floor)
  {
    hide Build, ShrinkToCharLimit, HunkFloor, PromptAssembly.ReducedCharLimit;
  }

  /** No suffix but the one reached can be the longest that fits. */
  lemma {:induction false} LongestSuffix(job: Job, kept: nat)
    requires kept <= |job.event.thread| && NoSuffixFits(job, kept)
    requires SuffixFits(job, kept) || kept == |job.event.thread|
    ensures forall k :: 0 <= k <= |job.event.thread| && NoSuffixFits(job, k) && SuffixFits(job, k) ==> k == kept
  {
    hide SuffixFits;
  }

  lemma {:induction false} NothingTried(job: Job)
    ensures TriedLimits(job, [])
  {}

  lemma {:induction false} LastIsOver(job: Job, limits: seq<int>)
    requires limits == [] || AllOver(job, limits[..|limits| - 1])
    requires limits == [] || Cost(Limited(job, limits[|limits| - 1]), job.count) > job.budget
    ensures AllOver(job, limits)
  {
    hide Cost, Limited;
  }

  /** The next limit, when it makes the hunk shorter, goes below all limits before it. */
  lemma {:induction false} TryNext(job: Job, limits: seq<int>)
    requires TriedLimits(job, limits) && NextLimit(job, LastOf(limits)) < |ShownHunk(job.event, LastOf(limits))|
    ensures TriedLimits(job, limits + [NextLimit(job, LastOf(limits))])
    ensures (limits + [NextLimit(job, LastOf(limits))])[..|limits|] == limits
  {
    hide NextLimit, HunkFloor, ShownHunk;
    AtLeastFloor(job, LastOf(limits));
    ShownWithin(job.event, LastOf(limits));
    var more := limits + [NextLimit(job, LastOf(limits))];
    forall i | 0 <= i < |more| ensures more[i] == NextLimit(job, LastOf(more[..i])) {
      assert more[..i] == limits[..i];
      assert i == |limits| ==> limits[..i] == limits;
    }
  }

  lemma {:induction false} ShownWithin(e: Event, limit: Option<int>)
    ensures limit.None? ==> ShownHunk(e, limit) == e.diffHunk
    ensures limit.Some? ==> |ShownHunk(e, limit)| <= if limit.value > 0 then limit.value else 0
  {}

  lemma {:induction false} FirstTried(job: Job, limits: seq<int>)
    requires TriedLimits(job, limits) && |limits| == HUNK_ATTEMPTS + 1
    ensures TriedLimits(job, limits[..HUNK_ATTEMPTS])
  {
    hide NextLimit, HunkFloor;
    var first := limits[..HUNK_ATTEMPTS];
    forall i | 0 <= i < |first| ensures first[i] == NextLimit(job, LastOf(first[..i])) {
      assert first[..i] == limits[..i];
    }
  }

  lemma {:induction false} AtLeastFloor(job: Job, limit: Option<int>)
    ensures NextLimit(job, limit) >= HunkFloor(job.event.diffHunk, job.count)
  {}
}
