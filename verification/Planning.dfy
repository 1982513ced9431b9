/**
 Planning a season: episodes that already exist are set aside, the others are planned by a bounded
 scheduler, and the plans are put together in episode order.
 */
module Planning {
  import opened Bytes

  const MAX_CONCURRENCY: nat := 2

  // ---- the scheduler ----

  /** What a task comes to: an output, a failure of its own, or the loss of the task itself. */
  datatype TaskResult<+O> = Done(output: O) | TaskFailed(reason: string) | Lost

  datatype Scheduled<+O> = Completed(outputs: seq<O>) | EpisodeError(index: nat, reason: string) | TaskError

  /** What an observer sees: tasks starting, ending, progress reports and aborted tasks draining. */
  datatype Event = Start(task: nat) | End(task: nat) | Report(done: nat) | Drain(task: nat)

  /** The tasks in flight after a log. */
  function Running(log: seq<Event>): set<nat> {
    if log == [] then {}
    else
      var before, last := Running(log[..|log| - 1]), log[|log| - 1];
      match last
      case Start(i) => before + {i}
      case End(i) => before - {i}
      case Drain(i) => before - {i}
      case Report(_) => before
  }

  function Started(log: seq<Event>): seq<nat> {
    if log == [] then []
    else
      var last := log[|log| - 1];
      Started(log[..|log| - 1]) + (if last.Start? then [last.task] else [])
  }

  function Ended(log: seq<Event>): nat {
    if log == [] then 0 else Ended(log[..|log| - 1]) + (if log[|log| - 1].End? then 1 else 0)
  }

  function Reported(log: seq<Event>): seq<nat> {
    if log == [] then []
    else
      var last := log[|log| - 1];
      Reported(log[..|log| - 1]) + (if last.Report? then [last.done] else [])
  }

  function UpTo(n: nat): (r: seq<nat>)
    ensures |r| == n && forall i :: 0 <= i < n ==> r[i] == i
  {
    seq(n, i => i)
  }

  function OneTo(n: nat): (r: seq<nat>)
    ensures |r| == n && forall i :: 0 <= i < n ==> r[i] == i + 1
  {
    seq(n, i => i + 1)
  }

  /** Few enough tasks in flight; tasks started and reports made in order without a gap. */
  predicate MomentSafe(log: seq<Event>, total: nat) {
    && |Running(log)| <= MAX_CONCURRENCY
    && |Started(log)| <= total && Started(log) == UpTo(|Started(log)|)
    && Reported(log) == OneTo(|Reported(log)|)
  }

  predicate LogSafe(log: seq<Event>, total: nat) {
    forall k :: 0 <= k <= |log| ==> MomentSafe(log[..k], total)
  }

  function Outputs<O>(results: seq<TaskResult<O>>): (r: seq<O>)
    requires forall i :: 0 <= i < |results| ==> results[i].Done?
    ensures |r| == |results|
  {
    seq(|results|, i requires 0 <= i < |results| => results[i].output)
  }

  /** The values that are there, in order. */
  function Collect<O>(ordered: seq<Option<O>>): seq<O> {
    if ordered == [] then []
    else (if ordered[0].Some? then [ordered[0].value] else []) + Collect(ordered[1..])
  }

  lemma {:induction false} CollectAll<O>(ordered: seq<Option<O>>, results: seq<TaskResult<O>>)
    requires |ordered| == |results| && AllDone(results)
    requires forall i :: 0 <= i < |ordered| ==> ordered[i] == Some(results[i].output)
    ensures Collect(ordered) == Outputs(results)
  {
    if ordered != [] { CollectAll(ordered[1..], results[1..]); }
  }

  lemma NoResults<O>(results: seq<TaskResult<O>>)
    requires results == []
    ensures AllDone(results) && Outputs(results) == []
  {
  }

  predicate AllDone<O>(results: seq<TaskResult<O>>) { forall i :: 0 <= i < |results| ==> results[i].Done? }

  /** The error the scheduler returns for a task that did not succeed. */
  function ErrorOf<O>(index: nat, result: TaskResult<O>): Scheduled<O>
    requires !result.Done?
  {
    match result case TaskFailed(reason) => EpisodeError(index, reason) case Lost => TaskError
  }

  lemma LogAppend(log: seq<Event>, e: Event)
    ensures (log + [e])[..|log|] == log
    ensures Running(log + [e]) ==
            (if e.Report? then Running(log) else if e.Start? then Running(log) + {e.task} else Running(log) - {e.task})
    ensures Started(log + [e]) == Started(log) + (if e.Start? then [e.task] else [])
    ensures Reported(log + [e]) == Reported(log) + (if e.Report? then [e.done] else [])
    ensures Ended(log + [e]) == Ended(log) + (if e.End? then 1 else 0)
  {
    assert (log + [e])[..|log|] == log;
  }

  lemma NextMoment(log: seq<Event>, e: Event, total: nat)
    requires MomentSafe(log, total) && |Running(log + [e])| <= MAX_CONCURRENCY
    requires e.Start? ==> e.task == |Started(log)| < total
    requires e.Report? ==> e.done == |Reported(log)| + 1
    ensures MomentSafe(log + [e], total)
  {
    hide Running, Started, Reported;
    LogAppend(log, e);
  }

  lemma SafeNow(log: seq<Event>, total: nat)
    requires LogSafe(log, total)
    ensures MomentSafe(log, total)
  {
    hide MomentSafe;
    assert log[..|log|] == log;
  }

  lemma SafeAppend(log: seq<Event>, e: Event, total: nat)
    requires LogSafe(log, total) && |Running(log + [e])| <= MAX_CONCURRENCY
    requires e.Start? ==> e.task == |Started(log)| < total
    requires e.Report? ==> e.done == |Reported(log)| + 1
    ensures LogSafe(log + [e], total)
  {
    hide MomentSafe, Running, Started, Reported;
    SafeNow(log, total);
    NextMoment(log, e, total);
    var longer := log + [e];
    assert longer[..|longer|] == longer;
    forall k | 0 <= k <= |longer|
      ensures MomentSafe(longer[..k], total)
    {
      if k <= |log| { assert longer[..k] == log[..k]; }
    }
  }

  /** What holds between two completions. */
  ghost predicate LoopInv<O>(results: seq<TaskResult<O>>, ordered: seq<Option<O>>, inFlight: set<nat>,
                             next: nat, completed: nat, log: seq<Event>)
  {
    && |ordered| == |results| && next <= |results|
    && next == completed + |inFlight| && |inFlight| <= MAX_CONCURRENCY
    && (forall i :: i in inFlight ==> i < next)
    && (forall i :: 0 <= i < next && i !in inFlight ==> results[i].Done? && ordered[i] == Some(results[i].output))
    && LogSafe(log, |results|) && Running(log) == inFlight
    && |Started(log)| == next && |Reported(log)| == completed
    && AllEndedDone(log, results)
  }

  lemma LoopStart<O>(results: seq<TaskResult<O>>, ordered: seq<Option<O>>)
    requires |ordered| == |results|
    ensures LoopInv(results, ordered, {}, 0, 0, [])
  {
    EmptyLog(|results|);
  }

  lemma Spawned<O>(results: seq<TaskResult<O>>, ordered: seq<Option<O>>, inFlight: set<nat>, next: nat,
                   completed: nat, log: seq<Event>)
    requires LoopInv(results, ordered, inFlight, next, completed, log)
    requires next < |results| && |inFlight| < MAX_CONCURRENCY
    ensures LoopInv(results, ordered, inFlight + {next}, next + 1, completed, log + [Start(next)])
    ensures |inFlight + {next}| == |inFlight| + 1
  {
    hide LogSafe, Running, Started, Reported, AllEndedDone;
    LogAppend(log, Start(next));
    SafeAppend(log, Start(next), |results|);
    EndedDoneAppend(log, Start(next), results);
  }

  lemma Returned<O>(results: seq<TaskResult<O>>, ordered: seq<Option<O>>, inFlight: set<nat>,
                    next: nat, completed: nat, log: seq<Event>, task: nat)
    requires LoopInv(results, ordered, inFlight, next, completed, log) && task in inFlight
    ensures |inFlight - {task}| == |inFlight| - 1
    ensures LogSafe(log + [End(task)], |results|) && Running(log + [End(task)]) == inFlight - {task}
    ensures |Started(log + [End(task)])| == next && |Reported(log + [End(task)])| == completed
  {
    hide LogSafe, Running, Started, Reported, AllEndedDone;
    LogAppend(log, End(task));
    SafeAppend(log, End(task), |results|);
  }

  lemma Succeeded<O>(results: seq<TaskResult<O>>, ordered: seq<Option<O>>, inFlight: set<nat>,
                    next: nat, completed: nat, log: seq<Event>, task: nat)
    requires LoopInv(results, ordered, inFlight, next, completed, log) && task in inFlight && results[task].Done?
    ensures LoopInv(results, ordered[task := Some(results[task].output)], inFlight - {task}, next, completed + 1,
                    log + [End(task)] + [Report(completed + 1)])
  {
    hide LogSafe, Running, Started, Reported, AllEndedDone;
    Returned(results, ordered, inFlight, next, completed, log, task);
    var ended := log + [End(task)];
    EndedDoneAppend(log, End(task), results);
    LogAppend(ended, Report(completed + 1));
    SafeAppend(ended, Report(completed + 1), |results|);
    EndedDoneAppend(ended, Report(completed + 1), results);
  }

  lemma AllReturned<O>(results: seq<TaskResult<O>>, ordered: seq<Option<O>>, next: nat, completed: nat, log: seq<Event>)
    requires LoopInv(results, ordered, {}, next, completed, log) && next == |results|
    ensures AllDone(results) && forall i :: 0 <= i < |results| ==> ordered[i] == Some(results[i].output)
    ensures LogSafe(log, |results|) && Running(log) == {}
    ensures Started(log) == UpTo(|results|) && Reported(log) == OneTo(|results|)
  {
    hide LogSafe, Running, Started, Reported, AllEndedDone;
    SafeNow(log, |results|);
  }

  lemma LoopParts<O>(results: seq<TaskResult<O>>, ordered: seq<Option<O>>, inFlight: set<nat>, next: nat,
                     completed: nat, log: seq<Event>)
    requires LoopInv(results, ordered, inFlight, next, completed, log)
    ensures |ordered| == |results| && next == completed + |inFlight| <= |results| && |inFlight| <= MAX_CONCURRENCY
    ensures forall i :: i in inFlight ==> i < next
    ensures AllEndedDone(log, results)
  {
    hide LogSafe, Running, Started, Reported, AllEndedDone;
  }

  /**
   Runs the tasks. `task :| task in inFlight` is the next task to come back, so what is proved
   holds for every completion order: the answer is a function of the tasks' results when all
   succeed, an error of some failing task otherwise, and at the end nothing is in flight.
   */
  method ScheduleBounded<O>(indices: seq<nat>, results: seq<TaskResult<O>>)
    returns (answer: Scheduled<O>, log: seq<Event>)
    requires |indices| == |results|
    ensures answer.Completed? <==> AllDone(results)
    ensures AllDone(results) ==> answer.outputs == Outputs(results)
    ensures !AllDone(results) ==>
              exists i :: 0 <= i < |results| && !results[i].Done? && answer == ErrorOf(indices[i], results[i])
    ensures LogSafe(log, |results|) && Running(log) == {}
    ensures AllDone(results) ==> Started(log) == UpTo(|results|) && Reported(log) == OneTo(|results|)
    ensures !AllDone(results) ==> StopsAtFailure(log, results)
  {
    hide LogSafe, Running, Started, Reported, LoopInv, UpTo, OneTo, AllEndedDone, StopsAtFailure, Outputs, Collect;
    var total := |results|;
    log := [];
    EmptyLog(total);
    if total == 0 {
      NoResults(results);
      return Completed([]), log;
    }
    var ordered: seq<Option<O>> := seq(total, _ => None);
    var completed, next := 0, 0;
    var inFlight: set<nat> := {};
    LoopStart(results, ordered);
    for k := 0 to Min(MAX_CONCURRENCY, total)
      invariant |inFlight| == next == k
      invariant LoopInv(results, ordered, inFlight, next, completed, log)
    {
      Spawned(results, ordered, inFlight, next, completed, log);
      log := log + [Start(next)];
      inFlight := inFlight + {next};
      next := next + 1;
    }
    while inFlight != {}
      invariant LoopInv(results, ordered, inFlight, next, completed, log)
      invariant completed <= total && |inFlight| == Min(MAX_CONCURRENCY, total - completed)
      decreases total - completed
    {
      LoopParts(results, ordered, inFlight, next, completed, log);
      var task :| task in inFlight;
      Returned(results, ordered, inFlight, next, completed, log, task);
      if !results[task].Done? {
        var drained := AbortAll(log + [End(task)], inFlight - {task}, total);
        StoppedLog(log, task, drained, results);
        answer := ErrorOf(indices[task], results[task]);
        log := log + [End(task)] + drained;
        return;
      }
      Succeeded(results, ordered, inFlight, next, completed, log, task);
      ordered := ordered[task := Some(results[task].output)];
      inFlight := inFlight - {task};
      completed := completed + 1;
      log := log + [End(task)] + [Report(completed)];
      if next < total {
        Spawned(results, ordered, inFlight, next, completed, log);
        log := log + [Start(next)];
        inFlight := inFlight + {next};
        next := next + 1;
      }
    }
    LoopParts(results, ordered, inFlight, next, completed, log);
    AllReturned(results, ordered, next, completed, log);
    CollectAll(ordered, results);
    answer := Completed(Collect(ordered));
  }

  /** Every task whose end is logged succeeded. */
  predicate AllEndedDone<O>(log: seq<Event>, results: seq<TaskResult<O>>) {
    forall k :: 0 <= k < |log| ==>
      !log[k].Drain? && (log[k].End? ==> log[k].task < |results| && results[log[k].task].Done?)
  }

  /** After the first failure nothing starts and nothing is reported; the rest is drained. */
  predicate StopsAtFailure<O>(log: seq<Event>, results: seq<TaskResult<O>>) {
    exists k :: 0 <= k < |log| && log[k].End? && log[k].task < |results| && !results[log[k].task].Done?
      && AllEndedDone(log[..k], results) && forall j :: k < j < |log| ==> log[j].Drain?
  }

  lemma EmptyLog(total: nat)
    ensures LogSafe([], total) && Running([]) == {} && Started([]) == [] == UpTo(0) && Reported([]) == [] == OneTo(0)
  {
  }

  lemma EndedDoneAppend<O>(log: seq<Event>, e: Event, results: seq<TaskResult<O>>)
    requires AllEndedDone(log, results) && !e.Drain? && (e.End? ==> e.task < |results| && results[e.task].Done?)
    ensures AllEndedDone(log + [e], results)
  {
  }

  lemma StoppedLog<O>(before: seq<Event>, task: nat, drained: seq<Event>, results: seq<TaskResult<O>>)
    requires AllEndedDone(before, results) && task < |results| && !results[task].Done?
    requires forall j :: 0 <= j < |drained| ==> drained[j].Drain?
    ensures StopsAtFailure(before + [End(task)] + drained, results)
  {
    var log := before + [End(task)] + drained;
    assert log[|before|] == End(task) && log[..|before|] == before;
  }

  /** Aborts the tasks in flight and waits until each of them is gone. */
  method AbortAll(log: seq<Event>, inFlight: set<nat>, total: nat) returns (drained: seq<Event>)
    requires LogSafe(log, total) && Running(log) == inFlight && |inFlight| <= MAX_CONCURRENCY
    ensures forall j :: 0 <= j < |drained| ==> drained[j].Drain?
    ensures LogSafe(log + drained, total) && Running(log + drained) == {}
  {
    hide LogSafe, Running, Started, Reported, Ended;
    drained := [];
    var remaining := inFlight;
    assert log + [] == log;
    while remaining != {}
      invariant forall j :: 0 <= j < |drained| ==> drained[j].Drain?
      invariant LogSafe(log + drained, total) && Running(log + drained) == remaining
      invariant |remaining| <= MAX_CONCURRENCY
      decreases remaining
    {
      var task :| task in remaining;
      assert log + (drained + [Drain(task)]) == log + drained + [Drain(task)];
      LogAppend(log + drained, Drain(task));
      SafeAppend(log + drained, Drain(task), total);
      drained := drained + [Drain(task)];
      remaining := remaining - {task};
    }
  }

  // ---- setting existing episodes aside ----

  datatype Episode = Episode(index: nat, epid: nat, aid: nat, cid: nat)

  function Planned<E>(episodes: seq<Episode>, evidence: seq<Option<E>>): seq<Episode>
    requires |episodes| == |evidence|
  {
    if episodes == [] then []
    else (if evidence[0].None? then [episodes[0]] else []) + Planned(episodes[1..], evidence[1..])
  }

  function Skipped<E>(episodes: seq<Episode>, evidence: seq<Option<E>>): seq<(Episode, E)>
    requires |episodes| == |evidence|
  {
    if episodes == [] then []
    else (if evidence[0].Some? then [(episodes[0], evidence[0].value)] else []) + Skipped(episodes[1..], evidence[1..])
  }

  lemma {:induction false} PlannedAppend<E>(episodes: seq<Episode>, evidence: seq<Option<E>>, episode: Episode,
                                            e: Option<E>)
    requires |episodes| == |evidence|
    ensures Planned(episodes + [episode], evidence + [e])
         == Planned(episodes, evidence) + (if e.None? then [episode] else [])
    ensures Skipped(episodes + [episode], evidence + [e]) ==
            Skipped(episodes, evidence) + (if e.Some? then [(episode, e.value)] else [])
  {
    if episodes != [] {
      PlannedAppend(episodes[1..], evidence[1..], episode, e);
      assert (episodes + [episode])[1..] == episodes[1..] + [episode];
      assert (evidence + [e])[1..] == evidence[1..] + [e];
    }
  }

  method PartitionExistingEpisodes<E>(episodes: seq<Episode>, evidence: seq<Option<E>>)
    returns (planned: seq<Episode>, skipped: seq<(Episode, E)>)
    requires |episodes| == |evidence|
    ensures planned == Planned(episodes, evidence) && skipped == Skipped(episodes, evidence)
  {
    planned, skipped := [], [];
    for i := 0 to |episodes|
      invariant planned == Planned(episodes[..i], evidence[..i]) && skipped == Skipped(episodes[..i], evidence[..i])
    {
      PlannedAppend(episodes[..i], evidence[..i], episodes[i], evidence[i]);
      assert episodes[..i + 1] == episodes[..i] + [episodes[i]];
      assert evidence[..i + 1] == evidence[..i] + [evidence[i]];
      match evidence[i]
      case Some(e) => skipped := skipped + [(episodes[i], e)];
      case None => planned := planned + [episodes[i]];
    }
    assert episodes[..|episodes|] == episodes && evidence[..|episodes|] == evidence;
  }

  /** Puts the two parts back together along the evidence. */
  function Weave<E>(planned: seq<Episode>, skipped: seq<(Episode, E)>, evidence: seq<Option<E>>): seq<Episode> {
    if evidence == [] then []
    else if evidence[0].None? then
      (if planned == [] then [] else [planned[0]] + Weave(planned[1..], skipped, evidence[1..]))
    else if skipped == [] then []
    else [skipped[0].0] + Weave(planned, skipped[1..], evidence[1..])
  }

  /** Nothing is lost and both parts keep their order: the selection can be rebuilt from them. */
  lemma {:induction false} PartitionIsSplit<E>(episodes: seq<Episode>, evidence: seq<Option<E>>)
    requires |episodes| == |evidence|
    ensures Weave(Planned(episodes, evidence), Skipped(episodes, evidence), evidence) == episodes
    ensures |Planned(episodes, evidence)| + |Skipped(episodes, evidence)| == |episodes|
  {
    if episodes != [] {
      PartitionIsSplit(episodes[1..], evidence[1..]);
      var planned, skipped := Planned(episodes, evidence), Skipped(episodes, evidence);
      if evidence[0].None? {
        assert planned[0] == episodes[0] && planned[1..] == Planned(episodes[1..], evidence[1..]);
        assert skipped == Skipped(episodes[1..], evidence[1..]);
      } else {
        assert skipped[0].0 == episodes[0] && skipped[1..] == Skipped(episodes[1..], evidence[1..]);
        assert planned == Planned(episodes[1..], evidence[1..]);
      }
      assert Weave(planned, skipped, evidence) == [episodes[0]] + episodes[1..];
    }
  }

  // ---- one episode's plan ----

  datatype PlanEntry = PlanEntry(index: nat, epid: Option<nat>, aid: nat, cid: nat, stream: string)

  predicate SameIdentity(entry: PlanEntry, episode: Episode) {
    entry.epid == Some(episode.epid) && entry.aid == episode.aid && entry.cid == episode.cid
  }

  /** Accepts a plan of exactly the expected episode and gives it the index of the inventory. */
  function ValidateEpisode(entries: seq<PlanEntry>, expected: Episode): TaskResult<seq<PlanEntry>> {
    if |entries| != 1 then TaskFailed("planner returned an unexpected entry count")
    else if !SameIdentity(entries[0], expected) then TaskFailed("episode identity changed during planning")
    else Done([entries[0].(index := expected.index)])
  }

  /** What the planner upstream comes back with for one episode. */
  datatype Upstream = Plan(entries: seq<PlanEntry>) | UpstreamError(reason: string) | TimedOut | Vanished

  function PlanTask(upstream: Upstream, episode: Episode): TaskResult<seq<PlanEntry>> {
    match upstream
    case Plan(entries) => ValidateEpisode(entries, episode)
    case UpstreamError(reason) => TaskFailed(reason)
    case TimedOut => TaskFailed("planning timed out")
    case Vanished => Lost
  }

  function Flatten<T>(parts: seq<seq<T>>): seq<T> {
    if parts == [] then [] else parts[0] + Flatten(parts[1..])
  }

  function Tasks(planned: seq<Episode>, upstream: Episode -> Upstream): (r: seq<TaskResult<seq<PlanEntry>>>)
    ensures |r| == |planned|
  {
    seq(|planned|, i requires 0 <= i < |planned| => PlanTask(upstream(planned[i]), planned[i]))
  }

  /** The upstream planned exactly the episode it was asked for; the index it gives is of no account. */
  predicate Answers(upstream: Upstream, episode: Episode) {
    && upstream.Plan? && |upstream.entries| == 1 && upstream.entries[0].epid == Some(episode.epid)
    && upstream.entries[0].aid == episode.aid && upstream.entries[0].cid == episode.cid
  }

  /** The entry of an episode in the season's plan: its own identity and index, and the stream found for it. */
  function EntryFor(upstream: Upstream, episode: Episode): PlanEntry
    requires Answers(upstream, episode)
  {
    PlanEntry(episode.index, Some(episode.epid), episode.aid, episode.cid, upstream.entries[0].stream)
  }

  lemma TaskExactly(upstream: Upstream, episode: Episode)
    ensures PlanTask(upstream, episode).Done? <==> Answers(upstream, episode)
    ensures Answers(upstream, episode) ==> PlanTask(upstream, episode) == Done([EntryFor(upstream, episode)])
  {
  }

  /** Every planned episode was answered, and its answer stands in the plan. */
  predicate PlansAll(entries: seq<PlanEntry>, planned: seq<Episode>, upstream: Episode -> Upstream) {
    |entries| == |planned| && forall i :: 0 <= i < |planned| ==>
      Answers(upstream(planned[i]), planned[i]) && entries[i] == EntryFor(upstream(planned[i]), planned[i])
  }

  lemma {:induction false} FlattenPlansAll(parts: seq<seq<PlanEntry>>, planned: seq<Episode>,
                                           upstream: Episode -> Upstream)
    requires |parts| == |planned|
    requires forall i :: 0 <= i < |parts| ==>
               Answers(upstream(planned[i]), planned[i]) && parts[i] == [EntryFor(upstream(planned[i]), planned[i])]
    ensures PlansAll(Flatten(parts), planned, upstream)
  {
    hide Answers, EntryFor;
    if parts != [] {
      FlattenPlansAll(parts[1..], planned[1..], upstream);
      var rest := Flatten(parts[1..]);
      assert Flatten(parts) == [parts[0][0]] + rest;
      assert forall i :: 0 < i < |planned| ==> planned[i] == planned[1..][i - 1];
    }
  }

  predicate ExactPlan(entries: seq<PlanEntry>, planned: seq<Episode>) {
    |entries| == |planned| && forall i :: 0 <= i < |entries| ==>
      SameIdentity(entries[i], planned[i]) && entries[i].index == planned[i].index
  }

  lemma {:induction false} FlattenIsExact(parts: seq<seq<PlanEntry>>, planned: seq<Episode>)
    requires |parts| == |planned|
    requires forall i :: 0 <= i < |parts| ==> ExactPlan(parts[i], [planned[i]])
    ensures ExactPlan(Flatten(parts), planned)
  {
    if parts != [] {
      FlattenIsExact(parts[1..], planned[1..]);
      assert ExactPlan(parts[0], [planned[0]]);
      var rest := Flatten(parts[1..]);
      assert Flatten(parts) == [parts[0][0]] + rest;
      assert forall i :: 0 < i < |planned| ==> planned[i] == planned[1..][i - 1];
    }
  }

  datatype SeasonPlan<+E> =
    | Assembled(entries: seq<PlanEntry>, skipped: seq<(Episode, E)>)
    | NoEpisodes
    | PlanningFailed

  /**
   A plan exists exactly when something was selected and every planned episode was answered with one
   entry of its own identity. It then has one entry per planned episode, in order, with that
   episode's identity and original index and the stream of its answer.
   */
  method PlanSeason<E>(episodes: seq<Episode>, evidence: seq<Option<E>>, upstream: Episode -> Upstream)
    returns (plan: SeasonPlan<E>)
    requires |episodes| == |evidence|
    ensures plan.Assembled? <==>
              && episodes != []
              && forall i :: 0 <= i < |Planned(episodes, evidence)| ==>
                   Answers(upstream(Planned(episodes, evidence)[i]), Planned(episodes, evidence)[i])
    ensures plan.Assembled? ==>
              && PlansAll(plan.entries, Planned(episodes, evidence), upstream)
              && ExactPlan(plan.entries, Planned(episodes, evidence)) && plan.skipped == Skipped(episodes, evidence)
    ensures plan.NoEpisodes? <==> episodes == []
  {
    hide ExactPlan, PlanTask, Planned, Skipped, LogSafe, Running, Started, Reported, StopsAtFailure;
    hide PlansAll, Answers;
    var planned, skipped := PartitionExistingEpisodes(episodes, evidence);
    PartitionIsSplit(episodes, evidence);
    if planned == [] {
      if skipped == [] { return NoEpisodes; }
      NothingPlanned(upstream);
      return Assembled([], skipped);
    }
    var indices := seq(|planned|, i requires 0 <= i < |planned| => planned[i].index);
    var results := Tasks(planned, upstream);
    TasksDone(planned, upstream);
    var answer, log := ScheduleBounded(indices, results);
    if !answer.Completed? { return PlanningFailed; }
    TasksAreExact(planned, upstream);
    FlattenIsExact(answer.outputs, planned);
    FlattenPlansAll(answer.outputs, planned, upstream);
    plan := Assembled(Flatten(answer.outputs), skipped);
  }

  lemma NothingPlanned(upstream: Episode -> Upstream)
    ensures ExactPlan([], []) && PlansAll([], [], upstream)
  {
  }

  lemma TasksDone(planned: seq<Episode>, upstream: Episode -> Upstream)
    ensures AllDone(Tasks(planned, upstream)) <==>
              forall i :: 0 <= i < |planned| ==> Answers(upstream(planned[i]), planned[i])
    ensures AllDone(Tasks(planned, upstream)) ==>
              forall i :: 0 <= i < |planned| ==>
                && Answers(upstream(planned[i]), planned[i])
                && Outputs(Tasks(planned, upstream))[i] == [EntryFor(upstream(planned[i]), planned[i])]
  {
    hide PlanTask, Answers;
    forall i | 0 <= i < |planned|
      ensures PlanTask(upstream(planned[i]), planned[i]).Done? <==> Answers(upstream(planned[i]), planned[i])
      ensures Answers(upstream(planned[i]), planned[i]) ==>
                PlanTask(upstream(planned[i]), planned[i]) == Done([EntryFor(upstream(planned[i]), planned[i])])
    {
      TaskExactly(upstream(planned[i]), planned[i]);
    }
    var tasks := Tasks(planned, upstream);
    assert forall i :: 0 <= i < |planned| ==> tasks[i] == PlanTask(upstream(planned[i]), planned[i]);
    assert AllDone(tasks) ==> forall i :: 0 <= i < |planned| ==> tasks[i].Done?;
    assert (forall i :: 0 <= i < |planned| ==> Answers(upstream(planned[i]), planned[i])) ==>
             forall i :: 0 <= i < |planned| ==> tasks[i].Done?;
  }

  lemma TasksAreExact(planned: seq<Episode>, upstream: Episode -> Upstream)
    requires AllDone(Tasks(planned, upstream))
    ensures var outputs := Outputs(Tasks(planned, upstream));
            forall i :: 0 <= i < |planned| ==> ExactPlan(outputs[i], [planned[i]])
  {
    hide PlanTask, ExactPlan;
    forall i | 0 <= i < |planned|
      ensures ExactPlan(Outputs(Tasks(planned, upstream))[i], [planned[i]])
    {
      assert Tasks(planned, upstream)[i] == PlanTask(upstream(planned[i]), planned[i]);
      assert Tasks(planned, upstream)[i].Done?;
      TaskIsExact(upstream(planned[i]), planned[i]);
    }
  }

  lemma TaskIsExact(upstream: Upstream, episode: Episode)
    requires PlanTask(upstream, episode).Done?
    ensures ExactPlan(PlanTask(upstream, episode).output, [episode])
  {
  }
}
