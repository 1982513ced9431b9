/** What a stream of reports about one entry comes to, without following the states in between. */
module AttemptReports {
  import opened Bytes
  import opened Attempt

  function Reported(e: Entry, reports: seq<Update>, independent: bool): Entry {
    if reports == [] then e
    else UpdateEntry(Reported(e, reports[..|reports| - 1], independent), reports[|reports| - 1], independent)
  }

  /** A sequential attempt ignores files that are already present. */
  predicate Verifies(update: Update, independent: bool) {
    update.UpdateVerified? || update.VerifiedWithOutputs? || (update.AlreadyPresent? && independent)
  }

  predicate WithOutputs(update: Update, independent: bool) {
    update.VerifiedWithOutputs? || (update.AlreadyPresent? && independent)
  }

  predicate Downloads(update: Update) { update.UpdateVerified? || update.VerifiedWithOutputs? }

  predicate AnyVerifies(reports: seq<Update>, independent: bool) {
    exists i :: 0 <= i < |reports| && Verifies(reports[i], independent)
  }

  predicate AnyDownloads(reports: seq<Update>) { exists i :: 0 <= i < |reports| && Downloads(reports[i]) }

  /** The last report that verifies is the one at i. */
  predicate LastVerifying(reports: seq<Update>, independent: bool, i: nat) {
    && i < |reports| && Verifies(reports[i], independent)
    && forall j :: i < j < |reports| ==> !Verifies(reports[j], independent)
  }

  predicate LastWithOutputs(reports: seq<Update>, independent: bool, i: nat) {
    && i < |reports| && WithOutputs(reports[i], independent)
    && forall j :: i < j < |reports| ==> !WithOutputs(reports[j], independent)
  }

  /** An entry is verified exactly when it was or some report says so: nothing later takes it back. */
  lemma {:induction false} VerifiedForGood(e: Entry, reports: seq<Update>, independent: bool)
    ensures Reported(e, reports, independent).state.EntryVerified? <==>
            e.state.EntryVerified? || AnyVerifies(reports, independent)
  {
    if reports != [] {
      var init, last := reports[..|reports| - 1], reports[|reports| - 1];
      VerifiedForGood(e, init, independent);
      VerifiedStep(Reported(e, init, independent), last, independent);
      AnyVerifiesSplit(reports, independent);
    }
  }

  lemma AnyVerifiesSplit(reports: seq<Update>, independent: bool)
    requires reports != []
    ensures AnyVerifies(reports, independent) <==>
            AnyVerifies(reports[..|reports| - 1], independent) || Verifies(reports[|reports| - 1], independent)
  {
    var init, last := reports[..|reports| - 1], reports[|reports| - 1];
    if i :| 0 <= i < |reports| && Verifies(reports[i], independent) {
      if i < |init| { assert init[i] == reports[i]; }
    }
    if i :| 0 <= i < |init| && Verifies(init[i], independent) {
      assert Verifies(reports[i], independent);
    }
  }

  lemma VerifiedStep(e: Entry, update: Update, independent: bool)
    ensures UpdateEntry(e, update, independent).state.EntryVerified? <==>
              e.state.EntryVerified? || Verifies(update, independent)
    ensures e.state.EntryVerified? && !Verifies(update, independent) ==> UpdateEntry(e, update, independent) == e
    ensures !WithOutputs(update, independent) && e.state.EntryVerified? ==>
              UpdateEntry(e, update, independent).receipts == e.receipts
  {
  }

  /** Whether the files were already there is decided by the last verifying report alone. */
  lemma {:induction false} PresenceIsLast(e: Entry, reports: seq<Update>, i: nat)
    requires LastVerifying(reports, true, i)
    ensures Reported(e, reports, true).alreadyPresent <==> reports[i].AlreadyPresent?
    decreases |reports|
  {
    var init, last := reports[..|reports| - 1], reports[|reports| - 1];
    if i < |reports| - 1 {
      assert LastVerifying(init, true, i);
      PresenceIsLast(e, init, i);
      assert Verifies(init[i], true);
      VerifiedForGood(e, init, true);
      VerifiedStep(Reported(e, init, true), last, true);
    }
  }

  /** The receipts of a verified entry are those of the last report that had any. */
  lemma {:induction false} ReceiptsAreLast(e: Entry, reports: seq<Update>, independent: bool, i: nat)
    requires LastWithOutputs(reports, independent, i)
    ensures Reported(e, reports, independent).receipts == reports[i].receipts
    decreases |reports|
  {
    var init, last := reports[..|reports| - 1], reports[|reports| - 1];
    if i < |reports| - 1 {
      assert LastWithOutputs(init, independent, i);
      ReceiptsAreLast(e, init, independent, i);
      assert Verifies(init[i], independent);
      VerifiedForGood(e, init, independent);
      VerifiedStep(Reported(e, init, independent), last, independent);
    }
  }

  /** A redownload mark survives every report but a verified download. */
  lemma {:induction false} RedownloadSurvives(e: Entry, reports: seq<Update>)
    ensures Reported(e, reports, true).requiresRedownload <==> e.requiresRedownload && !AnyDownloads(reports)
  {
    hide UpdateEntry, Downloads;
    if reports != [] {
      var init, last := reports[..|reports| - 1], reports[|reports| - 1];
      RedownloadSurvives(e, init);
      RedownloadStep(Reported(e, init, true), last);
      AnyDownloadsSplit(reports);
    }
  }

  lemma RedownloadStep(e: Entry, update: Update)
    ensures UpdateEntry(e, update, true).requiresRedownload <==> e.requiresRedownload && !Downloads(update)
  {
  }

  lemma AnyDownloadsSplit(reports: seq<Update>)
    requires reports != []
    ensures AnyDownloads(reports) <==> AnyDownloads(reports[..|reports| - 1]) || Downloads(reports[|reports| - 1])
  {
    hide Downloads;
    var init := reports[..|reports| - 1];
    if i :| 0 <= i < |reports| && Downloads(reports[i]) {
      if i < |init| { assert init[i] == reports[i]; }
    }
    if i :| 0 <= i < |init| && Downloads(init[i]) {
      assert Downloads(reports[i]);
    }
  }

  /** A downloaded entry is only moved by a verification, a retry or a failure that names its error. */
  lemma {:induction false} DownloadedSticks(e: Entry, reports: seq<Update>, independent: bool)
    requires e.state.Downloaded? && !AnyVerifies(reports, independent)
    requires forall i :: 0 <= i < |reports| ==> !reports[i].Retrying? && !reports[i].FailedWithError?
    ensures Reported(e, reports, independent) == e.(stage := Reported(e, reports, independent).stage)
    ensures !independent ==> Reported(e, reports, independent) == e
  {
    if reports != [] {
      var init, last := reports[..|reports| - 1], reports[|reports| - 1];
      AnyVerifiesSplit(reports, independent);
      DownloadedSticks(e, init, independent);
    }
  }

  // ---- inside an attempt ----

  /** The reports among the operations that concern an index. */
  function ReportsFor(ops: seq<Operation>, index: nat): seq<Update> {
    if ops == [] then []
    else
      var last := ops[|ops| - 1];
      ReportsFor(ops[..|ops| - 1], index) + (if last.Apply? && last.index == index then [last.update] else [])
  }

  /** While an attempt is open every entry sees exactly the reports about its index, in order. */
  lemma {:induction false} RunIsReports(s: Snapshot, ops: seq<Operation>, i: nat)
    requires s.outcome.None? && i < |s.entries| && forall k :: 0 <= k < |ops| ==> ops[k].Apply?
    ensures var t := Run(s, ops);
            && t.outcome.None? && t.independent == s.independent && |t.entries| == |s.entries|
            && t.entries[i].index == s.entries[i].index
            && t.entries[i] == Reported(s.entries[i], ReportsFor(ops, s.entries[i].index), s.independent)
  {
    hide UpdateEntry, CountPresent;
    if ops != [] {
      var init, last := ops[..|ops| - 1], ops[|ops| - 1];
      RunIsReports(s, init, i);
      UpdateEntryHistory(Run(s, init).entries[i], last.update, s.independent);
      var before := ReportsFor(init, s.entries[i].index);
      if last.index == s.entries[i].index {
        OneMoreReport(s.entries[i], before, last.update, s.independent);
      } else {
        assert before + [] == before;
      }
    }
  }

  lemma OneMoreReport(e: Entry, reports: seq<Update>, update: Update, independent: bool)
    ensures Reported(e, reports + [update], independent)
         == UpdateEntry(Reported(e, reports, independent), update, independent)
  {
    assert (reports + [update])[..|reports|] == reports;
  }

  // ---- resuming ----

  lemma {:induction false} FailedIndicesSpec(entries: seq<Entry>, index: nat)
    ensures index in FailedIndices(entries) <==>
            exists i :: 0 <= i < |entries| && entries[i].index == index && entries[i].state.EntryFailed?
  {
    if entries != [] {
      FailedIndicesSpec(entries[1..], index);
      assert entries == [entries[0]] + entries[1..];
      if i :| 0 <= i < |entries| && entries[i].index == index && entries[i].state.EntryFailed? {
        if i > 0 { assert entries[1..][i - 1] == entries[i]; }
      }
    }
  }

  /**
   Resuming an independent attempt reopens it. Retrying the failed entries resets exactly those and
   its scope is exactly their indices; a plain resume resets everything unfinished and has no scope.
   A reset entry waits without receipts but keeps its attempts, error and redownload mark.
   */
  lemma ResumeSpec(s: Snapshot, retryFailed: bool, i: nat)
    requires s.independent && i < |s.entries|
    ensures var t, e := Step(s, PrepareResume(retryFailed)), s.entries[i];
            var f := t.entries[i];
            && t.outcome.None? && |t.entries| == |s.entries|
            && (f == e || (f.state.Pending? &&
                           f == e.(state := Pending, stage := "", alreadyPresent := false, receipts := NO_RECEIPTS)))
            && (e.state.EntryVerified? || e.state.Downloaded? ==> f == e)
            && (retryFailed ==> (f != e <==> e.state.EntryFailed?))
            && (!retryFailed ==> f.state.Pending? || f.state.Downloaded? || f.state.EntryVerified?)
            && (t.retryIndices.Some? <==> retryFailed)
            && (retryFailed ==> forall index :: index in t.retryIndices.value <==>
                  exists k :: 0 <= k < |s.entries| && s.entries[k].index == index && s.entries[k].state.EntryFailed?)
  {
    hide FailedIndices, CountPresent;
    forall index: nat
      ensures index in FailedIndices(s.entries) <==>
              exists k :: 0 <= k < |s.entries| && s.entries[k].index == index && s.entries[k].state.EntryFailed?
    {
      FailedIndicesSpec(s.entries, index);
    }
  }

  // ---- finishing ----

  /**
   What an attempt that may still be finished comes to. An independent one is Verified exactly when
   that was requested and every entry is, and Failed exactly when success or failure was requested
   and no entry is verified. Only entries still downloading change, and they count as failed only
   when the attempt was neither cancelled nor interrupted; a sequential success verifies all.
   */
  lemma FinishSpec(s: Snapshot, outcome: Outcome, i: nat)
    requires s.outcome.Some? ==> MayReplace(s.outcome.value, outcome)
    requires i < |s.entries|
    ensures var t := Step(s, Finish(outcome));
            && t.outcome.Some? && |t.entries| == |s.entries|
            && (s.independent ==>
                  (t.outcome == Some(Verified) <==> outcome.Verified? && AllIn(s.entries, EntryVerified)))
            && (s.independent ==> (t.outcome == Some(Failed) <==>
                  (outcome.Failed? || outcome.Verified?) && NoneIn(s.entries, EntryVerified)))
            && (outcome.PartiallyCompleted? || outcome.Cancelled? || outcome.Interrupted? || !s.independent ==>
                t.outcome == Some(outcome))
    ensures var t, e := Step(s, Finish(outcome)), s.entries[i];
            var f := t.entries[i];
            if outcome.Verified? && !s.independent then f == e.(state := EntryVerified, stage := "")
            else if !e.state.Downloading? then f == e
            else if outcome.Cancelled? || outcome.Interrupted? then f == e.(state := EntryInterrupted)
            else f == e.(state := EntryFailed)
  {
    hide CountState;
    CountExtremes(s.entries, EntryVerified);
    assert AllIn(s.entries, EntryVerified) ==> s.entries[i].state.EntryVerified?;
  }

  // ---- a whole session ----

  /** The entry was verified before, or one of the reports about its index verifies it. */
  predicate EverVerified(s: Snapshot, reports: seq<Operation>, i: nat)
    requires i < |s.entries|
  {
    s.entries[i].state.EntryVerified? || AnyVerifies(ReportsFor(reports, s.entries[i].index), s.independent)
  }

  /** What was verified decides the outcome, whatever was requested: never a success that is not one. */
  predicate Settles(s: Snapshot, reports: seq<Operation>, requested: Outcome, t: Snapshot) {
    && t.outcome.Some? && t.independent == s.independent && |t.entries| == |s.entries|
    && (forall i :: 0 <= i < |s.entries| ==> t.entries[i].index == s.entries[i].index)
    && (forall i :: 0 <= i < |s.entries| ==> (t.entries[i].state.EntryVerified? <==> EverVerified(s, reports, i)))
    && (t.outcome == Some(Verified) <==>
          requested.Verified? && forall i :: 0 <= i < |s.entries| ==> EverVerified(s, reports, i))
    && (t.outcome == Some(Failed) <==>
          && (requested.Failed? || (requested.Verified? && |s.entries| > 0))
          && forall i :: 0 <= i < |s.entries| ==> !EverVerified(s, reports, i))
    && (forall i :: 0 <= i < |s.entries| ==> !t.entries[i].state.Downloading?)
  }

  lemma FinishSettles(s: Snapshot, requested: Outcome)
    requires s.independent && s.outcome.None?
    ensures Settles(s, [], requested, Step(s, Finish(requested)))
  {
    hide CountState;
    forall i | 0 <= i < |s.entries|
      ensures EverVerified(s, [], i) <==> s.entries[i].state.EntryVerified?
    {
    }
    var t := Step(s, Finish(requested));
    CountExtremes(s.entries, EntryVerified);
    forall i | 0 <= i < |s.entries|
      ensures t.entries[i].state.EntryVerified? <==> s.entries[i].state.EntryVerified?
      ensures !t.entries[i].state.Downloading? && t.entries[i].index == s.entries[i].index
    {
      FinishSpec(s, requested, i);
    }
  }

  /** Reports in any order and number, then the end of the attempt. */
  lemma FinishAfterReports(s: Snapshot, reports: seq<Operation>, requested: Outcome)
    requires s.independent && s.outcome.None? && forall k :: 0 <= k < |reports| ==> reports[k].Apply?
    ensures Settles(s, reports, requested, Run(s, reports + [Finish(requested)]))
  {
    hide Step, Reported, ReportsFor, AnyVerifies;
    var t := Run(s, reports);
    assert (reports + [Finish(requested)])[..|reports|] == reports;
    OpenUnderReports(s, reports);
    FinishSettles(t, requested);
    forall i | 0 <= i < |s.entries|
      ensures EverVerified(t, [], i) <==> EverVerified(s, reports, i)
      ensures t.entries[i].index == s.entries[i].index
    {
      RunIsReports(s, reports, i);
      VerifiedForGood(s.entries[i], ReportsFor(reports, s.entries[i].index), true);
      NoReports(t.entries[i].index);
    }
  }

  lemma NoReports(index: nat)
    ensures !AnyVerifies(ReportsFor([], index), true)
  {
  }

  lemma {:induction false} OpenUnderReports(s: Snapshot, reports: seq<Operation>)
    requires s.outcome.None? && forall k :: 0 <= k < |reports| ==> reports[k].Apply?
    ensures var t := Run(s, reports);
            t.outcome.None? && t.independent == s.independent && |t.entries| == |s.entries|
  {
    hide UpdateEntry, CountPresent;
    if reports != [] { OpenUnderReports(s, reports[..|reports| - 1]); }
  }

  lemma {:induction false} RunFirst(s: Snapshot, first: Operation, ops: seq<Operation>)
    ensures Run(s, [first] + ops) == Run(Step(s, first), ops)
  {
    hide Step;
    if ops == [] {
      assert [first] + ops == [first] && [first][..0] == [];
      assert Run(s, [first]) == Step(Run(s, []), first);
    } else {
      RunFirst(s, first, ops[..|ops| - 1]);
      assert ([first] + ops)[..|ops|] == [first] + ops[..|ops| - 1];
    }
  }

  /**
   A resumed attempt, retried in whole or for its failed entries, with whatever outcome before: what
   was verified in the earlier sessions counts, and the reports of this one decide the rest.
   */
  lemma RetryThenFinish(s: Snapshot, retryFailed: bool, reports: seq<Operation>, requested: Outcome)
    requires s.independent && forall k :: 0 <= k < |reports| ==> reports[k].Apply?
    ensures Settles(s, reports, requested, Run(s, [PrepareResume(retryFailed)] + (reports + [Finish(requested)])))
  {
    hide Step, Run, ReportsFor, AnyVerifies, FailedIndices;
    var resumed := Step(s, PrepareResume(retryFailed));
    RunFirst(s, PrepareResume(retryFailed), reports + [Finish(requested)]);
    Resumed(s, retryFailed);
    FinishAfterReports(resumed, reports, requested);
    forall i | 0 <= i < |s.entries|
      ensures EverVerified(resumed, reports, i) <==> EverVerified(s, reports, i)
      ensures resumed.entries[i].index == s.entries[i].index
    {
      ResumeSpec(s, retryFailed, i);
    }
  }

  lemma Resumed(s: Snapshot, retryFailed: bool)
    requires s.independent
    ensures var t := Step(s, PrepareResume(retryFailed));
            t.outcome.None? && t.independent && |t.entries| == |s.entries|
  {
    hide CountPresent, FailedIndices;
  }

  /**
   Retrying one episode reopens the attempt for its index alone: the first entry with that index waits
   again without error and receipts. It is refused, and changes nothing, when there is none, when the
   attempt is sequential, or when the entry is verified, downloaded or downloading.
   */
  lemma EpisodeRetrySpec(s: Snapshot, index: nat, k: nat)
    requires k <= |s.entries| && forall j :: 0 <= j < k ==> s.entries[j].index != index
    requires k < |s.entries| ==> s.entries[k].index == index
    ensures var t := Step(s, PrepareEpisodeRetry(index));
            if s.independent && k < |s.entries| && s.entries[k].state in {Pending, EntryFailed, EntryInterrupted} then
              && t.outcome.None? && t.independent && t.retryIndices == Some([index])
              && t.entries == s.entries[k := s.entries[k].(state := Pending, stage := "", alreadyPresent := false,
                                                           error := None, receipts := NO_RECEIPTS)]
            else t == s
  {
    hide CountPresent;
    FindIndexIs(s.entries, index, k);
  }

  lemma {:induction false} FindIndexIs(entries: seq<Entry>, index: nat, k: nat)
    requires k <= |entries| && forall j :: 0 <= j < k ==> entries[j].index != index
    requires k < |entries| ==> entries[k].index == index
    ensures FindIndex(entries, index) == k
  {
    if k > 0 { FindIndexIs(entries[1..], index, k - 1); }
  }

  /** Retrying one episode of an attempt with whatever outcome: the other entries count as they stand. */
  lemma EpisodeRetryThenFinish(s: Snapshot, index: nat, reports: seq<Operation>, requested: Outcome)
    requires Retryable(s, index) && forall k :: 0 <= k < |reports| ==> reports[k].Apply?
    ensures Settles(s, reports, requested, Run(s, [PrepareEpisodeRetry(index)] + (reports + [Finish(requested)])))
  {
    hide Step, Run, ReportsFor, AnyVerifies;
    var at := FindIndex(s.entries, index);
    var retried := Step(s, PrepareEpisodeRetry(index));
    FindIndexFirst(s.entries, index);
    EpisodeRetrySpec(s, index, at);
    RunFirst(s, PrepareEpisodeRetry(index), reports + [Finish(requested)]);
    FinishAfterReports(retried, reports, requested);
    forall i | 0 <= i < |s.entries|
      ensures EverVerified(retried, reports, i) <==> EverVerified(s, reports, i)
    {
    }
  }

  lemma {:induction false} FindIndexFirst(entries: seq<Entry>, index: nat)
    ensures forall j :: 0 <= j < FindIndex(entries, index) ==> entries[j].index != index
  {
    if entries != [] && entries[0].index != index {
      FindIndexFirst(entries[1..], index);
      assert forall j :: 0 < j < |entries| ==> entries[j] == entries[1..][j - 1];
    }
  }

  // ---- many sessions ----

  /** One resumption of an attempt: the retry, the reports while it runs, and its end. */
  datatype Session = Session(retryFailed: bool, reports: seq<Operation>, requested: Outcome)

  function SessionOps(x: Session): seq<Operation> {
    [PrepareResume(x.retryFailed)] + (x.reports + [Finish(x.requested)])
  }

  function After(s: Snapshot, sessions: seq<Session>): Snapshot {
    if sessions == [] then s else Run(After(s, sessions[..|sessions| - 1]), SessionOps(sessions[|sessions| - 1]))
  }

  predicate OnlyReports(sessions: seq<Session>) {
    forall k :: 0 <= k < |sessions| ==>
      forall j :: 0 <= j < |sessions[k].reports| ==> sessions[k].reports[j].Apply?
  }

  predicate AnySessionVerifies(sessions: seq<Session>, index: nat) {
    exists k :: 0 <= k < |sessions| && AnyVerifies(ReportsFor(sessions[k].reports, index), true)
  }

  lemma LastSession(sessions: seq<Session>, index: nat)
    requires sessions != []
    ensures AnySessionVerifies(sessions, index) <==>
              || AnySessionVerifies(sessions[..|sessions| - 1], index)
              || AnyVerifies(ReportsFor(sessions[|sessions| - 1].reports, index), true)
  {
    hide AnyVerifies, ReportsFor;
    var init := sessions[..|sessions| - 1];
    if k :| 0 <= k < |sessions| && AnyVerifies(ReportsFor(sessions[k].reports, index), true) {
      if k < |init| { assert init[k] == sessions[k]; }
    }
    if k :| 0 <= k < |init| && AnyVerifies(ReportsFor(init[k].reports, index), true) {
      assert sessions[k] == init[k];
    }
  }

  /**
   Work is never lost between sessions: an entry is verified in the end exactly when it was at the
   start or some session verified it, and the last session succeeds exactly when all entries are.
   */
  lemma {:induction false} SessionsAccumulate(s: Snapshot, sessions: seq<Session>)
    requires s.independent && OnlyReports(sessions)
    ensures var t := After(s, sessions);
            && t.independent && |t.entries| == |s.entries|
            && (forall i :: 0 <= i < |s.entries| ==>
                  && t.entries[i].index == s.entries[i].index
                  && (t.entries[i].state.EntryVerified? <==>
                        s.entries[i].state.EntryVerified? || AnySessionVerifies(sessions, s.entries[i].index)))
            && (sessions != [] ==>
                  (t.outcome == Some(Verified) <==>
                     && sessions[|sessions| - 1].requested.Verified?
                     && forall i :: 0 <= i < |s.entries| ==>
                          s.entries[i].state.EntryVerified? || AnySessionVerifies(sessions, s.entries[i].index)))
  {
    hide Run, AnyVerifies, ReportsFor;
    if sessions != [] {
      var init, last := sessions[..|sessions| - 1], sessions[|sessions| - 1];
      var before := After(s, init);
      SessionsAccumulate(s, init);
      RetryThenFinish(before, last.retryFailed, last.reports, last.requested);
      forall i | 0 <= i < |s.entries|
        ensures EverVerified(before, last.reports, i) <==>
                s.entries[i].state.EntryVerified? || AnySessionVerifies(sessions, s.entries[i].index)
      {
        LastSession(sessions, s.entries[i].index);
      }
    }
  }
}
