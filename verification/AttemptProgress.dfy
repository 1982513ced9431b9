/**
 Where an entry stands after any stream of reports, said of the stream alone: which report made it
 downloaded, failed or downloading, which error it carries and how many attempts it counts.
 */
module AttemptProgress {
  import opened Bytes
  import opened Attempt
  import opened AttemptReports

  /** No report verifies the entry and it was not verified before. */
  predicate NeverVerified(e: Entry, reports: seq<Update>, independent: bool) {
    !e.state.EntryVerified? && !AnyVerifies(reports, independent)
  }

  /** What takes a finished download back. */
  predicate TakesBack(u: Update) { u.Retrying? || u.FailedWithError? }

  predicate NothingTakenBack(reports: seq<Update>, from: nat) {
    forall i :: from <= i < |reports| ==> !TakesBack(reports[i])
  }

  predicate CompletedAt(reports: seq<Update>, c: nat) {
    c < |reports| && reports[c].Completed? && NothingTakenBack(reports, c + 1)
  }

  /** The entry was downloaded, or some report completed it, and nothing since took that back. */
  predicate HasDownload(e: Entry, reports: seq<Update>) {
    (e.state.Downloaded? && NothingTakenBack(reports, 0)) || exists c: nat :: c < |reports| && CompletedAt(reports, c)
  }

  /** Reports that put an entry without a download into a state. */
  predicate Moves(u: Update) { u.Started? || u.UpdateFailed? || TakesBack(u) }

  predicate LastMove(reports: seq<Update>, i: nat) {
    i < |reports| && Moves(reports[i]) && forall j :: i < j < |reports| ==> !Moves(reports[j])
  }

  predicate NoMove(reports: seq<Update>) { forall j :: 0 <= j < |reports| ==> !Moves(reports[j]) }

  predicate AnyStage(reports: seq<Update>) { exists j :: 0 <= j < |reports| && reports[j].StageStarted? }

  // ---- one report more ----

  lemma NeverVerifiedSplit(e: Entry, reports: seq<Update>, independent: bool)
    requires NeverVerified(e, reports, independent) && reports != []
    ensures NeverVerified(e, reports[..|reports| - 1], independent) && !Verifies(reports[|reports| - 1], independent)
    ensures !Reported(e, reports[..|reports| - 1], independent).state.EntryVerified?
  {
    hide Verifies;
    AnyVerifiesSplit(reports, independent);
    VerifiedForGood(e, reports[..|reports| - 1], independent);
  }

  lemma HasDownloadSplit(e: Entry, reports: seq<Update>)
    requires reports != []
    ensures var init, last := reports[..|reports| - 1], reports[|reports| - 1];
            HasDownload(e, reports) <==> last.Completed? || (HasDownload(e, init) && !TakesBack(last))
  {
    hide TakesBack;
    var init, last := reports[..|reports| - 1], reports[|reports| - 1];
    assert forall i :: 0 <= i < |init| ==> init[i] == reports[i];
    if last.Completed? { assert CompletedAt(reports, |init|); }
    if c: nat :| CompletedAt(reports, c) {
      if c < |init| { assert CompletedAt(init, c) && !TakesBack(last); }
    }
    if c: nat :| CompletedAt(init, c) {
      if !TakesBack(last) { assert CompletedAt(reports, c); }
    }
  }

  /** What one report does to an entry that it does not verify. */
  lemma ReportStep(e: Entry, u: Update, independent: bool)
    requires !e.state.EntryVerified? && !Verifies(u, independent)
    ensures var f := UpdateEntry(e, u, independent);
            && (f.state.Downloaded? <==> u.Completed? || (e.state.Downloaded? && !TakesBack(u)))
            && (!f.state.Downloaded? && Moves(u) ==>
                  f.state == if u.UpdateFailed? || u.FailedWithError? then EntryFailed else Downloading)
            && (!f.state.Downloaded? && !Moves(u) ==>
                  f.state == if u.StageStarted? && e.state.Pending? then Downloading else e.state)
  {
  }

  // ---- states ----

  /** An entry never verified is downloaded exactly when the stream says so. */
  lemma {:induction false} DownloadedExactly(e: Entry, reports: seq<Update>, independent: bool)
    requires NeverVerified(e, reports, independent)
    ensures Reported(e, reports, independent).state.Downloaded? <==> HasDownload(e, reports)
  {
    hide UpdateEntry, Verifies, TakesBack;
    if reports == [] {
      assert forall c: nat :: !CompletedAt(reports, c);
    } else {
      NeverVerifiedSplit(e, reports, independent);
      HasDownloadSplit(e, reports);
      DownloadedExactly(e, reports[..|reports| - 1], independent);
      ReportStep(Reported(e, reports[..|reports| - 1], independent), reports[|reports| - 1], independent);
    }
  }

  /** Without a download the last report that moves the entry decides: failed or downloading. */
  lemma {:induction false} StateIsLast(e: Entry, reports: seq<Update>, independent: bool, i: nat)
    requires NeverVerified(e, reports, independent) && !HasDownload(e, reports) && LastMove(reports, i)
    ensures Reported(e, reports, independent).state ==
            if reports[i].UpdateFailed? || reports[i].FailedWithError? then EntryFailed else Downloading
    decreases |reports|
  {
    hide UpdateEntry, Verifies, TakesBack, HasDownload;
    var init, last := reports[..|reports| - 1], reports[|reports| - 1];
    NeverVerifiedSplit(e, reports, independent);
    HasDownloadSplit(e, reports);
    DownloadedExactly(e, reports, independent);
    ReportStep(Reported(e, init, independent), last, independent);
    if i < |init| {
      assert LastMove(init, i) && !Moves(last);
      StateIsLast(e, init, independent, i);
    }
  }

  /** Until a report moves it an entry stays as it was, except that a stage begins a waiting one. */
  lemma {:induction false} StateUnmoved(e: Entry, reports: seq<Update>, independent: bool)
    requires NeverVerified(e, reports, independent) && !HasDownload(e, reports) && NoMove(reports)
    ensures Reported(e, reports, independent).state ==
            if e.state.Pending? && AnyStage(reports) then Downloading else e.state
  {
    hide UpdateEntry, Verifies, TakesBack, HasDownload;
    if reports != [] {
      var init, last := reports[..|reports| - 1], reports[|reports| - 1];
      NeverVerifiedSplit(e, reports, independent);
      HasDownloadSplit(e, reports);
      DownloadedExactly(e, reports, independent);
      ReportStep(Reported(e, init, independent), last, independent);
      assert NoMove(init) && !Moves(last);
      StateUnmoved(e, init, independent);
      AnyStageSplit(reports);
    }
  }

  lemma AnyStageSplit(reports: seq<Update>)
    requires reports != []
    ensures AnyStage(reports) <==> AnyStage(reports[..|reports| - 1]) || reports[|reports| - 1].StageStarted?
  {
    var init := reports[..|reports| - 1];
    if j :| 0 <= j < |reports| && reports[j].StageStarted? {
      if j < |init| { assert init[j] == reports[j]; }
    }
    if j :| 0 <= j < |init| && init[j].StageStarted? { assert reports[j] == init[j]; }
  }

  // ---- errors ----

  predicate TouchesError(u: Update) { TakesBack(u) || u.Completed? }

  predicate LastError(reports: seq<Update>, i: nat) {
    i < |reports| && TouchesError(reports[i]) && forall j :: i < j < |reports| ==> !TouchesError(reports[j])
  }

  lemma ErrorStep(e: Entry, u: Update, independent: bool)
    requires !e.state.EntryVerified? && !Verifies(u, independent)
    ensures UpdateEntry(e, u, independent).error ==
            if TakesBack(u) then Some(u.error) else if u.Completed? && !e.state.Downloaded? then None else e.error
  {
  }

  /**
   The error is the one of the last report that names one, and gone after a completion since then;
   completing a download that is complete already leaves the error alone.
   */
  lemma {:induction false} ErrorIsLast(e: Entry, reports: seq<Update>, independent: bool, i: nat)
    requires NeverVerified(e, reports, independent) && LastError(reports, i)
    ensures Reported(e, reports, independent).error ==
            if TakesBack(reports[i]) then Some(reports[i].error)
            else if e.state.Downloaded? && NothingTakenBack(reports, 0) then e.error
            else None
    decreases |reports|
  {
    hide UpdateEntry, Verifies, TakesBack, HasDownload, Reported;
    var init, last := reports[..|reports| - 1], reports[|reports| - 1];
    NeverVerifiedSplit(e, reports, independent);
    ReportedLast(e, reports, independent);
    ErrorStep(Reported(e, init, independent), last, independent);
    if i < |init| {
      assert LastError(init, i) && !TouchesError(last);
      ErrorIsLast(e, init, independent, i);
      assert NothingTakenBack(reports, 0) <==> NothingTakenBack(init, 0) && !TakesBack(last);
    } else if last.Completed? {
      ReportStep(Reported(e, init, independent), last, independent);
      CompletionClears(e, reports, independent);
    }
  }

  lemma ReportedLast(e: Entry, reports: seq<Update>, independent: bool)
    requires reports != []
    ensures Reported(e, reports, independent) ==
            UpdateEntry(Reported(e, reports[..|reports| - 1], independent), reports[|reports| - 1], independent)
  {
  }

  lemma ReportedNone(e: Entry, independent: bool)
    ensures Reported(e, [], independent) == e
  {
  }

  /** While a download made by these reports stands, no error does. */
  lemma {:induction false} CompletionClears(e: Entry, reports: seq<Update>, independent: bool)
    requires NeverVerified(e, reports, independent) && Reported(e, reports, independent).state.Downloaded?
    ensures Reported(e, reports, independent).error ==
            if e.state.Downloaded? && NothingTakenBack(reports, 0) then e.error else None
  {
    hide UpdateEntry, Verifies, TakesBack, HasDownload, Reported;
    if reports == [] {
      ReportedNone(e, independent);
    } else {
      var init, last := reports[..|reports| - 1], reports[|reports| - 1];
      NeverVerifiedSplit(e, reports, independent);
      ReportedLast(e, reports, independent);
      ReportStep(Reported(e, init, independent), last, independent);
      ErrorStep(Reported(e, init, independent), last, independent);
      CompletedTakesNothing(last);
      assert NothingTakenBack(reports, 0) <==> NothingTakenBack(init, 0) && !TakesBack(last);
      if Reported(e, init, independent).state.Downloaded? {
        CompletionClears(e, init, independent);
      } else if e.state.Downloaded? && NothingTakenBack(init, 0) {
        StillDownloaded(e, init, independent);
      }
    }
  }

  lemma CompletedTakesNothing(u: Update)
    ensures u.Completed? ==> !TakesBack(u)
  {
  }

  lemma {:induction false} StillDownloaded(e: Entry, reports: seq<Update>, independent: bool)
    requires NeverVerified(e, reports, independent) && e.state.Downloaded? && NothingTakenBack(reports, 0)
    ensures Reported(e, reports, independent).state.Downloaded?
  {
    DownloadedExactly(e, reports, independent);
  }

  /** Without such a report the error is the old one. */
  lemma {:induction false} ErrorUntouched(e: Entry, reports: seq<Update>, independent: bool)
    requires NeverVerified(e, reports, independent) && forall j :: 0 <= j < |reports| ==> !TouchesError(reports[j])
    ensures Reported(e, reports, independent).error == e.error
  {
    hide UpdateEntry, Verifies, TakesBack;
    if reports != [] {
      var init, last := reports[..|reports| - 1], reports[|reports| - 1];
      NeverVerifiedSplit(e, reports, independent);
      ErrorStep(Reported(e, init, independent), last, independent);
      ErrorUntouched(e, init, independent);
    }
  }

  // ---- attempts ----

  /** The report at i says that this many attempts were made; without a download a start or failure is one. */
  predicate Claims(e: Entry, reports: seq<Update>, i: nat, attempts: nat) {
    && i < |reports|
    && match reports[i]
       case Retrying(attempt, _) => attempts == attempt
       case FailedWithError(made, _) => attempts == made
       case Started => attempts == 1 && !HasDownload(e, reports[..i])
       case UpdateFailed => attempts == 1 && !HasDownload(e, reports[..i])
       case _ => false
  }

  lemma ClaimsInit(e: Entry, reports: seq<Update>, i: nat, attempts: nat)
    requires reports != [] && i < |reports| - 1
    ensures Claims(e, reports, i, attempts) <==> Claims(e, reports[..|reports| - 1], i, attempts)
  {
    hide HasDownload;
    assert reports[..|reports| - 1][..i] == reports[..i];
  }

  lemma AttemptsStep(e: Entry, reports: seq<Update>, before: Entry, independent: bool)
    requires reports != [] && !before.state.EntryVerified? && !Verifies(reports[|reports| - 1], independent)
    requires before.state.Downloaded? <==> HasDownload(e, reports[..|reports| - 1])
    ensures var f, last := UpdateEntry(before, reports[|reports| - 1], independent), |reports| - 1;
            && (f.attempts == before.attempts || (f.attempts > before.attempts && Claims(e, reports, last, f.attempts)))
            && before.attempts <= f.attempts
            && (forall n: nat :: Claims(e, reports, last, n) ==> n <= f.attempts)
  {
    hide HasDownload;
  }

  /** The attempts are the greatest number among what the entry had and what the reports claim. */
  lemma {:induction false} AttemptsAreGreatest(e: Entry, reports: seq<Update>, independent: bool)
    requires NeverVerified(e, reports, independent)
    ensures var made := Reported(e, reports, independent).attempts;
            && e.attempts <= made
            && (forall i: nat, n: nat :: Claims(e, reports, i, n) ==> n <= made)
            && (made == e.attempts || exists i: nat :: Claims(e, reports, i, made))
  {
    hide UpdateEntry, Verifies, HasDownload, Reported, Claims;
    if reports == [] {
      ReportedNone(e, independent);
      NoClaims(e);
    } else {
      var init, last := reports[..|reports| - 1], |reports| - 1;
      NeverVerifiedSplit(e, reports, independent);
      ReportedLast(e, reports, independent);
      DownloadedExactly(e, init, independent);
      AttemptsAreGreatest(e, init, independent);
      AttemptsStep(e, reports, Reported(e, init, independent), independent);
      var before, made := Reported(e, init, independent).attempts, Reported(e, reports, independent).attempts;
      forall i: nat, n: nat | Claims(e, reports, i, n)
        ensures n <= made
      {
        ClaimInside(e, reports, i, n);
        if i < last { ClaimsInit(e, reports, i, n); }
      }
      if made == before && made != e.attempts {
        var i: nat :| Claims(e, init, i, before);
        ClaimInside(e, init, i, before);
        ClaimsInit(e, reports, i, before);
      }
    }
  }

  lemma NoClaims(e: Entry)
    ensures forall i: nat, n: nat :: !Claims(e, [], i, n)
  {
  }

  lemma ClaimInside(e: Entry, reports: seq<Update>, i: nat, n: nat)
    requires Claims(e, reports, i, n)
    ensures i < |reports|
  {
  }

  // ---- verified entries ----

  predicate FirstVerifying(reports: seq<Update>, independent: bool, v: nat) {
    && v < |reports| && Verifies(reports[v], independent)
    && forall j :: 0 <= j < v ==> !Verifies(reports[j], independent)
  }

  /**
   From its first verification on an entry has no stage and no error, and it counts at least one
   attempt once a download was verified; files found present count none.
   */
  lemma {:induction false} VerifiedEntry(e: Entry, reports: seq<Update>, independent: bool, v: nat)
    requires FirstVerifying(reports, independent, v)
    ensures var f, before := Reported(e, reports, independent), Reported(e, reports[..v], independent);
            && f.state.EntryVerified? && f.stage == "" && f.error == None
            && f.attempts == if AnyDownloads(reports) then Max(before.attempts, 1) else before.attempts
    decreases |reports|
  {
    hide AnyDownloads, UpdateEntry, Verifies, Downloads, Reported;
    var init, last := reports[..|reports| - 1], reports[|reports| - 1];
    ReportedLast(e, reports, independent);
    AnyDownloadsSplit(reports);
    if v < |init| {
      assert FirstVerifying(init, independent, v) && init[..v] == reports[..v];
      VerifiedEntry(e, init, independent, v);
    } else {
      NoDownloadBefore(reports, independent, v);
    }
    VerifyingStep(Reported(e, init, independent), last, independent);
  }

  lemma VerifyingStep(e: Entry, u: Update, independent: bool)
    requires Verifies(u, independent) || (e.state.EntryVerified? && e.stage == "" && e.error == None)
    ensures var f := UpdateEntry(e, u, independent);
            && f.state.EntryVerified? && f.stage == "" && f.error == None
            && f.attempts == if Downloads(u) then Max(e.attempts, 1) else e.attempts
  {
  }

  lemma NoDownloadBefore(reports: seq<Update>, independent: bool, v: nat)
    requires FirstVerifying(reports, independent, v) && v == |reports| - 1
    ensures !AnyDownloads(reports[..v])
  {
    if i :| 0 <= i < v && Downloads(reports[..v][i]) {
      assert Verifies(reports[i], independent);
    }
  }

  /** An entry verified before stays as it was until it is verified again. */
  lemma {:induction false} VerifiedUntouched(e: Entry, reports: seq<Update>, independent: bool)
    requires e.state.EntryVerified? && !AnyVerifies(reports, independent)
    ensures Reported(e, reports, independent) == e
  {
    if reports != [] {
      AnyVerifiesSplit(reports, independent);
      VerifiedUntouched(e, reports[..|reports| - 1], independent);
      VerifiedStep(e, reports[|reports| - 1], independent);
    }
  }

  // ---- stages ----

  /** The stage this report leaves, if it sets one for an entry in this state. */
  function StageSet(state: EntryState, u: Update, independent: bool): Option<string> {
    match u
    case StageStarted(stage) =>
      if state.Pending? || state.Downloading? || (state.Downloaded? && independent) then Some(stage) else None
    case Started => if state.Downloaded? then None else Some("")
    case Completed => if state.Downloaded? then None else Some("")
    case Retrying(_, _) => Some("")
    case FailedWithError(_, _) => if independent then None else Some("")
    case _ => None
  }

  /** The stage an entry shows is the one of the last report that set it. */
  lemma {:induction false} StageIsLast(e: Entry, reports: seq<Update>, independent: bool)
    requires NeverVerified(e, reports, independent)
    ensures var stage := Reported(e, reports, independent).stage;
            || (stage == e.stage && forall i :: 0 <= i < |reports| ==> SetAt(e, reports, independent, i).None?)
            || (exists i :: 0 <= i < |reports| && SetAt(e, reports, independent, i) == Some(stage)
                            && forall j :: i < j < |reports| ==> SetAt(e, reports, independent, j).None?)
  {
    hide UpdateEntry, Verifies, SetAt;
    if reports != [] {
      var init, last := reports[..|reports| - 1], |reports| - 1;
      NeverVerifiedSplit(e, reports, independent);
      StageIsLast(e, init, independent);
      StageStep(Reported(e, init, independent), reports[last], independent);
      SetLast(e, reports, independent);
      forall i | 0 <= i < last
        ensures SetAt(e, reports, independent, i) == SetAt(e, init, independent, i)
      {
        SetInit(e, reports, independent, i);
      }
    }
  }

  function SetAt(e: Entry, reports: seq<Update>, independent: bool, i: nat): Option<string>
    requires i < |reports|
  {
    StageSet(Reported(e, reports[..i], independent).state, reports[i], independent)
  }

  lemma SetLast(e: Entry, reports: seq<Update>, independent: bool)
    requires reports != []
    ensures var last := |reports| - 1;
            SetAt(e, reports, independent, last)
            == StageSet(Reported(e, reports[..last], independent).state, reports[last], independent)
  {
  }

  lemma SetInit(e: Entry, reports: seq<Update>, independent: bool, i: nat)
    requires i + 1 < |reports|
    ensures SetAt(e, reports, independent, i) == SetAt(e, reports[..|reports| - 1], independent, i)
  {
    assert reports[..|reports| - 1][..i] == reports[..i];
  }

  lemma StageStep(e: Entry, u: Update, independent: bool)
    requires !e.state.EntryVerified? && !Verifies(u, independent)
    ensures UpdateEntry(e, u, independent).stage ==
            match StageSet(e.state, u, independent) case None => e.stage case Some(stage) => stage
  {
  }
}
