/**
 The snapshot of one download attempt: per-episode states, receipts and retry counts, and the
 outcome of the attempt. `Step` says what every operation does to the snapshot.
 */
module Attempt {
  import opened Bytes

  datatype Outcome = Failed | PartiallyCompleted | Cancelled | Interrupted | Verified

  datatype EntryState = Pending | Downloading | Downloaded | EntryFailed | EntryInterrupted | EntryVerified

  datatype Receipts = Receipts(paths: seq<string>, hashes: map<string, string>)

  const NO_RECEIPTS: Receipts := Receipts([], map[])

  datatype Entry = Entry(
    index: nat,
    title: string,
    state: EntryState,
    stage: string,
    alreadyPresent: bool,
    requiresRedownload: bool,
    attempts: nat,
    error: Option<string>,
    id: string,
    receipts: Receipts)

  datatype Snapshot = Snapshot(
    title: string,
    entries: seq<Entry>,
    skipped: nat,
    outcome: Option<Outcome>,
    independent: bool,
    retryIndices: Option<seq<nat>>,
    mediaProfile: Option<string>)

  /** An entry of a newly approved inventory. */
  datatype NewEntry = NewEntry(index: nat, title: string, id: string)

  datatype Update =
    | Started
    | StageStarted(stage: string)
    | Completed
    | UpdateFailed
    | Retrying(attempt: nat, error: string)
    | FailedWithError(attempts: nat, error: string)
    | UpdateVerified
    | VerifiedWithOutputs(receipts: Receipts)
    | AlreadyPresent(receipts: Receipts)

  datatype Operation =
    | Apply(index: nat, update: Update)
    | PrepareResume(retryFailed: bool)
    | PrepareEpisodeRetry(index: nat)
    | Reconcile(title: string, profile: Option<string>, inventory: seq<NewEntry>, preserved: set<string>,
        redownload: set<string>)
    | Finish(outcome: Outcome)

  function NewEntryOf(e: NewEntry): Entry {
    Entry(e.index, e.title, Pending, "", false, false, 0, None, e.id, NO_RECEIPTS)
  }

  function InitialEntries(inventory: seq<NewEntry>): (r: seq<Entry>)
    ensures |r| == |inventory|
  {
    seq(|inventory|, i requires 0 <= i < |inventory| => NewEntryOf(inventory[i]))
  }

  // ---- updates of one entry ----

  function VerifyEntry(e: Entry, independent: bool): Entry {
    e.(state := EntryVerified, stage := "", error := None, attempts := Max(e.attempts, 1),
       alreadyPresent := e.alreadyPresent && !independent,
       requiresRedownload := e.requiresRedownload && !independent)
  }

  function UpdateEntry(e: Entry, update: Update, independent: bool): (r: Entry)
  {
    match update
    case Started =>
      if e.state.Downloaded? || e.state.EntryVerified? then e
      else e.(state := Downloading, stage := "", alreadyPresent := false, attempts := Max(e.attempts, 1),
                receipts := NO_RECEIPTS)
    case StageStarted(stage) =>
      if e.state.Pending? || e.state.Downloading? then e.(state := Downloading, stage := stage)
      else if e.state.Downloaded? && independent then e.(stage := stage)
      else e
    case Completed =>
      if e.state.Downloaded? || e.state.EntryVerified? then e
      else e.(state := Downloaded, stage := "", alreadyPresent := false, error := None)
    case UpdateFailed =>
      if e.state.Downloaded? || e.state.EntryVerified? then e
      else e.(state := EntryFailed, alreadyPresent := false, attempts := Max(e.attempts, 1))
    case Retrying(attempt, error) =>
      if e.state.EntryVerified? then e
      else e.(state := Downloading, stage := "", alreadyPresent := false, attempts := Max(e.attempts, attempt),
              error := Some(error), receipts := NO_RECEIPTS)
    case FailedWithError(attempts, error) =>
      if e.state.EntryVerified? then e
      else e.(state := EntryFailed, alreadyPresent := false, stage := if independent then e.stage else "",
              attempts := Max(e.attempts, attempts), error := Some(error), receipts := NO_RECEIPTS)
    case UpdateVerified => VerifyEntry(e, independent)
    case VerifiedWithOutputs(receipts) => VerifyEntry(e, independent).(receipts := receipts)
    case AlreadyPresent(receipts) =>
      if !independent then e
      else VerifyEntry(e, independent).(receipts := receipts, alreadyPresent := true, attempts := e.attempts,
                                        requiresRedownload := e.requiresRedownload)
  }

  function UpdateEntries(entries: seq<Entry>, index: nat, update: Update, independent: bool): (r: seq<Entry>)
    ensures |r| == |entries|
  {
    seq(|entries|, i requires 0 <= i < |entries| =>
      if entries[i].index == index then UpdateEntry(entries[i], update, independent) else entries[i])
  }

  // ---- counting ----

  function CountState(entries: seq<Entry>, state: EntryState): (r: nat)
    ensures r <= |entries|
  {
    if entries == [] then 0 else (if entries[0].state == state then 1 else 0) + CountState(entries[1..], state)
  }

  function CountPresent(entries: seq<Entry>): (r: nat)
    ensures r <= |entries|
  {
    if entries == [] then 0 else (if entries[0].alreadyPresent then 1 else 0) + CountPresent(entries[1..])
  }

  /** In independent mode the skipped count follows the entries. */
  function Refresh(s: Snapshot): Snapshot {
    if s.independent then s.(skipped := CountPresent(s.entries)) else s
  }

  // ---- resume and retry ----

  function ResetEntry(e: Entry): Entry {
    e.(state := Pending, stage := "", alreadyPresent := false, receipts := NO_RECEIPTS)
  }

  predicate ResumeResets(e: Entry, retryFailed: bool) {
    if retryFailed then e.state.EntryFailed?
    else e.state.Pending? || e.state.EntryFailed? || e.state.EntryInterrupted? || e.state.Downloading?
  }

  function ResumeEntries(entries: seq<Entry>, retryFailed: bool): (r: seq<Entry>)
    ensures |r| == |entries|
  {
    seq(|entries|, i requires 0 <= i < |entries| =>
      if ResumeResets(entries[i], retryFailed) then ResetEntry(entries[i]) else entries[i])
  }

  function FailedIndices(entries: seq<Entry>): seq<nat> {
    if entries == [] then []
    else (if entries[0].state.EntryFailed? then [entries[0].index] else []) + FailedIndices(entries[1..])
  }

  /** Position of the first entry with this index, |entries| when there is none. */
  function FindIndex(entries: seq<Entry>, index: nat): (r: nat)
    ensures r <= |entries| && (r < |entries| ==> entries[r].index == index)
  {
    if entries == [] || entries[0].index == index then 0 else 1 + FindIndex(entries[1..], index)
  }

  predicate Retryable(s: Snapshot, index: nat) {
    var at := FindIndex(s.entries, index);
    s.independent && at < |s.entries|
    && (s.entries[at].state.Pending? || s.entries[at].state.EntryFailed? || s.entries[at].state.EntryInterrupted?)
  }

  // ---- reconciliation ----

  /** How many of the first n new entries carry this id. */
  function Occurrences(inventory: seq<NewEntry>, id: string, n: nat): nat
    requires n <= |inventory|
  {
    if n == 0 then 0 else Occurrences(inventory, id, n - 1) + (if inventory[n - 1].id == id then 1 else 0)
  }

  /** Position of the k-th entry (from 0) with this id, |entries| when there are not that many. */
  function NthWithId(entries: seq<Entry>, id: string, k: nat): (r: nat)
    ensures r <= |entries|
    ensures r < |entries| ==> entries[r].id == id
  {
    if entries == [] then 0
    else if entries[0].id == id && k == 0 then 0
    else 1 + NthWithId(entries[1..], id, if entries[0].id == id then k - 1 else k)
  }

  /** The old entry whose history the j-th new entry takes. */
  function Matched(entries: seq<Entry>, inventory: seq<NewEntry>, j: nat): (r: Option<nat>)
    requires j < |inventory|
    ensures r.Some? ==> r.value < |entries| && entries[r.value].id == inventory[j].id
  {
    var id := inventory[j].id;
    var at := NthWithId(entries, id, Occurrences(inventory, id, j));
    if id == "" || at == |entries| then None else Some(at)
  }

  predicate Preserves(previous: Entry, id: string, preserved: set<string>) {
    previous.state.EntryVerified? && !previous.requiresRedownload && id in preserved
  }

  function ReconciledEntry(e: NewEntry, previous: Option<Entry>, preserved: set<string>,
                           redownload: set<string>): Entry {
    var start := NewEntryOf(e).(requiresRedownload := e.id in redownload);
    match previous
    case None => start
    case Some(old_) =>
      var carried := start.(attempts := old_.attempts, error := old_.error,
                            requiresRedownload := e.id in redownload || old_.requiresRedownload);
      if Preserves(old_, e.id, preserved)
      then carried.(state := EntryVerified, alreadyPresent := old_.alreadyPresent, receipts := old_.receipts)
      else carried
  }

  function ReconciledEntries(entries: seq<Entry>, inventory: seq<NewEntry>, preserved: set<string>,
                             redownload: set<string>): (r: seq<Entry>)
    ensures |r| == |inventory|
  {
    seq(|inventory|, j requires 0 <= j < |inventory| =>
      var at := Matched(entries, inventory, j);
      ReconciledEntry(inventory[j], if at.Some? then Some(entries[at.value]) else None, preserved, redownload))
  }

  /** The non-empty ids of the entries whose index is in scope. */
  function ScopedIds(entries: seq<Entry>, scope: seq<nat>): set<string> {
    set i | 0 <= i < |entries| && entries[i].index in scope && entries[i].id != "" :: entries[i].id
  }

  function IndicesWithIds(entries: seq<Entry>, ids: set<string>): seq<nat> {
    if entries == [] then []
    else (if entries[0].id in ids then [entries[0].index] else []) + IndicesWithIds(entries[1..], ids)
  }

  // ---- outcomes ----

  function Rank(outcome: Outcome): nat {
    match outcome case Verified => 0 case Cancelled => 2 case _ => 1
  }

  predicate MayReplace(current: Outcome, outcome: Outcome) {
    || (current.Verified? &&
        (outcome.Failed? || outcome.PartiallyCompleted? || outcome.Cancelled? || outcome.Interrupted?))
    || (current.Interrupted? && outcome.Cancelled?)
    || ((current.Failed? || current.PartiallyCompleted?) && outcome.Cancelled?)
  }

  /** What an independent attempt really amounts to when it is said to have verified or failed. */
  function EffectiveOutcome(s: Snapshot, outcome: Outcome): Outcome {
    var verified := CountState(s.entries, EntryVerified);
    var first :=
      if s.independent && outcome.Verified? && verified < |s.entries| then
        if verified > 0 then PartiallyCompleted else Failed
      else outcome;
    if s.independent && first.Failed? && verified > 0 then PartiallyCompleted else first
  }

  function FinishEntry(e: Entry, outcome: Outcome, independent: bool): Entry {
    match outcome
    case Verified => if independent then e else e.(state := EntryVerified, stage := "")
    case Cancelled => if e.state.Downloading? then e.(state := EntryInterrupted) else e
    case Interrupted => if e.state.Downloading? then e.(state := EntryInterrupted) else e
    case _ => if e.state.Downloading? then e.(state := EntryFailed) else e
  }

  function FinishEntries(entries: seq<Entry>, outcome: Outcome, independent: bool): (r: seq<Entry>)
    ensures |r| == |entries|
  {
    seq(|entries|, i requires 0 <= i < |entries| => FinishEntry(entries[i], outcome, independent))
  }

  // ---- the step function ----

  function Step(s: Snapshot, op: Operation): Snapshot {
    match op
    case Apply(index, update) =>
      if s.outcome.Some? then s
      else
        var updated := s.(entries := UpdateEntries(s.entries, index, update, s.independent));
        if update.StageStarted? then updated else Refresh(updated)
    case PrepareResume(retryFailed) =>
      if !s.independent then s
      else
        Refresh(s.(outcome := None, entries := ResumeEntries(s.entries, retryFailed),
                   retryIndices := if retryFailed then Some(FailedIndices(s.entries)) else None))
    case PrepareEpisodeRetry(index) =>
      if !Retryable(s, index) then s
      else
        var at := FindIndex(s.entries, index);
        Refresh(s.(outcome := None, retryIndices := Some([index]),
                   entries := s.entries[at := ResetEntry(s.entries[at]).(error := None)]))
    case Reconcile(title, profile, inventory, preserved, redownload) =>
      var entries := ReconciledEntries(s.entries, inventory, preserved, redownload);
      s.(title := title, mediaProfile := profile, entries := entries, outcome := None, independent := true,
         skipped := CountPresent(entries),
         retryIndices := if s.retryIndices.None? then None
                         else Some(IndicesWithIds(entries, ScopedIds(s.entries, s.retryIndices.value))))
    case Finish(outcome) =>
      if s.outcome.Some? && !MayReplace(s.outcome.value, outcome) then s
      else
        var effective := EffectiveOutcome(s, outcome);
        s.(entries := FinishEntries(s.entries, effective, s.independent), outcome := Some(effective))
  }

  predicate Init(s: Snapshot) {
    && s.outcome.None? && s.retryIndices.None?
    && (s.independent ==> s.skipped == 0)
    && (forall i :: 0 <= i < |s.entries| ==>
          s.entries[i] == NewEntryOf(NewEntry(s.entries[i].index, s.entries[i].title, s.entries[i].id)))
  }

  function Run(s: Snapshot, ops: seq<Operation>): Snapshot {
    if ops == [] then s else Step(Run(s, ops[..|ops| - 1]), ops[|ops| - 1])
  }

  // ---- invariants ----

  /** Only verified entries are already present or carry receipts. */
  predicate EntryInv(e: Entry) {
    (e.alreadyPresent ==> e.state.EntryVerified?) && (e.receipts != NO_RECEIPTS ==> e.state.EntryVerified?)
  }

  predicate EntriesInv(entries: seq<Entry>) { forall i :: 0 <= i < |entries| ==> EntryInv(entries[i]) }

  predicate NoneIn(entries: seq<Entry>, state: EntryState) {
    forall i :: 0 <= i < |entries| ==> entries[i].state != state
  }

  predicate AllIn(entries: seq<Entry>, state: EntryState) {
    forall i :: 0 <= i < |entries| ==> entries[i].state == state
  }

  predicate OutcomeInv(s: Snapshot) {
    && (s.outcome.Some? ==> NoneIn(s.entries, Downloading))
    && (s.independent && s.outcome == Some(Verified) ==> AllIn(s.entries, EntryVerified))
    && (s.independent && s.outcome == Some(Failed) ==> NoneIn(s.entries, EntryVerified))
  }

  predicate SkippedInv(s: Snapshot) { s.independent ==> s.skipped == CountPresent(s.entries) }

  predicate Inv(s: Snapshot) { EntriesInv(s.entries) && OutcomeInv(s) && SkippedInv(s) }

  lemma {:induction false} CountExtremes(entries: seq<Entry>, state: EntryState)
    ensures CountState(entries, state) == |entries| <==> AllIn(entries, state)
    ensures CountState(entries, state) == 0 <==> NoneIn(entries, state)
  {
    if entries != [] {
      CountExtremes(entries[1..], state);
      SplitFirst(entries, state);
      assert AllIn(entries, state) <==> entries[0].state == state && AllIn(entries[1..], state);
      assert NoneIn(entries, state) <==> entries[0].state != state && NoneIn(entries[1..], state);
    }
  }

  lemma SplitFirst(entries: seq<Entry>, state: EntryState)
    requires entries != []
    ensures AllIn(entries, state) <==> entries[0].state == state && AllIn(entries[1..], state)
    ensures NoneIn(entries, state) <==> entries[0].state != state && NoneIn(entries[1..], state)
  {
    assert entries == [entries[0]] + entries[1..];
  }

  lemma {:induction false} SamePresent(a: seq<Entry>, b: seq<Entry>)
    requires |a| == |b| && forall i :: 0 <= i < |a| ==> a[i].alreadyPresent == b[i].alreadyPresent
    ensures CountPresent(a) == CountPresent(b)
  {
    if a != [] {
      assert forall i :: 0 <= i < |a| - 1 ==> a[1..][i] == a[i + 1] && b[1..][i] == b[i + 1];
      SamePresent(a[1..], b[1..]);
    }
  }

  lemma UpdateEntryInv(e: Entry, update: Update, independent: bool)
    requires EntryInv(e)
    ensures EntryInv(UpdateEntry(e, update, independent))
    ensures update.StageStarted? ==> UpdateEntry(e, update, independent).alreadyPresent == e.alreadyPresent
  {
  }

  lemma ApplyInv(s: Snapshot, index: nat, update: Update)
    requires Inv(s)
    ensures Inv(Step(s, Apply(index, update)))
  {
    hide EntryInv, UpdateEntry;
    if s.outcome.None? {
      var entries := UpdateEntries(s.entries, index, update, s.independent);
      forall i | 0 <= i < |entries|
        ensures EntryInv(entries[i])
        ensures update.StageStarted? ==> entries[i].alreadyPresent == s.entries[i].alreadyPresent
      {
        UpdateEntryInv(s.entries[i], update, s.independent);
      }
      if update.StageStarted? { SamePresent(entries, s.entries); }
    }
  }

  lemma ResetEntryInv(e: Entry)
    ensures EntryInv(ResetEntry(e))
  {
  }

  lemma ResumeInv(s: Snapshot, retryFailed: bool)
    requires Inv(s)
    ensures Inv(Step(s, PrepareResume(retryFailed)))
  {
    hide EntryInv, ResetEntry;
    forall i | 0 <= i < |s.entries|
      ensures EntryInv(ResetEntry(s.entries[i]))
    {
      ResetEntryInv(s.entries[i]);
    }
  }

  lemma EpisodeRetryInv(s: Snapshot, index: nat)
    requires Inv(s)
    ensures Inv(Step(s, PrepareEpisodeRetry(index)))
  {
    if Retryable(s, index) {
      var at := FindIndex(s.entries, index);
      ResetEntryInv(s.entries[at]);
    }
  }

  lemma ReconciledEntryInv(e: NewEntry, previous: Option<Entry>, preserved: set<string>, redownload: set<string>)
    requires previous.Some? ==> EntryInv(previous.value)
    ensures EntryInv(ReconciledEntry(e, previous, preserved, redownload))
  {
  }

  lemma ReconcileInv(s: Snapshot, op: Operation)
    requires Inv(s) && op.Reconcile?
    ensures Inv(Step(s, op))
  {
    hide EntryInv, ReconciledEntry, Matched;
    var entries := ReconciledEntries(s.entries, op.inventory, op.preserved, op.redownload);
    forall j | 0 <= j < |entries|
      ensures EntryInv(entries[j])
    {
      var at := Matched(s.entries, op.inventory, j);
      var previous := if at.Some? then Some(s.entries[at.value]) else None;
      ReconciledEntryInv(op.inventory[j], previous, op.preserved, op.redownload);
    }
  }

  lemma FinishEntryInv(e: Entry, outcome: Outcome, independent: bool)
    requires EntryInv(e) && (independent && outcome.Verified? ==> e.state.EntryVerified?)
    ensures var f := FinishEntry(e, outcome, independent);
            && EntryInv(f) && !f.state.Downloading? && f.alreadyPresent == e.alreadyPresent
            && (outcome.Failed? ==> (f.state.EntryVerified? <==> e.state.EntryVerified?))
            && (outcome.Verified? ==> f.state.EntryVerified?)
  {
  }

  lemma FinishInv(s: Snapshot, outcome: Outcome)
    requires Inv(s)
    ensures Inv(Step(s, Finish(outcome)))
  {
    hide EntryInv, FinishEntry, CountState;
    var effective := EffectiveOutcome(s, outcome);
    var entries := FinishEntries(s.entries, effective, s.independent);
    CountExtremes(s.entries, EntryVerified);
    forall i | 0 <= i < |entries|
      ensures EntryInv(entries[i]) && !entries[i].state.Downloading?
      ensures entries[i].alreadyPresent == s.entries[i].alreadyPresent
      ensures effective.Failed? ==> (entries[i].state.EntryVerified? <==> s.entries[i].state.EntryVerified?)
      ensures effective.Verified? ==> entries[i].state.EntryVerified?
    {
      FinishEntryInv(s.entries[i], effective, s.independent);
    }
    SamePresent(entries, s.entries);
  }

  lemma StepInv(s: Snapshot, op: Operation)
    requires Inv(s)
    ensures Inv(Step(s, op))
  {
    hide Inv, Step;
    match op
    case Apply(index, update) => ApplyInv(s, index, update);
    case PrepareResume(retryFailed) => ResumeInv(s, retryFailed);
    case PrepareEpisodeRetry(index) => EpisodeRetryInv(s, index);
    case Reconcile(_, _, _, _, _) => ReconcileInv(s, op);
    case Finish(outcome) => FinishInv(s, outcome);
  }

  lemma {:induction false} NothingPresent(entries: seq<Entry>)
    requires forall i :: 0 <= i < |entries| ==> !entries[i].alreadyPresent
    ensures CountPresent(entries) == 0
  {
    if entries != [] { NothingPresent(entries[1..]); }
  }

  /**
   Over every sequence of operations from a new attempt: with an outcome no entry is downloading;
   an independent attempt is Verified only when every entry is and Failed only when none is; only
   verified entries are already present or carry receipts; and the skipped count is exact.
   */
  lemma {:induction false} RunInv(s: Snapshot, ops: seq<Operation>)
    requires Init(s)
    ensures Inv(Run(s, ops))
  {
    hide Step;
    if ops == [] {
      NothingPresent(s.entries);
    } else {
      RunInv(s, ops[..|ops| - 1]);
      StepInv(Run(s, ops[..|ops| - 1]), ops[|ops| - 1]);
    }
  }

  // ---- what single operations may change ----

  /** Once the outcome is set, reports about entries change nothing. */
  lemma {:induction false} OutcomeFreezesEntries(s: Snapshot, ops: seq<Operation>)
    requires s.outcome.Some? && forall i :: 0 <= i < |ops| ==> ops[i].Apply?
    ensures Run(s, ops) == s
  {
    if ops != [] { OutcomeFreezesEntries(s, ops[..|ops| - 1]); }
  }

  /** Finishing keeps the outcome exactly when the new one does not rank higher, else raises it. */
  lemma FinishRaises(s: Snapshot, outcome: Outcome)
    requires Inv(s)
    ensures Step(s, Finish(outcome)).outcome.Some?
    ensures s.outcome.Some? ==>
              if Rank(outcome) > Rank(s.outcome.value)
              then Rank(Step(s, Finish(outcome)).outcome.value) > Rank(s.outcome.value)
              else Step(s, Finish(outcome)) == s
  {
    hide FinishEntries, CountState, EntriesInv, SkippedInv, OutcomeInv;
  }

  /** Operations that keep the inventory keep every entry's place and identity. */
  predicate SameEpisodes(a: seq<Entry>, b: seq<Entry>) {
    |a| == |b| && forall i :: 0 <= i < |a| ==>
      a[i].index == b[i].index && a[i].title == b[i].title && a[i].id == b[i].id
  }

  /** Attempts only grow, and a redownload mark is only cleared by a verification of that entry. */
  predicate HistoryKept(before: Entry, after: Entry, verifying: bool) {
    && before.attempts <= after.attempts
    && (before.requiresRedownload ==> after.requiresRedownload || (verifying && after.state.EntryVerified?))
    && (after.requiresRedownload ==> before.requiresRedownload)
  }

  predicate Verifying(op: Operation, index: nat) {
    op.Apply? && op.index == index && (op.update.UpdateVerified? || op.update.VerifiedWithOutputs?)
  }

  lemma UpdateEntryHistory(e: Entry, update: Update, independent: bool)
    ensures var f := UpdateEntry(e, update, independent);
            && HistoryKept(e, f, update.UpdateVerified? || update.VerifiedWithOutputs?)
            && f.index == e.index && f.title == e.title && f.id == e.id
  {
  }

  lemma FinishEntryHistory(e: Entry, outcome: Outcome, independent: bool)
    ensures var f := FinishEntry(e, outcome, independent);
            HistoryKept(e, f, false) && f.index == e.index && f.title == e.title && f.id == e.id
  {
  }

  lemma StepKeepsHistory(s: Snapshot, op: Operation)
    requires !op.Reconcile?
    ensures SameEpisodes(s.entries, Step(s, op).entries)
    ensures forall i :: 0 <= i < |s.entries| ==>
              HistoryKept(s.entries[i], Step(s, op).entries[i], Verifying(op, s.entries[i].index))
  {
    hide UpdateEntry, FinishEntry, EffectiveOutcome, CountPresent, FailedIndices, HistoryKept;
    forall i | 0 <= i < |s.entries|
      ensures HistoryKept(s.entries[i], s.entries[i], Verifying(op, s.entries[i].index))
      ensures HistoryKept(s.entries[i], ResetEntry(s.entries[i]), false)
      ensures HistoryKept(s.entries[i], ResetEntry(s.entries[i]).(error := None), false)
    {
      UnchangedHistory(s.entries[i]);
    }
    match op
    case Apply(index, update) =>
      forall i | 0 <= i < |s.entries| { UpdateEntryHistory(s.entries[i], update, s.independent); }
    case Finish(outcome) =>
      forall i | 0 <= i < |s.entries| { FinishEntryHistory(s.entries[i], EffectiveOutcome(s, outcome), s.independent); }
    case _ =>
  }

  lemma UnchangedHistory(e: Entry)
    ensures HistoryKept(e, e, false) && HistoryKept(e, e, true)
    ensures HistoryKept(e, ResetEntry(e), false) && HistoryKept(e, ResetEntry(e).(error := None), false)
  {
  }
}
