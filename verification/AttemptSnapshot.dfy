/** The mutable snapshot: every method is proved to do what the step function says. */
module AttemptSnapshot {
  import opened Bytes
  import opened Attempt
  import opened AttemptReconcile

  class MutableSnapshot {
    var title: string
    var entries: seq<Entry>
    var skipped: nat
    var outcome: Option<Outcome>
    var independent: bool
    var retryIndices: Option<seq<nat>>
    var mediaProfile: Option<string>

    function Value(): Snapshot
      reads this
    {
      Snapshot(title, entries, skipped, outcome, independent, retryIndices, mediaProfile)
    }

    constructor (title: string, inventory: seq<NewEntry>, skipped: nat, independent: bool)
      requires independent ==> skipped == 0
      ensures Init(Value()) && this.entries == InitialEntries(inventory) && this.independent == independent
    {
      this.title := title;
      this.entries := InitialEntries(inventory);
      this.skipped := skipped;
      this.outcome := None;
      this.independent := independent;
      this.retryIndices := None;
      this.mediaProfile := None;
    }

    method UpdateMatching(index: nat, update: Update)
      modifies this`entries
      ensures entries == UpdateEntries(old(entries), index, update, independent)
    {
      hide UpdateEntry;
      for i := 0 to |entries|
        invariant |entries| == |old(entries)|
        invariant forall k :: i <= k < |entries| ==> entries[k] == old(entries)[k]
        invariant forall k :: 0 <= k < i ==> entries[k] == UpdateEntries(old(entries), index, update, independent)[k]
      {
        if entries[i].index == index {
          entries := entries[i := UpdateEntry(entries[i], update, independent)];
        }
      }
    }

    method RefreshSkipped()
      modifies this`skipped
      ensures Value() == Refresh(old(Value()))
    {
      if independent {
        var count := 0;
        for i := 0 to |entries|
          invariant count + CountPresent(entries[i..]) == CountPresent(entries)
        {
          assert entries[i..][0] == entries[i] && entries[i..][1..] == entries[i + 1..];
          if entries[i].alreadyPresent { count := count + 1; }
        }
        skipped := count;
      }
    }

    /** Reports about an entry, all but the one that finds its files already present. */
    method ApplyUpdate(index: nat, update: Update)
      requires !update.AlreadyPresent?
      modifies this`entries, this`skipped
      ensures Value() == Step(old(Value()), Apply(index, update))
    {
      hide UpdateEntries;
      if outcome.Some? { return; }
      UpdateMatching(index, update);
      if !update.StageStarted? { RefreshSkipped(); }
    }

    /** Verifies the entry, then puts back the attempts and the mark the verification touched. */
    method EntryAlreadyPresent(index: nat, receipts: Receipts)
      modifies this`entries, this`skipped
      ensures Value() == Step(old(Value()), Apply(index, AlreadyPresent(receipts)))
    {
      hide CountPresent;
      if !independent {
        NothingToUpdate(Value(), index, receipts);
        return;
      }
      var previous := entries;
      ApplyUpdate(index, VerifiedWithOutputs(receipts));
      if outcome.Some? { return; }
      ghost var verified := entries;
      for i := 0 to |entries|
        invariant |entries| == |previous|
        invariant forall k :: i <= k < |entries| ==> entries[k] == verified[k]
        invariant forall k :: 0 <= k < i ==>
                    entries[k] == UpdateEntries(previous, index, AlreadyPresent(receipts), independent)[k]
      {
        if entries[i].index == index {
          entries := entries[i := entries[i].(alreadyPresent := true, attempts := previous[i].attempts,
                                              requiresRedownload := previous[i].requiresRedownload)];
        }
      }
      assert entries == UpdateEntries(previous, index, AlreadyPresent(receipts), independent);
      RefreshSkipped();
    }

    method PrepareForResume(retryFailed: bool)
      modifies this
      ensures Value() == Step(old(Value()), PrepareResume(retryFailed))
    {
      hide CountPresent, ResetEntry, ResumeResets, FailedIndices;
      if !independent { return; }
      outcome := None;
      retryIndices := if retryFailed then Some(FailedIndices(entries)) else None;
      for i := 0 to |entries|
        invariant |entries| == |old(entries)|
        invariant forall k :: i <= k < |entries| ==> entries[k] == old(entries)[k]
        invariant forall k :: 0 <= k < i ==> entries[k] == ResumeEntries(old(entries), retryFailed)[k]
        invariant outcome == None && independent && title == old(title) && skipped == old(skipped)
        invariant mediaProfile == old(mediaProfile)
        invariant retryIndices == if retryFailed then Some(FailedIndices(old(entries))) else None
      {
        if ResumeResets(entries[i], retryFailed) { entries := entries[i := ResetEntry(entries[i])]; }
      }
      assert entries == ResumeEntries(old(entries), retryFailed);
      RefreshSkipped();
    }

    method PrepareForEpisodeRetry(index: nat) returns (prepared: bool)
      modifies this
      ensures prepared == Retryable(old(Value()), index)
      ensures Value() == Step(old(Value()), PrepareEpisodeRetry(index))
    {
      hide CountPresent;
      if !independent { return false; }
      var at := FindIndex(entries, index);
      if at == |entries| { return false; }
      if !(entries[at].state.Pending? || entries[at].state.EntryFailed? || entries[at].state.EntryInterrupted?) {
        return false;
      }
      outcome := None;
      retryIndices := Some([index]);
      entries := entries[at := ResetEntry(entries[at]).(error := None)];
      RefreshSkipped();
      prepared := true;
    }

    method FinishWith(requested: Outcome)
      modifies this`entries, this`outcome
      ensures Value() == Step(old(Value()), Finish(requested))
    {
      hide FinishEntry, EffectiveOutcome;
      if outcome.Some? && !MayReplace(outcome.value, requested) { return; }
      var effective := EffectiveOutcome(Value(), requested);
      for i := 0 to |entries|
        invariant |entries| == |old(entries)|
        invariant forall k :: i <= k < |entries| ==> entries[k] == old(entries)[k]
        invariant forall k :: 0 <= k < i ==> entries[k] == FinishEntries(old(entries), effective, independent)[k]
      {
        entries := entries[i := FinishEntry(entries[i], effective, independent)];
      }
      assert entries == FinishEntries(old(entries), effective, independent);
      outcome := Some(effective);
    }

    /** Queues the old entries by identity and hands each new entry the next one of its identity. */
    method ReconcileInventory(newTitle: string, profile: Option<string>, inventory: seq<NewEntry>,
                              preserved: set<string>, redownload: set<string>)
      modifies this
      ensures Value() == Step(old(Value()), Reconcile(newTitle, profile, inventory, preserved, redownload))
    {
      hide CountPresent, ScopedIds, IndicesWithIds;
      var scoped := if retryIndices.Some? then Some(ScopedIds(entries, retryIndices.value)) else None;
      entries := MatchInventory(entries, inventory, preserved, redownload);
      title := newTitle;
      skipped := CountPresent(entries);
      outcome := None;
      retryIndices := if scoped.None? then None else Some(IndicesWithIds(entries, scoped.value));
      independent := true;
      mediaProfile := profile;
    }
  }

  method MatchInventory(previous: seq<Entry>, inventory: seq<NewEntry>, preserved: set<string>, redownload: set<string>)
    returns (reconciled: seq<Entry>)
    ensures reconciled == ReconciledEntries(previous, inventory, preserved, redownload)
  {
    hide Matched, ReconciledEntry, Queued, FromQueue;
    var queues := QueueById(previous);
    reconciled := [];
    for j := 0 to |inventory|
      invariant reconciled == ReconciledEntries(previous, inventory, preserved, redownload)[..j]
      invariant Queued(queues, previous, inventory, j)
    {
      NextInQueue(queues, previous, inventory, j);
      var (matched, rest) := FromQueue(queues, inventory[j].id);
      reconciled := reconciled + [ReconciledEntry(inventory[j], matched, preserved, redownload)];
      queues := rest;
    }
  }

  /** The entry at the front of an identity's queue, and the queues without it. */
  function FromQueue(queues: map<string, seq<Entry>>, id: string): (Option<Entry>, map<string, seq<Entry>>) {
    if id in queues && queues[id] != [] then (Some(queues[id][0]), queues[id := queues[id][1..]])
    else (None, queues)
  }

  lemma NothingToUpdate(s: Snapshot, index: nat, receipts: Receipts)
    requires !s.independent
    ensures Step(s, Apply(index, AlreadyPresent(receipts))) == s
  {
    assert UpdateEntries(s.entries, index, AlreadyPresent(receipts), false) == s.entries;
  }

  /** The queues hold, for every non-empty id, the old entries not handed out yet. */
  ghost predicate Queued(queues: map<string, seq<Entry>>, previous: seq<Entry>, inventory: seq<NewEntry>, j: nat)
    requires j <= |inventory|
  {
    && "" !in queues
    && forall id :: id != "" ==>
         var used, all := Occurrences(inventory, id, j), WithId(previous, id);
         (if id in queues then queues[id] else []) == (if used <= |all| then all[used..] else [])
  }

  method QueueById(previous: seq<Entry>) returns (queues: map<string, seq<Entry>>)
    ensures forall inventory :: Queued(queues, previous, inventory, 0)
  {
    queues := map[];
    for i := 0 to |previous|
      invariant "" !in queues
      invariant forall id :: id != "" ==>
                  (if id in queues then queues[id] else []) == WithId(previous[..i], id)
    {
      var id := previous[i].id;
      forall other { WithIdAppend(previous[..i], previous[i], other); }
      assert previous[..i + 1] == previous[..i] + [previous[i]];
      if id != "" {
        queues := queues[id := (if id in queues then queues[id] else []) + [previous[i]]];
      }
    }
    assert previous[..|previous|] == previous;
  }

  lemma {:induction false} WithIdAppend(entries: seq<Entry>, e: Entry, id: string)
    ensures WithId(entries + [e], id) == WithId(entries, id) + (if e.id == id then [e] else [])
  {
    if entries != [] {
      WithIdAppend(entries[1..], e, id);
      assert (entries + [e])[1..] == entries[1..] + [e];
    }
  }

  /** The match of the j-th new entry is the entry its queue hands out next. */
  lemma NextInQueue(queues: map<string, seq<Entry>>, previous: seq<Entry>, inventory: seq<NewEntry>, j: nat)
    requires j < |inventory| && Queued(queues, previous, inventory, j)
    ensures var at := Matched(previous, inventory, j);
            var (matched, rest) := FromQueue(queues, inventory[j].id);
            && matched == (if at.Some? then Some(previous[at.value]) else None)
            && Queued(rest, previous, inventory, j + 1)
  {
    hide NthWithId, WithId;
    NthWithIdSpec(previous, inventory[j].id, Occurrences(inventory, inventory[j].id, j));
  }
}
