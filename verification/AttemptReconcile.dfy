/** Reconciling an attempt with a new inventory matches episodes by identity, one to one. */
module AttemptReconcile {
  import opened Bytes
  import opened Attempt

  /** How many of the first n old entries carry this id. */
  function CountId(entries: seq<Entry>, id: string, n: nat): nat
    requires n <= |entries|
  {
    if n == 0 then 0 else CountId(entries, id, n - 1) + (if entries[n - 1].id == id then 1 else 0)
  }

  /** The old entries that carry this id, in order. */
  function WithId(entries: seq<Entry>, id: string): seq<Entry> {
    if entries == [] then []
    else (if entries[0].id == id then [entries[0]] else []) + WithId(entries[1..], id)
  }

  lemma {:induction false} CountIdFirst(entries: seq<Entry>, id: string, n: nat)
    requires 0 < n <= |entries|
    ensures CountId(entries, id, n) == (if entries[0].id == id then 1 else 0) + CountId(entries[1..], id, n - 1)
  {
    if n > 1 {
      CountIdFirst(entries, id, n - 1);
      assert entries[1..][n - 2] == entries[n - 1];
    }
  }

  /** The k-th entry of an id has exactly k of that id before it; it exists when there are more than k. */
  lemma {:induction false} NthWithIdSpec(entries: seq<Entry>, id: string, k: nat)
    ensures var r := NthWithId(entries, id, k);
            && (r < |entries| ==> CountId(entries, id, r) == k)
            && (r < |entries| <==> k < CountId(entries, id, |entries|))
            && (r < |entries| <==> k < |WithId(entries, id)|)
            && (r < |entries| ==> entries[r] == WithId(entries, id)[k])
  {
    if entries != [] {
      var first := entries[0].id == id;
      var r := NthWithId(entries, id, k);
      CountIdFirst(entries, id, |entries|);
      if !(first && k == 0) {
        NthWithIdSpec(entries[1..], id, if first then k - 1 else k);
        if r < |entries| { CountIdFirst(entries, id, r); }
      }
    }
  }

  lemma {:induction false} OccurrencesGrow(inventory: seq<NewEntry>, id: string, i: nat, j: nat)
    requires i < j <= |inventory| && inventory[i].id == id
    ensures Occurrences(inventory, id, i) < Occurrences(inventory, id, j)
    decreases j
  {
    if i < j - 1 { OccurrencesGrow(inventory, id, i, j - 1); }
  }

  /**
   A new entry takes its history from the old entry with the same non-empty id and the same number
   of equal ids before it; it has none exactly when there is no such entry.
   */
  lemma MatchedByIdentity(entries: seq<Entry>, inventory: seq<NewEntry>, j: nat)
    requires j < |inventory|
    ensures var id, k := inventory[j].id, Occurrences(inventory, inventory[j].id, j);
            var at := Matched(entries, inventory, j);
            && (at.Some? <==> id != "" && k < CountId(entries, id, |entries|))
            && (at.Some? ==> entries[at.value].id == id && CountId(entries, id, at.value) == k)
  {
    NthWithIdSpec(entries, inventory[j].id, Occurrences(inventory, inventory[j].id, j));
  }

  /** No old entry is used twice, and equal ids are matched in order. */
  lemma MatchedOnce(entries: seq<Entry>, inventory: seq<NewEntry>, i: nat, j: nat)
    requires i < j < |inventory|
    requires Matched(entries, inventory, i).Some? && Matched(entries, inventory, j).Some?
    ensures Matched(entries, inventory, i) != Matched(entries, inventory, j)
  {
    MatchedByIdentity(entries, inventory, i);
    MatchedByIdentity(entries, inventory, j);
    if inventory[i].id == inventory[j].id { OccurrencesGrow(inventory, inventory[i].id, i, j); }
  }

  /**
   An entry stays verified, with its receipts, exactly when its match was verified, needed no
   redownload and may be preserved; every other entry waits again without receipts, and matched
   ones keep their attempts, error and redownload mark.
   */
  lemma PreservedExactly(s: Snapshot, op: Operation, j: nat)
    requires op.Reconcile? && j < |op.inventory|
    ensures var e := Step(s, op).entries[j];
            var at := Matched(s.entries, op.inventory, j);
            && e.index == op.inventory[j].index && e.id == op.inventory[j].id
            && e.title == op.inventory[j].title && e.stage == ""
            && (e.state.EntryVerified? <==>
                  && at.Some? && s.entries[at.value].state.EntryVerified? && !s.entries[at.value].requiresRedownload
                  && e.id in op.preserved)
            && (e.state.EntryVerified? ==> e.receipts == s.entries[at.value].receipts
                                           && e.alreadyPresent == s.entries[at.value].alreadyPresent)
            && (!e.state.EntryVerified? ==> e.state.Pending? && e.receipts == NO_RECEIPTS && !e.alreadyPresent)
            && (if at.Some? then e.attempts == s.entries[at.value].attempts && e.error == s.entries[at.value].error
                else e.attempts == 0 && e.error.None?)
            && (e.requiresRedownload <==> e.id in op.redownload || (at.Some? && s.entries[at.value].requiresRedownload))
  {
    hide Matched, CountPresent, ScopedIds, IndicesWithIds;
  }

  // ---- the retry scope ----

  predicate DistinctIndices(inventory: seq<NewEntry>) {
    forall i, j :: 0 <= i < j < |inventory| ==> inventory[i].index != inventory[j].index
  }

  lemma {:induction false} IndicesWithIdsSpec(entries: seq<Entry>, ids: set<string>, index: nat)
    ensures index in IndicesWithIds(entries, ids) <==>
            exists i :: 0 <= i < |entries| && entries[i].index == index && entries[i].id in ids
  {
    if entries != [] {
      IndicesWithIdsSpec(entries[1..], ids, index);
      assert entries == [entries[0]] + entries[1..];
    }
  }

  lemma ReconciledIdentity(entries: seq<Entry>, inventory: seq<NewEntry>, preserved: set<string>,
                           redownload: set<string>, j: nat)
    requires j < |inventory|
    ensures ReconciledEntries(entries, inventory, preserved, redownload)[j].id == inventory[j].id
    ensures ReconciledEntries(entries, inventory, preserved, redownload)[j].index == inventory[j].index
  {
    hide Matched;
  }

  /** With distinct new indices, the new scope selects exactly the old scope's ids that are still there. */
  lemma ScopeFollowsIdentity(s: Snapshot, op: Operation)
    requires op.Reconcile? && DistinctIndices(op.inventory)
    ensures var t := Step(s, op);
            && (t.retryIndices.Some? <==> s.retryIndices.Some?)
            && (s.retryIndices.Some? ==>
                  ScopedIds(t.entries, t.retryIndices.value) ==
                  ScopedIds(s.entries, s.retryIndices.value) * (set j | 0 <= j < |op.inventory| :: op.inventory[j].id))
  {
    hide Matched, CountPresent, ScopedIds, IndicesWithIds, ReconciledEntries;
    if s.retryIndices.Some? {
      var entries := ReconciledEntries(s.entries, op.inventory, op.preserved, op.redownload);
      forall j | 0 <= j < |op.inventory|
        ensures entries[j].id == op.inventory[j].id && entries[j].index == op.inventory[j].index
      {
        ReconciledIdentity(s.entries, op.inventory, op.preserved, op.redownload, j);
      }
      ScopeOfIds(entries, op.inventory, ScopedIds(s.entries, s.retryIndices.value), s);
    }
  }

  lemma ScopeOfIds(entries: seq<Entry>, inventory: seq<NewEntry>, ids: set<string>, s: Snapshot)
    requires |entries| == |inventory| && DistinctIndices(inventory)
    requires forall j :: 0 <= j < |inventory| ==>
               entries[j].id == inventory[j].id && entries[j].index == inventory[j].index
    requires s.retryIndices.Some? && ids == ScopedIds(s.entries, s.retryIndices.value)
    ensures ScopedIds(entries, IndicesWithIds(entries, ids)) == ids * (set j | 0 <= j < |inventory| :: inventory[j].id)
  {
    hide IndicesWithIds;
    var scope := IndicesWithIds(entries, ids);
    assert "" !in ids;
    forall j | 0 <= j < |entries|
      ensures entries[j].index in scope <==> entries[j].id in ids
    {
      IndicesWithIdsSpec(entries, ids, entries[j].index);
    }
  }
}
