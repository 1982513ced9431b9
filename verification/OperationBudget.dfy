/**
 Publishing operation receipts under a byte budget: every receipt starts compact; a usable recovery
 result and a usable import are upgraded to full first, then the others, newest first. The code
 keeps a running total; the specification measures the whole array again at every step.
 */
module OperationBudget {
  import opened Bytes
  import opened Json
  import opened SnapshotRecords

  // ---- which records ----

  function Managed(records: seq<InboxRecord>): seq<InboxRecord> {
    if records == [] then []
    else if records[0].kind != "telegram" then [records[0]] + Managed(records[1..])
    else Managed(records[1..])
  }

  /** Inserts behind every record of the same or a smaller sequence number. */
  function InsertBySeq(sorted: seq<InboxRecord>, r: InboxRecord): seq<InboxRecord> {
    if sorted == [] || sorted[|sorted| - 1].seq_ <= r.seq_ then sorted + [r]
    else InsertBySeq(sorted[..|sorted| - 1], r) + [sorted[|sorted| - 1]]
  }

  function SortBySeq(records: seq<InboxRecord>): seq<InboxRecord> {
    if records == [] then []
    else InsertBySeq(SortBySeq(records[..|records| - 1]), records[|records| - 1])
  }

  function Newest<T>(items: seq<T>, n: nat): seq<T> { items[Max(0, |items| - n)..] }

  function Selected(records: seq<InboxRecord>): (r: seq<InboxRecord>)
    ensures |r| <= MAX_OPERATION_RECORDS
  {
    Newest(SortBySeq(Managed(records)), MAX_OPERATION_RECORDS)
  }

  predicate SortedBySeq(records: seq<InboxRecord>) {
    forall i, j :: 0 <= i < j < |records| ==> records[i].seq_ <= records[j].seq_
  }

  lemma AppendSorted(sorted: seq<InboxRecord>, last: InboxRecord)
    requires SortedBySeq(sorted) && forall r :: r in multiset(sorted) ==> r.seq_ <= last.seq_
    ensures SortedBySeq(sorted + [last])
  {
    forall i | 0 <= i < |sorted|
      ensures sorted[i].seq_ <= last.seq_
    {
      assert sorted[i] in multiset(sorted);
    }
  }

  lemma SortedLast(sorted: seq<InboxRecord>)
    requires SortedBySeq(sorted) && sorted != []
    ensures forall r :: r in multiset(sorted) ==> r.seq_ <= sorted[|sorted| - 1].seq_
    ensures SortedBySeq(sorted[..|sorted| - 1])
    ensures multiset(sorted) == multiset(sorted[..|sorted| - 1]) + multiset{sorted[|sorted| - 1]}
  {
    assert sorted == sorted[..|sorted| - 1] + [sorted[|sorted| - 1]];
    forall r | r in multiset(sorted)
      ensures r.seq_ <= sorted[|sorted| - 1].seq_
    {
      assert r in sorted;
    }
  }

  lemma {:induction false} InsertBySeqSorts(sorted: seq<InboxRecord>, r: InboxRecord)
    requires SortedBySeq(sorted)
    ensures SortedBySeq(InsertBySeq(sorted, r))
    ensures multiset(InsertBySeq(sorted, r)) == multiset(sorted) + multiset{r}
  {
    hide SortedBySeq;
    if sorted == [] {
      AppendSorted(sorted, r);
    } else {
      SortedLast(sorted);
      var last := sorted[|sorted| - 1];
      if last.seq_ <= r.seq_ {
        AppendSorted(sorted, r);
      } else {
        InsertBySeqSorts(sorted[..|sorted| - 1], r);
        AppendSorted(InsertBySeq(sorted[..|sorted| - 1], r), last);
      }
    }
  }

  /** Sorting orders the records by sequence number and loses or adds none. */
  lemma {:induction false} SortBySeqSorts(records: seq<InboxRecord>)
    ensures SortedBySeq(SortBySeq(records)) && multiset(SortBySeq(records)) == multiset(records)
  {
    hide InsertBySeq, SortedBySeq;
    if records == [] {
      NothingSorted();
    } else {
      SortBySeqSorts(records[..|records| - 1]);
      InsertBySeqSorts(SortBySeq(records[..|records| - 1]), records[|records| - 1]);
      assert records == records[..|records| - 1] + [records[|records| - 1]];
    }
  }

  lemma NothingSorted()
    ensures SortedBySeq([])
  {
  }

  /** Dropping the front of a sorted list keeps its order and drops only the oldest. */
  lemma NewestSplit(sorted: seq<InboxRecord>, n: nat)
    requires SortedBySeq(sorted)
    ensures var kept := Newest(sorted, n);
            var dropped := sorted[..|sorted| - |kept|];
            && |kept| == Min(|sorted|, n) && SortedBySeq(kept) && dropped + kept == sorted
            && forall i, j :: 0 <= i < |dropped| && 0 <= j < |kept| ==> dropped[i].seq_ <= kept[j].seq_
  {
  }

  /** The selected records come in sequence order; those left out are older and were the excess over 100. */
  lemma SelectedSpec(records: seq<InboxRecord>) returns (dropped: seq<InboxRecord>)
    ensures var selected := Selected(records);
            && SortedBySeq(selected) && |selected| == Min(|Managed(records)|, MAX_OPERATION_RECORDS)
            && multiset(dropped) + multiset(selected) == multiset(Managed(records))
            && forall i, j :: 0 <= i < |dropped| && 0 <= j < |selected| ==> dropped[i].seq_ <= selected[j].seq_
  {
    hide SortedBySeq, SortBySeq, Managed, Newest;
    var sorted := SortBySeq(Managed(records));
    SortBySeqSorts(Managed(records));
    NewestSplit(sorted, MAX_OPERATION_RECORDS);
    assert |multiset(sorted)| == |multiset(Managed(records))|;
    dropped := sorted[..|sorted| - |Selected(records)|];
  }

  predicate RecoveryRecord(r: InboxRecord) {
    r.kind == "metadata_recover" && r.status.Completed? && r.result.Some? && UsableRecovery(r.result.value)
  }

  predicate ImportRecord(r: InboxRecord) {
    r.kind == "legacy_import" && r.status.Completed? && r.result.Some? && UsableLegacyImport(r.result.value)
  }

  // ---- the specification ----

  function Full(r: InboxRecord): Json { OperationSnapshot(r, true) }

  function Compact(r: InboxRecord): Json { OperationSnapshot(r, false) }

  function CompactForms(selected: seq<InboxRecord>): (r: seq<Json>)
    ensures |r| == |selected| && forall i :: 0 <= i < |r| ==> r[i] == Compact(selected[i])
  {
    seq(|selected|, i requires 0 <= i < |selected| => Compact(selected[i]))
  }

  predicate Fits(snapshots: seq<Json>, i: nat, full: Json)
    requires i < |snapshots|
  {
    ArraySize(snapshots[i := full]) <= MAX_OPERATION_BYTES
  }

  function Restore(snapshots: seq<Json>, i: nat, full: Json): (r: seq<Json>)
    requires i < |snapshots|
    ensures |r| == |snapshots|
  {
    if Fits(snapshots, i, full) then snapshots[i := full] else snapshots
  }

  /** Whether a record is of the prioritized kind: a recovery report, or else an import. */
  predicate Prioritized(r: InboxRecord, recovery: bool) {
    if recovery then RecoveryRecord(r) else ImportRecord(r)
  }

  /** The newest prioritized record below n whose full form fits. */
  function NewestFitting(snapshots: seq<Json>, selected: seq<InboxRecord>, recovery: bool, n: nat): (r: Option<nat>)
    requires n <= |selected| == |snapshots|
    ensures r.Some? ==> r.value < n
  {
    if n == 0 then None
    else if Restorable(snapshots, selected, recovery, n - 1) then Some(n - 1)
    else NewestFitting(snapshots, selected, recovery, n - 1)
  }

  predicate Restorable(snapshots: seq<Json>, selected: seq<InboxRecord>, recovery: bool, i: nat)
    requires i < |selected| == |snapshots|
  {
    Prioritized(selected[i], recovery) && Fits(snapshots, i, Full(selected[i]))
  }

  lemma {:induction false} NewestFittingSpec(snapshots: seq<Json>, selected: seq<InboxRecord>, recovery: bool, n: nat)
    requires n <= |selected| == |snapshots|
    ensures var r := NewestFitting(snapshots, selected, recovery, n);
            && (r.Some? ==> Restorable(snapshots, selected, recovery, r.value)
                            && Prioritized(selected[r.value], recovery)
                            && Fits(snapshots, r.value, Full(selected[r.value])))
            && (forall i :: 0 <= i < n && Restorable(snapshots, selected, recovery, i) ==> r.Some? && i <= r.value)
  {
    hide Prioritized, Fits, Full;
    if n > 0 && !Restorable(snapshots, selected, recovery, n - 1) {
      NewestFittingSpec(snapshots, selected, recovery, n - 1);
    }
  }

  function Reserve(snapshots: seq<Json>, selected: seq<InboxRecord>, i: Option<nat>): (r: seq<Json>)
    requires |selected| == |snapshots| && (i.Some? ==> i.value < |snapshots|)
    ensures |r| == |snapshots|
  {
    if i.None? then snapshots else snapshots[i.value := Full(selected[i.value])]
  }

  /** Upgrades records n-1, n-2, … 0 where they fit, leaving the two reserved ones alone. */
  function RestoreRest(snapshots: seq<Json>, selected: seq<InboxRecord>, a: Option<nat>, b: Option<nat>,
                       n: nat): (r: seq<Json>)
    requires n <= |selected| == |snapshots|
    ensures |r| == |snapshots|
    decreases n
  {
    if n == 0 then snapshots
    else if b == Some(n - 1) || a == Some(n - 1) then RestoreRest(snapshots, selected, a, b, n - 1)
    else RestoreRest(Restore(snapshots, n - 1, Full(selected[n - 1])), selected, a, b, n - 1)
  }

  function Allocate(selected: seq<InboxRecord>): (r: seq<Json>)
    ensures |r| == |selected|
  {
    var s0 := CompactForms(selected);
    var recovery := NewestFitting(s0, selected, true, |selected|);
    var s1 := Reserve(s0, selected, recovery);
    var imported := NewestFitting(s1, selected, false, |selected|);
    RestoreRest(Reserve(s1, selected, imported), selected, recovery, imported, |selected|)
  }

  // ---- the code ----

  method RestoreFullOperationIfFits(index: nat, record: InboxRecord, snapshots: array<Json>, totalBytes: nat)
    returns (restored: bool, newTotal: nat)
    requires index < snapshots.Length
    requires totalBytes == ArraySize(snapshots[..]) <= MAX_OPERATION_BYTES
    modifies snapshots
    ensures restored == Fits(old(snapshots[..]), index, Full(record))
    ensures snapshots[..] == Restore(old(snapshots[..]), index, Full(record))
    ensures newTotal == ArraySize(snapshots[..]) <= MAX_OPERATION_BYTES
  {
    hide OperationSnapshot, Size;
    var full := OperationSnapshot(record, true);
    ArrayUpdate(snapshots[..], index, full);
    var compactSize := SizeWithin(snapshots[index], MAX_OPERATION_BYTES);
    var fullSize := SizeWithin(full, MAX_OPERATION_BYTES);
    if compactSize.None? || fullSize.None? { return false, totalBytes; }
    var replacedSize := Max(0, totalBytes - compactSize.value);
    var nextTotal := SaturatingAdd(replacedSize, fullSize.value);
    if nextTotal <= MAX_OPERATION_BYTES {
      snapshots[index] := full;
      restored, newTotal := true, nextTotal;
    } else {
      restored, newTotal := false, totalBytes;
    }
  }

  method ReserveNewest(selected: seq<InboxRecord>, recovery: bool, snapshots: array<Json>, totalBytes: nat)
    returns (reserved: Option<nat>, newTotal: nat)
    requires |selected| == snapshots.Length
    requires totalBytes == ArraySize(snapshots[..]) <= MAX_OPERATION_BYTES
    modifies snapshots
    ensures reserved == NewestFitting(old(snapshots[..]), selected, recovery, |selected|)
    ensures snapshots[..] == Reserve(old(snapshots[..]), selected, reserved)
    ensures newTotal == ArraySize(snapshots[..]) <= MAX_OPERATION_BYTES
  {
    hide OperationSnapshot, ArraySize, Prioritized;
    newTotal := totalBytes;
    var index := |selected|;
    ghost var before := snapshots[..];
    while index > 0
      invariant 0 <= index <= |selected|
      invariant snapshots[..] == before
      invariant newTotal == ArraySize(snapshots[..]) <= MAX_OPERATION_BYTES
      invariant NewestFitting(before, selected, recovery, |selected|)
             == NewestFitting(before, selected, recovery, index)
    {
      index := index - 1;
      if Prioritized(selected[index], recovery) {
        var restored;
        restored, newTotal := RestoreFullOperationIfFits(index, selected[index], snapshots, newTotal);
        if restored { return Some(index), newTotal; }
      }
    }
    reserved := None;
  }

  method RestoreOthers(selected: seq<InboxRecord>, recovery: Option<nat>, imported: Option<nat>,
                       snapshots: array<Json>, totalBytes: nat)
    requires |selected| == snapshots.Length
    requires totalBytes == ArraySize(snapshots[..]) <= MAX_OPERATION_BYTES
    modifies snapshots
    ensures snapshots[..] == RestoreRest(old(snapshots[..]), selected, recovery, imported, |selected|)
  {
    hide OperationSnapshot, ArraySize, Restore;
    var total := totalBytes;
    var index := |selected|;
    while index > 0
      invariant 0 <= index <= |selected|
      invariant total == ArraySize(snapshots[..]) <= MAX_OPERATION_BYTES
      invariant RestoreRest(old(snapshots[..]), selected, recovery, imported, |selected|) ==
                RestoreRest(snapshots[..], selected, recovery, imported, index)
    {
      index := index - 1;
      if imported != Some(index) && recovery != Some(index) {
        var restored;
        restored, total := RestoreFullOperationIfFits(index, selected[index], snapshots, total);
      }
    }
  }

  method OperationSnapshots(records: seq<InboxRecord>) returns (published: Result<seq<Json>>)
    ensures published ==
            if ArraySize(CompactForms(Selected(records))) > MAX_OPERATION_BYTES then Err
            else Ok(Allocate(Selected(records)))
  {
    hide OperationSnapshot, Compact, ArraySize, Selected, NewestFitting, Reserve, RestoreRest;
    var selected := Selected(records);
    var forms := CompactForms(selected);
    var snapshots := new Json[|forms|](i requires 0 <= i < |forms| => forms[i]);
    assert snapshots[..] == forms;
    var size := ArraySizeWithin(snapshots[..], MAX_OPERATION_BYTES);
    NoRecordsFit(forms);
    if size.None? { return Err; }
    var total := size.value;
    var recovery, imported;
    recovery, total := ReserveNewest(selected, true, snapshots, total);
    imported, total := ReserveNewest(selected, false, snapshots, total);
    RestoreOthers(selected, recovery, imported, snapshots, total);
    published := Ok(snapshots[..]);
  }

  lemma NoRecordsFit(forms: seq<Json>)
    ensures forms == [] ==> ArraySize(forms) <= MAX_OPERATION_BYTES
  {
  }

  // ---- what the allocation guarantees ----

  /** Each entry is the compact or the full receipt of its own record. */
  predicate OwnForms(snapshots: seq<Json>, selected: seq<InboxRecord>)
    requires |snapshots| == |selected|
  {
    forall i :: 0 <= i < |selected| ==> snapshots[i] == Compact(selected[i]) || snapshots[i] == Full(selected[i])
  }

  lemma {:induction false} RestoreRestKeeps(snapshots: seq<Json>, selected: seq<InboxRecord>, a: Option<nat>,
                                            b: Option<nat>, n: nat)
    requires n <= |selected| == |snapshots| && OwnForms(snapshots, selected)
    requires ArraySize(snapshots) <= MAX_OPERATION_BYTES
    ensures var r := RestoreRest(snapshots, selected, a, b, n);
            && OwnForms(r, selected) && ArraySize(r) <= MAX_OPERATION_BYTES
            && (forall i :: 0 <= i < |selected| && (a == Some(i) || b == Some(i)) ==> r[i] == snapshots[i])
    decreases n
  {
    hide OperationSnapshot, ArraySize;
    if n > 0 {
      if b == Some(n - 1) || a == Some(n - 1) {
        RestoreRestKeeps(snapshots, selected, a, b, n - 1);
      } else {
        RestoreRestKeeps(Restore(snapshots, n - 1, Full(selected[n - 1])), selected, a, b, n - 1);
      }
    }
  }

  lemma ReserveKeeps(snapshots: seq<Json>, selected: seq<InboxRecord>, recovery: bool)
    requires |selected| == |snapshots| && OwnForms(snapshots, selected)
    requires ArraySize(snapshots) <= MAX_OPERATION_BYTES
    ensures var i := NewestFitting(snapshots, selected, recovery, |selected|);
            var r := Reserve(snapshots, selected, i);
            && OwnForms(r, selected) && ArraySize(r) <= MAX_OPERATION_BYTES
            && (i.Some? ==> r[i.value] == Full(selected[i.value]))
  {
    hide OperationSnapshot, ArraySize, Prioritized;
    NewestFittingSpec(snapshots, selected, recovery, |selected|);
  }

  /**
   The published array stays within its limit, entry i is a form of record i, and the two reserved
   records are published in full.
   */
  lemma AllocateKeeps(selected: seq<InboxRecord>)
    requires ArraySize(CompactForms(selected)) <= MAX_OPERATION_BYTES
    ensures OwnForms(Allocate(selected), selected)
    ensures ArraySize(Allocate(selected)) <= MAX_OPERATION_BYTES
    ensures var s0 := CompactForms(selected);
            var recovery := NewestFitting(s0, selected, true, |selected|);
            var imported := NewestFitting(Reserve(s0, selected, recovery), selected, false, |selected|);
            && (recovery.Some? ==> Allocate(selected)[recovery.value] == Full(selected[recovery.value]))
            && (imported.Some? ==> Allocate(selected)[imported.value] == Full(selected[imported.value]))
  {
    hide Compact, Full, ArraySize, Prioritized, NewestFitting, Fits, RestoreRest, OwnForms, CompactForms, Reserve;
    var s0 := CompactForms(selected);
    CompactFormsAreForms(selected);
    ReserveKeeps(s0, selected, true);
    var recovery := NewestFitting(s0, selected, true, |selected|);
    var s1 := Reserve(s0, selected, recovery);
    ReserveKeeps(s1, selected, false);
    var imported := NewestFitting(s1, selected, false, |selected|);
    var s2 := Reserve(s1, selected, imported);
    NewestFittingSpec(s0, selected, true, |selected|);
    NewestFittingSpec(s1, selected, false, |selected|);
    KindsDiffer(selected, recovery, imported);
    if recovery.Some? { ReserveOther(s1, selected, imported, recovery.value); }
    RestoreRestKeeps(s2, selected, recovery, imported, |selected|);
  }

  lemma CompactFormsAreForms(selected: seq<InboxRecord>)
    ensures OwnForms(CompactForms(selected), selected)
  {
    hide Compact, Full;
  }

  lemma ReserveOther(snapshots: seq<Json>, selected: seq<InboxRecord>, i: Option<nat>, k: nat)
    requires |selected| == |snapshots| && (i.Some? ==> i.value < |snapshots| && i.value != k) && k < |snapshots|
    ensures Reserve(snapshots, selected, i)[k] == snapshots[k]
  {
    hide Full;
  }

  /** The receipt before any upgrade: full if it is one of the two reserved ones. */
  function BaseForm(r: InboxRecord, reserved: bool): Json { if reserved then Full(r) else Compact(r) }

  /** What an upgrade of receipt i would publish: `p` above it, its full form, and the base forms below. */
  function Tried(p: seq<Json>, selected: seq<InboxRecord>, a: Option<nat>, b: Option<nat>, i: nat): (r: seq<Json>)
    requires |p| == |selected| && i < |p|
  {
    seq(|p|, k requires 0 <= k < |p| =>
      if k > i then p[k] else BaseForm(selected[k], k == i || a == Some(k) || b == Some(k)))
  }

  lemma {:induction false} RestoreRestExactly(snapshots: seq<Json>, selected: seq<InboxRecord>, a: Option<nat>,
                                              b: Option<nat>, n: nat)
    requires n <= |selected| == |snapshots| && ArraySize(snapshots) <= MAX_OPERATION_BYTES
    requires forall k: nat :: k < n ==> snapshots[k] == BaseForm(selected[k], a == Some(k) || b == Some(k))
    ensures var r := RestoreRest(snapshots, selected, a, b, n);
            && (forall i :: n <= i < |snapshots| ==> r[i] == snapshots[i])
            && (forall i: nat :: i < n && a != Some(i) && b != Some(i) ==>
                  (r[i] == Full(selected[i]) <==> ArraySize(Tried(r, selected, a, b, i)) <= MAX_OPERATION_BYTES))
    decreases n
  {
    hide Full, Compact, ArraySize, Tried;
    if n > 0 {
      if b == Some(n - 1) || a == Some(n - 1) {
        RestoreRestExactly(snapshots, selected, a, b, n - 1);
      } else {
        var next := Restore(snapshots, n - 1, Full(selected[n - 1]));
        RestoreRestExactly(next, selected, a, b, n - 1);
        TriedIsRestored(snapshots, selected, a, b, n - 1, RestoreRest(next, selected, a, b, n - 1));
        assert snapshots[n - 1 := snapshots[n - 1]] == snapshots;
      }
    }
  }

  lemma TriedIsRestored(snapshots: seq<Json>, selected: seq<InboxRecord>, a: Option<nat>, b: Option<nat>, i: nat,
                        p: seq<Json>)
    requires i < |selected| == |snapshots| == |p|
    requires forall k: nat :: k <= i ==> snapshots[k] == BaseForm(selected[k], a == Some(k) || b == Some(k))
    requires forall k :: i < k < |p| ==> p[k] == snapshots[k]
    ensures Tried(p, selected, a, b, i) == snapshots[i := Full(selected[i])]
  {
    hide Full, Compact;
  }

  /**
   Nothing is withheld that fits. Beside the two reserved receipts, which are full, a receipt is
   published in full exactly when the array that holds it in full, what is published above it, and the
   compact forms and reserved receipts below it is within the limit.
   */
  lemma UpgradedExactly(selected: seq<InboxRecord>)
    requires ArraySize(CompactForms(selected)) <= MAX_OPERATION_BYTES
    ensures var s0 := CompactForms(selected);
            var recovery := NewestFitting(s0, selected, true, |selected|);
            var imported := NewestFitting(Reserve(s0, selected, recovery), selected, false, |selected|);
            var p := Allocate(selected);
            forall i: nat :: i < |selected| ==>
              (p[i] == Full(selected[i]) <==>
                 recovery == Some(i) || imported == Some(i)
                 || ArraySize(Tried(p, selected, recovery, imported, i)) <= MAX_OPERATION_BYTES)
  {
    hide Compact, Full, ArraySize, Prioritized, NewestFitting, Fits;
    hide RestoreRest, CompactForms, Reserve, Tried, OwnForms;
    var s0 := CompactForms(selected);
    var recovery := NewestFitting(s0, selected, true, |selected|);
    var s1 := Reserve(s0, selected, recovery);
    var imported := NewestFitting(s1, selected, false, |selected|);
    AllocateKeeps(selected);
    CompactFormsAreForms(selected);
    ReserveKeeps(s0, selected, true);
    ReserveKeeps(s1, selected, false);
    NewestFittingSpec(s0, selected, true, |selected|);
    NewestFittingSpec(s1, selected, false, |selected|);
    ReservedForms(selected, recovery, imported);
    RestoreRestExactly(Reserve(s1, selected, imported), selected, recovery, imported, |selected|);
  }

  lemma ReservedForms(selected: seq<InboxRecord>, a: Option<nat>, b: Option<nat>)
    requires (a.Some? ==> a.value < |selected|) && (b.Some? ==> b.value < |selected|)
    ensures var s := Reserve(Reserve(CompactForms(selected), selected, a), selected, b);
            forall k: nat :: k < |selected| ==> s[k] == BaseForm(selected[k], a == Some(k) || b == Some(k))
  {
    hide Full, Compact;
  }

  /**
   What a published receipt says about itself. It carries its own record's fields, and its marks are
   true: a result that is not marked is the record's exact result, a marked one is its summary, and
   kind and error are unchanged exactly when they are not marked.
   */
  lemma PublishedReceipts(records: seq<InboxRecord>, i: nat)
    requires ArraySize(CompactForms(Selected(records))) <= MAX_OPERATION_BYTES && i < |Selected(records)|
    ensures var r, j := Selected(records)[i], Allocate(Selected(records))[i];
            && AsNat(Get(j, "seq")) == Some(r.seq_) && Get(j, "status") == Some(Str(StatusName(r.status)))
            && (IsTrue(j, "details_incomplete") ==>
                  r.result.Some? && Get(j, "result") == Some(CompactSummary(r.result.value)))
            && (!IsTrue(j, "details_incomplete") && r.kind != "library_scan" ==>
                  Get(j, "result") == Some(if r.result.None? then Null else r.result.value))
            && (IsTrue(j, "kind_truncated") <==> Get(j, "kind") != Some(Str(r.kind)))
            && (IsTrue(j, "error_truncated") <==> Get(j, "error") != Some(ErrorJson(r.error)))
  {
    hide OperationSnapshot, Get, AsNat, StatusName, IsTrue, CompactSummary, BoundedKind, BoundedError;
    hide Selected, Allocate, CompactForms, ArraySize;
    AllocateKeeps(Selected(records));
    var r := Selected(records)[i];
    ReceiptFields(r, false);
    ReceiptFields(r, true);
    ReceiptMarks(r, false);
    ReceiptMarks(r, true);
  }

  lemma PrioritizedOnce(r: InboxRecord)
    ensures !(Prioritized(r, true) && Prioritized(r, false))
  {
    hide UsableRecovery, UsableLegacyImport;
  }

  lemma KindsDiffer(selected: seq<InboxRecord>, a: Option<nat>, b: Option<nat>)
    requires a.Some? ==> a.value < |selected| && Prioritized(selected[a.value], true)
    requires b.Some? ==> b.value < |selected| && Prioritized(selected[b.value], false)
    ensures a.Some? && b.Some? ==> a != b
  {
    hide Prioritized;
    if a.Some? && b.Some? { PrioritizedOnce(selected[a.value]); }
  }

  predicate NoLibraryScans(selected: seq<InboxRecord>) {
    forall i :: 0 <= i < |selected| ==> selected[i].kind != "library_scan"
  }

  const COMPACT_TOTAL: nat := 2 + 100 * 10_000 + 99

  /** Without unbounded scan receipts the compact forms always fit, so publishing never fails. */
  lemma CompactFormsFit(selected: seq<InboxRecord>)
    requires |selected| <= MAX_OPERATION_RECORDS && NoLibraryScans(selected)
    ensures ArraySize(CompactForms(selected)) <= COMPACT_TOTAL < MAX_OPERATION_BYTES
  {
    hide Compact, Size;
    forall i | 0 <= i < |selected|
      ensures Size(CompactForms(selected)[i]) <= 10_000
    {
      CompactIsBounded(selected[i]);
    }
    ItemsBound(CompactForms(selected), 10_000);
  }

  lemma CompactIsBounded(r: InboxRecord)
    requires r.kind != "library_scan"
    ensures Size(Compact(r)) <= 10_000
  {
    hide OperationSnapshot;
    CompactReceiptSize(r);
  }

  lemma RecoveryFits(selected: seq<InboxRecord>, i: nat)
    requires |selected| <= MAX_OPERATION_RECORDS && NoLibraryScans(selected)
    requires i < |selected| && RecoveryRecord(selected[i])
    ensures Fits(CompactForms(selected), i, Full(selected[i]))
  {
    hide OperationSnapshot, Compact, Size, UsableRecovery;
    CompactFormsFit(selected);
    ArrayUpdate(CompactForms(selected), i, Full(selected[i]));
    OperationSnapshotSize(selected[i], true);
    UsableRecoverySize(selected[i].result.value);
  }

  lemma UsableRecoverySize(result: Json)
    requires UsableRecovery(result)
    ensures Size(result) <= MAX_RECOVERY_RESULT_BYTES
  {
  }

  /**
   Without scan receipts among the selected records, publishing succeeds and the newest usable
   recovery result is published in full, however large the newer receipts are.
   */
  lemma NewestRecoveryIsFull(records: seq<InboxRecord>, i: nat)
    requires NoLibraryScans(Selected(records))
    requires i < |Selected(records)| && RecoveryRecord(Selected(records)[i])
    requires forall k :: i < k < |Selected(records)| ==> !RecoveryRecord(Selected(records)[k])
    ensures ArraySize(CompactForms(Selected(records))) <= MAX_OPERATION_BYTES
    ensures Allocate(Selected(records))[i] == Full(Selected(records)[i])
  {
    hide Compact, Full, ArraySize, RecoveryRecord, ImportRecord, Fits, Selected, CompactForms, Reserve;
    var selected := Selected(records);
    CompactFormsFit(selected);
    RecoveryFits(selected, i);
    AllocateKeeps(selected);
    NewestFittingSpec(CompactForms(selected), selected, true, |selected|);
    assert Restorable(CompactForms(selected), selected, true, i);
  }

  /** The receipts once the newest fitting recovery is reserved. */
  function AfterRecovery(selected: seq<InboxRecord>): (r: seq<Json>)
    ensures |r| == |selected|
  {
    var forms := CompactForms(selected);
    Reserve(forms, selected, NewestFitting(forms, selected, true, |selected|))
  }

  /** A completed import with a usable result whose full receipt fits then. */
  predicate ImportFits(selected: seq<InboxRecord>, i: nat)
    requires i < |selected|
  {
    var r := selected[i];
    && r.kind == "legacy_import" && r.status.Completed? && r.result.Some? && UsableLegacyImport(r.result.value)
    && ArraySize(AfterRecovery(selected)[i := Full(r)]) <= MAX_OPERATION_BYTES
  }

  /** The newest import that fits beside the reserved recovery is published in full. */
  lemma NewestImportIsFull(selected: seq<InboxRecord>, i: nat)
    requires ArraySize(CompactForms(selected)) <= MAX_OPERATION_BYTES && i < |selected| && ImportFits(selected, i)
    requires forall k :: i < k < |selected| ==> !ImportFits(selected, k)
    ensures Allocate(selected)[i] == Full(selected[i])
  {
    hide Full, Compact, ArraySize, CompactForms, Reserve, NewestFitting, Allocate, OwnForms, Restorable, ImportFits;
    hide AfterRecovery, Prioritized, Fits, ImportRecord;
    var s1 := AfterRecovery(selected);
    AllocateKeeps(selected);
    NewestFittingSpec(s1, selected, false, |selected|);
    forall k | i <= k < |selected|
      ensures Restorable(s1, selected, false, k) <==> ImportFits(selected, k)
    {
      ImportRestorable(s1, selected, k);
      ImportFitsIs(selected, k);
    }
    AfterRecoveryIs(selected);
  }

  lemma AfterRecoveryIs(selected: seq<InboxRecord>)
    ensures var forms := CompactForms(selected);
            AfterRecovery(selected) == Reserve(forms, selected, NewestFitting(forms, selected, true, |selected|))
  {
    hide CompactForms, Reserve, NewestFitting;
  }

  lemma ImportFitsIs(selected: seq<InboxRecord>, k: nat)
    requires k < |selected|
    ensures ImportFits(selected, k) <==>
              && ImportRecord(selected[k])
              && ArraySize(AfterRecovery(selected)[k := Full(selected[k])]) <= MAX_OPERATION_BYTES
  {
    hide Full, ArraySize, AfterRecovery, UsableLegacyImport;
  }

  lemma ImportRestorable(snapshots: seq<Json>, selected: seq<InboxRecord>, k: nat)
    requires k < |selected| == |snapshots|
    ensures Restorable(snapshots, selected, false, k) <==>
              ImportRecord(selected[k]) && ArraySize(snapshots[k := Full(selected[k])]) <= MAX_OPERATION_BYTES
  {
    hide Full, ArraySize, ImportRecord;
  }

  // ---- scan receipts are not bounded ----

  lemma ReceiptHoldsResult(r: InboxRecord, full: bool)
    ensures Size(OperationSnapshot(r, full)) > Size(ReceiptResult(r, full))
  {
    hide Find, ReceiptExtras, ReceiptCore, Size, ReceiptResult, BoundedKind, BoundedError;
    ReceiptFields(r, full);
    FindSize(ReceiptExtras(r, full, ReceiptCore(r, full)), "result");
  }

  /** A scan receipt copies its revision whole, so a huge one makes publishing fail. */
  lemma HugeScanFails(r: InboxRecord, revision: string)
    requires r.kind == "library_scan" && r.result.Some? && Get(r.result.value, "revision") == Some(Str(revision))
    requires |revision| >= MAX_OPERATION_BYTES
    ensures Selected([r]) == [r] && ArraySize(CompactForms([r])) > MAX_OPERATION_BYTES
  {
    hide OperationSnapshot, ReceiptResult;
    OneSelected(r);
    ReceiptHoldsResult(r, false);
    HugeScanResult(r, revision);
    assert CompactForms([r])[0] == Compact(r);
    ArrayUpdate(CompactForms([r]), 0, Compact(r));
  }

  lemma OneSelected(r: InboxRecord)
    requires r.kind != "telegram"
    ensures Selected([r]) == [r]
  {
    assert Managed([r]) == [r];
    assert [r][..0] == [];
    assert SortBySeq([r]) == InsertBySeq(SortBySeq([]), r) == [r];
  }

  lemma HugeScanResult(r: InboxRecord, revision: string)
    requires r.kind == "library_scan" && r.result.Some? && Get(r.result.value, "revision") == Some(Str(revision))
    ensures Size(ReceiptResult(r, false)) > |revision|
  {
    hide Size, Insert;
    var result := r.result.value;
    var f0 := Insert([], "revision", Str(revision));
    FindInsert([], "revision", Str(revision), "revision");
    if Get(result, "scanned_at").Some? {
      FindInsert(f0, "scanned_at", Get(result, "scanned_at").value, "revision");
      FindSize(Insert(f0, "scanned_at", Get(result, "scanned_at").value), "revision");
    } else {
      FindSize(f0, "revision");
    }
    StringSize(revision);
    TextSizeBound(revision);
  }
}
