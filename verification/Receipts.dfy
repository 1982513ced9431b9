/**
 Compacting historical receipts in place: large results become small summaries, except the newest
 usable import and the newest usable recovery report.
 */
module Receipts {
  import opened Bytes
  import opened Json
  import opened SnapshotRecords

  /** Stores a bounded text and its truncation mark when bounding changes the text. */
  function BoundText(fields: seq<Field>, key: string, mark: string, limit: nat): seq<Field> {
    var text := AsStr(Find(fields, key));
    if text.None? then fields
    else
      var bounded := BoundedString(text.value, limit);
      if bounded.None? || bounded == text then fields
      else Insert(Insert(fields, key, Str(bounded.value)), mark, Bool(true))
  }

  function BoundMetadata(fields: seq<Field>): seq<Field> {
    BoundText(BoundText(fields, "kind", "kind_truncated", MAX_KIND_BYTES), "error", "error_truncated", MAX_ERROR_BYTES)
  }

  function Put(fields: seq<Field>, key: string, value: Json): seq<Field> {
    if Find(fields, key) == Some(value) then fields else Insert(fields, key, value)
  }

  function CompactResult(fields: seq<Field>): seq<Field> {
    var original := Find(fields, "result");
    if original.None? || Size(original.value) <= MAX_COMPACT_RESULT_BYTES then fields
    else
      Put(Put(Put(fields, "result", CompactSummary(original.value)), "details_incomplete", Bool(true)),
          "result_truncated", Bool(true))
  }

  function CompactReceipt(operation: Json, keep: bool): Json {
    if !operation.Obj? then operation
    else if keep then Obj(BoundMetadata(operation.fields))
    else Obj(CompactResult(BoundMetadata(operation.fields)))
  }

  /** A published receipt whose result is still complete and actionable. */
  predicate UsableSnapshot(operation: Json, recovery: bool) {
    && AsStr(Get(operation, "kind")) == Some(if recovery then "metadata_recover" else "legacy_import")
    && AsStr(Get(operation, "status")) == Some("completed")
    && !IsTrue(operation, "details_incomplete") && !IsTrue(operation, "result_truncated")
    && Get(operation, "result").Some?
    && (if recovery then UsableRecovery(Get(operation, "result").value)
        else UsableLegacyImport(Get(operation, "result").value))
  }

  function SeqOf(operation: Json): nat {
    var n := AsNat(Get(operation, "seq"));
    if n.Some? then n.value else 0
  }

  /** The last usable receipt of the greatest sequence number among the first n. */
  function Latest(operations: seq<Json>, recovery: bool, n: nat): (r: Option<nat>)
    requires n <= |operations|
    ensures r.Some? ==> r.value < n
  {
    if n == 0 then None
    else
      var before := Latest(operations, recovery, n - 1);
      if UsableSnapshot(operations[n - 1], recovery)
         && (before.Some? ==> SeqOf(operations[before.value]) <= SeqOf(operations[n - 1]))
      then Some(n - 1) else before
  }

  predicate Kept(operations: seq<Json>, i: nat) {
    Latest(operations, false, |operations|) == Some(i) || Latest(operations, true, |operations|) == Some(i)
  }

  function CompactAll(operations: seq<Json>): (r: seq<Json>)
    ensures |r| == |operations|
  {
    seq(|operations|, i requires 0 <= i < |operations| => CompactReceipt(operations[i], Kept(operations, i)))
  }

  method CompactOperationReceipts(operations: array<Json>) returns (changed: bool)
    modifies operations
    ensures operations[..] == CompactAll(old(operations[..]))
    ensures changed == (operations[..] != old(operations[..]))
  {
    hide CompactReceipt, Latest;
    ghost var before := operations[..];
    var latestImport := Latest(operations[..], false, operations.Length);
    var latestRecovery := Latest(operations[..], true, operations.Length);
    changed := false;
    for i := 0 to operations.Length
      invariant forall k :: i <= k < operations.Length ==> operations[k] == before[k]
      invariant forall k :: 0 <= k < i ==> operations[k] == CompactAll(before)[k]
      invariant changed == exists k :: 0 <= k < i && operations[k] != before[k]
    {
      var keep := latestImport == Some(i) || latestRecovery == Some(i);
      var compacted := CompactReceipt(operations[i], keep);
      if compacted != operations[i] {
        operations[i] := compacted;
        changed := true;
      }
    }
  }

  // ---- lookups after the updates ----

  lemma PutFinds(fields: seq<Field>, key: string, value: Json, other: string)
    ensures Find(Put(fields, key, value), other) == if other == key then Some(value) else Find(fields, other)
  {
    hide Insert, Find;
    FindInsert(fields, key, value, other);
  }

  lemma BoundTextFinds(fields: seq<Field>, key: string, mark: string, limit: nat, other: string)
    requires key != mark && other != key && other != mark
    ensures Find(BoundText(fields, key, mark, limit), other) == Find(fields, other)
  {
    hide Insert, Find, BoundedString;
    var text := AsStr(Find(fields, key));
    var bounded := if text.Some? then BoundedString(text.value, limit) else None;
    if bounded.Some? {
      FindInsert(fields, key, Str(bounded.value), other);
      FindInsert(Insert(fields, key, Str(bounded.value)), mark, Bool(true), other);
    }
  }

  /** Bounding leaves a text that bounding keeps: the original, or one that ends in an ellipsis. */
  lemma BoundTextSettles(fields: seq<Field>, key: string, mark: string, limit: nat)
    requires key != mark && limit >= 5
    ensures var g := BoundText(fields, key, mark, limit);
            && BoundText(g, key, mark, limit) == g
            && (AsStr(Find(g, key)) == AsStr(Find(fields, key)) ||
                (AsStr(Find(g, key)).Some? && EndsInEllipsis(AsStr(Find(g, key)).value)
                 && AsStr(Find(fields, key)).Some? && TextSize(AsStr(Find(fields, key)).value) > limit))
  {
    hide Insert, Find, BoundedString, TextSize;
    var text := AsStr(Find(fields, key));
    if text.Some? {
      BoundedStringSpec(text.value, limit);
      var bounded := BoundedString(text.value, limit);
      if bounded.Some? && bounded != text {
        FindInsert(fields, key, Str(bounded.value), key);
        FindInsert(Insert(fields, key, Str(bounded.value)), mark, Bool(true), key);
      }
    }
  }

  predicate EndsInEllipsis(s: string) { s != [] && s[|s| - 1] == ELLIPSIS[0] }

  lemma KindSettles(fields: seq<Field>)
    ensures var g := BoundMetadata(fields);
            && BoundMetadata(g) == g
            && (AsStr(Find(g, "kind")) == AsStr(Find(fields, "kind")) ||
                (AsStr(Find(g, "kind")).Some? && EndsInEllipsis(AsStr(Find(g, "kind")).value)
                 && AsStr(Find(fields, "kind")).Some? && TextSize(AsStr(Find(fields, "kind")).value) > MAX_KIND_BYTES))
  {
    hide Find, BoundText, TextSize, EndsInEllipsis;
    var f1 := BoundText(fields, "kind", "kind_truncated", MAX_KIND_BYTES);
    var g := BoundMetadata(fields);
    BoundTextSettles(fields, "kind", "kind_truncated", MAX_KIND_BYTES);
    BoundTextSettles(f1, "error", "error_truncated", MAX_ERROR_BYTES);
    BoundTextFinds(f1, "error", "error_truncated", MAX_ERROR_BYTES, "kind");
    SettledText(f1, g, "kind", "kind_truncated", MAX_KIND_BYTES);
  }

  lemma SettledText(f: seq<Field>, g: seq<Field>, key: string, mark: string, limit: nat)
    requires BoundText(f, key, mark, limit) == f && limit >= 5 && key != mark
    requires Find(g, key) == Find(f, key)
    ensures BoundText(g, key, mark, limit) == g
  {
    hide Insert, Find, BoundedString, TextSize;
    var text := AsStr(Find(f, key));
    if text.Some? {
      BoundedStringSpec(text.value, limit);
      var bounded := BoundedString(text.value, limit);
      if bounded.Some? && bounded != text {
        FindInsert(f, key, Str(bounded.value), key);
        FindInsert(Insert(f, key, Str(bounded.value)), mark, Bool(true), key);
      }
    }
  }

  /** The fields compaction may touch. */
  predicate Rewritten(key: string) {
    key in {"kind", "kind_truncated", "error", "error_truncated", "result", "details_incomplete", "result_truncated"}
  }

  lemma CompactResultFinds(fields: seq<Field>, other: string)
    requires other != "result" && other != "details_incomplete" && other != "result_truncated"
    ensures Find(CompactResult(fields), other) == Find(fields, other)
  {
    hide Put, Find, CompactSummary, Size;
    if Find(fields, "result").Some? {
      var f1 := Put(fields, "result", CompactSummary(Find(fields, "result").value));
      var f2 := Put(f1, "details_incomplete", Bool(true));
      PutFinds(fields, "result", CompactSummary(Find(fields, "result").value), other);
      PutFinds(f1, "details_incomplete", Bool(true), other);
      PutFinds(f2, "result_truncated", Bool(true), other);
    }
  }

  /** Compacting a result leaves a small one, and marks the receipt exactly when it was large. */
  lemma CompactResultSettles(fields: seq<Field>)
    ensures var g := CompactResult(fields);
            && (Find(g, "result").Some? <==> Find(fields, "result").Some?)
            && (Find(g, "result").Some? ==> Size(Find(g, "result").value) <= MAX_COMPACT_RESULT_BYTES)
            && (g == fields || (Find(g, "details_incomplete") == Some(Bool(true))
                                && Find(g, "result_truncated") == Some(Bool(true))))
  {
    hide Put, Find, CompactSummary, Size;
    var original := Find(fields, "result");
    if original.Some? {
      var summary := CompactSummary(original.value);
      CompactSummarySize(original.value);
      var f1 := Put(fields, "result", summary);
      var f2 := Put(f1, "details_incomplete", Bool(true));
      PutFinds(fields, "result", summary, "result");
      PutFinds(f1, "details_incomplete", Bool(true), "result");
      PutFinds(f2, "result_truncated", Bool(true), "result");
      PutFinds(f1, "details_incomplete", Bool(true), "details_incomplete");
      PutFinds(f2, "result_truncated", Bool(true), "details_incomplete");
      PutFinds(f2, "result_truncated", Bool(true), "result_truncated");
    }
  }

  lemma BoundMetadataFinds(fields: seq<Field>, other: string)
    requires other !in {"kind", "kind_truncated", "error", "error_truncated"}
    ensures Find(BoundMetadata(fields), other) == Find(fields, other)
  {
    hide BoundText, Find;
    BoundTextFinds(fields, "kind", "kind_truncated", MAX_KIND_BYTES, other);
    BoundTextFinds(BoundText(fields, "kind", "kind_truncated", MAX_KIND_BYTES), "error", "error_truncated",
                   MAX_ERROR_BYTES, other);
  }

  /** Every other field of a receipt survives compaction; a result that is not kept is small. */
  lemma CompactReceiptKeepsIdentity(operation: Json, keep: bool, key: string)
    ensures !Rewritten(key) ==> Get(CompactReceipt(operation, keep), key) == Get(operation, key)
    ensures keep ==> Get(CompactReceipt(operation, keep), "result") == Get(operation, "result")
    ensures !keep && Get(CompactReceipt(operation, keep), "result").Some? ==>
              Size(Get(CompactReceipt(operation, keep), "result").value) <= MAX_COMPACT_RESULT_BYTES
  {
    hide BoundMetadata, CompactResult, Find, Size;
    if operation.Obj? {
      BoundMetadataFinds(operation.fields, "result");
      CompactResultSettles(BoundMetadata(operation.fields));
      if !Rewritten(key) {
        BoundMetadataFinds(operation.fields, key);
        CompactResultFinds(BoundMetadata(operation.fields), key);
      }
    }
  }

  /** Compaction bounds a text that was too long and says so; a short one stays as it is. */
  lemma TextBounded(fields: seq<Field>, key: string, mark: string, limit: nat)
    requires key != mark && limit >= 5 && AsStr(Find(fields, key)).Some?
    ensures var g, text := BoundText(fields, key, mark, limit), AsStr(Find(fields, key)).value;
            && AsStr(Find(g, key)).Some? && TextSize(AsStr(Find(g, key)).value) <= limit
            && (if TextSize(text) <= limit then g == fields
                else
                  && Find(g, mark) == Some(Bool(true))
                  && exists n :: 0 <= n < |text| && AsStr(Find(g, key)).value == text[..n] + ELLIPSIS)
  {
    hide Insert, Find, BoundedString, TextSize;
    var text := AsStr(Find(fields, key)).value;
    BoundedStringSpec(text, limit);
    var bounded := BoundedString(text, limit).value;
    FindInsert(fields, key, Str(bounded), key);
    FindInsert(Insert(fields, key, Str(bounded)), mark, Bool(true), key);
    FindInsert(Insert(fields, key, Str(bounded)), mark, Bool(true), mark);
  }

  /** After compaction kind and error are within their limits, and marked where they were cut. */
  lemma ReceiptTextsBounded(operation: Json, keep: bool, key: string)
    requires key == "kind" || key == "error"
    requires AsStr(Get(operation, key)).Some?
    ensures var limit, mark := if key == "kind" then MAX_KIND_BYTES else MAX_ERROR_BYTES, key + "_truncated";
            var text, compacted := AsStr(Get(operation, key)).value, CompactReceipt(operation, keep);
            && AsStr(Get(compacted, key)).Some? && TextSize(AsStr(Get(compacted, key)).value) <= limit
            && (TextSize(text) <= limit ==> Get(compacted, key) == Get(operation, key))
            && (TextSize(text) > limit ==> Get(compacted, mark) == Some(Bool(true)))
  {
    hide BoundText, CompactResult, Find, TextSize;
    var f := operation.fields;
    var f1 := BoundText(f, "kind", "kind_truncated", MAX_KIND_BYTES);
    var f2 := BoundMetadata(f);
    assert "kind" + "_truncated" == "kind_truncated" && "error" + "_truncated" == "error_truncated";
    if key == "kind" {
      TextBounded(f, "kind", "kind_truncated", MAX_KIND_BYTES);
      BoundTextFinds(f1, "error", "error_truncated", MAX_ERROR_BYTES, "kind");
      BoundTextFinds(f1, "error", "error_truncated", MAX_ERROR_BYTES, "kind_truncated");
    } else {
      BoundTextFinds(f, "kind", "kind_truncated", MAX_KIND_BYTES, "error");
      TextBounded(f1, "error", "error_truncated", MAX_ERROR_BYTES);
    }
    CompactResultFinds(f2, key);
    CompactResultFinds(f2, key + "_truncated");
  }

  /** A second compaction of the same receipt with the same decision changes nothing. */
  lemma CompactReceiptIdempotent(operation: Json, keep: bool)
    ensures CompactReceipt(CompactReceipt(operation, keep), keep) == CompactReceipt(operation, keep)
  {
    hide BoundText, CompactSummary, Put, Find, Size;
    if operation.Obj? {
      var f := BoundMetadata(operation.fields);
      KindSettles(operation.fields);
      CompactResultSettles(f);
      var g := CompactResult(f);
      CompactResultFinds(f, "kind");
      CompactResultFinds(f, "error");
      MetadataSettled(f, g);
    }
  }

  lemma MetadataSettled(f: seq<Field>, g: seq<Field>)
    requires BoundMetadata(f) == f && Find(g, "kind") == Find(f, "kind") && Find(g, "error") == Find(f, "error")
    ensures BoundMetadata(g) == g
  {
    hide Find, BoundText;
    KindSettled(f);
    SettledText(f, g, "kind", "kind_truncated", MAX_KIND_BYTES);
    SettledText(f, g, "error", "error_truncated", MAX_ERROR_BYTES);
  }

  lemma KindSettled(f: seq<Field>)
    requires BoundMetadata(f) == f
    ensures BoundText(f, "kind", "kind_truncated", MAX_KIND_BYTES) == f
    ensures BoundText(f, "error", "error_truncated", MAX_ERROR_BYTES) == f
  {
    hide Find, BoundText;
    var f1 := BoundText(f, "kind", "kind_truncated", MAX_KIND_BYTES);
    BoundTextSettles(f, "kind", "kind_truncated", MAX_KIND_BYTES);
    BoundTextFinds(f1, "error", "error_truncated", MAX_ERROR_BYTES, "kind");
    SettledText(f1, f, "kind", "kind_truncated", MAX_KIND_BYTES);
  }

  // ---- the kept receipts stay the same ones ----

  lemma KindNames(recovery: bool, s: string)
    ensures var name := if recovery then "metadata_recover" else "legacy_import";
            TextSize(name) <= MAX_KIND_BYTES && (EndsInEllipsis(s) ==> s != name)
  {
    TextSizeBound("metadata_recover");
    TextSizeBound("legacy_import");
  }

  /** Compaction makes no receipt usable, and a kept usable one stays usable. */
  lemma UsableAfter(operation: Json, keep: bool, recovery: bool)
    ensures UsableSnapshot(CompactReceipt(operation, keep), recovery) ==> UsableSnapshot(operation, recovery)
    ensures keep && UsableSnapshot(operation, recovery) ==> UsableSnapshot(CompactReceipt(operation, keep), recovery)
    ensures SeqOf(CompactReceipt(operation, keep)) == SeqOf(operation)
  {
    hide Find, Size, TextSize, BoundMetadata, CompactResult, UsableRecovery, UsableLegacyImport, EndsInEllipsis;
    if operation.Obj? {
      var f := BoundMetadata(operation.fields);
      KindSettles(operation.fields);
      CompactResultSettles(f);
      CompactResultFinds(f, "kind");
      CompactResultFinds(f, "status");
      CompactResultFinds(f, "seq");
      BoundMetadataFinds(operation.fields, "status");
      BoundMetadataFinds(operation.fields, "seq");
      BoundMetadataFinds(operation.fields, "details_incomplete");
      BoundMetadataFinds(operation.fields, "result_truncated");
      BoundMetadataFinds(operation.fields, "result");
      if AsStr(Find(f, "kind")).Some? { KindNames(recovery, AsStr(Find(f, "kind")).value); }
    }
  }

  lemma {:induction false} LatestAfter(operations: seq<Json>, after: seq<Json>, recovery: bool, n: nat)
    requires n <= |operations| == |after|
    requires forall i :: 0 <= i < n ==> SeqOf(after[i]) == SeqOf(operations[i])
    requires forall i :: 0 <= i < n && UsableSnapshot(after[i], recovery) ==> UsableSnapshot(operations[i], recovery)
    requires Latest(operations, recovery, n).Some? ==>
               UsableSnapshot(after[Latest(operations, recovery, n).value], recovery)
    ensures Latest(after, recovery, n) == Latest(operations, recovery, n)
  {
    hide UsableSnapshot, SeqOf;
    LatestSpec(operations, recovery, n);
    LatestSpec(after, recovery, n);
  }

  /** The latest receipt is usable, at least as new as every usable one and newer than later ones. */
  lemma {:induction false} LatestSpec(operations: seq<Json>, recovery: bool, n: nat)
    requires n <= |operations|
    ensures var r := Latest(operations, recovery, n);
            && (r.Some? ==> UsableSnapshot(operations[r.value], recovery))
            && (forall i :: 0 <= i < n && UsableSnapshot(operations[i], recovery) ==>
                  && r.Some? && SeqOf(operations[i]) <= SeqOf(operations[r.value])
                  && (i > r.value ==> SeqOf(operations[i]) < SeqOf(operations[r.value])))
  {
    hide UsableSnapshot, SeqOf;
    if n > 0 { LatestSpec(operations, recovery, n - 1); }
  }

  lemma LatestKept(operations: seq<Json>, recovery: bool)
    ensures Latest(CompactAll(operations), recovery, |operations|) == Latest(operations, recovery, |operations|)
  {
    hide UsableSnapshot, SeqOf, CompactReceipt, Latest;
    var after := CompactAll(operations);
    forall i | 0 <= i < |operations|
      ensures SeqOf(after[i]) == SeqOf(operations[i])
      ensures UsableSnapshot(after[i], recovery) ==> UsableSnapshot(operations[i], recovery)
      ensures Kept(operations, i) && UsableSnapshot(operations[i], recovery) ==> UsableSnapshot(after[i], recovery)
    {
      UsableAfter(operations[i], Kept(operations, i), recovery);
    }
    LatestSpec(operations, recovery, |operations|);
    LatestAfter(operations, after, recovery, |operations|);
  }

  /** A second compaction of the whole array changes nothing, so it reports no change. */
  lemma CompactionIsIdempotent(operations: seq<Json>)
    ensures CompactAll(CompactAll(operations)) == CompactAll(operations)
  {
    hide CompactReceipt, Latest;
    var after := CompactAll(operations);
    LatestKept(operations, false);
    LatestKept(operations, true);
    forall i | 0 <= i < |operations|
      ensures CompactAll(after)[i] == after[i]
    {
      CompactReceiptIdempotent(operations[i], Kept(operations, i));
    }
  }
}
