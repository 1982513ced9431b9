/**
 Publishing active previews under a byte budget. Every preview first gets a bounded fallback, a
 summary for a complete migration plan and a placeholder otherwise; then full previews replace
 their fallbacks, newest first, while they fit.
 */
module PreviewBudget {
  import opened Bytes
  import opened Json
  import opened SnapshotRecords
  import opened OperationBudget
  import CompactResults

  const MAX_PREVIEW_RECORDS: nat := 100
  const MAX_PREVIEW_BYTES: nat := 3 * 1024 * 1024
  const MAX_SUMMARY_BYTES: nat := 12 * 1024
  const MAX_SAMPLE_ITEMS: nat := 4
  const MAX_SAMPLE_ID_BYTES: nat := 128
  const MAX_SAMPLE_PATH_BYTES: nat := 384

  const FILE_PREVIEW: string := "file_preview"
  const MIGRATION_PREVIEW: string := "library_migration_preview"
  const AWAITING: string := "awaiting_confirmation"

  const DETAILS_OMITTED_REASON: string :=
    "Preview details exceeded the cloud snapshot budget. Reload the preview before confirming."
  const DETAILS_UNAVAILABLE_REASON: string :=
    "Preview details are unavailable in this cloud snapshot. Reload the preview before confirming."
  const SUMMARY_REASON: string :=
    "A bounded summary is shown. Start confirms the complete saved migration plan; item and file details are omitted."
  const PREVIEWS_OMITTED_REASON: string :=
    "Some pending previews were omitted from this snapshot. Refresh pending previews before confirming."

  // ---- which previews ----

  predicate IsMigration(r: InboxRecord) { r.kind == MIGRATION_PREVIEW }

  predicate Awaiting(r: InboxRecord) {
    (r.kind == FILE_PREVIEW || IsMigration(r)) && r.status.AwaitingConfirmation?
  }

  predicate ResultBound(r: InboxRecord) {
    r.result.Some? && LibraryIdAt(r.result.value) && RootBindingAt(r.result.value)
  }

  /** A file preview is only published with its library and root identity. */
  predicate Publishable(r: InboxRecord) { r.kind != FILE_PREVIEW || ResultBound(r) }

  function AwaitingOf(records: seq<InboxRecord>): seq<InboxRecord> {
    if records == [] then []
    else if Awaiting(records[0]) then [records[0]] + AwaitingOf(records[1..])
    else AwaitingOf(records[1..])
  }

  function PublishableOf(records: seq<InboxRecord>): seq<InboxRecord> {
    if records == [] then []
    else if Publishable(records[0]) then [records[0]] + PublishableOf(records[1..])
    else PublishableOf(records[1..])
  }

  function CountInvalid(records: seq<InboxRecord>): nat {
    if records == [] then 0 else (if Publishable(records[0]) then 0 else 1) + CountInvalid(records[1..])
  }

  function Active(records: seq<InboxRecord>): (r: seq<InboxRecord>)
    ensures |r| <= MAX_PREVIEW_RECORDS
  {
    Newest(PublishableOf(SortBySeq(AwaitingOf(records))), MAX_PREVIEW_RECORDS)
  }

  /** Leaving out the previews without an identity keeps the order of the others. */
  lemma {:induction false} PublishableSorted(records: seq<InboxRecord>)
    requires SortedBySeq(records)
    ensures SortedBySeq(PublishableOf(records))
    ensures forall r :: r in PublishableOf(records) <==> r in records && Publishable(r)
  {
    hide Publishable;
    if records != [] {
      var rest := PublishableOf(records[1..]);
      PublishableSorted(records[1..]);
      assert records == [records[0]] + records[1..];
      assert forall j :: 0 <= j < |rest| ==> rest[j] in rest && records[0].seq_ <= rest[j].seq_;
    }
  }

  /** The active previews are the newest publishable ones, in sequence order. */
  lemma ActiveSpec(records: seq<InboxRecord>)
    ensures SortedBySeq(Active(records))
    ensures forall r :: r in Active(records) ==> r in AwaitingOf(records) && Publishable(r)
    ensures forall r, a :: r in AwaitingOf(records) && Publishable(r) && r !in Active(records) && a in Active(records)
              ==> r.seq_ <= a.seq_
  {
    hide SortedBySeq, SortBySeq, AwaitingOf, Publishable, PublishableOf, Newest;
    var sorted := SortBySeq(AwaitingOf(records));
    SortBySeqSorts(AwaitingOf(records));
    SameMembers(sorted, AwaitingOf(records));
    PublishableSorted(sorted);
    NewestSplit(PublishableOf(sorted), MAX_PREVIEW_RECORDS);
  }

  lemma SameMembers<T>(a: seq<T>, b: seq<T>)
    requires multiset(a) == multiset(b)
    ensures forall x :: x in a <==> x in b
  {
    forall x
      ensures x in a <==> x in b
    {
      assert x in a <==> x in multiset(a);
    }
  }

  function OmittedCount(records: seq<InboxRecord>, callerOmitted: nat): (r: nat)
    ensures r <= Max(callerOmitted, USIZE_MAX)
  {
    var sorted := SortBySeq(AwaitingOf(records));
    SaturatingAdd(SaturatingAdd(callerOmitted, CountInvalid(sorted)),
                  Max(0, |PublishableOf(sorted)| - MAX_PREVIEW_RECORDS))
  }

  // ---- migration summaries ----

  /** A scalar field that needs no shortening. */
  function Exact(result: Json, field: string, limit: nat): Option<Json> {
    match Get(result, field)
    case None => None
    case Some(candidate) => if CompactScalar(candidate, limit) == Some(candidate) then Some(candidate) else None
  }

  predicate HasString(ids: seq<Json>, text: string) { exists i :: 0 <= i < |ids| && ids[i] == Str(text) }

  /** Give up on the whole summary, skip this item, or show it; `exact` when its id is not shortened. */
  datatype Sample = Reject | Skip | Show(item: Json, exact: bool)

  function SampleItem(item: Json, ids: seq<Json>): Sample {
    var id, source, target :=
      AsStr(Get(item, "item_id")), AsStr(Get(item, "source_path")), AsStr(Get(item, "target_path"));
    if id.None? || source.None? || target.None? then Skip
    else
      var boundId := BoundedString(id.value, MAX_SAMPLE_ID_BYTES);
      var boundSource := BoundedString(source.value, MAX_SAMPLE_PATH_BYTES);
      var boundTarget := BoundedString(target.value, MAX_SAMPLE_PATH_BYTES);
      if boundId.None? || boundSource.None? || boundTarget.None? then Skip
      else
        var bytes, conflict, status := AsNat(Get(item, "bytes")), Get(item, "conflict"), AsStr(Get(item, "status"));
        if !HasString(ids, id.value) || bytes.None? || conflict.None? || !conflict.value.Bool?
           || (status != Some("skipped") && status != Some("copying")) then Reject
        else
          Show(Obj(Object([
                 Field("item_id", Str(boundId.value)), Field("source_path", Str(boundSource.value)),
                 Field("target_path", Str(boundTarget.value)), Field("bytes", Unsigned64(bytes.value)),
                 Field("conflict", conflict.value), Field("status", Str(status.value)),
                 Field("outcome", Str(if status == Some("skipped") then "skip" else "move"))])),
               boundId == id)
  }

  /** The shown samples and how many of them carry an unshortened id. */
  function Samples(items: seq<Json>, ids: seq<Json>): Option<(seq<Json>, nat)> {
    if items == [] then Some(([], 0))
    else
      match SampleItem(items[0], ids)
      case Reject => None
      case Skip => Samples(items[1..], ids)
      case Show(item, exact) =>
        var rest := Samples(items[1..], ids);
        if rest.None? then None
        else Some(([item] + rest.value.0, rest.value.1 + (if exact then 1 else 0)))
  }

  const AGGREGATES: seq<string> :=
    ["item_count", "file_count", "total_bytes", "required_space_bytes", "available_space_bytes",
     "conflict_count", "incomplete_task_count", "staging_bytes"]

  /** All aggregate counters of the result, or nothing when one is missing or not unsigned. */
  function Aggregates(result: Json, names: seq<string>): Option<seq<Field>> {
    if names == [] then Some([])
    else
      var value, rest := Exact(result, names[0], 32), Aggregates(result, names[1..]);
      if AsNat(value).None? || rest.None? then None else Some([Field(names[0], value.value)] + rest.value)
  }

  predicate IsStr(j: Option<Json>) { AsStr(j).Some? }

  predicate IsBool(j: Option<Json>) { j.Some? && j.value.Bool? }

  predicate IsRootBinding(j: Option<Json>) { IsStr(j) && ValidRootBinding(AsStr(j).value) }

  /** The ten identity and option fields, when every one of them is present and exact. */
  function MigrationScalars(result: Json): Option<seq<Field>> {
    var id, revision := Exact(result, "id", MAX_IDENTITY_BYTES), Exact(result, "revision", MAX_IDENTITY_BYTES);
    var sourceId, targetId := Exact(result, "source_library_id", 256), Exact(result, "target_library_id", 256);
    var sourceRoot, targetRoot := Exact(result, "source_root_binding", 80), Exact(result, "target_root_binding", 80);
    var scope, conflict := Exact(result, "scope", 64), Exact(result, "conflict", 64);
    var incompleteTasks := Exact(result, "include_incomplete_tasks", 8);
    var setDefault := Exact(result, "set_target_default_on_success", 8);
    if && IsStr(id) && CompactIdentity(result, "preview_id") == id
       && IsStr(revision) && CompactIdentity(result, "revision") == revision
       && IsStr(sourceId) && IsStr(targetId) && IsRootBinding(sourceRoot) && IsRootBinding(targetRoot)
       && IsStr(scope) && IsStr(conflict) && IsBool(incompleteTasks) && IsBool(setDefault)
    then
      Some([Field("id", id.value), Field("revision", revision.value),
            Field("source_library_id", sourceId.value), Field("source_root_binding", sourceRoot.value),
            Field("target_library_id", targetId.value), Field("target_root_binding", targetRoot.value),
            Field("scope", scope.value), Field("conflict", conflict.value),
            Field("include_incomplete_tasks", incompleteTasks.value),
            Field("set_target_default_on_success", setDefault.value)])
    else None
  }

  /** What is shown of the items, and what is left out of them and of the choices and warnings. */
  function SummaryCounts(ids: nat, conflicts: nat, warnings: nat, items: nat, files: nat,
                         samples: (seq<Json>, nat)): (r: seq<Field>)
    ensures |r| == 6
  {
    [Field("omitted_item_id_count", Unsigned64(Max(0, ids - samples.1))),
     Field("omitted_conflict_choice_count", Unsigned64(conflicts)),
     Field("omitted_warning_count", Unsigned64(warnings)),
     Field("omitted_item_count", Unsigned64(Max(0, items - |samples.0|))),
     Field("omitted_file_count", Unsigned64(files)),
     Field("sample_items", Arr(samples.0))]
  }

  function SummaryEnvelope(r: InboxRecord, result: Json, summary: Json): (fields: seq<Field>)
    requires CompactIdentity(result, "preview_id").Some? && CompactIdentity(result, "revision").Some?
    ensures |fields| == 8
  {
    [Field("seq", Unsigned64(r.seq_)), Field("kind", Str(r.kind)),
     Field("preview_id", CompactIdentity(result, "preview_id").value),
     Field("revision", CompactIdentity(result, "revision").value),
     Field("status", Str(AWAITING)), Field("migration_summary", Bool(true)),
     Field("reason", Str(SUMMARY_REASON)), Field("result", summary)]
  }

  function MigrationSummary(r: InboxRecord, result: Json): Option<Json> {
    var scalars, aggregates := MigrationScalars(result), Aggregates(result, AGGREGATES);
    var items, ids := AsItems(Get(result, "items")), AsItems(Get(result, "item_ids"));
    var warnings := AsItems(Get(result, "warnings"));
    var conflicts := Get(result, "item_conflicts");
    if scalars.None? || aggregates.None? || items.None? || ids.None? || warnings.None?
       || conflicts.None? || !conflicts.value.Obj? then None
    else
      var itemCount, fileCount := AsNat(Get(result, "item_count")), AsNat(Get(result, "file_count"));
      if itemCount != Some(|items.value|) || fileCount.None? || |ids.value| != |items.value|
         || (exists i :: 0 <= i < |ids.value| && !ids.value[i].Str?) then None
      else
        var samples := Samples(items.value[..Min(|items.value|, MAX_SAMPLE_ITEMS)], ids.value);
        if samples.None? then None
        else
          var counts := SummaryCounts(|ids.value|, |conflicts.value.fields|, |warnings.value|, itemCount.value,
                                      fileCount.value, samples.value);
          var summary := Obj(Object(scalars.value + counts + aggregates.value));
          var envelope := Obj(Object(SummaryEnvelope(r, result, summary)));
          if Size(envelope) <= MAX_SUMMARY_BYTES then Some(envelope) else None
  }

  // ---- placeholders ----

  function IdentityValue(result: Option<Json>, field: string): Json {
    var candidate := if result.Some? then IdentityCandidate(result.value, field) else None;
    if candidate.Some? && !candidate.value.Arr? && !candidate.value.Obj?
       && Size(candidate.value) <= MAX_IDENTITY_BYTES then candidate.value else Null
  }

  predicate DetailsPresent(r: InboxRecord) {
    r.result.Some? &&
    if IsMigration(r) then Get(r.result.value, "id").Some? && Get(r.result.value, "items").Some?
    else Get(r.result.value, "preview").Some?
  }

  /** The identity of a file preview: request id, and library and root as far as they are valid. */
  function FileIdentity(r: InboxRecord, fields: seq<Field>): seq<Field> {
    if r.kind != FILE_PREVIEW then fields
    else
      var f0 := InsertText(fields, "request_id", FilePreviewRequestId(r));
      var library :=
        if r.result.Some? && LibraryIdAt(r.result.value) then AsStr(Get(r.result.value, "library_id")) else None;
      var root :=
        if library.Some? && RootBindingAt(r.result.value) then AsStr(Get(r.result.value, "root_binding")) else None;
      InsertText(InsertText(f0, "library_id", library), "root_binding", root)
  }

  function InsertExact(fields: seq<Field>, r: InboxRecord, key: string, limit: nat, root: bool): seq<Field> {
    var value := if IsMigration(r) && r.result.Some? then Exact(r.result.value, key, limit) else None;
    if value.None? || (root && !IsRootBinding(value)) then fields else Insert(fields, key, value.value)
  }

  function MigrationOptions(r: InboxRecord, fields: seq<Field>): seq<Field> {
    var f0 := InsertExact(fields, r, "source_library_id", 256, false);
    var f1 := InsertExact(f0, r, "source_root_binding", 80, true);
    var f2 := InsertExact(f1, r, "target_library_id", 256, false);
    var f3 := InsertExact(f2, r, "target_root_binding", 80, true);
    var f4 := InsertExact(f3, r, "scope", 64, false);
    var f5 := InsertExact(f4, r, "conflict", 64, false);
    var f6 := InsertExact(f5, r, "include_incomplete_tasks", 8, false);
    InsertExact(f6, r, "set_target_default_on_success", 8, false)
  }

  function PlaceholderCore(r: InboxRecord): seq<Field> {
    var reason := if DetailsPresent(r) then DETAILS_OMITTED_REASON else DETAILS_UNAVAILABLE_REASON;
    var f0 := Insert([], "seq", Unsigned64(r.seq_));
    var f1 := Insert(f0, "preview_id", IdentityValue(r.result, "preview_id"));
    var f2 := Insert(f1, "revision", IdentityValue(r.result, "revision"));
    var f3 := Insert(f2, "status", Str(AWAITING));
    var f4 := Insert(f3, "preview_incomplete", Bool(true));
    var f5 := Insert(f4, "incomplete", Bool(true));
    var f6 := Insert(f5, "reload_required", Bool(true));
    var f7 := Insert(f6, "reason", Str(reason));
    Insert(f7, "kind", Str(r.kind))
  }

  function Placeholder(r: InboxRecord): Json {
    Obj(MigrationOptions(r, FileIdentity(r, PlaceholderCore(r))))
  }

  function Fallback(r: InboxRecord): Json {
    var summary := if IsMigration(r) && r.result.Some? then MigrationSummary(r, r.result.value) else None;
    if summary.Some? then summary.value else Placeholder(r)
  }

  function Marker(omitted: nat): Json {
    var f0 := Insert([], "preview_incomplete", Bool(true));
    var f1 := Insert(f0, "incomplete", Bool(true));
    var f2 := Insert(f1, "reload_required", Bool(true));
    var f3 := Insert(f2, "omitted_count", Unsigned64(omitted));
    Obj(Insert(f3, "reason", Str(PREVIEWS_OMITTED_REASON)))
  }

  // ---- full previews ----

  function Details(r: InboxRecord): Option<Json> {
    if IsMigration(r) then r.result else GetIn(r.result, "preview")
  }

  function CandidateCore(r: InboxRecord): seq<Field> {
    var f0 := Insert([], "seq", Unsigned64(r.seq_));
    var f1 := Insert(f0, "kind", Str(r.kind));
    var f2 := Insert(f1, "preview_id", IdentityValue(r.result, "preview_id"));
    var f3 := Insert(f2, "revision", IdentityValue(r.result, "revision"));
    Insert(f3, "status", Str(AWAITING))
  }

  function DetailsKey(r: InboxRecord): string { if IsMigration(r) then "result" else "preview" }

  function Candidate(r: InboxRecord): Option<Json> {
    match Details(r)
    case None => None
    case Some(details) => Some(Obj(FileIdentity(r, Insert(CandidateCore(r), DetailsKey(r), details))))
  }

  // ---- the specification ----

  function Fallbacks(active: seq<InboxRecord>): (r: seq<Json>)
    ensures |r| == |active|
  {
    seq(|active|, i requires 0 <= i < |active| => Fallback(active[i]))
  }

  function WithMarker(forms: seq<Json>, omitted: nat): seq<Json> {
    if omitted > 0 then forms + [Marker(omitted)] else forms
  }

  function Upgrade(snapshots: seq<Json>, i: nat, candidate: Option<Json>): (r: seq<Json>)
    requires i < |snapshots|
    ensures |r| == |snapshots|
  {
    if candidate.Some? && ArraySize(snapshots[i := candidate.value]) <= MAX_PREVIEW_BYTES
    then snapshots[i := candidate.value] else snapshots
  }

  function UpgradeAll(snapshots: seq<Json>, active: seq<InboxRecord>, n: nat): (r: seq<Json>)
    requires n <= |active| <= |snapshots|
    ensures |r| == |snapshots|
    decreases n
  {
    if n == 0 then snapshots
    else UpgradeAll(Upgrade(snapshots, n - 1, Candidate(active[n - 1])), active, n - 1)
  }

  function Publish(active: seq<InboxRecord>, omitted: nat): (r: seq<Json>)
    ensures |r| == |active| + (if omitted > 0 then 1 else 0)
  {
    UpgradeAll(WithMarker(Fallbacks(active), omitted), active, |active|)
  }

  // ---- bounds ----

  lemma IdentityValueSize(result: Option<Json>, field: string)
    ensures Size(IdentityValue(result, field)) <= MAX_IDENTITY_BYTES
  {
    hide IdentityCandidate;
  }

  lemma ReasonSize()
    ensures Size(Str(DETAILS_OMITTED_REASON)) <= 700 && Size(Str(DETAILS_UNAVAILABLE_REASON)) <= 700
    ensures Size(Str(PREVIEWS_OMITTED_REASON)) <= 700 && Size(Str(AWAITING)) <= 128
  {
    hide Size, TextSize;
    TextWithin(DETAILS_OMITTED_REASON, 110);
    TextWithin(DETAILS_UNAVAILABLE_REASON, 110);
    TextWithin(PREVIEWS_OMITTED_REASON, 110);
    TextWithin(AWAITING, 21);
  }

  lemma KindSize(r: InboxRecord)
    requires r.kind == FILE_PREVIEW || IsMigration(r)
    ensures Size(Str(r.kind)) <= 152
  {
    hide EscapedText;
    TextSizeBound(r.kind);
  }

  lemma PlaceholderCoreWithin(r: InboxRecord)
    requires r.kind == FILE_PREVIEW || IsMigration(r)
    ensures Within(PlaceholderCore(r), 9, 1800)
  {
    hide Insert, Size, FieldsSize, Within, IdentityValue, DetailsPresent, IsMigration;
    NothingWithin();
    ReasonSize();
    KindSize(r);
    TrueSize();
    Unsigned64Size(r.seq_);
    IdentityValueSize(r.result, "preview_id");
    IdentityValueSize(r.result, "revision");
    var reason := if DetailsPresent(r) then DETAILS_OMITTED_REASON else DETAILS_UNAVAILABLE_REASON;
    var f0 := Insert([], "seq", Unsigned64(r.seq_));
    InsertWithin([], 0, 0, "seq", Unsigned64(r.seq_), 20);
    var f1 := Insert(f0, "preview_id", IdentityValue(r.result, "preview_id"));
    InsertWithin(f0, 1, 41, "preview_id", IdentityValue(r.result, "preview_id"), 128);
    var f2 := Insert(f1, "revision", IdentityValue(r.result, "revision"));
    InsertWithin(f1, 2, 232, "revision", IdentityValue(r.result, "revision"), 128);
    var f3 := Insert(f2, "status", Str(AWAITING));
    InsertWithin(f2, 3, 411, "status", Str(AWAITING), 128);
    var f4 := Insert(f3, "preview_incomplete", Bool(true));
    InsertWithin(f3, 4, 578, "preview_incomplete", Bool(true), 4);
    var f5 := Insert(f4, "incomplete", Bool(true));
    InsertWithin(f4, 5, 693, "incomplete", Bool(true), 4);
    var f6 := Insert(f5, "reload_required", Bool(true));
    InsertWithin(f5, 6, 760, "reload_required", Bool(true), 4);
    var f7 := Insert(f6, "reason", Str(reason));
    InsertWithin(f6, 7, 857, "reason", Str(reason), 700);
    InsertWithin(f7, 8, 1596, "kind", Str(r.kind), 152);
    WithinWeaken(PlaceholderCore(r), 9, 9, 1775, 1800);
  }

  lemma FileIdentityWithin(r: InboxRecord, fields: seq<Field>, n: nat, bytes: nat)
    requires Within(fields, n, bytes)
    ensures Within(FileIdentity(r, fields), n + 3, bytes + 3000)
  {
    hide InsertText, Size, FieldsSize, TextSize, Within, FilePreviewRequestId, ValidRootBinding;
    if r.kind != FILE_PREVIEW {
      WithinWeaken(fields, n, n + 3, bytes, bytes + 3000);
    } else {
      RequestIdSize(r);
      var f0 := InsertText(fields, "request_id", FilePreviewRequestId(r));
      InsertTextWithin(fields, n, bytes, "request_id", FilePreviewRequestId(r), 1538);
      var library :=
        if r.result.Some? && LibraryIdAt(r.result.value) then AsStr(Get(r.result.value, "library_id")) else None;
      InsertTextWithin(f0, n + 1, bytes + 1601, "library_id", library, MAX_LIBRARY_ID_JSON_BYTES);
      var root :=
        if library.Some? && RootBindingAt(r.result.value) then AsStr(Get(r.result.value, "root_binding")) else None;
      if root.Some? { RootBindingSize(root.value); }
      InsertTextWithin(InsertText(f0, "library_id", library), n + 2, bytes + 2434, "root_binding", root, 404);
      WithinWeaken(FileIdentity(r, fields), n + 3, n + 3, bytes + 2913, bytes + 3000);
    }
  }

  lemma ExactSize(result: Json, field: string, limit: nat)
    ensures Exact(result, field, limit).Some? ==> Size(Exact(result, field, limit).value) <= limit
  {
    hide BoundedString, TextSize;
    var candidate := Get(result, field);
    if candidate.Some? && candidate.value.Str? { BoundedStringSpec(candidate.value.text, limit); }
  }

  lemma InsertExactWithin(fields: seq<Field>, n: nat, bytes: nat, r: InboxRecord, key: string, limit: nat, root: bool)
    requires Within(fields, n, bytes)
    ensures Within(InsertExact(fields, r, key, limit, root), n + 1, bytes + 6 * |key| + 3 + limit)
  {
    hide Insert, Exact, Size, FieldsSize, IsRootBinding, IsMigration;
    if r.result.Some? {
      ExactSize(r.result.value, key, limit);
      var value := Exact(r.result.value, key, limit);
      if value.Some? { InsertWithin(fields, n, bytes, key, value.value, limit); }
    }
  }

  lemma MigrationOptionsWithin(r: InboxRecord, fields: seq<Field>, n: nat, bytes: nat)
    requires Within(fields, n, bytes)
    ensures Within(MigrationOptions(r, fields), n + 8, bytes + 1800)
  {
    hide InsertExact, Within;
    var f0 := InsertExact(fields, r, "source_library_id", 256, false);
    InsertExactWithin(fields, n, bytes, r, "source_library_id", 256, false);
    var f1 := InsertExact(f0, r, "source_root_binding", 80, true);
    InsertExactWithin(f0, n + 1, bytes + 361, r, "source_root_binding", 80, true);
    var f2 := InsertExact(f1, r, "target_library_id", 256, false);
    InsertExactWithin(f1, n + 2, bytes + 558, r, "target_library_id", 256, false);
    var f3 := InsertExact(f2, r, "target_root_binding", 80, true);
    InsertExactWithin(f2, n + 3, bytes + 919, r, "target_root_binding", 80, true);
    var f4 := InsertExact(f3, r, "scope", 64, false);
    InsertExactWithin(f3, n + 4, bytes + 1116, r, "scope", 64, false);
    var f5 := InsertExact(f4, r, "conflict", 64, false);
    InsertExactWithin(f4, n + 5, bytes + 1213, r, "conflict", 64, false);
    var f6 := InsertExact(f5, r, "include_incomplete_tasks", 8, false);
    InsertExactWithin(f5, n + 6, bytes + 1328, r, "include_incomplete_tasks", 8, false);
    InsertExactWithin(f6, n + 7, bytes + 1483, r, "set_target_default_on_success", 8, false);
    WithinWeaken(MigrationOptions(r, fields), n + 8, n + 8, bytes + 1668, bytes + 1800);
  }

  lemma PlaceholderSize(r: InboxRecord)
    requires r.kind == FILE_PREVIEW || IsMigration(r)
    ensures Size(Placeholder(r)) <= MAX_SUMMARY_BYTES
  {
    hide PlaceholderCore, FileIdentity, MigrationOptions, Size, Within, IsMigration;
    PlaceholderCoreWithin(r);
    FileIdentityWithin(r, PlaceholderCore(r), 9, 1800);
    var f := FileIdentity(r, PlaceholderCore(r));
    MigrationOptionsWithin(r, f, 12, 4800);
    ObjectWithin(MigrationOptions(r, f), 20, 6600);
  }

  lemma SummarySize(r: InboxRecord, result: Json)
    ensures MigrationSummary(r, result).Some? ==> Size(MigrationSummary(r, result).value) <= MAX_SUMMARY_BYTES
  {
    hide MigrationScalars, Aggregates, Samples, Object, Size, CompactIdentity, Get, AsItems, AsNat;
  }

  /** Every fallback is at most 12 KiB. */
  lemma FallbackSize(r: InboxRecord)
    requires r.kind == FILE_PREVIEW || IsMigration(r)
    ensures Size(Fallback(r)) <= MAX_SUMMARY_BYTES
  {
    hide MigrationSummary, Placeholder, Size, IsMigration;
    PlaceholderSize(r);
    if r.result.Some? { SummarySize(r, r.result.value); }
  }

  lemma MarkerSize(omitted: nat)
    requires omitted <= USIZE_MAX
    ensures Size(Marker(omitted)) <= MAX_SUMMARY_BYTES
  {
    hide Insert, Size, FieldsSize, Within;
    NothingWithin();
    ReasonSize();
    TrueSize();
    Unsigned64Size(omitted);
    var f0 := Insert([], "preview_incomplete", Bool(true));
    InsertWithin([], 0, 0, "preview_incomplete", Bool(true), 4);
    var f1 := Insert(f0, "incomplete", Bool(true));
    InsertWithin(f0, 1, 115, "incomplete", Bool(true), 4);
    var f2 := Insert(f1, "reload_required", Bool(true));
    InsertWithin(f1, 2, 182, "reload_required", Bool(true), 4);
    var f3 := Insert(f2, "omitted_count", Unsigned64(omitted));
    InsertWithin(f2, 3, 279, "omitted_count", Unsigned64(omitted), 20);
    var f4 := Insert(f3, "reason", Str(PREVIEWS_OMITTED_REASON));
    InsertWithin(f3, 4, 380, "reason", Str(PREVIEWS_OMITTED_REASON), 700);
    ObjectWithin(f4, 5, 1119);
  }

  predicate PreviewKinds(active: seq<InboxRecord>) {
    forall i :: 0 <= i < |active| ==> active[i].kind == FILE_PREVIEW || IsMigration(active[i])
  }

  lemma {:induction false} AwaitingKinds(records: seq<InboxRecord>)
    ensures PreviewKinds(AwaitingOf(records))
  {
    hide IsMigration;
    if records != [] { AwaitingKinds(records[1..]); }
  }

  lemma {:induction false} PublishableKinds(records: seq<InboxRecord>)
    requires PreviewKinds(records)
    ensures PreviewKinds(PublishableOf(records))
    ensures |PublishableOf(records)| + CountInvalid(records) == |records|
  {
    hide IsMigration, Publishable;
    if records != [] { PublishableKinds(records[1..]); }
  }

  lemma SortedKinds(records: seq<InboxRecord>)
    requires PreviewKinds(records)
    ensures PreviewKinds(SortBySeq(records)) && |SortBySeq(records)| == |records|
  {
    hide IsMigration;
    SortBySeqSorts(records);
    var sorted := SortBySeq(records);
    assert |multiset(sorted)| == |multiset(records)|;
    forall i | 0 <= i < |sorted|
      ensures sorted[i].kind == FILE_PREVIEW || IsMigration(sorted[i])
    {
      assert sorted[i] in multiset(records);
      assert sorted[i] in records;
    }
  }

  lemma ActiveKinds(records: seq<InboxRecord>)
    ensures PreviewKinds(Active(records))
  {
    hide IsMigration, Publishable;
    AwaitingKinds(records);
    SortedKinds(AwaitingOf(records));
    PublishableKinds(SortBySeq(AwaitingOf(records)));
  }

  const FALLBACK_TOTAL: nat := 2 + 101 * MAX_SUMMARY_BYTES + 100

  /** The fallbacks and the marker always fit, so measuring them never fails. */
  lemma FallbacksFit(active: seq<InboxRecord>, omitted: nat)
    requires |active| <= MAX_PREVIEW_RECORDS && PreviewKinds(active) && omitted <= USIZE_MAX
    ensures ArraySize(WithMarker(Fallbacks(active), omitted)) <= FALLBACK_TOTAL < MAX_PREVIEW_BYTES
  {
    hide Size, Fallback, Marker;
    var forms := WithMarker(Fallbacks(active), omitted);
    forall i | 0 <= i < |forms|
      ensures Size(forms[i]) <= MAX_SUMMARY_BYTES
    {
      if i < |active| { FallbackSize(active[i]); } else { MarkerSize(omitted); }
    }
    ItemsBound(forms, MAX_SUMMARY_BYTES);
  }

  // ---- the code ----

  /** Details that do not fit the remaining budget mean that their preview does not fit either. */
  lemma DetailsInsideCandidate(r: InboxRecord)
    requires Details(r).Some?
    ensures Size(Details(r).value) < Size(Candidate(r).value)
  {
    hide CandidateCore, Size, Find, Insert, InsertText, IsMigration;
    var fields := Insert(CandidateCore(r), DetailsKey(r), Details(r).value);
    FindInsert(CandidateCore(r), DetailsKey(r), Details(r).value, DetailsKey(r));
    FileIdentityTouches(r, fields, DetailsKey(r));
    FindSize(FileIdentity(r, fields), DetailsKey(r));
  }

  /** One step of the upgrade loop with its running total. */
  method UpgradeIfFits(index: nat, record: InboxRecord, snapshots: array<Json>, totalBytes: nat) returns (newTotal: nat)
    requires index < snapshots.Length
    requires totalBytes == ArraySize(snapshots[..]) <= MAX_PREVIEW_BYTES
    modifies snapshots
    ensures snapshots[..] == Upgrade(old(snapshots[..]), index, Candidate(record))
    ensures newTotal == ArraySize(snapshots[..]) <= MAX_PREVIEW_BYTES
  {
    hide Size, Candidate, Details;
    newTotal := totalBytes;
    var details, candidate := Details(record), Candidate(record);
    CandidateWhenDetails(record);
    if details.None? { return; }
    DetailsInsideCandidate(record);
    ArrayUpdate(snapshots[..], index, candidate.value);
    var fallback := SizeWithin(snapshots[index], MAX_PREVIEW_BYTES);
    var remaining := Max(0, MAX_PREVIEW_BYTES - Max(0, totalBytes - fallback.value));
    if SizeWithin(details.value, remaining).None? { return; }
    var bytes := SizeWithin(candidate.value, remaining);
    if bytes.None? { return; }
    var nextTotal := SaturatingAdd(Max(0, totalBytes - fallback.value), bytes.value);
    if nextTotal <= MAX_PREVIEW_BYTES {
      snapshots[index] := candidate.value;
      newTotal := nextTotal;
    }
  }

  lemma CandidateWhenDetails(r: InboxRecord)
    ensures Candidate(r).Some? <==> Details(r).Some?
  {
    hide CandidateCore, FileIdentity;
  }

  method PreviewSnapshots(records: seq<InboxRecord>, callerOmitted: nat) returns (published: seq<Json>)
    requires callerOmitted <= USIZE_MAX
    ensures published == Publish(Active(records), OmittedCount(records, callerOmitted))
    ensures ArraySize(published) <= MAX_PREVIEW_BYTES
  {
    hide Size, ArraySize, Fallback, Candidate, Active, OmittedCount, Upgrade, Marker;
    var active, omitted := Active(records), OmittedCount(records, callerOmitted);
    var forms := WithMarker(Fallbacks(active), omitted);
    ActiveKinds(records);
    FallbacksFit(active, omitted);
    var size := ArraySizeWithin(forms, MAX_PREVIEW_BYTES);
    var total := size.value;
    var snapshots := new Json[|forms|](i requires 0 <= i < |forms| => forms[i]);
    assert snapshots[..] == forms;
    var index := |active|;
    while index > 0
      invariant 0 <= index <= |active|
      invariant total == ArraySize(snapshots[..]) <= MAX_PREVIEW_BYTES
      invariant UpgradeAll(forms, active, |active|) == UpgradeAll(snapshots[..], active, index)
    {
      index := index - 1;
      total := UpgradeIfFits(index, active[index], snapshots, total);
    }
    published := snapshots[..];
  }

  // ---- what is published ----

  lemma {:induction false} UpgradeAllKeeps(snapshots: seq<Json>, active: seq<InboxRecord>, n: nat)
    requires n <= |active| <= |snapshots|
    ensures var r := UpgradeAll(snapshots, active, n);
            && (forall i :: n <= i < |snapshots| ==> r[i] == snapshots[i])
            && (forall i :: 0 <= i < n ==> r[i] == snapshots[i] || Candidate(active[i]) == Some(r[i]))
    decreases n
  {
    hide Candidate, ArraySize;
    if n > 0 {
      UpgradeAllKeeps(Upgrade(snapshots, n - 1, Candidate(active[n - 1])), active, n - 1);
    }
  }

  lemma MarkerCount(omitted: nat)
    ensures AsNat(Get(Marker(omitted), "omitted_count")) == Some(omitted)
  {
    hide Insert, Find;
    var f1 := Insert(Insert([], "preview_incomplete", Bool(true)), "incomplete", Bool(true));
    var f2 := Insert(f1, "reload_required", Bool(true));
    FindInsert(f2, "omitted_count", Unsigned64(omitted), "omitted_count");
    FindInsert(Insert(f2, "omitted_count", Unsigned64(omitted)), "reason", Str(PREVIEWS_OMITTED_REASON),
               "omitted_count");
  }

  /**
   Entry i is the fallback or the full form of the i-th active preview, in sequence order; a marker
   follows exactly when something was left out, and nothing is lost: the published previews and
   the marker's count add up to all awaiting previews and the caller's own count.
   */
  lemma PublishedPreviews(records: seq<InboxRecord>, callerOmitted: nat)
    requires callerOmitted + |AwaitingOf(records)| <= USIZE_MAX
    ensures var active, omitted := Active(records), OmittedCount(records, callerOmitted);
            var published := Publish(active, omitted);
            && |active| + omitted == |AwaitingOf(records)| + callerOmitted
            && |published| == |active| + (if omitted > 0 then 1 else 0)
            && (forall i :: 0 <= i < |active| ==>
                  published[i] == Fallback(active[i]) || Candidate(active[i]) == Some(published[i]))
            && (omitted > 0 ==> AsNat(Get(published[|active|], "omitted_count")) == Some(omitted))
  {
    hide Fallback, Candidate, Marker, Get, AsNat, Upgrade, Publishable, PreviewKinds, AwaitingOf, UpgradeAll, SortBySeq;
    var active, omitted := Active(records), OmittedCount(records, callerOmitted);
    AwaitingKinds(records);
    SortedKinds(AwaitingOf(records));
    PublishableKinds(SortBySeq(AwaitingOf(records)));
    MarkerCount(omitted);
    UpgradeAllKeeps(WithMarker(Fallbacks(active), omitted), active, |active|);
  }

  /** What an upgrade of preview i would publish: `p` above it, its full form, and the fallbacks below. */
  function Tried(p: seq<Json>, active: seq<InboxRecord>, i: nat): (r: seq<Json>)
    requires i < |active| <= |p| && Candidate(active[i]).Some?
  {
    seq(|p|, k requires 0 <= k < |p| =>
      if k > i then p[k] else if k == i then Candidate(active[i]).value else Fallback(active[k]))
  }

  predicate FullFits(p: seq<Json>, active: seq<InboxRecord>, i: nat)
    requires i < |active| <= |p|
  {
    Candidate(active[i]).Some? && ArraySize(Tried(p, active, i)) <= MAX_PREVIEW_BYTES
  }

  lemma {:induction false} UpgradeAllExactly(snapshots: seq<Json>, active: seq<InboxRecord>, n: nat)
    requires n <= |active| <= |snapshots| && ArraySize(snapshots) <= MAX_PREVIEW_BYTES
    requires forall k :: 0 <= k < n ==> snapshots[k] == Fallback(active[k])
    ensures var r := UpgradeAll(snapshots, active, n);
            forall i :: 0 <= i < n ==>
              (FullFits(r, active, i) <==> Candidate(active[i]) == Some(r[i]))
              && (!FullFits(r, active, i) ==> r[i] == Fallback(active[i]))
    decreases n
  {
    hide Candidate, Fallback, ArraySize, Tried;
    if n > 0 {
      var next := Upgrade(snapshots, n - 1, Candidate(active[n - 1]));
      UpgradeAllExactly(next, active, n - 1);
      UpgradeAllKeeps(next, active, n - 1);
      if Candidate(active[n - 1]).Some? {
        TriedIsUpgraded(snapshots, active, n - 1, UpgradeAll(next, active, n - 1));
        assert snapshots[n - 1 := snapshots[n - 1]] == snapshots;
      }
    }
  }

  lemma TriedIsUpgraded(snapshots: seq<Json>, active: seq<InboxRecord>, i: nat, p: seq<Json>)
    requires i < |active| <= |snapshots| == |p| && Candidate(active[i]).Some?
    requires forall k :: 0 <= k < i ==> snapshots[k] == Fallback(active[k])
    requires forall k :: i < k < |p| ==> p[k] == snapshots[k]
    ensures Tried(p, active, i) == snapshots[i := Candidate(active[i]).value]
  {
    hide Candidate, Fallback;
  }

  /** There are details to publish exactly when the source of them is there. */
  lemma DetailsExactly(r: InboxRecord)
    ensures Details(r).Some? <==>
              r.result.Some? && (r.kind == MIGRATION_PREVIEW || Get(r.result.value, "preview").Some?)
    ensures Details(r).Some? ==>
              Details(r) == if r.kind == MIGRATION_PREVIEW then r.result else Get(r.result.value, "preview")
  {
    hide Get;
  }

  /** A full preview carries its details unchanged. */
  lemma CandidateShowsDetails(r: InboxRecord)
    requires Details(r).Some?
    ensures Candidate(r).Some?
    ensures Get(Candidate(r).value, if r.kind == MIGRATION_PREVIEW then "result" else "preview") == Details(r)
  {
    hide CandidateCore, Find, Insert, InsertText, Details;
    var fields := Insert(CandidateCore(r), DetailsKey(r), Details(r).value);
    FindInsert(CandidateCore(r), DetailsKey(r), Details(r).value, DetailsKey(r));
    FileIdentityTouches(r, fields, DetailsKey(r));
  }

  /**
   Nothing is withheld that fits. A preview is published in full exactly when it has details and the
   array that holds it in full, what is published above it with the marker, and the fallbacks below it
   is within the limit; otherwise its fallback is published.
   */
  lemma FullExactly(records: seq<InboxRecord>, callerOmitted: nat)
    requires callerOmitted <= USIZE_MAX
    ensures var active := Active(records);
            var p := Publish(active, OmittedCount(records, callerOmitted));
            forall i :: 0 <= i < |active| ==>
              && (Candidate(active[i]) == Some(p[i]) <==> FullFits(p, active, i))
              && (!FullFits(p, active, i) ==> p[i] == Fallback(active[i]))
              && (FullFits(p, active, i) ==>
                    && Details(active[i]).Some?
                    && Get(p[i], if active[i].kind == MIGRATION_PREVIEW then "result" else "preview")
                       == Details(active[i]))
  {
    hide Active, OmittedCount, Candidate, Fallback, Details, FullFits, ArraySize, Marker, Get, UpgradeAll;
    var active, omitted := Active(records), OmittedCount(records, callerOmitted);
    ActiveKinds(records);
    FallbacksFit(active, omitted);
    UpgradeAllExactly(WithMarker(Fallbacks(active), omitted), active, |active|);
    forall i | 0 <= i < |active| && FullFits(Publish(active, omitted), active, i)
      ensures Details(active[i]).Some?
      ensures Get(Publish(active, omitted)[i], if active[i].kind == MIGRATION_PREVIEW then "result" else "preview")
              == Details(active[i])
    {
      CandidateWhenDetails(active[i]);
      CandidateShowsDetails(active[i]);
    }
  }

  // ---- what a published preview says ----

  lemma FileIdentityTouches(r: InboxRecord, fields: seq<Field>, key: string)
    requires !IdentityKey(key)
    ensures Find(FileIdentity(r, fields), key) == Find(fields, key)
  {
    hide Find, Insert, InsertText, FilePreviewRequestId, LibraryIdAt, RootBindingAt;
    if r.kind == FILE_PREVIEW {
      var f0 := InsertText(fields, "request_id", FilePreviewRequestId(r));
      var library :=
        if r.result.Some? && LibraryIdAt(r.result.value) then AsStr(Get(r.result.value, "library_id")) else None;
      var root :=
        if library.Some? && RootBindingAt(r.result.value) then AsStr(Get(r.result.value, "root_binding")) else None;
      InsertTextFinds(fields, "request_id", FilePreviewRequestId(r), key);
      InsertTextFinds(f0, "library_id", library, key);
      InsertTextFinds(InsertText(f0, "library_id", library), "root_binding", root, key);
    }
  }

  predicate PreviewKey(key: string) { key in {"seq", "kind", "preview_id", "revision", "status"} }

  lemma OptionKeeps(fields: seq<Field>, r: InboxRecord, option: string, limit: nat, root: bool, key: string)
    requires key != option
    ensures Find(InsertExact(fields, r, option, limit, root), key) == Find(fields, key)
  {
    hide Find, Insert, Exact, IsRootBinding;
    var value := if IsMigration(r) && r.result.Some? then Exact(r.result.value, option, limit) else None;
    if value.Some? { FindInsert(fields, option, value.value, key); }
  }

  predicate OptionKey(key: string) {
    key in {"source_library_id", "source_root_binding", "target_library_id", "target_root_binding", "scope", "conflict",
            "include_incomplete_tasks", "set_target_default_on_success"}
  }

  lemma OptionsKeep(r: InboxRecord, fields: seq<Field>, key: string)
    requires !OptionKey(key)
    ensures Find(MigrationOptions(r, fields), key) == Find(fields, key)
  {
    hide Find, InsertExact;
    OptionKeeps(fields, r, "source_library_id", 256, false, key);
    var f0 := InsertExact(fields, r, "source_library_id", 256, false);
    OptionKeeps(f0, r, "source_root_binding", 80, true, key);
    var f1 := InsertExact(f0, r, "source_root_binding", 80, true);
    OptionKeeps(f1, r, "target_library_id", 256, false, key);
    var f2 := InsertExact(f1, r, "target_library_id", 256, false);
    OptionKeeps(f2, r, "target_root_binding", 80, true, key);
    var f3 := InsertExact(f2, r, "target_root_binding", 80, true);
    OptionKeeps(f3, r, "scope", 64, false, key);
    var f4 := InsertExact(f3, r, "scope", 64, false);
    OptionKeeps(f4, r, "conflict", 64, false, key);
    var f5 := InsertExact(f4, r, "conflict", 64, false);
    OptionKeeps(f5, r, "include_incomplete_tasks", 8, false, key);
    var f6 := InsertExact(f5, r, "include_incomplete_tasks", 8, false);
    OptionKeeps(f6, r, "set_target_default_on_success", 8, false, key);
  }

  /** The value of an identifying field of a preview. */
  function PreviewField(r: InboxRecord, key: string): Json {
    if key == "seq" then Unsigned64(r.seq_)
    else if key == "kind" then Str(r.kind)
    else if key == "status" then Str(AWAITING)
    else IdentityValue(r.result, key)
  }

  lemma PlaceholderCoreFinds(r: InboxRecord, key: string)
    requires PreviewKey(key)
    ensures Find(PlaceholderCore(r), key) == Some(PreviewField(r, key))
  {
    hide Find, Insert, IdentityValue, DetailsPresent;
    var reason := if DetailsPresent(r) then DETAILS_OMITTED_REASON else DETAILS_UNAVAILABLE_REASON;
    var f0 := Insert([], "seq", Unsigned64(r.seq_));
    FindInsert([], "seq", Unsigned64(r.seq_), key);
    FindInsert(f0, "preview_id", IdentityValue(r.result, "preview_id"), key);
    var f1 := Insert(f0, "preview_id", IdentityValue(r.result, "preview_id"));
    FindInsert(f1, "revision", IdentityValue(r.result, "revision"), key);
    var f2 := Insert(f1, "revision", IdentityValue(r.result, "revision"));
    FindInsert(f2, "status", Str(AWAITING), key);
    var f3 := Insert(f2, "status", Str(AWAITING));
    FindInsert(f3, "preview_incomplete", Bool(true), key);
    var f4 := Insert(f3, "preview_incomplete", Bool(true));
    FindInsert(f4, "incomplete", Bool(true), key);
    var f5 := Insert(f4, "incomplete", Bool(true));
    FindInsert(f5, "reload_required", Bool(true), key);
    var f6 := Insert(f5, "reload_required", Bool(true));
    FindInsert(f6, "reason", Str(reason), key);
    FindInsert(Insert(f6, "reason", Str(reason)), "kind", Str(r.kind), key);
  }

  lemma CandidateCoreFinds(r: InboxRecord, key: string)
    requires PreviewKey(key)
    ensures Find(CandidateCore(r), key) == Some(PreviewField(r, key))
  {
    hide Find, Insert, IdentityValue;
    var f0 := Insert([], "seq", Unsigned64(r.seq_));
    FindInsert([], "seq", Unsigned64(r.seq_), key);
    FindInsert(f0, "kind", Str(r.kind), key);
    var f1 := Insert(f0, "kind", Str(r.kind));
    FindInsert(f1, "preview_id", IdentityValue(r.result, "preview_id"), key);
    var f2 := Insert(f1, "preview_id", IdentityValue(r.result, "preview_id"));
    FindInsert(f2, "revision", IdentityValue(r.result, "revision"), key);
    var f3 := Insert(f2, "revision", IdentityValue(r.result, "revision"));
    FindInsert(f3, "status", Str(AWAITING), key);
  }

  /** A placeholder and the full preview identify the same preview of the same record. */
  lemma PreviewKeepsIdentity(r: InboxRecord, key: string)
    requires PreviewKey(key)
    ensures Get(Placeholder(r), key) == Some(PreviewField(r, key))
    ensures Candidate(r).Some? ==> Get(Candidate(r).value, key) == Some(PreviewField(r, key))
  {
    hide Find, Insert, PlaceholderCore, CandidateCore, FileIdentity, MigrationOptions, PreviewField, Details;
    PlaceholderCoreFinds(r, key);
    FileIdentityTouches(r, PlaceholderCore(r), key);
    OptionsKeep(r, FileIdentity(r, PlaceholderCore(r)), key);
    if Details(r).Some? {
      var details := Details(r).value;
      CandidateCoreFinds(r, key);
      FindInsert(CandidateCore(r), DetailsKey(r), details, key);
      FileIdentityTouches(r, Insert(CandidateCore(r), DetailsKey(r), details), key);
    }
  }

  lemma {:induction false} SamplesShown(items: seq<Json>, ids: seq<Json>)
    ensures Samples(items, ids).Some? ==>
              Samples(items, ids).value.1 <= |Samples(items, ids).value.0| <= |items|
  {
    hide SampleItem;
    if items != [] { SamplesShown(items[1..], ids); }
  }

  lemma {:induction false} AggregateKeys(result: Json, names: seq<string>, k: nat)
    requires Aggregates(result, names).Some? && k < |names|
    ensures |Aggregates(result, names).value| == |names| && Aggregates(result, names).value[k].key == names[k]
  {
    hide Exact, AsNat;
    if |names| == 1 {
      assert Aggregates(result, names[1..]) == Some([]);
    } else {
      AggregateKeys(result, names[1..], if k == 0 then 0 else k - 1);
    }
  }

  /** The parts a summary is made of. */
  ghost predicate SummaryParts(r: InboxRecord, result: Json, scalars: seq<Field>, aggregates: seq<Field>, ids: nat,
                               conflicts: nat, warnings: nat, files: nat, samples: (seq<Json>, nat))
  {
    var items := AsItems(Get(result, "items"));
    && MigrationScalars(result) == Some(scalars) && Aggregates(result, AGGREGATES) == Some(aggregates)
    && items.Some? && |items.value| == ids
    && samples.1 <= |samples.0| <= ids
    && AsItems(Get(result, "warnings")).Some? && warnings == |AsItems(Get(result, "warnings")).value|
    && AsNat(Get(result, "file_count")) == Some(files)
    && CompactIdentity(result, "preview_id").Some? && CompactIdentity(result, "revision").Some?
    && MigrationSummary(r, result) == Some(Obj(Object(SummaryEnvelope(r, result,
         Obj(Object(scalars + SummaryCounts(ids, conflicts, warnings, ids, files, samples) + aggregates))))))
  }

  lemma TakeApart(r: InboxRecord, result: Json)
      returns (scalars: seq<Field>, aggregates: seq<Field>, ids: nat, conflicts: nat, warnings: nat, files: nat,
               samples: (seq<Json>, nat))
    requires MigrationSummary(r, result).Some?
    ensures SummaryParts(r, result, scalars, aggregates, ids, conflicts, warnings, files, samples)
  {
    hide MigrationScalars, Aggregates, Samples, Object, Size;
    hide CompactIdentity, Get, AsItems, AsNat, SummaryCounts, SummaryEnvelope;
    ScalarsHaveIdentity(result);
    scalars, aggregates := MigrationScalars(result).value, Aggregates(result, AGGREGATES).value;
    var items := AsItems(Get(result, "items")).value;
    ids, conflicts := |items|, |Get(result, "item_conflicts").value.fields|;
    warnings, files := |AsItems(Get(result, "warnings")).value|, AsNat(Get(result, "file_count")).value;
    SamplesShown(items[..Min(|items|, MAX_SAMPLE_ITEMS)], AsItems(Get(result, "item_ids")).value);
    samples := Samples(items[..Min(|items|, MAX_SAMPLE_ITEMS)], AsItems(Get(result, "item_ids")).value).value;
  }

  lemma ScalarsHaveIdentity(result: Json)
    ensures MigrationScalars(result).Some? ==>
              && CompactIdentity(result, "preview_id").Some?
              && CompactIdentity(result, "preview_id") == Get(result, "id")
              && CompactIdentity(result, "revision").Some?
              && CompactIdentity(result, "revision") == Get(result, "revision")
  {
    hide CompactIdentity, Get, CompactScalar, ValidRootBinding;
  }

  /** A summary identifies the record and the exact plan: id and revision are the plan's own, unshortened. */
  lemma SummaryKeepsIdentity(r: InboxRecord, result: Json)
    requires MigrationSummary(r, result).Some?
    ensures var j := MigrationSummary(r, result).value;
            && Get(j, "seq") == Some(Unsigned64(r.seq_)) && Get(j, "kind") == Some(Str(r.kind))
            && Get(j, "status") == Some(Str(AWAITING))
            && Get(j, "preview_id") == Get(result, "id") && Get(j, "revision") == Get(result, "revision")
            && Get(j, "preview_id").Some? && Get(j, "revision").Some?
  {
    hide MigrationSummary, MigrationScalars, Aggregates, Object, CompactIdentity, SummaryCounts, Find;
    var scalars, aggregates, ids, conflicts, warnings, files, samples := TakeApart(r, result);
    ScalarsHaveIdentity(result);
    var counts := SummaryCounts(ids, conflicts, warnings, ids, files, samples);
    var fields := SummaryEnvelope(r, result, Obj(Object(scalars + counts + aggregates)));
    ObjectFinds(fields, 0);
    ObjectFinds(fields, 1);
    ObjectFinds(fields, 2);
    ObjectFinds(fields, 3);
    ObjectFinds(fields, 4);
  }

  /** Nothing goes uncounted: the samples shown and the items omitted are all items of the plan. */
  lemma SummaryCountsAddUp(r: InboxRecord, result: Json)
    requires MigrationSummary(r, result).Some?
    ensures var summary := Get(MigrationSummary(r, result).value, "result");
            && summary.Some? && AsItems(Get(summary.value, "sample_items")).Some? && AsItems(Get(result, "items")).Some?
            && AsNat(Get(summary.value, "omitted_item_count")).Some?
            && AsNat(Get(summary.value, "omitted_item_count")).value
               + |AsItems(Get(summary.value, "sample_items")).value|
               == |AsItems(Get(result, "items")).value|
            && AsNat(Get(summary.value, "omitted_warning_count")) == Some(|AsItems(Get(result, "warnings")).value|)
  {
    hide MigrationSummary, MigrationScalars, Aggregates, Object, CompactIdentity, Find;
    var scalars, aggregates, ids, conflicts, warnings, files, samples := TakeApart(r, result);
    var counts := SummaryCounts(ids, conflicts, warnings, ids, files, samples);
    var fields := scalars + counts + aggregates;
    ObjectFinds(SummaryEnvelope(r, result, Obj(Object(fields))), 7);
    CountFound(result, scalars, counts, aggregates, 2);
    CountFound(result, scalars, counts, aggregates, 3);
    CountFound(result, scalars, counts, aggregates, 5);
  }

  lemma CountFound(result: Json, scalars: seq<Field>, counts: seq<Field>, aggregates: seq<Field>, i: nat)
    requires Aggregates(result, AGGREGATES) == Some(aggregates) && i < |counts| == 6
    requires counts[2].key == "omitted_warning_count" && counts[3].key == "omitted_item_count"
    requires counts[4].key == "omitted_file_count" && counts[5].key == "sample_items" && i in {2, 3, 5}
    ensures Find(Object(scalars + counts + aggregates), counts[i].key) == Some(counts[i].value)
  {
    hide Aggregates, Object, Find;
    var fields := scalars + counts + aggregates;
    AggregateKeys(result, AGGREGATES, 0);
    forall k | |scalars| + i < k < |fields|
      ensures fields[k].key != counts[i].key
    {
      if k >= |scalars| + 6 {
        AggregateKeys(result, AGGREGATES, k - |scalars| - 6);
      } else {
        assert fields[k] == counts[k - |scalars|];
      }
    }
    ObjectFinds(fields, |scalars| + i);
  }

  /** An identity that is short enough for a summary is what the other forms show, too. */
  lemma ExactIdentity(result: Json, field: string)
    requires CompactIdentity(result, field).Some?
    ensures IdentityValue(Some(result), field) == CompactIdentity(result, field).value
  {
    hide IdentityCandidate, Size;
    CompactResults.IdentitySize(result, field);
  }

  lemma FallbackKeepsIdentity(r: InboxRecord, key: string)
    requires PreviewKey(key)
    ensures Get(Fallback(r), key) == Some(PreviewField(r, key))
  {
    hide Placeholder, MigrationSummary, Get, CompactIdentity, IdentityValue;
    PreviewKeepsIdentity(r, key);
    if r.result.Some? && MigrationSummary(r, r.result.value).Some? {
      SummaryKeepsIdentity(r, r.result.value);
      SummaryIsExact(r, r.result.value);
      ExactIdentity(r.result.value, "preview_id");
      ExactIdentity(r.result.value, "revision");
    }
  }

  lemma SummaryIsExact(r: InboxRecord, result: Json)
    requires MigrationSummary(r, result).Some?
    ensures CompactIdentity(result, "preview_id").Some? && CompactIdentity(result, "revision").Some?
    ensures Get(result, "id") == CompactIdentity(result, "preview_id")
    ensures Get(result, "revision") == CompactIdentity(result, "revision")
  {
    hide MigrationScalars, CompactIdentity, Get;
    ScalarsHaveIdentity(result);
  }

  /**
   Whichever form the budget left a preview with, the published entry names the same preview of the
   same record: sequence number, kind, status, id and revision do not depend on what else is published.
   */
  lemma PublishedIdentity(records: seq<InboxRecord>, callerOmitted: nat, i: nat, key: string)
    requires callerOmitted + |AwaitingOf(records)| <= USIZE_MAX && i < |Active(records)| && PreviewKey(key)
    ensures var published := Publish(Active(records), OmittedCount(records, callerOmitted));
            Get(published[i], key) == Some(PreviewField(Active(records)[i], key))
  {
    hide Active, OmittedCount, Publish, Get, PreviewField, Fallback, Candidate, AwaitingOf;
    PublishedPreviews(records, callerOmitted);
    PreviewKeepsIdentity(Active(records)[i], key);
    FallbackKeepsIdentity(Active(records)[i], key);
  }

  // ---- marks and library identity of a published preview ----

  predicate MarkName(key: string) { key == "preview_incomplete" || key == "migration_summary" }

  lemma PlaceholderCoreMarked(r: InboxRecord)
    ensures Find(PlaceholderCore(r), "preview_incomplete") == Some(Bool(true))
  {
    hide Find, Insert, IdentityValue, DetailsPresent;
    var key := "preview_incomplete";
    var reason := if DetailsPresent(r) then DETAILS_OMITTED_REASON else DETAILS_UNAVAILABLE_REASON;
    var f0 := Insert([], "seq", Unsigned64(r.seq_));
    var f1 := Insert(f0, "preview_id", IdentityValue(r.result, "preview_id"));
    var f2 := Insert(f1, "revision", IdentityValue(r.result, "revision"));
    var f3 := Insert(f2, "status", Str(AWAITING));
    var f4 := Insert(f3, "preview_incomplete", Bool(true));
    FindInsert(f3, "preview_incomplete", Bool(true), key);
    FindInsert(f4, "incomplete", Bool(true), key);
    var f5 := Insert(f4, "incomplete", Bool(true));
    FindInsert(f5, "reload_required", Bool(true), key);
    var f6 := Insert(f5, "reload_required", Bool(true));
    FindInsert(f6, "reason", Str(reason), key);
    FindInsert(Insert(f6, "reason", Str(reason)), "kind", Str(r.kind), key);
  }

  lemma CandidateCoreUnmarked(r: InboxRecord, key: string)
    requires MarkName(key)
    ensures Find(CandidateCore(r), key) == None
  {
    hide Find, Insert, IdentityValue;
    NoField(key);
    FindInsert([], "seq", Unsigned64(r.seq_), key);
    var f0 := Insert([], "seq", Unsigned64(r.seq_));
    FindInsert(f0, "kind", Str(r.kind), key);
    var f1 := Insert(f0, "kind", Str(r.kind));
    FindInsert(f1, "preview_id", IdentityValue(r.result, "preview_id"), key);
    var f2 := Insert(f1, "preview_id", IdentityValue(r.result, "preview_id"));
    FindInsert(f2, "revision", IdentityValue(r.result, "revision"), key);
    var f3 := Insert(f2, "revision", IdentityValue(r.result, "revision"));
    FindInsert(f3, "status", Str(AWAITING), key);
  }

  lemma NoField(key: string)
    ensures Find([], key) == None
  {
  }

  predicate Marked(j: Json) { IsTrue(j, "preview_incomplete") || IsTrue(j, "migration_summary") }

  lemma FullUnmarked(r: InboxRecord)
    requires Candidate(r).Some?
    ensures !Marked(Candidate(r).value)
  {
    hide Find, Insert, CandidateCore, FileIdentity, Details;
    var details := Details(r).value;
    forall key | MarkName(key)
      ensures Get(Candidate(r).value, key) == None
    {
      CandidateCoreUnmarked(r, key);
      FindInsert(CandidateCore(r), DetailsKey(r), details, key);
      FileIdentityTouches(r, Insert(CandidateCore(r), DetailsKey(r), details), key);
    }
    assert MarkName("preview_incomplete") && MarkName("migration_summary");
  }

  lemma PlaceholderMarked(r: InboxRecord)
    ensures Marked(Placeholder(r))
  {
    hide Find, Insert, PlaceholderCore, FileIdentity, MigrationOptions;
    PlaceholderCoreMarked(r);
    FileIdentityTouches(r, PlaceholderCore(r), "preview_incomplete");
    OptionsKeep(r, FileIdentity(r, PlaceholderCore(r)), "preview_incomplete");
  }

  lemma SummaryMarked(r: InboxRecord, result: Json)
    requires MigrationSummary(r, result).Some?
    ensures Marked(MigrationSummary(r, result).value)
  {
    hide MigrationSummary, MigrationScalars, Aggregates, Object, CompactIdentity, SummaryCounts, Find;
    var scalars, aggregates, ids, conflicts, warnings, files, samples := TakeApart(r, result);
    var counts := SummaryCounts(ids, conflicts, warnings, ids, files, samples);
    ObjectFinds(SummaryEnvelope(r, result, Obj(Object(scalars + counts + aggregates))), 5);
  }

  /** The marks of a published preview are true: it says that it is not whole exactly when it is not. */
  lemma MarkedExactly(records: seq<InboxRecord>, callerOmitted: nat, i: nat)
    requires callerOmitted <= USIZE_MAX && i < |Active(records)|
    ensures var active := Active(records);
            var p := Publish(active, OmittedCount(records, callerOmitted));
            Marked(p[i]) <==> Candidate(active[i]) != Some(p[i])
  {
    hide Active, OmittedCount, Publish, Marked, FullFits, Details, Get, MigrationSummary, Placeholder, Candidate;
    FullExactly(records, callerOmitted);
    var r := Active(records)[i];
    if Candidate(r).Some? { FullUnmarked(r); }
    PlaceholderMarked(r);
    if r.result.Some? && MigrationSummary(r, r.result.value).Some? { SummaryMarked(r, r.result.value); }
  }

  /** The library a file preview belongs to, as its result names it. */
  lemma FileIdentityFinds(r: InboxRecord, fields: seq<Field>, key: string)
    requires r.kind == FILE_PREVIEW && Publishable(r) && (key == "library_id" || key == "root_binding")
    ensures Find(FileIdentity(r, fields), key) == Get(r.result.value, key)
  {
    hide Find, Insert, ValidLibraryId, ValidRootBinding, FilePreviewRequestId;
    var f0 := InsertText(fields, "request_id", FilePreviewRequestId(r));
    var library := AsStr(Get(r.result.value, "library_id"));
    var root := AsStr(Get(r.result.value, "root_binding"));
    FindInsert(f0, "library_id", Str(library.value), key);
    FindInsert(Insert(f0, "library_id", Str(library.value)), "root_binding", Str(root.value), key);
  }

  /** Every published file preview names the library and the root it was made for. */
  lemma PublishedBinding(records: seq<InboxRecord>, callerOmitted: nat, i: nat, key: string)
    requires callerOmitted <= USIZE_MAX && i < |Active(records)| && Active(records)[i].kind == FILE_PREVIEW
    requires key == "library_id" || key == "root_binding"
    ensures var r := Active(records)[i];
            var p := Publish(Active(records), OmittedCount(records, callerOmitted));
            ResultBound(r) && Get(p[i], key) == Get(r.result.value, key)
  {
    hide Active, OmittedCount, Publish, FullFits, Details, Find, FileIdentity, MigrationOptions, ResultBound;
    hide PlaceholderCore, CandidateCore, MigrationSummary, AwaitingOf;
    FullExactly(records, callerOmitted);
    ActiveSpec(records);
    var r := Active(records)[i];
    FileIdentityFinds(r, PlaceholderCore(r), key);
    OptionsKeep(r, FileIdentity(r, PlaceholderCore(r)), key);
    if Details(r).Some? { FileIdentityFinds(r, Insert(CandidateCore(r), DetailsKey(r), Details(r).value), key); }
  }
}
