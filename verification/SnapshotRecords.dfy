/** Inbox records and the operation receipts published for them. */
module SnapshotRecords {
  import opened Bytes
  import opened Json

  const MAX_OPERATION_RECORDS: nat := 100
  const MAX_OPERATION_BYTES: nat := 2 * 1024 * 1024
  const MAX_COMPACT_RESULT_BYTES: nat := 2 * 1024
  const MAX_RECOVERY_RESULT_BYTES: nat := 512 * 1024
  const MAX_ERROR_BYTES: nat := 1024
  const MAX_KIND_BYTES: nat := 128
  const MAX_REQUEST_ID_BYTES: nat := 256
  const MAX_IDENTITY_BYTES: nat := 128
  const MAX_LIBRARY_ID_BYTES: nat := 128
  const MAX_LIBRARY_ID_JSON_BYTES: nat := 770
  const DETAILS_OMITTED: string :=
    "Older operation details were omitted" + " to keep the cloud state" + " within its size limit."

  datatype Status =
    | Pending | Processing | AwaitingConfirmation | Completed | Retryable | Failed
    | Uncertain | Stale | Cancelled

  datatype InboxRecord = InboxRecord(
    seq_: u64,
    kind: string,
    payload: Json,
    createdAt: u64,
    extra: seq<Field>,
    status: Status,
    attempts: u64,
    updatedAt: u64,
    nextAttemptAt: u64,
    error: Option<string>,
    result: Option<Json>)

  function StatusName(status: Status): (r: string)
    ensures |r| <= 21
  {
    match status
    case Pending => "pending"
    case Processing => "processing"
    case AwaitingConfirmation => "awaiting_confirmation"
    case Completed => "completed"
    case Retryable => "retryable"
    case Failed => "failed"
    case Uncertain => "uncertain"
    case Stale => "stale"
    case Cancelled => "cancelled"
  }

  // ---- identities ----

  predicate IsControl(c: char) { c as int < 0x20 || 0x7F <= c as int <= 0x9F }

  /** Not empty, and trimming changes nothing. */
  predicate Trimmed(s: string) {
    s != [] && !IsWhitespace(s[0]) && !IsWhitespace(s[|s| - 1])
  }

  predicate NoControls(s: string) { forall i :: 0 <= i < |s| ==> !IsControl(s[i]) }

  predicate ValidLibraryId(s: string) {
    Trimmed(s) && TextBytes(s) <= MAX_LIBRARY_ID_BYTES && NoControls(s)
    && TextSize(s) <= MAX_LIBRARY_ID_JSON_BYTES
  }

  predicate IsLowerHex(c: char) { '0' <= c <= '9' || 'a' <= c <= 'f' }

  predicate ValidRootBinding(s: string) {
    |s| == 67 && s[..3] == "v1:" && forall i :: 3 <= i < 67 ==> IsLowerHex(s[i])
  }

  predicate LibraryIdAt(j: Json) {
    AsStr(Get(j, "library_id")).Some? && ValidLibraryId(AsStr(Get(j, "library_id")).value)
  }

  predicate RootBindingAt(j: Json) {
    AsStr(Get(j, "root_binding")).Some? && ValidRootBinding(AsStr(Get(j, "root_binding")).value)
  }

  predicate IsTrue(j: Json, key: string) { Get(j, key) == Some(Bool(true)) }

  predicate MarkedIncomplete(j: Json) {
    IsTrue(j, "incomplete") || IsTrue(j, "details_incomplete") || IsTrue(j, "result_truncated")
  }

  // ---- usable results ----

  predicate UsableLegacyImport(result: Json) {
    && LibraryIdAt(result) && RootBindingAt(result)
    && AsItems(Get(result, "hints")).Some? && AsItems(Get(result, "hints")).value != []
    && AsItems(Get(result, "candidates")).Some?
    && !MarkedIncomplete(result)
  }

  predicate UsableRecovery(result: Json) {
    && Get(result, "recovery").Some?
    && var recovery := Get(result, "recovery").value;
    && LibraryIdAt(result) && RootBindingAt(result)
    && (AsStr(Get(result, "scope")) == Some("selected") || AsStr(Get(result, "scope")) == Some("library"))
    && AsStr(Get(recovery, "revision")).Some? && AsStr(Get(recovery, "revision")).value != []
    && AsItems(Get(recovery, "items")).Some? && 0 < |AsItems(Get(recovery, "items")).value| <= 100
    && !MarkedIncomplete(result) && !MarkedIncomplete(recovery)
    && Size(result) <= MAX_RECOVERY_RESULT_BYTES
  }

  // ---- compact results ----

  function OrElse<T>(a: Option<T>, b: Option<T>): Option<T> { if a.Some? then a else b }

  function GetIn(j: Option<Json>, key: string): Option<Json> {
    if j.Some? then Get(j.value, key) else None
  }

  function CompactScalar(value: Json, limit: nat): Option<Json> {
    match value
    case Str(text) =>
      var bounded := BoundedString(text, limit);
      if bounded.Some? then Some(Str(bounded.value)) else None
    case Arr(_) => None
    case Obj(_) => None
    case _ => if Size(value) <= limit then Some(value) else None
  }

  /** Where an identity may be found: the result, its preview, or their plain ids. */
  function IdentityCandidate(result: Json, field: string): Option<Json> {
    var preview := Get(result, "preview");
    var direct := OrElse(Get(result, field), GetIn(preview, field));
    if field == "preview_id" then OrElse(OrElse(direct, GetIn(preview, "id")), Get(result, "id")) else direct
  }

  function CompactIdentity(result: Json, field: string): Option<Json> {
    match IdentityCandidate(result, field)
    case None => None
    case Some(candidate) =>
      if CompactScalar(candidate, MAX_IDENTITY_BYTES) == Some(candidate) then Some(candidate) else None
  }

  function CompactField(result: Json, field: string, limit: nat): Option<Json> {
    match OrElse(Get(result, field), GetIn(Get(result, "operation"), field))
    case None => None
    case Some(candidate) => CompactScalar(candidate, limit)
  }

  /** Adds a field unless the object would outgrow the compact limit. */
  function AddIfSmall(summary: seq<Field>, key: string, value: Option<Json>): seq<Field> {
    if value.None? then summary
    else
      var added := Insert(summary, key, value.value);
      if Size(Obj(added)) <= MAX_COMPACT_RESULT_BYTES then added else Remove(added, key)
  }

  function CompactSummary(result: Json): (r: Json)
    ensures r.Obj?
  {
    var s0 := Object([Field("incomplete", Bool(true)), Field("reason", Str(DETAILS_OMITTED))]);
    var s1 := AddIfSmall(s0, "preview_id", CompactIdentity(result, "preview_id"));
    var s2 := AddIfSmall(s1, "revision", CompactIdentity(result, "revision"));
    var s3 := AddIfSmall(s2, "library_id", CompactField(result, "library_id", MAX_LIBRARY_ID_JSON_BYTES));
    var s4 := AddIfSmall(s3, "root_binding", CompactField(result, "root_binding", 80));
    var s5 := AddIfSmall(s4, "status", CompactField(result, "status", 128));
    var s6 := AddIfSmall(s5, "error", CompactField(result, "error", 512));
    var s7 := AddIfSmall(s6, "scanned_at", CompactField(result, "scanned_at", 64));
    if Size(Obj(s7)) <= MAX_COMPACT_RESULT_BYTES then Obj(s7) else Obj([Field("incomplete", Bool(true))])
  }

  // ---- receipts ----

  function LibraryScanReceipt(result: Json): Json {
    var f0 := if Get(result, "revision").Some? then Insert([], "revision", Get(result, "revision").value) else [];
    Obj(if Get(result, "scanned_at").Some? then Insert(f0, "scanned_at", Get(result, "scanned_at").value) else f0)
  }

  function ReceiptResult(r: InboxRecord, full: bool): Json {
    if r.result.None? then Null
    else if r.kind == "library_scan" then LibraryScanReceipt(r.result.value)
    else if full then r.result.value
    else CompactSummary(r.result.value)
  }

  function BoundedKind(kind: string): string {
    match BoundedString(kind, MAX_KIND_BYTES) case None => [] case Some(s) => s
  }

  function BoundedError(error: Option<string>): Option<string> {
    if error.None? then None else BoundedString(error.value, MAX_ERROR_BYTES)
  }

  function ErrorJson(error: Option<string>): Json { if error.None? then Null else Str(error.value) }

  function FilePreviewRequestId(r: InboxRecord): Option<string> {
    var id := AsStr(Find(r.extra, "request_id"));
    if r.kind == "file_preview" && id.Some? && Trimmed(id.value)
       && TextBytes(id.value) <= MAX_REQUEST_ID_BYTES && NoControls(id.value)
    then id else None
  }

  function FilePreviewIdentity(r: InboxRecord): Option<(string, string)> {
    var inPayload := Get(r.payload, "library_id").Some? || Get(r.payload, "root_binding").Some?;
    var source := if inPayload then Some(r.payload) else r.result;
    if r.kind == "file_preview" && source.Some? && LibraryIdAt(source.value) && RootBindingAt(source.value)
    then Some((AsStr(Get(source.value, "library_id")).value, AsStr(Get(source.value, "root_binding")).value))
    else None
  }

  function RecoveryIdentity(r: InboxRecord): Option<Json> {
    var scope := AsStr(Get(r.payload, "scope"));
    if r.kind == "metadata_recover" && LibraryIdAt(r.payload) && RootBindingAt(r.payload)
       && (scope == Some("selected") || scope == Some("library"))
    then Some(Obj(Object([Field("library_id", Str(AsStr(Get(r.payload, "library_id")).value)),
                          Field("root_binding", Str(AsStr(Get(r.payload, "root_binding")).value)),
                          Field("scope", Str(scope.value))])))
    else None
  }

  function InsertIf(fields: seq<Field>, condition: bool, key: string, value: Json): seq<Field> {
    if condition then Insert(fields, key, value) else fields
  }

  function InsertText(fields: seq<Field>, key: string, text: Option<string>): seq<Field> {
    if text.Some? then Insert(fields, key, Str(text.value)) else fields
  }

  lemma InsertTextFinds(fields: seq<Field>, key: string, text: Option<string>, other: string)
    requires key != other
    ensures Find(InsertText(fields, key, text), other) == Find(fields, other)
  {
    if text.Some? { FindInsert(fields, key, Str(text.value), other); }
  }

  /** The fields every receipt has. */
  function ReceiptCore(r: InboxRecord, full: bool): seq<Field> {
    var f0 := Insert([], "seq", Unsigned64(r.seq_));
    var f1 := Insert(f0, "kind", Str(BoundedKind(r.kind)));
    var f2 := Insert(f1, "status", Str(StatusName(r.status)));
    var f3 := Insert(f2, "created_at", Unsigned64(r.createdAt));
    var f4 := Insert(f3, "updated_at", Unsigned64(r.updatedAt));
    var f5 := Insert(f4, "attempts", Unsigned64(r.attempts));
    var f6 := Insert(f5, "next_attempt_at", Unsigned64(r.nextAttemptAt));
    var f7 := Insert(f6, "result", ReceiptResult(r, full));
    Insert(f7, "error", ErrorJson(BoundedError(r.error)))
  }

  /** The identity some receipts carry. */
  function WithIdentity(r: InboxRecord, core: seq<Field>): seq<Field> {
    var identity := FilePreviewIdentity(r);
    var f0 := InsertText(core, "request_id", FilePreviewRequestId(r));
    var f1 := InsertText(f0, "library_id", if identity.Some? then Some(identity.value.0) else None);
    var f2 := InsertText(f1, "root_binding", if identity.Some? then Some(identity.value.1) else None);
    if RecoveryIdentity(r).Some? then Insert(f2, "recovery_identity", RecoveryIdentity(r).value) else f2
  }

  /** The marks of what was cut. */
  function WithMarks(r: InboxRecord, full: bool, fields: seq<Field>): seq<Field> {
    var compacted := !full && r.kind != "library_scan" && r.result.Some?;
    var f0 := InsertIf(fields, compacted, "details_incomplete", Bool(true));
    var f1 := InsertIf(f0, compacted, "result_truncated", Bool(true));
    var f2 := InsertIf(f1, BoundedKind(r.kind) != r.kind, "kind_truncated", Bool(true));
    InsertIf(f2, BoundedError(r.error) != r.error, "error_truncated", Bool(true))
  }

  function ReceiptExtras(r: InboxRecord, full: bool, core: seq<Field>): seq<Field> {
    WithMarks(r, full, WithIdentity(r, core))
  }

  function OperationSnapshot(r: InboxRecord, full: bool): Json {
    Obj(ReceiptExtras(r, full, ReceiptCore(r, full)))
  }

  // ---- what a receipt says ----

  predicate IdentityKey(key: string) { key in {"request_id", "library_id", "root_binding", "recovery_identity"} }

  predicate MarkKey(key: string)
    { key in {"details_incomplete", "result_truncated", "kind_truncated", "error_truncated"} }

  lemma IdentityKeeps(r: InboxRecord, core: seq<Field>, key: string)
    requires !IdentityKey(key)
    ensures Find(WithIdentity(r, core), key) == Find(core, key)
  {
    hide Find, Insert, InsertText, FilePreviewIdentity, FilePreviewRequestId, RecoveryIdentity;
    var identity := FilePreviewIdentity(r);
    InsertTextFinds(core, "request_id", FilePreviewRequestId(r), key);
    var f0 := InsertText(core, "request_id", FilePreviewRequestId(r));
    InsertTextFinds(f0, "library_id", if identity.Some? then Some(identity.value.0) else None, key);
    var f1 := InsertText(f0, "library_id", if identity.Some? then Some(identity.value.0) else None);
    InsertTextFinds(f1, "root_binding", if identity.Some? then Some(identity.value.1) else None, key);
    var f2 := InsertText(f1, "root_binding", if identity.Some? then Some(identity.value.1) else None);
    if RecoveryIdentity(r).Some? { FindInsert(f2, "recovery_identity", RecoveryIdentity(r).value, key); }
  }

  lemma MarksSay(r: InboxRecord, full: bool, fields: seq<Field>, key: string)
    ensures var compacted := !full && r.kind != "library_scan" && r.result.Some?;
            Find(WithMarks(r, full, fields), key) ==
            if key in {"details_incomplete", "result_truncated"} && compacted then Some(Bool(true))
            else if key == "kind_truncated" && BoundedKind(r.kind) != r.kind then Some(Bool(true))
            else if key == "error_truncated" && BoundedError(r.error) != r.error then Some(Bool(true))
            else Find(fields, key)
  {
    hide Find, Insert, InsertIf, BoundedKind, BoundedError;
    var compacted := !full && r.kind != "library_scan" && r.result.Some?;
    MarkSays(fields, compacted, "details_incomplete", key);
    var f4 := InsertIf(fields, compacted, "details_incomplete", Bool(true));
    MarkSays(f4, compacted, "result_truncated", key);
    var f5 := InsertIf(f4, compacted, "result_truncated", Bool(true));
    MarkSays(f5, BoundedKind(r.kind) != r.kind, "kind_truncated", key);
    var f6 := InsertIf(f5, BoundedKind(r.kind) != r.kind, "kind_truncated", Bool(true));
    MarkSays(f6, BoundedError(r.error) != r.error, "error_truncated", key);
  }

  lemma MarkSays(fields: seq<Field>, condition: bool, mark: string, key: string)
    ensures Find(InsertIf(fields, condition, mark, Bool(true)), key) ==
            if key == mark && condition then Some(Bool(true)) else Find(fields, key)
  {
    FindInsert(fields, mark, Bool(true), key);
  }

  lemma CoreFields(r: InboxRecord, full: bool, key: string)
    ensures Find(ReceiptCore(r, full), key) ==
            if key == "seq" then Some(Unsigned64(r.seq_))
            else if key == "kind" then Some(Str(BoundedKind(r.kind)))
            else if key == "status" then Some(Str(StatusName(r.status)))
            else if key == "created_at" then Some(Unsigned64(r.createdAt))
            else if key == "updated_at" then Some(Unsigned64(r.updatedAt))
            else if key == "attempts" then Some(Unsigned64(r.attempts))
            else if key == "next_attempt_at" then Some(Unsigned64(r.nextAttemptAt))
            else if key == "result" then Some(ReceiptResult(r, full))
            else if key == "error" then Some(ErrorJson(BoundedError(r.error)))
            else None
  {
    hide Find, Insert, ReceiptResult, BoundedKind, BoundedError, StatusName;
    var f0 := Insert([], "seq", Unsigned64(r.seq_));
    NothingFound(key);
    FindInsert([], "seq", Unsigned64(r.seq_), key);
    FindInsert(f0, "kind", Str(BoundedKind(r.kind)), key);
    var f1 := Insert(f0, "kind", Str(BoundedKind(r.kind)));
    FindInsert(f1, "status", Str(StatusName(r.status)), key);
    var f2 := Insert(f1, "status", Str(StatusName(r.status)));
    FindInsert(f2, "created_at", Unsigned64(r.createdAt), key);
    var f3 := Insert(f2, "created_at", Unsigned64(r.createdAt));
    FindInsert(f3, "updated_at", Unsigned64(r.updatedAt), key);
    var f4 := Insert(f3, "updated_at", Unsigned64(r.updatedAt));
    FindInsert(f4, "attempts", Unsigned64(r.attempts), key);
    var f5 := Insert(f4, "attempts", Unsigned64(r.attempts));
    FindInsert(f5, "next_attempt_at", Unsigned64(r.nextAttemptAt), key);
    var f6 := Insert(f5, "next_attempt_at", Unsigned64(r.nextAttemptAt));
    FindInsert(f6, "result", ReceiptResult(r, full), key);
    FindInsert(Insert(f6, "result", ReceiptResult(r, full)), "error", ErrorJson(BoundedError(r.error)), key);
  }

  lemma NothingFound(key: string)
    ensures Find([], key) == None
  {
  }

  lemma FieldSays(r: InboxRecord, full: bool, key: string)
    requires !IdentityKey(key)
    ensures var compacted := !full && r.kind != "library_scan" && r.result.Some?;
            Get(OperationSnapshot(r, full), key) ==
            if key in {"details_incomplete", "result_truncated"} && compacted then Some(Bool(true))
            else if key == "kind_truncated" && BoundedKind(r.kind) != r.kind then Some(Bool(true))
            else if key == "error_truncated" && BoundedError(r.error) != r.error then Some(Bool(true))
            else Find(ReceiptCore(r, full), key)
  {
    hide Find, WithIdentity, WithMarks, ReceiptCore, BoundedKind, BoundedError;
    IdentityKeeps(r, ReceiptCore(r, full), key);
    MarksSay(r, full, WithIdentity(r, ReceiptCore(r, full)), key);
  }

  /** Both forms of a receipt carry the record's own fields. */
  lemma ReceiptFields(r: InboxRecord, full: bool)
    ensures var j := OperationSnapshot(r, full);
            && AsNat(Get(j, "seq")) == Some(r.seq_) && Get(j, "status") == Some(Str(StatusName(r.status)))
            && AsNat(Get(j, "created_at")) == Some(r.createdAt) && AsNat(Get(j, "updated_at")) == Some(r.updatedAt)
            && AsNat(Get(j, "attempts")) == Some(r.attempts)
            && AsNat(Get(j, "next_attempt_at")) == Some(r.nextAttemptAt)
            && Get(j, "kind") == Some(Str(BoundedKind(r.kind)))
            && Get(j, "error") == Some(ErrorJson(BoundedError(r.error)))
            && Get(j, "result") == Some(ReceiptResult(r, full))
  {
    hide OperationSnapshot, Get, ReceiptCore, Find, ReceiptResult, BoundedKind, BoundedError, StatusName;
    CoreSays(r, full, "seq");
    CoreSays(r, full, "status");
    CoreSays(r, full, "created_at");
    CoreSays(r, full, "updated_at");
    CoreSays(r, full, "attempts");
    CoreSays(r, full, "next_attempt_at");
    CoreSays(r, full, "kind");
    CoreSays(r, full, "error");
    CoreSays(r, full, "result");
  }

  lemma CoreSays(r: InboxRecord, full: bool, key: string)
    requires !IdentityKey(key) && !MarkKey(key)
    ensures Get(OperationSnapshot(r, full), key) == Find(ReceiptCore(r, full), key)
    ensures key == "seq" ==> Find(ReceiptCore(r, full), key) == Some(Unsigned64(r.seq_))
    ensures key == "kind" ==> Find(ReceiptCore(r, full), key) == Some(Str(BoundedKind(r.kind)))
    ensures key == "status" ==> Find(ReceiptCore(r, full), key) == Some(Str(StatusName(r.status)))
    ensures key == "created_at" ==> Find(ReceiptCore(r, full), key) == Some(Unsigned64(r.createdAt))
    ensures key == "updated_at" ==> Find(ReceiptCore(r, full), key) == Some(Unsigned64(r.updatedAt))
    ensures key == "attempts" ==> Find(ReceiptCore(r, full), key) == Some(Unsigned64(r.attempts))
    ensures key == "next_attempt_at" ==> Find(ReceiptCore(r, full), key) == Some(Unsigned64(r.nextAttemptAt))
    ensures key == "result" ==> Find(ReceiptCore(r, full), key) == Some(ReceiptResult(r, full))
    ensures key == "error" ==> Find(ReceiptCore(r, full), key) == Some(ErrorJson(BoundedError(r.error)))
  {
    hide OperationSnapshot, Get, ReceiptCore, Find, ReceiptResult, BoundedKind, BoundedError, StatusName;
    FieldSays(r, full, key);
    CoreFields(r, full, key);
  }

  /** A receipt is marked exactly where something was cut. */
  lemma ReceiptMarks(r: InboxRecord, full: bool)
    ensures var j := OperationSnapshot(r, full);
            && (IsTrue(j, "details_incomplete") <==> !full && r.kind != "library_scan" && r.result.Some?)
            && (IsTrue(j, "result_truncated") <==> IsTrue(j, "details_incomplete"))
            && (IsTrue(j, "kind_truncated") <==> BoundedKind(r.kind) != r.kind)
            && (IsTrue(j, "error_truncated") <==> BoundedError(r.error) != r.error)
  {
    hide OperationSnapshot, Get, ReceiptCore, Find, BoundedKind, BoundedError;
    MarkNotCore(r, full, "details_incomplete");
    MarkNotCore(r, full, "result_truncated");
    MarkNotCore(r, full, "kind_truncated");
    MarkNotCore(r, full, "error_truncated");
  }

  lemma MarkNotCore(r: InboxRecord, full: bool, mark: string)
    requires MarkKey(mark)
    ensures var compacted := !full && r.kind != "library_scan" && r.result.Some?;
            Get(OperationSnapshot(r, full), mark) ==
            if mark in {"details_incomplete", "result_truncated"} then (if compacted then Some(Bool(true)) else None)
            else if mark == "kind_truncated" then (if BoundedKind(r.kind) != r.kind then Some(Bool(true)) else None)
            else (if BoundedError(r.error) != r.error then Some(Bool(true)) else None)
  {
    hide OperationSnapshot, Get, ReceiptCore, Find, BoundedKind, BoundedError;
    FieldSays(r, full, mark);
    CoreFields(r, full, mark);
  }

  /** Where a file preview's receipt takes its library from: the request if it names one, else the result. */
  function BindingSource(r: InboxRecord): Option<Json> {
    if Get(r.payload, "library_id").Some? || Get(r.payload, "root_binding").Some? then Some(r.payload) else r.result
  }

  predicate Bound(r: InboxRecord) {
    && r.kind == "file_preview" && BindingSource(r).Some?
    && LibraryIdAt(BindingSource(r).value) && RootBindingAt(BindingSource(r).value)
  }

  lemma MarksLeave(r: InboxRecord, full: bool, fields: seq<Field>, key: string)
    requires IdentityKey(key)
    ensures Find(WithMarks(r, full, fields), key) == Find(fields, key)
  {
    hide Find, WithMarks, BoundedKind, BoundedError;
    MarksSay(r, full, fields, key);
  }

  lemma CoreHasNoIdentity(r: InboxRecord, full: bool, key: string)
    requires IdentityKey(key)
    ensures Find(ReceiptCore(r, full), key) == None
  {
    hide Find, ReceiptCore, ReceiptResult, BoundedKind, BoundedError, StatusName;
    CoreFields(r, full, key);
  }

  lemma BindingInserted(r: InboxRecord, core: seq<Field>, key: string)
    requires (key == "library_id" || key == "root_binding") && Find(core, key) == None
    ensures Find(WithIdentity(r, core), key) == if Bound(r) then Get(BindingSource(r).value, key) else None
  {
    hide Find, Insert, ValidLibraryId, ValidRootBinding, FilePreviewRequestId, RecoveryIdentity;
    var identity := FilePreviewIdentity(r);
    InsertTextFinds(core, "request_id", FilePreviewRequestId(r), key);
    var f0 := InsertText(core, "request_id", FilePreviewRequestId(r));
    if identity.Some? {
      FindInsert(f0, "library_id", Str(identity.value.0), key);
      FindInsert(Insert(f0, "library_id", Str(identity.value.0)), "root_binding", Str(identity.value.1), key);
    }
    var f2 := InsertText(InsertText(f0, "library_id", if identity.Some? then Some(identity.value.0) else None),
                         "root_binding", if identity.Some? then Some(identity.value.1) else None);
    if RecoveryIdentity(r).Some? { FindInsert(f2, "recovery_identity", RecoveryIdentity(r).value, key); }
  }

  /** A receipt names a library exactly for a file preview whose source names a valid one, and names that one. */
  lemma ReceiptBinding(r: InboxRecord, full: bool, key: string)
    requires key == "library_id" || key == "root_binding"
    ensures Get(OperationSnapshot(r, full), key) == if Bound(r) then Get(BindingSource(r).value, key) else None
  {
    hide Find, WithIdentity, WithMarks, ReceiptCore, Bound;
    CoreHasNoIdentity(r, full, key);
    BindingInserted(r, ReceiptCore(r, full), key);
    MarksLeave(r, full, WithIdentity(r, ReceiptCore(r, full)), key);
  }

  /** A recovery request that names its library, its root and one of the two scopes. */
  predicate NamesRecovery(r: InboxRecord) {
    && r.kind == "metadata_recover" && LibraryIdAt(r.payload) && RootBindingAt(r.payload)
    && (Get(r.payload, "scope") == Some(Str("selected")) || Get(r.payload, "scope") == Some(Str("library")))
  }

  lemma RecoveryInserted(r: InboxRecord, core: seq<Field>)
    requires Find(core, "recovery_identity") == None
    ensures Find(WithIdentity(r, core), "recovery_identity") == RecoveryIdentity(r)
  {
    hide Find, Insert, FilePreviewIdentity, FilePreviewRequestId, RecoveryIdentity;
    var key, identity := "recovery_identity", FilePreviewIdentity(r);
    InsertTextFinds(core, "request_id", FilePreviewRequestId(r), key);
    var f0 := InsertText(core, "request_id", FilePreviewRequestId(r));
    InsertTextFinds(f0, "library_id", if identity.Some? then Some(identity.value.0) else None, key);
    var f1 := InsertText(f0, "library_id", if identity.Some? then Some(identity.value.0) else None);
    InsertTextFinds(f1, "root_binding", if identity.Some? then Some(identity.value.1) else None, key);
    var f2 := InsertText(f1, "root_binding", if identity.Some? then Some(identity.value.1) else None);
    if RecoveryIdentity(r).Some? { FindInsert(f2, key, RecoveryIdentity(r).value, key); }
  }

  lemma RecoveryFinds(r: InboxRecord, key: string)
    requires NamesRecovery(r) && key in {"library_id", "root_binding", "scope"}
    ensures RecoveryIdentity(r).Some? && Get(RecoveryIdentity(r).value, key) == Get(r.payload, key)
  {
    hide Find, Object, ValidLibraryId, ValidRootBinding;
    var library, root := AsStr(Get(r.payload, "library_id")).value, AsStr(Get(r.payload, "root_binding")).value;
    var scope := AsStr(Get(r.payload, "scope")).value;
    var fields := [Field("library_id", Str(library)), Field("root_binding", Str(root)), Field("scope", Str(scope))];
    ObjectFinds(fields, 0);
    ObjectFinds(fields, 1);
    ObjectFinds(fields, 2);
  }

  /** A receipt repeats what a recovery was asked for exactly when the request is complete. */
  lemma ReceiptRecovery(r: InboxRecord, full: bool, key: string)
    requires key in {"library_id", "root_binding", "scope"}
    ensures var shown := Get(OperationSnapshot(r, full), "recovery_identity");
            && (shown.Some? <==> NamesRecovery(r))
            && (shown.Some? ==> Get(shown.value, key) == Get(r.payload, key))
  {
    hide Find, WithIdentity, WithMarks, ReceiptCore, LibraryIdAt, RootBindingAt;
    CoreHasNoIdentity(r, full, "recovery_identity");
    RecoveryInserted(r, ReceiptCore(r, full));
    MarksLeave(r, full, WithIdentity(r, ReceiptCore(r, full)), "recovery_identity");
    if NamesRecovery(r) { RecoveryFinds(r, key); }
  }

  // ---- bounds ----

  /** At most n fields taking at most `bytes` bytes. */
  predicate Within(fields: seq<Field>, n: nat, bytes: nat) {
    |fields| <= n && FieldsSize(fields) <= bytes
  }

  lemma InsertWithin(fields: seq<Field>, n: nat, bytes: nat, key: string, value: Json, bound: nat)
    requires Within(fields, n, bytes) && Size(value) <= bound
    ensures Within(Insert(fields, key, value), n + 1, bytes + 6 * |key| + 3 + bound)
  {
    hide Size, Insert, FieldsSize;
    InsertSize(fields, key, value);
    TextSizeBound(key);
  }

  lemma ObjectWithin(fields: seq<Field>, n: nat, bytes: nat)
    requires Within(fields, n, bytes) && n > 0
    ensures Size(Obj(fields)) <= bytes + n + 1
  {
    hide FieldsSize;
  }

  lemma TextWithin(s: string, bound: nat)
    requires |s| <= bound || TextBytes(s) <= bound
    ensures Size(Str(s)) <= 6 * bound + 2
  {
    TextSizeBound(s);
  }

  /** Compact summaries never exceed their limit. */
  lemma CompactSummarySize(result: Json)
    ensures Size(CompactSummary(result)) <= MAX_COMPACT_RESULT_BYTES
  {
    hide AddIfSmall, CompactIdentity, CompactField, FieldsSize;
    IncompleteSize();
  }

  lemma IncompleteSize()
    ensures Size(Obj([Field("incomplete", Bool(true))])) <= 100
  {
    TextSizeBound("incomplete");
    assert [Field("incomplete", Bool(true))][1..] == [];
  }

  lemma KindWithin(kind: string)
    ensures TextSize(BoundedKind(kind)) <= MAX_KIND_BYTES
  {
    hide BoundedString;
    BoundedStringSpec(kind, MAX_KIND_BYTES);
  }

  lemma ErrorWithin(error: Option<string>)
    ensures Size(ErrorJson(BoundedError(error))) <= MAX_ERROR_BYTES
  {
    hide BoundedString;
    if error.Some? { BoundedStringSpec(error.value, MAX_ERROR_BYTES); }
  }

  const CORE_BYTES: nat := 2000
  const EXTRA_BYTES: nat := 5000

  lemma StatusWithin(status: Status)
    ensures Size(Str(StatusName(status))) <= 128
  {
    hide StatusName;
    TextWithin(StatusName(status), 21);
  }

  lemma ReceiptCoreWithin(r: InboxRecord, full: bool)
    ensures Within(ReceiptCore(r, full), 9, CORE_BYTES + Size(ReceiptResult(r, full)))
  {
    hide Insert, ReceiptResult, BoundedKind, BoundedError, StatusName, Size, FieldsSize, Within;
    KindWithin(r.kind);
    StringSize(BoundedKind(r.kind));
    StatusWithin(r.status);
    ErrorWithin(r.error);
    NothingWithin();
    Unsigned64Size(r.seq_);
    Unsigned64Size(r.createdAt);
    Unsigned64Size(r.updatedAt);
    Unsigned64Size(r.attempts);
    Unsigned64Size(r.nextAttemptAt);
    var f0 := Insert([], "seq", Unsigned64(r.seq_));
    InsertWithin([], 0, 0, "seq", Unsigned64(r.seq_), 20);
    var f1 := Insert(f0, "kind", Str(BoundedKind(r.kind)));
    InsertWithin(f0, 1, 41, "kind", Str(BoundedKind(r.kind)), 128);
    var f2 := Insert(f1, "status", Str(StatusName(r.status)));
    InsertWithin(f1, 2, 196, "status", Str(StatusName(r.status)), 128);
    var f3 := Insert(f2, "created_at", Unsigned64(r.createdAt));
    InsertWithin(f2, 3, 363, "created_at", Unsigned64(r.createdAt), 20);
    var f4 := Insert(f3, "updated_at", Unsigned64(r.updatedAt));
    InsertWithin(f3, 4, 446, "updated_at", Unsigned64(r.updatedAt), 20);
    var f5 := Insert(f4, "attempts", Unsigned64(r.attempts));
    InsertWithin(f4, 5, 529, "attempts", Unsigned64(r.attempts), 20);
    var f6 := Insert(f5, "next_attempt_at", Unsigned64(r.nextAttemptAt));
    InsertWithin(f5, 6, 600, "next_attempt_at", Unsigned64(r.nextAttemptAt), 20);
    var size := Size(ReceiptResult(r, full));
    var f7 := Insert(f6, "result", ReceiptResult(r, full));
    InsertWithin(f6, 7, 713, "result", ReceiptResult(r, full), size);
    InsertWithin(f7, 8, 752 + size, "error", ErrorJson(BoundedError(r.error)), MAX_ERROR_BYTES);
    WithinWeaken(ReceiptCore(r, full), 9, 9, 1809 + size, CORE_BYTES + size);
  }

  lemma NothingWithin()
    ensures Within([], 0, 0)
  {
  }

  lemma StringSize(s: string)
    ensures Size(Str(s)) == TextSize(s)
  {
  }

  lemma WithinWeaken(fields: seq<Field>, n: nat, m: nat, bytes: nat, more: nat)
    requires Within(fields, n, bytes) && n <= m && bytes <= more
    ensures Within(fields, m, more)
  {
  }

  lemma InsertIfWithin(fields: seq<Field>, n: nat, bytes: nat, condition: bool, key: string, value: Json, bound: nat)
    requires Within(fields, n, bytes) && (condition ==> Size(value) <= bound)
    ensures Within(InsertIf(fields, condition, key, value), n + 1, bytes + 6 * |key| + 3 + bound)
  {
    hide Insert, Size, FieldsSize;
    if condition { InsertWithin(fields, n, bytes, key, value, bound); }
  }

  lemma InsertTextWithin(fields: seq<Field>, n: nat, bytes: nat, key: string, text: Option<string>, bound: nat)
    requires Within(fields, n, bytes) && (text.Some? ==> TextSize(text.value) <= bound)
    ensures Within(InsertText(fields, key, text), n + 1, bytes + 6 * |key| + 3 + bound)
  {
    hide Insert, TextSize, FieldsSize;
    if text.Some? { InsertWithin(fields, n, bytes, key, Str(text.value), bound); }
  }

  lemma RootBindingSize(s: string)
    requires ValidRootBinding(s)
    ensures TextSize(s) <= 404
  {
    TextSizeBound(s);
  }

  lemma RequestIdSize(r: InboxRecord)
    ensures FilePreviewRequestId(r).Some? ==> TextSize(FilePreviewRequestId(r).value) <= 1538
  {
    hide EscapedText;
    if FilePreviewRequestId(r).Some? { TextSizeBound(FilePreviewRequestId(r).value); }
  }

  lemma IdentitySize(r: InboxRecord)
    ensures FilePreviewIdentity(r).Some? ==>
              && TextSize(FilePreviewIdentity(r).value.0) <= MAX_LIBRARY_ID_JSON_BYTES
              && TextSize(FilePreviewIdentity(r).value.1) <= 404
  {
    hide TextSize, ValidRootBinding;
    if FilePreviewIdentity(r).Some? { RootBindingSize(FilePreviewIdentity(r).value.1); }
  }

  lemma ThreeFieldsWithin(a: Field, b: Field, c: Field, x: nat, y: nat, z: nat)
    requires Size(a.value) <= x && Size(b.value) <= y && Size(c.value) <= z
    ensures Within(Object([a, b, c]), 3, 6 * (|a.key| + |b.key| + |c.key|) + 9 + x + y + z)
  {
    hide Insert, Size, FieldsSize, Within;
    NothingWithin();
    var s := [a, b, c];
    assert s[..2] == [a, b] && [a, b][..1] == [a] && [a][..0] == [];
    var o1, o2 := Object([a]), Object([a, b]);
    assert o1 == Insert(Object([]), a.key, a.value) && o2 == Insert(o1, b.key, b.value);
    InsertWithin([], 0, 0, a.key, a.value, x);
    InsertWithin(o1, 1, 6 * |a.key| + 3 + x, b.key, b.value, y);
    InsertWithin(o2, 2, 6 * (|a.key| + |b.key|) + 6 + x + y, c.key, c.value, z);
  }

  lemma RecoveryIdentitySize(r: InboxRecord)
    ensures RecoveryIdentity(r).Some? ==> Size(RecoveryIdentity(r).value) <= 1500
  {
    hide Object, Insert, Size, FieldsSize, TextSize, ValidRootBinding, Within;
    if RecoveryIdentity(r).Some? {
      var library, root, scope :=
        AsStr(Get(r.payload, "library_id")).value, AsStr(Get(r.payload, "root_binding")).value,
        AsStr(Get(r.payload, "scope")).value;
      RootBindingSize(root);
      StringSize(library);
      StringSize(root);
      TextWithin(scope, 8);
      var a, b, c := Field("library_id", Str(library)), Field("root_binding", Str(root)), Field("scope", Str(scope));
      ThreeFieldsWithin(a, b, c, MAX_LIBRARY_ID_JSON_BYTES, 404, 50);
      ObjectWithin(Object([a, b, c]), 3, 6 * 27 + 9 + MAX_LIBRARY_ID_JSON_BYTES + 454);
    }
  }

  lemma TrueSize()
    ensures Size(Bool(true)) == 4
  {
  }

  lemma ReceiptExtrasWithin(r: InboxRecord, full: bool, core: seq<Field>, bytes: nat)
    requires Within(core, 9, bytes)
    ensures Within(ReceiptExtras(r, full, core), 17, bytes + EXTRA_BYTES)
  {
    hide Insert, InsertIf, InsertText, Size, FieldsSize, TextSize, Within, RecoveryIdentity, FilePreviewIdentity,
         FilePreviewRequestId, BoundedKind, BoundedError;
    RequestIdSize(r);
    IdentitySize(r);
    RecoveryIdentitySize(r);
    TrueSize();
    var identity := FilePreviewIdentity(r);
    var compacted := !full && r.kind != "library_scan" && r.result.Some?;
    var f0 := InsertText(core, "request_id", FilePreviewRequestId(r));
    InsertTextWithin(core, 9, bytes, "request_id", FilePreviewRequestId(r), 1538);
    var library := if identity.Some? then Some(identity.value.0) else None;
    var f1 := InsertText(f0, "library_id", library);
    InsertTextWithin(f0, 10, bytes + 1601, "library_id", library, MAX_LIBRARY_ID_JSON_BYTES);
    var root := if identity.Some? then Some(identity.value.1) else None;
    var f2 := InsertText(f1, "root_binding", root);
    InsertTextWithin(f1, 11, bytes + 2434, "root_binding", root, 404);
    var recovery := RecoveryIdentity(r);
    var f3 := if recovery.Some? then Insert(f2, "recovery_identity", recovery.value) else f2;
    if recovery.Some? { InsertWithin(f2, 12, bytes + 2913, "recovery_identity", recovery.value, 1500); }
    else { WithinWeaken(f2, 12, 13, bytes + 2913, bytes + 4518); }
    var f4 := InsertIf(f3, compacted, "details_incomplete", Bool(true));
    InsertIfWithin(f3, 13, bytes + 4518, compacted, "details_incomplete", Bool(true), 4);
    var f5 := InsertIf(f4, compacted, "result_truncated", Bool(true));
    InsertIfWithin(f4, 14, bytes + 4633, compacted, "result_truncated", Bool(true), 4);
    var f6 := InsertIf(f5, BoundedKind(r.kind) != r.kind, "kind_truncated", Bool(true));
    InsertIfWithin(f5, 15, bytes + 4736, BoundedKind(r.kind) != r.kind, "kind_truncated", Bool(true), 4);
    InsertIfWithin(f6, 16, bytes + 4827, BoundedError(r.error) != r.error, "error_truncated", Bool(true), 4);
    WithinWeaken(ReceiptExtras(r, full, core), 17, 17, bytes + 4924, bytes + EXTRA_BYTES);
  }

  const ENVELOPE_BYTES: nat := CORE_BYTES + EXTRA_BYTES + 18

  /** A receipt takes a fixed overhead beside its result. */
  lemma OperationSnapshotSize(r: InboxRecord, full: bool)
    ensures Size(OperationSnapshot(r, full)) <= ENVELOPE_BYTES + Size(ReceiptResult(r, full))
  {
    hide ReceiptCore, ReceiptExtras, ReceiptResult, Size, Within, FieldsSize;
    ReceiptCoreWithin(r, full);
    var bytes := CORE_BYTES + Size(ReceiptResult(r, full));
    ReceiptExtrasWithin(r, full, ReceiptCore(r, full), bytes);
    ObjectWithin(ReceiptExtras(r, full, ReceiptCore(r, full)), 17, bytes + EXTRA_BYTES);
  }

  lemma CompactReceiptSize(r: InboxRecord)
    requires r.kind != "library_scan"
    ensures Size(OperationSnapshot(r, false)) <= 10_000
  {
    hide OperationSnapshot, CompactSummary;
    OperationSnapshotSize(r, false);
    if r.result.Some? { CompactSummarySize(r.result.value); }
  }
}
