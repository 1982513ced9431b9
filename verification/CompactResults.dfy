/** What survives in the compact summary of a result: every short field, because they always fit together. */
module CompactResults {
  import opened Bytes
  import opened Json
  import opened SnapshotRecords

  /** No character of the key needs escaping. */
  predicate PlainKey(key: string) {
    forall i :: 0 <= i < |key| ==> 0x20 <= key[i] as int < 0x80 && key[i] as int != 0x22 && key[i] as int != 0x5C
  }

  lemma {:induction false} PlainSize(key: string)
    requires PlainKey(key)
    ensures EscapedText(key) == |key|
  {
    if key != [] { PlainSize(key[1..]); }
  }

  lemma PlainInsertWithin(fields: seq<Field>, n: nat, bytes: nat, key: string, value: Json, bound: nat)
    requires Within(fields, n, bytes) && Size(value) <= bound && PlainKey(key)
    ensures Within(Insert(fields, key, value), n + 1, bytes + |key| + 3 + bound)
  {
    hide Size, Insert, FieldsSize, PlainKey, EscapedText;
    InsertSize(fields, key, value);
    PlainSize(key);
  }

  /** A field that fits is added and changes no other. */
  lemma AddFits(summary: seq<Field>, n: nat, bytes: nat, key: string, value: Option<Json>, bound: nat, other: string)
    requires Within(summary, n, bytes) && PlainKey(key) && (value.Some? ==> Size(value.value) <= bound)
    requires bytes + |key| + 3 + bound + n + 2 <= MAX_COMPACT_RESULT_BYTES
    ensures Within(AddIfSmall(summary, key, value), n + 1, bytes + |key| + 3 + bound)
    ensures Find(AddIfSmall(summary, key, value), other) ==
            if other == key && value.Some? then value else Find(summary, other)
  {
    hide Size, Insert, Within, FieldsSize, PlainKey, Find, Remove;
    if value.None? {
      WithinWeaken(summary, n, n + 1, bytes, bytes + |key| + 3 + bound);
    } else {
      PlainInsertWithin(summary, n, bytes, key, value.value, bound);
      ObjectWithin(Insert(summary, key, value.value), n + 1, bytes + |key| + 3 + bound);
      FindInsert(summary, key, value.value, other);
    }
  }

  lemma ScalarSize(value: Json, limit: nat)
    ensures CompactScalar(value, limit).Some? ==> Size(CompactScalar(value, limit).value) <= limit
  {
    if value.Str? { BoundedStringSpec(value.text, limit); }
  }

  lemma IdentitySize(result: Json, field: string)
    ensures CompactIdentity(result, field).Some? ==> Size(CompactIdentity(result, field).value) <= MAX_IDENTITY_BYTES
  {
    hide IdentityCandidate, CompactScalar, Size;
    var candidate := IdentityCandidate(result, field);
    if candidate.Some? { ScalarSize(candidate.value, MAX_IDENTITY_BYTES); }
  }

  lemma FieldWithin(result: Json, field: string, limit: nat)
    ensures CompactField(result, field, limit).Some? ==> Size(CompactField(result, field, limit).value) <= limit
  {
    hide CompactScalar, Size, Get;
    var candidate := OrElse(Get(result, field), GetIn(Get(result, "operation"), field));
    if candidate.Some? { ScalarSize(candidate.value, limit); }
  }

  function Start(): seq<Field> {
    Object([Field("incomplete", Bool(true)), Field("reason", Str(DETAILS_OMITTED))])
  }

  lemma PlainAppend(a: string, b: string)
    requires PlainKey(a) && PlainKey(b)
    ensures PlainKey(a + b)
  {
  }

  lemma ReasonPlain()
    ensures PlainKey(DETAILS_OMITTED) && |DETAILS_OMITTED| == 83
  {
    PlainPieces();
    PlainAppend("Older operation details were omitted", " to keep the cloud state");
    PlainAppend("Older operation details were omitted" + " to keep the cloud state", " within its size limit.");
  }

  lemma PlainPieces()
    ensures PlainKey("Older operation details were omitted")
    ensures PlainKey(" to keep the cloud state") && PlainKey(" within its size limit.")
  {
  }

  lemma ReasonSize()
    ensures Size(Str(DETAILS_OMITTED)) == 85
  {
    hide PlainKey, EscapedText;
    ReasonPlain();
    PlainSize(DETAILS_OMITTED);
  }

  lemma StartWithin(key: string)
    ensures Within(Start(), 2, 112)
    ensures Find(Start(), key) ==
            if key == "incomplete" then Some(Bool(true))
            else if key == "reason" then Some(Str(DETAILS_OMITTED))
            else None
  {
    hide Size, Insert, FieldsSize, Find, Within, Start, PlainKey;
    NothingWithin();
    ReasonSize();
    TrueSize();
    StartKeysPlain();
    var f1 := Insert([], "incomplete", Bool(true));
    PlainInsertWithin([], 0, 0, "incomplete", Bool(true), 4);
    PlainInsertWithin(f1, 1, 17, "reason", Str(DETAILS_OMITTED), 86);
    FindInsert([], "incomplete", Bool(true), key);
    FindInsert(f1, "reason", Str(DETAILS_OMITTED), key);
    NothingFound(key);
    StartInserts();
  }

  lemma StartKeysPlain()
    ensures PlainKey("incomplete") && PlainKey("reason")
  {
  }

  lemma NothingFound(key: string)
    ensures Find([], key) == None
  {
  }

  lemma StartInserts()
    ensures Start() == Insert(Insert([], "incomplete", Bool(true)), "reason", Str(DETAILS_OMITTED))
  {
    hide Insert;
    var a, b := Field("incomplete", Bool(true)), Field("reason", Str(DETAILS_OMITTED));
    assert [a, b][..1] == [a] && [a][..0] == [];
    assert Object([a]) == Insert(Object([]), a.key, a.value);
    assert Object([a, b]) == Insert(Object([a]), b.key, b.value);
  }

  predicate SummaryKey(key: string) {
    key in {"preview_id", "revision", "library_id", "root_binding", "status", "error", "scanned_at"}
  }

  /** What the summary takes from the result for a key. */
  function Taken(result: Json, key: string): Option<Json> {
    if key == "preview_id" || key == "revision" then CompactIdentity(result, key)
    else CompactField(result, key, LimitOf(key))
  }

  function LimitOf(key: string): nat {
    if key == "preview_id" || key == "revision" then MAX_IDENTITY_BYTES
    else if key == "library_id" then MAX_LIBRARY_ID_JSON_BYTES
    else if key == "root_binding" then 80
    else if key == "status" then 128
    else if key == "error" then 512
    else 64
  }

  /** The summary as far as the library's identity. */
  function Identities(result: Json): seq<Field> {
    var s1 := AddIfSmall(Start(), "preview_id", CompactIdentity(result, "preview_id"));
    var s2 := AddIfSmall(s1, "revision", CompactIdentity(result, "revision"));
    var s3 := AddIfSmall(s2, "library_id", CompactField(result, "library_id", MAX_LIBRARY_ID_JSON_BYTES));
    AddIfSmall(s3, "root_binding", CompactField(result, "root_binding", 80))
  }

  lemma IdentitiesTaken(result: Json, key: string)
    ensures Within(Identities(result), 6, 1270)
    ensures Find(Identities(result), key) ==
            if key in {"preview_id", "revision", "library_id", "root_binding"} && Taken(result, key).Some? then
              Taken(result, key)
            else Find(Start(), key)
  {
    hide AddIfSmall, CompactIdentity, CompactField, Find, Size, Within, FieldsSize, PlainKey, Start;
    StartWithin(key);
    PlainKeys();
    IdentitySize(result, "preview_id");
    IdentitySize(result, "revision");
    FieldWithin(result, "library_id", MAX_LIBRARY_ID_JSON_BYTES);
    FieldWithin(result, "root_binding", 80);
    var s1 := AddIfSmall(Start(), "preview_id", CompactIdentity(result, "preview_id"));
    AddFits(Start(), 2, 112, "preview_id", CompactIdentity(result, "preview_id"), 128, key);
    var s2 := AddIfSmall(s1, "revision", CompactIdentity(result, "revision"));
    AddFits(s1, 3, 253, "revision", CompactIdentity(result, "revision"), 128, key);
    var s3 := AddIfSmall(s2, "library_id", CompactField(result, "library_id", MAX_LIBRARY_ID_JSON_BYTES));
    AddFits(s2, 4, 392, "library_id", CompactField(result, "library_id", MAX_LIBRARY_ID_JSON_BYTES), 770, key);
    AddFits(s3, 5, 1175, "root_binding", CompactField(result, "root_binding", 80), 80, key);
  }

  /** Nothing is dropped for lack of space: the seven fields always fit, each as far as its own limit allows. */
  lemma SummaryTakesAll(result: Json, key: string)
    ensures Get(CompactSummary(result), key) ==
            if SummaryKey(key) then Taken(result, key)
            else if key == "incomplete" then Some(Bool(true))
            else if key == "reason" then Some(Str(DETAILS_OMITTED))
            else None
  {
    hide AddIfSmall, CompactIdentity, CompactField, Find, Size, Within, FieldsSize, PlainKey, Start, CompactSummary;
    hide Identities;
    StartWithin(key);
    IdentitiesTaken(result, key);
    PlainKeys();
    FieldWithin(result, "status", 128);
    FieldWithin(result, "error", 512);
    FieldWithin(result, "scanned_at", 64);
    var s4 := Identities(result);
    var s5 := AddIfSmall(s4, "status", CompactField(result, "status", 128));
    AddFits(s4, 6, 1270, "status", CompactField(result, "status", 128), 128, key);
    var s6 := AddIfSmall(s5, "error", CompactField(result, "error", 512));
    AddFits(s5, 7, 1407, "error", CompactField(result, "error", 512), 512, key);
    var s7 := AddIfSmall(s6, "scanned_at", CompactField(result, "scanned_at", 64));
    AddFits(s6, 8, 1927, "scanned_at", CompactField(result, "scanned_at", 64), 64, key);
    ObjectWithin(s7, 9, 2004);
    SummaryIs(result);
  }

  lemma SummaryIs(result: Json)
    ensures var s5 := AddIfSmall(Identities(result), "status", CompactField(result, "status", 128));
            var s6 := AddIfSmall(s5, "error", CompactField(result, "error", 512));
            var s7 := AddIfSmall(s6, "scanned_at", CompactField(result, "scanned_at", 64));
            Size(Obj(s7)) <= MAX_COMPACT_RESULT_BYTES ==> CompactSummary(result) == Obj(s7)
  {
    hide AddIfSmall, CompactIdentity, CompactField, Size;
  }

  lemma PlainKeys()
    ensures PlainKey("preview_id") && PlainKey("revision") && PlainKey("library_id") && PlainKey("root_binding")
    ensures PlainKey("status") && PlainKey("error") && PlainKey("scanned_at")
  {
  }

  predicate Scalar(j: Json) { !j.Arr? && !j.Obj? }

  /**
   A summary shows the result's own identity, library, status, error and scan time, unchanged wherever
   they are scalars of an allowed size.
   */
  lemma SummaryShowsResult(result: Json, key: string)
    requires SummaryKey(key) && Get(result, key).Some?
    requires Scalar(Get(result, key).value) && Size(Get(result, key).value) <= LimitOf(key)
    ensures Get(CompactSummary(result), key) == Get(result, key)
  {
    hide CompactSummary, Get, Size;
    SummaryTakesAll(result, key);
    ShortIsExact(Get(result, key).value, LimitOf(key));
  }

  lemma ShortIsExact(value: Json, limit: nat)
    requires Scalar(value) && Size(value) <= limit
    ensures CompactScalar(value, limit) == Some(value)
  {
    if value.Str? { BoundedStringSpec(value.text, limit); }
  }
}
