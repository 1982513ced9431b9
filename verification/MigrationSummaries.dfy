/**
 Which migration plans get a summary. The size check at the end of building one never rejects: every
 complete plan is shown as a summary, however many items it has, and its samples are its own items.
 */
module MigrationSummaries {
  import opened Bytes
  import opened Json
  import opened SnapshotRecords
  import opened PreviewBudget
  import CompactResults

  // ---- sizes of literal objects ----

  function EntriesSize(entries: seq<Field>): nat {
    if entries == [] then 0 else EntrySize(entries[0].key, entries[0].value) + EntriesSize(entries[1..])
  }

  lemma {:induction false} EntriesAppend(a: seq<Field>, b: seq<Field>)
    ensures EntriesSize(a + b) == EntriesSize(a) + EntriesSize(b)
  {
    hide EntrySize;
    if a == [] {
      assert a + b == b;
    } else {
      assert (a + b)[1..] == a[1..] + b;
      EntriesAppend(a[1..], b);
    }
  }

  lemma {:induction false} ObjectSize(entries: seq<Field>)
    ensures FieldsSize(Object(entries)) <= EntriesSize(entries) && |Object(entries)| <= |entries|
  {
    hide EntrySize, Insert;
    if entries != [] {
      var init, last := entries[..|entries| - 1], entries[|entries| - 1];
      ObjectSize(init);
      InsertSize(Object(init), last.key, last.value);
      EntriesAppend(init, [last]);
      assert init + [last] == entries && [last][1..] == [];
    }
  }

  /** Entries with keys of at most `key` characters and values of at most `value` bytes. */
  predicate Bounded(entries: seq<Field>, key: nat, value: nat) {
    forall i :: 0 <= i < |entries| ==> |entries[i].key| <= key && Size(entries[i].value) <= value
  }

  lemma {:induction false} BoundedSize(entries: seq<Field>, key: nat, value: nat)
    requires Bounded(entries, key, value)
    ensures EntriesSize(entries) <= |entries| * (6 * key + 3 + value)
  {
    hide Size;
    if entries != [] {
      BoundedSize(entries[1..], key, value);
      TextSizeBound(entries[0].key);
      assert EntrySize(entries[0].key, entries[0].value) <= 6 * key + 3 + value;
      assert |entries| * (6 * key + 3 + value) == (6 * key + 3 + value) + (|entries| - 1) * (6 * key + 3 + value);
    }
  }

  lemma ObjSize(entries: seq<Field>, bytes: nat)
    requires entries != [] && EntriesSize(entries) <= bytes
    ensures Size(Obj(Object(entries))) <= bytes + |entries| + 1
  {
    hide Object, FieldsSize, EntriesSize;
    ObjectSize(entries);
  }

  // ---- what a plan must have ----

  /** A text that needs no shortening. */
  predicate ShortText(j: Option<Json>, limit: nat) { j.Some? && j.value.Str? && Size(j.value) <= limit }

  predicate Truth(j: Option<Json>) { j.Some? && j.value.Bool? }

  predicate Counter(j: Option<Json>) { AsNat(j).Some? && Size(j.value) <= 32 }

  predicate RootToken(j: Option<Json>) { ShortText(j, 80) && ValidRootBinding(j.value.text) }

  predicate Named(result: Json) {
    && ShortText(Get(result, "id"), MAX_IDENTITY_BYTES) && ShortText(Get(result, "revision"), MAX_IDENTITY_BYTES)
    && IdentityCandidate(result, "preview_id") == Get(result, "id")
    && ShortText(Get(result, "source_library_id"), 256) && ShortText(Get(result, "target_library_id"), 256)
    && RootToken(Get(result, "source_root_binding")) && RootToken(Get(result, "target_root_binding"))
    && ShortText(Get(result, "scope"), 64) && ShortText(Get(result, "conflict"), 64)
    && Truth(Get(result, "include_incomplete_tasks")) && Truth(Get(result, "set_target_default_on_success"))
  }

  predicate Counted(result: Json) { forall i :: 0 <= i < |AGGREGATES| ==> Counter(Get(result, AGGREGATES[i])) }

  /** An item that cannot be shown for what it is: its texts are there, but something else is not as expected. */
  predicate Broken(item: Json, ids: seq<Json>) {
    && AsStr(Get(item, "item_id")).Some? && AsStr(Get(item, "source_path")).Some?
    && AsStr(Get(item, "target_path")).Some?
    && !(Get(item, "item_id").value in ids && AsNat(Get(item, "bytes")).Some? && Truth(Get(item, "conflict"))
         && (Get(item, "status") == Some(Str("skipped")) || Get(item, "status") == Some(Str("copying"))))
  }

  predicate Itemized(result: Json) {
    var items, ids := AsItems(Get(result, "items")), AsItems(Get(result, "item_ids"));
    && items.Some? && ids.Some? && |ids.value| == |items.value|
    && AsNat(Get(result, "item_count")) == Some(|items.value|)
    && (forall i :: 0 <= i < |ids.value| ==> ids.value[i].Str?)
    && AsItems(Get(result, "warnings")).Some?
    && Get(result, "item_conflicts").Some? && Get(result, "item_conflicts").value.Obj?
    && (forall i :: 0 <= i < |items.value| && i < MAX_SAMPLE_ITEMS ==> !Broken(items.value[i], ids.value))
  }

  predicate Complete(result: Json) { Named(result) && Counted(result) && Itemized(result) }

  /** Lengths fit a `usize` and byte counts 64 bits, as the code's types have it. */
  predicate MachineSized(r: InboxRecord, result: Json) {
    var items, warnings, conflicts := AsItems(Get(result, "items")), AsItems(Get(result, "warnings")),
                                      Get(result, "item_conflicts");
    && (items.Some? ==> |items.value| <= U64_MAX
                        && forall i :: 0 <= i < |items.value| && AsNat(Get(items.value[i], "bytes")).Some? ==>
                             AsNat(Get(items.value[i], "bytes")).value <= U64_MAX)
    && (warnings.Some? ==> |warnings.value| <= U64_MAX)
    && (conflicts.Some? && conflicts.value.Obj? ==> |conflicts.value.fields| <= U64_MAX)
    && (AsNat(Get(result, "file_count")).Some? ==> AsNat(Get(result, "file_count")).value <= U64_MAX)
  }

  // ---- exact fields ----

  lemma StrExactly(text: string, limit: nat)
    ensures CompactScalar(Str(text), limit) == Some(Str(text)) <==> TextSize(text) <= limit
  {
    hide TextSize, BoundedString;
    BoundedStringSpec(text, limit);
  }

  lemma ExactText(result: Json, field: string, limit: nat)
    ensures IsStr(Exact(result, field, limit)) <==> ShortText(Get(result, field), limit)
    ensures Exact(result, field, limit).Some? ==>
              Exact(result, field, limit) == Get(result, field) && Size(Exact(result, field, limit).value) <= limit
  {
    hide Get, CompactScalar, TextSize;
    var candidate := Get(result, field);
    if candidate.Some? {
      CompactResults.ScalarSize(candidate.value, limit);
      if candidate.value.Str? { StrExactly(candidate.value.text, limit); }
    }
  }

  lemma ExactBool(result: Json, field: string)
    ensures IsBool(Exact(result, field, 8)) <==> Truth(Get(result, field))
  {
    hide Get;
  }

  lemma ExactCounter(result: Json, field: string)
    ensures AsNat(Exact(result, field, 32)).Some? <==> Counter(Get(result, field))
    ensures Exact(result, field, 32).Some? ==> Exact(result, field, 32) == Get(result, field)
  {
    hide Get, DecimalDigits, BoundedString;
  }

  lemma SameIdentity(result: Json)
    requires ShortText(Get(result, "id"), MAX_IDENTITY_BYTES) && ShortText(Get(result, "revision"), MAX_IDENTITY_BYTES)
    ensures CompactIdentity(result, "preview_id") == Get(result, "id") <==>
              IdentityCandidate(result, "preview_id") == Get(result, "id")
    ensures CompactIdentity(result, "revision") == Get(result, "revision")
  {
    hide Get, TextSize, BoundedString;
    StrExactly(Get(result, "id").value.text, MAX_IDENTITY_BYTES);
    StrExactly(Get(result, "revision").value.text, MAX_IDENTITY_BYTES);
  }

  lemma ScalarsExactly(result: Json)
    ensures MigrationScalars(result).Some? <==> Named(result)
  {
    hide Exact, Get, ShortText, Truth, CompactIdentity, IdentityCandidate, ValidRootBinding, EntriesSize, Size;
    ExactText(result, "id", MAX_IDENTITY_BYTES);
    ExactText(result, "revision", MAX_IDENTITY_BYTES);
    ExactText(result, "source_library_id", 256);
    ExactText(result, "target_library_id", 256);
    ExactText(result, "source_root_binding", 80);
    ExactText(result, "target_root_binding", 80);
    ExactText(result, "scope", 64);
    ExactText(result, "conflict", 64);
    ExactText(result, "include_incomplete_tasks", 8);
    ExactText(result, "set_target_default_on_success", 8);
    ExactBool(result, "include_incomplete_tasks");
    ExactBool(result, "set_target_default_on_success");
    if ShortText(Get(result, "id"), MAX_IDENTITY_BYTES) && ShortText(Get(result, "revision"), MAX_IDENTITY_BYTES) {
      SameIdentity(result);
    }
  }

  lemma ScalarsBounded(result: Json)
    requires MigrationScalars(result).Some?
    ensures |MigrationScalars(result).value| == 10 && EntriesSize(MigrationScalars(result).value) <= 2080
  {
    hide Exact, CompactIdentity, ValidRootBinding, EntriesSize, Size;
    ExactText(result, "id", MAX_IDENTITY_BYTES);
    ExactText(result, "revision", MAX_IDENTITY_BYTES);
    ExactText(result, "source_library_id", 256);
    ExactText(result, "target_library_id", 256);
    ExactText(result, "source_root_binding", 80);
    ExactText(result, "target_root_binding", 80);
    ExactText(result, "scope", 64);
    ExactText(result, "conflict", 64);
    ExactText(result, "include_incomplete_tasks", 8);
    ExactText(result, "set_target_default_on_success", 8);
    ScalarsSize(MigrationScalars(result).value);
  }

  lemma ScalarsSize(f: seq<Field>)
    requires |f| == 10
    requires Bounded(f[..2], 8, 128) && Bounded([f[2], f[4]], 17, 256) && Bounded([f[3], f[5]], 19, 80)
    requires Bounded(f[6..8], 8, 64) && Bounded(f[8..], 29, 8)
    ensures EntriesSize(f) <= 2080
  {
    hide Bounded, EntriesSize;
    BoundedSize(f[..2], 8, 128);
    BoundedSize([f[2], f[4]], 17, 256);
    BoundedSize([f[3], f[5]], 19, 80);
    BoundedSize(f[6..8], 8, 64);
    BoundedSize(f[8..], 29, 8);
    Interleaved(f[2], f[3], f[4], f[5]);
    EntriesAppend(f[6..8], f[8..]);
    EntriesAppend([f[2], f[3], f[4], f[5]], f[6..8] + f[8..]);
    EntriesAppend(f[..2], [f[2], f[3], f[4], f[5]] + (f[6..8] + f[8..]));
    assert f == f[..2] + ([f[2], f[3], f[4], f[5]] + (f[6..8] + f[8..]));
  }

  lemma Interleaved(a: Field, b: Field, c: Field, d: Field)
    ensures EntriesSize([a, b, c, d]) == EntriesSize([a, c]) + EntriesSize([b, d])
  {
    hide EntriesSize;
    assert [a, b, c, d] == [a, b] + [c, d] && [a, b] == [a] + [b] && [c, d] == [c] + [d];
    assert [a, c] == [a] + [c] && [b, d] == [b] + [d];
    EntriesAppend([a, b], [c, d]);
    EntriesAppend([a], [b]);
    EntriesAppend([c], [d]);
    EntriesAppend([a], [c]);
    EntriesAppend([b], [d]);
  }

  lemma {:induction false} AggregatesExactly(result: Json, names: seq<string>)
    requires forall i :: 0 <= i < |names| ==> |names[i]| <= 21
    ensures Aggregates(result, names).Some? <==> forall i :: 0 <= i < |names| ==> Counter(Get(result, names[i]))
    ensures Aggregates(result, names).Some? ==>
              |Aggregates(result, names).value| == |names| && Bounded(Aggregates(result, names).value, 21, 32)
  {
    hide Exact, Get, Counter, Size;
    if names != [] {
      var rest := names[1..];
      AggregatesExactly(result, rest);
      ExactCounter(result, names[0]);
      ExactText(result, names[0], 32);
      assert forall i :: 0 < i < |names| ==> names[i] == rest[i - 1];
      assert forall i :: 0 <= i < |rest| ==> rest[i] == names[i + 1];
    }
  }

  lemma AggregateNames()
    ensures |AGGREGATES| == 8 && forall i :: 0 <= i < |AGGREGATES| ==> |AGGREGATES[i]| <= 21
  {
  }

  // ---- samples ----

  /** What a sample says of its item. */
  predicate Shows(shown: Json, item: Json) {
    && Get(shown, "bytes") == Get(item, "bytes") && Get(shown, "conflict") == Get(item, "conflict")
    && Get(shown, "status") == Get(item, "status")
    && Get(shown, "outcome") == Some(Str(if Get(item, "status") == Some(Str("skipped")) then "skip" else "move"))
    && Shortened(Get(shown, "item_id"), Get(item, "item_id"), MAX_SAMPLE_ID_BYTES)
    && Shortened(Get(shown, "source_path"), Get(item, "source_path"), MAX_SAMPLE_PATH_BYTES)
    && Shortened(Get(shown, "target_path"), Get(item, "target_path"), MAX_SAMPLE_PATH_BYTES)
  }

  /** The text itself if it is short enough, and otherwise a beginning of it. */
  predicate Shortened(shown: Option<Json>, text: Option<Json>, limit: nat) {
    && AsStr(shown).Some? && AsStr(text).Some?
    && (if TextSize(AsStr(text).value) <= limit then shown == text
        else exists n :: 0 <= n < |AsStr(text).value| && AsStr(shown).value == AsStr(text).value[..n] + ELLIPSIS)
  }

  function Parts(id: string, source: string, target: string, bytes: nat, conflict: Json, status: string): seq<Field> {
    [Field("item_id", Str(id)), Field("source_path", Str(source)), Field("target_path", Str(target)),
     Field("bytes", Unsigned64(bytes)), Field("conflict", conflict), Field("status", Str(status)),
     Field("outcome", Str(if status == "skipped" then "skip" else "move"))]
  }

  lemma PartsFind(id: string, source: string, target: string, bytes: nat, conflict: Json, status: string)
    ensures var shown := Obj(Object(Parts(id, source, target, bytes, conflict, status)));
            && Get(shown, "item_id") == Some(Str(id)) && Get(shown, "source_path") == Some(Str(source))
            && Get(shown, "target_path") == Some(Str(target)) && Get(shown, "bytes") == Some(Unsigned64(bytes))
            && Get(shown, "conflict") == Some(conflict) && Get(shown, "status") == Some(Str(status))
            && Get(shown, "outcome") == Some(Str(if status == "skipped" then "skip" else "move"))
  {
    hide Find, Object;
    var fields := Parts(id, source, target, bytes, conflict, status);
    ObjectFinds(fields, 0);
    ObjectFinds(fields, 1);
    ObjectFinds(fields, 2);
    ObjectFinds(fields, 3);
    ObjectFinds(fields, 4);
    ObjectFinds(fields, 5);
    ObjectFinds(fields, 6);
  }

  lemma WordSize(word: string)
    requires |word| <= 7
    ensures Size(Str(word)) <= 44
  {
    TextSizeBound(word);
  }

  lemma PartsSize(id: string, source: string, target: string, bytes: nat, conflict: Json, status: string)
    requires TextSize(id) <= 128 && TextSize(source) <= 384 && TextSize(target) <= 384 && bytes <= U64_MAX
    requires conflict.Bool? && (status == "skipped" || status == "copying")
    ensures Size(Obj(Object(Parts(id, source, target, bytes, conflict, status)))) <= 1470
  {
    hide EntriesSize, TextSize, Object, Size;
    var f := Parts(id, source, target, bytes, conflict, status);
    StrSize(id);
    StrSize(source);
    StrSize(target);
    Unsigned64Size(bytes);
    WordSize(status);
    WordSize(if status == "skipped" then "skip" else "move");
    TruthSize(conflict);
    BoundedSize(f[..1], 7, 128);
    BoundedSize(f[1..3], 11, 384);
    BoundedSize(f[3..], 8, 44);
    EntriesAppend(f[..1], f[1..3]);
    EntriesAppend(f[..3], f[3..]);
    assert f[..1] + f[1..3] == f[..3] && f[..3] + f[3..] == f;
    ObjSize(f, 1460);
  }

  lemma StrSize(s: string)
    ensures Size(Str(s)) == TextSize(s)
  {
  }

  lemma TruthSize(j: Json)
    requires j.Bool?
    ensures Size(j) <= 5
  {
  }

  lemma Shortens(text: string, limit: nat)
    requires limit >= 5
    ensures BoundedString(text, limit).Some? && TextSize(BoundedString(text, limit).value) <= limit
    ensures Shortened(Some(Str(BoundedString(text, limit).value)), Some(Str(text)), limit)
  {
    hide TextSize, BoundedString;
    BoundedStringSpec(text, limit);
  }

  /** One item: rejected exactly when it is broken, skipped exactly when a text is missing, else shown as it is. */
  lemma SampleExactly(item: Json, ids: seq<Json>)
    requires AsNat(Get(item, "bytes")).Some? ==> AsNat(Get(item, "bytes")).value <= U64_MAX
    ensures var sample := SampleItem(item, ids);
            && (sample.Reject? <==> Broken(item, ids))
            && (sample.Show? ==> Shows(sample.item, item) && Size(sample.item) <= 1470)
  {
    hide Get, Object, Size, TextSize, BoundedString, Shortened;
    var id, source, target :=
      AsStr(Get(item, "item_id")), AsStr(Get(item, "source_path")), AsStr(Get(item, "target_path"));
    if id.Some? && source.Some? && target.Some? {
      Shortens(id.value, MAX_SAMPLE_ID_BYTES);
      Shortens(source.value, MAX_SAMPLE_PATH_BYTES);
      Shortens(target.value, MAX_SAMPLE_PATH_BYTES);
      HasStringIn(ids, id.value);
      var sample := SampleItem(item, ids);
      if sample.Show? {
        var boundId, boundSource := BoundedString(id.value, MAX_SAMPLE_ID_BYTES).value,
                                    BoundedString(source.value, MAX_SAMPLE_PATH_BYTES).value;
        var boundTarget := BoundedString(target.value, MAX_SAMPLE_PATH_BYTES).value;
        var bytes, status := AsNat(Get(item, "bytes")).value, AsStr(Get(item, "status")).value;
        PartsFind(boundId, boundSource, boundTarget, bytes, Get(item, "conflict").value, status);
        PartsSize(boundId, boundSource, boundTarget, bytes, Get(item, "conflict").value, status);
      }
    }
  }

  lemma HasStringIn(ids: seq<Json>, text: string)
    ensures HasString(ids, text) <==> Str(text) in ids
  {
  }

  /** The samples are taken from the items in order: each shows the item at its position. */
  predicate ShowsInOrder(shown: seq<Json>, items: seq<Json>, at: seq<nat>) {
    && |at| == |shown| && (forall k :: 0 <= k < |at| ==> at[k] < |items| && Shows(shown[k], items[at[k]]))
    && (forall j, k :: 0 <= j < k < |at| ==> at[j] < at[k])
  }

  predicate MachineItems(items: seq<Json>) {
    forall i :: 0 <= i < |items| && AsNat(Get(items[i], "bytes")).Some? ==>
      AsNat(Get(items[i], "bytes")).value <= U64_MAX
  }

  function Next(n: nat): nat { n + 1 }

  function Moved(at: seq<nat>): (r: seq<nat>)
    ensures |r| == |at| && forall k :: 0 <= k < |r| ==> r[k] == at[k] + 1
  {
    seq(|at|, k requires 0 <= k < |at| => Next(at[k]))
  }

  lemma SkipShows(shown: seq<Json>, items: seq<Json>, later: seq<nat>)
    requires items != [] && ShowsInOrder(shown, items[1..], later)
    ensures ShowsInOrder(shown, items, Moved(later))
  {
    hide Shows;
  }

  lemma ConsShows(first: Json, shown: seq<Json>, items: seq<Json>, later: seq<nat>)
    requires items != [] && Shows(first, items[0]) && ShowsInOrder(shown, items[1..], later)
    ensures ShowsInOrder([first] + shown, items, [0] + Moved(later))
  {
    hide Shows;
  }

  lemma {:induction false} SamplesInOrder(items: seq<Json>, ids: seq<Json>) returns (at: seq<nat>)
    requires MachineItems(items) && Samples(items, ids).Some?
    ensures ShowsInOrder(Samples(items, ids).value.0, items, at)
  {
    hide SampleItem, Shows, Size, Get, ShowsInOrder;
    if items == [] {
      at := [];
      NothingShown();
    } else {
      SampleExactly(items[0], ids);
      MachineRest(items);
      var later := SamplesInOrder(items[1..], ids);
      match SampleItem(items[0], ids)
      case Show(item, exact) =>
        at := [0] + Moved(later);
        ConsShows(item, Samples(items[1..], ids).value.0, items, later);
      case Skip =>
        at := Moved(later);
        SkipShows(Samples(items[1..], ids).value.0, items, later);
    }
  }

  lemma NothingShown()
    ensures ShowsInOrder([], [], [])
  {
  }

  lemma MachineRest(items: seq<Json>)
    requires items != [] && MachineItems(items)
    ensures MachineItems(items[1..])
    ensures AsNat(Get(items[0], "bytes")).Some? ==> AsNat(Get(items[0], "bytes")).value <= U64_MAX
  {
    hide Get;
  }

  lemma {:induction false} SamplesExactly(items: seq<Json>, ids: seq<Json>)
    requires MachineItems(items)
    ensures Samples(items, ids).Some? <==> forall i :: 0 <= i < |items| ==> !Broken(items[i], ids)
    ensures Samples(items, ids).Some? ==>
              var shown := Samples(items, ids).value.0;
              |shown| <= |items| && forall k :: 0 <= k < |shown| ==> Size(shown[k]) <= 1470
  {
    hide SampleItem, Broken, Shows, Size, Get;
    if items != [] {
      var rest := items[1..];
      assert forall i :: 0 <= i < |rest| ==> rest[i] == items[i + 1];
      assert forall i :: 0 < i < |items| ==> items[i] == rest[i - 1];
      MachineRest(items);
      SamplesExactly(rest, ids);
      SampleExactly(items[0], ids);
    }
  }

  // ---- the summary ----

  lemma CountsSize(ids: nat, conflicts: nat, warnings: nat, items: nat, files: nat, samples: (seq<Json>, nat))
    requires ids <= U64_MAX && conflicts <= U64_MAX && warnings <= U64_MAX && items <= U64_MAX && files <= U64_MAX
    requires |samples.0| <= 4 && forall k :: 0 <= k < |samples.0| ==> Size(samples.0[k]) <= 1470
    ensures EntriesSize(SummaryCounts(ids, conflicts, warnings, items, files, samples)) <= 6945
  {
    hide EntriesSize, Size;
    var f := SummaryCounts(ids, conflicts, warnings, items, files, samples);
    Unsigned64Size(Max(0, ids - samples.1));
    Unsigned64Size(conflicts);
    Unsigned64Size(warnings);
    Unsigned64Size(Max(0, items - |samples.0|));
    Unsigned64Size(files);
    ItemsBound(samples.0, 1470);
    ArrSize(samples.0);
    BoundedSize(f[..5], 29, 20);
    BoundedSize(f[5..], 12, 5885);
    EntriesAppend(f[..5], f[5..]);
    assert f[..5] + f[5..] == f;
  }

  lemma ArrSize(items: seq<Json>)
    requires |items| <= 4 && ItemsSize(items) <= |items| * 1470
    ensures Size(Arr(items)) <= 5885
  {
    hide ItemsSize;
  }

  lemma EnvelopeSize(r: InboxRecord, result: Json, summary: Json)
    requires CompactIdentity(result, "preview_id").Some? && CompactIdentity(result, "revision").Some?
    requires IsMigration(r) && Size(summary) <= 10340
    ensures Size(Obj(Object(SummaryEnvelope(r, result, summary)))) <= MAX_SUMMARY_BYTES
  {
    hide EntriesSize, Size, Object, CompactIdentity;
    var f := SummaryEnvelope(r, result, summary);
    Unsigned64Size(r.seq_);
    KindSize(r);
    CompactResults.IdentitySize(result, "preview_id");
    CompactResults.IdentitySize(result, "revision");
    TextWithin(AWAITING, 21);
    TrueSize();
    TextWithin(SUMMARY_REASON, 113);
    ReasonLength();
    BoundedSize(f[..2], 4, 152);
    BoundedSize(f[2..5], 10, 128);
    BoundedSize(f[5..6], 17, 4);
    BoundedSize(f[6..7], 6, 680);
    BoundedSize(f[7..], 6, 10340);
    EntriesAppend(f[..2], f[2..5]);
    EntriesAppend(f[..5], f[5..6]);
    EntriesAppend(f[..6], f[6..7]);
    EntriesAppend(f[..7], f[7..]);
    assert f[..2] + f[2..5] == f[..5] && f[..5] + f[5..6] == f[..6];
    assert f[..6] + f[6..7] == f[..7] && f[..7] + f[7..] == f;
    ObjSize(f, 12140);
  }

  lemma ReasonLength()
    ensures |SUMMARY_REASON| <= 113 && |AWAITING| == 21
  {
  }

  lemma ResultSize(scalars: seq<Field>, counts: seq<Field>, aggregates: seq<Field>)
    requires |scalars| == 10 && EntriesSize(scalars) <= 2080
    requires |counts| == 6 && EntriesSize(counts) <= 6945
    requires |aggregates| == 8 && Bounded(aggregates, 21, 32)
    ensures Size(Obj(Object(scalars + counts + aggregates))) <= 10340
  {
    hide EntriesSize, Size, Object, Bounded;
    BoundedSize(aggregates, 21, 32);
    EntriesAppend(scalars, counts);
    EntriesAppend(scalars + counts, aggregates);
    ObjSize(scalars + counts + aggregates, 10313);
  }

  /** The first items of a plan, from which its samples are taken. */
  function FirstItems(result: Json): seq<Json>
    requires AsItems(Get(result, "items")).Some?
  {
    var items := AsItems(Get(result, "items")).value;
    items[..Min(|items|, MAX_SAMPLE_ITEMS)]
  }

  lemma FirstItemsMachine(r: InboxRecord, result: Json)
    requires MachineSized(r, result) && AsItems(Get(result, "items")).Some?
    ensures MachineItems(FirstItems(result))
  {
    hide Get;
  }

  lemma SummaryFits(r: InboxRecord, result: Json)
    requires IsMigration(r) && MachineSized(r, result) && Complete(result)
    ensures MigrationSummary(r, result).Some?
  {
    hide MigrationScalars, Aggregates, Samples, Object, Size, CompactIdentity, SummaryCounts, SummaryEnvelope;
    hide Get, Named, Broken, Counter, EntriesSize, AsItems, AsNat, MachineItems;
    ScalarsExactly(result);
    ScalarsBounded(result);
    ScalarsHaveIdentity(result);
    AggregateNames();
    AggregatesExactly(result, AGGREGATES);
    FirstItemsMachine(r, result);
    var items, ids := AsItems(Get(result, "items")).value, AsItems(Get(result, "item_ids")).value;
    SamplesExactly(FirstItems(result), ids);
    var samples := Samples(FirstItems(result), ids).value;
    var conflicts, warnings := |Get(result, "item_conflicts").value.fields|, |AsItems(Get(result, "warnings")).value|;
    FileCounter(result);
    var files := AsNat(Get(result, "file_count")).value;
    CountsSize(|ids|, conflicts, warnings, |items|, files, samples);
    var counts := SummaryCounts(|ids|, conflicts, warnings, |items|, files, samples);
    var scalars, aggregates := MigrationScalars(result).value, Aggregates(result, AGGREGATES).value;
    ResultSize(scalars, counts, aggregates);
    EnvelopeSize(r, result, Obj(Object(scalars + counts + aggregates)));
  }

  lemma FileCounter(result: Json)
    requires Counted(result)
    ensures AsNat(Get(result, "file_count")).Some?
  {
    hide Get;
    assert AGGREGATES[1] == "file_count";
    assert Counter(Get(result, AGGREGATES[1]));
  }

  lemma SummaryComplete(r: InboxRecord, result: Json)
    requires MachineSized(r, result) && MigrationSummary(r, result).Some?
    ensures Complete(result)
  {
    hide MigrationScalars, Aggregates, Samples, Object, Size, CompactIdentity, SummaryCounts, SummaryEnvelope;
    hide Get, Named, Broken, Counter, AsItems, AsNat, MachineItems;
    ScalarsExactly(result);
    AggregateNames();
    AggregatesExactly(result, AGGREGATES);
    FirstItemsMachine(r, result);
    SamplesExactly(FirstItems(result), AsItems(Get(result, "item_ids")).value);
    var first, items := FirstItems(result), AsItems(Get(result, "items")).value;
    assert forall i :: 0 <= i < |items| && i < MAX_SAMPLE_ITEMS ==> first[i] == items[i];
  }

  /** A plan is summarised exactly when it is complete: no size ever stands in the way. */
  lemma SummaryExactly(r: InboxRecord, result: Json)
    requires IsMigration(r) && MachineSized(r, result)
    ensures MigrationSummary(r, result).Some? <==> Complete(result)
  {
    hide Complete, MigrationSummary, MachineSized;
    if Complete(result) { SummaryFits(r, result); }
    if MigrationSummary(r, result).Some? { SummaryComplete(r, result); }
  }

  /** The samples of a summary are the plan's own first items, in order and with their own details. */
  lemma SamplesAreItems(r: InboxRecord, result: Json) returns (at: seq<nat>)
    requires MachineSized(r, result) && MigrationSummary(r, result).Some?
    ensures AsItems(Get(result, "items")).Some?
    ensures var summary := Get(MigrationSummary(r, result).value, "result");
            && summary.Some? && AsItems(Get(summary.value, "sample_items")).Some?
            && ShowsInOrder(AsItems(Get(summary.value, "sample_items")).value, FirstItems(result), at)
  {
    hide MigrationScalars, Aggregates, Samples, Object, Size, CompactIdentity, SummaryCounts, SummaryEnvelope;
    hide Get, AsNat, MachineItems, Shows, ShowsInOrder, MachineSized;
    FirstItemsMachine(r, result);
    at := SamplesInOrder(FirstItems(result), AsItems(Get(result, "item_ids")).value);
    SampleField(r, result);
  }

  lemma SampleField(r: InboxRecord, result: Json)
    requires MigrationSummary(r, result).Some?
    ensures AsItems(Get(result, "items")).Some? && AsItems(Get(result, "item_ids")).Some?
    ensures Samples(FirstItems(result), AsItems(Get(result, "item_ids")).value).Some?
    ensures var summary := Get(MigrationSummary(r, result).value, "result");
            && summary.Some?
            && Get(summary.value, "sample_items")
               == Some(Arr(Samples(FirstItems(result), AsItems(Get(result, "item_ids")).value).value.0))
  {
    hide MigrationScalars, Aggregates, Samples, Object, Size, CompactIdentity, Find;
    ScalarsHaveIdentity(result);
    var scalars, aggregates := MigrationScalars(result).value, Aggregates(result, AGGREGATES).value;
    var items, ids := AsItems(Get(result, "items")).value, AsItems(Get(result, "item_ids")).value;
    var samples := Samples(FirstItems(result), ids).value;
    var conflicts, warnings := |Get(result, "item_conflicts").value.fields|, |AsItems(Get(result, "warnings")).value|;
    var counts := SummaryCounts(|ids|, conflicts, warnings, |items|, AsNat(Get(result, "file_count")).value, samples);
    var fields := scalars + counts + aggregates;
    ObjectFinds(SummaryEnvelope(r, result, Obj(Object(fields))), 7);
    CountFound(result, scalars, counts, aggregates, 5);
  }
}
