/** The counts, index ranges and size limit of an attempt's summary. */
module AttemptSummary {
  import opened Bytes
  import opened Json
  import opened Attempt

  const SUMMARY_MAX_BYTES: nat := 1_800
  const TITLE_MAX_BYTES: nat := 240

  // ---- counts ----

  /** Verified entries that this attempt completed itself. */
  function CountCompleted(entries: seq<Entry>): nat {
    if entries == [] then 0
    else (if entries[0].state.EntryVerified? && !entries[0].alreadyPresent then 1 else 0) + CountCompleted(entries[1..])
  }

  lemma {:induction false} CompletedAndPresent(entries: seq<Entry>)
    requires EntriesInv(entries)
    ensures CountCompleted(entries) + CountPresent(entries) == CountState(entries, EntryVerified)
  {
    if entries != [] {
      assert EntryInv(entries[0]);
      assert EntriesInv(entries[1..]);
      CompletedAndPresent(entries[1..]);
    }
  }

  lemma {:induction false} StatesPartition(entries: seq<Entry>)
    ensures CountState(entries, Pending) + CountState(entries, Downloading) + CountState(entries, Downloaded)
            + CountState(entries, EntryFailed) + CountState(entries, EntryInterrupted)
            + CountState(entries, EntryVerified) == |entries|
  {
    if entries != [] { StatesPartition(entries[1..]); }
  }

  /**
   After every sequence of operations an independent attempt's summary adds up: completed, already
   present and remaining make the total, and so do the six states.
   */
  lemma SummaryAddsUp(s: Snapshot, ops: seq<Operation>)
    requires Init(s)
    ensures var t := Run(s, ops);
            && (t.independent ==>
                  CountCompleted(t.entries) + t.skipped + (|t.entries| - CountState(t.entries, EntryVerified))
                  == |t.entries|)
            && CountState(t.entries, Pending) + CountState(t.entries, Downloading) + CountState(t.entries, Downloaded)
               + CountState(t.entries, EntryFailed) + CountState(t.entries, EntryInterrupted)
               + CountState(t.entries, EntryVerified) == |t.entries|
  {
    hide Run, Init, CountState, CountCompleted, CountPresent, EntriesInv, OutcomeInv;
    RunInv(s, ops);
    CompletedAndPresent(Run(s, ops).entries);
    StatesPartition(Run(s, ops).entries);
  }

  // ---- index ranges ----

  const U32_MAX: nat := 0xFFFF_FFFF

  datatype Range = Range(start: nat, end: nat)

  predicate InRange(x: nat, r: Range) { r.start <= x <= r.end }

  predicate Covered(x: nat, ranges: seq<Range>) { exists i :: 0 <= i < |ranges| && InRange(x, ranges[i]) }

  /** Non-empty, ascending, and with a gap before the next one, so none can be extended or merged. */
  predicate MaximalDisjoint(ranges: seq<Range>) {
    && (forall i :: 0 <= i < |ranges| ==> ranges[i].start <= ranges[i].end)
    && (forall i, j :: 0 <= i < j < |ranges| ==> ranges[i].end + 1 < ranges[j].start)
  }

  /** The ranges contain exactly these indices. */
  ghost predicate Denotes(ranges: seq<Range>, indices: seq<nat>) {
    forall x: nat :: Covered(x, ranges) <==> x in indices
  }

  /** Adds the next greater index to the last range, or a range of its own. */
  function AddIndex(ranges: seq<Range>, index: nat): seq<Range> {
    if ranges != [] && ranges[|ranges| - 1].end + 1 == index then
      ranges[..|ranges| - 1] + [Range(ranges[|ranges| - 1].start, index)]
    else ranges + [Range(index, index)]
  }

  function RangesOf(sorted: seq<nat>): seq<Range> {
    if sorted == [] then [] else AddIndex(RangesOf(sorted[..|sorted| - 1]), sorted[|sorted| - 1])
  }

  /** The ranges denote exactly the given indices, the greatest index included. */
  method CompactRanges(indices: seq<nat>) returns (ranges: seq<Range>)
    requires forall i :: 0 <= i < |indices| ==> indices[i] <= U32_MAX
    ensures MaximalDisjoint(ranges) && Denotes(ranges, indices) && ranges == RangesOf(SortedUnique(indices))
  {
    hide Denotes, MaximalDisjoint, SortedUnique;
    var sorted := SortedUnique(indices);
    SortedUniqueSpec(indices);
    SameIndices(sorted, indices);
    ranges := [];
    NoRanges();
    if sorted == [] { return; }
    var start: nat, end: nat := sorted[0], sorted[0];
    OneRange(start);
    assert sorted[..1] == [sorted[0]] && sorted[..1][..0] == [];
    assert RangesOf(sorted[..1]) == AddIndex(RangesOf([]), start) == [] + [Range(start, start)];
    for i := 1 to |sorted|
      invariant start <= end == sorted[i - 1]
      invariant MaximalDisjoint(ranges + [Range(start, end)])
      invariant Denotes(ranges + [Range(start, end)], sorted[..i])
      invariant ranges + [Range(start, end)] == RangesOf(sorted[..i])
    {
      var index := sorted[i];
      assert index in indices && end < index;
      assert sorted[..i + 1] == sorted[..i] + [index];
      assert sorted[..i + 1][..i] == sorted[..i];
      assert (ranges + [Range(start, end)])[..|ranges|] == ranges;
      if end < U32_MAX && end + 1 == index {
        ExtendDenotes(ranges, start, end, sorted[..i]);
        ExtendDisjoint(ranges, start, end);
        end := index;
      } else {
        AppendDenotes(ranges + [Range(start, end)], index, sorted[..i]);
        AppendDisjoint(ranges, start, end, index);
        ranges := ranges + [Range(start, end)];
        start, end := index, index;
      }
    }
    assert sorted[..|sorted|] == sorted;
    ranges := ranges + [Range(start, end)];
  }

  lemma SameIndices(sorted: seq<nat>, indices: seq<nat>)
    requires forall y :: y in sorted <==> y in indices
    ensures forall ranges :: Denotes(ranges, sorted) <==> Denotes(ranges, indices)
  {
  }

  lemma NoRanges()
    ensures MaximalDisjoint([]) && Denotes([], [])
  {
  }

  lemma OneRange(x: nat)
    ensures MaximalDisjoint([] + [Range(x, x)]) && Denotes([] + [Range(x, x)], [x])
  {
    AppendCovers([], Range(x, x));
  }

  lemma AppendDenotes(ranges: seq<Range>, index: nat, indices: seq<nat>)
    requires Denotes(ranges, indices)
    ensures Denotes(ranges + [Range(index, index)], indices + [index])
  {
    hide Covered;
    AppendCovers(ranges, Range(index, index));
  }

  lemma ExtendDenotes(ranges: seq<Range>, start: nat, end: nat, indices: seq<nat>)
    requires start <= end && Denotes(ranges + [Range(start, end)], indices)
    ensures Denotes(ranges + [Range(start, end + 1)], indices + [end + 1])
  {
    hide Covered;
    AppendCovers(ranges, Range(start, end));
    AppendCovers(ranges, Range(start, end + 1));
  }

  lemma ExtendDisjoint(ranges: seq<Range>, start: nat, end: nat)
    requires start <= end && MaximalDisjoint(ranges + [Range(start, end)])
    ensures MaximalDisjoint(ranges + [Range(start, end + 1)])
  {
    var all, extended := ranges + [Range(start, end)], ranges + [Range(start, end + 1)];
    assert forall i :: 0 <= i < |all| ==> all[i].start == extended[i].start;
    assert forall i :: 0 <= i < |ranges| ==> all[i] == extended[i];
  }

  lemma AppendDisjoint(ranges: seq<Range>, start: nat, end: nat, index: nat)
    requires start <= end && end + 1 < index && MaximalDisjoint(ranges + [Range(start, end)])
    ensures MaximalDisjoint(ranges + [Range(start, end)] + [Range(index, index)])
  {
    var all := ranges + [Range(start, end)];
    assert all[|ranges|].end == end;
    assert forall i :: 0 <= i < |ranges| ==> all[i].end + 1 < all[|ranges|].start;
  }

  lemma AppendCovers(ranges: seq<Range>, r: Range)
    ensures forall x: nat :: Covered(x, ranges + [r]) <==> Covered(x, ranges) || InRange(x, r)
  {
    forall x: nat
      ensures Covered(x, ranges + [r]) <==> Covered(x, ranges) || InRange(x, r)
    {
      var all := ranges + [r];
      assert InRange(x, r) ==> InRange(x, all[|ranges|]);
      if Covered(x, ranges) {
        var i :| 0 <= i < |ranges| && InRange(x, ranges[i]);
        assert InRange(x, all[i]);
      }
    }
  }

  // ---- bounded text ----

  const DOTS: string := "..."

  lemma DotsBytes()
    ensures TextBytes(DOTS) == 3
  {
    assert DOTS[1..] == ".." && ".."[1..] == "." && "."[1..] == "";
  }

  function TruncateText(value: string, limit: nat): string {
    if TextBytes(value) <= limit then value
    else value[..PrefixChars(value, Max(0, limit - 3))] + DOTS
  }

  lemma TruncateTextBound(value: string, limit: nat)
    requires limit >= 3
    ensures TextBytes(TruncateText(value, limit)) <= limit
  {
    PrefixFits(value, limit - 3);
    DotsBytes();
    TextAppend(value[..PrefixChars(value, limit - 3)], DOTS);
  }

  /** Appends what still fits, cut at a whole character and marked with dots. */
  function AppendBounded(output: string, addition: string): string {
    if TextBytes(output) + TextBytes(addition) <= SUMMARY_MAX_BYTES then output + addition
    else
      var remaining := Max(0, SUMMARY_MAX_BYTES - TextBytes(output));
      if remaining <= 3 then output
      else
        var end := PrefixChars(addition, remaining - 3);
        if end > 0 then output + addition[..end] + DOTS else output
  }

  lemma AppendBoundedKeeps(output: string, addition: string)
    requires TextBytes(output) <= SUMMARY_MAX_BYTES
    ensures TextBytes(AppendBounded(output, addition)) <= SUMMARY_MAX_BYTES
    ensures output <= AppendBounded(output, addition)
    ensures TextBytes(output) + TextBytes(addition) <= SUMMARY_MAX_BYTES ==>
              AppendBounded(output, addition) == output + addition
  {
    TextAppend(output, addition);
    var remaining := SUMMARY_MAX_BYTES - TextBytes(output);
    if remaining > 3 {
      var end := PrefixChars(addition, remaining - 3);
      PrefixFits(addition, remaining - 3);
      DotsBytes();
      TextAppend(output, addition[..end]);
      TextAppend(output + addition[..end], DOTS);
    }
  }

  function AppendAll(output: string, additions: seq<string>): string
    decreases |additions|
  {
    if additions == [] then output else AppendAll(AppendBounded(output, additions[0]), additions[1..])
  }

  // ---- the summary ----

  function NumberText(n: nat): (r: string)
    ensures |r| == DecimalDigits(n)
  {
    if n < 10 then [(n + 48) as char] else NumberText(n / 10) + [(n % 10 + 48) as char]
  }

  function Labeled(name: string, n: nat): string { name + NumberText(n) }

  function OutcomeText(outcome: Option<Outcome>): string {
    match outcome
    case None => ""
    case Some(Failed) => "\nOutcome: failed"
    case Some(PartiallyCompleted) => "\nOutcome: partially completed"
    case Some(Cancelled) => "\nOutcome: cancelled"
    case Some(Interrupted) => "\nOutcome: interrupted"
    case Some(Verified) => "\nOutcome: verified"
  }

  function IndependentCounts(s: Snapshot): string {
    var downloaded := CountState(s.entries, Downloaded);
    Labeled("\nEpisodes: ", |s.entries|)
    + (Labeled("\nCompleted: ", CountCompleted(s.entries))
       + (Labeled("; already present: ", s.skipped)
          + (Labeled("; remaining: ", |s.entries| - CountState(s.entries, EntryVerified))
             + (Labeled("\nFailed: ", CountState(s.entries, EntryFailed))
                + (Labeled("; in progress: ", CountState(s.entries, Downloading) + downloaded)
                   + (Labeled("; waiting: ", CountState(s.entries, Pending))
                      + (Labeled("; paused: ", CountState(s.entries, EntryInterrupted))
                         + (if downloaded > 0 then
                              Labeled("\nAwaiting merge, publication or verification: ", downloaded)
                            else ""))))))))
  }

  function SequentialCounts(s: Snapshot): string {
    Labeled("\nSelected: ", |s.entries|)
    + (Labeled("; skipped/already present: ", s.skipped)
       + (Labeled("\nDownloaded pending mux/publication/verification: ", CountState(s.entries, Downloaded))
          + (Labeled("; verified: ", CountState(s.entries, EntryVerified))
             + (Labeled("\nFailed: ", CountState(s.entries, EntryFailed))
                + (Labeled("; not started: ", CountState(s.entries, Pending))
                   + (Labeled("; interrupted: ", CountState(s.entries, EntryInterrupted))
                      + Labeled("; running: ", CountState(s.entries, Downloading))))))))
  }

  /** Title, total, counts and outcome; `title` is already a single line. */
  function Header(s: Snapshot, title: string): string {
    TruncateText(title, TITLE_MAX_BYTES)
    + ((if s.independent then IndependentCounts(s) else SequentialCounts(s)) + OutcomeText(s.outcome))
  }

  // ---- the details ----

  const MAX_DETAIL_RANGES: nat := 8
  const MAX_DETAIL_ENTRIES: nat := 8

  /** Brings a text on one line, and cleans an error of what must not be shown. */
  datatype Cleaning = Cleaning(line: string -> string, safe: string -> string)

  function InState(entries: seq<Entry>, state: EntryState): seq<Entry> {
    if entries == [] then []
    else (if entries[0].state == state then [entries[0]] else []) + InState(entries[1..], state)
  }

  function IndicesOf(entries: seq<Entry>): (r: seq<nat>)
    ensures |r| == |entries| && forall i :: 0 <= i < |r| ==> r[i] == entries[i].index
  {
    seq(|entries|, i requires 0 <= i < |entries| => entries[i].index)
  }

  function FormatRange(r: Range): string {
    if r.start == r.end then NumberText(r.start) else NumberText(r.start) + ("-" + NumberText(r.end))
  }

  function JoinRanges(ranges: seq<Range>): string {
    if ranges == [] then ""
    else if |ranges| == 1 then FormatRange(ranges[0])
    else FormatRange(ranges[0]) + (", " + JoinRanges(ranges[1..]))
  }

  function Shown(ranges: seq<Range>): seq<Range> { ranges[..Min(|ranges|, MAX_DETAIL_RANGES)] }

  /** How many ranges are only counted. */
  function Omitted(ranges: seq<Range>): nat { |ranges| - |Shown(ranges)| }

  function OmittedText(n: nat): string { " (+" + (NumberText(n) + " ranges)") }

  function Section(name: string, ranges: seq<Range>): string {
    "\n" + name + " episodes: "
    + (JoinRanges(Shown(ranges))
       + (if Omitted(ranges) > 0 then OmittedText(Omitted(ranges)) else ""))
  }

  function SectionName(state: EntryState): string { if state.EntryFailed? then "Failed" else "Interrupted" }

  function Detail(e: Entry, cleaning: Cleaning): string {
    "\nEpisode " + NumberText(e.index) + ": " + cleaning.line(e.title)
    + (if e.stage == "" then "" else " (last reported stage: " + cleaning.line(e.stage) + ")")
    + (if e.attempts > 0 then " (attempts: " + NumberText(e.attempts) + ")" else "")
    + (if e.error.None? then "" else " (last error: " + cleaning.line(cleaning.safe(e.error.value)) + ")")
  }

  function DetailTexts(entries: seq<Entry>, cleaning: Cleaning): (r: seq<string>)
    ensures |r| == |entries|
  {
    seq(|entries|, i requires 0 <= i < |entries| => Detail(entries[i], cleaning))
  }

  /** The section of a state and the details of its first entries; nothing when no entry is in it. */
  function StateTexts(s: Snapshot, state: EntryState, cleaning: Cleaning): seq<string> {
    var entries := InState(s.entries, state);
    if entries == [] then []
    else
      [Section(SectionName(state), RangesOf(SortedUnique(IndicesOf(entries))))]
      + DetailTexts(entries[..Min(|entries|, MAX_DETAIL_ENTRIES)], cleaning)
  }

  function Summary(s: Snapshot, cleaning: Cleaning): string {
    AppendAll(Header(s, cleaning.line(s.title)),
              StateTexts(s, EntryFailed, cleaning) + StateTexts(s, EntryInterrupted, cleaning))
  }

  lemma {:induction false} AppendAllSplit(output: string, a: seq<string>, b: seq<string>)
    ensures AppendAll(output, a + b) == AppendAll(AppendAll(output, a), b)
    decreases |a|
  {
    hide AppendBounded;
    if a == [] {
      assert a + b == b;
    } else {
      assert (a + b)[0] == a[0] && (a + b)[1..] == a[1..] + b;
      AppendAllSplit(AppendBounded(output, a[0]), a[1..], b);
    }
  }

  lemma AppendOne(output: string, texts: seq<string>, text: string)
    ensures AppendAll(output, texts + [text]) == AppendBounded(AppendAll(output, texts), text)
  {
    hide AppendBounded;
    AppendAllSplit(output, texts, [text]);
    assert [text][1..] == [];
  }

  /** Once the summary is full nothing is appended any more. */
  lemma {:induction false} FullStays(output: string, texts: seq<string>)
    requires TextBytes(output) >= SUMMARY_MAX_BYTES && forall i :: 0 <= i < |texts| ==> texts[i] != ""
    ensures AppendAll(output, texts) == output
    decreases |texts|
  {
    if texts != [] {
      AppendOneToFull(output, texts[0]);
      FullStays(output, texts[1..]);
    }
  }

  lemma AppendOneToFull(output: string, text: string)
    requires TextBytes(output) >= SUMMARY_MAX_BYTES && text != ""
    ensures AppendBounded(output, text) == output
  {
    assert TextBytes(text) > 0;
  }

  lemma TextsNotEmpty(s: Snapshot, state: EntryState, cleaning: Cleaning)
    ensures forall i :: 0 <= i < |StateTexts(s, state, cleaning)| ==> StateTexts(s, state, cleaning)[i] != ""
  {
    hide InState, RangesOf, SortedUnique, NumberText, JoinRanges;
  }

  method Summarize(s: Snapshot, cleaning: Cleaning) returns (output: string)
    requires forall i :: 0 <= i < |s.entries| ==> s.entries[i].index <= U32_MAX
    ensures output == Summary(s, cleaning)
  {
    hide AppendAll, AppendBounded, StateTexts, Header, TextBytes;
    output := Header(s, cleaning.line(s.title));
    AppendAllSplit(output, StateTexts(s, EntryFailed, cleaning), StateTexts(s, EntryInterrupted, cleaning));
    output := AppendState(s, EntryFailed, cleaning, output);
    output := AppendState(s, EntryInterrupted, cleaning, output);
  }

  /** One round of the loop over the two states. */
  method AppendState(s: Snapshot, state: EntryState, cleaning: Cleaning, start: string) returns (output: string)
    requires forall i :: 0 <= i < |s.entries| ==> s.entries[i].index <= U32_MAX
    ensures output == AppendAll(start, StateTexts(s, state, cleaning))
  {
    hide AppendAll, AppendBounded, InState, TextBytes, Section, Detail, DetailTexts, StateTexts, RangesOf, SortedUnique;
    output := start;
    var entries := InState(s.entries, state);
    NothingAppended(output);
    if entries == [] {
      NoTexts(s, state, cleaning);
      return;
    }
    if TextBytes(output) >= SUMMARY_MAX_BYTES {
      TextsNotEmpty(s, state, cleaning);
      FullStays(output, StateTexts(s, state, cleaning));
      return;
    }
    InStateIndices(s.entries, state);
    var ranges := CompactRanges(IndicesOf(entries));
    var first := [Section(SectionName(state), ranges)];
    AppendOne(start, [], first[0]);
    assert [] + first == first;
    output := AppendBounded(output, first[0]);
    var shown := entries[..Min(|entries|, MAX_DETAIL_ENTRIES)];
    assert first + DetailTexts(shown, cleaning)[..0] == first;
    for i := 0 to |shown|
      invariant output == AppendAll(start, first + DetailTexts(shown, cleaning)[..i])
    {
      DetailStep(start, first, shown, cleaning, i);
      output := AppendBounded(output, Detail(shown[i], cleaning));
    }
    assert DetailTexts(shown, cleaning)[..|shown|] == DetailTexts(shown, cleaning);
    StateTextsAre(s, state, cleaning);
  }

  lemma DetailStep(start: string, first: seq<string>, shown: seq<Entry>, cleaning: Cleaning, i: nat)
    requires i < |shown|
    ensures AppendAll(start, first + DetailTexts(shown, cleaning)[..i + 1])
         == AppendBounded(AppendAll(start, first + DetailTexts(shown, cleaning)[..i]), Detail(shown[i], cleaning))
  {
    hide AppendAll, AppendBounded, Detail;
    var details := DetailTexts(shown, cleaning);
    AppendOne(start, first + details[..i], Detail(shown[i], cleaning));
    assert first + details[..i] + [details[i]] == first + details[..i + 1];
  }

  lemma StateTextsAre(s: Snapshot, state: EntryState, cleaning: Cleaning)
    ensures var entries := InState(s.entries, state);
            entries != [] ==>
              StateTexts(s, state, cleaning)
              == [Section(SectionName(state), RangesOf(SortedUnique(IndicesOf(entries))))]
                 + DetailTexts(entries[..Min(|entries|, MAX_DETAIL_ENTRIES)], cleaning)
  {
    hide InState, RangesOf, SortedUnique, Section, Detail;
  }

  lemma NoTexts(s: Snapshot, state: EntryState, cleaning: Cleaning)
    requires InState(s.entries, state) == []
    ensures StateTexts(s, state, cleaning) == []
  {
    hide InState;
  }

  lemma NothingAppended(output: string)
    ensures AppendAll(output, []) == output
  {
  }

  lemma {:induction false} InStateIndices(entries: seq<Entry>, state: EntryState)
    requires forall i :: 0 <= i < |entries| ==> entries[i].index <= U32_MAX
    ensures forall i :: 0 <= i < |InState(entries, state)| ==> InState(entries, state)[i].index <= U32_MAX
  {
    if entries != [] { InStateIndices(entries[1..], state); }
  }

  predicate HasIndex(entries: seq<Entry>, state: EntryState, x: nat) {
    exists i :: 0 <= i < |entries| && entries[i].state == state && entries[i].index == x
  }

  lemma {:induction false} InStateHas(entries: seq<Entry>, state: EntryState, x: nat)
    ensures x in IndicesOf(InState(entries, state)) <==> HasIndex(entries, state, x)
  {
    if entries != [] {
      var head := if entries[0].state == state then [entries[0]] else [];
      var rest := InState(entries[1..], state);
      InStateHas(entries[1..], state, x);
      assert IndicesOf(head + rest) == IndicesOf(head) + IndicesOf(rest);
      HasIndexSplit(entries, state, x);
    }
  }

  lemma HasIndexSplit(entries: seq<Entry>, state: EntryState, x: nat)
    requires entries != []
    ensures HasIndex(entries, state, x) <==>
              (entries[0].state == state && entries[0].index == x) || HasIndex(entries[1..], state, x)
  {
    if i :| 0 <= i < |entries| && entries[i].state == state && entries[i].index == x {
      if i > 0 { assert entries[1..][i - 1] == entries[i]; }
    }
    if i :| 0 <= i < |entries[1..]| && entries[1..][i].state == state && entries[1..][i].index == x {
      assert entries[i + 1] == entries[1..][i];
    }
  }

  lemma {:induction false} AppendAllKeeps(output: string, additions: seq<string>)
    requires TextBytes(output) <= SUMMARY_MAX_BYTES
    ensures TextBytes(AppendAll(output, additions)) <= SUMMARY_MAX_BYTES
    ensures output <= AppendAll(output, additions)
    decreases |additions|
  {
    hide TextBytes, AppendBounded;
    if additions != [] {
      AppendBoundedKeeps(output, additions[0]);
      AppendAllKeeps(AppendBounded(output, additions[0]), additions[1..]);
    }
  }

  lemma {:induction false} TextBytesLimit(s: string)
    ensures TextBytes(s) <= 4 * |s|
  {
    if s != [] { TextBytesLimit(s[1..]); }
  }

  lemma {:induction false} NumberBytes(n: nat)
    ensures TextBytes(NumberText(n)) == DecimalDigits(n)
  {
    if n >= 10 {
      NumberBytes(n / 10);
      TextAppend(NumberText(n / 10), [(n % 10 + 48) as char]);
      assert [(n % 10 + 48) as char][1..] == [];
    } else {
      assert [(n + 48) as char][1..] == [];
    }
  }

  /** A labelled count in front of a text of at most `rest` bytes. */
  lemma LabeledBytes(name: string, n: nat, tail: string, rest: nat)
    requires n <= USIZE_MAX && TextBytes(tail) <= rest
    ensures TextBytes(Labeled(name, n) + tail) <= 4 * |name| + 20 + rest
  {
    hide TextBytes, NumberText;
    CountDigits(n);
    NumberBytes(n);
    TextBytesLimit(name);
    TextAppend(name, NumberText(n));
    TextAppend(Labeled(name, n), tail);
  }

  lemma CountDigits(n: nat)
    requires n <= USIZE_MAX
    ensures DecimalDigits(n) <= 20
  {
    Unsigned64Size(n);
  }

  lemma EmptyBytes()
    ensures TextBytes("") == 0
  {
  }

  lemma IndependentCountsBytes(s: Snapshot)
    requires |s.entries| <= USIZE_MAX && s.skipped <= USIZE_MAX
    ensures TextBytes(IndependentCounts(s)) <= 900
  {
    hide TextBytes, Labeled, CountState, CountCompleted;
    EmptyBytes();
    StatesPartition(s.entries);
    CompletedBound(s.entries);
    var downloaded := CountState(s.entries, Downloaded);
    var t8 := if downloaded > 0 then Labeled("\nAwaiting merge, publication or verification: ", downloaded) else "";
    if downloaded > 0 {
      LabeledBytes("\nAwaiting merge, publication or verification: ", downloaded, "", 0);
      assert t8 + "" == t8;
    }
    var t7 := Labeled("; paused: ", CountState(s.entries, EntryInterrupted)) + t8;
    LabeledBytes("; paused: ", CountState(s.entries, EntryInterrupted), t8, 220);
    var t6 := Labeled("; waiting: ", CountState(s.entries, Pending)) + t7;
    LabeledBytes("; waiting: ", CountState(s.entries, Pending), t7, 280);
    var t5 := Labeled("; in progress: ", CountState(s.entries, Downloading) + downloaded) + t6;
    LabeledBytes("; in progress: ", CountState(s.entries, Downloading) + downloaded, t6, 350);
    var t4 := Labeled("\nFailed: ", CountState(s.entries, EntryFailed)) + t5;
    LabeledBytes("\nFailed: ", CountState(s.entries, EntryFailed), t5, 430);
    var t3 := Labeled("; remaining: ", |s.entries| - CountState(s.entries, EntryVerified)) + t4;
    LabeledBytes("; remaining: ", |s.entries| - CountState(s.entries, EntryVerified), t4, 490);
    var t2 := Labeled("; already present: ", s.skipped) + t3;
    LabeledBytes("; already present: ", s.skipped, t3, 570);
    var t1 := Labeled("\nCompleted: ", CountCompleted(s.entries)) + t2;
    LabeledBytes("\nCompleted: ", CountCompleted(s.entries), t2, 670);
    LabeledBytes("\nEpisodes: ", |s.entries|, t1, 740);
  }

  lemma {:induction false} CompletedBound(entries: seq<Entry>)
    ensures CountCompleted(entries) <= |entries|
  {
    if entries != [] { CompletedBound(entries[1..]); }
  }

  lemma SequentialCountsBytes(s: Snapshot)
    requires |s.entries| <= USIZE_MAX && s.skipped <= USIZE_MAX
    ensures TextBytes(SequentialCounts(s)) <= 900
  {
    hide TextBytes, Labeled, CountState;
    EmptyBytes();
    StatesPartition(s.entries);
    var t7 := Labeled("; running: ", CountState(s.entries, Downloading));
    LabeledBytes("; running: ", CountState(s.entries, Downloading), "", 0);
    assert t7 + "" == t7;
    var t6 := Labeled("; interrupted: ", CountState(s.entries, EntryInterrupted)) + t7;
    LabeledBytes("; interrupted: ", CountState(s.entries, EntryInterrupted), t7, 70);
    var t5 := Labeled("; not started: ", CountState(s.entries, Pending)) + t6;
    LabeledBytes("; not started: ", CountState(s.entries, Pending), t6, 155);
    var t4 := Labeled("\nFailed: ", CountState(s.entries, EntryFailed)) + t5;
    LabeledBytes("\nFailed: ", CountState(s.entries, EntryFailed), t5, 240);
    var t3 := Labeled("; verified: ", CountState(s.entries, EntryVerified)) + t4;
    LabeledBytes("; verified: ", CountState(s.entries, EntryVerified), t4, 300);
    var t2 := Labeled("\nDownloaded pending mux/publication/verification: ", CountState(s.entries, Downloaded)) + t3;
    LabeledBytes("\nDownloaded pending mux/publication/verification: ", CountState(s.entries, Downloaded), t3, 370);
    var t1 := Labeled("; skipped/already present: ", s.skipped) + t2;
    LabeledBytes("; skipped/already present: ", s.skipped, t2, 600);
    LabeledBytes("\nSelected: ", |s.entries|, t1, 730);
  }

  lemma OutcomeTextLength(outcome: Option<Outcome>)
    ensures |OutcomeText(outcome)| <= 40
  {
  }

  lemma HeaderBytes(s: Snapshot, title: string)
    requires |s.entries| <= USIZE_MAX && s.skipped <= USIZE_MAX
    ensures TextBytes(Header(s, title)) <= HEADER_BYTES
  {
    hide TextBytes, TruncateText, IndependentCounts, SequentialCounts, OutcomeText;
    TruncateTextBound(title, TITLE_MAX_BYTES);
    if s.independent { IndependentCountsBytes(s); } else { SequentialCountsBytes(s); }
    OutcomeTextLength(s.outcome);
    TextBytesLimit(OutcomeText(s.outcome));
    var counts := if s.independent then IndependentCounts(s) else SequentialCounts(s);
    TextAppend(counts, OutcomeText(s.outcome));
    TextAppend(TruncateText(title, TITLE_MAX_BYTES), counts + OutcomeText(s.outcome));
  }

  const HEADER_BYTES: nat := TITLE_MAX_BYTES + 900 + 160

  /** A summary is at most 1,800 bytes, whatever the texts, and keeps its header. */
  lemma SummaryIsBounded(s: Snapshot, cleaning: Cleaning)
    requires |s.entries| <= USIZE_MAX && s.skipped <= USIZE_MAX
    ensures TextBytes(Summary(s, cleaning)) <= SUMMARY_MAX_BYTES
    ensures Header(s, cleaning.line(s.title)) <= Summary(s, cleaning)
  {
    hide TextBytes, Header, AppendAll, StateTexts;
    HeaderBytes(s, cleaning.line(s.title));
    AppendAllKeeps(Header(s, cleaning.line(s.title)),
                   StateTexts(s, EntryFailed, cleaning) + StateTexts(s, EntryInterrupted, cleaning));
  }

  // ---- what the summary shows ----

  /** The ranges of a state: all its indices and no others, shown or counted. */
  lemma RangesOfState(s: Snapshot, state: EntryState, x: nat)
    ensures var ranges := RangesOf(SortedUnique(IndicesOf(InState(s.entries, state))));
            && MaximalDisjoint(ranges) && |Shown(ranges)| + Omitted(ranges) == |ranges| && Shown(ranges) <= ranges
            && (Covered(x, ranges) <==> HasIndex(s.entries, state, x))
  {
    hide MaximalDisjoint, Denotes, Covered, HasIndex, InState, SortedUnique;
    var indices := IndicesOf(InState(s.entries, state));
    SortedUniqueSpec(indices);
    RangesSpec(SortedUnique(indices));
    InStateHas(s.entries, state, x);
    DenotesAt(RangesOf(SortedUnique(indices)), SortedUnique(indices), x);
  }

  lemma DenotesAt(ranges: seq<Range>, indices: seq<nat>, x: nat)
    requires Denotes(ranges, indices)
    ensures Covered(x, ranges) <==> x in indices
  {
    hide Covered;
  }

  /** Adding a greater index keeps the ranges maximal and exact. */
  lemma AddIndexSpec(ranges: seq<Range>, indices: seq<nat>, index: nat)
    requires MaximalDisjoint(ranges) && Denotes(ranges, indices) && ranges != [] && ranges[|ranges| - 1].end < index
    ensures MaximalDisjoint(AddIndex(ranges, index)) && Denotes(AddIndex(ranges, index), indices + [index])
    ensures EndsAt(AddIndex(ranges, index), index)
  {
    hide MaximalDisjoint, Denotes;
    var last, front := ranges[|ranges| - 1], ranges[..|ranges| - 1];
    assert ranges == front + [Range(last.start, last.end)];
    LastIsRange(ranges);
    if last.end + 1 == index {
      ExtendDenotes(front, last.start, last.end, indices);
      ExtendDisjoint(front, last.start, last.end);
    } else {
      AppendDenotes(ranges, index, indices);
      AppendDisjoint(front, last.start, last.end, index);
    }
  }

  predicate EndsAt(ranges: seq<Range>, end: nat) { ranges != [] && ranges[|ranges| - 1].end == end }

  lemma FirstRange(index: nat)
    ensures var ranges := AddIndex([], index);
            MaximalDisjoint(ranges) && Denotes(ranges, [index]) && EndsAt(ranges, index)
  {
    OneRange(index);
  }

  lemma {:induction false} RangesSpec(sorted: seq<nat>)
    requires StrictlyAscending(sorted)
    ensures MaximalDisjoint(RangesOf(sorted)) && Denotes(RangesOf(sorted), sorted)
    ensures sorted != [] ==> EndsAt(RangesOf(sorted), sorted[|sorted| - 1])
  {
    hide MaximalDisjoint, Denotes, StrictlyAscending, AddIndex;
    if sorted == [] {
      NoRanges();
    } else {
      var init, index := sorted[..|sorted| - 1], sorted[|sorted| - 1];
      assert sorted == init + [index];
      AscendingInit(sorted);
      RangesSpec(init);
      if init == [] {
        FirstRange(index);
        assert [index] == init + [index];
      } else {
        AddIndexSpec(RangesOf(init), init, index);
      }
    }
  }

  lemma AscendingInit(sorted: seq<nat>)
    requires StrictlyAscending(sorted) && sorted != []
    ensures StrictlyAscending(sorted[..|sorted| - 1])
    ensures |sorted| > 1 ==> sorted[|sorted| - 2] < sorted[|sorted| - 1]
  {
  }

  lemma LastIsRange(ranges: seq<Range>)
    requires MaximalDisjoint(ranges) && ranges != []
    ensures ranges[|ranges| - 1].start <= ranges[|ranges| - 1].end
  {
  }

  predicate AsciiText(s: string) { forall i :: 0 <= i < |s| ==> s[i] as int < 128 }

  lemma {:induction false} AsciiBytes(s: string)
    requires AsciiText(s)
    ensures TextBytes(s) == |s|
  {
    if s != [] { AsciiBytes(s[1..]); }
  }

  const INDEX_DIGITS: nat := 10

  lemma IndexBytes(n: nat)
    requires n <= U32_MAX
    ensures TextBytes(NumberText(n)) <= INDEX_DIGITS
  {
    NumberBytes(n);
    assert Pow10(5) == 100000;
    assert Pow10(10) == 100000 * Pow10(5);
    DigitsBound(n, INDEX_DIGITS);
  }

  lemma RangeBytes(r: Range)
    requires r.start <= U32_MAX && r.end <= U32_MAX
    ensures TextBytes(FormatRange(r)) <= 2 * INDEX_DIGITS + 1
  {
    hide TextBytes, NumberText;
    IndexBytes(r.start);
    IndexBytes(r.end);
    AsciiBytes("-");
    TextAppend("-", NumberText(r.end));
    TextAppend(NumberText(r.start), "-" + NumberText(r.end));
  }

  predicate SmallRanges(ranges: seq<Range>) {
    forall i :: 0 <= i < |ranges| ==> ranges[i].start <= U32_MAX && ranges[i].end <= U32_MAX
  }

  lemma {:induction false} JoinBytes(ranges: seq<Range>)
    requires SmallRanges(ranges)
    ensures TextBytes(JoinRanges(ranges)) <= 23 * |ranges|
  {
    hide TextBytes, FormatRange;
    if ranges == [] {
      EmptyBytes();
    } else {
      RangeBytes(ranges[0]);
      if |ranges| > 1 {
        JoinBytes(ranges[1..]);
        AsciiBytes(", ");
        TextAppend(", ", JoinRanges(ranges[1..]));
        TextAppend(FormatRange(ranges[0]), ", " + JoinRanges(ranges[1..]));
      }
    }
  }

  lemma SectionStart(state: EntryState)
    ensures TextBytes("\n" + SectionName(state) + " episodes: ") <= 23
  {
    var text := "\n" + SectionName(state) + " episodes: ";
    assert |SectionName(state)| <= 11 && AsciiText(SectionName(state));
    AsciiBytes(text);
  }

  lemma OmittedBytes(n: nat)
    requires n <= USIZE_MAX
    ensures TextBytes(OmittedText(n)) <= 31
  {
    hide TextBytes, NumberText;
    CountDigits(n);
    NumberBytes(n);
    AsciiBytes(" ranges)");
    AsciiBytes(" (+");
    TextAppend(NumberText(n), " ranges)");
    TextAppend(" (+", NumberText(n) + " ranges)");
  }

  lemma SectionBytes(state: EntryState, ranges: seq<Range>)
    requires SmallRanges(ranges) && |ranges| <= USIZE_MAX
    ensures TextBytes(Section(SectionName(state), ranges)) <= 260
  {
    hide TextBytes, JoinRanges, OmittedText, SectionName, SmallRanges;
    ShownAreSmall(ranges);
    JoinBytes(Shown(ranges));
    EmptyBytes();
    OmittedBytes(Omitted(ranges));
    var tail := if Omitted(ranges) > 0 then OmittedText(Omitted(ranges)) else "";
    TextAppend(JoinRanges(Shown(ranges)), tail);
    SectionStart(state);
    TextAppend("\n" + SectionName(state) + " episodes: ", JoinRanges(Shown(ranges)) + tail);
  }

  lemma ShownAreSmall(ranges: seq<Range>)
    requires SmallRanges(ranges)
    ensures SmallRanges(Shown(ranges))
  {
  }

  lemma StateRangesSmall(s: Snapshot, state: EntryState)
    requires forall i :: 0 <= i < |s.entries| ==> s.entries[i].index <= U32_MAX
    ensures var ranges := RangesOf(SortedUnique(IndicesOf(InState(s.entries, state))));
            SmallRanges(ranges) && |ranges| <= |s.entries|
  {
    hide InState, SortedUnique;
    var indices := IndicesOf(InState(s.entries, state));
    InStateIndices(s.entries, state);
    SortedUniqueSpec(indices);
    SortedIsShorter(indices);
    InStateIsShorter(s.entries, state);
    RangesAreSmall(SortedUnique(indices));
  }

  lemma {:induction false} SortedIsShorter(xs: seq<nat>)
    ensures |SortedUnique(xs)| <= |xs|
  {
    if xs != [] {
      SortedIsShorter(xs[1..]);
      InsertIsShort(SortedUnique(xs[1..]), xs[0]);
    }
  }

  lemma {:induction false} InsertIsShort(xs: seq<nat>, x: nat)
    ensures |InsertUnique(xs, x)| <= |xs| + 1
  {
    if xs != [] { InsertIsShort(xs[1..], x); }
  }

  lemma {:induction false} InStateIsShorter(entries: seq<Entry>, state: EntryState)
    ensures |InState(entries, state)| <= |entries|
  {
    if entries != [] { InStateIsShorter(entries[1..], state); }
  }

  lemma {:induction false} RangesAreSmall(sorted: seq<nat>)
    requires forall x :: x in sorted ==> x <= U32_MAX
    ensures SmallRanges(RangesOf(sorted)) && |RangesOf(sorted)| <= |sorted|
  {
    if sorted != [] {
      var init := sorted[..|sorted| - 1];
      assert sorted[|sorted| - 1] in sorted && forall x :: x in init ==> x in sorted;
      RangesAreSmall(init);
    }
  }

  /** The section a summary opens its details with: failed episodes, or interrupted ones when none failed. */
  function FirstSection(s: Snapshot): string {
    var state := if InState(s.entries, EntryFailed) != [] then EntryFailed else EntryInterrupted;
    if InState(s.entries, state) == [] then ""
    else Section(SectionName(state), RangesOf(SortedUnique(IndicesOf(InState(s.entries, state)))))
  }

  /** The first section is never cut: it stands in full right behind the header. */
  lemma FirstSectionIsWhole(s: Snapshot, cleaning: Cleaning)
    requires |s.entries| <= USIZE_MAX && s.skipped <= USIZE_MAX
    requires forall i :: 0 <= i < |s.entries| ==> s.entries[i].index <= U32_MAX
    ensures Header(s, cleaning.line(s.title)) + FirstSection(s) <= Summary(s, cleaning)
  {
    hide TextBytes, Header, AppendAll, AppendBounded, Section, InState, DetailTexts, RangesOf, SortedUnique;
    var header := Header(s, cleaning.line(s.title));
    HeaderBytes(s, cleaning.line(s.title));
    var texts := StateTexts(s, EntryFailed, cleaning) + StateTexts(s, EntryInterrupted, cleaning);
    if texts == [] {
      assert header + "" == header;
      NothingAppended(header);
    } else {
      var state := if InState(s.entries, EntryFailed) != [] then EntryFailed else EntryInterrupted;
      StateRangesSmall(s, state);
      SectionBytes(state, RangesOf(SortedUnique(IndicesOf(InState(s.entries, state)))));
      assert texts[0] == FirstSection(s);
      AppendBoundedKeeps(header, texts[0]);
      AppendFirst(header, texts);
      AppendAllKeeps(AppendBounded(header, texts[0]), texts[1..]);
    }
  }

  lemma AppendFirst(output: string, texts: seq<string>)
    requires texts != []
    ensures AppendAll(output, texts) == AppendAll(AppendBounded(output, texts[0]), texts[1..])
  {
    hide AppendBounded;
  }
}
