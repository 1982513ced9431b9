/**
 The readiness scanner of the service manager: it reads only the bytes appended to a log since a
 captured boundary, a chunk per call, carrying an unfinished line of bounded length between calls.
 */
module ReadinessScanner {
  import opened Bytes

  const CHUNK_BYTES: nat := 256 * 1024
  const STARTED: seq<byte> := Ascii("telegram local downloader started")
  const STARTED_PREFIX: seq<byte> := STARTED + Ascii(" concurrency=")
  const CLOUD_STARTED_PREFIX: seq<byte> := Ascii("telegram local cloud ingress") + Ascii(" started concurrency=")
  const CLOUD_RECONCILED: seq<byte> := Ascii("cloud ingress reconciliation completed")
  const POLLS: set<seq<byte>> := {Ascii("telegram polling completed poll=1"),
                                  Ascii("telegram polling completed poll=2")}
  const PID: seq<byte> := Ascii(" pid=")
  const LINE_BYTES: nat := Max(|STARTED_PREFIX|, |CLOUD_STARTED_PREFIX|) + 20 + |PID| + 10 + 1
  const PID_MAX: nat := 0x7FFF_FFFF

  datatype Mode = Telegram | Cloud

  predicate ValidPid(pid: int) { 0 < pid <= PID_MAX }

  function PidSuffix(pid: nat): seq<byte> { PID + Decimal(pid) }

  // ---- what one line says ----

  /** The marker on a line of this process, if it is one. */
  function Marker(line: seq<byte>, pid: nat): Option<seq<byte>> {
    var text, suffix := StripCR(line), PidSuffix(pid);
    if |suffix| <= |text| && text[|text| - |suffix|..] == suffix then Some(text[..|text| - |suffix|]) else None
  }

  predicate Counted(marker: seq<byte>, prefix: seq<byte>) {
    StartsWith(marker, prefix) && |marker| > |prefix| && AllDigits(marker[|prefix|..])
  }

  predicate SaysStarted(mode: Mode, line: seq<byte>, pid: nat) {
    var marker := Marker(line, pid);
    && marker.Some?
    && (if mode.Telegram? then marker.value == STARTED || Counted(marker.value, STARTED_PREFIX)
        else Counted(marker.value, CLOUD_STARTED_PREFIX))
  }

  predicate SaysPoll(mode: Mode, line: seq<byte>, pid: nat, poll: seq<byte>) {
    mode.Telegram? && Marker(line, pid) == Some(poll) && poll in POLLS
  }

  predicate SaysReconciled(mode: Mode, line: seq<byte>, pid: nat) {
    mode.Cloud? && Marker(line, pid) == Some(CLOUD_RECONCILED)
  }

  // ---- the parser state ----

  datatype Flags = Flags(started: bool, polls: set<seq<byte>>, reconciled: bool)

  const NOTHING: Flags := Flags(false, {}, false)

  datatype State = State(line: seq<byte>, overflow: bool, flags: Flags)

  function Mark(mode: Mode, pid: nat, flags: Flags, line: seq<byte>): Flags {
    var marker := Marker(line, pid);
    if marker.None? then flags
    else if mode.Telegram? then
      flags.(started := flags.started || marker.value == STARTED || Counted(marker.value, STARTED_PREFIX),
             polls := if marker.value in POLLS then flags.polls + {marker.value} else flags.polls)
    else
      flags.(started := flags.started || Counted(marker.value, CLOUD_STARTED_PREFIX),
             reconciled := flags.reconciled || marker.value == CLOUD_RECONCILED)
  }

  function Last(line: seq<byte>): (r: seq<byte>)
    ensures |r| == Min(|line|, LINE_BYTES)
  {
    line[|line| - Min(|line|, LINE_BYTES)..]
  }

  function Carry(s: State, fragment: seq<byte>): State {
    var line := s.line + fragment;
    State(Last(line), s.overflow || |line| > LINE_BYTES, s.flags)
  }

  function EndLine(mode: Mode, pid: nat, s: State): State {
    State([], false, if s.overflow then s.flags else Mark(mode, pid, s.flags, s.line))
  }

  /** The scanner one byte at a time. */
  function Feed(mode: Mode, pid: nat, s: State, bytes: seq<byte>): State {
    if bytes == [] then s
    else
      var before, b := Feed(mode, pid, s, bytes[..|bytes| - 1]), bytes[|bytes| - 1];
      if b == LF then EndLine(mode, pid, before) else Carry(before, [b])
  }

  /** The state at a boundary: a line already in progress there is to be ignored. */
  function AtBoundary(before: seq<byte>): State {
    State([], before != [] && before[|before| - 1] != LF, NOTHING)
  }

  lemma CarryTwice(s: State, a: seq<byte>, b: seq<byte>)
    ensures Carry(Carry(s, a), b) == Carry(s, a + b)
  {
    AppendAssociative(s.line, a, b);
    LastOfLast(s.line + a, b);
  }

  lemma LastOfLast(a: seq<byte>, b: seq<byte>)
    ensures Last(Last(a) + b) == Last(a + b)
  {
    var l, r := Last(Last(a) + b), Last(a + b);
    assert |l| == |r|;
    assert forall i :: 0 <= i < |l| ==> l[i] == r[i];
  }

  lemma {:induction false} FeedFragment(mode: Mode, pid: nat, s: State, fragment: seq<byte>)
    requires |s.line| <= LINE_BYTES && LF !in fragment
    ensures Feed(mode, pid, s, fragment) == Carry(s, fragment)
  {
    if fragment == [] {
      assert s.line + fragment == s.line;
    } else {
      var init, b := fragment[..|fragment| - 1], fragment[|fragment| - 1];
      FeedFragment(mode, pid, s, init);
      CarryTwice(s, init, [b]);
      assert init + [b] == fragment;
    }
  }

  lemma {:induction false} FeedAppend(mode: Mode, pid: nat, s: State, a: seq<byte>, b: seq<byte>)
    ensures Feed(mode, pid, s, a + b) == Feed(mode, pid, Feed(mode, pid, s, a), b)
  {
    if b == [] {
      assert a + b == a;
    } else {
      FeedAppend(mode, pid, s, a, b[..|b| - 1]);
      assert (a + b)[..|a + b| - 1] == a + b[..|b| - 1];
    }
  }

  lemma FeedLine(mode: Mode, pid: nat, s: State, fragment: seq<byte>)
    requires |s.line| <= LINE_BYTES && LF !in fragment
    ensures Feed(mode, pid, s, fragment + [LF]) == EndLine(mode, pid, Carry(s, fragment))
  {
    FeedFragment(mode, pid, s, fragment);
    assert (fragment + [LF])[..|fragment|] == fragment;
  }

  // ---- what the whole log says ----

  /** `text[i..j]` is a complete line of the log. */
  predicate LineAt(text: seq<byte>, i: nat, j: nat) {
    && i <= j < |text| && text[j] == LF && (i == 0 || text[i - 1] == LF)
    && forall k :: i <= k < j ==> text[k] != LF
  }

  /** The lines that matter: not too long, and not begun before the boundary. */
  predicate Considered(text: seq<byte>, boundary: nat, i: nat, j: nat) {
    boundary <= i <= j < |text| && LineAt(text, i, j) && j - i <= LINE_BYTES
  }

  ghost predicate LogStarted(mode: Mode, pid: nat, text: seq<byte>, boundary: nat) {
    exists i: nat, j: nat :: Considered(text, boundary, i, j) && SaysStarted(mode, text[i..j], pid)
  }

  ghost predicate LogPolled(mode: Mode, pid: nat, text: seq<byte>, boundary: nat, poll: seq<byte>) {
    exists i: nat, j: nat :: Considered(text, boundary, i, j) && SaysPoll(mode, text[i..j], pid, poll)
  }

  ghost predicate LogReconciled(mode: Mode, pid: nat, text: seq<byte>, boundary: nat) {
    exists i: nat, j: nat :: Considered(text, boundary, i, j) && SaysReconciled(mode, text[i..j], pid)
  }

  /** The flags are those of a parser of the whole log. */
  ghost predicate FlagsExact(mode: Mode, pid: nat, text: seq<byte>, boundary: nat, flags: Flags) {
    && (flags.started <==> LogStarted(mode, pid, text, boundary))
    && (forall poll :: poll in flags.polls <==> LogPolled(mode, pid, text, boundary, poll))
    && (flags.reconciled <==> LogReconciled(mode, pid, text, boundary))
  }

  ghost predicate CarryExact(text: seq<byte>, boundary: nat, line: seq<byte>, overflow: bool) {
    var start := CompleteLength(text);
    && boundary <= |text|
    && line == Last(text[Max(start, boundary)..])
    && (overflow <==> start < boundary || |text| - start > LINE_BYTES)
  }

  /** What the scanner knows after the bytes of `text`. */
  ghost predicate Reflects(mode: Mode, pid: nat, text: seq<byte>, boundary: nat, s: State) {
    FlagsExact(mode, pid, text, boundary, s.flags) && CarryExact(text, boundary, s.line, s.overflow)
  }

  lemma BoundaryReflects(mode: Mode, pid: nat, before: seq<byte>)
    ensures Reflects(mode, pid, before, |before|, AtBoundary(before))
  {
    hide SaysStarted, SaysPoll, SaysReconciled;
    assert before[|before|..] == [];
    assert forall i: nat, j: nat :: !Considered(before, |before|, i, j);
  }

  lemma CarryStep(text: seq<byte>, boundary: nat, s: State, b: byte)
    requires CarryExact(text, boundary, s.line, s.overflow) && b != LF
    ensures CarryExact(text + [b], boundary, Carry(s, [b]).line, Carry(s, [b]).overflow)
  {
    hide Last;
    var longer, from := text + [b], Max(CompleteLength(text), boundary);
    SameStart(text, b);
    LastOfLast(text[from..], [b]);
    DropAppend(text, b, from);
  }

  lemma DropAppend(text: seq<byte>, b: byte, from: nat)
    requires from <= |text|
    ensures (text + [b])[from..] == text[from..] + [b]
  {
  }

  lemma SameStart(text: seq<byte>, b: byte)
    requires b != LF
    ensures CompleteLength(text + [b]) == CompleteLength(text)
  {
    assert (text + [b])[..|text|] == text;
  }

  lemma EndStep(text: seq<byte>, boundary: nat)
    requires boundary <= |text|
    ensures CarryExact(text + [LF], boundary, [], false)
  {
    assert (text + [LF])[|text| + 1..] == [];
  }

  lemma SameLines(text: seq<byte>, b: byte, i: nat, j: nat)
    requires b != LF || j != |text|
    ensures LineAt(text + [b], i, j) <==> LineAt(text, i, j)
    ensures LineAt(text, i, j) ==> i <= j < |text| && (text + [b])[i..j] == text[i..j]
  {
    assert forall k :: 0 <= k < |text| ==> (text + [b])[k] == text[k];
    assert (text + [b])[|text|] == b;
  }

  lemma OneMoreLine(text: seq<byte>, i: nat, j: nat)
    ensures LineAt(text + [LF], i, j) <==> LineAt(text, i, j) || (i == CompleteLength(text) && j == |text|)
    ensures LineAt(text, i, j) ==> i <= j < |text| && (text + [LF])[i..j] == text[i..j]
  {
    if j == |text| { LastLine(text, i); } else { hide LineAt; SameLines(text, LF, i, j); }
  }

  lemma LastLine(text: seq<byte>, i: nat)
    ensures LineAt(text + [LF], i, |text|) <==> i == CompleteLength(text)
  {
    var longer, start := text + [LF], CompleteLength(text);
    assert longer[|text|] == LF;
    assert forall k :: 0 <= k < |text| ==> longer[k] == text[k];
    if i < start { assert longer[start - 1] == LF; }
  }

  /** `longer` has the considered lines of `text`, and with `extra` one more from x to y. */
  ghost predicate Grows(text: seq<byte>, longer: seq<byte>, boundary: nat, extra: bool, x: nat, y: nat) {
    forall i: nat, j: nat ::
      && (Considered(longer, boundary, i, j) <==> Considered(text, boundary, i, j) || (extra && i == x && j == y))
      && (Considered(text, boundary, i, j) ==> j <= |longer| && longer[i..j] == text[i..j])
  }

  lemma KeptFlags(mode: Mode, pid: nat, text: seq<byte>, longer: seq<byte>, boundary: nat, flags: Flags, x: nat, y: nat)
    requires FlagsExact(mode, pid, text, boundary, flags) && Grows(text, longer, boundary, false, x, y)
    ensures FlagsExact(mode, pid, longer, boundary, flags)
  {
    hide SaysStarted, SaysPoll, SaysReconciled, LineAt;
  }

  lemma MarkSays(mode: Mode, pid: nat, flags: Flags, line: seq<byte>)
    ensures var marked := Mark(mode, pid, flags, line);
            && (marked.started <==> flags.started || SaysStarted(mode, line, pid))
            && (forall poll :: poll in marked.polls <==> poll in flags.polls || SaysPoll(mode, line, pid, poll))
            && (marked.reconciled <==> flags.reconciled || SaysReconciled(mode, line, pid))
  {
    hide Marker, Counted;
  }

  lemma GrownFlags(mode: Mode, pid: nat, text: seq<byte>, longer: seq<byte>, boundary: nat, flags: Flags, x: nat,
                   y: nat)
    requires FlagsExact(mode, pid, text, boundary, flags) && Grows(text, longer, boundary, true, x, y)
    ensures Considered(longer, boundary, x, y)
    ensures FlagsExact(mode, pid, longer, boundary, Mark(mode, pid, flags, longer[x..y]))
  {
    hide SaysStarted, SaysPoll, SaysReconciled, LineAt, Mark;
    assert Considered(longer, boundary, x, y);
    MarkSays(mode, pid, flags, longer[x..y]);
  }

  lemma FlagsKept(mode: Mode, pid: nat, text: seq<byte>, boundary: nat, flags: Flags, b: byte)
    requires FlagsExact(mode, pid, text, boundary, flags) && b != LF
    ensures FlagsExact(mode, pid, text + [b], boundary, flags)
  {
    hide FlagsExact, LineAt;
    var longer := text + [b];
    forall i: nat, j: nat
      ensures Considered(longer, boundary, i, j) <==> Considered(text, boundary, i, j)
      ensures Considered(text, boundary, i, j) ==> j <= |longer| && longer[i..j] == text[i..j]
    {
      SameLines(text, b, i, j);
    }
    KeptFlags(mode, pid, text, longer, boundary, flags, 0, 0);
  }

  lemma FlagsAtLineEnd(mode: Mode, pid: nat, text: seq<byte>, boundary: nat, s: State)
    requires Reflects(mode, pid, text, boundary, s)
    ensures FlagsExact(mode, pid, text + [LF], boundary, EndLine(mode, pid, s).flags)
  {
    hide LineAt, Marker, Counted, FlagsExact, Last, Mark;
    var longer, start := text + [LF], CompleteLength(text);
    forall i: nat, j: nat
      ensures Considered(longer, boundary, i, j) <==>
              Considered(text, boundary, i, j) || (!s.overflow && i == start && j == |text|)
      ensures Considered(text, boundary, i, j) ==> j <= |longer| && longer[i..j] == text[i..j]
    {
      OneMoreLine(text, i, j);
    }
    if s.overflow {
      KeptFlags(mode, pid, text, longer, boundary, s.flags, start, |text|);
    } else {
      GrownFlags(mode, pid, text, longer, boundary, s.flags, start, |text|);
      WholeLine(text, boundary, s);
    }
  }

  lemma LastOfShort(line: seq<byte>)
    requires |line| <= LINE_BYTES
    ensures Last(line) == line
  {
  }

  lemma WholeLine(text: seq<byte>, boundary: nat, s: State)
    requires CarryExact(text, boundary, s.line, s.overflow) && !s.overflow
    ensures s.line == (text + [LF])[CompleteLength(text)..|text|]
  {
    hide Last;
    var tail := text[CompleteLength(text)..];
    LastOfShort(tail);
  }

  lemma InBounds(text: seq<byte>, boundary: nat, s: State)
    requires CarryExact(text, boundary, s.line, s.overflow)
    ensures boundary <= |text| && |s.line| <= LINE_BYTES
  {
  }

  /** One byte more. */
  lemma ReflectsByte(mode: Mode, pid: nat, text: seq<byte>, boundary: nat, s: State, b: byte)
    requires Reflects(mode, pid, text, boundary, s)
    ensures Reflects(mode, pid, text + [b], boundary, if b == LF then EndLine(mode, pid, s) else Carry(s, [b]))
  {
    hide FlagsExact, CarryExact, Mark, Last;
    InBounds(text, boundary, s);
    if b == LF {
      EndStep(text, boundary);
      FlagsAtLineEnd(mode, pid, text, boundary, s);
    } else {
      CarryStep(text, boundary, s, b);
      FlagsKept(mode, pid, text, boundary, s.flags, b);
    }
  }

  /** Feeding the appended bytes keeps the state that of a parser of the whole log. */
  lemma {:induction false} FeedReflects(mode: Mode, pid: nat, text: seq<byte>, boundary: nat, s: State,
                                        bytes: seq<byte>)
    requires Reflects(mode, pid, text, boundary, s)
    ensures Reflects(mode, pid, text + bytes, boundary, Feed(mode, pid, s, bytes))
  {
    hide Reflects, EndLine, Carry;
    if bytes == [] {
      assert text + bytes == text;
    } else {
      var init, b := bytes[..|bytes| - 1], bytes[|bytes| - 1];
      FeedReflects(mode, pid, text, boundary, s, init);
      ReflectsByte(mode, pid, text + init, boundary, Feed(mode, pid, s, init), b);
      assert text + init + [b] == text + bytes;
    }
  }

  // ---- any split of the appended bytes ----

  function Flat(chunks: seq<seq<byte>>): seq<byte> {
    if chunks == [] then [] else chunks[0] + Flat(chunks[1..])
  }

  function FeedChunks(mode: Mode, pid: nat, s: State, chunks: seq<seq<byte>>): State
    decreases |chunks|
  {
    if chunks == [] then s else FeedChunks(mode, pid, Feed(mode, pid, s, chunks[0]), chunks[1..])
  }

  lemma {:induction false} ChunksAreFed(mode: Mode, pid: nat, s: State, chunks: seq<seq<byte>>)
    ensures FeedChunks(mode, pid, s, chunks) == Feed(mode, pid, s, Flat(chunks))
    decreases |chunks|
  {
    if chunks != [] {
      ChunksAreFed(mode, pid, Feed(mode, pid, s, chunks[0]), chunks[1..]);
      FeedAppend(mode, pid, s, chunks[0], Flat(chunks[1..]));
    }
  }

  /** However the appended bytes are split, the state is that of a parser of the whole log. */
  lemma AnySplitIsExact(mode: Mode, pid: nat, before: seq<byte>, chunks: seq<seq<byte>>)
    ensures Reflects(mode, pid, before + Flat(chunks), |before|, FeedChunks(mode, pid, AtBoundary(before), chunks))
  {
    hide Reflects, AtBoundary, Feed;
    BoundaryReflects(mode, pid, before);
    ChunksAreFed(mode, pid, AtBoundary(before), chunks);
    FeedReflects(mode, pid, before, |before|, AtBoundary(before), Flat(chunks));
  }

  // ---- lines that must be recognised ----

  function Line(prefix: seq<byte>, digits: seq<byte>, pid: nat, cr: bool): (r: seq<byte>)
    ensures |r| == |prefix| + |digits| + |PID| + |Decimal(pid)| + (if cr then 1 else 0)
  {
    prefix + digits + PidSuffix(pid) + (if cr then [CR] else [])
  }

  lemma {:induction false} DecimalFits(n: nat, digits: nat)
    requires digits > 0 && n < Pow10(digits)
    ensures |Decimal(n)| <= digits
  {
    if n >= 10 { DecimalFits(n / 10, digits - 1); }
  }

  lemma PidFits(pid: nat)
    requires ValidPid(pid)
    ensures |Decimal(pid)| <= 10
  {
    assert Pow10(5) == 100000;
    assert Pow10(10) == 100000 * Pow10(5);
    DecimalFits(pid, 10);
  }

  lemma LineMarker(text: seq<byte>, pid: nat, cr: bool)
    ensures Marker(text + PidSuffix(pid) + (if cr then [CR] else []), pid) == Some(text)
  {
    var whole := text + PidSuffix(pid);
    assert whole[|whole| - 1] == Decimal(pid)[|Decimal(pid)| - 1];
    assert IsDigit(whole[|whole| - 1]);
    assert StripCR(whole + (if cr then [CR] else [])) == whole;
    assert whole[|text|..] == PidSuffix(pid) && whole[..|text|] == text;
  }

  /** A line with a marker is the marker, the PID suffix and perhaps a carriage return. */
  lemma MarkerLine(line: seq<byte>, pid: nat)
    requires Marker(line, pid).Some?
    ensures exists cr :: line == Line(Marker(line, pid).value, [], pid, cr)
  {
    hide Decimal;
    var text, m := StripCR(line), Marker(line, pid).value;
    assert text == m + PidSuffix(pid);
    assert m + [] == m;
    if line == text {
      assert line + [] == line;
      assert line == Line(m, [], pid, false);
    } else {
      assert line == text + [CR];
      assert line == Line(m, [], pid, true);
    }
  }

  lemma LineIsMarked(line: seq<byte>, text: seq<byte>, pid: nat)
    requires exists cr :: line == Line(text, [], pid, cr)
    ensures Marker(line, pid) == Some(text)
  {
    hide Marker, Decimal;
    var cr :| line == Line(text, [], pid, cr);
    assert text + [] == text;
    LineMarker(text, pid, cr);
  }

  /** The line is a prefix, a count, the PID suffix of this process and perhaps a carriage return. */
  ghost predicate CountedLine(line: seq<byte>, prefix: seq<byte>, pid: nat) {
    exists digits: seq<byte>, cr: bool :: digits != [] && AllDigits(digits) && line == Line(prefix, digits, pid, cr)
  }

  ghost predicate PlainLine(line: seq<byte>, marker: seq<byte>, pid: nat) {
    exists cr :: line == Line(marker, [], pid, cr)
  }

  lemma CountedExactly(line: seq<byte>, prefix: seq<byte>, pid: nat)
    ensures Marker(line, pid).Some? && Counted(Marker(line, pid).value, prefix) <==> CountedLine(line, prefix, pid)
  {
    hide Marker, Decimal;
    if Marker(line, pid).Some? && Counted(Marker(line, pid).value, prefix) {
      var m := Marker(line, pid).value;
      MarkerLine(line, pid);
      var cr :| line == Line(m, [], pid, cr);
      assert m == prefix + m[|prefix|..] && m + [] == m;
      assert line == Line(prefix, m[|prefix|..], pid, cr);
    }
    if CountedLine(line, prefix, pid) {
      var digits: seq<byte>, cr: bool :|
        digits != [] && AllDigits(digits) && line == Line(prefix, digits, pid, cr);
      LineMarker(prefix + digits, pid, cr);
      assert (prefix + digits)[..|prefix|] == prefix && (prefix + digits)[|prefix|..] == digits;
    }
  }

  lemma PlainExactly(line: seq<byte>, marker: seq<byte>, pid: nat)
    ensures Marker(line, pid) == Some(marker) <==> PlainLine(line, marker, pid)
  {
    hide Marker, Decimal;
    if Marker(line, pid) == Some(marker) { MarkerLine(line, pid); }
    if PlainLine(line, marker, pid) { LineIsMarked(line, marker, pid); }
  }

  /**
   Which lines count, byte for byte: nothing may stand before the marker or between its parts, the
   count must be all digits, and the PID must be the one of this process.
   */
  lemma SaysExactly(mode: Mode, line: seq<byte>, pid: nat)
    ensures SaysStarted(mode, line, pid) <==>
              if mode.Telegram? then PlainLine(line, STARTED, pid) || CountedLine(line, STARTED_PREFIX, pid)
              else CountedLine(line, CLOUD_STARTED_PREFIX, pid)
    ensures forall poll :: SaysPoll(mode, line, pid, poll) <==>
              mode.Telegram? && poll in POLLS && PlainLine(line, poll, pid)
    ensures SaysReconciled(mode, line, pid) <==> mode.Cloud? && PlainLine(line, CLOUD_RECONCILED, pid)
  {
    hide Marker, Counted, PlainLine, CountedLine;
    PlainExactly(line, STARTED, pid);
    PlainExactly(line, CLOUD_RECONCILED, pid);
    CountedExactly(line, STARTED_PREFIX, pid);
    CountedExactly(line, CLOUD_STARTED_PREFIX, pid);
    forall poll: seq<byte> { PlainExactly(line, poll, pid); }
  }

  /** A started marker with at most 20 digits is recognised and never too long to be considered. */
  lemma StartedMarkerFits(mode: Mode, digits: seq<byte>, pid: nat, cr: bool)
    requires ValidPid(pid) && 0 < |digits| <= 20 && AllDigits(digits)
    ensures var line := Line(if mode.Telegram? then STARTED_PREFIX else CLOUD_STARTED_PREFIX, digits, pid, cr);
            SaysStarted(mode, line, pid) && |line| <= LINE_BYTES
  {
    hide Marker, Decimal;
    var prefix := if mode.Telegram? then STARTED_PREFIX else CLOUD_STARTED_PREFIX;
    PidFits(pid);
    LineMarker(prefix + digits, pid, cr);
    assert (prefix + digits)[..|prefix|] == prefix && (prefix + digits)[|prefix|..] == digits;
  }

  /** So are the markers without a count. */
  lemma PlainMarkerFits(mode: Mode, marker: seq<byte>, pid: nat, cr: bool)
    requires ValidPid(pid)
    requires if mode.Telegram? then marker == STARTED || marker in POLLS else marker == CLOUD_RECONCILED
    ensures var line := Line(marker, [], pid, cr);
            && |line| <= LINE_BYTES
            && (mode.Telegram? && marker == STARTED ==> SaysStarted(mode, line, pid))
            && (marker in POLLS ==> SaysPoll(mode, line, pid, marker) || mode.Cloud?)
            && (mode.Cloud? ==> SaysReconciled(mode, line, pid))
  {
    hide Marker, Decimal;
    PidFits(pid);
    LineMarker(marker, pid, cr);
    assert marker + [] == marker;
  }

  /** The limit is exact for cloud mode: it leaves room for 20 digits, a 10-digit PID and a CR. */
  lemma CloudMarkerLimit(digits: seq<byte>, pid: nat, cr: bool)
    requires digits != [] && AllDigits(digits)
    ensures var line := Line(CLOUD_STARTED_PREFIX, digits, pid, cr);
            && SaysStarted(Cloud, line, pid)
            && (|line| <= LINE_BYTES <==> |digits| + |Decimal(pid)| + (if cr then 1 else 0) <= 31)
  {
    hide Marker, Decimal;
    LineMarker(CLOUD_STARTED_PREFIX + digits, pid, cr);
    assert (CLOUD_STARTED_PREFIX + digits)[..|CLOUD_STARTED_PREFIX|] == CLOUD_STARTED_PREFIX;
    assert (CLOUD_STARTED_PREFIX + digits)[|CLOUD_STARTED_PREFIX|..] == digits;
  }

  // ---- one chunk ----

  /** The pieces between newlines; there is always a last, possibly empty one. */
  function Split(data: seq<byte>): (r: seq<seq<byte>>)
    ensures r != []
    decreases |data|
  {
    var end := FirstNewline(data);
    if end == |data| then [data] else [data[..end]] + Split(data[end + 1..])
  }

  /** The loop over the pieces of one chunk. */
  method ReadFragments(mode: Mode, pid: nat, before: State, data: seq<byte>) returns (after: State)
    requires |before.line| <= LINE_BYTES
    ensures after == Feed(mode, pid, before, data)
  {
    hide Feed, Mark, Last, Split;
    var fragments := Split(data);
    var line, overflow, flags := before.line, before.overflow, before.flags;
    ghost var read, rest: seq<byte> := [], data;
    FeedNothing(mode, pid, before);
    for index := 0 to |fragments|
      invariant |line| <= LINE_BYTES
      invariant index < |fragments| ==> fragments[index..] == Split(rest) && data == read + rest
      invariant State(line, overflow, flags) == Feed(mode, pid, before, if index < |fragments| then read else data)
    {
      var whole := line + fragments[index];
      FirstPiece(rest);
      if index < |fragments| - 1 {
        PieceEnds(mode, pid, before, read, State(line, overflow, flags), rest, fragments[index]);
        if !overflow && |whole| <= LINE_BYTES {
          LastOfShort(whole);
          flags := Mark(mode, pid, flags, whole);
        }
        line, overflow := [], false;
        read, rest := read + (fragments[index] + [LF]), rest[|fragments[index]| + 1..];
      } else {
        FeedFragment(mode, pid, State(line, overflow, flags), fragments[index]);
        FeedAppend(mode, pid, before, read, fragments[index]);
        overflow := overflow || |whole| > LINE_BYTES;
        line := Last(whole);
      }
    }
    after := State(line, overflow, flags);
  }

  lemma FeedNothing(mode: Mode, pid: nat, s: State)
    ensures Feed(mode, pid, s, []) == s
  {
  }

  lemma PieceEnds(mode: Mode, pid: nat, start: State, read: seq<byte>, s: State, rest: seq<byte>, piece: seq<byte>)
    requires |s.line| <= LINE_BYTES && LF !in piece && |piece| < |rest| && rest == piece + [LF] + rest[|piece| + 1..]
    requires s == Feed(mode, pid, start, read)
    ensures Feed(mode, pid, start, read + (piece + [LF])) == EndLine(mode, pid, Carry(s, piece))
    ensures read + rest == read + (piece + [LF]) + rest[|piece| + 1..]
  {
    hide Feed, EndLine, Carry;
    FeedLine(mode, pid, s, piece);
    FeedAppend(mode, pid, start, read, piece + [LF]);
    AppendAssociative(read, piece + [LF], rest[|piece| + 1..]);
  }

  lemma TakeMore(text: seq<byte>, from: nat, to: nat)
    requires from <= to <= |text|
    ensures text[..from] + text[from..to] == text[..to]
  {
  }

  lemma InBoundsState(mode: Mode, pid: nat, text: seq<byte>, boundary: nat, s: State)
    requires Reflects(mode, pid, text, boundary, s)
    ensures |s.line| <= LINE_BYTES
  {
    hide FlagsExact;
  }

  lemma FirstPiece(data: seq<byte>)
    ensures var first := Split(data)[0];
            && LF !in first
            && (|Split(data)| == 1 ==> first == data)
            && (|Split(data)| > 1 ==>
                  && |first| < |data| && data == first + [LF] + data[|first| + 1..]
                  && Split(data)[1..] == Split(data[|first| + 1..]))
  {
    hide FirstNewline;
    var end := FirstNewline(data);
    if end < |data| {
      assert data[end] == LF;
      CutAt(data, end);
    }
  }

  lemma CutAt(data: seq<byte>, end: nat)
    requires end < |data|
    ensures data == data[..end] + [data[end]] + data[end + 1..]
  {
  }

  lemma Opened(mode: Mode, pid: nat, before: seq<byte>, overflow: bool)
    requires overflow == (before != [] && before[|before| - 1] != LF)
    ensures Reflects(mode, pid, before, |before|, State([], overflow, NOTHING))
  {
    BoundaryReflects(mode, pid, before);
  }
}
