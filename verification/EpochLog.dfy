/** The legacy epoch log: consecutive decimal records "1\n2\n…", and the current-format header. */
module EpochLog {
  import opened Bytes

  const LIMIT: nat := 64 * 1024
  const HEADER: seq<byte> := Ascii("telegram-video-downloader-auth-lock-v1\n")

  // ---- decimal numbers ----

  function DigitsValue(s: seq<byte>): nat
    requires AllDigits(s)
  {
    if s == [] then 0 else 10 * DigitsValue(s[..|s| - 1]) + (s[|s| - 1] - 48)
  }

  /** Rust's u64 parser: an optional plus sign, then digits; leading zeros are fine. */
  function ParseU64(s: seq<byte>): Option<u64> {
    var digits := if s != [] && s[0] == PLUS then s[1..] else s;
    if digits == [] || !AllDigits(digits) || DigitsValue(digits) > U64_MAX then None
    else Some(DigitsValue(digits))
  }

  lemma {:induction false} DecimalValue(n: nat)
    ensures DigitsValue(Decimal(n)) == n
  {
    if n >= 10 {
      DecimalValue(n / 10);
      assert Decimal(n)[..|Decimal(n)| - 1] == Decimal(n / 10);
    }
  }

  lemma ParseDecimal(n: u64)
    ensures ParseU64(Decimal(n)) == Some(n)
  {
    DecimalValue(n);
    assert IsDigit(Decimal(n)[0]);
  }

  // ---- records ----

  /** The newline-terminated lines of a text, each without its line ending. */
  function Lines(text: seq<byte>): seq<seq<byte>>
    decreases |text|
  {
    var end := FirstNewline(text);
    if end == |text| then [] else [StripCR(text[..end])] + Lines(text[end + 1..])
  }

  /** Reads consecutive records, the first of which must follow `epoch`. */
  function ParseRecords(lines: seq<seq<byte>>, epoch: u64): Result<u64> {
    if lines == [] then Ok(epoch)
    else
      match ParseU64(lines[0])
      case None => Err
      case Some(value) =>
        if epoch == U64_MAX || value != epoch + 1 then Err
        else ParseRecords(lines[1..], value)
  }

  function BodyOffset(view: seq<byte>): (r: nat)
    ensures r <= |view|
  {
    if StartsWith(view, HEADER) then |HEADER| else 0
  }

  /** Bytes of the view up to the end of its last complete record. */
  function ValidLength(view: seq<byte>): (r: nat)
    ensures BodyOffset(view) <= r <= |view|
  {
    BodyOffset(view) + CompleteLength(view[BodyOffset(view)..])
  }

  /** The epoch the log part of a lock file records. */
  function LogEpoch(view: seq<byte>): Result<u64> {
    var body := view[BodyOffset(view)..];
    ParseRecords(Lines(body[..CompleteLength(body)]), 0)
  }

  // ---- extending a log ----

  lemma {:induction false} ParseRecordsAppend(a: seq<seq<byte>>, b: seq<seq<byte>>, epoch: u64)
    requires ParseRecords(a, epoch).Ok?
    ensures ParseRecords(a + b, epoch) == ParseRecords(b, ParseRecords(a, epoch).value)
  {
    if a == [] {
      assert a + b == b;
    } else {
      ParseRecordsAppend(a[1..], b, ParseU64(a[0]).value);
      assert (a + b)[1..] == a[1..] + b;
    }
  }

  lemma FirstLine(text: seq<byte>, end: nat)
    requires end < |text| && text[end] == LF
    requires forall i :: 0 <= i < end ==> text[i] != LF
    ensures Lines(text) == [StripCR(text[..end])] + Lines(text[end + 1..])
  {
    assert FirstNewline(text) < |text| ==> text[FirstNewline(text)] == text[end];
  }

  lemma FirstLineAppend(a: seq<byte>, b: seq<byte>, end: nat)
    requires end < |a| && a[end] == LF
    requires forall i :: 0 <= i < end ==> a[i] != LF
    ensures Lines(a + b) == [StripCR(a[..end])] + Lines(a[end + 1..] + b)
  {
    assert (a + b)[..end] == a[..end];
    assert (a + b)[end + 1..] == a[end + 1..] + b;
    FirstLine(a + b, end);
  }

  lemma {:induction false} LinesAppend(a: seq<byte>, b: seq<byte>)
    requires a == [] || a[|a| - 1] == LF
    ensures Lines(a + b) == Lines(a) + Lines(b)
    decreases |a|
  {
    if a == [] {
      assert a + b == b;
    } else {
      var end := FirstNewline(a);
      var rest := a[end + 1..];
      assert rest == [] || rest[|rest| - 1] == LF;
      FirstLine(a, end);
      FirstLineAppend(a, b, end);
      LinesAppend(rest, b);
      AppendAssociative([StripCR(a[..end])], Lines(rest), Lines(b));
    }
  }

  lemma DigitsAreOneLine(digits: seq<byte>)
    requires digits != [] && AllDigits(digits)
    ensures Lines(digits + [LF]) == [digits]
  {
    var line := digits + [LF];
    assert IsDigit(digits[|digits| - 1]);
    assert line[..|digits|] == digits && line[|digits| + 1..] == [];
    FirstLine(line, |digits|);
  }

  lemma {:induction false} CompleteLengthPadded(s: seq<byte>, tail: seq<byte>)
    requires LF !in tail
    ensures CompleteLength(s + tail) == CompleteLength(s)
    decreases |tail|
  {
    var t := s + tail;
    var r, q := CompleteLength(t), CompleteLength(s);
    assert forall i :: |s| <= i < |t| ==> t[i] == tail[i - |s|];
    assert q > 0 ==> t[q - 1] == s[q - 1];
  }

  lemma BodyOffsetPadded(view: seq<byte>, zeros: seq<byte>)
    requires AllZero(zeros)
    ensures BodyOffset(view + zeros) == BodyOffset(view)
  {
    var padded := view + zeros;
    if |view| < |HEADER| <= |padded| {
      assert padded[..|HEADER|][|view|] == zeros[0] == 0;
      assert HEADER[|view|] != 0;
    } else if |HEADER| <= |view| {
      assert padded[..|HEADER|] == view[..|HEADER|];
    }
  }

  /** Zero padding changes neither the recorded epoch nor the valid length. */
  lemma LogPadded(view: seq<byte>, zeros: seq<byte>)
    requires AllZero(zeros)
    ensures LogEpoch(view + zeros) == LogEpoch(view)
    ensures ValidLength(view + zeros) == ValidLength(view)
    ensures BodyOffset(view + zeros) == BodyOffset(view)
  {
    BodyOffsetPadded(view, zeros);
    var body := view[BodyOffset(view)..];
    assert (view + zeros)[BodyOffset(view)..] == body + zeros;
    CompleteLengthPadded(body, zeros);
    assert (body + zeros)[..CompleteLength(body)] == body[..CompleteLength(body)];
  }

  // ---- the canonical log ----

  /** "1\n2\n…n\n" */
  function LogText(n: nat): (r: seq<byte>)
    ensures r == [] || r[|r| - 1] == LF
  {
    if n == 0 then [] else LogText(n - 1) + (Decimal(n) + [LF])
  }

  /** A text of whole lines holding the records 1 to n. */
  predicate Records(text: seq<byte>, n: u64) {
    (text == [] || text[|text| - 1] == LF) && ParseRecords(Lines(text), 0) == Ok(n)
  }

  lemma AddRecord(lines: seq<seq<byte>>, digits: seq<byte>, n: u64)
    requires n > 0 && ParseRecords(lines, 0) == Ok(n - 1) && ParseU64(digits) == Some(n)
    ensures ParseRecords(lines + [digits], 0) == Ok(n)
  {
    ParseRecordsAppend(lines, [digits], 0);
  }

  lemma NextRecord(text: seq<byte>, n: u64)
    requires n > 0 && Records(text, n - 1)
    ensures Records(text + (Decimal(n) + [LF]), n)
  {
    ParseDecimal(n);
    LinesAppend(text, Decimal(n) + [LF]);
    DigitsAreOneLine(Decimal(n));
    AddRecord(Lines(text), Decimal(n), n);
  }

  lemma NoRecords()
    ensures Records([], 0)
  {
  }

  lemma {:induction false} LogTextParses(n: u64)
    ensures Records(LogText(n), n)
  {
    if n == 0 {
      NoRecords();
    } else {
      LogTextParses(n - 1);
      NextRecord(LogText(n - 1), n);
    }
  }

  lemma {:induction false} LogTextNonDigitFirst(n: nat, rest: seq<byte>)
    requires AllDigits(rest) || (rest != [] && AllZero(rest))
    ensures !StartsWith(LogText(n) + rest, HEADER)
  {
    if n > 0 { LogTextFirst(n); }
    var s := LogText(n) + rest;
    if |HEADER| <= |s| {
      assert s[..|HEADER|][0] == s[0] != HEADER[0];
    }
  }

  lemma {:induction false} LogTextFirst(n: nat)
    requires n > 0
    ensures |LogText(n)| > 0 && IsDigit(LogText(n)[0])
  {
    if n > 1 { LogTextFirst(n - 1); }
  }

  /** A log of n complete records, a partial next record and zero padding. */
  function PartialLog(n: nat, cut: nat, padding: nat): seq<byte>
    requires cut <= |Decimal(n + 1)|
  {
    LogText(n) + Decimal(n + 1)[..cut] + Zeros(padding)
  }

  /** Reading such a log yields n, whatever part of the next record reached the disk. */
  lemma PartialLogReads(n: u64, cut: nat, padding: nat)
    requires cut <= |Decimal(n + 1)|
    ensures LogEpoch(PartialLog(n, cut, padding)) == Ok(n)
    ensures ValidLength(PartialLog(n, cut, padding)) == |LogText(n)|
    ensures BodyOffset(PartialLog(n, cut, padding)) == 0
  {
    var digits := Decimal(n + 1)[..cut];
    var view := LogText(n) + digits;
    LogPadded(view, Zeros(padding));
    LogTextNonDigitFirst(n, digits);
    assert view[0..] == view;
    assert forall i :: 0 <= i < |digits| ==> IsDigit(digits[i]);
    CompleteLengthPadded(LogText(n), digits);
    assert view[..|LogText(n)|] == LogText(n);
    LogTextParses(n);
  }
}
