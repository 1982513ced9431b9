/**
 The lock file as the disk sees it: a log area of at most 64 KiB followed by two epoch slots.
 A bump writes the slot that does not hold the current epoch, and the write may stop anywhere.
 */
module EpochFile {
  import opened Bytes
  import opened EpochSlots
  import opened EpochLog

  type File = seq<byte>

  const CAPACITY: nat := LIMIT + 2 * SLOT_SIZE

  function SlotOffset(index: nat): nat { LIMIT + index * SLOT_SIZE }

  // ---- reading ----

  /** The log area. */
  function View(f: File): File { f[..Min(|f|, LIMIT)] }

  /** The bytes of a slot that exist in the file. */
  function Region(f: File, index: nat): (r: File)
    ensures |r| <= SLOT_SIZE
  {
    var offset := SlotOffset(index);
    if |f| <= offset then [] else f[offset..Min(offset + SLOT_SIZE, |f|)]
  }

  function ReadSlot(f: File, index: nat): Option<u64> {
    var slot := Region(f, index);
    if |slot| == SLOT_SIZE then Decode(slot) else None
  }

  /** The decodable epochs, ascending and without duplicates. */
  function ReadSlots(f: File): seq<u64> {
    match (ReadSlot(f, 0), ReadSlot(f, 1))
    case (None, None) => []
    case (Some(a), None) => [a]
    case (None, Some(b)) => [b]
    case (Some(a), Some(b)) => if a < b then [a, b] else if b < a then [b, a] else [a]
  }

  function ReadEpoch(f: File): Result<u64> {
    var slots := ReadSlots(f);
    if |slots| == 0 then LogEpoch(View(f))
    else if |slots| == 1 then Ok(slots[0])
    else if slots[1] - slots[0] > 1 then Err
    else Ok(slots[1])
  }

  function FirstZero(s: File): (r: nat)
    ensures r <= |s| && (r < |s| ==> s[r] == 0)
    ensures forall i :: 0 <= i < r ==> s[i] != 0
  {
    if s == [] || s[0] == 0 then 0 else 1 + FirstZero(s[1..])
  }

  /** After the complete records: a prefix of the next record's digits, then zeros. */
  predicate TailValid(tail: File, epoch: u64) {
    var digits := FirstZero(tail);
    && AllDigits(tail[..digits])
    && AllZero(tail[digits..])
    && (digits > 0 ==> epoch < U64_MAX && StartsWith(Decimal(epoch + 1), tail[..digits]))
  }

  /** The check every process makes before it uses an existing lock file. */
  predicate FormatValid(f: File) {
    var view := View(f);
    && |f| <= CAPACITY
    && ReadEpoch(f).Ok?
    && if StartsWith(view, HEADER) then AllZero(view[|HEADER|..])
       else
         && LogEpoch(view).Ok?
         && TailValid(view[ValidLength(view)..], LogEpoch(view).value)
         && !(LogEpoch(view).value == 0 && ReadSlots(f) == [])
  }

  // ---- writing ----

  /** A positioned write; a gap before the offset reads back as zeros. */
  function WriteAt(f: File, offset: nat, data: File): File {
    if data == [] then f
    else
      var padded := f + Zeros(Max(0, offset - |f|));
      padded[..offset] + data + padded[Min(offset + |data|, |padded|)..]
  }

  function SlotIndex(epoch: nat): nat { epoch % 2 }

  /** A bump from `epoch` of which only the first k bytes reached the disk. */
  function TornBump(f: File, epoch: u64, k: nat): File
    requires epoch < U64_MAX && k <= SLOT_SIZE
  {
    WriteAt(f, SlotOffset(SlotIndex(epoch + 1)), Encode(epoch + 1)[..k])
  }

  lemma WriteView(f: File, offset: nat, data: File)
    requires offset >= LIMIT
    ensures View(WriteAt(f, offset, data)) ==
            View(f) + (if data == [] then [] else Zeros(LIMIT - |View(f)|))
  {
  }

  lemma OverwriteTail(tail: File, data: File)
    requires |data| <= SLOT_SIZE
    ensures var rest := tail[Min(|data|, |tail|)..];
            (data + rest)[..Min(SLOT_SIZE, |data + rest|)] ==
            data + tail[..Min(SLOT_SIZE, |tail|)][Min(|data|, Min(SLOT_SIZE, |tail|))..]
  {
  }

  lemma SliceOfAppend(prefix: File, body: File, n: nat)
    requires n <= |body|
    ensures (prefix + body)[|prefix|..|prefix| + n] == body[..n]
  {
  }

  lemma WriteOwnRegion(f: File, index: nat, data: File)
    requires |data| <= SLOT_SIZE
    ensures Region(WriteAt(f, SlotOffset(index), data), index) ==
            data + Region(f, index)[Min(|data|, |Region(f, index)|)..]
  {
    if data != [] {
      var offset := SlotOffset(index);
      var padded := f + Zeros(Max(0, offset - |f|));
      var tail := padded[offset..];
      var rest := tail[Min(|data|, |tail|)..];
      assert padded[Min(offset + |data|, |padded|)..] == rest;
      AppendAssociative(padded[..offset], data, rest);
      SliceOfAppend(padded[..offset], data + rest, Min(SLOT_SIZE, |data + rest|));
      OverwriteTail(tail, data);
      assert Region(f, index) == tail[..Min(SLOT_SIZE, |tail|)];
    }
  }

  /** Zeros that a write of the second slot leaves at the end of a short first slot. */
  function Padding(f: File, index: nat, data: File): nat {
    if index == 1 && data != [] then SLOT_SIZE - |Region(f, 0)| else 0
  }

  lemma WriteOtherRegion(f: File, index: nat, data: File)
    requires index < 2 && |data| <= SLOT_SIZE
    ensures |Region(f, 1 - index)| + Padding(f, index, data) <= SLOT_SIZE
    ensures Region(WriteAt(f, SlotOffset(index), data), 1 - index) ==
            Region(f, 1 - index) + Zeros(Padding(f, index, data))
  {
    assert Region(f, 1 - index) + Zeros(0) == Region(f, 1 - index);
    if data != [] {
      if index == 0 { WriteFirstKeepsSecond(f, data); } else { WriteSecondPadsFirst(f, data); }
    }
  }

  lemma WriteFirstKeepsSecond(f: File, data: File)
    requires 0 < |data| <= SLOT_SIZE
    ensures Region(WriteAt(f, SlotOffset(0), data), 1) == Region(f, 1)
  {
    var g, offset := WriteAt(f, SlotOffset(0), data), SlotOffset(1);
    if |f| > offset {
      assert |g| == |f| && forall i :: offset <= i < |f| ==> g[i] == f[i];
      assert g[offset..Min(offset + SLOT_SIZE, |g|)] == f[offset..Min(offset + SLOT_SIZE, |f|)];
    } else {
      assert |g| <= offset;
    }
  }

  lemma WriteSecondPadsFirst(f: File, data: File)
    requires 0 < |data| <= SLOT_SIZE
    ensures Region(WriteAt(f, SlotOffset(1), data), 0) == Region(f, 0) + Zeros(SLOT_SIZE - |Region(f, 0)|)
  {
  }

  lemma WriteLength(f: File, index: nat, data: File)
    requires index < 2 && |data| <= SLOT_SIZE && |f| <= CAPACITY
    ensures |f| <= |WriteAt(f, SlotOffset(index), data)| <= CAPACITY
  {
  }

  // ---- files without slots ----

  /** A file that has no slots yet: the header, or a legacy log with a complete record. */
  ghost predicate Base(log: File, start: u64) {
    && |log| <= LIMIT
    && LogEpoch(log) == Ok(start)
    && if StartsWith(log, HEADER) then start == 0 && AllZero(log[|HEADER|..])
       else start > 0 && TailValid(log[ValidLength(log)..], start)
  }

  lemma TailPadded(tail: File, zeros: File, epoch: u64)
    requires TailValid(tail, epoch) && AllZero(zeros)
    ensures TailValid(tail + zeros, epoch)
  {
    var digits, s := FirstZero(tail), tail + zeros;
    FirstZeroAt(s, digits);
    assert s[..digits] == tail[..digits];
    assert s[digits..] == tail[digits..] + zeros;
  }

  lemma FirstZeroAt(s: File, at: nat)
    requires at <= |s| && (at < |s| ==> s[at] == 0)
    requires forall i :: 0 <= i < at ==> s[i] != 0
    ensures FirstZero(s) == at
  {
    var r := FirstZero(s);
    assert r < |s| ==> s[r] == 0;
  }

  lemma HeaderFits(s: File)
    requires StartsWith(s, HEADER)
    ensures |HEADER| <= |s|
  {
  }

  // ---- runs of torn bumps ----

  /**
   What `bump_epoch` does to the disk when its slot write stops after `k` bytes: it reads the
   current epoch and writes the next one, or refuses to.
   */
  function BumpAttempt(f: File, k: nat): File
    requires k <= SLOT_SIZE
  {
    match ReadEpoch(f)
    case Err => f
    case Ok(epoch) => if epoch == U64_MAX then f else TornBump(f, epoch, k)
  }

  type Cut = k: nat | k <= SLOT_SIZE

  function RunBumps(f: File, cuts: seq<Cut>): File {
    if cuts == [] then f
    else BumpAttempt(RunBumps(f, cuts[..|cuts| - 1]), cuts[|cuts| - 1])
  }

  /** Bumps whose whole slot was written. */
  function CompleteWrites(cuts: seq<Cut>): nat {
    if cuts == [] then 0
    else CompleteWrites(cuts[..|cuts| - 1]) + (if cuts[|cuts| - 1] == SLOT_SIZE then 1 else 0)
  }

  // ---- accepted logs ----

  /** A freshly initialised lock file. */
  lemma HeaderIsBase()
    ensures Base(HEADER, 0)
  {
    assert HEADER[..|HEADER|] == HEADER;
    assert HEADER[|HEADER|..] == [];
  }

  lemma PartialLogTail(n: nat, cut: nat, padding: nat)
    requires n < U64_MAX && cut <= |Decimal(n + 1)|
    ensures var log := PartialLog(n, cut, padding);
            !StartsWith(log, HEADER) && LogEpoch(log) == Ok(n) && TailValid(log[ValidLength(log)..], n)
  {
    hide LogEpoch, ValidLength, StartsWith, LogText, Decimal;
    var log, digits := PartialLog(n, cut, padding), Decimal(n + 1)[..cut];
    PartialLogReads(n, cut, padding);
    PartialLogIsLegacy(n, cut, padding);
    assert log[|LogText(n)|..] == digits + Zeros(padding);
    PartialDigitsValid(digits, n, padding);
  }

  lemma PartialLogIsLegacy(n: nat, cut: nat, padding: nat)
    requires n < U64_MAX && cut <= |Decimal(n + 1)|
    ensures !StartsWith(PartialLog(n, cut, padding), HEADER)
  {
    PartialLogReads(n, cut, padding);
  }

  lemma PartialDigitsValid(digits: File, epoch: nat, padding: nat)
    requires epoch < U64_MAX && |digits| <= |Decimal(epoch + 1)| && digits == Decimal(epoch + 1)[..|digits|]
    ensures TailValid(digits + Zeros(padding), epoch)
  {
    var tail := digits + Zeros(padding);
    assert forall i :: 0 <= i < |digits| ==> IsDigit(tail[i]);
    FirstZeroAt(tail, |digits|);
    assert tail[..|digits|] == digits;
  }

  /**
   A legacy log, its next record torn anywhere and zero padded, is accepted exactly when at least
   one record is complete.
   */
  lemma PartialLogAccepted(n: nat, cut: nat, padding: nat)
    requires n < U64_MAX && cut <= |Decimal(n + 1)| && |PartialLog(n, cut, padding)| <= LIMIT
    ensures ReadEpoch(PartialLog(n, cut, padding)) == Ok(n)
    ensures FormatValid(PartialLog(n, cut, padding)) <==> n >= 1
    ensures n >= 1 ==> Base(PartialLog(n, cut, padding), n)
  {
    hide LogEpoch, ValidLength, StartsWith, LogText, Decimal, PartialLog, TailValid;
    var log := PartialLog(n, cut, padding);
    PartialLogTail(n, cut, padding);
    assert View(log) == log;
  }

  /** A slot-free file passes the format check exactly when it is a header or a log with a record. */
  lemma FormatValidBase(f: File) returns (start: u64)
    requires |f| <= LIMIT
    ensures FormatValid(f) <==> Base(f, start)
    ensures Base(f, start) ==> ReadEpoch(f) == Ok(start)
  {
    assert View(f) == f && ReadSlots(f) == [];
    if StartsWith(f, HEADER) && AllZero(f[|HEADER|..]) {
      HeaderLogEpoch(f);
      start := 0;
    } else {
      start := if LogEpoch(f).Ok? then LogEpoch(f).value else 0;
    }
  }

  lemma HeaderLogEpoch(f: File)
    requires StartsWith(f, HEADER) && AllZero(f[|HEADER|..])
    ensures LogEpoch(f) == Ok(0)
  {
    var body := f[|HEADER|..];
    assert CompleteLength(body) == 0;
    assert Lines(body[..0]) == [];
  }
}
