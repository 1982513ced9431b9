/**
 Which lock files survive crashes. A file is placed when nothing a torn bump can leave behind reads
 as anything but the current epoch or its successor; this is decided by looking at the file once.
 */
module EpochPlacement {
  import opened Bytes
  import opened EpochSlots
  import opened EpochLog
  import opened EpochFile

  // ---- what a torn write can bring up ----

  /** Length of the longest common prefix. */
  function Common(a: File, b: File): (r: nat)
    ensures r <= |a| && r <= |b| && a[..r] == b[..r]
    ensures r < |a| && r < |b| ==> a[r] != b[r]
  {
    if a == [] || b == [] || a[0] != b[0] then 0
    else
      var r := 1 + Common(a[1..], b[1..]);
      assert a[..r] == [a[0]] + a[1..][..r - 1] && b[..r] == [b[0]] + b[1..][..r - 1];
      r
  }

  /**
   The epoch a torn write of `next` can leave in a slot: its image is there already, except perhaps
   for leading bytes that it shares with the image written.
   */
  function Latent(slot: File, next: u64): Option<u64> {
    if |slot| != SLOT_SIZE then None
    else
      var half := DecodeHalf(slot[HALF..]);
      if half.None? then None
      else
        var shared := Common(Encode(next), Encode(half.value));
        if slot[shared..] == Encode(half.value)[shared..] then half else None
  }

  lemma CommonAtLeast(a: File, b: File, n: nat)
    requires n <= |a| && n <= |b| && a[..n] == b[..n]
    ensures n <= Common(a, b)
  {
    assert forall i :: 0 <= i < n ==> a[i] == a[..n][i] == b[..n][i] == b[i];
  }

  lemma SharedIsShort(a: u64, b: u64)
    requires a != b
    ensures Common(Encode(a), Encode(b)) < HALF
  {
    var shared := Common(Encode(a), Encode(b));
    if shared >= HALF {
      assert EncodeHalf(a) == Encode(a)[..shared][..HALF] == Encode(b)[..shared][..HALF] == EncodeHalf(b);
      EncodeInjective(a, b);
    }
  }

  lemma LatentComesUp(slot: File, next: u64)
    requires Latent(slot, next).Some?
    ensures |slot| == SLOT_SIZE
    ensures var x := Latent(slot, next).value;
            Decode(Torn(Encode(next), slot, Common(Encode(next), Encode(x)))) == Some(x)
  {
    hide Encode, Decode, DecodeHalf;
    var x := Latent(slot, next).value;
    var shared := Common(Encode(next), Encode(x));
    assert Torn(Encode(next), slot, shared) == Encode(x)[..shared] + Encode(x)[shared..] == Encode(x);
    DecodeEncode(x);
  }

  lemma SecondHalf(x: u64)
    ensures DecodeHalf(Encode(x)[HALF..]) == Some(x)
  {
    assert Encode(x)[HALF..] == EncodeHalf(x);
    DecodeEncodeHalf(x);
  }

  lemma TornReads(slot: File, next: u64, k: nat, x: u64)
    requires |slot| == SLOT_SIZE && k <= SLOT_SIZE && x != next
    requires Decode(Torn(Encode(next), slot, k)) == Some(x)
    ensures Latent(slot, next) == Some(x)
  {
    hide Encode, Decode, DecodeHalf;
    var torn, shared := Torn(Encode(next), slot, k), Common(Encode(next), Encode(x));
    DecodeIsCanonical(torn);
    assert torn == Encode(x);
    assert Encode(next)[..k] == torn[..k] && slot[k..] == torn[k..];
    CommonAtLeast(Encode(next), Encode(x), k);
    SharedIsShort(next, x);
    SecondHalf(x);
    assert slot[HALF..] == slot[k..][HALF - k..] == Encode(x)[HALF..];
    assert slot[shared..] == slot[k..][shared - k..] == Encode(x)[shared..];
  }

  /** A write of `next` that tears somewhere can leave x in a slot exactly when x is latent there. */
  lemma TornExactly(slot: File, next: u64, x: u64)
    requires |slot| == SLOT_SIZE && x != next
    ensures Latent(slot, next) == Some(x) <==> exists k: Cut :: Decode(Torn(Encode(next), slot, k)) == Some(x)
  {
    hide Encode, Decode, Latent;
    if Latent(slot, next) == Some(x) {
      LatentComesUp(slot, next);
      var k: Cut := Common(Encode(next), Encode(x));
      assert Decode(Torn(Encode(next), slot, k)) == Some(x);
    }
    if k: Cut :| Decode(Torn(Encode(next), slot, k)) == Some(x) { TornReads(slot, next, k, x); }
  }

  lemma TornTwice(slot: File, image: File, j: nat, k: nat)
    requires |slot| == |image| && j <= |slot| && k <= |slot|
    ensures Torn(image, Torn(image, slot, j), k) == Torn(image, slot, Max(j, k))
  {
  }

  /** A torn write brings nothing new within reach of the next one. */
  lemma LatentTorn(slot: File, next: u64, k: Cut)
    requires |slot| == SLOT_SIZE
    ensures var after := Latent(Torn(Encode(next), slot, k), next);
            after.None? || after == Some(next) || after == Latent(slot, next)
  {
    hide Encode, Decode, Latent, Torn;
    var torn := Torn(Encode(next), slot, k);
    if Latent(torn, next).Some? && Latent(torn, next) != Some(next) {
      var x := Latent(torn, next).value;
      LatentComesUp(torn, next);
      var j := Common(Encode(next), Encode(x));
      TornTwice(slot, Encode(next), k, j);
      TornReads(slot, next, Max(k, j), x);
    }
  }

  lemma LatentImage(x: u64, next: u64)
    ensures Latent(Encode(x), next) == Some(x)
  {
    hide Encode;
    SecondHalf(x);
  }

  // ---- placed files ----

  function Slot(region: File): Option<u64> { if |region| == SLOT_SIZE then Decode(region) else None }

  /** What a reader makes of two slots and the log, in whichever order the slots stand. */
  function Combine(a: Option<u64>, b: Option<u64>, log: Result<u64>): Result<u64> {
    if a.None? && b.None? then log
    else if b.None? then Ok(a.value)
    else if a.None? then Ok(b.value)
    else if a.value - b.value > 1 || b.value - a.value > 1 then Err
    else Ok(Max(a.value, b.value))
  }

  function Target(f: File, epoch: nat): (r: File)
    ensures |r| <= SLOT_SIZE
  {
    Region(f, SlotIndex(epoch + 1))
  }

  /** The slot the next bump does not write, as that write leaves it: a short first slot is filled up. */
  function Kept(f: File, epoch: nat): (r: File)
    ensures |r| <= SLOT_SIZE
  {
    var region := Region(f, SlotIndex(epoch));
    if SlotIndex(epoch) == 0 then region + Zeros(SLOT_SIZE - |region|) else region
  }

  /** The current epoch is recorded outside the slot that the next bump overwrites. */
  predicate Stands(f: File, epoch: nat) {
    if Slot(Kept(f, epoch)).Some? then Slot(Kept(f, epoch)) == Some(epoch)
    else LogEpoch(View(f)) == Ok(epoch) && (StartsWith(View(f), HEADER) || epoch > 0)
  }

  predicate Between(x: Option<u64>, low: int, high: int) { x.None? || low <= x.value <= high }

  /**
   The current epoch does not depend on the slot to be overwritten, and neither that slot nor, one
   bump later, the other one holds the remains of an epoch that must not come up again.
   */
  predicate Placed(f: File) {
    var read := ReadEpoch(f);
    && read.Ok?
    && var epoch := read.value;
       epoch < U64_MAX ==>
         && Stands(f, epoch)
         && Between(Latent(Target(f, epoch), epoch + 1),
                    if Slot(Kept(f, epoch)).Some? then epoch - 1 else epoch, epoch + 1)
         && (epoch + 1 < U64_MAX ==> Between(Latent(Kept(f, epoch), epoch + 2), epoch, epoch + 2))
  }

  lemma ReadCombines(f: File, epoch: nat)
    ensures ReadEpoch(f) == Combine(Slot(Region(f, SlotIndex(epoch))), Slot(Target(f, epoch)), LogEpoch(View(f)))
  {
    hide Decode, LogEpoch, Region;
    assert SlotIndex(epoch + 1) == 1 - SlotIndex(epoch);
  }

  /** The bytes of `next` over what is left of a slot that may end early. */
  function Over(slot: File, next: u64, k: Cut): File { Encode(next)[..k] + slot[Min(k, |slot|)..] }

  /** The state after a torn bump, slot by slot. */
  lemma AfterBump(f: File, epoch: u64, k: Cut)
    requires epoch < U64_MAX && k > 0
    ensures var g := TornBump(f, epoch, k);
            && Target(g, epoch) == Over(Target(f, epoch), epoch + 1, k)
            && Region(g, SlotIndex(epoch)) == Kept(f, epoch) && Kept(g, epoch) == Kept(f, epoch)
            && LogEpoch(View(g)) == LogEpoch(View(f)) && ValidLength(View(g)) == ValidLength(View(f))
            && (StartsWith(View(g), HEADER) <==> StartsWith(View(f), HEADER))
            && exists n: nat :: View(g) == View(f) + Zeros(n)
  {
    hide Encode, WriteAt, Region, LogEpoch, ValidLength, StartsWith, View;
    var index, data := SlotIndex(epoch + 1), Encode(epoch + 1)[..k];
    WriteOwnRegion(f, index, data);
    WriteOtherRegion(f, index, data);
    assert SlotIndex(epoch) == 1 - index;
    WriteView(f, SlotOffset(index), data);
    var g := TornBump(f, epoch, k);
    ViewFits(f);
    var n: nat := LIMIT - |View(f)|;
    assert View(g) == View(f) + Zeros(n);
    LogPadded(View(f), Zeros(n));
    HeaderPadded(View(f), n);
    FilledUp(f, g, epoch);
  }

  lemma ViewFits(f: File)
    ensures |View(f)| <= LIMIT
  {
  }

  lemma HeaderPadded(view: File, n: nat)
    ensures StartsWith(view + Zeros(n), HEADER) <==> StartsWith(view, HEADER)
  {
    LogPadded(view, Zeros(n));
  }

  lemma FilledUp(f: File, g: File, epoch: nat)
    requires SlotIndex(epoch) == 0 ==> Region(g, 0) == Region(f, 0) + Zeros(SLOT_SIZE - |Region(f, 0)|)
    requires SlotIndex(epoch) == 1 ==> Region(g, 1) == Region(f, 1) + Zeros(0)
    ensures Region(g, SlotIndex(epoch)) == Kept(f, epoch) && Kept(g, epoch) == Kept(f, epoch)
  {
    hide Region;
  }

  // ---- one attempt ----

  lemma OverReads(slot: File, next: u64, k: Cut)
    requires |slot| <= SLOT_SIZE
    ensures var over := Over(slot, next, k);
            && |over| <= SLOT_SIZE
            && (k == SLOT_SIZE ==> over == Encode(next))
            && (over == Encode(next) ||
                (Slot(over) != Some(next) && (Slot(over).Some? ==> Latent(slot, next) == Slot(over))))
            && (Latent(over, next).None? || Latent(over, next) == Some(next)
                || Latent(over, next) == Latent(slot, next))
  {
    hide Encode, Decode, Latent;
    var over := Over(slot, next, k);
    if |slot| == SLOT_SIZE {
      assert over == Torn(Encode(next), slot, k);
      LatentTorn(slot, next, k);
      if Decode(over).Some? {
        DecodeIsCanonical(over);
        if Decode(over) != Some(next) { TornReads(slot, next, k, Decode(over).value); }
      }
    } else {
      ShortNotLatent(over, next);
      ImageSize(next);
      LatentImage(next, next);
    }
  }

  lemma ShortNotLatent(slot: File, next: u64)
    ensures |slot| < SLOT_SIZE ==> Latent(slot, next).None?
  {
  }

  lemma ImageSize(next: u64)
    ensures Encode(next)[..SLOT_SIZE] == Encode(next) && Slot(Encode(next)) == Some(next)
  {
    hide Encode, Decode;
    DecodeEncode(next);
  }

  /** The next epoch has landed: it is read, and the file is placed for the bump after it. */
  lemma LandedIsPlaced(f: File, g: File, epoch: u64)
    requires Placed(f) && ReadEpoch(f) == Ok(epoch) && epoch < U64_MAX
    requires Target(g, epoch) == Encode(epoch + 1) && Region(g, SlotIndex(epoch)) == Kept(f, epoch)
    ensures Placed(g) && ReadEpoch(g) == Ok(epoch + 1)
  {
    hide Encode, Decode, Latent, Region, LogEpoch, ReadEpoch;
    ReadCombines(g, epoch);
    ImageSize(epoch + 1);
    assert SlotIndex(epoch + 2) == SlotIndex(epoch);
    assert Kept(g, epoch + 1) == Encode(epoch + 1);
    if epoch + 2 < U64_MAX { LatentImage(epoch + 1, epoch + 3); }
  }

  /** The next epoch has not landed: the old one is read still, and the file is still placed. */
  lemma TornIsPlaced(f: File, g: File, epoch: u64, k: Cut)
    requires Placed(f) && ReadEpoch(f) == Ok(epoch) && epoch < U64_MAX
    requires Target(g, epoch) == Over(Target(f, epoch), epoch + 1, k) != Encode(epoch + 1)
    requires Region(g, SlotIndex(epoch)) == Kept(f, epoch) == Kept(g, epoch)
    requires LogEpoch(View(g)) == LogEpoch(View(f)) && (StartsWith(View(g), HEADER) <==> StartsWith(View(f), HEADER))
    ensures Placed(g) && ReadEpoch(g) == Ok(epoch)
  {
    hide Encode, Decode, Latent, Region, LogEpoch, ReadEpoch, View, StartsWith, Over;
    ReadCombines(g, epoch);
    OverReads(Target(f, epoch), epoch + 1, k);
  }

  /**
   One bump attempt, stopped anywhere: the file stays placed and reads as before, or the whole slot
   of the next epoch is there and that epoch is read. The format check goes on accepting it.
   */
  lemma AttemptKeeps(f: File, epoch: u64, k: Cut)
    requires Placed(f) && ReadEpoch(f) == Ok(epoch)
    ensures var g := BumpAttempt(f, k);
            && Placed(g)
            && (ReadEpoch(g) == Ok(epoch) ||
                (epoch < U64_MAX && ReadEpoch(g) == Ok(epoch + 1) && Target(g, epoch) == Encode(epoch + 1)))
            && (k == SLOT_SIZE && epoch < U64_MAX ==> ReadEpoch(g) == Ok(epoch + 1))
    ensures FormatValid(f) ==> FormatValid(BumpAttempt(f, k))
  {
    hide Placed, ReadEpoch, Encode, FormatValid, TornBump, Target;
    hide Kept, Over, LogEpoch, Region, View, StartsWith, ValidLength;
    if epoch < U64_MAX {
      var g := TornBump(f, epoch, k);
      if k == 0 {
        NothingWritten(f, epoch);
      } else {
        AfterBump(f, epoch, k);
        OverReads(Target(f, epoch), epoch + 1, k);
        if Target(g, epoch) == Encode(epoch + 1) { LandedIsPlaced(f, g, epoch); } else { TornIsPlaced(f, g, epoch, k); }
        if FormatValid(f) { BumpKeepsFormat(f, epoch, k); }
      }
    }
  }

  lemma NothingWritten(f: File, epoch: u64)
    requires epoch < U64_MAX
    ensures TornBump(f, epoch, 0) == f
  {
    hide Encode;
  }

  lemma BumpKeepsFormat(f: File, epoch: u64, k: Cut)
    requires Placed(f) && ReadEpoch(f) == Ok(epoch) && epoch < U64_MAX && FormatValid(f) && k > 0
    requires ReadEpoch(TornBump(f, epoch, k)).Ok?
    ensures FormatValid(TornBump(f, epoch, k))
  {
    hide Encode, Decode, Latent, Region, LogEpoch, ReadEpoch, View, StartsWith, WriteAt, ValidLength, TailValid;
    var g := TornBump(f, epoch, k);
    AfterBump(f, epoch, k);
    WriteLength(f, SlotIndex(epoch + 1), Encode(epoch + 1)[..k]);
    var n: nat :| View(g) == View(f) + Zeros(n);
    var cut := ValidLength(View(f));
    if StartsWith(View(f), HEADER) {
      HeaderFits(View(f));
      assert View(g)[|HEADER|..] == View(f)[|HEADER|..] + Zeros(n);
    } else {
      TailPadded(View(f)[cut..], Zeros(n), LogEpoch(View(f)).value);
      assert View(g)[cut..] == View(f)[cut..] + Zeros(n);
      if LogEpoch(View(f)).value == 0 { KeptDecodes(f, g, epoch); }
    }
  }

  lemma KeptDecodes(f: File, g: File, epoch: u64)
    requires Stands(f, epoch) && LogEpoch(View(f)) == Ok(0) && !StartsWith(View(f), HEADER)
    requires Region(g, SlotIndex(epoch)) == Kept(f, epoch)
    ensures ReadSlots(g) != []
  {
    hide Decode, Region, LogEpoch, View, StartsWith;
  }

  // ---- runs ----

  /** The run from f, attempt by attempt, seen from its first attempt. */
  lemma {:induction false} RunFirst(f: File, first: Cut, cuts: seq<Cut>)
    ensures RunBumps(f, [first] + cuts) == RunBumps(BumpAttempt(f, first), cuts)
  {
    hide BumpAttempt;
    if cuts == [] {
      assert [first] + cuts == [first] && [first][..0] == [];
      assert RunBumps(f, [first]) == BumpAttempt(RunBumps(f, []), first);
    } else {
      var init, whole := cuts[..|cuts| - 1], [first] + cuts;
      assert whole[..|whole| - 1] == [first] + init && whole[|whole| - 1] == cuts[|cuts| - 1];
      RunFirst(f, first, init);
    }
  }

  /** Every run of attempts keeps the file placed; the epoch has reached every completed bump. */
  lemma {:induction false} RunKeeps(f: File, start: u64, cuts: seq<Cut>) returns (epoch: u64)
    requires Placed(f) && ReadEpoch(f) == Ok(start)
    ensures Placed(RunBumps(f, cuts)) && ReadEpoch(RunBumps(f, cuts)) == Ok(epoch)
    ensures Min(U64_MAX, start + CompleteWrites(cuts)) <= epoch <= start + |cuts|
    ensures FormatValid(f) ==> FormatValid(RunBumps(f, cuts))
  {
    hide Placed, BumpAttempt, ReadEpoch, FormatValid, Target;
    if cuts == [] {
      epoch := start;
    } else {
      var last := cuts[|cuts| - 1];
      epoch := RunKeeps(f, start, cuts[..|cuts| - 1]);
      AttemptKeeps(RunBumps(f, cuts[..|cuts| - 1]), epoch, last);
      epoch := ReadEpoch(RunBumps(f, cuts)).value;
    }
  }

  /** Further attempts never lower the epoch. */
  lemma {:induction false} RunMonotone(f: File, before: seq<Cut>, cuts: seq<Cut>)
    requires Placed(f) && |before| <= |cuts| && cuts[..|before|] == before
    ensures ReadEpoch(RunBumps(f, before)).Ok? && ReadEpoch(RunBumps(f, cuts)).Ok?
    ensures ReadEpoch(RunBumps(f, before)).value <= ReadEpoch(RunBumps(f, cuts)).value
    decreases |cuts|
  {
    hide Placed, BumpAttempt, ReadEpoch, FormatValid, Target, RunBumps;
    PlacedReads(f);
    if before == cuts {
      var epoch := RunKeeps(f, ReadEpoch(f).value, cuts);
    } else {
      var shorter := cuts[..|cuts| - 1];
      assert shorter[..|before|] == before;
      RunMonotone(f, before, shorter);
      var epoch := RunKeeps(f, ReadEpoch(f).value, shorter);
      AttemptKeeps(RunBumps(f, shorter), epoch, cuts[|cuts| - 1]);
      LastAttempt(f, cuts);
    }
  }

  lemma LastAttempt(f: File, cuts: seq<Cut>)
    requires cuts != []
    ensures RunBumps(f, cuts) == BumpAttempt(RunBumps(f, cuts[..|cuts| - 1]), cuts[|cuts| - 1])
  {
    hide BumpAttempt;
  }

  /** After a run of attempts and one more: what a crash-safe file promises. */
  ghost predicate Safe(f: File, cuts: seq<Cut>, next: Cut) {
    var g, h := RunBumps(f, cuts), RunBumps(f, cuts + [next]);
    && FormatValid(g) && FormatValid(h) && ReadEpoch(g).Ok? && ReadEpoch(h).Ok?
    && var epoch, after := ReadEpoch(g).value, ReadEpoch(h).value;
    && epoch <= after <= epoch + 1
    && (after == epoch + 1 ==> Region(h, SlotIndex(after)) == Encode(after))
    && (next == SLOT_SIZE ==> after == Min(U64_MAX, epoch + 1))
  }

  /**
   However often bumps die, the file stays accepted and readable, an attempt leaves the epoch or,
   once its slot is whole, the next one, and a completed attempt leaves the next one.
   */
  ghost predicate CrashSafe(f: File) { forall cuts: seq<Cut>, next: Cut :: Safe(f, cuts, next) }

  lemma ExhaustedStays(f: File, k: Cut)
    requires ReadEpoch(f) == Ok(U64_MAX)
    ensures BumpAttempt(f, k) == f
  {
  }

  lemma PlacedIsSafe(f: File, cuts: seq<Cut>, next: Cut)
    requires FormatValid(f) && Placed(f)
    ensures Safe(f, cuts, next)
  {
    hide Placed, BumpAttempt, ReadEpoch, FormatValid, Region, Encode;
    PlacedReads(f);
    var epoch := RunKeeps(f, ReadEpoch(f).value, cuts);
    var g := RunBumps(f, cuts);
    assert (cuts + [next])[..|cuts|] == cuts;
    AttemptKeeps(g, epoch, next);
    if epoch == U64_MAX { ExhaustedStays(g, next); }
  }

  lemma PlacedReads(f: File)
    requires Placed(f)
    ensures ReadEpoch(f).Ok?
  {
    hide ReadEpoch;
  }

  // ---- only placed files are safe ----

  /** An attempt on a crash-safe file, and what it leaves is crash-safe again. */
  lemma SafeAttempt(f: File, k: Cut)
    requires CrashSafe(f)
    ensures FormatValid(f) && ReadEpoch(f).Ok? && CrashSafe(BumpAttempt(f, k))
    ensures var g, epoch := BumpAttempt(f, k), ReadEpoch(f).value;
            && FormatValid(g)
            && (ReadEpoch(g) == Ok(epoch) ||
                (epoch < U64_MAX && ReadEpoch(g) == Ok(epoch + 1) && Target(g, epoch) == Encode(epoch + 1)))
            && (k == SLOT_SIZE && epoch < U64_MAX ==> ReadEpoch(g) == Ok(epoch + 1))
  {
    hide BumpAttempt, ReadEpoch, FormatValid, Region, Encode;
    var g := BumpAttempt(f, k);
    assert Safe(f, [], k);
    assert [] + [k] == [k] && [k][..0] == [];
    assert RunBumps(f, [k]) == g;
    forall cuts: seq<Cut>, next: Cut
      ensures Safe(g, cuts, next)
    {
      assert Safe(f, [k] + cuts, next);
      RunFirst(f, k, cuts);
      RunFirst(f, k, cuts + [next]);
      assert [k] + (cuts + [next]) == ([k] + cuts) + [next];
    }
  }

  lemma FullTargetNeedsNoFilling(f: File, epoch: nat)
    requires |Target(f, epoch)| == SLOT_SIZE
    ensures Kept(f, epoch) == Region(f, SlotIndex(epoch))
  {
    assert SlotIndex(epoch) == 0 ==> |f| > SlotOffset(1);
    assert Region(f, SlotIndex(epoch)) + Zeros(0) == Region(f, SlotIndex(epoch));
  }

  /** With nothing in the slot that is written, what is read is recorded elsewhere. */
  lemma ReadsElsewhere(f: File, g: File, epoch: u64)
    requires FormatValid(g) && ReadEpoch(g) == Ok(epoch) && Slot(Target(g, epoch)).None?
    requires Region(g, SlotIndex(epoch)) == Kept(f, epoch)
    requires LogEpoch(View(g)) == LogEpoch(View(f)) && (StartsWith(View(g), HEADER) <==> StartsWith(View(f), HEADER))
    ensures Stands(f, epoch)
  {
    hide Decode, LogEpoch, View, StartsWith, Kept, ReadEpoch, TailValid, ValidLength;
    ReadCombines(g, epoch);
    SlotsRead(g, epoch);
  }

  lemma SlotsRead(g: File, epoch: nat)
    ensures ReadSlots(g) == [] <==> Slot(Region(g, SlotIndex(epoch))).None? && Slot(Target(g, epoch)).None?
  {
    hide Decode, Region;
    assert SlotIndex(epoch + 1) == 1 - SlotIndex(epoch);
  }

  /** Torn after its first half, a write leaves nothing readable unless the second half was there. */
  lemma HalfWritten(slot: File, next: u64)
    requires |slot| < SLOT_SIZE || (|slot| == SLOT_SIZE && slot[HALF..] != Encode(next)[HALF..])
    ensures Slot(Over(slot, next, HALF)).None?
  {
    hide Encode, Decode;
    var over := Over(slot, next, HALF);
    if |slot| == SLOT_SIZE {
      assert over[HALF..] == slot[HALF..] && over[..HALF] == Encode(next)[..HALF];
      if Decode(over).Some? {
        DecodeIsCanonical(over);
        var x := Decode(over).value;
        if x != next {
          CommonAtLeast(Encode(x), Encode(next), HALF);
          SharedIsShort(x, next);
        }
      }
    }
  }

  lemma SafeStands(f: File, epoch: u64)
    requires CrashSafe(f) && ReadEpoch(f) == Ok(epoch) && epoch < U64_MAX
    ensures Stands(f, epoch)
  {
    hide CrashSafe, Encode, Decode, Region, LogEpoch, View, StartsWith, ReadEpoch, FormatValid, Kept, Over, Stands;
    var target := Target(f, epoch);
    if |target| == SLOT_SIZE && target[HALF..] == Encode(epoch + 1)[HALF..] {
      SafeAttempt(f, 0);
      FullTargetNeedsNoFilling(f, epoch);
      UnreadTarget(f, epoch);
      ReadsElsewhere(f, f, epoch);
    } else {
      SafeAttempt(f, HALF);
      var g := BumpAttempt(f, HALF);
      AfterBump(f, epoch, HALF);
      HalfWritten(target, epoch + 1);
      ImageSize(epoch + 1);
      ReadsElsewhere(f, g, epoch);
    }
  }

  lemma UnreadTarget(f: File, epoch: u64)
    requires ReadEpoch(f) == Ok(epoch) && epoch < U64_MAX
    requires |Target(f, epoch)| == SLOT_SIZE && Target(f, epoch)[HALF..] == Encode(epoch + 1)[HALF..]
    ensures Slot(Target(f, epoch)).None?
  {
    hide Encode, Decode, Region, LogEpoch, ReadEpoch;
    var target := Target(f, epoch);
    ReadCombines(f, epoch);
    if Decode(target).Some? {
      DecodeIsCanonical(target);
      SecondHalf(epoch + 1);
      SecondHalf(Decode(target).value);
    }
  }

  lemma SafeTarget(f: File, epoch: u64)
    requires CrashSafe(f) && ReadEpoch(f) == Ok(epoch) && epoch < U64_MAX && Stands(f, epoch)
    ensures Between(Latent(Target(f, epoch), epoch + 1),
                    if Slot(Kept(f, epoch)).Some? then epoch - 1 else epoch, epoch + 1)
  {
    hide CrashSafe, Encode, Decode, Region, LogEpoch, View, StartsWith, ReadEpoch, FormatValid, Kept, Latent;
    var target, next := Target(f, epoch), epoch + 1;
    if Latent(target, next).Some? && Latent(target, next) != Some(next) {
      var x := Latent(target, next).value;
      LatentComesUp(target, next);
      SharedStart(next, x);
      SharedIsShort(next, x);
      var k: Cut := Common(Encode(next), Encode(x));
      SafeAttempt(f, k);
      AfterBump(f, epoch, k);
      assert Over(target, next, k) == Torn(Encode(next), target, k);
      ImageSize(next);
      ReadCombines(BumpAttempt(f, k), epoch);
    }
  }

  lemma SharedStart(a: u64, b: u64)
    ensures Common(Encode(a), Encode(b)) > 0
  {
    assert Encode(a)[..1] == MAGIC[..1] == Encode(b)[..1];
    CommonAtLeast(Encode(a), Encode(b), 1);
  }

  lemma SafeKept(f: File, epoch: u64)
    requires CrashSafe(f) && ReadEpoch(f) == Ok(epoch) && epoch + 1 < U64_MAX
    ensures Between(Latent(Kept(f, epoch), epoch + 2), epoch, epoch + 2)
  {
    hide CrashSafe, Encode, Decode, Region, ReadEpoch, FormatValid, Latent, Stands, Over, Target, Kept, Slot, Between,
         BumpAttempt, TornBump, SlotIndex, View, StartsWith, LogEpoch, ValidLength, Zeros;
    var g, next: u64 := BumpAttempt(f, SLOT_SIZE), epoch + 1;
    SafeAttempt(f, SLOT_SIZE);
    BumpIsTorn(f, epoch, SLOT_SIZE);
    AfterBump(f, epoch, SLOT_SIZE);
    SafeStands(g, next);
    SafeTarget(g, next);
    OtherTarget(g, epoch);
    Wider(Latent(Target(g, next), next + 1), if Slot(Kept(g, next)).Some? then epoch else next, epoch, epoch + 2);
  }

  lemma BumpIsTorn(f: File, epoch: u64, k: Cut)
    requires ReadEpoch(f) == Ok(epoch) && epoch < U64_MAX
    ensures BumpAttempt(f, k) == TornBump(f, epoch, k)
  {
    hide ReadEpoch, TornBump;
  }

  lemma Wider(x: Option<u64>, low: int, lower: int, high: int)
    requires Between(x, low, high) && lower <= low
    ensures Between(x, lower, high)
  {
  }

  lemma SafeIsPlaced(f: File)
    requires CrashSafe(f)
    ensures Placed(f)
  {
    hide CrashSafe, ReadEpoch, FormatValid, Latent, Stands, Target, Kept, Slot, BumpAttempt, Between;
    SafeAttempt(f, SLOT_SIZE);
    var epoch := ReadEpoch(f).value;
    if epoch < U64_MAX {
      SafeStands(f, epoch);
      SafeTarget(f, epoch);
      if epoch + 1 < U64_MAX { SafeKept(f, epoch); }
    }
  }

  lemma OtherTarget(g: File, epoch: nat)
    ensures Target(g, epoch + 1) == Region(g, SlotIndex(epoch))
  {
    hide Region;
    assert SlotIndex(epoch + 2) == SlotIndex(epoch);
  }

  /**
   A lock file survives every run of crashing bumps exactly when it is placed, which one look at its
   two slots and its log decides.
   */
  lemma PlacedExactly(f: File)
    requires FormatValid(f)
    ensures Placed(f) <==> CrashSafe(f)
  {
    hide Placed, Safe, FormatValid;
    if Placed(f) {
      forall cuts: seq<Cut>, next: Cut
        ensures Safe(f, cuts, next)
      {
        PlacedIsSafe(f, cuts, next);
      }
    }
    if CrashSafe(f) {
      hide CrashSafe;
      SafeIsPlaced(f);
    }
  }

  /**
   Crash safety. After any run of bumps from a placed file, each torn at any byte and retried any
   number of times, the file is readable and well formed, and the epoch it records has reached every
   completed bump. The next attempt leaves that epoch or its successor, and the successor when
   completed.
   */
  lemma BumpRunIsCrashSafe(f: File, start: u64, cuts: seq<Cut>, next: Cut)
    requires FormatValid(f) && Placed(f) && ReadEpoch(f) == Ok(start)
    ensures var g, h := RunBumps(f, cuts), RunBumps(f, cuts + [next]);
            && FormatValid(g) && ReadEpoch(g).Ok? && ReadEpoch(h).Ok?
            && var epoch, after := ReadEpoch(g).value, ReadEpoch(h).value;
            && Min(U64_MAX, start + CompleteWrites(cuts)) <= epoch <= start + |cuts|
            && epoch <= after <= epoch + 1
            && (next == SLOT_SIZE ==> after == Min(U64_MAX, epoch + 1))
  {
    hide Placed, ReadEpoch, FormatValid, RunBumps, Region, Encode;
    PlacedIsSafe(f, cuts, next);
    var epoch := RunKeeps(f, start, cuts);
  }

  // ---- files that are placed ----

  lemma BlankNotLatent(slot: File, next: u64)
    requires |slot| <= SLOT_SIZE && AllZero(slot)
    ensures Latent(slot, next).None? && Slot(slot).None?
  {
    if |slot| == SLOT_SIZE {
      assert slot == Zeros(SLOT_SIZE);
      assert slot[HALF..][..8][0] != MAGIC[0] && slot[..HALF][..8][0] != MAGIC[0];
    }
  }

  /** Every slot-free file that passes the format check is placed: a header or a legacy log. */
  lemma LogIsPlaced(f: File)
    requires FormatValid(f) && |f| <= LIMIT
    ensures Placed(f)
  {
    hide Decode, Latent, LogEpoch, TailValid, ValidLength, StartsWith;
    assert Region(f, 0) == [] == Region(f, 1);
    var epoch := ReadEpoch(f).value;
    if epoch < U64_MAX {
      BlankNotLatent([], epoch + 1);
      assert AllZero(Kept(f, epoch)) && |Kept(f, epoch)| <= SLOT_SIZE;
      BlankNotLatent(Kept(f, epoch), epoch + 1);
      if epoch + 1 < U64_MAX { BlankNotLatent(Kept(f, epoch), epoch + 2); }
      HeaderReadsZero(f);
    }
  }

  lemma HeaderReadsZero(f: File)
    requires FormatValid(f) && ReadSlots(f) == []
    ensures StartsWith(View(f), HEADER) || ReadEpoch(f).value > 0
  {
    hide LogEpoch, TailValid, ValidLength, StartsWith, Region;
  }

  /**
   The usual two slots: the current epoch stands at its own parity, and the other slot is blank,
   one epoch older, or either of these under a torn write of the next epoch.
   */
  ghost predicate Orderly(f: File, epoch: u64, under: File, k: Cut)
    requires epoch < U64_MAX
  {
    && Region(f, SlotIndex(epoch)) == Encode(epoch)
    && ((|under| <= SLOT_SIZE && AllZero(under)) || (epoch > 0 && under == Encode(epoch - 1)))
    && Target(f, epoch) == Over(under, epoch + 1, k) != Encode(epoch + 1)
  }

  lemma OrderlyIsPlaced(f: File, epoch: u64, under: File, k: Cut)
    requires epoch < U64_MAX && Orderly(f, epoch, under, k)
    ensures ReadEpoch(f) == Ok(epoch) && Placed(f)
  {
    hide Encode, Decode, Latent, Region, LogEpoch, View, StartsWith, Over;
    OverReads(under, epoch + 1, k);
    if AllZero(under) && |under| <= SLOT_SIZE { BlankNotLatent(under, epoch + 1); } else {
      LatentImage(epoch - 1, epoch + 1);
    }
    ImageSize(epoch);
    ReadCombines(f, epoch);
    assert Encode(epoch) + Zeros(0) == Encode(epoch);
    assert Kept(f, epoch) == Encode(epoch);
    if epoch + 1 < U64_MAX { LatentImage(epoch, epoch + 2); }
  }

  // ---- a file that is not ----

  /** Epoch 5 in the slot of the even epochs. */
  function Misplaced(): (f: File)
    ensures |f| == LIMIT + SLOT_SIZE && View(f) == HEADER + Zeros(LIMIT - |HEADER|)
    ensures Region(f, 0) == Encode(5) && Region(f, 1) == []
  {
    HEADER + Zeros(LIMIT - |HEADER|) + Encode(5)
  }

  lemma EpochByte(x: u64)
    requires x < 256
    ensures Encode(x)[WORD] == x
  {
    SealFields(ToLE(x, WORD));
    assert Encode(x)[WORD] == EncodeHalf(x)[8..16][0] == ToLE(x, WORD)[0];
  }

  /** The format check accepts that file and it reads 5; one bump torn at byte 9 resets it to 0. */
  lemma MisplacedSlotResets()
    ensures FormatValid(Misplaced()) && ReadEpoch(Misplaced()) == Ok(5)
    ensures ReadEpoch(BumpAttempt(Misplaced(), WORD + 1)) == Ok(0)
    ensures !Placed(Misplaced())
  {
    hide Encode, Decode, Misplaced, Region, LogEpoch, Latent, Over, TornBump;
    var f, k: Cut := Misplaced(), WORD + 1;
    ReadCombines(f, 5);
    ImageSize(5);
    LogPadded(HEADER, Zeros(LIMIT - |HEADER|));
    HeaderIsBase();
    HeaderPadded(HEADER, LIMIT - |HEADER|);
    var view := View(f);
    assert view[|HEADER|..] == Zeros(LIMIT - |HEADER|);
    assert HEADER[..|HEADER|] == HEADER;
    AfterBump(f, 5, k);
    OverReads(Encode(5), 6, k);
    NinthByte();
    ReadCombines(BumpAttempt(f, k), 5);
    NotPlaced(f, 5, k);
  }

  lemma NotPlaced(f: File, epoch: u64, k: Cut)
    requires ReadEpoch(f) == Ok(epoch) && epoch > 0 && ReadEpoch(BumpAttempt(f, k)) == Ok(0)
    ensures !Placed(f)
  {
    hide Placed, ReadEpoch, BumpAttempt;
    if Placed(f) { AttemptKeeps(f, epoch, k); }
  }

  lemma NinthByte()
    ensures Slot(Over(Encode(5), 6, WORD + 1)).None?
  {
    hide Encode, Decode, DecodeHalf;
    var over := Over(Encode(5), 6, WORD + 1);
    EpochByte(5);
    EpochByte(6);
    SecondHalf(5);
    assert over[WORD] == Encode(6)[..WORD + 1][WORD] && over[HALF..] == Encode(5)[HALF..];
    if Decode(over).Some? {
      DecodeIsCanonical(over);
      SecondHalf(Decode(over).value);
    }
  }
}
