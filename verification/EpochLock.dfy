/** The held lock file and the operations that read and advance its epoch. */
module EpochLock {
  import opened Bytes
  import opened EpochSlots
  import opened EpochLog
  import opened EpochFile
  import opened EpochPlacement

  function Decoded(f: File, slots: nat): seq<u64> {
    if slots == 0 then []
    else
      Decoded(f, slots - 1) +
      (match ReadSlot(f, slots - 1) case None => [] case Some(epoch) => [epoch])
  }

  lemma SortTwo(x: nat, y: nat)
    ensures SortedUnique([x]) == [x]
    ensures SortedUnique([x, y]) == if x < y then [x, y] else if x == y then [x] else [y, x]
  {
    assert [x][1..] == [] && [x, y][1..] == [y] && [y][1..] == [];
  }

  lemma SortedDecoded(f: File)
    ensures SortedUnique(Decoded(f, 2)) == ReadSlots(f)
  {
    hide ReadSlot, SortedUnique;
    var a, b := ReadSlot(f, 0), ReadSlot(f, 1);
    assert Decoded(f, 1) == (match a case None => [] case Some(epoch) => [epoch]);
    assert Decoded(f, 2) == Decoded(f, 1) + (match b case None => [] case Some(epoch) => [epoch]);
    match (a, b)
    case (None, None) => assert Decoded(f, 2) == []; SortNone();
    case (Some(x), None) => assert Decoded(f, 2) == [x]; SortTwo(x, x);
    case (None, Some(y)) => assert Decoded(f, 2) == [y]; SortTwo(y, y);
    case (Some(x), Some(y)) => assert Decoded(f, 2) == [x, y]; SortTwo(x, y);
  }

  lemma SortNone()
    ensures SortedUnique([]) == []
  {
  }

  class AuthLockFile {
    var bytes: File

    /** A new lock file holds only the header. */
    constructor ()
      ensures bytes == HEADER
    {
      bytes := HEADER;
    }

    method ReadEpochSlots() returns (epochs: seq<u64>)
      ensures epochs == ReadSlots(bytes)
    {
      epochs := [];
      for index := 0 to 2
        invariant epochs == Decoded(bytes, index)
      {
        var slot := Region(bytes, index);
        if |slot| == SLOT_SIZE {
          var decoded := Decode(slot);
          if decoded.Some? { epochs := epochs + [decoded.value]; }
        }
      }
      SortedUniqueSpec(epochs);
      SortedDecoded(bytes);
      epochs := SortedUnique(epochs);
    }

    method ReadEpochLog() returns (epoch: Result<u64>, validLength: nat)
      ensures epoch == LogEpoch(View(bytes))
      ensures validLength == ValidLength(View(bytes))
    {
      var view := View(bytes);
      var body := view[BodyOffset(view)..];
      var complete := body[..CompleteLength(body)];
      validLength := BodyOffset(view) + CompleteLength(body);
      var lines := Lines(complete);
      var current: u64 := 0;
      for i := 0 to |lines|
        invariant ParseRecords(lines[i..], current) == LogEpoch(view)
      {
        var value := ParseU64(lines[i]);
        assert lines[i..][0] == lines[i] && lines[i..][1..] == lines[i + 1..];
        if value.None? || current == U64_MAX || value.value != current + 1 {
          return Err, validLength;
        }
        current := value.value;
      }
      epoch := Ok(current);
    }

    method CurrentEpoch() returns (epoch: Result<u64>)
      ensures epoch == ReadEpoch(bytes)
    {
      var slots := ReadEpochSlots();
      if |slots| == 0 {
        var length;
        epoch, length := ReadEpochLog();
      } else if |slots| == 1 {
        epoch := Ok(slots[0]);
      } else if slots[1] - slots[0] > 1 {
        epoch := Err;
      } else {
        epoch := Ok(slots[1]);
      }
    }

    /** The completed write; `TornBump` is the same write stopped early. */
    method WriteEpochSlot(epoch: u64)
      requires epoch > 0
      modifies this
      ensures bytes == TornBump(old(bytes), epoch - 1, SLOT_SIZE)
    {
      assert Encode(epoch)[..SLOT_SIZE] == Encode(epoch);
      bytes := WriteAt(bytes, SlotOffset(SlotIndex(epoch)), Encode(epoch));
    }

    /** Advances the epoch durably, or fails and leaves the file alone unless the reread disagrees. */
    method BumpEpoch() returns (bumped: Result<u64>)
      modifies this
      ensures bytes == BumpAttempt(old(bytes), SLOT_SIZE)
      ensures ReadEpoch(old(bytes)).Err? || ReadEpoch(old(bytes)) == Ok(U64_MAX) ==> bumped.Err?
      ensures bumped.Ok? ==> ReadEpoch(old(bytes)) == Ok(bumped.value - 1) && ReadEpoch(bytes) == bumped
      ensures Placed(old(bytes)) && ReadEpoch(old(bytes)) != Ok(U64_MAX) ==>
                ReadEpoch(old(bytes)).Ok? && bumped == Ok(ReadEpoch(old(bytes)).value + 1) && Placed(bytes)
    {
      hide WriteAt, TornBump, Encode, Placed, ReadEpoch;
      var current := CurrentEpoch();
      if Placed(bytes) {
        PlacedReads(bytes);
        AttemptKeeps(bytes, current.value, SLOT_SIZE);
      }
      if current.Err? || current.value == U64_MAX { return Err; }
      WriteEpochSlot(current.value + 1);
      var persisted := CurrentEpoch();
      bumped := if persisted == Ok(current.value + 1) then persisted else Err;
    }
  }
}
