/** The 64-byte epoch slot: two identical 32-byte halves, each magic, epoch, complement, checksum. */
module EpochSlots {
  import opened Bytes

  const SLOT_SIZE: nat := 64
  const HALF: nat := 32
  const WORD: nat := 8
  const BYTE_BITS: nat := 8
  const FNV_LOW: nat := 0x1b3
  const FNV_BASIS: seq<byte> := [0x25, 0x23, 0x22, 0x84, 0xe4, 0x9c, 0xf2, 0xcb]
  const MAGIC: seq<byte> := Ascii("TVDAUTH1")

  // ---- checksum: 64-bit FNV-1a on the eight bytes of the hash, least significant first ----

  function Xor(a: nat, b: nat, bits: nat): nat {
    if bits == 0 then 0 else (a + b) % 2 + 2 * Xor(a / 2, b / 2, bits - 1)
  }

  function XorByte(a: byte, b: byte): byte { Xor(a, b, BYTE_BITS) % 256 }

  /** s * factor + carry, keeping |s| bytes. */
  function MulBytes(s: seq<byte>, factor: nat, carry: nat): (r: seq<byte>)
    ensures |r| == |s|
  {
    if s == [] then []
    else [(s[0] * factor + carry) % 256] + MulBytes(s[1..], factor, (s[0] * factor + carry) / 256)
  }

  /** a + b + carry, keeping |a| bytes. */
  function AddBytes(a: seq<byte>, b: seq<byte>, carry: nat): (r: seq<byte>)
    requires |a| == |b|
    ensures |r| == |a|
  {
    if a == [] then []
    else [(a[0] + b[0] + carry) % 256] + AddBytes(a[1..], b[1..], (a[0] + b[0] + carry) / 256)
  }

  /** One step; the prime 0x100000001b3 is 2^40 + FNV_LOW. */
  function Fnv(hash: seq<byte>, b: byte): (r: seq<byte>)
    requires |hash| == WORD
    ensures |r| == WORD
  {
    var mixed := [XorByte(hash[0], b)] + hash[1..];
    AddBytes(Zeros(5) + mixed[..3], MulBytes(mixed, FNV_LOW, 0), 0)
  }

  function Checksum(bytes: seq<byte>): (r: seq<byte>)
    ensures |r| == WORD
  {
    if bytes == [] then FNV_BASIS else Fnv(Checksum(bytes[..|bytes| - 1]), bytes[|bytes| - 1])
  }

  // ---- slot images ----

  /** The bytes of !x for the bytes of x. */
  function Complement(word: seq<byte>): (r: seq<byte>)
    ensures |r| == |word|
  {
    seq(|word|, i requires 0 <= i < |word| => 255 - word[i])
  }

  function Seal(word: seq<byte>): (r: seq<byte>)
    requires |word| == WORD
    ensures |r| == HALF
  {
    var body := MAGIC + word + Complement(word);
    body + Checksum(body)
  }

  function EncodeHalf(epoch: u64): (r: seq<byte>)
    ensures |r| == HALF
  {
    Seal(ToLE(epoch, WORD))
  }

  function Encode(epoch: u64): (r: seq<byte>)
    ensures |r| == SLOT_SIZE
  {
    EncodeHalf(epoch) + EncodeHalf(epoch)
  }

  function DecodeHalf(half: seq<byte>): Option<u64>
    requires |half| == HALF
  {
    WordFits(half[8..16]);
    if half[..8] != MAGIC || half[16..24] != Complement(half[8..16])
       || half[24..32] != Checksum(half[..24]) then None
    else Some(FromLE(half[8..16]))
  }

  function Decode(slot: seq<byte>): Option<u64>
    requires |slot| == SLOT_SIZE
  {
    if slot[..HALF] != slot[HALF..] then None else DecodeHalf(slot[..HALF])
  }

  lemma WordFits(word: seq<byte>)
    requires |word| == WORD
    ensures FromLE(word) <= U64_MAX && ToLE(FromLE(word), WORD) == word
  {
    ToFromLE(word);
    Pow256Eight();
  }

  lemma WordRoundTrip(x: u64)
    ensures FromLE(ToLE(x, WORD)) == x
  {
    Pow256Eight();
    FromToLE(x, WORD);
  }

  lemma SealFields(word: seq<byte>)
    requires |word| == WORD
    ensures Seal(word)[..8] == MAGIC && Seal(word)[8..16] == word
    ensures Seal(word)[16..24] == Complement(word)
    ensures Seal(word)[24..32] == Checksum(Seal(word)[..24])
  {
    var body := MAGIC + word + Complement(word);
    assert Seal(word)[..24] == body;
  }

  lemma SplitFields(half: seq<byte>)
    requires |half| == HALF
    ensures half == half[..8] + half[8..16] + half[16..24] + half[24..32]
    ensures half[..24] == half[..8] + half[8..16] + half[16..24]
  {
  }

  lemma DecodeEncodeHalf(epoch: u64)
    ensures DecodeHalf(EncodeHalf(epoch)) == Some(epoch)
  {
    SealFields(ToLE(epoch, WORD));
    WordRoundTrip(epoch);
  }

  lemma DecodeEncode(epoch: u64)
    ensures Decode(Encode(epoch)) == Some(epoch)
  {
    assert Encode(epoch)[..HALF] == EncodeHalf(epoch) == Encode(epoch)[HALF..];
    DecodeEncodeHalf(epoch);
  }

  lemma HalfIsCanonical(half: seq<byte>)
    requires |half| == HALF && DecodeHalf(half).Some?
    ensures half == EncodeHalf(DecodeHalf(half).value)
  {
    SplitFields(half);
    WordFits(half[8..16]);
  }

  /** Only the canonical image of an epoch decodes to it. */
  lemma DecodeIsCanonical(slot: seq<byte>)
    requires |slot| == SLOT_SIZE && Decode(slot).Some?
    ensures slot == Encode(Decode(slot).value)
  {
    HalfIsCanonical(slot[..HALF]);
    assert slot == slot[..HALF] + slot[HALF..];
  }

  lemma EncodeInjective(a: u64, b: u64)
    requires Encode(a) == Encode(b)
    ensures a == b
  {
    DecodeEncode(a);
    DecodeEncode(b);
  }

  /** A write of `image` that stopped after k bytes, over the bytes `under`. */
  function Torn(image: seq<byte>, under: seq<byte>, k: nat): (r: seq<byte>)
    requires k <= |image| == |under|
    ensures |r| == |under|
  {
    image[..k] + under[k..]
  }
}
