/** The boot record: its 64-byte layout, its decoding and the decisions read from it (src/boot_record.c). */
module BootRecord {
  import opened Layout
  import Crc16
  import Gf2

  const MAGIC: word := 0x544F4F42
  const VERSION: byte := 3
  const CRC_LENGTH: nat := RECORD_SIZE - 2

  // boot_swap_type_t
  const NONE: byte := 0
  const PERM: byte := 1
  const TEST: byte := 2
  const REVERT: byte := 3

  type Reserved = s: seq<byte> | |s| == 42 witness seq(42, _ => 0xFF)
  type Block = s: seq<byte> | |s| == RECORD_SIZE witness seq(RECORD_SIZE, _ => 0)

  /** The fields of a record whose magic and version are the expected ones. */
  datatype Record = Record(
    swapType: byte, copyDone: byte, imageOk: byte,
    sequence: word, crcStaged: word, crcPrimary: word, reserved: Reserved)

  // ----- The 64-byte layout -----

  /** Byte `k` of a word, 0 the lowest. */
  function ByteOf(w: word, k: nat): byte
    requires k < 4
  {
    if k == 0 then (w & 0xFF) as byte
    else if k == 1 then ((w >> 8) & 0xFF) as byte
    else if k == 2 then ((w >> 16) & 0xFF) as byte
    else ((w >> 24) & 0xFF) as byte
  }

  /** A little-endian 32-bit store. */
  function StoreWord(w: word): (b: seq<byte>)
    ensures |b| == 4
  {
    [ByteOf(w, 0), ByteOf(w, 1), ByteOf(w, 2), ByteOf(w, 3)]
  }

  /** A little-endian 16-bit store. */
  function StoreHalf(h: Crc16.half): (b: seq<byte>)
    ensures |b| == 2
  {
    StoreWord(h as word)[..2]
  }

  /** The low half of a word. */
  function LowHalf(w: word): Crc16.half {
    (w & 0xFFFF) as Crc16.half
  }

  function LoadHalf(b: seq<byte>, at: nat): Crc16.half
    requires at + 2 <= |b|
  {
    LowHalf(Join(b[at], b[at + 1], 0, 0))
  }

  /** Everything the CRC protects. */
  function Body(r: Record): (b: seq<byte>)
    ensures |b| == CRC_LENGTH
  {
    StoreWord(MAGIC) + [VERSION, r.swapType, r.copyDone, r.imageOk]
    + StoreWord(r.sequence) + StoreWord(r.crcStaged) + StoreWord(r.crcPrimary) + r.reserved
  }

  /** The bytes a commit programs. */
  function Encode(r: Record): Block {
    Body(r) + StoreHalf(Crc16.Checksum(Body(r)))
  }

  function Fields(b: Block): Record {
    Record(b[5], b[6], b[7], LoadWord(b, 8), LoadWord(b, 12), LoadWord(b, 16), b[20..62])
  }

  /** What `boot_record_read` makes of the block: the record, or nothing. */
  function Parse(b: Block): Option<Record> {
    if LoadWord(b, 0) != MAGIC then None
    else if b[4] != VERSION then None
    else if Crc16.Checksum(b[..CRC_LENGTH]) != LoadHalf(b, CRC_LENGTH) then None
    else Some(Fields(b))
  }

  lemma JoinOfBytes(w: word)
    ensures Join(ByteOf(w, 0), ByteOf(w, 1), ByteOf(w, 2), ByteOf(w, 3)) == w
  {
  }

  lemma BytesOfJoin(b0: byte, b1: byte, b2: byte, b3: byte)
    ensures ByteOf(Join(b0, b1, b2, b3), 0) == b0 && ByteOf(Join(b0, b1, b2, b3), 1) == b1
    ensures ByteOf(Join(b0, b1, b2, b3), 2) == b2 && ByteOf(Join(b0, b1, b2, b3), 3) == b3
  {
  }

  lemma HighBytesOfHalf(h: Crc16.half)
    ensures ByteOf(h as word, 2) == 0 && ByteOf(h as word, 3) == 0
    ensures LowHalf(h as word) == h
  {
  }

  lemma WordRoundTrip(w: word)
    ensures LoadWord(StoreWord(w), 0) == w
  {
    hide Join, ByteOf;
    JoinOfBytes(w);
  }

  lemma HalfRoundTrip(h: Crc16.half)
    ensures LoadHalf(StoreHalf(h), 0) == h
  {
    hide Join, ByteOf, LowHalf;
    JoinOfBytes(h as word);
    HighBytesOfHalf(h);
  }

  lemma StoreLoadWord(b: seq<byte>, at: nat)
    requires at + 4 <= |b|
    ensures StoreWord(LoadWord(b, at)) == b[at..at + 4]
  {
    hide Join, ByteOf;
    BytesOfJoin(b[at], b[at + 1], b[at + 2], b[at + 3]);
  }

  lemma JoinTwo(b0: byte, b1: byte)
    ensures LowHalf(Join(b0, b1, 0, 0)) as word == Join(b0, b1, 0, 0)
  {
  }

  lemma StoreLoadHalf(b: seq<byte>, at: nat)
    requires at + 2 <= |b|
    ensures StoreHalf(LoadHalf(b, at)) == b[at..at + 2]
  {
    hide Join, ByteOf, LowHalf;
    JoinTwo(b[at], b[at + 1]);
    BytesOfJoin(b[at], b[at + 1], 0, 0);
  }

  lemma LoadSlice(b: seq<byte>, at: nat, w: word)
    requires at + 4 <= |b| && b[at..at + 4] == StoreWord(w)
    ensures LoadWord(b, at) == w
  {
    hide Join, StoreWord;
    var s := b[at..at + 4];
    assert s[0] == b[at] && s[1] == b[at + 1] && s[2] == b[at + 2] && s[3] == b[at + 3];
    WordRoundTrip(w);
    assert LoadWord(b, at) == LoadWord(s, 0);
  }

  lemma MagicBytes()
    ensures StoreWord(MAGIC) == [0x42, 0x4F, 0x4F, 0x54]
  {
  }

  /** Where each field sits. */
  lemma PlacesInBody(r: Record)
    ensures
      var b := Body(r);
      && b[0..4] == [0x42, 0x4F, 0x4F, 0x54] && b[4..8] == [3, r.swapType, r.copyDone, r.imageOk]
      && b[8..12] == StoreWord(r.sequence) && b[12..16] == StoreWord(r.crcStaged)
      && b[16..20] == StoreWord(r.crcPrimary) && b[20..62] == r.reserved
  {
    MagicBytes();
    hide StoreWord;
  }

  lemma PlacesInBlock(b: Block, at: nat, to: nat)
    requires at <= to <= CRC_LENGTH
    ensures b[at..to] == b[..CRC_LENGTH][at..to]
  {
  }

  lemma FieldsOfBody(b: Block, r: Record)
    requires b[..CRC_LENGTH] == Body(r)
    ensures LoadWord(b, 0) == MAGIC && b[4] == VERSION && Fields(b) == r
  {
    hide StoreWord, LoadWord, Body;
    MagicBytes();
    PlacesInBody(r);
    PlacesInBlock(b, 0, 4);
    LoadSlice(b, 0, MAGIC);
    PlacesInBlock(b, 4, 8);
    assert b[4] == b[4..8][0] && b[5] == b[4..8][1] && b[6] == b[4..8][2] && b[7] == b[4..8][3];
    PlacesInBlock(b, 8, 12);
    LoadSlice(b, 8, r.sequence);
    PlacesInBlock(b, 12, 16);
    LoadSlice(b, 12, r.crcStaged);
    PlacesInBlock(b, 16, 20);
    LoadSlice(b, 16, r.crcPrimary);
    PlacesInBlock(b, 20, 62);
  }

  /**
   Exactly which blocks read as a record: those with the magic, the version, and behind them the remainder of everything
   that precedes it, magic and version included, on division by the CCITT generator.
   */
  lemma ReadableExactly(b: Block)
    ensures
      Parse(b).Some? <==>
        && b[..5] == [0x42, 0x4F, 0x4F, 0x54, 3]
        && Crc16.WordBits(LoadHalf(b, 62))
           == Gf2.Remainder(Crc16.Generator(),
                            Gf2.XorFront(seq(16, _ => true), Crc16.MessageBits(b[..62]) + Gf2.Zeros(16)))
  {
    hide StoreWord, LoadWord, LoadHalf, Crc16.Checksum, Crc16.WordBits, Crc16.Generator, Crc16.MessageBits,
      Gf2.Remainder, Gf2.XorFront, Gf2.Zeros;
    Crc16.ChecksumIsRemainder(b[..62]);
    if Crc16.WordBits(LoadHalf(b, 62)) == Crc16.WordBits(Crc16.Checksum(b[..62])) {
      Crc16.WordBitsInjective(LoadHalf(b, 62), Crc16.Checksum(b[..62]));
    }
    MagicBytes();
    StoreLoadWord(b, 0);
    assert b[..5] == b[0..4] + [b[4]];
    if b[..5] == [0x42, 0x4F, 0x4F, 0x54, 3] {
      assert b[0..4] == b[..5][..4] && b[4] == b[..5][4];
      LoadSlice(b, 0, MAGIC);
    }
  }

  /** A committed record reads back as every field that was committed. */
  lemma EncodeThenParse(r: Record)
    ensures Parse(Encode(r)) == Some(r)
  {
    hide Body, StoreHalf, LoadWord, LoadHalf, Fields, Crc16.Checksum;
    var b: Block := Encode(r);
    assert b[..CRC_LENGTH] == Body(r);
    FieldsOfBody(b, r);
    var h := Crc16.Checksum(Body(r));
    assert b[CRC_LENGTH..] == StoreHalf(h);
    LoadHalfOfTail(b, h);
  }

  lemma LoadHalfOfTail(b: Block, h: Crc16.half)
    requires b[CRC_LENGTH..] == StoreHalf(h)
    ensures LoadHalf(b, CRC_LENGTH) == h
  {
    hide Join, StoreHalf;
    var s := b[CRC_LENGTH..];
    assert s[0] == b[62] && s[1] == b[63];
    HalfRoundTrip(h);
    assert LoadHalf(b, CRC_LENGTH) == LoadHalf(s, 0);
  }

  /** A block that reads as a record is exactly what a commit of that record programs. */
  lemma ParseThenEncode(b: Block)
    requires Parse(b).Some?
    ensures Encode(Parse(b).value) == b
  {
    hide StoreWord, StoreHalf, LoadWord, LoadHalf, Crc16.Checksum;
    var r := Fields(b);
    StoreLoadWord(b, 0);
    StoreLoadWord(b, 8);
    StoreLoadWord(b, 12);
    StoreLoadWord(b, 16);
    StoreLoadHalf(b, CRC_LENGTH);
    assert b[..CRC_LENGTH] == b[0..4] + [b[4], b[5], b[6], b[7]] + b[8..12] + b[12..16] + b[16..20] + b[20..62];
    assert Body(r) == b[..CRC_LENGTH];
    assert b == b[..CRC_LENGTH] + b[CRC_LENGTH..64];
  }

  /**
   A valid record that is changed inside two consecutive protected bytes, or only in its stored CRC, is no longer a
   record at all.
   */
  lemma DamageIsDetected(b: Block, c: Block, at: nat)
    requires Parse(b).Some? && b != c
    requires
      || (at + 2 <= CRC_LENGTH && forall i :: 0 <= i < RECORD_SIZE && !(at <= i < at + 2) ==> b[i] == c[i])
      || b[..CRC_LENGTH] == c[..CRC_LENGTH]
    ensures Parse(c) == None
  {
    hide LoadWord, LoadHalf, Crc16.Checksum;
    var x, y := b[..CRC_LENGTH], c[..CRC_LENGTH];
    if x == y {
      StoreLoadHalf(b, CRC_LENGTH);
      StoreLoadHalf(c, CRC_LENGTH);
      assert b == x + b[CRC_LENGTH..CRC_LENGTH + 2];
      assert c == y + c[CRC_LENGTH..CRC_LENGTH + 2];
    } else {
      Crc16.BurstDetected(x, y, at);
      SameStoredCrc(b, c);
    }
  }

  lemma SameStoredCrc(b: Block, c: Block)
    requires b[62] == c[62] && b[63] == c[63]
    ensures LoadHalf(b, CRC_LENGTH) == LoadHalf(c, CRC_LENGTH)
  {
    hide Join;
  }

  /** An erased or zeroed block is not a record. */
  lemma ZeroBlockIsNoRecord()
    ensures Parse(seq(RECORD_SIZE, _ => 0)) == None
  {
    var b: Block := seq(RECORD_SIZE, _ => 0);
    assert LoadWord(b, 0) == 0;
  }

  /** boot_record_read: the block is copied out, then tested field by field. */
  method Read(block: array<byte>) returns (r: Option<Record>)
    requires block.Length == RECORD_SIZE
    ensures r == Parse(block[..])
  {
    hide LoadWord, LoadHalf, Crc16.Checksum;
    var dest := new byte[RECORD_SIZE];
    var i := 0;
    while i < RECORD_SIZE
      invariant 0 <= i <= RECORD_SIZE && dest[..i] == block[..i]
    {
      dest[i] := block[i];
      i := i + 1;
    }
    var b: Block := dest[..];
    assert b == block[..];
    if LoadWord(b, 0) != MAGIC {
      return None;
    }
    if b[4] != VERSION {
      return None;
    }
    var crc := Crc16.Compute(dest, CRC_LENGTH);
    assert dest[..CRC_LENGTH] == b[..CRC_LENGTH];
    return if crc == LoadHalf(b, CRC_LENGTH) then Some(Fields(b)) else None;
  }

  // ----- Decisions -----

  /** The record used when the stored one is blank, corrupt or of another version. */
  function Defaults(): Record {
    var erased: Reserved := seq(42, _ => 0xFF as byte);
    Record(NONE, 1, 1, 1, CRC32_UNSET, CRC32_UNSET, erased)
  }

  function SwapType(r: Option<Record>): byte {
    if r.None? then NONE
    else if r.value.swapType > REVERT then NONE
    else r.value.swapType
  }

  predicate SwapInProgress(r: Option<Record>) {
    r.Some? && r.value.swapType != NONE && r.value.copyDone != 1
  }

  predicate RevertPending(r: Option<Record>) {
    r.Some? && r.value.swapType == REVERT && r.value.copyDone == 1 && r.value.imageOk != 1
  }

  function StagedCrc(r: Option<Record>): word {
    if r.None? then CRC32_UNSET else r.value.crcStaged
  }

  /** The record an update starts from: the stored one with its sequence advanced (modulo 2^32), or the defaults. */
  function Load(r: Option<Record>): Record {
    if r.Some? then r.value.(sequence := r.value.sequence + 1) else Defaults()
  }

  /** The bytes of the very first record, before an update changes them: nothing to do, confirmed, no checksum known. */
  lemma DefaultBytes()
    ensures Encode(Load(None))[..62] == [0x42, 0x4F, 0x4F, 0x54, 3, 0, 1, 1, 1, 0, 0, 0] + seq(50, _ => 0xFF)
  {
    hide Crc16.Checksum;
    MagicBytes();
    assert StoreWord(1) == [1, 0, 0, 0];
    assert StoreWord(0xFFFFFFFF) == [0xFF, 0xFF, 0xFF, 0xFF];
    var b := Encode(Load(None));
    assert b[..62] == Body(Defaults());
  }
}
