/** The flash map and the image check shared by every other module (src/boot_layout.h). */
module Layout {

  type byte = bv8
  type word = bv32

  datatype Option<+T> = None | Some(value: T)

  // Code flash.
  const CODE_SIZE: nat := 0x40000
  const REGION0_SIZE: nat := 0x10000
  const REGION0_BLOCK: nat := 0x2000
  const REGION1_BLOCK: nat := 0x8000
  const CODE_WRITE_UNIT: nat := 128

  const BOOTLOADER_SIZE: nat := 0x4000
  const SCRATCH_BASE: nat := 0x8000
  const SCRATCH_SIZE: nat := 0x8000
  const PRIMARY_BASE: nat := 0x10000
  const PRIMARY_SIZE: nat := 0x18000
  const SECONDARY_BASE: nat := 0x28000
  const SECONDARY_SIZE: nat := 0x18000
  const SECTOR_SIZE: nat := 0x8000
  const SECTOR_COUNT: nat := PRIMARY_SIZE / SECTOR_SIZE
  const LEGS_PER_SECTOR: nat := 3
  const STEP_COUNT: nat := SECTOR_COUNT * LEGS_PER_SECTOR

  // Data flash: block 0 holds the boot record, block 1 the swap log.
  const DATA_START: nat := 0x08000000
  const DATA_BLOCK: nat := 64
  const RECORD_ADDRESS: nat := DATA_START
  const RECORD_SIZE: nat := 64
  const LOG_ADDRESS: nat := RECORD_ADDRESS + RECORD_SIZE
  const LOG_SIZE: nat := 64
  const LOG_WORDS: nat := 16

  const CRC32_UNSET: word := 0xFFFFFFFF
  const LOG_TAG: word := 0xA5A50000

  /** One erase sector of a slot, as it reads. */
  type Sector = s: seq<byte> | |s| == SECTOR_SIZE witness seq(SECTOR_SIZE, _ => 0xFF)

  /** An erased sector of code flash. */
  const BLANK_SECTOR: Sector := seq(SECTOR_SIZE, _ => 0xFF as byte)

  /** A whole slot, sector by sector. */
  type Slot = s: seq<Sector> | |s| == SECTOR_COUNT witness seq(SECTOR_COUNT, _ => BLANK_SECTOR)

  /** Address of a sector of the primary slot. */
  function PrimarySector(sector: nat): nat {
    PRIMARY_BASE + sector * SECTOR_SIZE
  }

  /** Address of a sector of the secondary slot. */
  function SecondarySector(sector: nat): nat {
    SECONDARY_BASE + sector * SECTOR_SIZE
  }

  /** Erase block size of the region an address falls in. */
  function BlockSize(address: nat): (size: nat)
    ensures size > 0
  {
    if address >= DATA_START then DATA_BLOCK
    else if address < REGION0_SIZE then REGION0_BLOCK
    else REGION1_BLOCK
  }

  /** The log entry that marks a step as completed. */
  function LogEntry(step: nat): word {
    LOG_TAG | ((step % 0x10000) as word)
  }

  /** Every log word has its own entry: the tag in the upper half, the step in the lower. */
  lemma LogEntryExactly(step: nat)
    requires step < LOG_WORDS
    ensures LogEntry(step) as int == 0xA5A5_0000 + step
  {
    assert step % 0x10000 == step;
    TagAndStep(step);
  }

  lemma TagAndStep(n: nat)
    requires n < LOG_WORDS
    ensures (LOG_TAG | (n as word)) as int == 0xA5A5_0000 + n
  {
  }

  /** Four bytes as a word, the first one lowest. */
  function Join(b0: byte, b1: byte, b2: byte, b3: byte): word {
    (b0 as word) | ((b1 as word) << 8) | ((b2 as word) << 16) | ((b3 as word) << 24)
  }

  /** A little-endian 32-bit load. */
  function LoadWord(b: seq<byte>, at: nat): word
    requires at + 4 <= |b|
  {
    Join(b[at], b[at + 1], b[at + 2], b[at + 3])
  }

  // ----- The vector-table test (boot_image_ok_at) -----

  /** Blank flash. */
  predicate ErasedVectors(sp: word, pc: word) {
    sp == 0xFFFFFFFF || pc == 0xFFFFFFFF
  }

  /** The initial stack pointer lands inside RAM and is 8 byte aligned. */
  predicate StackOk(sp: word) {
    !(sp < 0x20000000 || sp > 0x20000000 + 0xA000 || sp & 7 != 0)
  }

  predicate Thumb(pc: word) {
    pc & 1 != 0
  }

  function Handler(pc: word): word {
    pc & 0xFFFFFFFE
  }

  predicate InRegion(handler: word, linkBase: word, size: word) {
    !(handler < linkBase || handler >= linkBase + size)
  }

  /** `sp` and `pc` are the first two words of the image, `linkBase` and `size` the region it is linked for. */
  predicate VectorsOk(sp: word, pc: word, linkBase: word, size: word) {
    !ErasedVectors(sp, pc) && StackOk(sp) && Thumb(pc) && InRegion(Handler(pc), linkBase, size)
  }

  /** A slot holds an image that can run from the primary slot. Staged images are linked for the primary slot too. */
  predicate ImageOk(slot: Slot) {
    VectorsOk(LoadWord(slot[0], 0), LoadWord(slot[0], 4), 0x10000, 0x18000)
  }

  /** The number that four bytes hold, the first one lowest. */
  function Number(b: seq<byte>, at: nat): (n: nat)
    requires at + 4 <= |b|
  {
    Nat(b[at]) + 0x100 * Nat(b[at + 1]) + 0x1_0000 * Nat(b[at + 2]) + 0x100_0000 * Nat(b[at + 3])
  }

  function Nat(b: byte): (n: nat)
    ensures n < 0x100
  {
    b as int
  }

  lemma NumberHere(b: seq<byte>, at: nat)
    requires at + 4 <= |b|
    ensures Number(b, at) == Number([b[at], b[at + 1], b[at + 2], b[at + 3]], 0)
  {
    hide Nat;
  }

  lemma StackOkBytes(b0: byte, b1: byte, b2: byte, b3: byte)
    ensures
      StackOk(Join(b0, b1, b2, b3))
      <==> b3 == 0x20 && b2 == 0 && (b1 < 0xA0 || (b1 == 0xA0 && b0 == 0)) && b0 & 7 == 0
  {
  }

  lemma ThumbBytes(b0: byte, b1: byte, b2: byte, b3: byte)
    ensures Thumb(Join(b0, b1, b2, b3)) <==> b0 & 1 != 0
  {
  }

  lemma InPrimaryBytes(b0: byte, b1: byte, b2: byte, b3: byte)
    ensures
      InRegion(Handler(Join(b0, b1, b2, b3)), 0x10000, 0x18000)
      <==> b3 == 0 && (b2 == 1 || (b2 == 2 && b1 < 0x80))
  {
  }

  lemma BlankBytes(b0: byte, b1: byte, b2: byte, b3: byte)
    ensures Join(b0, b1, b2, b3) == 0xFFFFFFFF ==> b3 == 0xFF
  {
  }

  lemma LowBitsOfByte(b: byte)
    ensures b & 7 == 0 <==> Nat(b) % 8 == 0
    ensures b & 1 != 0 <==> Nat(b) % 2 == 1
  {
  }

  /** What the byte comparisons of the tests above say of the numbers. */
  lemma ByteNumbers(b: byte)
    ensures (b == 0 <==> Nat(b) == 0) && (b == 1 <==> Nat(b) == 1) && (b == 2 <==> Nat(b) == 2)
    ensures (b == 0x20 <==> Nat(b) == 0x20) && (b == 0xA0 <==> Nat(b) == 0xA0)
    ensures (b < 0xA0 <==> Nat(b) < 0xA0) && (b < 0x80 <==> Nat(b) < 0x80)
  {
  }

  lemma AddEights(x: nat, q: nat)
    ensures (x + 8 * q) % 8 == x % 8
  {
  }

  lemma AddTwos(x: nat, q: nat)
    ensures (x + 2 * q) % 2 == x % 2
  {
  }

  lemma StackNumber(b0: byte, b1: byte, b2: byte, b3: byte)
    ensures
      var n := Number([b0, b1, b2, b3], 0);
      && (0x2000_0000 <= n <= 0x2000_A000 <==> b3 == 0x20 && b2 == 0 && (b1 < 0xA0 || (b1 == 0xA0 && b0 == 0)))
      && n % 8 == Nat(b0) % 8
  {
    hide Nat;
    AddEights(Nat(b0), 0x20 * Nat(b1) + 0x2000 * Nat(b2) + 0x20_0000 * Nat(b3));
    ByteNumbers(b0);
    ByteNumbers(b1);
    ByteNumbers(b2);
    ByteNumbers(b3);
  }

  lemma HandlerNumber(b0: byte, b1: byte, b2: byte, b3: byte)
    ensures
      var n := Number([b0, b1, b2, b3], 0);
      && n % 2 == Nat(b0) % 2
      && (Nat(b0) > 0 ==>
            (PRIMARY_BASE <= n - 1 < PRIMARY_BASE + PRIMARY_SIZE <==> b3 == 0 && (b2 == 1 || (b2 == 2 && b1 < 0x80))))
  {
    hide Nat;
    AddTwos(Nat(b0), 0x80 * Nat(b1) + 0x8000 * Nat(b2) + 0x80_0000 * Nat(b3));
    ByteNumbers(b1);
    ByteNumbers(b2);
    ByteNumbers(b3);
  }

  lemma StackExactly(b0: byte, b1: byte, b2: byte, b3: byte)
    ensures
      var w, n := Join(b0, b1, b2, b3), Number([b0, b1, b2, b3], 0);
      && (StackOk(w) <==> 0x2000_0000 <= n <= 0x2000_A000 && n % 8 == 0)
      && (StackOk(w) ==> w != 0xFFFFFFFF)
  {
    hide Join, StackOk, Number, Nat;
    StackOkBytes(b0, b1, b2, b3);
    BlankBytes(b0, b1, b2, b3);
    LowBitsOfByte(b0);
    StackNumber(b0, b1, b2, b3);
  }

  lemma HandlerExactly(b0: byte, b1: byte, b2: byte, b3: byte)
    ensures
      var w, n := Join(b0, b1, b2, b3), Number([b0, b1, b2, b3], 0);
      && (Thumb(w) && InRegion(Handler(w), 0x10000, 0x18000)
          <==> n % 2 == 1 && PRIMARY_BASE <= n - 1 < PRIMARY_BASE + PRIMARY_SIZE)
      && (InRegion(Handler(w), 0x10000, 0x18000) ==> w != 0xFFFFFFFF)
  {
    hide Join, Thumb, InRegion, Handler, Number, Nat;
    ThumbBytes(b0, b1, b2, b3);
    InPrimaryBytes(b0, b1, b2, b3);
    BlankBytes(b0, b1, b2, b3);
    LowBitsOfByte(b0);
    HandlerNumber(b0, b1, b2, b3);
  }

  /**
   An image is accepted exactly when its first word is a multiple of 8 inside RAM, its end included, and its second one
   more than an even address inside the primary slot: an odd number, as it takes to enter Thumb code.
   */
  lemma ImageOkExactly(slot: Slot)
    ensures
      var sp, pc := Number(slot[0], 0), Number(slot[0], 4);
      ImageOk(slot) <==>
        && 0x2000_0000 <= sp <= 0x2000_A000 && sp % 8 == 0
        && pc % 2 == 1 && PRIMARY_BASE <= pc - 1 < PRIMARY_BASE + PRIMARY_SIZE
  {
    hide Join, Number, Nat, StackOk, Thumb, InRegion, Handler;
    var s := slot[0];
    NumberHere(s, 0);
    NumberHere(s, 4);
    StackExactly(s[0], s[1], s[2], s[3]);
    HandlerExactly(s[4], s[5], s[6], s[7]);
  }

  /** The bytes of some sectors, in address order. */
  function Flatten(sectors: seq<Sector>): (b: seq<byte>)
    ensures |b| == |sectors| * SECTOR_SIZE
  {
    if sectors == [] then [] else Flatten(sectors[..|sectors| - 1]) + sectors[|sectors| - 1]
  }

  /** Slots that differ, differ in a byte. */
  lemma {:induction false} FlattenInjective(a: seq<Sector>, b: seq<Sector>)
    requires |a| == |b| && Flatten(a) == Flatten(b)
    ensures a == b
  {
    if a != [] {
      var n := |a| - 1;
      assert Flatten(a)[..n * SECTOR_SIZE] == Flatten(a[..n]) && Flatten(a)[n * SECTOR_SIZE..] == a[n];
      assert Flatten(b)[..n * SECTOR_SIZE] == Flatten(b[..n]) && Flatten(b)[n * SECTOR_SIZE..] == b[n];
      FlattenInjective(a[..n], b[..n]);
      assert a == a[..n] + [a[n]] && b == b[..n] + [b[n]];
    }
  }
}
