/**
 CRC32 of src/boot_flash.c: polynomial 0xEDB88320, initial value and final xor 0xFFFFFFFF.

 The words are the machine's; every property is proved on the coefficient sequences of `Gf2` and carried over by
 `RegisterIsSerial`.
 */
module Crc32 {
  import opened Layout
  import Gf2

  const POLYNOMIAL: word := 0xEDB88320

  /** One step of the shift register. */
  function ShiftBit(crc: word): word {
    if crc & 1 == 1 then (crc >> 1) ^ POLYNOMIAL else crc >> 1
  }

  function ShiftBits(crc: word, n: nat): word
    decreases n, crc
  {
    if n == 0 then crc else ShiftBits(ShiftBit(crc), n - 1)
  }

  /** The register after one more message byte. */
  function Absorb(crc: word, b: byte): word {
    ShiftBits(crc ^ (b as word), 8)
  }

  /** The register after a whole message. */
  function Register(crc: word, data: seq<byte>): word {
    if data == [] then crc else Absorb(Register(crc, data[..|data| - 1]), data[|data| - 1])
  }

  function Checksum(data: seq<byte>): word {
    Register(0xFFFFFFFF, data) ^ 0xFFFFFFFF
  }

  // ----- Words as coefficient sequences: the low bit is the coefficient of x^31 -----

  /** The coefficients of x^26 + x^23 + ... + x + 1, what CRC32's generator has below x^32. */
  function Generator(): (g: Gf2.Bits)
    ensures |g| == 32 && g[31]
  {
    seq(32, i => (31 - i) in {26, 23, 22, 16, 12, 11, 10, 8, 7, 5, 4, 2, 1, 0})
  }

  /** The `n` low bits of a word, lowest first. */
  function LowBits(c: word, n: nat): (b: Gf2.Bits)
    ensures |b| == n
    decreases n
  {
    if n == 0 then [] else [c & 1 == 1] + LowBits(c >> 1, n - 1)
  }

  function WordBits(c: word): (b: Gf2.Bits)
    ensures |b| == 32
  {
    LowBits(c, 32)
  }

  function ByteBits(b: byte): (bits: Gf2.Bits)
    ensures |bits| == 8
  {
    LowBits(b as word, 8)
  }

  /** The bits of a message in the order the register takes them: each byte low bit first. */
  function MessageBits(data: seq<byte>): (bits: Gf2.Bits)
    ensures |bits| == 8 * |data|
  {
    if data == [] then [] else MessageBits(data[..|data| - 1]) + ByteBits(data[|data| - 1])
  }

  // ----- Facts about single words, each small enough for bit-blasting -----

  /** The branch-free mask of the source selects the polynomial exactly when the low bit is set. */
  lemma MaskSelects(crc: word)
    ensures (crc >> 1) ^ (POLYNOMIAL & (0 - (crc & 1))) == ShiftBit(crc)
  {
    var bit := crc & 1;
    assert bit == 0 || bit == 1;
    if bit == 1 {
      assert (0 as word) - 1 == 0xFFFFFFFF;
      assert POLYNOMIAL & 0xFFFFFFFF == POLYNOMIAL;
    }
  }

  /** The inner loop of boot_crc32, with its branch-free mask. */
  method AbsorbByte(start: word, b: byte) returns (crc: word)
    ensures crc == Absorb(start, b)
  {
    hide ShiftBit;
    crc := start ^ (b as word);
    var bit := 0;
    while bit < 8
      invariant 0 <= bit <= 8
      invariant ShiftBits(crc, 8 - bit) == Absorb(start, b)
    {
      MaskSelects(crc);
      var mask := 0 - (crc & 1);
      crc := (crc >> 1) ^ (POLYNOMIAL & mask);
      bit := bit + 1;
    }
  }

  lemma NoBytes(crc: word)
    ensures Register(crc, []) == crc
  {
  }

  lemma OneMoreByte(crc: word, data: seq<byte>, b: byte)
    ensures Register(crc, data + [b]) == Absorb(Register(crc, data), b)
  {
    assert (data + [b])[..|data|] == data;
  }

  // ----- Bits of shifts and sums -----

  function ShiftRight(c: word, n: nat): word
    decreases n
  {
    if n == 0 then c else ShiftRight(c >> 1, n - 1)
  }

  lemma {:induction false} LowBitsSplit(c: word, n: nat, k: nat)
    ensures LowBits(c, n + k) == LowBits(c, n) + LowBits(ShiftRight(c, n), k)
    decreases n
  {
    if n > 0 {
      LowBitsSplit(c >> 1, n - 1, k);
    }
  }

  lemma {:induction false} LowBitsOfZero(n: nat)
    ensures LowBits(0, n) == Gf2.Zeros(n)
  {
    if n > 0 {
      LowBitsOfZero(n - 1);
    }
  }

  lemma LowBitsCons(c: word, n: nat)
    requires n > 0
    ensures LowBits(c, n) == [c & 1 == 1] + LowBits(c >> 1, n - 1)
  {
  }

  lemma XorOneMoreBit(a: word, b: word, c: word, n: nat)
    requires n > 0
    requires (c & 1 == 1) == ((a & 1 == 1) != (b & 1 == 1))
    requires LowBits(c >> 1, n - 1) == Gf2.Xor(LowBits(a >> 1, n - 1), LowBits(b >> 1, n - 1))
    ensures LowBits(c, n) == Gf2.Xor(LowBits(a, n), LowBits(b, n))
  {
    hide *;
    LowBitsCons(a, n);
    LowBitsCons(b, n);
    LowBitsCons(c, n);
    Gf2.XorCons(a & 1 == 1, LowBits(a >> 1, n - 1), b & 1 == 1, LowBits(b >> 1, n - 1));
  }

  /** `c` is the sum of `a` and `b`. */
  ghost predicate IsXor(a: word, b: word, c: word) {
    c == a ^ b
  }

  lemma XorHalves(a: word, b: word, c: word)
    requires IsXor(a, b, c)
    ensures IsXor(a >> 1, b >> 1, c >> 1)
    ensures (c & 1 == 1) == ((a & 1 == 1) != (b & 1 == 1))
  {
  }

  lemma {:induction false} XorLowBits(a: word, b: word, c: word, n: nat)
    requires IsXor(a, b, c)
    ensures LowBits(c, n) == Gf2.Xor(LowBits(a, n), LowBits(b, n))
    decreases n
  {
    hide *;
    if n > 0 {
      XorHalves(a, b, c);
      XorLowBits(a >> 1, b >> 1, c >> 1, n - 1);
      XorOneMoreBit(a, b, c, n);
    }
  }

  lemma {:induction false} ShiftRightSplit(c: word, n: nat, k: nat)
    ensures ShiftRight(c, n + k) == ShiftRight(ShiftRight(c, n), k)
    decreases n
  {
    if n > 0 {
      ShiftRightSplit(c >> 1, n - 1, k);
    }
  }

  lemma ShiftRightBy8(c: word)
    ensures ShiftRight(c, 8) == c >> 8
  {
    assert ShiftRight(c >> 4, 4) == c >> 8;
  }

  lemma ShiftRightBits(c: word)
    ensures WordBits(c >> 1) == WordBits(c)[1..] + [false]
  {
    var d := c >> 1;
    LowBitsSplit(d, 31, 1);
    ShiftRightBy8(d);
    ShiftRightBy8(d >> 8);
    ShiftRightBy8(d >> 16);
    ShiftRightSplit(d, 8, 23);
    ShiftRightSplit(d >> 8, 8, 15);
    ShiftRightSplit(d >> 16, 8, 7);
    assert ShiftRight(d >> 24, 7) == 0;
  }

  /** A byte fills the low eight bits, the front of the register. */
  lemma ByteInWord(b: byte)
    ensures WordBits(b as word) == ByteBits(b) + Gf2.Zeros(24)
  {
    LowBitsSplit(b as word, 8, 24);
    ShiftRightBy8(b as word);
    assert (b as word) >> 8 == 0;
    LowBitsOfZero(24);
  }

  lemma FourBits(c: word)
    ensures LowBits(c, 4) == [c & 1 == 1, c & 2 == 2, c & 4 == 4, c & 8 == 8]
  {
    assert (c >> 1) & 1 == 1 <==> c & 2 == 2;
    assert ((c >> 1) >> 1) & 1 == 1 <==> c & 4 == 4;
    assert (((c >> 1) >> 1) >> 1) & 1 == 1 <==> c & 8 == 8;
    LowBitsCons(c, 4);
    LowBitsCons(c >> 1, 3);
    LowBitsCons((c >> 1) >> 1, 2);
    LowBitsCons(((c >> 1) >> 1) >> 1, 1);
  }

  lemma ShiftRightBy4(c: word)
    ensures ShiftRight(c, 4) == c >> 4
  {
  }

  lemma NextFourBits(c: word, n: nat)
    ensures LowBits(c, n + 4) == [c & 1 == 1, c & 2 == 2, c & 4 == 4, c & 8 == 8] + LowBits(c >> 4, n)
  {
    LowBitsSplit(c, 4, n);
    ShiftRightBy4(c);
    FourBits(c);
  }

  /** The constant of the source is the generator. */
  lemma PolynomialBits()
    ensures WordBits(POLYNOMIAL) == Generator()
  {
    hide LowBits;
    NextFourBits(0xEDB88320, 28);
    NextFourBits(0xEDB8832, 24);
    NextFourBits(0xEDB883, 20);
    NextFourBits(0xEDB88, 16);
    NextFourBits(0xEDB8, 12);
    NextFourBits(0xEDB, 8);
    NextFourBits(0xED, 4);
    FourBits(0xE);
  }

  // ----- The register is the bit-serial divider -----

  lemma ShiftBitIsShift(c: word)
    ensures WordBits(ShiftBit(c)) == Gf2.Shift(Generator(), WordBits(c))
  {
    hide LowBits;
    ShiftRightBits(c);
    PolynomialBits();
    LowBitsCons(c, 32);
    if c & 1 == 1 {
      assert IsXor(c >> 1, POLYNOMIAL, ShiftBit(c));
      XorLowBits(c >> 1, POLYNOMIAL, ShiftBit(c), 32);
    }
  }

  lemma {:induction false} ShiftBitsAreShifts(c: word, n: nat)
    ensures WordBits(ShiftBits(c, n)) == Gf2.Shifts(Generator(), WordBits(c), n)
    decreases n
  {
    hide ShiftBit, WordBits, Generator, Gf2.Shift;
    if n > 0 {
      ShiftBitIsShift(c);
      ShiftBitsAreShifts(ShiftBit(c), n - 1);
    }
  }

  lemma AddByteInFront(c: word, b: byte, sum: word)
    requires sum == c ^ (b as word)
    ensures WordBits(sum) == Gf2.XorFront(ByteBits(b), WordBits(c))
  {
    hide LowBits, Gf2.Xor, Gf2.XorFront;
    assert IsXor(c, b as word, sum);
    XorLowBits(c, b as word, sum, 32);
    ByteInWord(b);
    Gf2.XorPadded(WordBits(c), ByteBits(b));
  }

  lemma AbsorbIsSerial(c: word, b: byte)
    ensures WordBits(Absorb(c, b)) == Gf2.Serial(Generator(), WordBits(c), ByteBits(b))
  {
    hide WordBits, ByteBits, Generator, Gf2.Shifts, Gf2.XorFront, Gf2.Serial, ShiftBits;
    var sum := c ^ (b as word);
    AddByteInFront(c, b, sum);
    ShiftBitsAreShifts(sum, 8);
    Gf2.SerialIsShifts(Generator(), WordBits(c), ByteBits(b));
  }

  /** Word by word the register does what the bit-serial divider does bit by bit. */
  lemma {:induction false} RegisterIsSerial(crc: word, data: seq<byte>)
    ensures WordBits(Register(crc, data)) == Gf2.Serial(Generator(), WordBits(crc), MessageBits(data))
  {
    hide WordBits, ByteBits, Generator, Absorb;
    if data != [] {
      var n := |data| - 1;
      RegisterIsSerial(crc, data[..n]);
      AbsorbIsSerial(Register(crc, data[..n]), data[n]);
      Gf2.SerialConcat(Generator(), WordBits(crc), MessageBits(data[..n]), ByteBits(data[n]));
    }
  }

  /**
   The checksum is a polynomial remainder: the message, with the initial value added to its first 32 bits, times
   x^32, divided by the generator, and complemented.
   */
  lemma ChecksumIsRemainder(data: seq<byte>)
    ensures
      WordBits(Checksum(data) ^ 0xFFFFFFFF)
      == Gf2.Remainder(Generator(), Gf2.XorFront(WordBits(0xFFFFFFFF), MessageBits(data) + Gf2.Zeros(32)))
  {
    hide WordBits, Generator;
    Unmask(Register(0xFFFFFFFF, data));
    RegisterIsSerial(0xFFFFFFFF, data);
    Gf2.SerialIsRemainder(Generator(), WordBits(0xFFFFFFFF), MessageBits(data));
  }

  lemma Unmask(c: word)
    ensures (c ^ 0xFFFFFFFF) ^ 0xFFFFFFFF == c
  {
  }

  // ----- Burst detection -----

  lemma {:induction false} MessageBitAt(data: seq<byte>, i: nat, j: nat)
    requires i < |data| && j < 8
    ensures MessageBits(data)[8 * i + j] == ByteBits(data[i])[j]
    decreases |data|
  {
    hide ByteBits;
    if i < |data| - 1 {
      MessageBitAt(data[..|data| - 1], i, j);
    }
  }

  lemma LowNibblesAgree(a: word, b: word, n: nat)
    requires LowBits(a, n + 4) == LowBits(b, n + 4)
    ensures a & 0xF == b & 0xF
    ensures LowBits(a >> 4, n) == LowBits(b >> 4, n)
  {
    hide LowBits;
    var l, h := LowBits(a, n + 4), LowBits(b, n + 4);
    NextFourBits(a, n);
    NextFourBits(b, n);
    assert l[0] == h[0] && l[1] == h[1] && l[2] == h[2] && l[3] == h[3];
    assert LowBits(a >> 4, n) == l[4..];
    assert LowBits(b >> 4, n) == h[4..];
  }

  lemma ByteBitsInjective(a: byte, b: byte)
    requires ByteBits(a) == ByteBits(b)
    ensures a == b
  {
    hide LowBits;
    var v, w := a as word, b as word;
    LowNibblesAgree(v, w, 4);
    LowNibblesAgree(v >> 4, w >> 4, 0);
    SameNibbles(a, b);
  }

  lemma SameNibbles(a: byte, b: byte)
    requires (a as word) & 0xF == (b as word) & 0xF
    requires ((a as word) >> 4) & 0xF == ((b as word) >> 4) & 0xF
    ensures a == b
  {
  }

  /** Two images of one length that differ only inside one window of four bytes have different checksums. */
  lemma BurstDetected(x: seq<byte>, y: seq<byte>, at: nat)
    requires |x| == |y| && x != y
    requires forall i :: 0 <= i < |x| && !(at <= i < at + 4) ==> x[i] == y[i]
    ensures Checksum(x) != Checksum(y)
  {
    hide WordBits, ByteBits, Generator, Register, MessageBits;
    var m, k := MessageBits(x), MessageBits(y);
    forall p | 0 <= p < |m| && !(8 * at <= p < 8 * at + 32) ensures m[p] == k[p] {
      var i, j := p / 8, p % 8;
      MessageBitAt(x, i, j);
      MessageBitAt(y, i, j);
    }
    var d :| 0 <= d < |x| && x[d] != y[d];
    if m == k {
      forall j | 0 <= j < 8 ensures ByteBits(x[d])[j] == ByteBits(y[d])[j] {
        MessageBitAt(x, d, j);
        MessageBitAt(y, d, j);
      }
      ByteBitsInjective(x[d], y[d]);
    }
    Gf2.BurstDetected(Generator(), WordBits(0xFFFFFFFF), m, k, 8 * at);
    RegisterIsSerial(0xFFFFFFFF, x);
    RegisterIsSerial(0xFFFFFFFF, y);
    Unmask(Register(0xFFFFFFFF, x));
    Unmask(Register(0xFFFFFFFF, y));
  }

  // ----- The table-driven form of section 8 of RFC 1952 -----

  function Sum(a: word, b: word): word { a ^ b }
  function LowByte(c: word): word { c & 0xFF }
  function HighBytes(c: word): word { c & 0xFFFFFF00 }
  function DropByte(c: word): word { c >> 8 }

  /** Entry `n` of the table that section 8 of RFC 1952 precomputes. */
  function TableEntry(n: word): word {
    ShiftBits(n, 8)
  }

  /** The table-driven update of section 8 of RFC 1952 over a whole buffer. */
  function TableUpdate(crc: word, data: seq<byte>): word {
    if data == [] then crc
    else
      var c := TableUpdate(crc, data[..|data| - 1]);
      Sum(TableEntry(LowByte(Sum(c, data[|data| - 1] as word))), DropByte(c))
  }

  /** What one step adds to the shifted register. */
  function Tap(c: word): word {
    if c & 1 == 1 then POLYNOMIAL else 0
  }

  lemma XorZero(h: word)
    ensures h ^ 0 == h
  {
  }

  lemma ShiftBitIsTap(c: word)
    ensures IsXor(c >> 1, Tap(c), ShiftBit(c))
  {
    XorZero(c >> 1);
    if c & 1 == 1 {
      assert Tap(c) == POLYNOMIAL;
    } else {
      assert Tap(c) == 0;
    }
  }

  lemma TapLinear(a: word, b: word, c: word)
    requires (c & 1 == 1) == ((a & 1 == 1) != (b & 1 == 1))
    ensures IsXor(Tap(a), Tap(b), Tap(c))
  {
  }

  lemma XorOfSums(a: word, b: word, c: word, p: word, q: word, r: word, x: word, y: word, z: word)
    requires IsXor(a, b, c) && IsXor(p, q, r)
    requires IsXor(a, p, x) && IsXor(b, q, y) && IsXor(c, r, z)
    ensures IsXor(x, y, z)
  {
  }

  lemma ShiftBitLinear(a: word, b: word, c: word)
    requires IsXor(a, b, c)
    ensures IsXor(ShiftBit(a), ShiftBit(b), ShiftBit(c))
  {
    hide *;
    XorHalves(a, b, c);
    TapLinear(a, b, c);
    ShiftBitIsTap(a);
    ShiftBitIsTap(b);
    ShiftBitIsTap(c);
    XorOfSums(a >> 1, b >> 1, c >> 1, Tap(a), Tap(b), Tap(c), ShiftBit(a), ShiftBit(b), ShiftBit(c));
  }

  lemma {:induction false} ShiftBitsLinear(a: word, b: word, c: word, n: nat)
    requires IsXor(a, b, c)
    ensures IsXor(ShiftBits(a, n), ShiftBits(b, n), ShiftBits(c, n))
    decreases n
  {
    hide IsXor, ShiftBit;
    if n > 0 {
      ShiftBitLinear(a, b, c);
      ShiftBitsLinear(ShiftBit(a), ShiftBit(b), ShiftBit(c), n - 1);
    }
  }

  /** The `n` low bits are clear. */
  ghost predicate Quiet(c: word, n: nat)
    decreases n
  {
    n == 0 || (c & 1 == 0 && Quiet(c >> 1, n - 1))
  }

  lemma {:induction false} QuietSteps(c: word, n: nat)
    requires Quiet(c, n)
    ensures ShiftBits(c, n) == ShiftRight(c, n)
    decreases n
  {
    if n > 0 {
      QuietSteps(c >> 1, n - 1);
    }
  }

  lemma LowByteClear(c: word)
    ensures Quiet(HighBytes(c), 8)
  {
    var h := HighBytes(c);
    assert Quiet(h >> 4, 4);
  }

  lemma SplitLowByte(c: word, b: byte)
    ensures IsXor(LowByte(Sum(c, b as word)), HighBytes(Sum(c, b as word)), Sum(c, b as word))
    ensures DropByte(HighBytes(Sum(c, b as word))) == DropByte(c)
  {
  }

  lemma IsXorIsSum(a: word, b: word, c: word)
    ensures IsXor(a, b, c) <==> c == Sum(a, b)
  {
  }

  lemma DropByteIsShift(c: word)
    ensures ShiftRight(c, 8) == DropByte(c)
  {
    ShiftRightBy8(c);
  }

  lemma AbsorbIsSum(c: word, b: byte)
    ensures Absorb(c, b) == TableEntry(Sum(c, b as word))
  {
  }

  /** One byte: the eight shifts of the source and one table lookup agree. */
  lemma TableStep(c: word, b: byte)
    ensures Absorb(c, b) == Sum(TableEntry(LowByte(Sum(c, b as word))), DropByte(c))
  {
    hide ShiftBits, Sum, LowByte, HighBytes, DropByte, ShiftRight, IsXor, Quiet, Absorb;
    var z := Sum(c, b as word);
    AbsorbIsSum(c, b);
    SplitLowByte(c, b);
    ShiftBitsLinear(LowByte(z), HighBytes(z), z, 8);
    LowByteClear(z);
    QuietSteps(HighBytes(z), 8);
    DropByteIsShift(HighBytes(z));
    IsXorIsSum(ShiftBits(LowByte(z), 8), ShiftBits(HighBytes(z), 8), ShiftBits(z, 8));
  }

  /** The bitwise loop and the table-driven form compute the same register on every message. */
  lemma {:induction false} TableFormAgrees(crc: word, data: seq<byte>)
    ensures TableUpdate(crc, data) == Register(crc, data)
  {
    hide Absorb, TableEntry, Sum, LowByte, DropByte;
    if data != [] {
      var n := |data| - 1;
      TableFormAgrees(crc, data[..n]);
      TableStep(Register(crc, data[..n]), data[n]);
    }
  }
}
