/**
 CRC16-CCITT of src/boot_record.c: polynomial 0x1021, initial value 0xFFFF, high bit first.

 As in `Crc32`, properties are proved on the coefficient sequences of `Gf2` and carried over by `RegisterIsSerial`.
 */
module Crc16 {
  import opened Layout
  import Gf2

  type half = bv16

  /** One step of the shift register. */
  function ShiftBit(crc: half): half {
    if crc & 0x8000 != 0 then (crc << 1) ^ 0x1021 else crc << 1
  }

  function ShiftBits(crc: half, n: nat): half
    decreases n, crc
  {
    if n == 0 then crc else ShiftBits(ShiftBit(crc), n - 1)
  }

  /** The register after one more message byte. */
  function Absorb(crc: half, b: byte): half {
    ShiftBits(crc ^ ((b as half) << 8), 8)
  }

  function Register(crc: half, data: seq<byte>): half {
    if data == [] then crc else Absorb(Register(crc, data[..|data| - 1]), data[|data| - 1])
  }

  function Checksum(data: seq<byte>): half {
    Register(0xFFFF, data)
  }

  /** The inner loop of boot_record_crc16. */
  method AbsorbByte(start: half, b: byte) returns (crc: half)
    ensures crc == Absorb(start, b)
  {
    crc := start ^ ((b as half) << 8);
    var bit := 0;
    while bit < 8
      invariant 0 <= bit <= 8
      invariant ShiftBits(crc, 8 - bit) == Absorb(start, b)
    {
      if crc & 0x8000 != 0 {
        crc := (crc << 1) ^ 0x1021;
      } else {
        crc := crc << 1;
      }
      bit := bit + 1;
    }
  }

  /** boot_record_crc16 */
  method Compute(data: array<byte>, length: nat) returns (crc: half)
    requires length <= data.Length
    ensures crc == Checksum(data[..length])
  {
    hide Absorb;
    crc := 0xFFFF;
    var i := 0;
    while i < length
      invariant 0 <= i <= length
      invariant crc == Register(0xFFFF, data[..i])
    {
      assert data[..i + 1][..i] == data[..i];
      crc := AbsorbByte(crc, data[i]);
      i := i + 1;
    }
  }

  // ----- Words as coefficient sequences: the high bit is the coefficient of x^15 -----

  /** The coefficients of x^12 + x^5 + 1, what the CCITT generator has below x^16. */
  function Generator(): (g: Gf2.Bits)
    ensures |g| == 16 && g[15]
  {
    seq(16, i => (15 - i) in {12, 5, 0})
  }

  /** The `n` high bits, highest first. */
  function HighBits(c: half, n: nat): (b: Gf2.Bits)
    ensures |b| == n
    decreases n
  {
    if n == 0 then [] else [c & 0x8000 != 0] + HighBits(c << 1, n - 1)
  }

  function WordBits(c: half): (b: Gf2.Bits)
    ensures |b| == 16
  {
    HighBits(c, 16)
  }

  function ByteBits(b: byte): (bits: Gf2.Bits)
    ensures |bits| == 8
  {
    HighBits((b as half) << 8, 8)
  }

  /** The bits of a message in the order the register takes them: each byte high bit first. */
  function MessageBits(data: seq<byte>): (bits: Gf2.Bits)
    ensures |bits| == 8 * |data|
  {
    if data == [] then [] else MessageBits(data[..|data| - 1]) + ByteBits(data[|data| - 1])
  }

  ghost predicate IsXor(a: half, b: half, c: half) {
    c == a ^ b
  }

  lemma XorHalves(a: half, b: half, c: half)
    requires IsXor(a, b, c)
    ensures IsXor(a << 1, b << 1, c << 1)
    ensures (c & 0x8000 != 0) == ((a & 0x8000 != 0) != (b & 0x8000 != 0))
  {
  }

  lemma HighBitsCons(c: half, n: nat)
    requires n > 0
    ensures HighBits(c, n) == [c & 0x8000 != 0] + HighBits(c << 1, n - 1)
  {
  }

  lemma XorOneMoreBit(a: half, b: half, c: half, n: nat)
    requires n > 0
    requires (c & 0x8000 != 0) == ((a & 0x8000 != 0) != (b & 0x8000 != 0))
    requires HighBits(c << 1, n - 1) == Gf2.Xor(HighBits(a << 1, n - 1), HighBits(b << 1, n - 1))
    ensures HighBits(c, n) == Gf2.Xor(HighBits(a, n), HighBits(b, n))
  {
    hide *;
    HighBitsCons(a, n);
    HighBitsCons(b, n);
    HighBitsCons(c, n);
    Gf2.XorCons(a & 0x8000 != 0, HighBits(a << 1, n - 1), b & 0x8000 != 0, HighBits(b << 1, n - 1));
  }

  lemma {:induction false} XorHighBits(a: half, b: half, c: half, n: nat)
    requires IsXor(a, b, c)
    ensures HighBits(c, n) == Gf2.Xor(HighBits(a, n), HighBits(b, n))
    decreases n
  {
    hide *;
    if n > 0 {
      XorHalves(a, b, c);
      XorHighBits(a << 1, b << 1, c << 1, n - 1);
      XorOneMoreBit(a, b, c, n);
    }
  }

  // ----- Bits of shifts and sums -----

  function ShiftLeft(c: half, n: nat): half
    decreases n
  {
    if n == 0 then c else ShiftLeft(c << 1, n - 1)
  }

  lemma {:induction false} HighBitsSplit(c: half, n: nat, k: nat)
    ensures HighBits(c, n + k) == HighBits(c, n) + HighBits(ShiftLeft(c, n), k)
    decreases n
  {
    if n > 0 {
      HighBitsSplit(c << 1, n - 1, k);
    }
  }

  lemma {:induction false} HighBitsOfZero(n: nat)
    ensures HighBits(0, n) == Gf2.Zeros(n)
  {
    if n > 0 {
      HighBitsOfZero(n - 1);
    }
  }

  lemma ShiftLeftBy4(c: half)
    ensures ShiftLeft(c, 4) == c << 4
  {
  }

  lemma {:induction false} ShiftLeftSplit(c: half, n: nat, k: nat)
    ensures ShiftLeft(c, n + k) == ShiftLeft(ShiftLeft(c, n), k)
    decreases n
  {
    if n > 0 {
      ShiftLeftSplit(c << 1, n - 1, k);
    }
  }

  lemma AllShiftedOut(c: half)
    ensures ShiftLeft(c << 1, 15) == 0
  {
    var d := c << 1;
    ShiftLeftBy4(d);
    ShiftLeftBy4(d << 4);
    ShiftLeftBy4(d << 8);
    ShiftLeftSplit(d, 4, 11);
    ShiftLeftSplit(d << 4, 4, 7);
    ShiftLeftSplit(d << 8, 4, 3);
    assert ShiftLeft(d << 12, 3) == 0;
  }

  lemma ShiftLeftBits(c: half)
    ensures WordBits(c << 1) == WordBits(c)[1..] + [false]
  {
    hide HighBits, ShiftLeft;
    HighBitsSplit(c << 1, 15, 1);
    AllShiftedOut(c);
    HighBitsOfZero(1);
    HighBitsCons(c, 16);
  }

  lemma FourBits(c: half)
    ensures HighBits(c, 4) == [c & 0x8000 != 0, c & 0x4000 != 0, c & 0x2000 != 0, c & 0x1000 != 0]
  {
    assert (c << 1) & 0x8000 != 0 <==> c & 0x4000 != 0;
    assert ((c << 1) << 1) & 0x8000 != 0 <==> c & 0x2000 != 0;
    assert (((c << 1) << 1) << 1) & 0x8000 != 0 <==> c & 0x1000 != 0;
    HighBitsCons(c, 4);
    HighBitsCons(c << 1, 3);
    HighBitsCons((c << 1) << 1, 2);
    HighBitsCons(((c << 1) << 1) << 1, 1);
  }

  lemma NextFourBits(c: half, n: nat)
    ensures
      HighBits(c, n + 4)
      == [c & 0x8000 != 0, c & 0x4000 != 0, c & 0x2000 != 0, c & 0x1000 != 0] + HighBits(c << 4, n)
  {
    HighBitsSplit(c, 4, n);
    ShiftLeftBy4(c);
    FourBits(c);
  }

  lemma NibbleDecides(a: half, b: half)
    requires HighBits(a, 4) == HighBits(b, 4)
    ensures a >> 12 == b >> 12
  {
    FourBits(a);
    FourBits(b);
    var x, y := HighBits(a, 4), HighBits(b, 4);
    assert x[0] == y[0] && x[1] == y[1] && x[2] == y[2] && x[3] == y[3];
    hide HighBits;
  }

  lemma NibblesDecide(a: half, b: half)
    requires a >> 12 == b >> 12 && (a << 4) >> 12 == (b << 4) >> 12
    requires (a << 8) >> 12 == (b << 8) >> 12 && (a << 12) >> 12 == (b << 12) >> 12
    ensures a == b
  {
  }

  lemma ShiftTwice(c: half)
    ensures (c << 4) << 4 == c << 8 && (c << 8) << 4 == c << 12
  {
  }

  lemma NibbleThenRest(c: half, n: nat)
    ensures HighBits(c, n + 4) == HighBits(c, 4) + HighBits(c << 4, n)
  {
    hide HighBits;
    NextFourBits(c, n);
    FourBits(c);
  }

  lemma FourNibbles(c: half)
    ensures WordBits(c) == HighBits(c, 4) + (HighBits(c << 4, 4) + (HighBits(c << 8, 4) + HighBits(c << 12, 4)))
  {
    hide HighBits;
    NibbleThenRest(c, 12);
    NibbleThenRest(c << 4, 8);
    NibbleThenRest(c << 8, 4);
    ShiftTwice(c);
  }

  lemma SameParts(a: Gf2.Bits, b: Gf2.Bits, c: Gf2.Bits, d: Gf2.Bits)
    requires |a| == |c| && a + b == c + d
    ensures a == c && b == d
  {
    assert (a + b)[..|a|] == a && (a + b)[|a|..] == b;
    assert (c + d)[..|c|] == c && (c + d)[|c|..] == d;
  }

  /** A word is its bits. */
  lemma WordBitsInjective(a: half, b: half)
    requires WordBits(a) == WordBits(b)
    ensures a == b
  {
    hide HighBits, WordBits;
    FourNibbles(a);
    FourNibbles(b);
    var x2, y2 := HighBits(a << 8, 4) + HighBits(a << 12, 4), HighBits(b << 8, 4) + HighBits(b << 12, 4);
    SameParts(HighBits(a, 4), HighBits(a << 4, 4) + x2, HighBits(b, 4), HighBits(b << 4, 4) + y2);
    SameParts(HighBits(a << 4, 4), x2, HighBits(b << 4, 4), y2);
    SameParts(HighBits(a << 8, 4), HighBits(a << 12, 4), HighBits(b << 8, 4), HighBits(b << 12, 4));
    NibbleDecides(a, b);
    NibbleDecides(a << 4, b << 4);
    NibbleDecides(a << 8, b << 8);
    NibbleDecides(a << 12, b << 12);
    NibblesDecide(a, b);
  }

  /** The constant of the source is the generator. */
  lemma PolynomialBits()
    ensures WordBits(0x1021) == Generator()
  {
    hide HighBits;
    NextFourBits(0x1021, 12);
    NextFourBits(0x0210, 8);
    NextFourBits(0x2100, 4);
    FourBits(0x1000);
  }

  lemma ByteShiftedOut(b: byte)
    ensures ShiftLeft((b as half) << 8, 8) == 0
  {
    var c := (b as half) << 8;
    ShiftLeftBy4(c);
    ShiftLeftBy4(c << 4);
    ShiftLeftSplit(c, 4, 4);
    assert (c << 4) << 4 == 0;
  }

  /** A byte added at the top fills the high eight bits, the front of the register. */
  lemma ByteInWord(b: byte)
    ensures WordBits((b as half) << 8) == ByteBits(b) + Gf2.Zeros(8)
  {
    hide HighBits, ShiftLeft;
    HighBitsSplit((b as half) << 8, 8, 8);
    ByteShiftedOut(b);
    HighBitsOfZero(8);
  }

  // ----- The register is the bit-serial divider -----

  lemma ShiftBitIsShift(c: half)
    ensures WordBits(ShiftBit(c)) == Gf2.Shift(Generator(), WordBits(c))
  {
    hide HighBits;
    ShiftLeftBits(c);
    PolynomialBits();
    HighBitsCons(c, 16);
    if c & 0x8000 != 0 {
      assert IsXor(c << 1, 0x1021, ShiftBit(c));
      XorHighBits(c << 1, 0x1021, ShiftBit(c), 16);
    }
  }

  lemma {:induction false} ShiftBitsAreShifts(c: half, n: nat)
    ensures WordBits(ShiftBits(c, n)) == Gf2.Shifts(Generator(), WordBits(c), n)
    decreases n
  {
    hide ShiftBit, WordBits, Generator, Gf2.Shift;
    if n > 0 {
      ShiftBitIsShift(c);
      ShiftBitsAreShifts(ShiftBit(c), n - 1);
    }
  }

  lemma AddByteInFront(c: half, b: byte, sum: half)
    requires sum == c ^ ((b as half) << 8)
    ensures WordBits(sum) == Gf2.XorFront(ByteBits(b), WordBits(c))
  {
    hide HighBits, Gf2.Xor, Gf2.XorFront;
    assert IsXor(c, (b as half) << 8, sum);
    XorHighBits(c, (b as half) << 8, sum, 16);
    ByteInWord(b);
    Gf2.XorPadded(WordBits(c), ByteBits(b));
  }

  lemma AbsorbIsSerial(c: half, b: byte)
    ensures WordBits(Absorb(c, b)) == Gf2.Serial(Generator(), WordBits(c), ByteBits(b))
  {
    hide WordBits, ByteBits, Generator, Gf2.Shifts, Gf2.XorFront, Gf2.Serial, ShiftBits;
    var sum := c ^ ((b as half) << 8);
    AddByteInFront(c, b, sum);
    ShiftBitsAreShifts(sum, 8);
    Gf2.SerialIsShifts(Generator(), WordBits(c), ByteBits(b));
  }

  /** Word by word the register does what the bit-serial divider does bit by bit. */
  lemma {:induction false} RegisterIsSerial(crc: half, data: seq<byte>)
    ensures WordBits(Register(crc, data)) == Gf2.Serial(Generator(), WordBits(crc), MessageBits(data))
  {
    hide WordBits, ByteBits, Generator, Absorb;
    if data != [] {
      var n := |data| - 1;
      RegisterIsSerial(crc, data[..n]);
      AbsorbIsSerial(Register(crc, data[..n]), data[n]);
      Gf2.SerialConcat(Generator(), WordBits(crc), MessageBits(data[..n]), ByteBits(data[n]));
    }
  }

  /** The initial value: every coefficient is one. */
  lemma InitialBits()
    ensures WordBits(0xFFFF) == seq(16, _ => true)
  {
    hide HighBits;
    NextFourBits(0xFFFF, 12);
    NextFourBits(0xFFF0, 8);
    NextFourBits(0xFF00, 4);
    FourBits(0xF000);
  }

  /**
   The checksum is a polynomial remainder: the message, with ones added to its first 16 bits, times x^16, divided by the
   generator.
   */
  lemma ChecksumIsRemainder(data: seq<byte>)
    ensures
      WordBits(Checksum(data))
      == Gf2.Remainder(Generator(), Gf2.XorFront(seq(16, _ => true), MessageBits(data) + Gf2.Zeros(16)))
  {
    hide WordBits, Generator;
    RegisterIsSerial(0xFFFF, data);
    InitialBits();
    Gf2.SerialIsRemainder(Generator(), WordBits(0xFFFF), MessageBits(data));
  }

  // ----- Burst detection -----

  lemma {:induction false} MessageBitAt(data: seq<byte>, i: nat, j: nat)
    requires i < |data| && j < 8
    ensures MessageBits(data)[8 * i + j] == ByteBits(data[i])[j]
    decreases |data|
  {
    hide ByteBits;
    if i < |data| - 1 {
      MessageBitAt(data[..|data| - 1], i, j);
    }
  }

  lemma HighNibblesAgree(a: half, b: half, n: nat)
    requires HighBits(a, n + 4) == HighBits(b, n + 4)
    ensures a & 0xF000 == b & 0xF000
    ensures HighBits(a << 4, n) == HighBits(b << 4, n)
  {
    hide HighBits;
    var l, h := HighBits(a, n + 4), HighBits(b, n + 4);
    NextFourBits(a, n);
    NextFourBits(b, n);
    assert l[0] == h[0] && l[1] == h[1] && l[2] == h[2] && l[3] == h[3];
    assert HighBits(a << 4, n) == l[4..];
    assert HighBits(b << 4, n) == h[4..];
  }

  lemma SameNibbles(a: byte, b: byte)
    requires ((a as half) << 8) & 0xF000 == ((b as half) << 8) & 0xF000
    requires (((a as half) << 8) << 4) & 0xF000 == (((b as half) << 8) << 4) & 0xF000
    ensures a == b
  {
  }

  lemma ByteBitsInjective(a: byte, b: byte)
    requires ByteBits(a) == ByteBits(b)
    ensures a == b
  {
    hide HighBits;
    var v, w := (a as half) << 8, (b as half) << 8;
    HighNibblesAgree(v, w, 4);
    HighNibblesAgree(v << 4, w << 4, 0);
    SameNibbles(a, b);
  }

  /** Two messages of one length that differ only inside one window of two bytes have different checksums. */
  lemma BurstDetected(x: seq<byte>, y: seq<byte>, at: nat)
    requires |x| == |y| && x != y
    requires forall i :: 0 <= i < |x| && !(at <= i < at + 2) ==> x[i] == y[i]
    ensures Checksum(x) != Checksum(y)
  {
    hide WordBits, ByteBits, Generator, Register, MessageBits;
    var m, k := MessageBits(x), MessageBits(y);
    forall p | 0 <= p < |m| && !(8 * at <= p < 8 * at + 16) ensures m[p] == k[p] {
      var i, j := p / 8, p % 8;
      MessageBitAt(x, i, j);
      MessageBitAt(y, i, j);
    }
    var d :| 0 <= d < |x| && x[d] != y[d];
    if m == k {
      forall j | 0 <= j < 8 ensures ByteBits(x[d])[j] == ByteBits(y[d])[j] {
        MessageBitAt(x, d, j);
        MessageBitAt(y, d, j);
      }
      ByteBitsInjective(x[d], y[d]);
    }
    Gf2.BurstDetected(Generator(), WordBits(0xFFFF), m, k, 8 * at);
    RegisterIsSerial(0xFFFF, x);
    RegisterIsSerial(0xFFFF, y);
  }
}
