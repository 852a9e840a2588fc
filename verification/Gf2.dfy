/**
 Polynomials over GF(2) and the bit-serial shift register that divides by one.

 A polynomial is the sequence of its coefficients, highest degree first. A generator `g` of length n stands for
 x^n + g[0] x^(n-1) + ... + g[n-1]; a register for it holds n coefficients. Both checksums of the bootloader are
 instances: CRC32 with n = 32 (the reflected form only renames the bits of the register) and CRC16 with n = 16.
 */
module Gf2 {

  type Bits = seq<bool>

  function Zeros(n: nat): (z: Bits)
    ensures |z| == n
  {
    seq(n, _ => false)
  }

  ghost predicate IsZero(b: Bits) {
    forall i :: 0 <= i < |b| ==> !b[i]
  }

  function Xor(a: Bits, b: Bits): (c: Bits)
    requires |a| == |b|
    ensures |c| == |a|
  {
    seq(|a|, i requires 0 <= i < |a| => a[i] != b[i])
  }

  /** Adds `a` to the leading coefficients of `p`. */
  function XorFront(a: Bits, p: Bits): (q: Bits)
    requires |a| <= |p|
    ensures |q| == |p|
  {
    Xor(a, p[..|a|]) + p[|a|..]
  }

  /** Textbook long division: what is left of `p` once no coefficient sits above the register. */
  function Remainder(g: Bits, p: Bits): (r: Bits)
    requires |g| <= |p|
    ensures |r| == |g|
    decreases |p|
  {
    if |p| == |g| then p
    else Remainder(g, if p[0] then XorFront(g, p[1..]) else p[1..])
  }

  /** One step of the shift register. */
  function Shift(g: Bits, r: Bits): (s: Bits)
    requires |r| == |g| > 0
    ensures |s| == |g|
  {
    if r[0] then Xor(r[1..] + [false], g) else r[1..] + [false]
  }

  function Shifts(g: Bits, r: Bits, n: nat): (s: Bits)
    requires |r| == |g| > 0
    ensures |s| == |g|
    decreases n
  {
    if n == 0 then r else Shifts(g, Shift(g, r), n - 1)
  }

  /** Adds one bit to the leading coefficient of the register. */
  function Feed(r: Bits, b: bool): (s: Bits)
    requires |r| > 0
    ensures |s| == |r|
  {
    [r[0] != b] + r[1..]
  }

  /** The register after a whole message, one bit at a time. */
  function Serial(g: Bits, r: Bits, m: Bits): (s: Bits)
    requires |r| == |g| > 0
    ensures |s| == |g|
    decreases |m|
  {
    if m == [] then r else Serial(g, Shift(g, Feed(r, m[0])), m[1..])
  }

  // ----- The register computes the remainder -----

  lemma XorFrontAt(a: Bits, p: Bits, i: nat)
    requires |a| <= |p| && i < |p|
    ensures XorFront(a, p)[i] == if i < |a| then a[i] != p[i] else p[i]
  {
  }

  lemma ShiftAt(g: Bits, r: Bits, i: nat)
    requires |r| == |g| > 0 && i < |g|
    ensures
      var moved := i < |g| - 1 && r[i + 1];
      Shift(g, r)[i] == if r[0] then moved != g[i] else moved
  {
  }

  lemma FeedAt(r: Bits, b: bool, i: nat)
    requires i < |r|
    ensures Feed(r, b)[i] == if i == 0 then r[0] != b else r[i]
  {
  }

  lemma FeedThenDivide(g: Bits, r: Bits, m: Bits)
    requires |r| == |g| > 0 && |m| > 0
    ensures
      var p := XorFront(r, m + Zeros(|g|));
      var next := if p[0] then XorFront(g, p[1..]) else p[1..];
      next == XorFront(Shift(g, Feed(r, m[0])), m[1..] + Zeros(|g|))
  {
    hide XorFront, Shift, Feed, Zeros;
    var fed, rest := m + Zeros(|g|), m[1..] + Zeros(|g|);
    var f := Feed(r, m[0]);
    var p := XorFront(r, fed);
    var next := if p[0] then XorFront(g, p[1..]) else p[1..];
    XorFrontAt(r, fed, 0);
    FeedAt(r, m[0], 0);
    forall i | 0 <= i < |rest| ensures next[i] == XorFront(Shift(g, f), rest)[i] {
      assert fed[i + 1] == rest[i];
      XorFrontAt(r, fed, i + 1);
      XorFrontAt(g, p[1..], i);
      XorFrontAt(Shift(g, f), rest, i);
      if i < |g| {
        ShiftAt(g, f, i);
        if i < |g| - 1 {
          FeedAt(r, m[0], i + 1);
        }
      }
    }
  }

  /** The bit-serial register is the remainder of (message with `r` added in front) times x^n. */
  lemma {:induction false} SerialIsRemainder(g: Bits, r: Bits, m: Bits)
    requires |r| == |g| > 0
    ensures Serial(g, r, m) == Remainder(g, XorFront(r, m + Zeros(|g|)))
    decreases |m|
  {
    if m == [] {
      assert XorFront(r, m + Zeros(|g|)) == r;
    } else {
      FeedThenDivide(g, r, m);
      SerialIsRemainder(g, Shift(g, Feed(r, m[0])), m[1..]);
    }
  }

  // ----- Linearity and injectivity -----

  lemma ShiftLinear(g: Bits, a: Bits, b: Bits)
    requires |a| == |b| == |g| > 0
    ensures Shift(g, Xor(a, b)) == Xor(Shift(g, a), Shift(g, b))
  {
  }

  lemma {:induction false} ShiftsLinear(g: Bits, a: Bits, b: Bits, n: nat)
    requires |a| == |b| == |g| > 0
    ensures Shifts(g, Xor(a, b), n) == Xor(Shifts(g, a, n), Shifts(g, b, n))
    decreases n
  {
    if n > 0 {
      ShiftLinear(g, a, b);
      ShiftsLinear(g, Shift(g, a), Shift(g, b), n - 1);
    }
  }

  lemma {:induction false} SerialLinear(g: Bits, a: Bits, m: Bits, b: Bits, k: Bits)
    requires |a| == |b| == |g| > 0 && |m| == |k|
    ensures Serial(g, Xor(a, b), Xor(m, k)) == Xor(Serial(g, a, m), Serial(g, b, k))
    decreases |m|
  {
    if m != [] {
      assert Feed(Xor(a, b), Xor(m, k)[0]) == Xor(Feed(a, m[0]), Feed(b, k[0]));
      ShiftLinear(g, Feed(a, m[0]), Feed(b, k[0]));
      assert Xor(m, k)[1..] == Xor(m[1..], k[1..]);
      SerialLinear(g, Shift(g, Feed(a, m[0])), m[1..], Shift(g, Feed(b, k[0])), k[1..]);
    }
  }

  /** A generator with a constant term never loses information: only the zero register shifts to zero. */
  lemma {:induction false} ShiftsOfNonzero(g: Bits, r: Bits, n: nat)
    requires |r| == |g| > 0 && g[|g| - 1]
    ensures IsZero(Shifts(g, r, n)) <==> IsZero(r)
    decreases n
  {
    if n > 0 {
      var s := Shift(g, r);
      ShiftsOfNonzero(g, s, n - 1);
      if IsZero(s) {
        assert !s[|g| - 1];
        assert !r[0];
        forall i | 0 <= i < |r| ensures !r[i] {
          if i > 0 {
            assert !s[i - 1];
          }
        }
      }
    }
  }

  lemma {:induction false} SerialConcat(g: Bits, r: Bits, m: Bits, k: Bits)
    requires |r| == |g| > 0
    ensures Serial(g, r, m + k) == Serial(g, Serial(g, r, m), k)
    decreases |m|
  {
    if m == [] {
      assert m + k == k;
    } else {
      assert (m + k)[1..] == m[1..] + k;
      SerialConcat(g, Shift(g, Feed(r, m[0])), m[1..], k);
    }
  }

  lemma XorCons(p: bool, u: Bits, q: bool, v: Bits)
    requires |u| == |v|
    ensures Xor([p] + u, [q] + v) == [p != q] + Xor(u, v)
  {
  }

  lemma XorPadded(r: Bits, m: Bits)
    requires |m| <= |r|
    ensures Xor(r, m + Zeros(|r| - |m|)) == XorFront(m, r)
  {
  }

  /** Bits still waiting to be fed simply move forward with the register. */
  lemma WaitingBitsMove(g: Bits, r: Bits, m: Bits)
    requires |r| == |g| > 0 && 0 < |m| <= |g|
    ensures Shift(g, XorFront(m, r)) == XorFront(m[1..], Shift(g, Feed(r, m[0])))
  {
    var f := Feed(r, m[0]);
    var waiting := [false] + m[1..] + Zeros(|g| - |m|);
    var moved := m[1..] + Zeros(|g| - |m| + 1);
    assert XorFront(m, r) == Xor(f, waiting);
    ShiftLinear(g, f, waiting);
    assert Shift(g, waiting) == moved;
    assert Xor(Shift(g, f), moved) == XorFront(m[1..], Shift(g, f));
  }

  /** Feeding up to n bits one at a time, or adding them all first and then shifting, is the same. */
  lemma {:induction false} SerialIsShifts(g: Bits, r: Bits, m: Bits)
    requires |r| == |g| > 0 && |m| <= |g|
    ensures Serial(g, r, m) == Shifts(g, XorFront(m, r), |m|)
    decreases |m|
  {
    if m == [] {
      assert XorFront(m, r) == r;
    } else {
      SerialIsShifts(g, Shift(g, Feed(r, m[0])), m[1..]);
      WaitingBitsMove(g, r, m);
    }
  }

  // ----- Burst detection -----

  lemma {:induction false} ZeroMessage(g: Bits, r: Bits, m: Bits)
    requires |r| == |g| > 0 && g[|g| - 1] && IsZero(m)
    ensures IsZero(Serial(g, r, m)) <==> IsZero(r)
    decreases |m|
  {
    if m != [] {
      var f := Feed(r, m[0]);
      assert f == r;
      ShiftsOfNonzero(g, r, 1);
      assert Shifts(g, r, 1) == Shifts(g, Shift(g, r), 0);
      ZeroMessage(g, Shift(g, r), m[1..]);
    }
  }

  lemma FrontOfZeros(w: Bits, n: nat)
    requires |w| <= n
    ensures XorFront(w, Zeros(n)) == w + Zeros(n - |w|)
    ensures IsZero(XorFront(w, Zeros(n))) ==> IsZero(w)
  {
    var front := w + Zeros(n - |w|);
    assert XorFront(w, Zeros(n)) == front;
    if IsZero(front) {
      forall i | 0 <= i < |w| ensures !w[i] {
        assert w[i] == front[i];
      }
    }
  }

  /** A burst of at most n bits never leaves a zero register at zero. */
  lemma BurstAlone(g: Bits, w: Bits)
    requires |g| > 0 && g[|g| - 1] && |w| <= |g| && !IsZero(w)
    ensures !IsZero(Serial(g, Zeros(|g|), w))
  {
    SerialIsShifts(g, Zeros(|g|), w);
    FrontOfZeros(w, |g|);
    ShiftsOfNonzero(g, XorFront(w, Zeros(|g|)), |w|);
  }

  lemma ZeroIsZeros(b: Bits)
    requires IsZero(b)
    ensures b == Zeros(|b|)
  {
  }

  /** Nor does it inside a message of zeros. */
  lemma BurstLeavesTrace(g: Bits, pre: nat, w: Bits, post: nat)
    requires |g| > 0 && g[|g| - 1] && |w| <= |g| && !IsZero(w)
    ensures !IsZero(Serial(g, Zeros(|g|), Zeros(pre) + w + Zeros(post)))
  {
    hide Serial;
    var z := Zeros(|g|);
    SerialConcat(g, z, Zeros(pre) + w, Zeros(post));
    SerialConcat(g, z, Zeros(pre), w);
    ZeroMessage(g, z, Zeros(pre));
    ZeroIsZeros(Serial(g, z, Zeros(pre)));
    BurstAlone(g, w);
    ZeroMessage(g, Serial(g, z, w), Zeros(post));
  }

  /** A difference confined to a window is that window between zeros. */
  lemma WindowOf(d: Bits, lo: nat, hi: nat)
    requires lo <= hi <= |d|
    requires forall i :: 0 <= i < |d| && !(lo <= i < hi) ==> !d[i]
    ensures d == Zeros(lo) + d[lo..hi] + Zeros(|d| - hi)
    ensures IsZero(d[lo..hi]) ==> IsZero(d)
  {
    if IsZero(d[lo..hi]) {
      forall i | 0 <= i < |d| ensures !d[i] {
        if lo <= i < hi {
          assert d[i] == d[lo..hi][i - lo];
        }
      }
    }
  }

  lemma XorIsZero(m: Bits, k: Bits)
    requires |m| == |k|
    ensures IsZero(Xor(m, k)) <==> m == k
  {
    if m != k {
      var j :| 0 <= j < |m| && m[j] != k[j];
      assert Xor(m, k)[j];
    }
  }

  /** Two messages of one length that differ only inside one window of n bits leave different registers. */
  lemma BurstDetected(g: Bits, r: Bits, m: Bits, k: Bits, at: nat)
    requires |r| == |g| > 0 && g[|g| - 1]
    requires |m| == |k| && m != k
    requires forall i :: 0 <= i < |m| && !(at <= i < at + |g|) ==> m[i] == k[i]
    ensures Serial(g, r, m) != Serial(g, r, k)
  {
    hide Serial;
    var d := Xor(m, k);
    var lo := if at <= |m| then at else |m|;
    var hi := if at + |g| <= |m| then at + |g| else |m|;
    XorIsZero(m, k);
    WindowOf(d, lo, hi);
    BurstLeavesTrace(g, lo, d[lo..hi], |m| - hi);
    SerialLinear(g, r, m, r, k);
    assert Xor(r, r) == Zeros(|g|);
    XorIsZero(Serial(g, r, m), Serial(g, r, k));
  }
}
