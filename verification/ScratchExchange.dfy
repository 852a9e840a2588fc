/**
 The three-leg exchange through one scratch sector (src/boot_swap.h), for slots of any number of sectors.

 After `c` legs, scratch and the two slots together still determine the two images the exchange started from.
 */
module ScratchExchange {

  /** The scratch sector and the sectors of the two slots. */
  datatype Area<S> = Area(scratch: S, primary: seq<S>, secondary: seq<S>)

  datatype Images<S> = Images(primary: seq<S>, secondary: seq<S>)

  predicate Fits<S>(x: Area<S>, n: nat) {
    |x.primary| == n && |x.secondary| == n
  }

  /** The images an exchange started from, `c` legs ago. */
  function Origin<S>(x: Area<S>, c: nat): (o: Images<S>)
    requires |x.primary| == |x.secondary|
    ensures |o.primary| == |x.primary| && |o.secondary| == |x.secondary|
  {
    var n := |x.primary|;
    Images(
      seq(n, j requires 0 <= j < n => if c >= 3 * j + 2 then x.secondary[j] else x.primary[j]),
      seq(n, j requires 0 <= j < n =>
        if c >= 3 * j + 3 then x.primary[j] else if c >= 3 * j + 1 then x.scratch else x.secondary[j]))
  }

  /** The destination of leg `c` comes to hold `s`. */
  function Hit<S>(x: Area<S>, c: nat, s: S): Area<S>
    requires Fits(x, |x.primary|) && c < 3 * |x.primary|
  {
    if c % 3 == 0 then x.(scratch := s)
    else if c % 3 == 1 then x.(secondary := x.secondary[c / 3 := s])
    else x.(primary := x.primary[c / 3 := s])
  }

  /** What leg `c` reads. */
  function Source<S>(x: Area<S>, c: nat): S
    requires Fits(x, |x.primary|) && c < 3 * |x.primary|
  {
    if c % 3 == 0 then x.secondary[c / 3]
    else if c % 3 == 1 then x.primary[c / 3]
    else x.scratch
  }

  lemma OriginAtStart<S>(x: Area<S>)
    requires |x.primary| == |x.secondary|
    ensures Origin(x, 0) == Images(x.primary, x.secondary)
  {
  }

  /** All legs done: the slots hold each other's images. */
  lemma OriginAtEnd<S>(x: Area<S>)
    requires |x.primary| == |x.secondary|
    ensures Origin(x, 3 * |x.primary|) == Images(x.secondary, x.primary)
  {
  }

  /** Whatever a cut, failed or repeated leg leaves at its destination, the origin stays. */
  lemma HitKeepsOrigin<S>(x: Area<S>, c: nat, s: S)
    requires |x.primary| == |x.secondary| && c < 3 * |x.primary|
    ensures Origin(Hit(x, c, s), c) == Origin(x, c)
  {
    var n, i := |x.primary|, c / 3;
    assert forall j :: 0 <= j < n && j != i ==> (c >= 3 * j + 2 <==> j < i) && (c >= 3 * j + 1 <==> j < i);
  }

  /** A completed leg moves the origin one count further on. */
  lemma LegKeepsOrigin<S>(x: Area<S>, c: nat)
    requires |x.primary| == |x.secondary| && c < 3 * |x.primary|
    ensures Origin(Hit(x, c, Source(x, c)), c + 1) == Origin(x, c)
  {
    var n, i := |x.primary|, c / 3;
    var o, q := Origin(x, c), Origin(Hit(x, c, Source(x, c)), c + 1);
    forall j | 0 <= j < n ensures q.primary[j] == o.primary[j] && q.secondary[j] == o.secondary[j] {
      if j < i {
        assert c >= 3 * j + 3;
      } else if j > i {
        assert c + 1 <= 3 * j;
      }
    }
  }

  // ----- Where the two images meet in a slot -----

  /** The first sectors of the primary slot are new, the last ones old; at most the one in between is neither. */
  lemma PrimaryFront<S>(x: Area<S>, c: nat)
    requires |x.primary| == |x.secondary| && c <= 3 * |x.primary|
    ensures
      var o, k, l := Origin(x, c), c / 3, (c + 1) / 3;
      x.primary[..k] == o.secondary[..k] && x.primary[l..] == o.primary[l..]
  {
  }

  /** The same for the secondary slot. */
  lemma SecondaryFront<S>(x: Area<S>, c: nat)
    requires |x.primary| == |x.secondary| && c <= 3 * |x.primary|
    ensures
      var o, k, l := Origin(x, c), (c + 1) / 3, (c + 2) / 3;
      x.secondary[..k] == o.primary[..k] && x.secondary[l..] == o.secondary[l..]
  {
  }

  /**
   For a slot that holds `a` below sector `k` and `b` from sector `l` on: the rest of it, and the two images where they
   would have to agree, make the slot one of the two in full.
   */
  predicate Joined<S(==)>(a: seq<S>, b: seq<S>, x: seq<S>, k: nat, l: nat)
    requires |a| == |b| == |x| && k <= l <= |a|
  {
    || (a[..k] == b[..k] && x[k..l] == b[k..l])
    || (a[l..] == b[l..] && x[k..l] == a[k..l])
  }

  lemma WholeWhenJoined<S>(a: seq<S>, b: seq<S>, x: seq<S>, k: nat, l: nat)
    requires |a| == |b| == |x| && k <= l <= |a|
    requires x[..k] == a[..k] && x[l..] == b[l..]
    ensures x == a || x == b <==> Joined(a, b, x, k, l)
  {
    assert x == x[..k] + x[k..l] + x[l..];
    assert a == a[..k] + a[k..l] + a[l..];
    assert b == b[..k] + b[k..l] + b[l..];
  }

  /** Another secondary slot leaves the origin alone if and only if it keeps every sector but the next destination. */
  lemma RewriteKeepsOrigin<S>(x: Area<S>, c: nat, y: seq<S>)
    requires |x.primary| == |x.secondary| == |y| && c <= 3 * |x.primary|
    ensures
      var k, l := (c + 1) / 3, (c + 2) / 3;
      Origin(x.(secondary := y), c) == Origin(x, c)
      <==> y[..k] == x.secondary[..k] && y[l..] == x.secondary[l..]
  {
    var k, l := (c + 1) / 3, (c + 2) / 3;
    var z := x.(secondary := y);
    var o, q := Origin(x, c), Origin(z, c);
    SecondaryFront(x, c);
    SecondaryFront(z, c);
    if y[..k] == x.secondary[..k] && y[l..] == x.secondary[l..] {
      forall j | 0 <= j < |y| ensures q.primary[j] == o.primary[j] && q.secondary[j] == o.secondary[j] {
        if j < k {
          assert y[j] == y[..k][j] && x.secondary[j] == x.secondary[..k][j];
        } else if j >= l {
          assert y[j] == y[l..][j - l] && x.secondary[j] == x.secondary[l..][j - l];
        }
      }
    }
  }
}
