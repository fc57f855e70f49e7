/**
 The mask arithmetic of the C sources on 64-bit values, over natural numbers: x & y bit by bit, the
 power-of-two test a & (a - 1), and rounding up with (x + mask) & ~mask.
 */
module Bits {

  const U64_MAX: nat := 0xFFFF_FFFF_FFFF_FFFF

  type u64 = x: nat | x <= U64_MAX

  type byte = x: nat | x < 256

  function And(x: nat, y: nat): nat {
    if x == 0 || y == 0 then 0 else 2 * And(x / 2, y / 2) + (x % 2) * (y % 2)
  }

  predicate IsPowerOfTwo(a: nat) {
    a == 1 || (a > 0 && a % 2 == 0 && IsPowerOfTwo(a / 2))
  }

  lemma AndStep(x: nat, y: nat)
    requires x > 0 && y > 0
    ensures And(x, y) == 2 * And(x / 2, y / 2) + (x % 2) * (y % 2)
  {
  }

  /** a & (a - 1) is zero exactly for the powers of two. */
  lemma {:induction false} PowerTest(a: nat)
    requires a > 0
    ensures And(a, a - 1) == 0 <==> IsPowerOfTwo(a)
  {
    hide And;
    if a == 1 {
      AndNone(1);
    } else {
      AndStep(a, a - 1);
      if a % 2 == 0 {
        PowerTest(a / 2);
        assert (a - 1) / 2 == a / 2 - 1;
      } else {
        assert (a - 1) / 2 == a / 2 && (a - 1) % 2 == 0;
        AndSelf(a / 2);
      }
    }
  }

  lemma AndNone(x: nat)
    ensures And(x, 0) == 0
  {
  }

  lemma {:induction false} AndSelf(x: nat)
    ensures And(x, x) == x
  {
    if x == 0 {
    } else {
      AndSelf(x / 2);
      assert x % 2 == 0 || x % 2 == 1;
      assert x == 2 * (x / 2) + x % 2;
    }
  }

  /** Masking with a - 1 is the remainder, when a is a power of two. */
  lemma {:induction false} MaskIsRemainder(x: nat, a: nat)
    requires IsPowerOfTwo(a)
    ensures And(x, a - 1) == x % a
    decreases a
  {
    if a == 1 {
    } else {
      MaskIsRemainder(x / 2, a / 2);
      assert (a - 1) / 2 == a / 2 - 1 && (a - 1) % 2 == 1;
      HalfRemainder(x, a / 2);
    }
  }

  lemma HalfRemainder(x: nat, h: nat)
    requires h > 0
    ensures x % (2 * h) == 2 * ((x / 2) % h) + x % 2
  {
    var q, r := (x / 2) / h, (x / 2) % h;
    assert x == (2 * h) * q + (2 * r + x % 2);
    RemainderOf(x, 2 * h, q, 2 * r + x % 2);
  }

  lemma {:induction false} Distribute(d: nat, a: nat, b: nat)
    ensures d * (a + b) == d * a + d * b && 0 <= d * b
  {
    if d == 0 {
    } else {
      Distribute(d - 1, a, b);
    }
  }

  lemma MulStep(d: nat, a: nat, b: nat)
    requires a < b
    ensures d * a + d <= d * b
  {
    Distribute(d, a, b - a);
    Distribute(d, 1, b - a - 1);
  }

  lemma DivisionUnique(d: nat, q: nat, r: nat, k: nat, t: nat)
    requires r < d && t < d && d * q + r == d * k + t
    ensures q == k && r == t
  {
    if k < q {
      MulStep(d, k, q);
    } else if q < k {
      MulStep(d, q, k);
    }
  }

  lemma Division(x: nat, d: nat)
    requires d > 0
    ensures x == d * (x / d) + x % d && x % d < d
  {
  }

  lemma RemainderOf(x: nat, d: nat, q: nat, r: nat)
    requires d > 0 && x == d * q + r && r < d
    ensures x % d == r
  {
    Division(x, d);
    DivisionUnique(d, q, r, x / d, x % d);
  }

  // (x + mask) & ~mask
  function RoundUp(x: nat, a: nat): (y: nat)
    requires a > 0
    ensures y <= x + (a - 1)
  {
    AndAtMost(x + (a - 1), a - 1);
    x + (a - 1) - And(x + (a - 1), a - 1)
  }

  lemma {:induction false} AndAtMost(x: nat, y: nat)
    ensures And(x, y) <= x
  {
    if x == 0 || y == 0 {
    } else {
      AndAtMost(x / 2, y / 2);
    }
  }

  /** Rounding up gives the least multiple that is not below. */
  lemma RoundUpIsLeast(x: nat, a: nat)
    requires a > 0 && IsPowerOfTwo(a)
    ensures x <= RoundUp(x, a) && RoundUp(x, a) % a == 0
    ensures forall z: nat | x <= z && z % a == 0 :: RoundUp(x, a) <= z
  {
    hide IsPowerOfTwo, And;
    var t := x + (a - 1);
    MaskIsRemainder(t, a);
    Division(t, a);
    var y := RoundUp(x, a);
    RemainderOf(y, a, t / a, 0);
    forall z: nat | x <= z && z % a == 0 ensures y <= z {
      MultiplesApart(y, z, a);
    }
  }

  lemma MultiplesApart(y: nat, z: nat, a: nat)
    requires a > 0 && y % a == 0 && z % a == 0 && y < z + a
    ensures y <= z
  {
    Division(y, a);
    Division(z, a);
    if z / a < y / a { MulStep(a, z / a, y / a); } else if y / a < z / a { MulStep(a, y / a, z / a); }
  }
}
