/** Bitwise and on naturals, powers of two, and when a mask is a remainder. */
module Bits {
  import opened Remainders

  function And(a: nat, b: nat): (r: nat)
    decreases a
  {
    if a == 0 then 0 else (if a % 2 == 1 && b % 2 == 1 then 1 else 0) + 2 * And(a / 2, b / 2)
  }

  predicate IsPow2(n: nat) {
    n == 1 || (n > 0 && n % 2 == 0 && IsPow2(n / 2))
  }

  lemma {:induction false} AndSelf(a: nat)
    ensures And(a, a) == a
  {
    if a != 0 {
      AndSelf(a / 2);
    }
  }

  lemma AndZero(a: nat)
    ensures And(a, 0) == 0
  {
  }

  /** The test on the size that the queue's initialisation makes. */
  lemma {:induction false} PowerOfTwoTest(n: nat)
    requires n >= 1
    ensures And(n, n - 1) == 0 <==> IsPow2(n)
  {
    if n % 2 == 1 {
      assert (n - 1) / 2 == n / 2;
      AndSelf(n / 2);
    } else {
      assert (n - 1) / 2 == n / 2 - 1;
      PowerOfTwoTest(n / 2);
    }
  }

  lemma RemainderByTwice(p: nat, m: nat)
    requires m > 0
    ensures p % (2 * m) == p % 2 + 2 * (p / 2 % m)
  {
    var d, r := p / 2 / m, p / 2 % m;
    assert p / 2 == m * d + r;
    assert 2 * (m * d) == 2 * m * d by { MulAssoc(2, m, d); }
    DivUnique(p, 2 * m, d, p % 2 + 2 * r);
  }

  /** For a power of two, masking with n - 1 is the remainder by n. */
  lemma {:induction false} MaskIsRemainder(p: nat, n: nat)
    requires IsPow2(n)
    ensures And(p, n - 1) == p % n
    decreases n
  {
    if n == 1 {
      AndZero(p);
    } else {
      assert (n - 1) / 2 == n / 2 - 1 && (n - 1) % 2 == 1;
      MaskIsRemainder(p / 2, n / 2);
      RemainderByTwice(p, n / 2);
    }
  }

  /** A clear bit of `m` below its top bit. */
  ghost function ClearBit(m: nat): nat
    requires m > 0
  {
    if m % 2 == 0 then 1 else if m == 1 then 0 else 2 * ClearBit(m / 2)
  }

  lemma {:induction false} ClearBitIsClear(m: nat)
    requires m > 0 && !IsPow2(m + 1)
    ensures 0 < ClearBit(m) <= m && And(ClearBit(m), m) == 0
  {
    if m % 2 == 1 {
      assert (m + 1) / 2 == m / 2 + 1;
      ClearBitIsClear(m / 2);
      var b := ClearBit(m / 2);
      assert 2 * b / 2 == b && 2 * b % 2 == 0;
    }
  }

  /** The cell that a mask gives to position p. */
  function MaskCell(p: nat, n: nat): nat
    requires n >= 1
  {
    And(p, n - 1)
  }

  ghost predicate MaskSeparates(n: nat)
    requires n >= 1
  {
    forall a: nat, b: nat :: a < n && b < n && MaskCell(a, n) == MaskCell(b, n) ==> a == b
  }

  /** Masking gives the n positions of a lap n different cells exactly when n
      is a power of two. */
  lemma MaskSeparatesIff(n: nat)
    requires n >= 1
    ensures MaskSeparates(n) <==> IsPow2(n)
  {
    if IsPow2(n) {
      forall a: nat, b: nat | a < n && b < n && MaskCell(a, n) == MaskCell(b, n)
        ensures a == b
      {
        MaskIsRemainder(a, n);
        MaskIsRemainder(b, n);
        Small(a, n);
        Small(b, n);
      }
    } else {
      ClearBitIsClear(n - 1);
      assert MaskCell(0, n) == MaskCell(ClearBit(n - 1), n);
    }
  }

  lemma {:induction false} Pow2Product(a: nat, b: nat)
    requires IsPow2(a) && IsPow2(b)
    ensures IsPow2(a * b)
  {
    if a != 1 {
      var m := a / 2;
      Pow2Product(m, b);
      MulAssoc(2, m, b);
      assert a * b == 2 * (m * b);
    }
  }

  lemma {:induction false} Pow2Divides(n: nat, w: nat)
    requires IsPow2(n) && IsPow2(w) && n <= w
    ensures w % n == 0
  {
    if n != 1 {
      Pow2Divides(n / 2, w / 2);
      assert w / 2 == n / 2 * (w / 2 / (n / 2));
      assert w == n * (w / 2 / (n / 2));
      DivUnique(w, n, w / 2 / (n / 2), 0);
    }
  }
}
