/** Facts about remainders that the solver does not find by itself. */
module Remainders {

  lemma Multiple(n: nat, k: int)
    ensures k <= 0 ==> n * k <= 0
    ensures k >= 1 ==> n * k >= n
  {
    if k >= 1 {
      assert n * k == n + n * (k - 1);
    }
  }

  lemma DivUnique(x: int, n: nat, d: int, r: nat)
    requires n > 0 && r < n && x == n * d + r
    ensures x / n == d && x % n == r
  {
    var k := x / n - d;
    assert n * k == n * (x / n) - n * d;
    Multiple(n, k);
    Multiple(n, -k);
    assert n * -k == -(n * k);
  }

  lemma CellOfLap(p: int, n: nat)
    requires n > 0
    ensures (p + n) % n == p % n
  {
    assert n * (p / n + 1) == n * (p / n) + n;
    DivUnique(p + n, n, p / n + 1, p % n);
  }

  /** Two positions less than one lap apart have different cells. */
  lemma CellsDiffer(p: int, q: int, n: nat)
    requires p < q < p + n
    ensures p % n != q % n
  {
    var k := q / n - p / n;
    assert n * k == n * (q / n) - n * (p / n);
    Multiple(n, k);
  }

  lemma Small(p: int, n: nat)
    requires 0 <= p < n
    ensures p % n == p
  {
    DivUnique(p, n, 0, p);
  }

  /** Reducing by a multiple of n first does not change the remainder by n. */
  lemma ModOfMod(p: int, n: nat, w: nat)
    requires n > 0 && w > 0 && w % n == 0
    ensures p % w % n == p % n
  {
    var c, a, x := w / n, p / w, p % w;
    assert w == n * c;
    assert w * a == n * (c * a) by { MulAssoc(n, c, a); }
    assert n * (c * a + x / n) == n * (c * a) + n * (x / n);
    DivUnique(p, n, c * a + x / n, x % n);
  }

  lemma MulAssoc(a: int, b: int, c: int)
    ensures a * b * c == a * (b * c)
  {
  }
}
