// Powers of two: what `1 << n` means as long as the shift does not overflow.
module Powers {

  function Pow2(n: nat): (p: nat)
    ensures p >= 1
  {
    if n == 0 then 1 else 2 * Pow2(n - 1)
  }

  lemma {:induction false} Pow2Monotone(a: nat, b: nat)
    requires a <= b
    ensures Pow2(a) <= Pow2(b)
    ensures a < b ==> 2 * Pow2(a) <= Pow2(b)
    decreases b
  {
    if a < b {
      Pow2Monotone(a, b - 1);
    }
  }

  lemma {:induction false} Pow2Sum(a: nat, b: nat)
    ensures Pow2(a + b) == Pow2(a) * Pow2(b)
  {
    if a == 0 {
    } else {
      Pow2Sum(a - 1, b);
      assert a + b - 1 == (a - 1) + b;
      assert 2 * (Pow2(a - 1) * Pow2(b)) == (2 * Pow2(a - 1)) * Pow2(b);
    }
  }

  // ---------- products and quotients ----------

  lemma MulAssoc(a: nat, b: nat, c: nat)
    ensures (a * b) * c == a * (b * c)
  {
  }

  lemma MulSuccessor(a: nat, c: nat)
    ensures (a + 1) * c == a * c + c
  {
  }

  lemma MulHalves(a: nat, c: nat)
    ensures a * (2 * c) == (2 * a) * c && (2 * a + 1) * c == a * (2 * c) + c
  {
  }

  lemma MulTwice(a: nat, c: nat)
    ensures a * (c * 2) == 2 * (a * c)
  {
  }

  lemma MulDistribute(a: nat, b: nat, c: nat)
    requires b <= a
    ensures (a - b) * c == a * c - b * c
  {
  }

  lemma MulMonotone(a: nat, b: nat, c: nat)
    requires a <= b
    ensures a * c <= b * c
  {
  }

  lemma MultipleOf(i: nat, n: nat)
    requires n > 0
    ensures (i * n) % n == 0 && (i * n) / n == i
  {
    DivModUnique(i * n, n, i, 0);
  }

  lemma DivModUnique(x: nat, n: nat, q: int, r: int)
    requires n > 0 && x == q * n + r && 0 <= r < n
    ensures x / n == q && x % n == r
  {
    var d := x / n - q;
    assert x == n * (x / n) + x % n;
    assert d * n == r - x % n by {
      assert (x / n - q) * n == (x / n) * n - q * n;
    }
    assert (-d) * n == -(d * n);
    if d >= 1 { ProductAtLeast(d, n); }
    if d <= -1 { ProductAtLeast(-d, n); }
  }

  lemma ProductAtLeast(d: nat, n: nat)
    requires d >= 1
    ensures d * n >= n
  {
  }
}
