/** Powers, and remainders of sums. */
module Numbers {
  // How many numbers a 64-bit word has.
  const WORD: nat := 0x1_0000_0000_0000_0000

  function Power(b: nat, k: nat): (r: nat)
    ensures 0 < b ==> 0 < r
  {
    if k == 0 then 1 else b * Power(b, k - 1)
  }

  // Quotient and remainder are the only ones.
  lemma Divided(n: nat, m: nat, q: nat, r: nat)
    requires n == q * m + r && r < m
    ensures n / m == q && n % m == r
  {
    assert n == n / m * m + n % m;
    TimesMore(q, n / m, m);
    TimesMore(n / m, q, m);
  }

  lemma TimesMore(a: nat, b: nat, m: nat)
    ensures a < b ==> a * m + m <= b * m
  {
    if a < b {
      var d: nat := b - a - 1;
      assert (a + d + 1) * m == a * m + d * m + m;
    }
  }

  /** Whole multiples of the modulus go into the quotient and leave the remainder. */
  lemma Multiples(m: nat, k: nat, b: nat)
    requires 0 < m
    ensures (k * m + b) % m == b % m && (k * m + b) / m == k + b / m
  {
    var q, r := b / m, b % m;
    assert b == q * m + r;
    assert k * m + b == (k + q) * m + r;
    Divided(k * m + b, m, k + q, r);
  }

  lemma Spread(x: nat, y: nat, z: nat, w: nat)
    ensures (x * y + z) * w == x * (w * y) + z * w
  {
    assert (x * y) * w == x * (y * w);
  }

  lemma ProductBelow(q: nat, b: nat, r: nat, a: nat)
    requires q < b && r < a
    ensures q * a + r < a * b
  {
    TimesMore(q, b, a);
  }

  // Dividing by a product is dividing twice.
  lemma DividedTwice(n: nat, a: nat, b: nat)
    requires 0 < a && 0 < b
    ensures 0 < a * b && n / (a * b) == n / a / b
  {
    var q, r := n / a, n % a;
    var q', r' := q / b, q % b;
    DivMod(n, a);
    DivMod(q, b);
    Spread(q', b, r', a);
    ProductBelow(r', b, r, a);
    Divided(n, a * b, q', r' * a + r);
  }

  lemma DivMod(n: nat, m: nat)
    requires 0 < m
    ensures n == n / m * m + n % m
  {
  }
}
