/** Exclusive or and 64-bit words, on unbounded numbers. */
module Bits {
  import opened Numbers

  lemma EightBits(a: nat)
    ensures Power(2, a + 8) == 0x100 * Power(2, a)
  {
    assert Power(2, a + 2) == 4 * Power(2, a);
    assert Power(2, a + 4) == 4 * Power(2, a + 2);
    assert Power(2, a + 6) == 4 * Power(2, a + 4);
  }

  lemma PowersOf2()
    ensures Power(2, 64) == WORD
  {
    hide Power;
    EightBits(0);
    EightBits(8);
    EightBits(16);
    EightBits(24);
    EightBits(32);
    EightBits(40);
    EightBits(48);
    EightBits(56);
    PowerZero();
  }

  lemma PowerZero()
    ensures Power(2, 0) == 1
  {
  }

  // Exclusive or, bit by bit.
  function Xor(x: nat, y: nat): nat {
    if x == 0 && y == 0 then 0 else 2 * Xor(x / 2, y / 2) + (x % 2 + y % 2) % 2
  }

  lemma {:induction false} XorTwice(x: nat, m: nat)
    ensures Xor(Xor(x, m), m) == x
    decreases x + m
  {
    hide Xor;
    if x == 0 && m == 0 {
      XorNothing();
    } else {
      XorTwice(x / 2, m / 2);
      XorHalf(x, m);
      XorHalf(Xor(x, m), m);
      BitTwice(x % 2, m % 2);
      SameNumber(Xor(Xor(x, m), m), x);
    }
  }

  lemma XorNothing()
    ensures Xor(0, 0) == 0
  {
  }

  lemma BitTwice(a: nat, b: nat)
    requires a < 2 && b < 2
    ensures ((a + b) % 2 + b) % 2 == a
  {
  }

  lemma SameNumber(a: nat, b: nat)
    requires a / 2 == b / 2 && a % 2 == b % 2
    ensures a == b
  {
  }

  lemma {:induction false} XorFits(x: nat, m: nat, k: nat)
    requires x < Power(2, k) && m < Power(2, k)
    ensures Xor(x, m) < Power(2, k)
  {
    if k > 0 {
      XorFits(x / 2, m / 2, k - 1);
    }
  }

  // The low k bits, and the rest.
  function Low(x: nat, k: nat): nat {
    if k == 0 then 0 else 2 * Low(x / 2, k - 1) + x % 2
  }

  function High(x: nat, k: nat): nat {
    if k == 0 then x else High(x / 2, k - 1)
  }

  lemma Doubled(h: nat, p: nat, l: nat, b: nat)
    ensures 2 * (h * p + l) + b == h * (2 * p) + (2 * l + b)
  {
    assert h * (2 * p) == 2 * (h * p);
  }

  lemma {:induction false} HighLow(x: nat, k: nat)
    ensures x == High(x, k) * Power(2, k) + Low(x, k) && Low(x, k) < Power(2, k)
  {
    if k > 0 {
      HighLow(x / 2, k - 1);
      Doubled(High(x, k), Power(2, k - 1), Low(x / 2, k - 1), x % 2);
    }
  }

  lemma LowWord(x: nat)
    ensures Low(x, 64) == x % WORD
  {
    hide Low, High, Power;
    PowersOf2();
    HighLow(x, 64);
  }

  lemma SplitTwice(a: nat, p: nat, b: nat, q: nat)
    requires 2 * a + p == 2 * b + q && p < 2 && q < 2
    ensures a == b && p == q
  {
  }

  lemma XorHalf(x: nat, m: nat)
    ensures Xor(x, m) / 2 == Xor(x / 2, m / 2) && Xor(x, m) % 2 == (x % 2 + m % 2) % 2
  {
    Halves(Xor(x / 2, m / 2), (x % 2 + m % 2) % 2);
    if x == 0 && m == 0 {
      assert Xor(0, 0) == 0;
    } else {
      assert Xor(x, m) == 2 * Xor(x / 2, m / 2) + (x % 2 + m % 2) % 2;
      hide Xor;
    }
  }

  lemma Halves(a: nat, b: nat)
    requires b < 2
    ensures (2 * a + b) / 2 == a && (2 * a + b) % 2 == b
  {
  }

  // The low bits of an exclusive or depend on the low bits only.
  lemma {:induction false} XorLow(x: nat, y: nat, m: nat, k: nat)
    requires Low(x, k) == Low(y, k)
    ensures Low(Xor(x, m), k) == Low(Xor(y, m), k)
  {
    if k > 0 {
      SplitTwice(Low(x / 2, k - 1), x % 2, Low(y / 2, k - 1), y % 2);
      XorLow(x / 2, y / 2, m / 2, k - 1);
      XorHalf(x, m);
      XorHalf(y, m);
      hide Xor;
    }
  }

  // So a number may be cut to 64 bits before or after.
  lemma XorWord(x: nat, m: nat)
    requires m < WORD
    ensures Xor(x, m) % WORD == Xor(x % WORD, m)
  {
    hide Xor, Low, Power;
    var y := x % WORD;
    LowWord(x);
    LowWord(y);
    XorLow(x, y, m, 64);
    LowWord(Xor(x, m));
    LowWord(Xor(y, m));
    PowersOf2();
    XorFits(y, m, 64);
  }

  /** Every bit of the result is set exactly when one of the two is. */
  lemma {:induction false} XorBit(x: nat, y: nat, j: nat)
    ensures Xor(x, y) / Power(2, j) % 2 == (x / Power(2, j) % 2 + y / Power(2, j) % 2) % 2
  {
    hide Xor;
    XorHalf(x, y);
    if j > 0 {
      XorBit(x / 2, y / 2, j - 1);
      HalfFirst(x, j);
      HalfFirst(y, j);
      HalfFirst(Xor(x, y), j);
    }
  }

  lemma HalfFirst(x: nat, j: nat)
    requires 0 < j
    ensures x / Power(2, j) == x / 2 / Power(2, j - 1)
  {
    DividedTwice(x, 2, Power(2, j - 1));
  }

  lemma {:induction false} XorCommutes(x: nat, y: nat)
    ensures Xor(x, y) == Xor(y, x)
    decreases x + y
  {
    if x > 0 || y > 0 {
      XorCommutes(x / 2, y / 2);
    }
  }
}
