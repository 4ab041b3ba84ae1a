/** Words bit by bit: numbers are halved to get at their bits, which gives conjunction, the two
    disjunctions and the shifts a meaning that does not depend on how a machine computes
    them. What the masks in use select is worked out from that. */
module Bits {
  import opened Words

  function Pow2(n: nat): (r: nat)
    ensures r >= 1
  {
    if n == 0 then 1 else 2 * Pow2(n - 1)
  }

  // Bit `i` of a number, counting from the lowest.
  predicate BitAt(n: nat, i: nat)
  {
    if i == 0 then n % 2 == 1 else BitAt(n / 2, i - 1)
  }

  function Digit(on: bool): nat { if on then 1 else 0 }

  function AndBits(a: nat, b: nat): (r: nat)
    ensures r <= a && r <= b
  {
    if a == 0 || b == 0 then 0 else Digit(a % 2 == 1 && b % 2 == 1) + 2 * AndBits(a / 2, b / 2)
  }

  function OrBits(a: nat, b: nat): nat
  {
    if a == 0 then b else Digit(a % 2 == 1 || b % 2 == 1) + 2 * OrBits(a / 2, b / 2)
  }

  function XorBits(a: nat, b: nat): nat
  {
    if a == 0 then b else Digit((a % 2 == 1) != (b % 2 == 1)) + 2 * XorBits(a / 2, b / 2)
  }

  lemma {:induction false} DigitAt(on: bool, n: nat, i: nat)
    ensures BitAt(Digit(on) + 2 * n, i) <==> if i == 0 then on else BitAt(n, i - 1)
  {}

  lemma {:induction false} NoBit(i: nat)
    ensures !BitAt(0, i)
  {
    if i > 0 { NoBit(i - 1); }
  }

  /** Each bit of a conjunction is on exactly when it is on in both words. */
  lemma {:induction false} AndBit(a: nat, b: nat, i: nat)
    ensures BitAt(AndBits(a, b), i) <==> BitAt(a, i) && BitAt(b, i)
  {
    NoBit(i);
    if a != 0 && b != 0 {
      DigitAt(a % 2 == 1 && b % 2 == 1, AndBits(a / 2, b / 2), i);
      if i > 0 { AndBit(a / 2, b / 2, i - 1); }
    }
  }

  /** Each bit of a disjunction is on exactly when it is on in one word or the other. */
  lemma {:induction false} OrBit(a: nat, b: nat, i: nat)
    ensures BitAt(OrBits(a, b), i) <==> BitAt(a, i) || BitAt(b, i)
  {
    NoBit(i);
    if a != 0 {
      DigitAt(a % 2 == 1 || b % 2 == 1, OrBits(a / 2, b / 2), i);
      if i > 0 { OrBit(a / 2, b / 2, i - 1); }
    }
  }

  /** Each bit of an exclusive disjunction is on exactly when it is on in just one word. */
  lemma {:induction false} XorBit(a: nat, b: nat, i: nat)
    ensures BitAt(XorBits(a, b), i) <==> BitAt(a, i) != BitAt(b, i)
  {
    NoBit(i);
    if a != 0 {
      DigitAt((a % 2 == 1) != (b % 2 == 1), XorBits(a / 2, b / 2), i);
      if i > 0 { XorBit(a / 2, b / 2, i - 1); }
    }
  }

  lemma {:induction false} OrBelow(a: nat, b: nat, n: nat)
    requires a < Pow2(n) && b < Pow2(n)
    ensures OrBits(a, b) < Pow2(n) && XorBits(a, b) < Pow2(n)
  {
    if a != 0 && n > 0 { OrBelow(a / 2, b / 2, n - 1); }
  }

  lemma {:induction false} FourMore(n: nat)
    ensures Pow2(n + 4) == 16 * Pow2(n)
  {
    assert Pow2(n + 4) == 2 * Pow2(n + 3) && Pow2(n + 3) == 2 * Pow2(n + 2);
    assert Pow2(n + 2) == 2 * Pow2(n + 1) && Pow2(n + 1) == 2 * Pow2(n);
  }

  lemma {:induction false} WordBits()
    ensures Pow2(32) == WORDS
  {
    FourMore(0);
    FourMore(4);
    FourMore(8);
    FourMore(12);
    FourMore(16);
    FourMore(20);
    FourMore(24);
    FourMore(28);
    hide Pow2;
    assert Pow2(0) == 1 by { PowZero(); }
  }

  lemma {:induction false} PowZero()
    ensures Pow2(0) == 1
  {}

  lemma {:induction false} SomeBit(n: nat) returns (i: nat)
    requires n != 0
    ensures BitAt(n, i)
  {
    if n % 2 == 1 {
      i := 0;
    } else {
      i := SomeBit(n / 2);
      i := i + 1;
    }
  }

  // ---- shifts ----

  // Division that rounds down, for words.
  function Quotient(n: nat, d: nat): (q: nat)
    requires d > 0
    ensures q <= n && q == n / d
  {
    QuotientBound(n, d);
    n / d
  }

  lemma {:induction false} QuotientBound(n: nat, d: nat)
    requires d > 0
    ensures 0 <= n / d <= n
  {
    var q := n / d;
    assert n == q * d + n % d;
    if q > 0 { Grows(q, d); }
  }

  lemma {:induction false} Grows(q: nat, d: nat)
    requires d > 0
    ensures q <= q * d
  {
    assert q * d == q + q * (d - 1);
  }

  lemma {:induction false} DivIs(n: nat, d: nat, q: nat, r: nat)
    requires r < d && n == q * d + r
    ensures Quotient(n, d) == q && n % d == r
  {
    var q', r' := Quotient(n, d), n % d;
    assert n == q' * d + r';
    Steps(q, q', d);
    Steps(q', q, d);
  }

  lemma {:induction false} Steps(q: nat, q': nat, d: nat)
    ensures q < q' ==> q * d + d <= q' * d
  {
    if q < q' {
      assert q' * d == q * d + d + (q' - q - 1) * d;
      if q' - q - 1 > 0 { Positive(q' - q - 1, d); }
    }
  }

  lemma {:induction false} Positive(k: nat, d: nat)
    ensures k * d >= 0
  {}

  // Dividing by twice as much is halving first.
  lemma {:induction false} HalveFirst(n: nat, d: nat)
    requires d > 0
    ensures Quotient(n, 2 * d) == Quotient(n / 2, d) && n % (2 * d) == n % 2 + 2 * (n / 2 % d)
  {
    var h := n / 2;
    var q, r := Quotient(h, d), h % d;
    assert h == q * d + r;
    assert q * (2 * d) == 2 * (q * d);
    DivIs(n, 2 * d, q, n % 2 + 2 * r);
  }

  lemma {:induction false} RightBit(n: nat, k: nat, i: nat)
    ensures BitAt(Quotient(n, Pow2(k)), i) <==> BitAt(n, i + k)
  {
    if k > 0 {
      HalveFirst(n, Pow2(k - 1));
      RightBit(n / 2, k - 1, i);
    }
  }

  lemma {:induction false} LeftBit(n: nat, k: nat, i: nat)
    ensures BitAt(n * Pow2(k), i) <==> i >= k && BitAt(n, i - k)
  {
    if k > 0 {
      var m := n * Pow2(k - 1);
      assert n * Pow2(k) == 2 * m;
      DigitAt(false, m, i);
      if i > 0 { LeftBit(n, k - 1, i - 1); }
    }
  }

  lemma {:induction false} ModBit(n: nat, k: nat, i: nat)
    ensures BitAt(n % Pow2(k), i) <==> i < k && BitAt(n, i)
  {
    if k == 0 {
      NoBit(i);
    } else {
      HalveFirst(n, Pow2(k - 1));
      DigitAt(n % 2 == 1, n / 2 % Pow2(k - 1), i);
      if i > 0 { ModBit(n / 2, k - 1, i - 1); }
    }
  }

  lemma {:induction false} AllOnes(n: nat, i: nat)
    requires i < n
    ensures BitAt(Pow2(n) - 1, i)
  {
    DigitAt(true, Pow2(n - 1) - 1, i);
    if i > 0 { AllOnes(n - 1, i - 1); }
  }

  // ---- masks ----

  lemma {:induction false} AndEven(a: nat, m: nat)
    ensures AndBits(a, 2 * m) == 2 * AndBits(a / 2, m)
  {}

  lemma {:induction false} AndOdd(a: nat, m: nat)
    ensures AndBits(a, 2 * m + 1) == a % 2 + 2 * AndBits(a / 2, m)
  {}

  lemma {:induction false} AndNone(a: nat)
    ensures AndBits(a, 0) == 0
  {}

  lemma {:induction false} Quarter(a: nat)
    ensures a / 2 / 2 == a / 4
  {}

  lemma {:induction false} Sixteenth(a: nat)
    ensures a / 4 / 4 == a / 16
  {}

  lemma {:induction false} Eighth(a: nat)
    ensures a / 4 / 2 == a / 8
  {}

  lemma {:induction false} AndByFour(a: nat, m: nat)
    ensures AndBits(a, 4 * m) == 4 * AndBits(a / 4, m)
  {
    hide *;
    AndEven(a, 2 * m);
    AndEven(a / 2, m);
    Quarter(a);
  }

  // The two lowest bits together, and the four lowest.
  lemma {:induction false} AndOne(a: nat)
    ensures AndBits(a, 1) == a % 2
  {
    hide *;
    AndOdd(a, 0);
    AndNone(a / 2);
  }

  lemma {:induction false} AndThree(a: nat)
    ensures AndBits(a, 3) == a % 4
  {
    hide *;
    AndOdd(a, 1);
    AndOne(a / 2);
  }

  lemma {:induction false} AndFifteen(a: nat)
    ensures AndBits(a, 0xf) == a % 16
  {
    hide *;
    AndOdd(a, 7);
    AndOdd(a / 2, 3);
    AndThree(a / 4);
    Quarter(a);
  }

  // Bits 1, 2 and 3 alone, bits 2 and 3 together, and bits 4 to 7.
  lemma {:induction false} AndTwo(a: nat)
    ensures AndBits(a, 2) == 2 * (a / 2 % 2)
  {
    hide *;
    AndEven(a, 1);
    AndOne(a / 2);
  }

  lemma {:induction false} AndFour(a: nat)
    ensures AndBits(a, 4) == 4 * (a / 4 % 2)
  {
    hide *;
    AndByFour(a, 1);
    AndOne(a / 4);
  }

  lemma {:induction false} AndEight(a: nat)
    ensures AndBits(a, 8) == 8 * (a / 8 % 2)
  {
    hide *;
    AndByFour(a, 2);
    AndTwo(a / 4);
    Eighth(a);
  }

  lemma {:induction false} AndTwelve(a: nat)
    ensures AndBits(a, 0xc) == 4 * (a / 4 % 4)
  {
    hide *;
    AndByFour(a, 3);
    AndThree(a / 4);
  }

  lemma {:induction false} AndUpper(a: nat)
    ensures AndBits(a, 0xf0) == 16 * (a / 16 % 16)
  {
    hide *;
    AndByFour(a, 0x3c);
    AndByFour(a / 4, 0xf);
    AndFifteen(a / 16);
    Sixteenth(a);
  }
}
