/** Exclusive or and conjunction of unsigned numbers of any width. */
module Bits {

  /** Bitwise exclusive or of the binary digits. */
  function Xor(a: nat, b: nat): nat {
    if a == 0 && b == 0 then 0
    else (if a % 2 == b % 2 then 0 else 1) + 2 * Xor(a / 2, b / 2)
  }

  lemma {:induction false} XorCancels(a: nat, b: nat, k: nat)
    requires Xor(a, k) == Xor(b, k)
    ensures a == b
    decreases a + b + k
  {
    if a + b + k > 0 { XorCancels(a / 2, b / 2, k / 2); }
  }

  lemma {:induction false} XorSymmetric(a: nat, b: nat)
    ensures Xor(a, b) == Xor(b, a)
  {
    if a + b > 0 { XorSymmetric(a / 2, b / 2); }
  }

  lemma {:induction false} XorAssociative(a: nat, b: nat, c: nat)
    ensures Xor(Xor(a, b), c) == Xor(a, Xor(b, c))
    decreases a + b + c
  {
    if a + b + c > 0 { XorAssociative(a / 2, b / 2, c / 2); }
  }

  lemma {:induction false} XorZero(a: nat)
    ensures Xor(a, 0) == a && Xor(0, a) == a && Xor(a, a) == 0
  {
    if a > 0 { XorZero(a / 2); }
  }

  /** Equal numbers are those whose exclusive or is zero. */
  lemma XorEqual(a: nat, b: nat)
    ensures Xor(a, b) == 0 <==> a == b
  {
    XorZero(b);
    if Xor(a, b) == 0 { XorCancels(a, b, b); }
  }

  lemma XorSwap(a: nat, b: nat, c: nat)
    ensures Xor(Xor(a, b), c) == Xor(Xor(a, c), b)
  {
    XorAssociative(a, b, c);
    XorAssociative(a, c, b);
    XorSymmetric(b, c);
  }

  lemma XorUndone(a: nat, b: nat)
    ensures Xor(Xor(a, b), b) == a
  {
    XorAssociative(a, b, b);
    XorZero(a);
    XorZero(b);
  }

  /** No bit appears that neither number has room for. */
  lemma {:induction false} XorBelow(a: nat, b: nat, n: nat)
    requires a < Power(n) && b < Power(n)
    ensures Xor(a, b) < Power(n)
  {
    if n > 0 { XorBelow(a / 2, b / 2, n - 1); }
  }

  function Power(n: nat): nat {
    if n == 0 then 1 else 2 * Power(n - 1)
  }

  /** No bit of the number is one of its predecessor, as the code asks; zero passes too. */
  predicate IsPowerOfTwo(n: nat) {
    n == 0 || And(n, n - 1) == 0
  }

  lemma {:induction false} AndSame(n: nat)
    ensures And(n, n) == n
  {
    if n > 0 { AndSame(n / 2); }
  }

  lemma PowerParity(k: nat)
    ensures if k == 0 then Power(k) == 1 else Power(k) == 2 * Power(k - 1)
  {
  }

  lemma OddPower(n: nat)
    requires n % 2 == 1
    ensures (exists k: nat :: n == Power(k)) <==> n == 1
  {
    if n == 1 { assert n == Power(0); }
    if k: nat :| n == Power(k) { PowerParity(k); }
  }

  lemma HalfPower(h: nat)
    requires h > 0
    ensures (exists k: nat :: 2 * h == Power(k)) <==> exists k: nat :: h == Power(k)
  {
    if k: nat :| h == Power(k) { assert 2 * h == Power(k + 1); }
    if k: nat :| 2 * h == Power(k) {
      PowerParity(k);
      assert h == Power(k - 1);
    }
  }

  /** Those that pass the test are zero and the powers of two. */
  lemma {:induction false} PowerOfTwoExact(n: nat)
    requires n > 0
    ensures IsPowerOfTwo(n) <==> exists k: nat :: n == Power(k)
  {
    var h := n / 2;
    AndDigit(n, n - 1);
    if n % 2 == 1 {
      assert n - 1 == 2 * h;
      AndSame(h);
      OddPower(n);
    } else {
      assert (n - 1) / 2 == h - 1;
      PowerOfTwoExact(h);
      HalfPower(h);
    }
  }

  function Shifted(y: nat, n: nat): nat {
    if n == 0 then y else 2 * Shifted(y, n - 1)
  }

  /** High and low digits do not mix. */
  lemma {:induction false} XorSplits(x: nat, y: nat, u: nat, v: nat, n: nat)
    requires x < Power(n) && u < Power(n)
    ensures Xor(x + Shifted(y, n), u + Shifted(v, n)) == Xor(x, u) + Shifted(Xor(y, v), n)
  {
    if n > 0 {
      var s, t := Shifted(y, n - 1), Shifted(v, n - 1);
      assert (x + 2 * s) / 2 == x / 2 + s && (u + 2 * t) / 2 == u / 2 + t;
      XorSplits(x / 2, y, u / 2, v, n - 1);
    }
  }

  /** A byte and what stands above it. */
  function Pair(lo: nat, hi: nat): nat {
    lo + 256 * hi
  }

  lemma XorPairs(x: nat, y: nat, u: nat, v: nat)
    requires x < 256 && u < 256
    ensures Xor(Pair(x, y), Pair(u, v)) == Pair(Xor(x, u), Xor(y, v)) && Xor(x, u) < 256
  {
    assert Power(8) == 256 by { assert Power(4) == 16; }
    EightTimes(y);
    EightTimes(v);
    EightTimes(Xor(y, v));
    XorSplits(x, y, u, v, 8);
    XorBelow(x, u, 8);
  }

  lemma EightTimes(y: nat)
    ensures Shifted(y, 8) == 256 * y
  {
    assert Shifted(y, 1) == 2 * y;
    assert Shifted(y, 3) == 8 * y;
    assert Shifted(y, 5) == 32 * y;
    assert Shifted(y, 7) == 128 * y;
  }

  // ---------------------------------------------------------------- masks

  /** Bitwise conjunction of the binary digits. */
  function And(a: nat, b: nat): nat {
    if a == 0 || b == 0 then 0
    else (if a % 2 == 1 && b % 2 == 1 then 1 else 0) + 2 * And(a / 2, b / 2)
  }

  lemma AndDigit(a: nat, b: nat)
    ensures And(a, b) == (if a % 2 == 1 && b % 2 == 1 then 1 else 0) + 2 * And(a / 2, b / 2)
  {
  }

  lemma {:induction false} AndSplits(x: nat, y: nat, u: nat, v: nat, n: nat)
    requires x < Power(n) && u < Power(n)
    ensures And(x + Shifted(y, n), u + Shifted(v, n)) == And(x, u) + Shifted(And(y, v), n)
  {
    if n > 0 {
      var s, t := Shifted(y, n - 1), Shifted(v, n - 1);
      assert (x + 2 * s) / 2 == x / 2 + s && (u + 2 * t) / 2 == u / 2 + t;
      AndSplits(x / 2, y, u / 2, v, n - 1);
      AndDigit(x + 2 * s, u + 2 * t);
      AndDigit(x, u);
    }
  }

  /** A mask of ones keeps a number, and the complement of a number within the mask clears it. */
  lemma {:induction false} AndOnes(x: nat, n: nat)
    requires x < Power(n)
    ensures And(x, Power(n) - 1) == x && And(x, Power(n) - 1 - x) == 0
  {
    if n > 0 {
      var ones := Power(n) - 1;
      assert ones / 2 == Power(n - 1) - 1 && (ones - x) / 2 == Power(n - 1) - 1 - x / 2;
      AndOnes(x / 2, n - 1);
      AndDigit(x, ones);
      AndDigit(x, ones - x);
    }
  }

  lemma {:induction false} ShiftedIs(y: nat, n: nat)
    ensures Shifted(y, n) == Power(n) * y
  {
    if n > 0 { ShiftedIs(y, n - 1); }
  }

  lemma Widths()
    ensures Power(4) == 16 && Power(28) == 0x1000_0000
  {
    assert Power(8) == 256 by { assert Power(4) == 16; }
    assert Power(12) == 0x1000;
    assert Power(16) == 0x1_0000;
    assert Power(20) == 0x10_0000;
    assert Power(24) == 0x100_0000;
  }

  lemma XorNibble(x: nat, y: nat, u: nat, v: nat)
    requires x < 16 && u < 16
    ensures Xor(x + 16 * y, u + 16 * v) == Xor(x, u) + 16 * Xor(y, v)
  {
    Widths();
    ShiftedIs(y, 4);
    ShiftedIs(v, 4);
    ShiftedIs(Xor(y, v), 4);
    XorSplits(x, y, u, v, 4);
  }

  lemma AndAbove(x: nat, y: nat, u: nat, v: nat)
    requires x < 0x1000_0000 && u < 0x1000_0000
    ensures And(x + 0x1000_0000 * y, u + 0x1000_0000 * v) == And(x, u) + 0x1000_0000 * And(y, v)
  {
    Widths();
    ShiftedIs(y, 28);
    ShiftedIs(v, 28);
    ShiftedIs(And(y, v), 28);
    AndSplits(x, y, u, v, 28);
  }
}
