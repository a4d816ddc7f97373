/** Bitwise operators on natural numbers, defined bit by bit, and the arithmetic
    they stand for. Every bit trick of the modelled code (Fenwick links, index
    masks, header bits, payload masking, event masks) goes through this module. */
module Bits {

  function And(x: nat, y: nat): nat {
    if x == 0 || y == 0 then 0 else 2 * And(x / 2, y / 2) + (if x % 2 == 1 && y % 2 == 1 then 1 else 0)
  }

  function Or(x: nat, y: nat): nat
    decreases x + y
  {
    if x == 0 then y else if y == 0 then x
    else 2 * Or(x / 2, y / 2) + (if x % 2 == 1 || y % 2 == 1 then 1 else 0)
  }

  function Xor(x: nat, y: nat): nat
    decreases x + y
  {
    if x == 0 then y else if y == 0 then x
    else 2 * Xor(x / 2, y / 2) + (if x % 2 != y % 2 then 1 else 0)
  }

  function Pow2(k: nat): (p: nat)
    ensures p >= 1
  {
    if k == 0 then 1 else 2 * Pow2(k - 1)
  }

  ghost predicate IsPow2(n: int) {
    exists k: nat :: n == Pow2(k)
  }

  // ---- And ----

  lemma {:induction false} AndSelf(x: nat)
    ensures And(x, x) == x
  {
    if x != 0 { AndSelf(x / 2); }
  }

  lemma MulAtLeast(d: int, m: nat)
    requires d >= 1
    ensures d * m >= m
  {}

  lemma DivModUnique(x: nat, m: nat, q: nat, r: nat)
    requires x == q * m + r && r < m
    ensures x / m == q && x % m == r
  {
    var d := x / m - q;
    assert d * m == r - x % m by { assert x == (x / m) * m + x % m; }
    if d >= 1 { MulAtLeast(d, m); assert false; }
    if d <= -1 { MulAtLeast(-d, m); assert false; }
  }

  // Splitting off the lowest bit commutes with division by a power of two.
  lemma HalfDivMod(x: nat, m: nat)
    requires m >= 1
    ensures x % (2 * m) == 2 * ((x / 2) % m) + x % 2
    ensures x / (2 * m) == (x / 2) / m
  {
    var h := x / 2;
    assert h == (h / m) * m + h % m;
    assert x == (h / m) * (2 * m) + (2 * (h % m) + x % 2);
    DivModUnique(x, 2 * m, h / m, 2 * (h % m) + x % 2);
  }

  // Masking with 2^k - 1 is the remainder modulo 2^k.
  lemma {:induction false} AndLowMask(x: nat, k: nat)
    ensures And(x, Pow2(k) - 1) == x % Pow2(k)
  {
    hide And;
    if k == 0 {
      AndNothing(x);
    } else {
      AndLowMask(x / 2, k - 1);
      AndLowMaskHalf(x, Pow2(k - 1));
      assert Pow2(k) == 2 * Pow2(k - 1);
    }
  }

  lemma AndNothing(x: nat)
    ensures And(x, 0) == 0 == x % 1
  {}

  lemma AndLowMaskHalf(x: nat, q: nat)
    requires q >= 1 && And(x / 2, q - 1) == (x / 2) % q
    ensures And(x, 2 * q - 1) == x % (2 * q)
  {
    hide And;
    assert x == 2 * (x / 2) + x % 2;
    AndLowMaskStep(x / 2, x % 2, q);
  }

  lemma AndLowMaskStep(h: nat, a: nat, q: nat)
    requires q >= 1 && a <= 1 && And(h, q - 1) == h % q
    ensures And(2 * h + a, 2 * q - 1) == (2 * h + a) % (2 * q)
  {
    hide And;
    AndBit(h, a, q - 1, 1);
    HalfDivMod(2 * h + a, q);
    assert (2 * h + a) / 2 == h && (2 * h + a) % 2 == a && 2 * (q - 1) + 1 == 2 * q - 1;
  }

  lemma MulDouble(a: nat, q: nat)
    ensures a * (2 * q) == 2 * (a * q)
  {}

  lemma AndBit(h: nat, a: nat, i: nat, b: nat)
    requires a <= 1 && b <= 1
    ensures And(2 * h + a, 2 * i + b) == 2 * And(h, i) + (if a == 1 && b == 1 then 1 else 0)
  {
    assert (2 * h + a) / 2 == h && (2 * i + b) / 2 == i;
  }

  // And works on the high parts and on the k low bits separately.
  lemma {:induction false} AndSplit(x: nat, r: nat, y: nat, s: nat, k: nat, p: nat)
    requires p == Pow2(k) && r < p && s < p
    ensures And(x * p + r, y * p + s) == And(x, y) * p + And(r, s)
    decreases k
  {
    if k == 0 {
      assert x * p == x && y * p == y;
    } else {
      AndSplitStep(x, r, y, s, k, p, Pow2(k - 1));
    }
  }

  lemma {:induction false} AndSplitStep(x: nat, r: nat, y: nat, s: nat, k: nat, p: nat, q: nat)
    requires k > 0 && p == 2 * q && q == Pow2(k - 1) && r < p && s < p
    ensures And(x * p + r, y * p + s) == And(x, y) * p + And(r, s)
    decreases k, 0
  {
    hide And, Pow2;
    AndSplit(x, r / 2, y, s / 2, k - 1, q);
    MulDouble(x, q);
    MulDouble(y, q);
    MulDouble(And(x, y), q);
    AndBit(x * q + r / 2, r % 2, y * q + s / 2, s % 2);
    AndBit(r / 2, r % 2, s / 2, s % 2);
  }

  // A single bit.
  lemma BitAt(b: nat, k: nat, p: nat)
    requires p == Pow2(k)
    ensures And(b, p) == (b / p) % 2 * p
  {
    hide And, Pow2;
    AndSplit(b / p, b % p, 1, 0, k, p);
    assert b == (b / p) * p + b % p;
    LowestBit(b / p);
    LowestBit(b % p);
  }

  lemma LowestBit(x: nat)
    ensures And(x, 1) == x % 2 && And(x, 0) == 0
  {
    assert Pow2(1) == 2;
    AndLowMask(x, 1);
  }

  // ---- Or ----

  lemma {:induction false} OrSelf(x: nat)
    ensures Or(x, x) == x
  {
    if x != 0 { OrSelf(x / 2); }
  }

  lemma OrBit(h: nat, a: nat, i: nat, b: nat)
    requires a <= 1 && b <= 1
    ensures Or(2 * h + a, 2 * i + b) == 2 * Or(h, i) + (if a == 1 || b == 1 then 1 else 0)
  {
    assert (2 * h + a) / 2 == h && (2 * i + b) / 2 == i;
  }

  lemma {:induction false} OrSplit(x: nat, r: nat, y: nat, s: nat, k: nat, p: nat)
    requires p == Pow2(k) && r < p && s < p
    ensures Or(x * p + r, y * p + s) == Or(x, y) * p + Or(r, s)
    decreases k
  {
    if k == 0 {
      assert x * p == x && y * p == y;
    } else {
      OrSplitStep(x, r, y, s, k, p, Pow2(k - 1));
    }
  }

  lemma {:induction false} OrSplitStep(x: nat, r: nat, y: nat, s: nat, k: nat, p: nat, q: nat)
    requires k > 0 && p == 2 * q && q == Pow2(k - 1) && r < p && s < p
    ensures Or(x * p + r, y * p + s) == Or(x, y) * p + Or(r, s)
    decreases k, 0
  {
    hide Or, Pow2;
    OrSplit(x, r / 2, y, s / 2, k - 1, q);
    MulDouble(x, q);
    MulDouble(y, q);
    MulDouble(Or(x, y), q);
    OrBit(x * q + r / 2, r % 2, y * q + s / 2, s % 2);
    OrBit(r / 2, r % 2, s / 2, s % 2);
  }

  // ---- Xor ----

  lemma XorBit(h: nat, a: nat, i: nat, b: nat)
    requires a <= 1 && b <= 1
    ensures Xor(2 * h + a, 2 * i + b) == 2 * Xor(h, i) + (if a != b then 1 else 0)
  {
    assert (2 * h + a) / 2 == h && (2 * i + b) / 2 == i;
    if 2 * h + a == 0 { assert h == 0 && a == 0; }
    if 2 * i + b == 0 { assert i == 0 && b == 0; }
  }

  lemma {:induction false} XorTwice(x: nat, y: nat)
    ensures Xor(Xor(x, y), y) == x
    decreases x + y
  {
    if x == 0 {
      XorSelf(y);
    } else if y != 0 {
      XorTwiceStep(x / 2, x % 2, y / 2, y % 2);
    }
  }

  lemma {:induction false} XorTwiceStep(h: nat, a: nat, i: nat, b: nat)
    requires a <= 1 && b <= 1 && 2 * h + a > 0 && 2 * i + b > 0
    ensures Xor(Xor(2 * h + a, 2 * i + b), 2 * i + b) == 2 * h + a
    decreases 2 * h + a + 2 * i + b, 0
  {
    hide Xor;
    XorTwice(h, i);
    XorBit(h, a, i, b);
    XorBit(Xor(h, i), if a != b then 1 else 0, i, b);
  }

  lemma {:induction false} XorSelf(x: nat)
    ensures Xor(x, x) == 0
  {
    if x != 0 { XorSelf(x / 2); }
  }

  lemma {:induction false} XorBound(x: nat, y: nat, k: nat)
    requires x < Pow2(k) && y < Pow2(k)
    ensures Xor(x, y) < Pow2(k)
  {
    if k != 0 && x != 0 && y != 0 { XorBound(x / 2, y / 2, k - 1); }
  }
}
