/** Bitwise operators on non-negative integers, bit by bit from the low end,
    and the mask facts the frame codec and the UUID builders rely on. */
module Bits {
  import opened Bytes

  function And(a: nat, b: nat): (r: nat)
    ensures r <= a && r <= b
  {
    if a == 0 || b == 0 then 0
    else 2 * And(a / 2, b / 2) + (if a % 2 == 1 && b % 2 == 1 then 1 else 0)
  }

  function Or(a: nat, b: nat): nat
    decreases a + b
  {
    if a == 0 && b == 0 then 0
    else 2 * Or(a / 2, b / 2) + (if a % 2 == 1 || b % 2 == 1 then 1 else 0)
  }

  /** Exclusive or of the low `k` bits. */
  function XorBits(a: nat, b: nat, k: nat): nat
  {
    if k == 0 then 0
    else 2 * XorBits(a / 2, b / 2, k - 1) + (if a % 2 == b % 2 then 0 else 1)
  }

  function Pow2(k: nat): (p: nat)
    ensures p > 0
  {
    if k == 0 then 1 else 2 * Pow2(k - 1)
  }

  lemma {:induction false} XorBound(a: nat, b: nat, k: nat)
    ensures XorBits(a, b, k) < Pow2(k)
  {
    if k > 0 { XorBound(a / 2, b / 2, k - 1); }
  }

  lemma {:induction false} XorBitsInvolution(a: nat, b: nat, k: nat)
    requires a < Pow2(k)
    ensures XorBits(XorBits(a, b, k), b, k) == a
  {
    if k > 0 {
      var x := XorBits(a / 2, b / 2, k - 1);
      XorBitsInvolution(a / 2, b / 2, k - 1);
      var y := XorBits(a, b, k);
      assert y / 2 == x && y % 2 == if a % 2 == b % 2 then 0 else 1;
    }
  }

  lemma Pow2Eight()
    ensures Pow2(8) == 256
  {
    assert Pow2(4) == 16;
  }

  function Xor(a: byte, b: byte): (r: byte)
  {
    XorBound(a, b, 8);
    Pow2Eight();
    XorBits(a, b, 8)
  }

  lemma XorInvolution(a: byte, b: byte)
    ensures Xor(Xor(a, b), b) == a
  {
    Pow2Eight();
    XorBitsInvolution(a, b, 8);
  }

  lemma {:induction false} XorBitsCommutes(a: nat, b: nat, k: nat)
    ensures XorBits(a, b, k) == XorBits(b, a, k)
  {
    if k > 0 { XorBitsCommutes(a / 2, b / 2, k - 1); }
  }

  lemma XorCommutes(a: byte, b: byte)
    ensures Xor(a, b) == Xor(b, a)
  {
    XorBitsCommutes(a, b, 8);
  }

  lemma {:induction false} XorBitsZero(a: nat, k: nat)
    requires a < Pow2(k)
    ensures XorBits(a, 0, k) == a
  {
    if k > 0 { XorBitsZero(a / 2, k - 1); }
  }

  lemma XorZero(a: byte)
    ensures Xor(a, 0) == a
  {
    Pow2Eight();
    XorBitsZero(a, 8);
  }

  // ------------------------------------------------------------------ masks

  lemma Multiple(k: int, d: nat)
    ensures k >= 1 ==> k * d >= d
    ensures k <= -1 ==> k * d <= 0 - d
  {
  }

  lemma Minus(e: int, q: int, d: int)
    ensures (e - q) * d == e * d - q * d
  {
  }

  lemma ModUnique(x: nat, q: nat, d: nat, r: nat)
    requires r < d && x == q * d + r
    ensures x % d == r
  {
    var e, s := x / d, x % d;
    assert x == e * d + s;
    Minus(e, q, d);
    Multiple(e - q, d);
  }

  lemma DoubleMod(a: nat, n: nat)
    requires n > 0
    ensures a % (2 * n) == 2 * (a / 2 % n) + a % 2
  {
    var q, r := a / 2 / n, a / 2 % n;
    assert a / 2 == q * n + r;
    assert a == q * (2 * n) + (2 * r + a % 2);
    ModUnique(a, q, 2 * n, 2 * r + a % 2);
  }

  /** A mask of `k` ones keeps the low `k` bits. */
  lemma {:induction false} AndOnes(a: nat, k: nat)
    ensures And(a, Pow2(k) - 1) == a % Pow2(k)
    decreases k
  {
    if k > 0 {
      var n := Pow2(k - 1);
      AndOnes(a / 2, k - 1);
      DoubleMod(a, n);
      LowOne(a, n - 1);
    }
  }

  /** Peeling the low bit of an odd mask. */
  lemma LowOne(a: nat, m: nat)
    ensures And(a, 2 * m + 1) == 2 * And(a / 2, m) + a % 2
  {
    assert (2 * m + 1) / 2 == m && (2 * m + 1) % 2 == 1;
  }

  /** A mask of one bit tests it. */
  lemma {:induction false} AndBit(a: nat, k: nat)
    requires a < 2 * Pow2(k)
    ensures And(a, Pow2(k)) == if a >= Pow2(k) then Pow2(k) else 0
    decreases k
  {
    if k > 0 {
      assert Pow2(k) / 2 == Pow2(k - 1) && Pow2(k) % 2 == 0;
      AndBit(a / 2, k - 1);
    } else {
      AndOnes(a, 1);
    }
  }

  /** A value shifted up `k` bits. */
  function Shifted(h: nat, k: nat): nat { if k == 0 then h else 2 * Shifted(h, k - 1) }

  /** Bits below a shifted value do not meet it. */
  lemma {:induction false} AndShifted(a: nat, h: nat, k: nat)
    requires a < Pow2(k)
    ensures And(a, Shifted(h, k)) == 0
    decreases k
  {
    if k > 0 { AndShifted(a / 2, h, k - 1); }
  }

  lemma Powers()
    ensures Pow2(4) == 16 && Pow2(6) == 64 && Pow2(7) == 128
  {
    assert Pow2(2) == 4;
    assert Pow2(3) == 8;
    assert Pow2(5) == 32;
  }

  lemma And15(a: nat) ensures And(a, 15) == a % 16 { Powers(); AndOnes(a, 4); }
  lemma And63(a: nat) ensures And(a, 63) == a % 64 { Powers(); AndOnes(a, 6); }
  lemma And127(a: nat) ensures And(a, 127) == a % 128 { Powers(); AndOnes(a, 7); }

  lemma And128(a: nat)
    requires a < 256
    ensures And(a, 128) == if a >= 128 then 128 else 0
  {
    Powers();
    AndBit(a, 7);
  }

  lemma {:induction false} OrIsSum(a: nat, b: nat)
    ensures Or(a, b) == a + b - And(a, b)
    decreases a + b
  {
    if a != 0 || b != 0 { OrIsSum(a / 2, b / 2); }
  }

  lemma {:induction false} AndCommutes(a: nat, b: nat)
    ensures And(a, b) == And(b, a)
    decreases a
  {
    if a != 0 && b != 0 { AndCommutes(a / 2, b / 2); }
  }

  /** Setting the top bit of a byte. */
  lemma SetHighBit(a: nat)
    requires a < 256
    ensures Or(a, 128) == 128 + a % 128
    ensures Or(128, a) == 128 + a % 128
  {
    OrTop(a, 128);
  }

  lemma OrTop(a: nat, top: nat)
    requires a < 256 && top == 128
    ensures Or(a, top) == top + a % 128 && Or(top, a) == top + a % 128
  {
    assert And(a, top) == (if a >= 128 then top else 0) by { And128(a); }
    OrIsSum(a, top);
    OrIsSum(top, a);
    AndCommutes(a, top);
  }

  lemma OrLow(a: nat, top: nat)
    requires a < 128 && top == 128
    ensures Or(a, top) == top + a
  {
    OrTop(a, top);
  }

  /** Joining a nibble to the one above it. */
  lemma OrNibble(low: nat, high: nat)
    requires low < 16
    ensures Or(low, 16 * high) == 16 * high + low
  {
    Powers();
    AndShifted(low, high, 4);
    assert Shifted(high, 1) == 2 * high;
    assert Shifted(high, 2) == 4 * high;
    assert Shifted(high, 3) == 8 * high;
    assert Shifted(high, 4) == 16 * high;
    OrIsSum(low, Shifted(high, 4));
  }
}
