/** Machine-word bit operations on natural numbers, by recursion on the binary digits. */
module Bits {

  function Pow2(n: nat): (p: nat)
    ensures p >= 1
  {
    if n == 0 then 1 else 2 * Pow2(n - 1)
  }

  lemma {:induction false} Pow2Mono(a: nat, b: nat)
    requires a <= b
    ensures Pow2(a) <= Pow2(b)
  {
    if a < b { Pow2Mono(a, b - 1); }
  }

  lemma Pow2Next(n: nat)
    ensures Pow2(n + 1) == 2 * Pow2(n)
  {
  }

  lemma Pow2Values()
    ensures Pow2(3) == 8 && Pow2(4) == 16 && Pow2(6) == 64 && Pow2(8) == 0x100
  {
  }

  lemma LargePow2Values()
    ensures Pow2(7) == 0x80 && Pow2(11) == 0x800 && Pow2(17) == 0x2_0000
    ensures Pow2(27) == 0x800_0000 && Pow2(30) == 0x4000_0000 && Pow2(32) == 0x1_0000_0000
  {
    assert Pow2(9) == 512;
    assert Pow2(17) == 0x2_0000;
    assert Pow2(25) == 0x200_0000;
  }

  /** x >> n */
  function Shr(x: nat, n: nat): nat {
    if n == 0 then x else Shr(x / 2, n - 1)
  }

  /** bit k of x */
  function BitAt(x: nat, k: nat): (b: nat)
    ensures b < 2
  {
    if k == 0 then x % 2 else BitAt(x / 2, k - 1)
  }

  /** x << n */
  function Shl(x: nat, n: nat): nat
    decreases n
  {
    if n == 0 then x else Shl(2 * x, n - 1)
  }

  /** x & y */
  function And(x: nat, y: nat): nat {
    if x == 0 || y == 0 then 0 else (if x % 2 == 1 && y % 2 == 1 then 1 else 0) + 2 * And(x / 2, y / 2)
  }

  /** x & ~y */
  function AndNot(x: nat, y: nat): nat {
    if x == 0 then 0 else (if x % 2 == 1 && y % 2 == 0 then 1 else 0) + 2 * AndNot(x / 2, y / 2)
  }

  /** x ^ y */
  function Xor(x: nat, y: nat): nat
    decreases x + y
  {
    if x == 0 && y == 0 then 0 else (if x % 2 != y % 2 then 1 else 0) + 2 * Xor(x / 2, y / 2)
  }

  /** x | (1 << k) */
  function SetBit(x: nat, k: nat): nat {
    if BitAt(x, k) == 0 then x + Pow2(k) else x
  }

  // ---------------------------------------------------------------- shifts

  lemma {:induction false} ShrStep(x: nat, n: nat)
    requires n > 0
    ensures Shr(x, n - 1) == 2 * Shr(x, n) + BitAt(x, n - 1)
  {
    if n > 1 { ShrStep(x / 2, n - 1); }
  }

  lemma {:induction false} ShrSmall(x: nat, n: nat)
    requires x < Pow2(n)
    ensures Shr(x, n) == 0
  {
    if n > 0 { ShrSmall(x / 2, n - 1); }
  }

  lemma {:induction false} BitAtShl(x: nat, n: nat, k: nat)
    ensures BitAt(Shl(x, n), k) == if k < n then 0 else BitAt(x, k - n)
    decreases n
  {
    if n > 0 {
      BitAtShl(2 * x, n - 1, k);
      if k == n - 1 {
      } else if k >= n {
        assert 2 * x / 2 == x;
      }
    }
  }

  lemma {:induction false} ShlGrows(x: nat, n: nat)
    ensures x <= Shl(x, n)
    ensures Shl(x, n) + Pow2(n) == Shl(x + 1, n)
    decreases n
  {
    if n > 0 {
      ShlGrows(2 * x, n - 1);
      ShlGrows(2 * x + 1, n - 1);
    }
  }

  lemma {:induction false} ShlLast(x: nat, n: nat)
    ensures Shl(x, n + 1) == 2 * Shl(x, n)
    decreases n
  {
    if n > 0 { ShlLast(2 * x, n - 1); }
  }

  lemma {:induction false} ShlThree(n: nat)
    ensures Shl(3, n) == 3 * Pow2(n)
  {
    if n > 0 {
      ShlThree(n - 1);
      ShlLast(3, n - 1);
    }
  }

  // ---------------------------------------------------------------- single bits

  lemma {:induction false} AndPow2(x: nat, k: nat)
    ensures And(x, Pow2(k)) == if BitAt(x, k) == 1 then Pow2(k) else 0
  {
    if k == 0 {
      assert And(x, 1) == x % 2;
    } else {
      AndPow2(x / 2, k - 1);
      assert Pow2(k) / 2 == Pow2(k - 1) && Pow2(k) % 2 == 0;
      if x == 0 { BitAtZero(k); }
    }
  }

  lemma {:induction false} BitAtZero(k: nat)
    ensures BitAt(0, k) == 0
  {
    if k > 0 { BitAtZero(k - 1); }
  }

  lemma {:induction false} AndNotPow2(k: nat, y: nat)
    ensures AndNot(Pow2(k), y) == if BitAt(y, k) == 1 then 0 else Pow2(k)
  {
    if k == 0 {
      assert AndNot(0, y / 2) == 0;
    } else {
      AndNotPow2(k - 1, y / 2);
      assert Pow2(k) / 2 == Pow2(k - 1) && Pow2(k) % 2 == 0;
    }
  }

  lemma {:induction false} XorBit(x: nat, y: nat, k: nat)
    ensures BitAt(Xor(x, y), k) == if BitAt(x, k) == BitAt(y, k) then 0 else 1
  {
    var z := Xor(x, y);
    assert z / 2 == Xor(x / 2, y / 2);
    if k > 0 { XorBit(x / 2, y / 2, k - 1); }
  }

  /** Setting a clear bit is adding it, and disturbs no other bit. */
  lemma {:induction false} AddBit(x: nat, k: nat, j: nat)
    requires BitAt(x, k) == 0
    ensures BitAt(x + Pow2(k), j) == if j == k then 1 else BitAt(x, j)
  {
    if k == 0 {
      assert (x + 1) / 2 == x / 2;
    } else {
      var p := Pow2(k - 1);
      assert (x + 2 * p) / 2 == x / 2 + p && (x + 2 * p) % 2 == x % 2;
      if j > 0 { AddBit(x / 2, k - 1, j - 1); }
    }
  }
}
