/** Byte strings read as big-endian base-256 numbers: the arithmetic that the range coder's
    carry and the decoder's look-ahead are both measured against. */
module Bytes {

  type byte = b: int | 0 <= b < 256

  /** 256 to the power n. */
  function Pow256(n: nat): (p: nat)
    ensures p >= 1
  {
    if n == 0 then 1 else 256 * Pow256(n - 1)
  }

  lemma {:induction false} PowSum(a: nat, b: nat)
    ensures Pow256(a + b) == Pow256(a) * Pow256(b)
  {
    if a != 0 {
      PowSum(a - 1, b);
      assert Pow256(a + b) == 256 * Pow256(a - 1 + b);
    }
  }

  /** The number whose base-256 digits are s, most significant first. */
  function Num(s: seq<byte>): (v: nat) {
    if s == [] then 0 else Num(s[..|s| - 1]) * 256 + s[|s| - 1]
  }

  lemma NumSnoc(s: seq<byte>, b: byte)
    ensures Num(s + [b]) == Num(s) * 256 + b
  {
    assert (s + [b])[..|s|] == s;
  }

  lemma MulAssoc(a: nat, p: nat)
    ensures a * (256 * p) == (a * p) * 256
  {
  }

  /** Splitting a digit string splits its value, and the tail is a proper remainder. */
  lemma {:induction false} NumSplit(s: seq<byte>, t: seq<byte>)
    ensures Num(s + t) == Num(s) * Pow256(|t|) + Num(t)
    ensures Num(t) < Pow256(|t|)
  {
    if t == [] {
      assert s + t == s;
    } else {
      var t' := t[..|t| - 1];
      NumSplit(s, t');
      assert (s + t)[..|s + t| - 1] == s + t';
      MulAssoc(Num(s), Pow256(|t'|));
    }
  }

  /** n copies of one byte. */
  function Repeat(b: byte, n: nat): (s: seq<byte>)
    ensures |s| == n
  {
    if n == 0 then [] else Repeat(b, n - 1) + [b]
  }

  /** Adding one to a byte followed by 0xFF bytes turns them all over. */
  lemma {:induction false} CarryRipples(s: seq<byte>, c: byte, n: nat)
    requires c < 255
    ensures Num(s + [c + 1] + Repeat(0, n)) == Num(s + [c] + Repeat(255, n)) + 1
  {
    if n == 0 {
      assert s + [c + 1] + [] == s + [c + 1] && s + [c] + [] == s + [c];
      NumSnoc(s, c);
      NumSnoc(s, c + 1);
    } else {
      CarryRipples(s, c, n - 1);
      SnocRepeat(s + [c + 1], 0, n - 1);
      SnocRepeat(s + [c], 255, n - 1);
    }
  }

  lemma SnocRepeat(s: seq<byte>, b: byte, n: nat)
    ensures Num(s + Repeat(b, n + 1)) == Num(s + Repeat(b, n)) * 256 + b
  {
    assert s + Repeat(b, n + 1) == (s + Repeat(b, n)) + [b];
    NumSnoc(s + Repeat(b, n), b);
  }
}
