/**
 * The hashes of the match finder (HASH4_CALC of EMdF/lzma_emdros.cpp) as bit
 * vectors: two- and three-byte hashes are short enough that, the first byte being
 * known, they determine the other bytes whatever the CRC table holds.
 */
module Hashes {

  const HASH2_SIZE := 0x400
  const HASH3_SIZE := 0x1_0000
  const FIX4 := HASH2_SIZE + HASH3_SIZE

  type Crc = s: seq<bv32> | |s| == 256 witness seq(256, _ => 0)

  /** HASH4_CALC from the table word of the first byte, and at last that of the fourth: the low 10 and 16 bits, and all of them. */
  function Mix2(t: bv32, c1: bv8): bv10 { ((t ^ (c1 as bv32)) & 0x3FF) as bv10 }

  function Mix3(t: bv32, c1: bv8, c2: bv8): bv16 { ((t ^ (c1 as bv32) ^ ((c2 as bv32) << 8)) & 0xFFFF) as bv16 }

  function Mix4(t: bv32, c1: bv8, c2: bv8, u: bv32): bv32 { t ^ (c1 as bv32) ^ ((c2 as bv32) << 8) ^ (u << 5) }

  function Hash2(crc: Crc, c0: bv8, c1: bv8): bv10 { Mix2(crc[c0 as int], c1) }

  function Hash3(crc: Crc, c0: bv8, c1: bv8, c2: bv8): bv16 { Mix3(crc[c0 as int], c1, c2) }

  function Hash4(crc: Crc, c0: bv8, c1: bv8, c2: bv8, c3: bv8): bv32 {
    Mix4(crc[c0 as int], c1, c2, crc[c3 as int])
  }

  function Nat10(x: bv10): nat { x as int }

  function Nat16(x: bv16): nat { x as int }

  lemma Nat10Back(x: bv10) ensures Nat10(x) < HASH2_SIZE && (x as int) as bv10 == x {}

  lemma Nat16Back(x: bv16) ensures Nat16(x) < HASH3_SIZE && (x as int) as bv16 == x {}

  lemma Nat10Injective(x: bv10, y: bv10)
    requires Nat10(x) == Nat10(y)
    ensures x == y
  {
    Nat10Back(x);
    Nat10Back(y);
  }

  lemma Nat16Injective(x: bv16, y: bv16)
    requires Nat16(x) == Nat16(y)
    ensures x == y
  {
    Nat16Back(x);
    Nat16Back(y);
  }

  lemma Mix2Tells(t: bv32, c: bv8, d: bv8)
    requires Mix2(t, c) == Mix2(t, d)
    ensures c == d
  {
  }

  lemma Mix3Tells(t: bv32, c: bv8, d: bv8, e: bv8, f: bv8)
    requires Mix3(t, c, e) == Mix3(t, d, f)
    ensures c == d && e == f
  {
  }

  /** The two-byte hash: the low 10 bits of the first byte's table word, turned over where the second byte has ones. */
  lemma Mix2Bits(t: bv32, c1: bv8, d1: bv8)
    ensures (Mix2(t, 0) as bv32) == t & 0x3FF
    ensures (Mix2(t, c1) as bv32) ^ (Mix2(t, d1) as bv32) == (c1 ^ d1) as bv32
  {
  }

  /** The three-byte hash: low 16 bits, with the third byte above the second. */
  lemma Mix3Bits(t: bv32, c1: bv8, d1: bv8, c2: bv8, d2: bv8)
    ensures (Mix3(t, 0, 0) as bv32) == t & 0xFFFF
    ensures (Mix3(t, c1, c2) as bv32) ^ (Mix3(t, d1, d2) as bv32) == ((c1 ^ d1) as bv32) | (((c2 ^ d2) as bv32) << 8)
  {
  }

  /** The four-byte hash: all 32 bits, and the fourth byte's table word moved up by five. */
  lemma Mix4Bits(t: bv32, c1: bv8, d1: bv8, c2: bv8, d2: bv8, u: bv32)
    ensures Mix4(t, 0, 0, u) ^ t == u << 5
    ensures Mix4(t, c1, c2, u) ^ Mix4(t, d1, d2, u) == ((c1 ^ d1) as bv32) | (((c2 ^ d2) as bv32) << 8)
  {
  }

  /** The index of a position's entry in the table of two-byte hashes; likewise for three and four bytes. */
  function Index2(crc: Crc, data: seq<bv8>, a: nat): (i: nat)
    requires a + 4 <= |data|
    ensures i < HASH2_SIZE
  {
    Nat10Back(Hash2(crc, data[a], data[a + 1]));
    Nat10(Hash2(crc, data[a], data[a + 1]))
  }

  function Index3(crc: Crc, data: seq<bv8>, a: nat): (i: nat)
    requires a + 4 <= |data|
    ensures HASH2_SIZE <= i < FIX4
  {
    Nat16Back(Hash3(crc, data[a], data[a + 1], data[a + 2]));
    HASH2_SIZE + Nat16(Hash3(crc, data[a], data[a + 1], data[a + 2]))
  }

  /** hashMask + 1 is a power of two, so that masking is taking the remainder. */
  function Index4(crc: Crc, data: seq<bv8>, a: nat, hashMask: nat): (i: nat)
    requires a + 4 <= |data|
    ensures FIX4 <= i < FIX4 + hashMask + 1
  {
    FIX4 + (Hash4(crc, data[a], data[a + 1], data[a + 2], data[a + 3]) as int) % (hashMask + 1)
  }

  lemma Index2Tells(crc: Crc, data: seq<bv8>, a: nat, b: nat)
    requires a + 4 <= |data| && b + 4 <= |data|
    requires Index2(crc, data, a) == Index2(crc, data, b) && data[a] == data[b]
    ensures data[a + 1] == data[b + 1]
  {
    hide Mix2, Nat10;
    Nat10Injective(Hash2(crc, data[a], data[a + 1]), Hash2(crc, data[b], data[b + 1]));
    Mix2Tells(crc[data[a] as int], data[a + 1], data[b + 1]);
  }

  /** Equal three-byte hash and equal first byte: equal second and third bytes. */
  lemma Index3Tells(crc: Crc, data: seq<bv8>, a: nat, b: nat)
    requires a + 4 <= |data| && b + 4 <= |data|
    requires Index3(crc, data, a) == Index3(crc, data, b) && data[a] == data[b]
    ensures data[a + 1] == data[b + 1] && data[a + 2] == data[b + 2]
  {
    hide Mix3, Nat16;
    Nat16Injective(Hash3(crc, data[a], data[a + 1], data[a + 2]), Hash3(crc, data[b], data[b + 1], data[b + 2]));
    Mix3Tells(crc[data[a] as int], data[a + 1], data[b + 1], data[a + 2], data[b + 2]);
  }

  /** A position of four-byte hash h. */
  ghost predicate Member(crc: Crc, data: seq<bv8>, hashMask: nat, y: int, h: nat) {
    0 <= y && y + 4 <= |data| && Index4(crc, data, y, hashMask) == h
  }

  /** A position whose entry in the tables is i. */
  ghost predicate HasIndex(crc: Crc, data: seq<bv8>, hashMask: nat, y: int, i: nat) {
    0 <= y && y + 4 <= |data| &&
    (if i < HASH2_SIZE then Index2(crc, data, y) == i
     else if i < FIX4 then Index3(crc, data, y) == i
     else Index4(crc, data, y, hashMask) == i)
  }

  /** The positions of four-byte hash h in from .. at. */
  ghost function Positions(crc: Crc, data: seq<bv8>, hashMask: nat, h: nat, from: int, at: nat): set<int> {
    set y: int | from <= y < at && Member(crc, data, hashMask, y, h)
  }

  /** The latest position before `at` with that entry. */
  ghost predicate IsLatest(crc: Crc, data: seq<bv8>, hashMask: nat, at: nat, i: nat, z: int) {
    z < at && HasIndex(crc, data, hashMask, z, i) && forall y :: z < y < at ==> !HasIndex(crc, data, hashMask, y, i)
  }
}
