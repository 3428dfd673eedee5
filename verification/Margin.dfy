/** How many bytes one symbol can take: the source lets the decoder run without looking at the
    end of its input as long as 20 bytes are ahead. Each bit shrinks the range by a bounded
    factor and each byte taken multiplies it by 256, so that the bytes are bounded by the bits. */
module Margin {
  import opened Options
  import opened Bytes
  import opened Bits
  import opened RangeCoder
  import opened Contexts
  import opened Symbols
  import opened SymbolCoders
  import opened PosSlots
  import opened Lz

  /** LZMA_REQUIRED_INPUT_MAX */
  const REQUIRED_INPUT := 20

  // ---------------------------------------------------------------- the least range

  /** What a context bit leaves of the range at least: probabilities are 31 of 2048 or more. */
  const COIN_LEAST := 31.0 / 2049.0

  /** What a direct bit leaves at least: half, rounded down. */
  const RAW_LEAST := 0.4999

  /** The least range after k bytes, m context bits and n direct bits, from base on. */
  ghost function Least(base: real, k: nat, m: nat, n: nat): (r: real)
    requires base > 0.0
    ensures r > 0.0
  {
    if k > 0 then 256.0 * Least(base, k - 1, m, n)
    else if m > 0 then COIN_LEAST * Least(base, 0, m - 1, n)
    else if n > 0 then RAW_LEAST * Least(base, 0, 0, n - 1)
    else base
  }

  lemma {:induction false} LeastCoin(base: real, k: nat, m: nat, n: nat)
    requires base > 0.0
    ensures Least(base, k, m + 1, n) == COIN_LEAST * Least(base, k, m, n)
  {
    if k > 0 { LeastCoin(base, k - 1, m, n); }
  }

  lemma {:induction false} LeastRaw(base: real, k: nat, m: nat, n: nat)
    requires base > 0.0
    ensures Least(base, k, m, n + 1) == RAW_LEAST * Least(base, k, m, n)
  {
    if k > 0 {
      LeastRaw(base, k - 1, m, n);
    } else if m > 0 {
      LeastRaw(base, 0, m - 1, n);
    }
  }

  lemma {:induction false} LeastFewer(base: real, k: nat, m: nat, n: nat, m': nat, n': nat)
    requires base > 0.0 && m <= m' && n <= n'
    ensures Least(base, k, m', n') <= Least(base, k, m, n)
    decreases m', n'
  {
    if m < m' {
      LeastFewer(base, k, m, n, m' - 1, n');
      LeastCoin(base, k, m' - 1, n');
    } else if n < n' {
      LeastFewer(base, k, m, n, m', n' - 1);
      LeastRaw(base, k, m', n' - 1);
    }
  }

  /** Three bytes make up for nearly all that four context bits take. */
  lemma FourCoins(base: real, k: nat, m: nat, n: nat)
    requires base > 0.0
    ensures Least(base, k + 3, m + 4, n) >= 0.87 * Least(base, k, m, n)
  {
    LeastCoin(base, k, m, n);
    LeastCoin(base, k, m + 1, n);
    LeastCoin(base, k, m + 2, n);
    LeastCoin(base, k, m + 3, n);
    ThreeBytes(base, k, m + 4, n);
  }

  lemma ThreeBytes(base: real, k: nat, m: nat, n: nat)
    requires base > 0.0
    ensures Least(base, k + 3, m, n) == 16777216.0 * Least(base, k, m, n)
  {
    assert Least(base, k + 2, m, n) == 256.0 * Least(base, k + 1, m, n);
  }

  lemma FourRaws(base: real, n: nat)
    requires base > 0.0
    ensures Least(base, 0, 0, n + 4) >= 0.0624 * Least(base, 0, 0, n)
  {
    LeastRaw(base, 0, 0, n);
    LeastRaw(base, 0, 0, n + 1);
    LeastRaw(base, 0, 0, n + 2);
    LeastRaw(base, 0, 0, n + 3);
  }

  lemma AllRaws(base: real)
    requires base > 0.0
    ensures Least(base, 0, 0, 26) >= 0.0000000147 * base
  {
    FourRaws(base, 0); FourRaws(base, 4); FourRaws(base, 8);
    FourRaws(base, 12); FourRaws(base, 16); FourRaws(base, 20);
    LeastRaw(base, 0, 0, 24);
    LeastRaw(base, 0, 0, 25);
  }

  lemma TwentyCoins(base: real, n: nat)
    requires base > 0.0
    ensures Least(base, 15, 20, n) >= 0.498 * Least(base, 0, 0, n)
  {
    FourCoins(base, 0, 0, n);
    FourCoins(base, 3, 4, n);
    FourCoins(base, 6, 8, n);
    FourCoins(base, 9, 12, n);
    FourCoins(base, 12, 16, n);
  }

  /** The longest symbols have 23 context bits, or 22 and 26 direct bits: within 20 bytes the range is as wide again. */
  lemma TwentyBytesSuffice(base: real)
    requires base > 0.0
    ensures Least(base, 20, 23, 0) >= base && Least(base, 20, 22, 26) >= base
  {
    AllRaws(base);
    TwentyCoins(base, 0);
    TwentyCoins(base, 26);
    forall n | n == 0 || n == 26 ensures Least(base, 20, 22, n) >= 251000000.0 * 0.498 * Least(base, 0, 0, n) {
      LeastCoin(base, 15, 20, n);
      LeastCoin(base, 15, 21, n);
      ThreeBytes(base, 15, 22, n);
      assert Least(base, 19, 22, n) == 256.0 * Least(base, 18, 22, n);
    }
    LeastCoin(base, 20, 22, 0);
  }

  // ---------------------------------------------------------------- reading within a budget

  /** From start and range base on, m context bits and n direct bits have taken at most cap bytes. */
  ghost predicate InBudget(r: Reader, base: real, start: nat, cap: nat, m: nat, n: nat) {
    && base > 0.0 && ReaderOk(r) && start <= r.rc.pos <= start + cap
    && r.rc.range as real >= Least(base, r.rc.pos - start, m, n)
  }

  /** Behind cap bytes the range is full, so that no further byte is taken. */
  ghost predicate Suffices(base: real, cap: nat, m: nat, n: nat) {
    base > 0.0 && Least(base, cap, m, n) >= TOP as real
  }

  lemma FewerSuffice(base: real, cap: nat, m: nat, n: nat, m': nat, n': nat)
    requires Suffices(base, cap, m', n') && m <= m' && n <= n'
    ensures Suffices(base, cap, m, n)
  {
    LeastFewer(base, cap, m, n, m', n');
  }

  lemma RefillInBudget(r: Reader, s: seq<byte>, base: real, start: nat, cap: nat, m: nat, n: nat)
    requires InBudget(r, base, start, cap, m, n) && Suffices(base, cap, m, n) && Refill(r.rc, s).Some?
    ensures InBudget(r.(rc := Refill(r.rc, s).value), base, start, cap, m, n)
  {
    if r.rc.range < TOP && r.rc.pos == start + cap { assert false; }
  }

  lemma MoreBits(r: Reader, base: real, start: nat, cap: nat, m: nat, n: nat, m': nat, n': nat)
    requires InBudget(r, base, start, cap, m, n) && m <= m' && n <= n'
    ensures InBudget(r, base, start, cap, m', n')
  {
    LeastFewer(base, r.rc.pos - start, m, n, m', n');
  }

  /** Either part of the range is at least 31 of 2049 of it. */
  lemma CoinLeaves(range: nat, p: Prob)
    requires TOP <= range && ProbOk(p)
    ensures Bound(range, p) as real >= COIN_LEAST * range as real
    ensures (range - Bound(range, p)) as real >= COIN_LEAST * range as real
  {
    var q := range / MODEL_TOTAL;
    assert q * 31 <= q * p <= q * 2017 by { MulMono(q, q, 31, p); MulMono(q, q, p, 2017); }
    assert 2049 * q >= range;
    assert 2049 * Bound(range, p) >= 31 * range;
    assert 2049 * (range - Bound(range, p)) >= 31 * range;
    Scaled(Bound(range, p), range);
    Scaled(range - Bound(range, p), range);
  }

  lemma Scaled(x: nat, range: nat)
    requires 2049 * x >= 31 * range
    ensures x as real >= COIN_LEAST * range as real
  {
    assert 2049.0 * x as real >= 31.0 * range as real;
  }

  lemma BitInBudget(r: Reader, s: seq<byte>, i: nat, base: real, start: nat, cap: nat, m: nat, n: nat)
    requires InBudget(r, base, start, cap, m, n) && Suffices(base, cap, m, n)
    requires i < |r.probs| && ReadBit(r, s, i).Some?
    ensures InBudget(ReadBit(r, s, i).value.1, base, start, cap, m + 1, n)
  {
    RefillInBudget(r, s, base, start, cap, m, n);
    var rc := Refill(r.rc, s).value;
    CoinLeaves(rc.range, r.probs[i]);
    LeastCoin(base, rc.pos - start, m, n);
  }

  lemma DirectInBudget(r: Reader, s: seq<byte>, base: real, start: nat, cap: nat, m: nat, n: nat)
    requires InBudget(r, base, start, cap, m, n) && Suffices(base, cap, m, n) && ReadDirect(r, s).Some?
    ensures InBudget(ReadDirect(r, s).value.1, base, start, cap, m, n + 1)
  {
    RefillInBudget(r, s, base, start, cap, m, n);
    var rc := Refill(r.rc, s).value;
    assert (rc.range / 2) as real >= RAW_LEAST * rc.range as real;
    LeastRaw(base, rc.pos - start, m, n);
  }

  // ---------------------------------------------------------------- the parts of a symbol

  /** n - k bits of a tree are still to be read at node i. */
  lemma {:induction false} TreeInBudget(r: Reader, s: seq<byte>, tree: nat, k: nat, bits: nat, i: nat,
                                        base: real, start: nat, cap: nat, m: nat, n: nat)
    requires k <= bits && Pow2(k) <= i < Pow2(k + 1) && tree + Pow2(bits) <= |r.probs|
    requires InBudget(r, base, start, cap, m, n) && Suffices(base, cap, m + (bits - k), n)
    requires ReadTree(r, s, tree, Pow2(bits), i).Some?
    ensures InBudget(ReadTree(r, s, tree, Pow2(bits), i).value.1, base, start, cap, m + (bits - k), n)
    decreases bits - k
  {
    hide InBudget, Suffices, ReadBit;
    if k < bits {
      Pow2Mono(k + 1, bits);
      FewerSuffice(base, cap, m, n, m + (bits - k), n);
      BitInBudget(r, s, tree + i, base, start, cap, m, n);
      var (b, r1) := ReadBit(r, s, tree + i).value;
      TreeInBudget(r1, s, tree, k + 1, bits, 2 * i + b, base, start, cap, m + 1, n);
    } else {
      Pow2Mono(k, bits);
    }
  }

  lemma {:induction false} MatchedInBudget(r: Reader, s: seq<byte>, tree: nat, offs: nat, matchByte: nat, k: nat, i: nat,
                                           base: real, start: nat, cap: nat, m: nat, n: nat)
    requires k <= 8 && Pow2(k) <= i < Pow2(k + 1) && (offs == 0 || offs == 0x100) && tree + LIT_SIZE <= |r.probs|
    requires InBudget(r, base, start, cap, m, n) && Suffices(base, cap, m + (8 - k), n)
    requires ReadMatched(r, s, tree, offs, matchByte, i).Some?
    ensures InBudget(ReadMatched(r, s, tree, offs, matchByte, i).value.1, base, start, cap, m + (8 - k), n)
    decreases 8 - k
  {
    hide InBudget, Suffices, ReadBit, And, AndNot, BitAt;
    Pow2Values();
    if k < 8 {
      Pow2Mono(k + 1, 8);
      FewerSuffice(base, cap, m, n, m + (8 - k), n);
      AndMask(2 * matchByte, offs);
      var bit := And(2 * matchByte, offs);
      BitInBudget(r, s, tree + offs + bit + i, base, start, cap, m, n);
      var (b, r1) := ReadBit(r, s, tree + offs + bit + i).value;
      AndNotMask(offs, bit);
      AndMask(offs, bit);
      MatchedInBudget(r1, s, tree, if b == 0 then AndNot(offs, bit) else And(offs, bit), 2 * matchByte, k + 1, 2 * i + b,
                      base, start, cap, m + 1, n);
    }
  }

  lemma {:induction false} ReverseInBudget(r: Reader, s: seq<byte>, tree: nat, i: nat, k: nat, bits: nat, distance: nat,
                                           base: real, start: nat, cap: nat, m: nat, n: nat)
    requires k <= bits && i < Pow2(k + 1) && tree + Pow2(bits) <= |r.probs|
    requires InBudget(r, base, start, cap, m, n) && Suffices(base, cap, m + (bits - k), n)
    requires ReadReverse(r, s, tree, i, k, bits, distance).Some?
    ensures InBudget(ReadReverse(r, s, tree, i, k, bits, distance).value.1, base, start, cap, m + (bits - k), n)
    decreases bits - k
  {
    hide InBudget, Suffices, ReadBit, SetBit;
    if k < bits {
      Pow2Mono(k + 1, bits);
      FewerSuffice(base, cap, m, n, m + (bits - k), n);
      BitInBudget(r, s, tree + i, base, start, cap, m, n);
      var (b, r1) := ReadBit(r, s, tree + i).value;
      ReverseInBudget(r1, s, tree, 2 * i + b, k + 1, bits, if b == 1 then SetBit(distance, k) else distance,
                      base, start, cap, m + 1, n);
    }
  }

  lemma {:induction false} DirectsInBudget(r: Reader, s: seq<byte>, bits: nat, distance: nat,
                                           base: real, start: nat, cap: nat, m: nat, n: nat)
    requires InBudget(r, base, start, cap, m, n) && Suffices(base, cap, m, n + bits)
    requires ReadDirects(r, s, bits, distance).Some?
    ensures InBudget(ReadDirects(r, s, bits, distance).value.1, base, start, cap, m, n + bits)
    decreases bits
  {
    hide InBudget, Suffices, ReadDirect;
    if bits > 0 {
      FewerSuffice(base, cap, m, n, m, n + bits);
      DirectInBudget(r, s, base, start, cap, m, n);
      var (b, r1) := ReadDirect(r, s).value;
      DirectsInBudget(r1, s, bits - 1, 2 * distance + b, base, start, cap, m, n + 1);
    }
  }

  lemma LiteralInBudget(r: Reader, s: seq<byte>, row: nat, predicted: Option<byte>,
                        base: real, start: nat, cap: nat, m: nat, n: nat)
    requires row < LIT_ROWS && InBudget(r, base, start, cap, m, n) && Suffices(base, cap, m + 8, n)
    requires ReadLiteral(r, s, row, predicted).Some?
    ensures InBudget(ReadLiteral(r, s, row, predicted).value.1, base, start, cap, m + 8, n)
  {
    hide Suffices, ReadTree, ReadMatched;
    Pow2Values();
    if predicted.None? {
      TreeInBudget(r, s, LITERAL + row * LIT_SIZE, 0, 8, 1, base, start, cap, m, n);
    } else {
      MatchedInBudget(r, s, LITERAL + row * LIT_SIZE, 0x100, predicted.value, 0, 1, base, start, cap, m, n);
    }
  }

  /** Two choice bits and eight bits of the length itself at most. */
  lemma LenInBudget(r: Reader, s: seq<byte>, rep: bool, posState: nat,
                    base: real, start: nat, cap: nat, m: nat, n: nat)
    requires posState < POS_STATES_MAX && InBudget(r, base, start, cap, m, n) && Suffices(base, cap, m + 10, n)
    requires ReadLen(r, s, rep, posState).Some?
    ensures InBudget(ReadLen(r, s, rep, posState).value.1, base, start, cap, m + 10, n)
  {
    hide Suffices, ReadTree, ReadBit;
    Pow2Values();
    var prob := LenBase(rep);
    FewerSuffice(base, cap, m, n, m + 10, n);
    FewerSuffice(base, cap, m + 1, n, m + 10, n);
    FewerSuffice(base, cap, m + 4, n, m + 10, n);
    FewerSuffice(base, cap, m + 5, n, m + 10, n);
    BitInBudget(r, s, prob, base, start, cap, m, n);
    var (b, r1) := ReadBit(r, s, prob).value;
    if b == 0 {
      TreeInBudget(r1, s, prob + LEN_LOW + posState * 8, 0, 3, 1, base, start, cap, m + 1, n);
      MoreBits(ReadTree(r1, s, prob + LEN_LOW + posState * 8, 8, 1).value.1, base, start, cap, m + 4, n, m + 10, n);
    } else {
      BitInBudget(r1, s, prob + LEN_CHOICE2, base, start, cap, m + 1, n);
      var (b2, r2) := ReadBit(r1, s, prob + LEN_CHOICE2).value;
      if b2 == 0 {
        TreeInBudget(r2, s, prob + LEN_MID + posState * 8, 0, 3, 1, base, start, cap, m + 2, n);
        MoreBits(ReadTree(r2, s, prob + LEN_MID + posState * 8, 8, 1).value.1, base, start, cap, m + 5, n, m + 10, n);
      } else {
        TreeInBudget(r2, s, prob + LEN_HIGH, 0, 8, 1, base, start, cap, m + 2, n);
      }
    }
  }

  /** Five context bits, or 26 direct bits and four of alignment. */
  ghost predicate EitherInBudget(r: Reader, base: real, start: nat, cap: nat, m: nat) {
    InBudget(r, base, start, cap, m + 5, 0) || InBudget(r, base, start, cap, m + 4, 26)
  }

  lemma FooterInBudget(r: Reader, s: seq<byte>, slot: nat, base: real, start: nat, cap: nat, m: nat)
    requires slot < 64 && InBudget(r, base, start, cap, m, 0)
    requires Suffices(base, cap, m + 5, 0) && Suffices(base, cap, m + 4, 26)
    requires ReadFooter(r, s, slot).Some?
    ensures EitherInBudget(ReadFooter(r, s, slot).value.1, base, start, cap, m)
  {
    hide Suffices, InBudget, ReadReverse, ReadDirects, Shl, Pow2;
    if slot < START_POS_MODEL {
      MoreBits(r, base, start, cap, m, 0, m + 5, 0);
    } else if slot < END_POS_MODEL {
      var bits := FooterBits(slot);
      SpecPosFits(slot);
      OnePow2();
      FewerSuffice(base, cap, m + bits, 0, m + 5, 0);
      ReverseInBudget(r, s, SPEC_POS + SlotBase(slot) - slot - 1, 1, 0, bits, SlotBase(slot), base, start, cap, m, 0);
      MoreBits(ReadFooter(r, s, slot).value.1, base, start, cap, m + bits, 0, m + 5, 0);
    } else {
      var bits := FooterBits(slot);
      Pow2Values();
      OnePow2();
      FewerSuffice(base, cap, m, bits - 4, m + 4, 26);
      FewerSuffice(base, cap, m + 4, bits - 4, m + 4, 26);
      DirectsInBudget(r, s, bits - 4, 2 + slot % 2, base, start, cap, m, 0);
      var (direct, r1) := ReadDirects(r, s, bits - 4, 2 + slot % 2).value;
      ReverseInBudget(r1, s, ALIGN, 1, 0, 4, Shl(direct, 4), base, start, cap, m, bits - 4);
      MoreBits(ReadFooter(r, s, slot).value.1, base, start, cap, m + 4, bits - 4, m + 4, 26);
    }
  }

  lemma OnePow2()
    ensures 1 < Pow2(0 + 1)
  {
  }

  lemma DistanceInBudget(r: Reader, s: seq<byte>, lenState: nat, base: real, start: nat, cap: nat, m: nat)
    requires lenState < 4 && InBudget(r, base, start, cap, m, 0)
    requires Suffices(base, cap, m + 11, 0) && Suffices(base, cap, m + 10, 26)
    requires ReadDistance(r, s, lenState).Some?
    ensures EitherInBudget(ReadDistance(r, s, lenState).value.1, base, start, cap, m + 6)
  {
    hide Suffices, ReadTree, ReadFooter, EitherInBudget;
    Pow2Values();
    FewerSuffice(base, cap, m + 6, 0, m + 11, 0);
    TreeInBudgetFromRoot(r, s, POS_SLOT + lenState * 64, 6, base, start, cap, m, 0);
    var (slot, r1) := ReadTree(r, s, POS_SLOT + lenState * 64, 64, 1).value;
    FooterInBudget(r1, s, slot, base, start, cap, m + 6);
  }

  lemma TreeInBudgetFromRoot(r: Reader, s: seq<byte>, tree: nat, bits: nat,
                             base: real, start: nat, cap: nat, m: nat, n: nat)
    requires tree + Pow2(bits) <= |r.probs|
    requires InBudget(r, base, start, cap, m, n) && Suffices(base, cap, m + bits, n)
    requires ReadTree(r, s, tree, Pow2(bits), 1).Some?
    ensures InBudget(ReadTree(r, s, tree, Pow2(bits), 1).value.1, base, start, cap, m + bits, n)
  {
    hide Suffices, InBudget, ReadTree;
    TreeInBudget(r, s, tree, 0, bits, 1, base, start, cap, m, n);
  }

  lemma RepIndexInBudget(d: LzDec, s: seq<byte>, rd: Reader, base: real, start: nat, cap: nat, m: nat)
    requires d.state < 12 && InBudget(rd, base, start, cap, m, 0) && Suffices(base, cap, m + 3, 0)
    requires ReadRepIndex(d, s, rd).Some?
    ensures InBudget(ReadRepIndex(d, s, rd).value.1, base, start, cap, m + 3, 0)
  {
    hide Suffices, ReadBit;
    FewerSuffice(base, cap, m, 0, m + 3, 0);
    FewerSuffice(base, cap, m + 1, 0, m + 3, 0);
    FewerSuffice(base, cap, m + 2, 0, m + 3, 0);
    BitInBudget(rd, s, IS_REP_G0 + d.state, base, start, cap, m, 0);
    var (g0, rd0) := ReadBit(rd, s, IS_REP_G0 + d.state).value;
    if g0 == 0 {
      BitInBudget(rd0, s, IS_REP0_LONG + d.state * 16 + |d.hist| % 4, base, start, cap, m + 1, 0);
      MoreBits(ReadRepIndex(d, s, rd).value.1, base, start, cap, m + 2, 0, m + 3, 0);
    } else {
      BitInBudget(rd0, s, IS_REP_G1 + d.state, base, start, cap, m + 1, 0);
      var (g1, rd1) := ReadBit(rd0, s, IS_REP_G1 + d.state).value;
      if g1 == 0 {
        MoreBits(rd1, base, start, cap, m + 2, 0, m + 3, 0);
      } else {
        BitInBudget(rd1, s, IS_REP_G2 + d.state, base, start, cap, m + 2, 0);
      }
    }
  }

  // ---------------------------------------------------------------- symbols

  lemma MatchInBudget(d: LzDec, s: seq<byte>, rd: Reader, dictSize: nat, base: real, start: nat, cap: nat, m: nat)
    requires StateOk(d, dictSize) && InBudget(rd, base, start, cap, m, 0)
    requires Suffices(base, cap, m + 21, 0) && Suffices(base, cap, m + 20, 26)
    requires ReadMatchSymbol(d, s, rd, dictSize).Some?
    ensures EitherInBudget(ReadMatchSymbol(d, s, rd, dictSize).value.0.rd, base, start, cap, m + 16)
  {
    hide Suffices, EitherInBudget, ReadLen, ReadDistance;
    FewerSuffice(base, cap, m + 10, 0, m + 21, 0);
    LenInBudget(rd, s, false, |d.hist| % 4, base, start, cap, m, 0);
    var (len, rd1) := ReadLen(rd, s, false, |d.hist| % 4).value;
    DistanceInBudget(rd1, s, if len < 4 then len else 3, base, start, cap, m + 10);
  }

  lemma RepInBudget(d: LzDec, s: seq<byte>, rd: Reader, dictSize: nat, base: real, start: nat, cap: nat, m: nat)
    requires StateOk(d, dictSize) && InBudget(rd, base, start, cap, m, 0) && Suffices(base, cap, m + 13, 0)
    requires ReadRepSymbol(d, s, rd, dictSize).Some?
    ensures InBudget(ReadRepSymbol(d, s, rd, dictSize).value.0.rd, base, start, cap, m + 13, 0)
  {
    hide Suffices, ReadLen, ReadRepIndex;
    FewerSuffice(base, cap, m + 3, 0, m + 13, 0);
    RepIndexInBudget(d, s, rd, base, start, cap, m);
    var (index, rd1) := ReadRepIndex(d, s, rd).value;
    if index.None? {
      MoreBits(rd1, base, start, cap, m + 3, 0, m + 13, 0);
    } else {
      LenInBudget(rd1, s, true, |d.hist| % 4, base, start, cap, m + 3, 0);
    }
  }

  lemma TokenInBudget(d: LzDec, s: seq<byte>, dictSize: nat, base: real, start: nat, cap: nat)
    requires StateOk(d, dictSize) && InBudget(d.rd, base, start, cap, 0, 0)
    requires Suffices(base, cap, 23, 0) && Suffices(base, cap, 22, 26)
    requires ReadToken(d, s, dictSize).Some?
    ensures EitherInBudget(ReadToken(d, s, dictSize).value.0.rd, base, start, cap, 18)
  {
    hide Suffices, ReadBit, ReadLitSymbol, ReadMatchSymbol, ReadRepSymbol;
    forall m: nat | m < 23 ensures Suffices(base, cap, m, 0) { FewerSuffice(base, cap, m, 0, 23, 0); }
    var i := d.state * 16 + |d.hist| % 4;
    BitInBudget(d.rd, s, i, base, start, cap, 0, 0);
    var (isMatch, rd1) := ReadBit(d.rd, s, i).value;
    if isMatch == 0 {
      LitInBudget(d, s, rd1, dictSize, base, start, cap, 1);
      MoreBits(ReadToken(d, s, dictSize).value.0.rd, base, start, cap, 9, 0, 23, 0);
    } else {
      BitInBudget(rd1, s, IS_REP + d.state, base, start, cap, 1, 0);
      var (isRep, rd2) := ReadBit(rd1, s, IS_REP + d.state).value;
      if isRep == 0 {
        MatchInBudget(d, s, rd2, dictSize, base, start, cap, 2);
      } else {
        RepInBudget(d, s, rd2, dictSize, base, start, cap, 2);
        MoreBits(ReadToken(d, s, dictSize).value.0.rd, base, start, cap, 15, 0, 23, 0);
      }
    }
  }

  lemma LitInBudget(d: LzDec, s: seq<byte>, rd: Reader, dictSize: nat, base: real, start: nat, cap: nat, m: nat)
    requires StateOk(d, dictSize) && InBudget(rd, base, start, cap, m, 0) && Suffices(base, cap, m + 8, 0)
    requires ReadLitSymbol(d, s, rd, dictSize).Some?
    ensures InBudget(ReadLitSymbol(d, s, rd, dictSize).value.0.rd, base, start, cap, m + 8, 0)
  {
    hide Suffices, ReadLiteral;
    var predicted := if d.state < 7 then None else Some(d.hist[|d.hist| - d.reps.r0]);
    LiteralInBudget(rd, s, LitRow(d.hist), predicted, base, start, cap, m, 0);
  }

  /** The end of what is taken, the byte of a pending shift included. */
  function EndOf(rc: Dec): nat { rc.pos + if rc.range < TOP then 1 else 0 }

  /** The bytes of the symbol at d end within avail. */
  ghost predicate Fits(d: LzDec, s: seq<byte>, dictSize: nat, avail: nat)
    requires StateOk(d, dictSize) && |d.rd.probs| == NUM_PROBS
  {
    var t := ReadToken(d, s, dictSize);
    t.Some? ==> EndOf(t.value.0.rd.rc) <= avail
  }

  lemma EndInBudget(r: Reader, base: real, start: nat, cap: nat, m: nat, n: nat)
    requires InBudget(r, base, start, cap, m, n) && Suffices(base, cap, m, n)
    ensures start <= r.rc.pos && EndOf(r.rc) <= start + cap
  {
    if r.rc.range < TOP && r.rc.pos == start + cap { assert false; }
  }

  lemma SymbolInBudget(d: LzDec, s: seq<byte>, dictSize: nat, base: real, cap: nat)
    requires StateOk(d, dictSize) && InBudget(d.rd, base, d.rd.rc.pos, cap, 0, 0)
    requires Suffices(base, cap, 23, 0) && Suffices(base, cap, 22, 26)
    ensures Fits(d, s, dictSize, d.rd.rc.pos + cap)
    ensures ReadToken(d, s, dictSize).Some? ==> d.rd.rc.pos <= ReadToken(d, s, dictSize).value.0.rd.rc.pos
  {
    hide Suffices, ReadToken;
    if ReadToken(d, s, dictSize).Some? {
      TokenInBudget(d, s, dictSize, base, d.rd.rc.pos, cap);
      var rd := ReadToken(d, s, dictSize).value.0.rd;
      if InBudget(rd, base, d.rd.rc.pos, cap, 23, 0) {
        EndInBudget(rd, base, d.rd.rc.pos, cap, 23, 0);
      } else {
        EndInBudget(rd, base, d.rd.rc.pos, cap, 22, 26);
      }
    }
  }

  /** On any input: a symbol and the shift after it take at most 20 bytes when the range is full before ... */
  lemma SymbolTakesTwenty(d: LzDec, s: seq<byte>, dictSize: nat)
    requires DecOk(d, dictSize)
    ensures Fits(d, s, dictSize, d.rd.rc.pos + REQUIRED_INPUT)
    ensures ReadToken(d, s, dictSize).Some? ==> d.rd.rc.pos <= ReadToken(d, s, dictSize).value.0.rd.rc.pos
  {
    hide ReadToken;
    TwentyBytesSuffice(TOP as real);
    SymbolInBudget(d, s, dictSize, TOP as real, REQUIRED_INPUT);
  }

  /** ... and one more when a shift is still pending before. */
  lemma PendingTakesOneMore(d: LzDec, s: seq<byte>, dictSize: nat)
    requires StateOk(d, dictSize) && ReaderOk(d.rd)
    ensures Fits(d, s, dictSize, d.rd.rc.pos + REQUIRED_INPUT + 1)
    ensures ReadToken(d, s, dictSize).Some? ==> d.rd.rc.pos <= ReadToken(d, s, dictSize).value.0.rd.rc.pos
  {
    hide ReadToken;
    var base := (TOP / 256) as real;
    TwentyBytesSuffice(base);
    SymbolInBudget(d, s, dictSize, base, REQUIRED_INPUT + 1);
  }
}
