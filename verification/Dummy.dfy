/** LzmaDec_TryDummy's reading: one symbol decoded on copies of the registers, with a check for
    the end of the input before every byte and without adapting any probability. No symbol asks
    twice in one context, so that it finds the same bits as the decoding that adapts. */
module Dummy {
  import opened Options
  import opened Bytes
  import opened Bits
  import opened RangeCoder
  import opened Contexts
  import opened Symbols
  import opened SymbolCoders
  import opened PosSlots
  import opened Lz
  import opened Margin

  /** DUMMY_LIT, DUMMY_MATCH and DUMMY_REP; None below stands for DUMMY_ERROR. */
  datatype Kind = LitKind | MatchKind | RepKind

  // ---------------------------------------------------------------- bits

  /** NORMALIZE_CHECK */
  function PeekRefill(d: Dec, s: seq<byte>, lim: nat): (r: Option<Dec>)
    requires lim <= |s|
  {
    if d.range < TOP && d.pos >= lim then None else Refill(d, s)
  }

  /** IF_BIT_0_CHECK with UPDATE_0_CHECK or UPDATE_1_CHECK */
  function PeekCoin(d: Dec, s: seq<byte>, lim: nat, prob: Prob): Option<(bit, Dec)>
    requires lim <= |s|
  {
    var d :- PeekRefill(d, s, lim);
    var bound := Bound(d.range, prob);
    if d.code < bound then Some((0, d.(range := bound)))
    else Some((1, d.(range := d.range - bound, code := d.code - bound)))
  }

  function PeekRaw(d: Dec, s: seq<byte>, lim: nat): Option<Dec>
    requires lim <= |s|
  {
    var d :- PeekRefill(d, s, lim);
    var half := d.range / 2;
    var diff := (d.code - half) % TWO32;
    Some(d.(range := half, code := if diff >= TWO32 / 2 then (diff + half) % TWO32 else diff))
  }

  // ---------------------------------------------------------------- the parts of a symbol

  /** TREE_DECODE_CHECK */
  function PeekTree(d: Dec, s: seq<byte>, lim: nat, p: seq<Prob>, base: nat, limit: nat, i: nat): (res: Option<(nat, Dec)>)
    requires lim <= |s| && i >= 1 && base + limit <= |p|
    ensures res.Some? && i < 2 * limit ==> res.value.0 < limit
    decreases limit - i
  {
    if i >= limit then Some((i - limit, d)) else
      var (b, d1) :- PeekCoin(d, s, lim, p[base + i]);
      PeekTree(d1, s, lim, p, base, limit, 2 * i + b)
  }

  /** The matched-literal loop. */
  function PeekMatched(d: Dec, s: seq<byte>, lim: nat, p: seq<Prob>, base: nat, offs: nat, matchByte: nat, symbol: nat): Option<Dec>
    requires lim <= |s| && symbol >= 1 && (offs == 0 || offs == 0x100) && base + LIT_SIZE <= |p|
    decreases 0x100 - symbol
  {
    if symbol >= 0x100 then Some(d) else
      AndMask(2 * matchByte, offs);
      var bit := And(2 * matchByte, offs);
      var (b, d1) :- PeekCoin(d, s, lim, p[base + offs + bit + symbol]);
      AndNotMask(offs, bit); AndMask(offs, bit);
      PeekMatched(d1, s, lim, p, base, if b == 0 then AndNot(offs, bit) else And(offs, bit), 2 * matchByte, 2 * symbol + b)
  }

  function PeekLiteral(d: Dec, s: seq<byte>, lim: nat, p: seq<Prob>, row: nat, predicted: Option<byte>): Option<Dec>
    requires lim <= |s| && row < LIT_ROWS && |p| == NUM_PROBS
  {
    if predicted.None? then
      var (sym, d1) :- PeekTree(d, s, lim, p, LITERAL + row * LIT_SIZE, 0x100, 1);
      Some(d1)
    else
      PeekMatched(d, s, lim, p, LITERAL + row * LIT_SIZE, 0x100, predicted.value, 1)
  }

  function PeekDirects(d: Dec, s: seq<byte>, lim: nat, n: nat): Option<Dec>
    requires lim <= |s|
    decreases n
  {
    if n == 0 then Some(d) else
      var d1 :- PeekRaw(d, s, lim);
      PeekDirects(d1, s, lim, n - 1)
  }

  /** n bits of a reverse tree; what they stand for is not asked. */
  function PeekReverse(d: Dec, s: seq<byte>, lim: nat, p: seq<Prob>, base: nat, i: nat, k: nat, n: nat): Option<Dec>
    requires lim <= |s| && k <= n && i < Pow2(k + 1) && base + Pow2(n) <= |p|
    decreases n - k
  {
    if k == n then Some(d) else
      Pow2Mono(k + 1, n);
      var (b, d1) :- PeekCoin(d, s, lim, p[base + i]);
      PeekReverse(d1, s, lim, p, base, 2 * i + b, k + 1, n)
  }

  function PeekLen(d: Dec, s: seq<byte>, lim: nat, p: seq<Prob>, rep: bool, posState: nat): (res: Option<(nat, Dec)>)
    requires lim <= |s| && posState < POS_STATES_MAX && |p| == NUM_PROBS
  {
    var prob := LenBase(rep);
    var (b, d1) :- PeekCoin(d, s, lim, p[prob]);
    if b == 0 then
      PeekTree(d1, s, lim, p, prob + LEN_LOW + posState * 8, 8, 1)
    else
      var (b2, d2) :- PeekCoin(d1, s, lim, p[prob + LEN_CHOICE2]);
      if b2 == 0 then
        var (len, d3) :- PeekTree(d2, s, lim, p, prob + LEN_MID + posState * 8, 8, 1);
        Some((len + 8, d3))
      else
        var (len, d3) :- PeekTree(d2, s, lim, p, prob + LEN_HIGH, 256, 1);
        Some((len + 16, d3))
  }

  function PeekFooter(d: Dec, s: seq<byte>, lim: nat, p: seq<Prob>, slot: nat): Option<Dec>
    requires lim <= |s| && slot < 64 && |p| == NUM_PROBS
  {
    if slot < START_POS_MODEL then Some(d) else
      var n := FooterBits(slot);
      if slot < END_POS_MODEL then
        SpecPosFits(slot);
        PeekReverse(d, s, lim, p, SPEC_POS + SlotBase(slot) - slot - 1, 1, 0, n)
      else
        var d1 :- PeekDirects(d, s, lim, n - 4);
        Pow2Values();
        PeekReverse(d1, s, lim, p, ALIGN, 1, 0, 4)
  }

  function PeekMatch(d: Dec, s: seq<byte>, lim: nat, p: seq<Prob>, posState: nat): Option<Dec>
    requires lim <= |s| && posState < POS_STATES_MAX && |p| == NUM_PROBS
  {
    var (len, d1) :- PeekLen(d, s, lim, p, false, posState);
    var (slot, d2) :- PeekTree(d1, s, lim, p, POS_SLOT + (if len < 4 then len else 3) * 64, 64, 1);
    PeekFooter(d2, s, lim, p, slot)
  }

  function PeekRep(d: Dec, s: seq<byte>, lim: nat, p: seq<Prob>, state: nat, posState: nat): Option<Dec>
    requires lim <= |s| && state < 12 && posState < POS_STATES_MAX && |p| == NUM_PROBS
  {
    var (g0, d0) :- PeekCoin(d, s, lim, p[IS_REP_G0 + state]);
    if g0 == 0 then
      var (long, d1) :- PeekCoin(d0, s, lim, p[IS_REP0_LONG + state * 16 + posState]);
      if long == 0 then Some(d1) else PeekRepLen(d1, s, lim, p, posState)
    else
      var (g1, d1) :- PeekCoin(d0, s, lim, p[IS_REP_G1 + state]);
      if g1 == 0 then PeekRepLen(d1, s, lim, p, posState) else
        var (g2, d2) :- PeekCoin(d1, s, lim, p[IS_REP_G2 + state]);
        PeekRepLen(d2, s, lim, p, posState)
  }

  function PeekRepLen(d: Dec, s: seq<byte>, lim: nat, p: seq<Prob>, posState: nat): Option<Dec>
    requires lim <= |s| && posState < POS_STATES_MAX && |p| == NUM_PROBS
  {
    var (len, d1) :- PeekLen(d, s, lim, p, true, posState);
    Some(d1)
  }

  /** One symbol, up to its last byte. */
  function PeekSymbol(d: LzDec, s: seq<byte>, lim: nat, dictSize: nat): Option<(Kind, Dec)>
    requires lim <= |s| && StateOk(d, dictSize) && |d.rd.probs| == NUM_PROBS
  {
    var p, posState := d.rd.probs, |d.hist| % 4;
    var (isMatch, d1) :- PeekCoin(d.rd.rc, s, lim, p[d.state * 16 + posState]);
    if isMatch == 0 then
      var predicted := if d.state < 7 then None else Some(d.hist[|d.hist| - d.reps.r0]);
      var d2 :- PeekLiteral(d1, s, lim, p, LitRow(d.hist), predicted);
      Some((LitKind, d2))
    else
      var (isRep, d2) :- PeekCoin(d1, s, lim, p[IS_REP + d.state]);
      if isRep == 0 then
        var d3 :- PeekMatch(d2, s, lim, p, posState);
        Some((MatchKind, d3))
      else
        var d3 :- PeekRep(d2, s, lim, p, d.state, posState);
        Some((RepKind, d3))
  }

  /** LzmaDec_TryDummy */
  function Peek(d: LzDec, s: seq<byte>, lim: nat, dictSize: nat): Option<Kind>
    requires lim <= |s| && StateOk(d, dictSize) && |d.rd.probs| == NUM_PROBS
  {
    var (kind, d1) :- PeekSymbol(d, s, lim, dictSize);
    var d2 :- PeekRefill(d1, s, lim);
    Some(kind)
  }

  // ---------------------------------------------------------------- what it shares with the real reading

  /** What was read with all of the input is found within lim when it took no byte from there on. */
  function Cut<T>(x: T, pos: nat, lim: nat): Option<T> { if pos <= lim then Some(x) else None }

  /** Equal but for the entries from lo to hi. */
  ghost predicate SameBut(p: seq<Prob>, q: seq<Prob>, lo: nat, hi: nat) {
    |p| == |q| && forall j :: 0 <= j < |p| && !(lo <= j < hi) ==> p[j] == q[j]
  }

  /** Equal from lo to hi. */
  ghost predicate SameIn(p: seq<Prob>, q: seq<Prob>, lo: nat, hi: nat) {
    |p| == |q| && forall j :: lo <= j < hi && j < |p| ==> p[j] == q[j]
  }

  /** What comes behind an entry that was changed is still the same. */
  lemma SameBehind(p: seq<Prob>, q: seq<Prob>, q': seq<Prob>, lo: nat, lo': nat, hi: nat)
    requires SameIn(p, q, lo, hi) && SameBut(q, q', lo, lo + 1) && lo < lo'
    ensures SameIn(p, q', lo', hi)
  {
  }

  lemma SameAtHand(p: seq<Prob>, q: seq<Prob>, lo: nat, hi: nat)
    requires SameIn(p, q, lo, hi)
    ensures |p| == |q| && (lo < hi && lo < |p| ==> p[lo] == q[lo])
  {
  }

  lemma CoinPeeked(r: Reader, s: seq<byte>, lim: nat, p: seq<Prob>, i: nat)
    requires lim <= |s| && i < |r.probs| == |p| && p[i] == r.probs[i] && ReadBit(r, s, i).Some?
    ensures var (b, r1) := ReadBit(r, s, i).value;
            && r.rc.pos <= r1.rc.pos && SameBut(r.probs, r1.probs, i, i + 1)
            && (r.rc.pos <= lim ==> PeekCoin(r.rc, s, lim, p[i]) == Cut((b, r1.rc), r1.rc.pos, lim))
  {
  }

  /** The nodes ahead have not been touched: each further one lies behind the node at hand. */
  lemma {:induction false} TreePeeked(r: Reader, s: seq<byte>, lim: nat, p: seq<Prob>, base: nat, limit: nat, i: nat)
    requires lim <= |s| && i >= 1 && base + limit <= |r.probs| && SameIn(p, r.probs, base + i, base + limit)
    requires ReadTree(r, s, base, limit, i).Some?
    ensures var (x, r1) := ReadTree(r, s, base, limit, i).value;
            && r.rc.pos <= r1.rc.pos && SameBut(r.probs, r1.probs, base + i, base + limit)
            && (r.rc.pos <= lim ==> PeekTree(r.rc, s, lim, p, base, limit, i) == Cut((x, r1.rc), r1.rc.pos, lim))
    decreases limit - i
  {
    hide ReadBit, PeekCoin, SameIn, SameBut;
    SameAtHand(p, r.probs, base + i, base + limit);
    ButNone(r.probs, base + i, base + limit);
    if i < limit {
      CoinPeeked(r, s, lim, p, base + i);
      var (b, r1) := ReadBit(r, s, base + i).value;
      SameBehind(p, r.probs, r1.probs, base + i, base + 2 * i + b, base + limit);
      TreePeeked(r1, s, lim, p, base, limit, 2 * i + b);
      ButBoth(r.probs, r1.probs, ReadTree(r1, s, base, limit, 2 * i + b).value.1.probs, base + i, base + 2 * i + b, base + limit);
    }
  }

  lemma ButNone(p: seq<Prob>, lo: nat, hi: nat)
    ensures SameBut(p, p, lo, hi)
  {
  }

  lemma ButBoth(p: seq<Prob>, q: seq<Prob>, q': seq<Prob>, lo: nat, lo': nat, hi: nat)
    requires SameBut(p, q, lo, lo + 1) && SameBut(q, q', lo', hi) && lo < lo' && lo < hi
    ensures SameBut(p, q', lo, hi)
  {
  }

  /** The contexts of the matched-literal loop from symbol on, in each of its three sets. */
  ghost predicate SameAhead(p: seq<Prob>, q: seq<Prob>, base: nat, symbol: nat)
    requires base + LIT_SIZE <= |p| && base + LIT_SIZE <= |q|
  {
    && |p| == |q|
    && forall j :: base <= j < base + LIT_SIZE && (j - base) % 0x100 >= symbol ==> p[j] == q[j]
  }

  lemma AheadNext(p: seq<Prob>, q: seq<Prob>, q': seq<Prob>, base: nat, set0: nat, symbol: nat, symbol': nat)
    requires base + LIT_SIZE <= |p| && base + LIT_SIZE <= |q| && base + LIT_SIZE <= |q'|
    requires (set0 == 0 || set0 == 0x100 || set0 == 0x200) && 1 <= symbol < 0x100 && symbol < symbol'
    requires SameAhead(p, q, base, symbol) && SameBut(q, q', base + set0 + symbol, base + set0 + symbol + 1)
    ensures SameAhead(p, q', base, symbol')
  {
    assert (set0 + symbol) % 0x100 == symbol;
  }

  lemma AheadHere(p: seq<Prob>, q: seq<Prob>, base: nat, set0: nat, symbol: nat)
    requires base + LIT_SIZE <= |p| && base + LIT_SIZE <= |q|
    requires (set0 == 0 || set0 == 0x100 || set0 == 0x200) && 1 <= symbol < 0x100 && SameAhead(p, q, base, symbol)
    ensures p[base + set0 + symbol] == q[base + set0 + symbol]
  {
    var j := base + set0 + symbol;
    assert (j - base) % 0x100 == symbol;
  }

  /** One turn of the matched-literal loop, in both forms. */
  lemma MatchedTurns(r: Reader, s: seq<byte>, lim: nat, p: seq<Prob>, base: nat, offs: nat, matchByte: nat, symbol: nat)
    returns (set0: nat, offs': nat)
    requires lim <= |s| && 1 <= symbol < 0x100 && (offs == 0 || offs == 0x100)
    requires base + LIT_SIZE <= |r.probs| == |p| && ReadMatched(r, s, base, offs, matchByte, symbol).Some?
    ensures (set0 == 0 || set0 == 0x100 || set0 == 0x200) && (offs' == 0 || offs' == 0x100)
    ensures ReadBit(r, s, base + set0 + symbol).Some?
    ensures var (b, r1) := ReadBit(r, s, base + set0 + symbol).value;
            && ReadMatched(r, s, base, offs, matchByte, symbol) == ReadMatched(r1, s, base, offs', 2 * matchByte, 2 * symbol + b)
            && var c := PeekCoin(r.rc, s, lim, p[base + set0 + symbol]);
               && (c.None? ==> PeekMatched(r.rc, s, lim, p, base, offs, matchByte, symbol).None?)
               && (c.Some? && c.value.0 == b ==>
                     PeekMatched(r.rc, s, lim, p, base, offs, matchByte, symbol)
                     == PeekMatched(c.value.1, s, lim, p, base, offs', 2 * matchByte, 2 * symbol + b))
  {
    hide ReadBit, PeekCoin, And, AndNot, BitAt;
    AndMask(2 * matchByte, offs);
    var bit := And(2 * matchByte, offs);
    AndNotMask(offs, bit);
    AndMask(offs, bit);
    set0 := offs + bit;
    offs' := if ReadBit(r, s, base + set0 + symbol).value.0 == 0 then AndNot(offs, bit) else And(offs, bit);
  }

  lemma MatchedEnds(r: Reader, s: seq<byte>, lim: nat, p: seq<Prob>, base: nat, offs: nat, matchByte: nat, symbol: nat)
    requires lim <= |s| && symbol >= 0x100 && (offs == 0 || offs == 0x100) && base + LIT_SIZE <= |r.probs| == |p|
    ensures ReadMatched(r, s, base, offs, matchByte, symbol) == Some((symbol, r))
    ensures PeekMatched(r.rc, s, lim, p, base, offs, matchByte, symbol) == Some(r.rc)
  {
  }

  lemma {:induction false} MatchedPeeked(r: Reader, s: seq<byte>, lim: nat, p: seq<Prob>, base: nat, offs: nat, matchByte: nat, symbol: nat)
    requires lim <= |s| && symbol >= 1 && (offs == 0 || offs == 0x100)
    requires base + LIT_SIZE <= |r.probs| == |p| && SameAhead(p, r.probs, base, symbol)
    requires ReadMatched(r, s, base, offs, matchByte, symbol).Some?
    ensures var (x, r1) := ReadMatched(r, s, base, offs, matchByte, symbol).value;
            && r.rc.pos <= r1.rc.pos
            && (r.rc.pos <= lim ==> PeekMatched(r.rc, s, lim, p, base, offs, matchByte, symbol) == Cut(r1.rc, r1.rc.pos, lim))
    decreases 0x100 - symbol
  {
    hide ReadBit, PeekCoin, ReadMatched, PeekMatched, SameAhead, SameBut;
    if symbol >= 0x100 {
      MatchedEnds(r, s, lim, p, base, offs, matchByte, symbol);
    } else {
      var set0, offs' := MatchedTurns(r, s, lim, p, base, offs, matchByte, symbol);
      AheadHere(p, r.probs, base, set0, symbol);
      CoinPeeked(r, s, lim, p, base + set0 + symbol);
      var (b, r1) := ReadBit(r, s, base + set0 + symbol).value;
      AheadNext(p, r.probs, r1.probs, base, set0, symbol, 2 * symbol + b);
      MatchedPeeked(r1, s, lim, p, base, offs', 2 * matchByte, 2 * symbol + b);
    }
  }

  lemma {:induction false} ReversePeeked(r: Reader, s: seq<byte>, lim: nat, p: seq<Prob>, base: nat, i: nat, k: nat, n: nat, distance: nat)
    requires lim <= |s| && k <= n && 1 <= i < Pow2(k + 1) && base + Pow2(n) <= |r.probs|
    requires SameIn(p, r.probs, base + i, base + Pow2(n))
    requires ReadReverse(r, s, base, i, k, n, distance).Some?
    ensures var (x, r1) := ReadReverse(r, s, base, i, k, n, distance).value;
            && r.rc.pos <= r1.rc.pos
            && (r.rc.pos <= lim ==> PeekReverse(r.rc, s, lim, p, base, i, k, n) == Cut(r1.rc, r1.rc.pos, lim))
    decreases n - k
  {
    hide ReadBit, PeekCoin, SetBit, SameIn, SameBut;
    SameAtHand(p, r.probs, base + i, base + Pow2(n));
    if k < n {
      Pow2Mono(k + 1, n);
      CoinPeeked(r, s, lim, p, base + i);
      var (b, r1) := ReadBit(r, s, base + i).value;
      SameBehind(p, r.probs, r1.probs, base + i, base + 2 * i + b, base + Pow2(n));
      ReversePeeked(r1, s, lim, p, base, 2 * i + b, k + 1, n, if b == 1 then SetBit(distance, k) else distance);
    }
  }

  lemma RawPeeked(r: Reader, s: seq<byte>, lim: nat)
    requires lim <= |s| && ReadDirect(r, s).Some?
    ensures var (b, r1) := ReadDirect(r, s).value;
            r.rc.pos <= r1.rc.pos && (r.rc.pos <= lim ==> PeekRaw(r.rc, s, lim) == Cut(r1.rc, r1.rc.pos, lim))
  {
  }

  lemma {:induction false} DirectsPeeked(r: Reader, s: seq<byte>, lim: nat, n: nat, distance: nat)
    requires lim <= |s| && ReadDirects(r, s, n, distance).Some?
    ensures var (x, r1) := ReadDirects(r, s, n, distance).value;
            && r.rc.pos <= r1.rc.pos
            && (r.rc.pos <= lim ==> PeekDirects(r.rc, s, lim, n) == Cut(r1.rc, r1.rc.pos, lim))
    decreases n
  {
    hide ReadDirect, PeekRaw;
    if n > 0 {
      RawPeeked(r, s, lim);
      var (b, r1) := ReadDirect(r, s).value;
      DirectsPeeked(r1, s, lim, n - 1, 2 * distance + b);
    }
  }

  lemma LiteralPeeked(r: Reader, s: seq<byte>, lim: nat, p: seq<Prob>, row: nat, predicted: Option<byte>)
    requires lim <= |s| && row < LIT_ROWS && |r.probs| == NUM_PROBS && SameIn(p, r.probs, LITERAL, NUM_PROBS)
    requires ReadLiteral(r, s, row, predicted).Some?
    ensures var (x, r1) := ReadLiteral(r, s, row, predicted).value;
            && r.rc.pos <= r1.rc.pos
            && (r.rc.pos <= lim ==> PeekLiteral(r.rc, s, lim, p, row, predicted) == Cut(r1.rc, r1.rc.pos, lim))
  {
    hide ReadTree, ReadMatched, PeekTree, PeekMatched;
    if predicted.None? {
      TreePeeked(r, s, lim, p, LITERAL + row * LIT_SIZE, 0x100, 1);
    } else {
      MatchedPeeked(r, s, lim, p, LITERAL + row * LIT_SIZE, 0x100, predicted.value, 1);
    }
  }

  lemma LenPeeked(r: Reader, s: seq<byte>, lim: nat, p: seq<Prob>, rep: bool, posState: nat)
    requires lim <= |s| && posState < POS_STATES_MAX && |r.probs| == NUM_PROBS
    requires SameIn(p, r.probs, LenBase(rep), LenBase(rep) + NUM_LEN_PROBS)
    requires ReadLen(r, s, rep, posState).Some?
    ensures var (x, r1) := ReadLen(r, s, rep, posState).value;
            && r.rc.pos <= r1.rc.pos && SameBut(r.probs, r1.probs, LenBase(rep), LenBase(rep) + NUM_LEN_PROBS)
            && (r.rc.pos <= lim ==> PeekLen(r.rc, s, lim, p, rep, posState) == Cut((x, r1.rc), r1.rc.pos, lim))
  {
    hide ReadTree, PeekTree, ReadBit, PeekCoin;
    var prob := LenBase(rep);
    CoinPeeked(r, s, lim, p, prob);
    var (b, r1) := ReadBit(r, s, prob).value;
    if b == 0 {
      TreePeeked(r1, s, lim, p, prob + LEN_LOW + posState * 8, 8, 1);
    } else {
      CoinPeeked(r1, s, lim, p, prob + LEN_CHOICE2);
      var (b2, r2) := ReadBit(r1, s, prob + LEN_CHOICE2).value;
      if b2 == 0 {
        TreePeeked(r2, s, lim, p, prob + LEN_MID + posState * 8, 8, 1);
      } else {
        TreePeeked(r2, s, lim, p, prob + LEN_HIGH, 256, 1);
      }
    }
  }

  lemma FooterPeeked(r: Reader, s: seq<byte>, lim: nat, p: seq<Prob>, slot: nat)
    requires lim <= |s| && slot < 64 && |r.probs| == NUM_PROBS && SameIn(p, r.probs, SPEC_POS, LEN_CODER)
    requires ReadFooter(r, s, slot).Some?
    ensures var (x, r1) := ReadFooter(r, s, slot).value;
            && r.rc.pos <= r1.rc.pos
            && (r.rc.pos <= lim ==> PeekFooter(r.rc, s, lim, p, slot) == Cut(r1.rc, r1.rc.pos, lim))
  {
    hide ReadReverse, PeekReverse, ReadDirects, PeekDirects, Shl, Pow2;
    if slot < START_POS_MODEL {
    } else if slot < END_POS_MODEL {
      SpecPosFits(slot);
      TwoNodes();
      ReversePeeked(r, s, lim, p, SPEC_POS + SlotBase(slot) - slot - 1, 1, 0, FooterBits(slot), SlotBase(slot));
    } else {
      Pow2Values();
      TwoNodes();
      var n := FooterBits(slot) - 4;
      DirectsPeeked(r, s, lim, n, 2 + slot % 2);
      var (direct, r1) := ReadDirects(r, s, n, 2 + slot % 2).value;
      ReversePeeked(r1, s, lim, p, ALIGN, 1, 0, 4, Shl(direct, 4));
    }
  }

  lemma TwoNodes()
    ensures 1 < Pow2(0 + 1)
  {
  }

  // ---------------------------------------------------------------- symbols

  lemma MatchPeeked(d: LzDec, s: seq<byte>, lim: nat, rd: Reader, p: seq<Prob>, dictSize: nat)
    requires lim <= |s| && StateOk(d, dictSize) && |rd.probs| == NUM_PROBS && SameIn(p, rd.probs, POS_SLOT, LITERAL)
    requires ReadMatchSymbol(d, s, rd, dictSize).Some?
    ensures var d1 := ReadMatchSymbol(d, s, rd, dictSize).value.0;
            && rd.rc.pos <= d1.rd.rc.pos
            && (rd.rc.pos <= lim ==> PeekMatch(rd.rc, s, lim, p, |d.hist| % 4) == Cut(d1.rd.rc, d1.rd.rc.pos, lim))
  {
    hide ReadLen, PeekLen, ReadTree, PeekTree, ReadFooter, PeekFooter;
    LenPeeked(rd, s, lim, p, false, |d.hist| % 4);
    var (len, rd1) := ReadLen(rd, s, false, |d.hist| % 4).value;
    var lenState := if len < 4 then len else 3;
    TreePeeked(rd1, s, lim, p, POS_SLOT + lenState * 64, 64, 1);
    var (slot, rd2) := ReadTree(rd1, s, POS_SLOT + lenState * 64, 64, 1).value;
    FooterPeeked(rd2, s, lim, p, slot);
  }

  lemma RepPeeked(d: LzDec, s: seq<byte>, lim: nat, rd: Reader, p: seq<Prob>, dictSize: nat)
    requires lim <= |s| && StateOk(d, dictSize) && |rd.probs| == NUM_PROBS && SameIn(p, rd.probs, IS_REP_G0, LITERAL)
    requires ReadRepSymbol(d, s, rd, dictSize).Some?
    ensures var d1 := ReadRepSymbol(d, s, rd, dictSize).value.0;
            && rd.rc.pos <= d1.rd.rc.pos
            && (rd.rc.pos <= lim ==> PeekRep(rd.rc, s, lim, p, d.state, |d.hist| % 4) == Cut(d1.rd.rc, d1.rd.rc.pos, lim))
  {
    hide ReadLen, PeekLen, ReadBit, PeekCoin;
    var posState := |d.hist| % 4;
    CoinPeeked(rd, s, lim, p, IS_REP_G0 + d.state);
    var (g0, rd0) := ReadBit(rd, s, IS_REP_G0 + d.state).value;
    if g0 == 0 {
      CoinPeeked(rd0, s, lim, p, IS_REP0_LONG + d.state * 16 + posState);
      var (long, rd1) := ReadBit(rd0, s, IS_REP0_LONG + d.state * 16 + posState).value;
      if long == 1 { LenPeeked(rd1, s, lim, p, true, posState); }
    } else {
      CoinPeeked(rd0, s, lim, p, IS_REP_G1 + d.state);
      var (g1, rd1) := ReadBit(rd0, s, IS_REP_G1 + d.state).value;
      if g1 == 0 {
        LenPeeked(rd1, s, lim, p, true, posState);
      } else {
        CoinPeeked(rd1, s, lim, p, IS_REP_G2 + d.state);
        LenPeeked(ReadBit(rd1, s, IS_REP_G2 + d.state).value.1, s, lim, p, true, posState);
      }
    }
  }

  lemma LitPeeked(d: LzDec, s: seq<byte>, lim: nat, rd: Reader, p: seq<Prob>, dictSize: nat)
    requires lim <= |s| && StateOk(d, dictSize) && |rd.probs| == NUM_PROBS && SameIn(p, rd.probs, LITERAL, NUM_PROBS)
    requires ReadLitSymbol(d, s, rd, dictSize).Some?
    ensures var d1 := ReadLitSymbol(d, s, rd, dictSize).value.0;
            var predicted := if d.state < 7 then None else Some(d.hist[|d.hist| - d.reps.r0]);
            && rd.rc.pos <= d1.rd.rc.pos
            && (rd.rc.pos <= lim ==>
                  PeekLiteral(rd.rc, s, lim, p, LitRow(d.hist), predicted) == Cut(d1.rd.rc, d1.rd.rc.pos, lim))
  {
    hide ReadLiteral, PeekLiteral;
    LiteralPeeked(rd, s, lim, p, LitRow(d.hist), if d.state < 7 then None else Some(d.hist[|d.hist| - d.reps.r0]));
  }

  /** The state tells matches from repeats. */
  function KindOf(d: LzDec, d1: LzDec, t: Token): Kind {
    if t.LitToken? then LitKind else if t.EndToken? || (d1.state == (if d.state < 7 then 7 else 10)) then MatchKind else RepKind
  }

  lemma MatchKindIs(d: LzDec, s: seq<byte>, rd: Reader, dictSize: nat)
    requires StateOk(d, dictSize) && |rd.probs| == NUM_PROBS && ReadMatchSymbol(d, s, rd, dictSize).Some?
    ensures var (d1, t) := ReadMatchSymbol(d, s, rd, dictSize).value; KindOf(d, d1, t) == MatchKind
  {
    hide ReadLen, ReadDistance;
  }

  lemma RepKindIs(d: LzDec, s: seq<byte>, rd: Reader, dictSize: nat)
    requires StateOk(d, dictSize) && |rd.probs| == NUM_PROBS && ReadRepSymbol(d, s, rd, dictSize).Some?
    ensures var (d1, t) := ReadRepSymbol(d, s, rd, dictSize).value; KindOf(d, d1, t) == RepKind
  {
    hide ReadLen, ReadRepIndex;
  }

  /** What the dummy calls a match is at least two bytes long, or the end marker. */
  lemma MatchIsLong(d: LzDec, s: seq<byte>, dictSize: nat)
    requires StateOk(d, dictSize) && |d.rd.probs| == NUM_PROBS && ReadToken(d, s, dictSize).Some?
    ensures var (d1, t) := ReadToken(d, s, dictSize).value;
            KindOf(d, d1, t) == MatchKind ==> t.EndToken? || (t.CopyToken? && t.len >= 2)
  {
    hide ReadBit, ReadLitSymbol, ReadMatchSymbol, ReadRepSymbol, KindOf;
    var (isMatch, rd1) := ReadBit(d.rd, s, d.state * 16 + |d.hist| % 4).value;
    if isMatch == 0 {
      LitKindIs(d, s, rd1, dictSize);
    } else {
      var (isRep, rd2) := ReadBit(rd1, s, IS_REP + d.state).value;
      if isRep == 1 { RepKindIs(d, s, rd2, dictSize); }
    }
  }

  lemma LitKindIs(d: LzDec, s: seq<byte>, rd: Reader, dictSize: nat)
    requires StateOk(d, dictSize) && |rd.probs| == NUM_PROBS && ReadLitSymbol(d, s, rd, dictSize).Some?
    ensures var (d1, t) := ReadLitSymbol(d, s, rd, dictSize).value; KindOf(d, d1, t) == LitKind
  {
    hide ReadLiteral;
  }

  /** Without adapting it finds what the real reading finds, if that stays within lim. */
  lemma SymbolPeeked(d: LzDec, s: seq<byte>, lim: nat, dictSize: nat)
    requires lim <= |s| && StateOk(d, dictSize) && |d.rd.probs| == NUM_PROBS && d.rd.rc.pos <= lim
    requires ReadToken(d, s, dictSize).Some?
    ensures var (d1, t) := ReadToken(d, s, dictSize).value;
            && d.rd.rc.pos <= d1.rd.rc.pos
            && PeekSymbol(d, s, lim, dictSize) == Cut((KindOf(d, d1, t), d1.rd.rc), d1.rd.rc.pos, lim)
  {
    hide ReadLitSymbol, ReadMatchSymbol, ReadRepSymbol, PeekLiteral, PeekMatch, PeekRep, ReadBit, PeekCoin;
    var p, i := d.rd.probs, d.state * 16 + |d.hist| % 4;
    CoinPeeked(d.rd, s, lim, p, i);
    var (isMatch, rd1) := ReadBit(d.rd, s, i).value;
    if isMatch == 0 {
      LitPeeked(d, s, lim, rd1, p, dictSize);
    } else {
      CoinPeeked(rd1, s, lim, p, IS_REP + d.state);
      var (isRep, rd2) := ReadBit(rd1, s, IS_REP + d.state).value;
      if isRep == 0 {
        MatchPeeked(d, s, lim, rd2, p, dictSize);
        MatchKindIs(d, s, rd2, dictSize);
      } else {
        RepPeeked(d, s, lim, rd2, p, dictSize);
        RepKindIs(d, s, rd2, dictSize);
      }
    }
  }

  /** With the shift after the symbol: DUMMY_ERROR exactly when the symbol does not end within lim. */
  lemma DummyTells(d: LzDec, s: seq<byte>, lim: nat, dictSize: nat)
    requires lim <= |s| && DecOk(d, dictSize) && d.rd.rc.pos <= lim && ReadSymbol(d, s, dictSize).Some?
    ensures var (d1, t) := ReadSymbol(d, s, dictSize).value;
            Peek(d, s, lim, dictSize) == Cut(KindOf(d, d1, t), d1.rd.rc.pos, lim)
  {
    hide ReadToken, PeekSymbol;
    SymbolPeeked(d, s, lim, dictSize);
  }

  /** With 20 bytes ahead it never is DUMMY_ERROR. */
  lemma TwentyAreEnough(d: LzDec, s: seq<byte>, lim: nat, dictSize: nat)
    requires lim <= |s| && DecOk(d, dictSize) && d.rd.rc.pos + REQUIRED_INPUT <= lim && ReadSymbol(d, s, dictSize).Some?
    ensures Peek(d, s, lim, dictSize).Some?
  {
    hide Peek, ReadToken;
    SymbolTakesTwenty(d, s, dictSize);
    DummyTells(d, s, lim, dictSize);
  }
}
