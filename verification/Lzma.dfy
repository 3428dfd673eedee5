/**
 * The LZMA parts together: what the match finder reports can be coded, any choice
 * among it is a valid parse, and decoding what was coded gives the input back,
 * however the decoder's calls are cut.
 */
module Lzma {
  import opened Bytes
  import opened Bits
  import opened RangeCoder
  import opened Lz
  import opened LzRoundTrip
  import opened LzmaEncoder
  import opened LzmaDecoder
  import opened Calls
  import Hashes
  import MatchTree
  import MatchFinder
  import Finders

  /* ---------- from matches to operations ---------- */

  function Octet(x: bv8): (b: byte) { x as int }

  lemma OctetInjective(x: bv8, y: bv8)
    requires Octet(x) == Octet(y)
    ensures x == y
  {
    OctetBack(x);
    OctetBack(y);
  }

  lemma OctetBack(x: bv8)
    ensures (x as int) as bv8 == x
  {
  }

  /** The stream of the match finder, as the coder sees it. */
  function Octets(data: seq<bv8>): (s: seq<byte>)
    ensures |s| == |data|
  {
    seq(|data|, i requires 0 <= i < |data| => Octet(data[i]))
  }

  /** The match finder's repetitions are the coder's. */
  lemma GenuineIsRepeats(data: seq<bv8>, a: nat, len: nat, dist: nat)
    ensures MatchFinder.Genuine(data, a, len, dist) <==> Repeats(Octets(data), a, dist, len)
  {
    hide Octet;
    var s := Octets(data);
    if Repeats(s, a, dist, len) {
      forall i | a <= i < a + len ensures data[i - dist - 1] == data[i] {
        assert s[i] == s[i - dist - 1];
        OctetInjective(data[i], data[i - dist - 1]);
      }
    }
    if MatchFinder.Genuine(data, a, len, dist) {
      forall i | a <= i < a + len ensures s[i] == s[i - dist - 1] { assert data[i - dist - 1] == data[i]; }
    }
  }

  /** Every match reported, whole or shortened, is a match the encoder may code. */
  lemma FoundIsValid(data: seq<bv8>, z: LzEnc, limit: nat, ms: seq<MatchFinder.Match>, k: nat, len: nat, dictSize: nat)
    requires MatchFinder.MatchesOk(data, z.pos, dictSize + 1, limit, ms) && limit <= 273 && dictSize <= Pow2(27)
    requires k < |ms| && 2 <= len <= ms[k].len
    ensures ValidOp(Octets(data), z, Match(ms[k].dist, len), dictSize)
  {
    hide Pow2;
    GenuineIsRepeats(data, z.pos, ms[k].len, ms[k].dist);
  }

  /* ---------- building a parse from left to right ---------- */

  /** The operations lead from z to z', each of them valid where it is applied. */
  predicate Leads(data: seq<byte>, z: LzEnc, ops: seq<Op>, dictSize: nat, z': LzEnc)
    decreases |ops|
  {
    if ops == [] then z' == z
    else z.state < 12 && ValidOp(data, z, ops[0], dictSize) && Leads(data, After(z, ops[0]), ops[1..], dictSize, z')
  }

  lemma {:induction false} LeadsSnoc(data: seq<byte>, z: LzEnc, ops: seq<Op>, dictSize: nat, z': LzEnc, op: Op)
    requires Leads(data, z, ops, dictSize, z') && z'.state < 12 && ValidOp(data, z', op, dictSize)
    ensures Leads(data, z, ops + [op], dictSize, After(z', op))
    decreases |ops|
  {
    hide Repeats, Pow2;
    if ops == [] {
      assert [op][1..] == [];
      assert ops + [op] == [op];
    } else {
      assert (ops + [op])[1..] == ops[1..] + [op];
      LeadsSnoc(data, After(z, ops[0]), ops[1..], dictSize, z', op);
    }
  }

  lemma {:induction false} LeadsToEnd(data: seq<byte>, z: LzEnc, ops: seq<Op>, dictSize: nat, z': LzEnc)
    requires Leads(data, z, ops, dictSize, z') && z'.pos == |data|
    ensures ValidParse(data, z, ops, dictSize)
    decreases |ops|
  {
    if ops != [] { LeadsToEnd(data, After(z, ops[0]), ops[1..], dictSize, z'); }
  }

  /** What to code at a position: a literal, the last distance for one byte, or part of a repeat or match found there. */
  datatype Choice = TakeLiteral | TakeShortRep | TakeRep(index: nat, len: nat) | TakeMatch(number: nat, len: nat)

  /** A choice for every position, matches found and lengths of the repeats; where it does not apply a literal is coded. */
  type Policy = (nat, seq<MatchFinder.Match>, seq<nat>) -> Choice

  /** The last four distances lie within the dictionary and, from the second byte on, behind the position; before that they are 0. */
  predicate RepsOk(z: LzEnc, dictSize: nat) {
    forall i :: 0 <= i < 4 ==> z.reps.Nth(i) < dictSize && (z.reps.Nth(i) == 0 || z.reps.Nth(i) < z.pos)
  }

  lemma RepsStayOk(data: seq<byte>, z: LzEnc, op: Op, dictSize: nat)
    requires LzOk(data, z) && RepsOk(z, dictSize) && ValidOp(data, z, op, dictSize)
    ensures RepsOk(After(z, op), dictSize)
  {
    hide Pow2, Repeats;
    if !op.Lit? { RepeatsBehind(data, z, op, dictSize); }
    ValidGoesOn(data, z, op, dictSize);
    forall i | 0 <= i < 4 ensures After(z, op).reps.Nth(i) < dictSize && After(z, op).reps.Nth(i) < After(z, op).pos
    {
      FromBefore(z, op, i);
    }
  }

  lemma RepeatsBehind(data: seq<byte>, z: LzEnc, op: Op, dictSize: nat)
    requires !op.Lit? && ValidOp(data, z, op, dictSize)
    ensures z.pos > 0 && (op.Match? ==> op.dist < z.pos)
  {
  }

  lemma FromBefore(z: LzEnc, op: Op, i: nat)
    requires z.state < 12 && i < 4 && (op.Rep? ==> op.index < 4)
    ensures var d := After(z, op).reps.Nth(i);
            (op.Match? && d == op.dist) || exists j :: 0 <= j < 4 && d == z.reps.Nth(j)
  {
    var j := match op
      case Lit | ShortRep => i
      case Match(_, _) => if i == 0 then 0 else i - 1
      case Rep(k, _) => if i == 0 then k else if i <= k then i - 1 else i;
    assert 0 <= j < 4;
    assert (op.Match? && i == 0) || After(z, op).reps.Nth(i) == z.reps.Nth(j);
  }

  function AtMost(n: nat, limit: nat): nat { if n < limit then n else limit }

  /** How many bytes the repeat at a distance has, at most 273; a single one does not count. */
  function RepLength(data: seq<bv8>, a: nat, dist: nat): nat
    requires a < |data|
  {
    if dist >= a then 0
    else
      var n := MatchTree.Common(data, a - dist - 1, a, AtMost(|data| - a, 273));
      if n < 2 then 0 else n
  }

  function RepLengths(data: seq<bv8>, z: LzEnc): (lens: seq<nat>)
    requires z.pos < |data|
    ensures |lens| == 4
  {
    seq(4, i requires 0 <= i < 4 => RepLength(data, z.pos, z.reps.Nth(i)))
  }

  /** The length of the repeat at a distance, as far as it goes. */
  method RepLen(data: seq<bv8>, a: nat, dist: nat) returns (len: nat)
    requires dist < a < |data|
    ensures len != 1 && MatchFinder.Genuine(data, a, len, dist) && len <= 273
    ensures len == 0 <==> !MatchFinder.Genuine(data, a, 2, dist)
    ensures len >= 2 ==> len == 273 || a + len == |data| || data[a - dist - 1 + len] != data[a + len]
    ensures len == RepLength(data, a, dist)
  {
    hide MatchTree.Common, MatchFinder.Genuine;
    var limit := if |data| - a < 273 then |data| - a else 273;
    if limit < 2 || data[a] != data[a - dist - 1] || data[a + 1] != data[a - dist] {
      FewInCommon(data, a - dist - 1, a, limit);
      NoRepeat(data, a, dist);
      return 0;
    }
    TwoRepeat(data, a, dist);
    len := MatchFinder.Extend(data, a, dist + 1, 2, limit);
    MatchFinder.ExtendIs(data, a, dist + 1, limit, len);
  }

  lemma NoRepeat(data: seq<bv8>, a: nat, dist: nat)
    requires dist < a < |data| && (a + 1 == |data| || data[a] != data[a - dist - 1] || data[a + 1] != data[a - dist])
    ensures MatchFinder.Genuine(data, a, 0, dist) && !MatchFinder.Genuine(data, a, 2, dist)
  {
  }

  lemma TwoRepeat(data: seq<bv8>, a: nat, dist: nat)
    requires dist < a && a + 1 < |data| && data[a] == data[a - dist - 1] && data[a + 1] == data[a - dist]
    ensures MatchFinder.Genuine(data, a, 2, dist)
  {
  }

  lemma FewInCommon(data: seq<bv8>, x: nat, a: nat, limit: nat)
    requires x + limit <= |data| && a + limit <= |data|
    requires limit < 2 || data[a] != data[x] || data[a + 1] != data[x + 1]
    ensures MatchTree.Common(data, x, a, limit) < 2
  {
  }

  predicate LenOk(len: nat, data: seq<byte>, z: LzEnc, i: nat)
    requires i < 4
  {
    len <= 273 && (len > 0 ==> Repeats(data, z.pos, z.reps.Nth(i), len))
  }

  /** The repeats of the last four distances; the first byte has none. */
  method RepLens(data: seq<bv8>, z: LzEnc, dictSize: nat) returns (lens: seq<nat>)
    requires z.pos < |data| && RepsOk(z, dictSize)
    ensures |lens| == 4 && forall i :: 0 <= i < 4 ==> LenOk(lens[i], Octets(data), z, i)
    ensures lens == RepLengths(data, z)
  {
    hide Octets, Repeats, MatchTree.Common;
    if z.pos == 0 { return [0, 0, 0, 0]; }
    lens := [];
    while |lens| < 4
      invariant |lens| <= 4 && forall i :: 0 <= i < |lens| ==> LenOk(lens[i], Octets(data), z, i)
      invariant forall i :: 0 <= i < |lens| ==> lens[i] == RepLength(data, z.pos, z.reps.Nth(i))
    {
      var len := RepLen(data, z.pos, z.reps.Nth(|lens|));
      GenuineIsRepeats(data, z.pos, len, z.reps.Nth(|lens|));
      lens := lens + [len];
    }
  }

  function Chosen(data: seq<bv8>, z: LzEnc, ms: seq<MatchFinder.Match>, lens: seq<nat>, choice: Choice): Op
    requires z.pos < |data| && |lens| == 4
  {
    match choice
    case TakeLiteral => Lit
    case TakeShortRep =>
      if z.reps.r0 < z.pos && data[z.pos - z.reps.r0 - 1] == data[z.pos] then ShortRep else Lit
    case TakeRep(i, len) => if i < 4 && 2 <= len <= lens[i] then Rep(i, len) else Lit
    case TakeMatch(k, len) => if k < |ms| && 2 <= len <= ms[k].len then Match(ms[k].dist, len) else Lit
  }

  lemma ChosenIsValid(data: seq<bv8>, z: LzEnc, limit: nat, ms: seq<MatchFinder.Match>, lens: seq<nat>, choice: Choice, dictSize: nat)
    requires z.pos < |data| && limit <= 273 && dictSize <= Pow2(27) && RepsOk(z, dictSize)
    requires MatchFinder.MatchesOk(data, z.pos, dictSize + 1, limit, ms)
    requires |lens| == 4 && forall i :: 0 <= i < 4 ==> LenOk(lens[i], Octets(data), z, i)
    ensures ValidOp(Octets(data), z, Chosen(data, z, ms, lens, choice), dictSize)
  {
    hide Pow2, MatchFinder.MatchesOk;
    match choice
    case TakeLiteral =>
    case TakeShortRep => assert z.reps.Nth(0) < dictSize;
    case TakeRep(i, len) => if i < 4 { assert LenOk(lens[i], Octets(data), z, i) && z.reps.Nth(i) < dictSize; }
    case TakeMatch(k, len) => if k < |ms| && 2 <= len <= ms[k].len { FoundIsValid(data, z, limit, ms, k, len, dictSize); }
  }

  /** Every literal, short repeat and repeat that is valid at a position can be chosen there, and every part of a match found. */
  lemma ValidCanBeChosen(data: seq<bv8>, z: LzEnc, ms: seq<MatchFinder.Match>, op: Op, dictSize: nat)
    requires z.pos < |data| && ValidOp(Octets(data), z, op, dictSize)
    requires op.Match? ==> exists k :: 0 <= k < |ms| && ms[k].dist == op.dist && op.len <= ms[k].len
    ensures exists choice :: Chosen(data, z, ms, RepLengths(data, z), choice) == op
  {
    hide MatchTree.Common, Pow2, Octets, RepLength;
    var lens := RepLengths(data, z);
    match op
    case Lit => assert Chosen(data, z, ms, lens, TakeLiteral) == op;
    case ShortRep =>
      GenuineIsRepeats(data, z.pos, 1, z.reps.r0);
      OneByte(data, z.pos, z.reps.r0);
      assert Chosen(data, z, ms, lens, TakeShortRep) == op;
    case Rep(i, len) =>
      GenuineIsRepeats(data, z.pos, len, z.reps.Nth(i));
      RepIsMeasured(data, z.pos, z.reps.Nth(i), len);
      assert Chosen(data, z, ms, lens, TakeRep(i, len)) == op;
    case Match(dist, len) =>
      var k :| 0 <= k < |ms| && ms[k].dist == dist && len <= ms[k].len;
      assert Chosen(data, z, ms, lens, TakeMatch(k, len)) == op;
  }

  lemma OneByte(data: seq<bv8>, a: nat, dist: nat)
    requires MatchFinder.Genuine(data, a, 1, dist)
    ensures dist < a < |data| && data[a - dist - 1] == data[a]
  {
  }

  lemma RepIsMeasured(data: seq<bv8>, a: nat, dist: nat, len: nat)
    requires MatchFinder.Genuine(data, a, len, dist) && 2 <= len <= 273
    ensures a < |data| && RepLength(data, a, dist) >= len
  {
    hide MatchFinder.Genuine, MatchTree.Same, MatchTree.Common;
    MatchFinder.GenuineInside(data, a, len, dist);
    MatchFinder.SameIsGenuine(data, a - dist - 1, a, len);
    MatchTree.SameIsCommon(data, a - dist - 1, a, len, AtMost(|data| - a, 273));
  }

  /** What a parse depends on besides the data. */
  datatype Setup = Setup(bt: bool, crc: Hashes.Crc, dictSize: nat, hashMask: nat, matchMaxLen: nat, cutValue: nat, choose: Policy)

  /** What either mode of the match finder must and may report at a position. */
  ghost predicate FoundAt(u: Setup, data: seq<bv8>, at: nat, ms: seq<MatchFinder.Match>)
    requires at < |data|
  {
    var limit := AtMost(|data| - at, u.matchMaxLen);
    && MatchFinder.MatchesOk(data, at, u.dictSize + 1, limit, ms)
    && (limit >= 4 ==>
          && Finders.ShortFound(u.crc, data, u.hashMask, at, u.dictSize + 1, limit, ms)
          && (!u.bt ==> Finders.ChainFound(u.crc, data, u.hashMask, at, u.dictSize + 1, u.cutValue, limit, ms))
          && (u.bt ==> Finders.TreeFound(u.crc, data, u.hashMask, at, u.dictSize + 1, u.cutValue, limit, ms)))
  }

  /** The operation is the policy's choice among such matches and the repeats. */
  ghost predicate Decided(u: Setup, data: seq<bv8>, z: LzEnc, op: Op) {
    z.pos < |data| &&
    exists ms :: FoundAt(u, data, z.pos, ms) && op == Chosen(data, z, ms, RepLengths(data, z), u.choose(z.pos, ms, RepLengths(data, z)))
  }

  ghost predicate Obeys(u: Setup, data: seq<bv8>, z: LzEnc, ops: seq<Op>)
    decreases |ops|
  {
    ops == [] ||
    (z.state < 12 && (ops[0].Rep? ==> ops[0].index < 4) && Decided(u, data, z, ops[0]) && Obeys(u, data, After(z, ops[0]), ops[1..]))
  }

  lemma {:induction false} ObeysSnoc(u: Setup, data: seq<bv8>, z: LzEnc, ops: seq<Op>, z': LzEnc, op: Op)
    requires Leads(Octets(data), z, ops, u.dictSize, z') && Obeys(u, data, z, ops)
    requires z'.state < 12 && (op.Rep? ==> op.index < 4) && Decided(u, data, z', op)
    ensures Obeys(u, data, z, ops + [op])
    decreases |ops|
  {
    hide Decided, ValidOp, Octets;
    if ops == [] {
      assert [op][1..] == [];
      assert ops + [op] == [op];
    } else {
      assert (ops + [op])[1..] == ops[1..] + [op];
      ObeysSnoc(u, data, After(z, ops[0]), ops[1..], z', op);
    }
  }

  lemma ValidGoesOn(data: seq<byte>, z: LzEnc, op: Op, dictSize: nat)
    requires LzOk(data, z) && ValidOp(data, z, op, dictSize)
    ensures op.Rep? ==> op.index < 4
    ensures OpLen(op) <= 273
    ensures LzOk(data, After(z, op)) && After(z, op).pos == z.pos + OpLen(op) && 1 <= OpLen(op) <= |data| - z.pos
  {
    hide Pow2;
    AfterOk(data, z, op, dictSize);
  }

  /**
   * Whatever a policy chooses among the matches and repeats found, in either mode of the
   * finder and whatever sizes its reads have, the result is a valid parse, and what was chosen.
   */
  method Parse(data: seq<bv8>, bt: bool, crc: Hashes.Crc, dictSize: nat, hashMask: nat, matchMaxLen: nat, cutValue: nat,
               read: nat -> nat, choose: Policy)
    returns (ops: seq<Op>)
    requires 1 <= dictSize <= Pow2(27) && matchMaxLen <= 273
    ensures ValidParse(Octets(data), LZ_INIT, ops, dictSize)
    ensures Obeys(Setup(bt, crc, dictSize, hashMask, matchMaxLen, cutValue, choose), data, LZ_INIT, ops)
  {
    hide Octets, Pow2, ValidOp, After, Chosen, RepsOk, LenOk, MatchFinder.MatchesOk, MatchFinder.HashOk, Finders.LinksOk,
      Finders.FullOk, Finders.AllInserted, Finders.ShortFound, Finders.ChainFound, Finders.TreeFound, Obeys, Decided, RepLengths;
    LargePow2Values();
    ghost var u := Setup(bt, crc, dictSize, hashMask, matchMaxLen, cutValue, choose);
    ghost var s := Octets(data);
    var z := LZ_INIT;
    FirstRepsOk(dictSize);
    ObeysNone(u, data, z);
    ops := [];
    var finder := new Finders.Finder(bt, crc, data, dictSize, hashMask, matchMaxLen, 273, cutValue, read);
    while finder.at < |data|
      invariant finder.Valid() && fresh(finder) && fresh(finder.hash) && fresh(finder.son)
      invariant finder.data == data && finder.bt == bt && finder.size == dictSize + 1 && finder.matchMaxLen == matchMaxLen
      invariant finder.crc == crc && finder.hashMask == hashMask && finder.cutValue == cutValue && Obeys(u, data, LZ_INIT, ops)
      invariant finder.keepSizeAfter >= 273 && finder.at <= |data|
      invariant Leads(s, LZ_INIT, ops, dictSize, z) && LzOk(s, z) && z.pos == finder.at && RepsOk(z, dictSize)
      decreases |data| - finder.at
    {
      ghost var limit := finder.lenLimit;
      var lens := RepLens(data, z, dictSize);
      var ms;
      finder.LenLimitIs();
      if bt { ms := finder.BtGetMatches(read); } else { ms := finder.HcGetMatches(read); }
      var choice := choose(z.pos, ms, lens);
      var op := Chosen(data, z, ms, lens, choice);
      ChosenIsValid(data, z, limit, ms, lens, choice, dictSize);
      ValidGoesOn(s, z, op, dictSize);
      DecidedBy(u, data, z, ms, op);
      ObeysSnoc(u, data, LZ_INIT, ops, z, op);
      RepsStayOk(s, z, op, dictSize);
      LeadsSnoc(s, LZ_INIT, ops, dictSize, z, op);
      ops := ops + [op];
      z := After(z, op);
      if OpLen(op) > 1 { finder.Skip(OpLen(op) - 1, read); }
    }
    LeadsToEnd(s, LZ_INIT, ops, dictSize, z);
  }

  lemma DecidedBy(u: Setup, data: seq<bv8>, z: LzEnc, ms: seq<MatchFinder.Match>, op: Op)
    requires z.pos < |data| && FoundAt(u, data, z.pos, ms)
    requires op == Chosen(data, z, ms, RepLengths(data, z), u.choose(z.pos, ms, RepLengths(data, z)))
    ensures Decided(u, data, z, op)
  {
  }

  lemma ObeysNone(u: Setup, data: seq<bv8>, z: LzEnc)
    ensures Obeys(u, data, z, [])
  {
  }

  lemma FirstRepsOk(dictSize: nat)
    requires dictSize >= 1
    ensures RepsOk(LZ_INIT, dictSize)
  {
  }

  /* ---------- compressed and decoded again ---------- */

  /**
   * The whole way: matches found, a parse chosen, coded and decoded. For every input,
   * policy and dictionary size, and whatever the sizes in which the input is read, the
   * stream supplied and the output taken, the output is the input.
   */
  method CompressThenDecompress(data: seq<bv8>, bt: bool, crc: Hashes.Crc, dictSize: nat, hashMask: nat, matchMaxLen: nat, cutValue: nat,
                                read: nat -> nat, choose: Policy, room: nat -> nat, supply: nat -> nat)
    returns (out: seq<byte>)
    requires 1 <= dictSize <= Pow2(27) && matchMaxLen <= 273
    ensures out == Octets(data)
  {
    hide Octets, Pow2, Compress, ValidParse, OnTrack, Encoder.Valid;
    LargePow2Values();
    var ops := Parse(data, bt, crc, dictSize, hashMask, matchMaxLen, cutValue, read, choose);
    var encoder := new Encoder();
    encoder.Encode(Octets(data), ops, dictSize);
    StartOnTrack(Octets(data), ops, dictSize);
    RoundTrip(Octets(data), ops, dictSize, 0);
    out := Decompress(encoder.out, dictSize, room, supply, Octets(data));
  }

  /** A decoder at the start of the compressed form of data. */
  method Started(data: seq<byte>, ops: seq<Op>, dictSize: nat) returns (d: Decoder)
    requires ValidParse(data, LZ_INIT, ops, dictSize) && 1 <= dictSize < TWO32
    ensures fresh(d) && fresh(d.probs) && fresh(d.dic) && d.dicBufSize == dictSize && d.remainLen == 0 && d.dicPos == 0
    ensures Sound(d, data) && Stashed(d, 0) && d.hist == []
  {
    hide Compress, ValidParse, OnTrack, Encoder.Valid, Sound, Stashed, DecOk;
    var encoder := new Encoder();
    encoder.Encode(data, ops, dictSize);
    StartOnTrack(data, ops, dictSize);
    RoundTrip(data, ops, dictSize, 0);
    d := new Decoder(encoder.out, dictSize);
    FreshIsSound(d, data);
  }

  /** LzmaDec_DecodeToBuf reports failure on the sound stream of one byte when two are asked for, although it delivers the one. */
  method DecodeToBufFails(b: byte) returns (ok: bool, piece: seq<byte>)
    ensures !ok && piece == [b]
  {
    hide Sound, Stashed, AllOrNothing;
    OneLiteral(b);
    var d := Started([b], [Lit], 0x1000);
    SoundIs(d, [b]);
    var status, stash, used;
    ok, status, piece, stash, used := DecodeToBuf(d, 2, |d.src|, 0, true, [b]);
    SoundIs(d, [b]);
    AllIsThere(d, [b]);
  }

  lemma OneLiteral(b: byte)
    ensures ValidParse([b], LZ_INIT, [Lit], 0x1000)
  {
  }
}
