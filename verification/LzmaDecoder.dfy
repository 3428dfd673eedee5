/** The decoder as the source runs it: registers, a flat probability array and a circular
    dictionary updated in place, proved against the byte-by-byte decoder of module Lz. */
module LzmaDecoder {
  import opened Options
  import opened Bytes
  import opened Bits
  import opened RangeCoder
  import opened Contexts
  import opened Symbols
  import opened SymbolCoders
  import opened PosSlots
  import opened Lz
  import opened LzRoundTrip
  import opened Margin
  import opened Dummy

  /** kMatchSpecLenStart: this many bytes remaining means that the end marker was read. */
  const FINISHED := 274

  // The parts of a symbol are read from the reader given, not from the one in d.

  lemma LitIgnoresReader(d: LzDec, s: seq<byte>, rd: Reader, dictSize: nat)
    requires StateOk(d, dictSize) && |rd.probs| == NUM_PROBS
    ensures ReadLitSymbol(d.(rd := rd), s, rd, dictSize) == ReadLitSymbol(d, s, rd, dictSize)
  {
    hide ReadLiteral;
  }

  lemma MatchIgnoresReader(d: LzDec, s: seq<byte>, rd: Reader, dictSize: nat)
    requires StateOk(d, dictSize) && |rd.probs| == NUM_PROBS
    ensures ReadMatchSymbol(d.(rd := rd), s, rd, dictSize) == ReadMatchSymbol(d, s, rd, dictSize)
  {
    hide ReadLen, ReadDistance;
  }

  lemma RepIgnoresReader(d: LzDec, s: seq<byte>, rd: Reader, dictSize: nat)
    requires StateOk(d, dictSize) && |rd.probs| == NUM_PROBS
    ensures ReadRepSymbol(d.(rd := rd), s, rd, dictSize) == ReadRepSymbol(d, s, rd, dictSize)
  {
    hide ReadLen, ReadRepIndex;
    assert ReadRepIndex(d.(rd := rd), s, rd) == ReadRepIndex(d, s, rd) by { IndexIgnoresReader(d, s, rd); }
  }

  lemma IndexIgnoresReader(d: LzDec, s: seq<byte>, rd: Reader)
    requires d.state < 12 && |rd.probs| == NUM_PROBS
    ensures ReadRepIndex(d.(rd := rd), s, rd) == ReadRepIndex(d, s, rd)
  {
    hide ReadBit;
  }

  lemma CountUp(n: nat)
    ensures (n % TWO32 + 1) % TWO32 == (n + 1) % TWO32
  {
  }

  lemma CountMod4(n: nat)
    ensures n % TWO32 % 4 == n % 4
  {
    assert n == n / TWO32 * TWO32 + n % TWO32;
  }

  // ---------------------------------------------------------------- copies

  /** k more bytes, each repeating the one rep back. */
  function Extend(hist: seq<byte>, rep: nat, k: nat): (h: seq<byte>)
    requires 1 <= rep <= |hist|
    ensures |h| == |hist| + k
  {
    if k == 0 then hist else
      var h := Extend(hist, rep, k - 1);
      h + [h[|h| - rep]]
  }

  lemma {:induction false} DecodeCopy(d: LzDec, s: seq<byte>, dictSize: nat, k: nat)
    requires DecOk(d, dictSize) && k <= d.rem && d.rem > 0
    ensures DecodeN(d, s, dictSize, k) == More(d.(hist := Extend(d.hist, d.reps.r0, k), rem := d.rem - k))
  {
    hide ReaderOk, ReadSymbol;
    if k > 0 {
      DecodeCopy(d, s, dictSize, k - 1);
    }
  }

  lemma {:induction false} DecodeSum(d: LzDec, s: seq<byte>, dictSize: nat, a: nat, b: nat)
    requires DecOk(d, dictSize) && DecodeN(d, s, dictSize, a).More?
    ensures DecodeN(d, s, dictSize, a + b) == DecodeN(DecodeN(d, s, dictSize, a).d, s, dictSize, b)
  {
    hide DecOk, Next;
    if b > 0 {
      DecodeSum(d, s, dictSize, a, b - 1);
      assert a + b - 1 == a + (b - 1);
    }
  }

  lemma DecodeOne(d: LzDec, s: seq<byte>, dictSize: nat)
    requires DecOk(d, dictSize)
    ensures DecodeN(d, s, dictSize, 1) == Next(d, s, dictSize)
  {
    hide Next, DecOk;
    assert DecodeN(d, s, dictSize, 0) == More(d);
  }

  lemma SymbolThenCopy(d: LzDec, s: seq<byte>, dictSize: nat, d1: LzDec, len: nat)
    requires DecOk(d, dictSize) && d.rem == 0 && ReadSymbol(d, s, dictSize) == Some((d1, CopyToken(len)))
    ensures DecOk(d1.(rem := len), dictSize) && len >= 1 && 1 <= d1.reps.r0 <= |d1.hist|
    ensures Next(d, s, dictSize) == Next(d1.(rem := len), s, dictSize) && Next(d, s, dictSize).More?
  {
    hide ReaderOk, ReadSymbol;
  }

  /** A copy symbol followed by k of its bytes. */
  lemma DecodeSymbolCopy(d: LzDec, s: seq<byte>, dictSize: nat, d1: LzDec, len: nat, k: nat)
    requires DecOk(d, dictSize) && d.rem == 0 && ReadSymbol(d, s, dictSize) == Some((d1, CopyToken(len)))
    requires 1 <= k <= len
    ensures 1 <= d1.reps.r0 <= |d1.hist|
    ensures DecodeN(d, s, dictSize, k) == More(d1.(hist := Extend(d1.hist, d1.reps.r0, k), rem := len - k))
  {
    hide DecOk, ReadSymbol, Next, DecodeN, Extend;
    SymbolThenCopy(d, s, dictSize, d1, len);
    var d2 := d1.(rem := len);
    DecodeOne(d, s, dictSize);
    DecodeOne(d2, s, dictSize);
    DecodeSum(d, s, dictSize, 1, k - 1);
    DecodeSum(d2, s, dictSize, 1, k - 1);
    DecodeCopy(d2, s, dictSize, k);
  }

  // ---------------------------------------------------------------- lazy normalisation

  /** Between symbols the source leaves the registers unnormalised; this is the state of the
      byte-by-byte decoder after n bytes, up to that last normalisation. */
  ghost predicate Lazily(d0: LzDec, s: seq<byte>, dictSize: nat, n: nat, d: LzDec)
    requires DecOk(d0, dictSize)
  {
    && StateOk(d, dictSize) && ReaderOk(d.rd)
    && var settled := Settle(d, s, dictSize);
       DecodeN(d0, s, dictSize, n) == if settled.Some? then More(settled.value) else Failed
  }

  lemma StartLazily(d0: LzDec, s: seq<byte>, dictSize: nat)
    requires DecOk(d0, dictSize)
    ensures Lazily(d0, s, dictSize, 0, d0)
  {
  }

  lemma BitSettled(r: Reader, s: seq<byte>, i: nat)
    requires ReaderOk(r) && i < NUM_PROBS
    ensures ReadBit(r, s, i).Some? ==> Refill(r.rc, s).Some?
    ensures Refill(r.rc, s).Some? ==> ReadBit(r.(rc := Refill(r.rc, s).value), s, i) == ReadBit(r, s, i)
  {
  }

  lemma TokenSettled(d: LzDec, s: seq<byte>, dictSize: nat)
    requires StateOk(d, dictSize) && ReaderOk(d.rd)
    ensures ReadToken(d, s, dictSize).Some? ==> Settle(d, s, dictSize).Some?
    ensures Settle(d, s, dictSize).Some? ==>
              ReadToken(Settle(d, s, dictSize).value, s, dictSize) == ReadToken(d, s, dictSize)
  {
    hide ReadBit, ReadLitSymbol, ReadMatchSymbol, ReadRepSymbol, Refill;
    var i := d.state * 16 + |d.hist| % 4;
    BitSettled(d.rd, s, i);
    if Settle(d, s, dictSize).Some? && ReadBit(d.rd, s, i).Some? {
      var d' := Settle(d, s, dictSize).value;
      var (b, rd1) := ReadBit(d.rd, s, i).value;
      if b == 0 {
        LitIgnoresReader(d, s, rd1, dictSize);
        LitIgnoresReader(d', s, rd1, dictSize);
        assert d.(rd := rd1) == d'.(rd := rd1);
      } else if ReadBit(rd1, s, IS_REP + d.state).Some? {
        var rd2 := ReadBit(rd1, s, IS_REP + d.state).value.1;
        MatchIgnoresReader(d, s, rd2, dictSize); RepIgnoresReader(d, s, rd2, dictSize);
        MatchIgnoresReader(d', s, rd2, dictSize); RepIgnoresReader(d', s, rd2, dictSize);
        assert d.(rd := rd2) == d'.(rd := rd2);
      }
    }
  }

  /** Reading a symbol first takes the byte of a pending shift. */
  lemma TokenMoves(d: LzDec, s: seq<byte>, dictSize: nat)
    requires StateOk(d, dictSize) && ReaderOk(d.rd) && ReadToken(d, s, dictSize).Some?
    ensures EndOf(d.rd.rc) <= ReadToken(d, s, dictSize).value.0.rd.rc.pos
  {
    hide ReadToken;
    TokenSettled(d, s, dictSize);
    SymbolTakesTwenty(Settle(d, s, dictSize).value, s, dictSize);
  }

  /** The symbol at d0 ends within avail, and any later one is only begun with 21 bytes ahead. */
  ghost predicate Guard(d0: LzDec, s: seq<byte>, dictSize: nat, bufLimit: nat, avail: nat)
    requires StateOk(d0, dictSize) && |d0.rd.probs| == NUM_PROBS
  {
    Fits(d0, s, dictSize, avail) && (bufLimit + REQUIRED_INPUT <= avail || bufLimit <= d0.rd.rc.pos)
  }

  /** At least the symbol at d0 was read, and under the guard nothing behind avail. */
  ghost predicate Underway(d0: LzDec, rc: Dec, s: seq<byte>, dictSize: nat, bufLimit: nat, avail: nat)
    requires StateOk(d0, dictSize) && |d0.rd.probs| == NUM_PROBS
  {
    var t := ReadToken(d0, s, dictSize);
    && t.Some? && d0.rd.rc.pos <= rc.pos && EndOf(t.value.0.rd.rc) <= EndOf(rc)
    && (Guard(d0, s, dictSize, bufLimit, avail) ==> EndOf(rc) <= avail)
  }

  lemma TurnEnds(d0: LzDec, d: LzDec, s: seq<byte>, dictSize: nat, bufLimit: nat, avail: nat, begun: bool)
    requires DecOk(d0, dictSize) && StateOk(d, dictSize) && ReaderOk(d.rd) && ReadToken(d, s, dictSize).Some?
    requires if begun then d.rd.rc.pos < bufLimit && Underway(d0, d.rd.rc, s, dictSize, bufLimit, avail) else d == d0
    ensures Underway(d0, ReadToken(d, s, dictSize).value.0.rd.rc, s, dictSize, bufLimit, avail)
  {
    hide ReadToken, ReaderOk, StateOk;
    TokenMoves(d, s, dictSize);
    PendingTakesOneMore(d, s, dictSize);
  }

  /** A round that begins at d, the range full. */
  lemma RoundEnds(d0: LzDec, d: LzDec, rc: Dec, s: seq<byte>, dictSize: nat, bufLimit: nat, avail: nat, begun: bool)
    requires DecOk(d0, dictSize) && DecOk(d, dictSize) && Underway(d, rc, s, dictSize, bufLimit, avail)
    requires if begun then d.rd.rc.pos < bufLimit && Underway(d0, d.rd.rc, s, dictSize, bufLimit, avail) else d == d0
    ensures Underway(d0, rc, s, dictSize, bufLimit, avail)
  {
    hide ReadToken, ReaderOk, StateOk;
    TokenMoves(d, s, dictSize);
    SymbolTakesTwenty(d, s, dictSize);
  }

  /** Reading a symbol from the unnormalised state is the byte-by-byte decoder's next symbol. */
  lemma SymbolTurn(d0: LzDec, s: seq<byte>, dictSize: nat, n: nat, d: LzDec)
    requires DecOk(d0, dictSize) && Lazily(d0, s, dictSize, n, d) && ReadToken(d, s, dictSize).Some?
    ensures DecodeN(d0, s, dictSize, n).More?
    ensures var p := DecodeN(d0, s, dictSize, n);
            var (d1, token) := ReadToken(d, s, dictSize).value;
            && p.d.rem == d.rem && p.d.hist == d.hist && ReaderOk(d1.rd) && StateOk(d1, dictSize)
            && var settled := Settle(d1, s, dictSize);
               ReadSymbol(p.d, s, dictSize) == if settled.Some? then Some((settled.value, token)) else None
  {
    hide ReadToken, ReaderOk, Refill, StateOk;
    TokenSettled(d, s, dictSize);
  }

  /** The end marker comes after exactly n bytes. */
  ghost predicate Finishes(d0: LzDec, s: seq<byte>, dictSize: nat, n: nat)
    requires DecOk(d0, dictSize)
  {
    var p := DecodeN(d0, s, dictSize, n);
    p.More? && Next(p.d, s, dictSize).Finished?
  }

  /** Why a call with room for k bytes may report failure. */
  ghost predicate FailsBefore(d0: LzDec, s: seq<byte>, dictSize: nat, k: nat)
    requires DecOk(d0, dictSize)
  {
    if k == 0 then !Finishes(d0, s, dictSize, 0) else DecodeN(d0, s, dictSize, k).Failed?
  }

  /** With n bytes decoded the end marker was read into d, whose pending shift may still fail. */
  ghost predicate AtMarker(d0: LzDec, s: seq<byte>, dictSize: nat, n: nat, d: LzDec)
    requires DecOk(d0, dictSize)
  {
    && StateOk(d, dictSize) && ReaderOk(d.rd) && DecodeN(d0, s, dictSize, n).More?
    && var settled := Settle(d, s, dictSize);
       Next(DecodeN(d0, s, dictSize, n).d, s, dictSize) == if settled.Some? then Finished(settled.value) else Failed
  }

  lemma LastFails(d0: LzDec, s: seq<byte>, dictSize: nat, n: nat)
    requires DecOk(d0, dictSize) && DecodeN(d0, s, dictSize, n).More?
    requires Next(DecodeN(d0, s, dictSize, n).d, s, dictSize).Failed?
    ensures DecodeN(d0, s, dictSize, n + 1).Failed? && !Finishes(d0, s, dictSize, n)
  {
    hide Next, DecOk;
  }

  lemma CopyNotEnd(d0: LzDec, s: seq<byte>, dictSize: nat, n: nat, d: LzDec)
    requires DecOk(d0, dictSize) && Lazily(d0, s, dictSize, n, d) && d.rem == 0
    requires ReadToken(d, s, dictSize).Some? && ReadToken(d, s, dictSize).value.1.CopyToken?
    ensures !Finishes(d0, s, dictSize, n)
  {
    hide ReadToken, ReadSymbol, ReaderOk;
    SymbolTurn(d0, s, dictSize, n, d);
  }

  /** When no symbol can be read, the byte-by-byte decoder fails too. */
  lemma FailTurn(d0: LzDec, s: seq<byte>, dictSize: nat, n: nat, d: LzDec)
    requires DecOk(d0, dictSize) && Lazily(d0, s, dictSize, n, d) && d.rem == 0 && ReadToken(d, s, dictSize).None?
    ensures DecodeN(d0, s, dictSize, n + 1).Failed?
    ensures !Finishes(d0, s, dictSize, n)
  {
    hide ReadToken, ReaderOk, Refill, StateOk;
    TokenSettled(d, s, dictSize);
  }

  lemma LitTurn(d0: LzDec, s: seq<byte>, dictSize: nat, n: nat, d: LzDec, d1: LzDec, b: byte)
    requires DecOk(d0, dictSize) && Lazily(d0, s, dictSize, n, d) && d.rem == 0
    requires ReadToken(d, s, dictSize) == Some((d1, LitToken(b)))
    ensures Lazily(d0, s, dictSize, n + 1, d1.(hist := d1.hist + [b]))
  {
    hide ReadToken, ReadSymbol, ReaderOk;
    SymbolTurn(d0, s, dictSize, n, d);
  }

  lemma CopyTurn(d0: LzDec, s: seq<byte>, dictSize: nat, n: nat, d: LzDec, d1: LzDec, len: nat, k: nat)
    requires DecOk(d0, dictSize) && Lazily(d0, s, dictSize, n, d) && d.rem == 0
    requires ReadToken(d, s, dictSize) == Some((d1, CopyToken(len))) && 1 <= k <= len
    ensures 1 <= d1.reps.r0 <= |d1.hist| && d1.reps.r0 <= dictSize
    ensures Lazily(d0, s, dictSize, n + k, d1.(hist := Extend(d1.hist, d1.reps.r0, k), rem := len - k))
  {
    hide ReadToken, ReadSymbol, ReaderOk;
    SymbolTurn(d0, s, dictSize, n, d);
    if Settle(d1, s, dictSize).Some? {
      var p := DecodeN(d0, s, dictSize, n);
      DecodeSymbolCopy(p.d, s, dictSize, Settle(d1, s, dictSize).value, len, k);
      DecodeSum(d0, s, dictSize, n, k);
    } else {
      assert DecodeN(d0, s, dictSize, n + 1).Failed?;
      FailureSticks(d0, s, dictSize, n + 1, n + k);
    }
  }

  lemma {:induction false} FailureSticks(d: LzDec, s: seq<byte>, dictSize: nat, m: nat, n: nat)
    requires DecOk(d, dictSize) && m <= n && DecodeN(d, s, dictSize, m).Failed?
    ensures DecodeN(d, s, dictSize, n).Failed?
  {
    hide DecOk, Next;
    if m < n { FailureSticks(d, s, dictSize, m, n - 1); }
  }

  lemma EndTurn(d0: LzDec, s: seq<byte>, dictSize: nat, n: nat, d: LzDec, d1: LzDec)
    requires DecOk(d0, dictSize) && Lazily(d0, s, dictSize, n, d) && d.rem == 0
    requires ReadToken(d, s, dictSize) == Some((d1, EndToken))
    ensures StateOk(d1, dictSize) && ReaderOk(d1.rd) && DecodeN(d0, s, dictSize, n).More?
    ensures var settled := Settle(d1, s, dictSize);
            Next(DecodeN(d0, s, dictSize, n).d, s, dictSize) == if settled.Some? then Finished(settled.value) else Failed
  {
    hide ReadToken, ReadSymbol, ReaderOk;
    SymbolTurn(d0, s, dictSize, n, d);
  }

  class Decoder {
    const src: seq<byte>
    var range: nat
    var code: nat
    var buf: nat
    const probs: array<Prob>
    const dic: array<byte>
    const dicBufSize: nat
    var dicPos: nat
    var processedPos: nat
    var checkDicSize: nat
    var state: nat
    var reps: Reps
    var remainLen: nat
    ghost var hist: seq<byte>   // everything written so far
    ghost var lap: nat          // index in hist of dic[0] in the current lap

    ghost function Rd(): Reader
      reads `range, `code, `buf, probs
    {
      Reader(Dec(range, code, buf), probs[..])
    }

    ghost function D(): LzDec
      reads this, probs
    {
      LzDec(Rd(), state, reps, hist, if remainLen < FINISHED then remainLen else 0)
    }

    /** The circular dictionary holds the latest dicBufSize bytes of the history. */
    ghost predicate DictOk()
      reads `dicPos, `hist, `lap, dic
    {
      && 1 <= dicBufSize == dic.Length < TWO32 && probs as object != dic as object
      && dicPos <= dicBufSize && lap + dicPos == |hist| && (lap == 0 || lap >= dicBufSize)
      && (forall j :: 0 <= j < dicPos ==> dic[j] == hist[lap + j])
      && (lap > 0 ==> forall j :: dicPos <= j < dicBufSize ==> dic[j] == hist[lap - dicBufSize + j])
    }

    /** processedPos counts modulo 2^32; checkDicSize is set once a whole dictionary was written. */
    ghost predicate CountOk()
      reads `hist, `lap, `processedPos, `checkDicSize
    {
      && dicBufSize < TWO32 && processedPos == |hist| % TWO32 && processedPos % 4 == |hist| % 4
      && if checkDicSize == 0 then lap == 0 && |hist| <= dicBufSize
         else checkDicSize == dicBufSize && |hist| >= dicBufSize
    }

    ghost predicate FlagOk()
      reads `hist, `checkDicSize
    {
      checkDicSize == 0 ==> |hist| < dicBufSize
    }

    ghost predicate Valid()
      reads this, probs, dic
    {
      probs.Length == NUM_PROBS && DictOk() && CountOk() && FlagOk() && DecOk(D(), dicBufSize)
    }

    /** The decoder's view of a functional read: same outcome, same registers afterwards. */
    ghost predicate Yields<T>(res: Option<(T, Reader)>, r: Option<T>)
      reads `range, `code, `buf, probs
    {
      if res.None? then r.None? else r == Some(res.value.0) && Rd() == res.value.1
    }

    ghost predicate Found<T>(res: Option<(T, Dec)>, r: Option<T>, d: Dec) {
      if res.None? then r.None? else r == Some(res.value.0) && d == res.value.1
    }

    // ------------------------------------------------------------ bits

    /** IF_BIT_0 with UPDATE_0 or UPDATE_1 */
    method DecodeBit(i: nat) returns (r: Option<bit>)
      requires i < probs.Length
      modifies `range, `code, `buf, probs
      ensures Yields(ReadBit(old(Rd()), src, i), r)
      // one probability moves towards the bit; one of 1024 shares the range evenly
      ensures r.Some? ==> probs[..] == old(probs[..])[i := probs[i]] && Moves(old(probs[i]), probs[i], r.value)
      ensures r.Some? && old(probs[i]) == 1024 ==>
                Half(range, if old(range) < TOP then old(range) * 256 else old(range))
    {
      hide Bound;
      ghost var full := if range < TOP then range * 256 else range;
      var ttt := probs[i];
      if range < TOP {
        if buf >= |src| { return None; }
        range, code, buf := range * 256, (code * 256 + src[buf]) % TWO32, buf + 1;
      }
      var bound := Bound(range, ttt);
      assert ttt == 1024 ==> Half(bound, full) && Half(full - bound, full) by { EvenBound(full); }
      if code < bound {
        range := bound;
        probs[i] := ttt + (MODEL_TOTAL - ttt) / 32;
        r := Some(0);
      } else {
        range, code := range - bound, code - bound;
        probs[i] := ttt - ttt / 32;
        r := Some(1);
      }
      assert probs[..] == old(probs[..])[i := probs[i]];
    }

    method DecodeDirect() returns (r: Option<bit>)
      modifies `range, `code, `buf
      ensures Yields(ReadDirect(old(Rd()), src), r)
    {
      if range < TOP {
        if buf >= |src| { return None; }
        range, code, buf := range * 256, (code * 256 + src[buf]) % TWO32, buf + 1;
      }
      range := range / 2;
      code := (code - range) % TWO32;
      if code >= TWO32 / 2 {
        code := (code + range) % TWO32;
        r := Some(0);
      } else {
        r := Some(1);
      }
    }

    /** TREE_DECODE */
    method TreeDecode(base: nat, limit: nat) returns (r: Option<nat>)
      requires limit >= 1 && base + limit <= probs.Length
      modifies `range, `code, `buf, probs
      ensures Yields(ReadTree(old(Rd()), src, base, limit, 1), r)
    {
      hide ReadBit;
      var i: nat := 1;
      while i < limit
        invariant i >= 1
        invariant ReadTree(Rd(), src, base, limit, i) == ReadTree(old(Rd()), src, base, limit, 1)
        decreases limit - i
      {
        var b :- DecodeBit(base + i);
        i := 2 * i + b;
      }
      r := Some(i - limit);
    }

    method ReverseDecode(base: nat, n: nat, start: nat) returns (r: Option<nat>)
      requires base + Pow2(n) <= probs.Length
      modifies `range, `code, `buf, probs
      ensures Yields(ReadReverse(old(Rd()), src, base, 1, 0, n, start), r)
    {
      hide ReadBit, SetBit;
      var i: nat, k: nat, distance: nat := 1, 0, start;
      while k < n
        invariant k <= n && 1 <= i < Pow2(k + 1)
        invariant ReadReverse(Rd(), src, base, i, k, n, distance) == ReadReverse(old(Rd()), src, base, 1, 0, n, start)
      {
        Pow2Mono(k + 1, n);
        var b :- DecodeBit(base + i);
        if b == 1 { distance := SetBit(distance, k); }
        i, k := 2 * i + b, k + 1;
      }
      r := Some(distance);
    }

    method DirectsDecode(n: nat, start: nat) returns (r: Option<nat>)
      modifies `range, `code, `buf
      ensures Yields(ReadDirects(old(Rd()), src, n, start), r)
    {
      hide ReadDirect;
      var k: nat, distance: nat := n, start;
      while k != 0
        invariant ReadDirects(Rd(), src, k, distance) == ReadDirects(old(Rd()), src, n, start)
      {
        var b :- DecodeDirect();
        distance, k := 2 * distance + b, k - 1;
      }
      r := Some(distance);
    }

    /** The matched-literal loop. */
    method MatchedDecode(base: nat, predicted: byte) returns (r: Option<nat>)
      requires base + LIT_SIZE <= probs.Length
      modifies `range, `code, `buf, probs
      ensures Yields(ReadMatched(old(Rd()), src, base, 0x100, predicted, 1), r)
    {
      hide ReadBit, And, AndNot, BitAt;
      var matchByte: nat, offs: nat, symbol: nat := predicted, 0x100, 1;
      while symbol < 0x100
        invariant symbol >= 1 && (offs == 0 || offs == 0x100)
        invariant ReadMatched(Rd(), src, base, offs, matchByte, symbol)
               == ReadMatched(old(Rd()), src, base, 0x100, predicted, 1)
        decreases 0x100 - symbol
      {
        matchByte := 2 * matchByte;
        AndMask(matchByte, offs);
        var bit := And(matchByte, offs);
        var b :- DecodeBit(base + offs + bit + symbol);
        AndNotMask(offs, bit); AndMask(offs, bit);
        offs := if b == 0 then AndNot(offs, bit) else And(offs, bit);
        symbol := 2 * symbol + b;
      }
      r := Some(symbol);
    }

    method LenDecode(rep: bool, posState: nat) returns (r: Option<nat>)
      requires posState < POS_STATES_MAX && probs.Length == NUM_PROBS
      modifies `range, `code, `buf, probs
      ensures Yields(ReadLen(old(Rd()), src, rep, posState), r)
    {
      hide ReadBit, ReadTree;
      var prob := LenBase(rep);
      var b :- DecodeBit(prob);
      if b == 0 {
        r := TreeDecode(prob + LEN_LOW + posState * 8, 8);
      } else {
        b :- DecodeBit(prob + LEN_CHOICE2);
        if b == 0 {
          var len :- TreeDecode(prob + LEN_MID + posState * 8, 8);
          r := Some(len + 8);
        } else {
          var len :- TreeDecode(prob + LEN_HIGH, 256);
          r := Some(len + 16);
        }
      }
    }

    method DistanceDecode(lenState: nat) returns (r: Option<nat>)
      requires lenState < 4 && probs.Length == NUM_PROBS
      modifies `range, `code, `buf, probs
      ensures Yields(ReadDistance(old(Rd()), src, lenState), r)
    {
      hide ReadTree, ReadReverse, ReadDirects, Pow2, Shl;
      var posSlot :- TreeDecode(POS_SLOT + lenState * 64, 64);
      if posSlot < START_POS_MODEL { return Some(posSlot); }
      var numDirectBits := posSlot / 2 - 1;
      var distance := 2 + posSlot % 2;
      if posSlot < END_POS_MODEL {
        distance := Shl(distance, numDirectBits);
        SpecPosFits(posSlot);
        r := ReverseDecode(SPEC_POS + distance - posSlot - 1, numDirectBits, distance);
      } else {
        distance :- DirectsDecode(numDirectBits - 4, distance);
        Pow2Values();
        r := ReverseDecode(ALIGN, 4, Shl(distance, 4));
      }
    }

    // ------------------------------------------------------------ dictionary

    /** The byte dist back; dist counts from 1. */
    method DictByte(dist: nat) returns (b: byte)
      requires DictOk() && 1 <= dist <= dicBufSize && dist <= |hist|
      ensures b == hist[|hist| - dist]
    {
      b := dic[dicPos - dist + if dicPos < dist then dicBufSize else 0];
    }

    method PutByte(b: byte)
      requires DictOk() && CountOk() && dicPos < dicBufSize
      modifies `dicPos, `processedPos, `hist, dic
      ensures DictOk() && CountOk() && hist == old(hist) + [b] && dicPos == old(dicPos) + 1
    {
      CountUp(|hist|);
      CountMod4(|hist| + 1);
      dic[dicPos] := b;
      dicPos := dicPos + 1;
      processedPos := (processedPos + 1) % TWO32;
      hist := hist + [b];
    }

    // ------------------------------------------------------------ symbols

    /** The decoder's view of ReadToken and its parts. */
    ghost predicate Decodes(res: Option<(LzDec, Token)>, t: Option<Token>)
      reads this, probs
    {
      if res.None? then t.None? else t == Some(res.value.1) && D() == res.value.0
    }

    ghost predicate SymbolPre()
      reads this, probs, dic
    {
      DictOk() && CountOk() && StateOk(D(), dicBufSize) && probs.Length == NUM_PROBS && remainLen == 0
    }

    method LitSymbolDecode() returns (t: Option<Token>)
      requires SymbolPre()
      modifies `range, `code, `buf, `state, probs
      ensures Decodes(ReadLitSymbol(old(D()), src, old(Rd()), dicBufSize), t)
    {
      hide ReadTree, ReadMatched;
      var row := 0;
      if checkDicSize != 0 || processedPos != 0 {
        var prev := DictByte(1);
        row := prev / 32;
      }
      if state < 7 {
        state := state - (if state < 4 then state else 3);
        var sym :- TreeDecode(LITERAL + LIT_SIZE * row, 0x100);
        t := Some(LitToken(sym));
      } else {
        var matchByte := DictByte(reps.r0);
        state := state - (if state < 10 then 3 else 6);
        var symbol :- MatchedDecode(LITERAL + LIT_SIZE * row, matchByte);
        t := Some(LitToken(symbol % 0x100));
      }
    }

    method MatchSymbolDecode() returns (t: Option<Token>)
      requires SymbolPre()
      modifies `range, `code, `buf, `state, `reps, probs
      ensures Decodes(ReadMatchSymbol(old(D()), src, old(Rd()), dicBufSize), t)
    {
      hide ReadLen, ReadDistance, DictOk;
      var len :- LenDecode(false, processedPos % 4);
      var distance :- DistanceDecode(if len < 4 then len else 3);
      if distance == END_MARKER { return Some(EndToken); }
      if checkDicSize == 0 {
        if distance >= processedPos { return None; }
      } else if distance >= checkDicSize {
        return None;
      }
      reps := Reps(distance + 1, reps.r0, reps.r1, reps.r2);
      state := if state < 7 then 7 else 10;
      t := Some(CopyToken(len + 2));
    }

    method RepIndexDecode() returns (r: Option<Option<nat>>)
      requires SymbolPre()
      modifies `range, `code, `buf, probs
      ensures Yields(ReadRepIndex(old(D()), src, old(Rd())), r)
    {
      hide ReadBit, DictOk;
      var b :- DecodeBit(IS_REP_G0 + state);
      if b == 0 {
        b :- DecodeBit(IS_REP0_LONG + state * 16 + processedPos % 4);
        r := Some(if b == 0 then None else Some(0));
      } else {
        b :- DecodeBit(IS_REP_G1 + state);
        if b == 0 { return Some(Some(1)); }
        b :- DecodeBit(IS_REP_G2 + state);
        r := Some(Some(if b == 0 then 2 else 3));
      }
    }

    method RotateReps(index: nat)
      requires index < 4
      modifies `reps
      ensures reps == old(reps).Front(index)
    {
      var distance := reps.Nth(index);
      if index == 3 { reps := reps.(r3 := reps.r2); }
      if index >= 2 { reps := reps.(r2 := reps.r1); }
      if index >= 1 { reps := reps.(r1 := reps.r0, r0 := distance); }
    }

    method RepSymbolDecode() returns (t: Option<Token>)
      requires SymbolPre()
      modifies `range, `code, `buf, `state, `reps, probs
      ensures Decodes(ReadRepSymbol(old(D()), src, old(Rd()), dicBufSize), t)
    {
      hide ReadLen, ReadRepIndex, DictOk;
      if checkDicSize == 0 && processedPos == 0 { return None; }
      var index :- RepIndexDecode();
      if index.None? {
        state := if state < 7 then 9 else 11;
        return Some(CopyToken(1));
      }
      RotateReps(index.value);
      state := if state < 7 then 8 else 11;
      var len :- LenDecode(true, processedPos % 4);
      t := Some(CopyToken(len + 2));
    }

    /** The part of LzmaDec_DecodeReal's loop that reads one symbol. */
    method TokenDecode() returns (t: Option<Token>)
      requires SymbolPre()
      modifies `range, `code, `buf, `state, `reps, probs
      ensures Decodes(ReadToken(old(D()), src, dicBufSize), t)
    {
      hide ReadBit, ReadLitSymbol, ReadMatchSymbol, ReadRepSymbol, DictOk;
      ghost var d := D();
      var b :- DecodeBit(state * 16 + processedPos % 4);
      if b == 0 {
        LitIgnoresReader(d, src, Rd(), dicBufSize);
        t := LitSymbolDecode();
      } else {
        b :- DecodeBit(IS_REP + state);
        MatchIgnoresReader(d, src, Rd(), dicBufSize);
        RepIgnoresReader(d, src, Rd(), dicBufSize);
        if b == 0 {
          t := MatchSymbolDecode();
        } else {
          t := RepSymbolDecode();
        }
      }
    }

    // ------------------------------------------------------------ LzmaDec_TryDummy

    /** IF_BIT_0_CHECK with UPDATE_0_CHECK or UPDATE_1_CHECK, on copies of the registers. */
    method CheckBit(d: Dec, i: nat, lim: nat) returns (r: Option<bit>, d1: Dec)
      requires lim <= |src| && i < probs.Length
      ensures Found(PeekCoin(d, src, lim, probs[i]), r, d1)
    {
      hide Bound;
      d1 := d;
      if d1.range < TOP {
        if d1.pos >= lim { return None, d1; }
        d1 := Dec(d1.range * 256, (d1.code * 256 + src[d1.pos]) % TWO32, d1.pos + 1);
      }
      var bound := Bound(d1.range, probs[i]);
      if d1.code < bound {
        r, d1 := Some(0), d1.(range := bound);
      } else {
        r, d1 := Some(1), d1.(range := d1.range - bound, code := d1.code - bound);
      }
    }

    /** TREE_DECODE_CHECK */
    method CheckTree(d: Dec, base: nat, limit: nat, lim: nat) returns (r: Option<nat>, d1: Dec)
      requires lim <= |src| && limit >= 1 && base + limit <= probs.Length
      ensures Found(PeekTree(d, src, lim, probs[..], base, limit, 1), r, d1)
    {
      hide PeekCoin;
      d1 := d;
      var i: nat := 1;
      while i < limit
        invariant i >= 1
        invariant PeekTree(d1, src, lim, probs[..], base, limit, i) == PeekTree(d, src, lim, probs[..], base, limit, 1)
        decreases limit - i
      {
        var b;
        b, d1 :- CheckBit(d1, base + i, lim);
        i := 2 * i + b;
      }
      r := Some(i - limit);
    }

    method CheckMatched(d: Dec, base: nat, predicted: byte, lim: nat) returns (r: Option<Dec>)
      requires lim <= |src| && base + LIT_SIZE <= probs.Length
      ensures r == PeekMatched(d, src, lim, probs[..], base, 0x100, predicted, 1)
    {
      hide PeekCoin, And, AndNot, BitAt;
      var d1 := d;
      var matchByte: nat, offs: nat, symbol: nat := predicted, 0x100, 1;
      while symbol < 0x100
        invariant symbol >= 1 && (offs == 0 || offs == 0x100)
        invariant PeekMatched(d1, src, lim, probs[..], base, offs, matchByte, symbol)
               == PeekMatched(d, src, lim, probs[..], base, 0x100, predicted, 1)
        decreases 0x100 - symbol
      {
        matchByte := 2 * matchByte;
        AndMask(matchByte, offs);
        var bit := And(matchByte, offs);
        var b;
        b, d1 :- CheckBit(d1, base + offs + bit + symbol, lim);
        AndNotMask(offs, bit); AndMask(offs, bit);
        offs := if b == 0 then AndNot(offs, bit) else And(offs, bit);
        symbol := 2 * symbol + b;
      }
      r := Some(d1);
    }

    method CheckDirects(d: Dec, n: nat, lim: nat) returns (r: Option<Dec>)
      requires lim <= |src|
      ensures r == PeekDirects(d, src, lim, n)
    {
      var d1, k: nat := d, n;
      while k != 0
        invariant k <= n && PeekDirects(d1, src, lim, k) == PeekDirects(d, src, lim, n)
      {
        if d1.range < TOP {
          if d1.pos >= lim { return None; }
          d1 := Dec(d1.range * 256, (d1.code * 256 + src[d1.pos]) % TWO32, d1.pos + 1);
        }
        d1 := d1.(range := d1.range / 2);
        d1 := d1.(code := (d1.code - d1.range) % TWO32);
        if d1.code >= TWO32 / 2 { d1 := d1.(code := (d1.code + d1.range) % TWO32); }
        k := k - 1;
      }
      r := Some(d1);
    }

    method CheckReverse(d: Dec, base: nat, n: nat, lim: nat) returns (r: Option<Dec>)
      requires lim <= |src| && base + Pow2(n) <= probs.Length
      ensures r == PeekReverse(d, src, lim, probs[..], base, 1, 0, n)
    {
      hide PeekCoin;
      var d1, i: nat, k: nat := d, 1, 0;
      while k < n
        invariant k <= n && 1 <= i < Pow2(k + 1)
        invariant PeekReverse(d1, src, lim, probs[..], base, i, k, n) == PeekReverse(d, src, lim, probs[..], base, 1, 0, n)
      {
        Pow2Mono(k + 1, n);
        var b;
        b, d1 :- CheckBit(d1, base + i, lim);
        i, k := 2 * i + b, k + 1;
      }
      r := Some(d1);
    }

    method CheckLen(d: Dec, rep: bool, posState: nat, lim: nat) returns (r: Option<nat>, d1: Dec)
      requires lim <= |src| && posState < POS_STATES_MAX && probs.Length == NUM_PROBS
      ensures Found(PeekLen(d, src, lim, probs[..], rep, posState), r, d1)
    {
      hide PeekCoin, PeekTree;
      var prob, b, len := LenBase(rep), 0, 0;
      b, d1 :- CheckBit(d, prob, lim);
      if b == 0 {
        r, d1 := CheckTree(d1, prob + LEN_LOW + posState * 8, 8, lim);
      } else {
        b, d1 :- CheckBit(d1, prob + LEN_CHOICE2, lim);
        if b == 0 {
          len, d1 :- CheckTree(d1, prob + LEN_MID + posState * 8, 8, lim);
          r := Some(len + 8);
        } else {
          len, d1 :- CheckTree(d1, prob + LEN_HIGH, 256, lim);
          r := Some(len + 16);
        }
      }
    }

    method CheckMatch(d: Dec, posState: nat, lim: nat) returns (r: Option<Dec>)
      requires lim <= |src| && posState < POS_STATES_MAX && probs.Length == NUM_PROBS
      ensures r == PeekMatch(d, src, lim, probs[..], posState)
    {
      hide PeekLen, PeekTree, PeekReverse, PeekDirects, Pow2, Shl;
      var len, d1 :- CheckLen(d, false, posState, lim);
      var posSlot;
      posSlot, d1 :- CheckTree(d1, POS_SLOT + (if len < 4 then len else 3) * 64, 64, lim);
      if posSlot < START_POS_MODEL { return Some(d1); }
      var numDirectBits := posSlot / 2 - 1;
      if posSlot < END_POS_MODEL {
        SpecPosFits(posSlot);
        r := CheckReverse(d1, SPEC_POS + Shl(2 + posSlot % 2, numDirectBits) - posSlot - 1, numDirectBits, lim);
      } else {
        d1 :- CheckDirects(d1, numDirectBits - 4, lim);
        Pow2Values();
        r := CheckReverse(d1, ALIGN, 4, lim);
      }
    }

    method CheckRep(d: Dec, posState: nat, lim: nat) returns (r: Option<Dec>)
      requires lim <= |src| && state < 12 && posState < POS_STATES_MAX && probs.Length == NUM_PROBS
      ensures r == PeekRep(d, src, lim, probs[..], state, posState)
    {
      hide PeekCoin, PeekLen;
      var b, d1 :- CheckBit(d, IS_REP_G0 + state, lim);
      if b == 0 {
        b, d1 :- CheckBit(d1, IS_REP0_LONG + state * 16 + posState, lim);
        if b == 0 { return Some(d1); }
      } else {
        b, d1 :- CheckBit(d1, IS_REP_G1 + state, lim);
        if b == 1 { b, d1 :- CheckBit(d1, IS_REP_G2 + state, lim); }
      }
      var len;
      len, d1 :- CheckLen(d1, true, posState, lim);
      r := Some(d1);
    }

    method CheckLit(d: Dec, lim: nat) returns (r: Option<Dec>)
      requires SymbolPre() && lim <= |src|
      ensures var predicted := if state < 7 then None else Some(hist[|hist| - reps.r0]);
              r == PeekLiteral(d, src, lim, probs[..], LitRow(hist), predicted)
    {
      hide PeekTree, PeekMatched;
      var row := 0;
      if checkDicSize != 0 || processedPos != 0 {
        var prev := DictByte(1);
        row := prev / 32;
      }
      if state < 7 {
        var sym, d1 :- CheckTree(d, LITERAL + LIT_SIZE * row, 0x100, lim);
        r := Some(d1);
      } else {
        var matchByte := DictByte(reps.r0);
        r := CheckMatched(d, LITERAL + LIT_SIZE * row, matchByte, lim);
      }
    }

    /** LzmaDec_TryDummy: is there a whole symbol up to lim, and of what kind? Nothing is changed. */
    method TryDummy(lim: nat) returns (r: Option<Kind>)
      requires SymbolPre() && lim <= |src|
      ensures r == Peek(D(), src, lim, dicBufSize)
    {
      hide PeekCoin, PeekLiteral, PeekMatch, PeekRep, DictOk;
      var posState := processedPos % 4;
      var b, d :- CheckBit(Dec(range, code, buf), state * 16 + posState, lim);
      var kind;
      if b == 0 {
        d :- CheckLit(d, lim);
        kind := LitKind;
      } else {
        b, d :- CheckBit(d, IS_REP + state, lim);
        if b == 0 {
          d :- CheckMatch(d, posState, lim);
          kind := MatchKind;
        } else {
          d :- CheckRep(d, posState, lim);
          kind := RepKind;
        }
      }
      if d.range < TOP && d.pos >= lim { return None; }
      r := Some(kind);
    }

    // ------------------------------------------------------------ copies

    /** One byte of a copy, read from its place in the circular dictionary. */
    method CopyOne(pos: nat)
      requires DictOk() && CountOk() && dicPos < dicBufSize
      requires 1 <= reps.r0 <= dicBufSize && reps.r0 <= |hist|
      requires pos == dicPos - reps.r0 + if dicPos < reps.r0 then dicBufSize else 0
      modifies `dicPos, `processedPos, `hist, dic
      ensures DictOk() && CountOk() && dicPos == old(dicPos) + 1
      ensures hist == old(hist) + [old(hist)[|old(hist)| - reps.r0]]
    {
      var b := dic[pos];
      assert b == hist[|hist| - reps.r0];
      PutByte(b);
    }

    /** The copy when it does not reach the end of the dictionary: source and target keep their distance. */
    method CopyStraight(curLen: nat, offset: int)
      requires DictOk() && CountOk() && dicPos + curLen <= dicBufSize
      requires 1 <= reps.r0 <= dicBufSize && reps.r0 <= |hist|
      requires offset == (if dicPos < reps.r0 then dicBufSize else 0) - reps.r0
      requires dicPos + offset + curLen <= dicBufSize
      modifies `dicPos, `processedPos, `hist, dic
      ensures DictOk() && CountOk() && dicPos == old(dicPos) + curLen
      ensures hist == Extend(old(hist), reps.r0, curLen)
    {
      hide DictOk, CountOk;
      var i := 0;
      while i < curLen
        invariant 0 <= i <= curLen && DictOk() && CountOk() && dicPos == old(dicPos) + i
        invariant hist == Extend(old(hist), reps.r0, i)
      {
        CopyOne(dicPos + offset);
        i := i + 1;
      }
    }

    /** The copy whose source runs over the end of the dictionary. */
    method CopyWrapping(curLen: nat, start: nat)
      requires DictOk() && CountOk() && dicPos + curLen <= dicBufSize
      requires 1 <= reps.r0 <= dicBufSize && reps.r0 <= |hist|
      requires start == dicPos - reps.r0 + if dicPos < reps.r0 then dicBufSize else 0
      modifies `dicPos, `processedPos, `hist, dic
      ensures DictOk() && CountOk() && dicPos == old(dicPos) + curLen
      ensures hist == Extend(old(hist), reps.r0, curLen)
    {
      hide DictOk, CountOk;
      var i, pos := 0, start;
      while i < curLen
        invariant 0 <= i <= curLen && DictOk() && CountOk() && dicPos == old(dicPos) + i
        invariant pos == dicPos - reps.r0 + if dicPos < reps.r0 then dicBufSize else 0
        invariant hist == Extend(old(hist), reps.r0, i)
      {
        CopyOne(pos);
        pos := pos + 1;
        if pos == dicBufSize { pos := 0; }
        i := i + 1;
      }
    }

    /** The copy loops of LzmaDec_DecodeReal: straight, or wrapping round the dictionary's end.
        Source and target may overlap. */
    method CopyBytes(curLen: nat)
      requires DictOk() && CountOk() && dicPos + curLen <= dicBufSize
      requires 1 <= reps.r0 <= dicBufSize && reps.r0 <= |hist|
      modifies `dicPos, `processedPos, `hist, dic
      ensures DictOk() && CountOk() && dicPos == old(dicPos) + curLen
      ensures hist == Extend(old(hist), reps.r0, curLen)
    {
      hide DictOk, CountOk;
      var pos := dicPos - reps.r0 + if dicPos < reps.r0 then dicBufSize else 0;
      if pos + curLen <= dicBufSize { CopyStraight(curLen, pos - dicPos); } else { CopyWrapping(curLen, pos); }
    }

    /** The copy of LzmaDec_WriteRem, which may be the one that fills the dictionary. */
    method CopyCounted(len: nat)
      requires DictOk() && CountOk() && FlagOk() && dicPos + len <= dicBufSize
      requires 1 <= reps.r0 <= dicBufSize && reps.r0 <= |hist|
      modifies `dicPos, `processedPos, `checkDicSize, `hist, dic
      ensures DictOk() && CountOk() && FlagOk() && dicPos == old(dicPos) + len
      ensures hist == Extend(old(hist), reps.r0, len)
    {
      var full := checkDicSize == 0 && dicBufSize - processedPos <= len;
      CopyBytes(len);
      if full { checkDicSize := dicBufSize; }
    }

    /** LzmaDec_WriteRem: finishes, up to limit, a copy that an earlier limit cut short. */
    method WriteRem(limit: nat)
      requires Valid() && dicPos <= limit <= dicBufSize
      modifies `dicPos, `processedPos, `checkDicSize, `remainLen, `hist, dic
      ensures Valid() && old(dicPos) <= dicPos && |hist| - |old(hist)| == dicPos - old(dicPos)
      ensures DecodeN(old(D()), src, dicBufSize, |hist| - |old(hist)|) == More(D())
      ensures dicPos <= limit && (D().rem == 0 || dicPos == limit)
      ensures old(remainLen) >= FINISHED || old(remainLen) == 0 ==> remainLen == old(remainLen) && D() == old(D())
      ensures old(remainLen) < FINISHED ==> remainLen < FINISHED
    {
      hide ReaderOk, ReadSymbol, DictOk, CountOk, FlagOk, Extend, DecodeN, Next;
      DecodeZero(D(), src, dicBufSize);
      if remainLen != 0 && remainLen < FINISHED {
        var len := remainLen;
        if limit - dicPos < len { len := limit - dicPos; }
        DecodeCopy(D(), src, dicBufSize, len);
        CopyCounted(len);
        remainLen := remainLen - len;
      }
    }

    // ------------------------------------------------------------ LzmaDec_DecodeReal

    /** What LzmaDec_TryDummy has established (DUMMY_MATCH) when no output space is left. */
    ghost predicate ExpectsMatch()
      requires StateOk(D(), dicBufSize) && |D().rd.probs| == NUM_PROBS
      reads this, probs
    {
      var t := ReadToken(D(), src, dicBufSize);
      t.Some? ==> t.value.1.EndToken? || (t.value.1.CopyToken? && t.value.1.len >= 2)
    }

    /** One turn of the main loop: a symbol, and as much of its copy as fits below limit. */
    method Turn(limit: nat, ghost d0: LzDec, ghost n: nat) returns (ok: bool, len: nat)
      requires SymbolPre() && dicPos <= limit <= dicBufSize && (dicPos < limit || ExpectsMatch())
      requires DecOk(d0, dicBufSize) && Lazily(d0, src, dicBufSize, n, D())
      modifies `range, `code, `buf, `state, `reps, `dicPos, `processedPos, `hist, probs, dic
      ensures !ok ==> if old(dicPos) < limit then DecodeN(d0, src, dicBufSize, n + 1).Failed? else !Finishes(d0, src, dicBufSize, n)
      ensures ok ==> DictOk() && CountOk() && dicPos <= limit && |old(hist)| <= |hist| && probs.Length == NUM_PROBS
      ensures !ok ==> DictOk() && hist == old(hist) && dicPos == old(dicPos)
      ensures ok ==> ReadToken(old(D()), src, dicBufSize).Some? && Rd() == ReadToken(old(D()), src, dicBufSize).value.0.rd
      ensures ok && len < FINISHED ==>
                && old(dicPos) < dicPos && (len == 0 || dicPos == limit)
                && dicPos - old(dicPos) == |hist| - |old(hist)|
                && Lazily(d0, src, dicBufSize, n + (|hist| - |old(hist)|), D().(rem := len))
      ensures ok && len >= FINISHED ==>
                hist == old(hist) && dicPos == old(dicPos) && AtMarker(d0, src, dicBufSize, n, D())
    {
      hide ReadToken, Lazily, CountOk, DictOk, DecodeN, Next, Settle, ReaderOk;
      len := 0;
      ghost var d := D();
      var t := TokenDecode();
      if t.None? {
        FailTurn(d0, src, dicBufSize, n, d);
        return false, 0;
      }
      ghost var d1 := D();
      match t.value {
        case LitToken(b) =>
          LitTurn(d0, src, dicBufSize, n, d, d1, b);
          PutByte(b);
        case CopyToken(l) =>
          if limit == dicPos {
            CopyNotEnd(d0, src, dicBufSize, n, d);
            return false, 0;
          }
          var curLen := if limit - dicPos < l then limit - dicPos else l;
          CopyTurn(d0, src, dicBufSize, n, d, d1, l, curLen);
          CopyBytes(curLen);
          len := l - curLen;
        case EndToken =>
          EndTurn(d0, src, dicBufSize, n, d, d1);
          len := FINISHED;
      }
      ok := true;
    }

    /** NORMALIZE after the loop. */
    method Normalize() returns (ok: bool)
      requires StateOk(D(), dicBufSize) && ReaderOk(Rd())
      modifies `range, `code, `buf
      ensures ok ==> EndOf(Rd().rc) == buf == EndOf(old(Rd().rc))
      ensures ok == Settle(old(D()), src, dicBufSize).Some?
      ensures ok ==> Some(D()) == Settle(old(D()), src, dicBufSize)
    {
      if range < TOP {
        if buf >= |src| { return false; }
        range, code, buf := range * 256, (code * 256 + src[buf]) % TWO32, buf + 1;
      }
      ok := true;
    }

    /** The main loop: symbols until limit or bufLimit is reached or the end marker is read. */
    method Turns(limit: nat, bufLimit: nat, ghost avail: nat) returns (ok: bool, len: nat)
      requires Valid() && remainLen == 0 && dicPos <= limit <= dicBufSize && (dicPos < limit || ExpectsMatch())
      modifies `range, `code, `buf, `state, `reps, `dicPos, `processedPos, `hist, probs, dic
      ensures !ok ==> FailsBefore(old(D()), src, dicBufSize, limit - old(dicPos))
      ensures old(dicPos) == limit ==> DictOk() && hist == old(hist) && dicPos == limit
      ensures ok ==> DictOk() && CountOk() && probs.Length == NUM_PROBS && old(dicPos) <= dicPos <= limit
      ensures ok ==> |hist| - |old(hist)| == dicPos - old(dicPos)
      ensures ok ==> Underway(old(D()), Rd().rc, src, dicBufSize, bufLimit, avail)
      ensures ok && len < FINISHED ==>
                && Lazily(old(D()), src, dicBufSize, |hist| - |old(hist)|, D().(rem := len))
                && (len == 0 || dicPos == limit) && (dicPos == limit || buf >= bufLimit) && old(dicPos) < dicPos
      ensures ok && len >= FINISHED ==>
                && AtMarker(old(D()), src, dicBufSize, |hist| - |old(hist)|, D())
                && (dicPos < limit || old(dicPos) == limit)
    {
      hide ReadToken, DictOk, CountOk, DecodeN, Next, Settle, AtMarker, Underway;
      ghost var d0, h0, p0, begun := D(), |hist|, dicPos, false;
      StartLazily(d0, src, dicBufSize);
      while true
        invariant SymbolPre() && p0 <= dicPos <= limit && |hist| - h0 == dicPos - p0
        invariant dicPos < limit || (p0 == limit && ExpectsMatch())
        invariant Lazily(d0, src, dicBufSize, |hist| - h0, D())
        invariant if begun then buf < bufLimit && Underway(d0, Rd().rc, src, dicBufSize, bufLimit, avail) else D() == d0
        invariant begun ==> dicPos < limit
        decreases limit - dicPos
      {
        ghost var n, d := |hist| - h0, D();
        ok, len := Turn(limit, d0, n);
        if ok {
          TurnEnds(d0, d, src, dicBufSize, bufLimit, avail, begun);
          begun := true;
        }
        if !ok {
          if p0 < limit { FailureSticks(d0, src, dicBufSize, n + 1, limit - p0); }
          return;
        }
        if len >= FINISHED || dicPos >= limit || buf >= bufLimit { break; }
      }
    }

    /** LzmaDec_DecodeReal: the main loop and the shift it leaves pending. Whenever it reports
        success, the state is the one the byte-by-byte decoder reaches after as many bytes as
        were written. */
    method DecodeReal(limit: nat, bufLimit: nat, ghost avail: nat) returns (ok: bool)
      requires Valid() && remainLen == 0 && dicPos <= limit <= dicBufSize && (dicPos < limit || ExpectsMatch())
      modifies `range, `code, `buf, `state, `reps, `dicPos, `processedPos, `hist, `remainLen, probs, dic
      ensures !ok ==> FailsBefore(old(D()), src, dicBufSize, limit - old(dicPos))
      ensures old(dicPos) == limit ==> DictOk() && hist == old(hist) && dicPos == limit
      ensures ok ==> DictOk() && CountOk() && DecOk(D(), dicBufSize) && old(dicPos) <= dicPos <= limit
      ensures ok ==> Underway(old(D()), Rd().rc, src, dicBufSize, bufLimit, avail) && EndOf(Rd().rc) == buf
      ensures ok ==> |hist| - |old(hist)| == dicPos - old(dicPos)
      ensures ok && remainLen < FINISHED ==>
                && DecodeN(old(D()), src, dicBufSize, |hist| - |old(hist)|) == More(D())
                && (remainLen == 0 || dicPos == limit) && (dicPos == limit || buf >= bufLimit) && old(dicPos) < dicPos
      ensures ok && remainLen >= FINISHED ==>
                var p := DecodeN(old(D()), src, dicBufSize, |hist| - |old(hist)|);
                p.More? && Next(p.d, src, dicBufSize) == Finished(D())
    {
      hide ReadToken, DictOk, CountOk, DecodeN, Next, Settle, Guard;
      ghost var d0, h0, p0 := D(), |hist|, dicPos;
      var len;
      ok, len := Turns(limit, bufLimit, avail);
      if !ok { return; }
      remainLen := len;
      ghost var n := |hist| - h0;
      ok := Normalize();
      if !ok {
        if len >= FINISHED {
          LastFails(d0, src, dicBufSize, n);
          if p0 < limit { FailureSticks(d0, src, dicBufSize, n + 1, limit - p0); }
        } else {
          FailureSticks(d0, src, dicBufSize, n, limit - p0);
        }
      }
    }

    /** Before a whole dictionary was written the limit is cut at its end, which it never passes. */
    method FirstRoundLimit(limit: nat) returns (limit2: int)
      requires DictOk() && CountOk() && FlagOk() && dicPos <= limit <= dicBufSize
      ensures limit2 == limit
    {
      limit2 := limit;
      if checkDicSize == 0 {
        var rem := dicBufSize - processedPos;
        if limit - dicPos > rem { limit2 := dicPos + rem; }
      }
    }

    /** Once a whole dictionary was written, distances are checked against its size. */
    method RaiseCheck()
      requires DictOk() && CountOk()
      modifies `checkDicSize
      ensures DictOk() && CountOk() && FlagOk()
    {
      if processedPos >= dicBufSize { checkDicSize := dicBufSize; }
    }

    /** One turn of LzmaDec_DecodeReal2. */
    method Round(limit: nat, bufLimit: nat, ghost avail: nat) returns (ok: bool)
      requires Valid() && remainLen == 0 && dicPos <= limit <= dicBufSize && (dicPos < limit || ExpectsMatch())
      modifies this, probs, dic
      ensures !ok ==> FailsBefore(old(D()), src, dicBufSize, limit - old(dicPos))
      ensures old(dicPos) == limit ==> DictOk() && hist == old(hist) && dicPos == limit
      ensures ok ==> Valid() && old(dicPos) <= dicPos <= limit && |hist| - |old(hist)| == dicPos - old(dicPos)
      ensures ok ==> Underway(old(D()), Rd().rc, src, dicBufSize, bufLimit, avail) && EndOf(Rd().rc) == buf
      ensures ok && remainLen < FINISHED ==>
                && DecodeN(old(D()), src, dicBufSize, |hist| - |old(hist)|) == More(D())
                && (remainLen == 0 || dicPos == limit) && old(dicPos) < dicPos
      ensures ok && remainLen >= FINISHED ==>
                var p := DecodeN(old(D()), src, dicBufSize, |hist| - |old(hist)|);
                p.More? && Next(p.d, src, dicBufSize) == Finished(D())
    {
      hide ReadToken, DecodeN, Next, DecOk, StateOk, DictOk, CountOk, FlagOk;
      ghost var d0, h0 := D(), |hist|;
      var limit2 := FirstRoundLimit(limit);
      ok := DecodeReal(limit2, bufLimit, avail);
      if !ok { return; }
      RaiseCheck();
      ghost var n := |hist| - h0;
      WriteRem(limit);
      if remainLen < FINISHED { DecodeSum(d0, src, dicBufSize, n, |hist| - h0 - n); }
    }

    /** LzmaDec_DecodeReal2: alternates LzmaDec_DecodeReal and LzmaDec_WriteRem. Whatever limits
        it is called with, its successful calls walk the byte-by-byte decoder. */
    method DecodeReal2(limit: nat, bufLimit: nat, ghost avail: nat) returns (ok: bool)
      requires Valid() && remainLen == 0 && dicPos <= limit <= dicBufSize && (dicPos < limit || ExpectsMatch())
      modifies this, probs, dic
      ensures !ok ==> FailsBefore(old(D()), src, dicBufSize, limit - old(dicPos))
      ensures old(dicPos) == limit ==> DictOk() && hist == old(hist) && dicPos == limit
      ensures ok ==> Valid() && old(dicPos) <= dicPos <= limit && |hist| - |old(hist)| == dicPos - old(dicPos)
      ensures ok ==> Underway(old(D()), Rd().rc, src, dicBufSize, bufLimit, avail) && EndOf(Rd().rc) == buf
      ensures ok && remainLen < FINISHED ==>
                && DecodeN(old(D()), src, dicBufSize, |hist| - |old(hist)|) == More(D())
                && (remainLen == 0 || dicPos == limit) && (dicPos == limit || buf >= bufLimit) && old(dicPos) < dicPos
      ensures ok && remainLen >= FINISHED ==>
                && remainLen == FINISHED
                && var p := DecodeN(old(D()), src, dicBufSize, |hist| - |old(hist)|);
                   p.More? && Next(p.d, src, dicBufSize) == Finished(D())
    {
      hide ReadToken, DecodeN, Next, ReaderOk, DictOk, CountOk, FlagOk, Underway;
      ghost var d0, h0, p0, begun := D(), |hist|, dicPos, false;
      DecodeZero(d0, src, dicBufSize);
      while true
        invariant Valid() && remainLen == 0 && p0 <= dicPos <= limit && |hist| - h0 == dicPos - p0
        invariant dicPos < limit || (p0 == limit && ExpectsMatch())
        invariant DecodeN(d0, src, dicBufSize, |hist| - h0) == More(D())
        invariant if begun then buf < bufLimit && Underway(d0, Rd().rc, src, dicBufSize, bufLimit, avail) else D() == d0
        invariant begun ==> dicPos < limit
        decreases limit - dicPos
      {
        ghost var n, d := |hist| - h0, D();
        DecodeSum(d0, src, dicBufSize, n, limit - dicPos);
        ok := Round(limit, bufLimit, avail);
        if !ok { return; }
        RoundEnds(d0, d, Rd().rc, src, dicBufSize, bufLimit, avail, begun);
        begun := true;
        DecodeSum(d0, src, dicBufSize, n, |hist| - h0 - n);
        if dicPos >= limit || buf >= bufLimit || remainLen >= FINISHED { break; }
      }
      if remainLen > FINISHED { remainLen := FINISHED; }
    }

    /** The first lines of LzmaDec_DecodeToBuf: a full dictionary is filled again from its start. */
    method WrapIfFull()
      requires Valid()
      modifies `dicPos, `lap
      ensures Valid() && D() == old(D()) && dicPos == if old(dicPos) == dicBufSize then 0 else old(dicPos)
    {
      if dicPos == dicBufSize {
        lap := lap + dicBufSize;
        dicPos := 0;
      }
    }

    /** LzmaDec_Init and LzmaDec_InitRc, for a stream whose first byte is 0. */
    constructor (s: seq<byte>, dictSize: nat)
      requires |s| >= 5 && s[0] == 0 && 1 <= dictSize < TWO32
      ensures Valid() && src == s && dicBufSize == dictSize && remainLen == 0 && dicPos == 0
      ensures InitDec(s) == Some(D()) && fresh(probs) && fresh(dic)
      ensures probs.Length == 1846 + 768 * 8 && forall i :: 0 <= i < probs.Length ==> probs[i] == 1024
    {
      src, dicBufSize := s, dictSize;
      range, code, buf := 0xFFFF_FFFF, Num(s[1..5]), 5;
      probs := new Prob[NUM_PROBS](_ => PROB_INIT);
      dic := new byte[dictSize];
      dicPos, processedPos, checkDicSize, remainLen := 0, 0, 0, 0;
      state, reps := 0, Reps(1, 1, 1, 1);
      hist, lap := [], 0;
      new;
      assert probs[..] == seq(NUM_PROBS, _ => PROB_INIT);
    }
  }

  lemma DecodeZero(d: LzDec, s: seq<byte>, dictSize: nat)
    requires DecOk(d, dictSize)
    ensures DecodeN(d, s, dictSize, 0) == More(d)
  {
  }

  /** For a compressed input and any sequence of calls, with any limits: a decoder whose state is
      on track stays on track over a successful call, and what it has written is the input so far. */
  lemma CallOnTrack(d0: LzDec, s: seq<byte>, data: seq<byte>, dictSize: nat, n: nat)
    requires DecOk(d0, dictSize) && OnTrack(d0, s, data, dictSize) && DecodeN(d0, s, dictSize, n).More?
    ensures var d := DecodeN(d0, s, dictSize, n).d;
            && |d0.hist| + n <= |data| && OnTrack(d, s, data, dictSize) && d.hist == data[..|d0.hist| + n]
            && (Next(d, s, dictSize).Finished? ==> d.hist == data)
            && !Next(d, s, dictSize).Failed?
  {
    hide OnTrack, Next, DecOk;
    NextOnTrack(d0, s, data, dictSize);
    var room := |data| - |d0.hist|;
    if n > room {
      DecodeNOnTrack(d0, s, data, dictSize, room);
      NextOnTrack(DecodeN(d0, s, dictSize, room).d, s, data, dictSize);
      DecodeStops(d0, s, dictSize, room + 1, n);
      assert false;
    }
    DecodeNOnTrack(d0, s, data, dictSize, n);
    NextOnTrack(DecodeN(d0, s, dictSize, n).d, s, data, dictSize);
  }

  lemma {:induction false} DecodeStops(d: LzDec, s: seq<byte>, dictSize: nat, m: nat, n: nat)
    requires DecOk(d, dictSize) && m <= n && DecodeN(d, s, dictSize, n).More?
    ensures DecodeN(d, s, dictSize, m).More?
  {
    hide DecOk, Next;
    if m < n { DecodeStops(d, s, dictSize, m, n - 1); }
  }

  /** ... and such a call never reports failure, whatever room it is given, as long as it has room
      for a byte or the input is complete. */
  lemma NeverFails(d0: LzDec, s: seq<byte>, data: seq<byte>, dictSize: nat, k: nat)
    requires DecOk(d0, dictSize) && OnTrack(d0, s, data, dictSize) && (k > 0 || d0.hist == data)
    ensures !FailsBefore(d0, s, dictSize, k)
  {
    hide OnTrack, Next, DecOk;
    NextOnTrack(d0, s, data, dictSize);
    var room := |data| - |d0.hist|;
    DecodeZero(d0, s, dictSize);
    if k > 0 {
      if k <= room {
        DecodeNOnTrack(d0, s, data, dictSize, k);
      } else {
        DecodeNOnTrack(d0, s, data, dictSize, room);
        NextOnTrack(DecodeN(d0, s, dictSize, room).d, s, data, dictSize);
        FinishSticks(d0, s, dictSize, room + 1, k);
      }
    }
  }

  lemma {:induction false} FinishSticks(d: LzDec, s: seq<byte>, dictSize: nat, m: nat, n: nat)
    requires DecOk(d, dictSize) && m <= n && DecodeN(d, s, dictSize, m).Finished?
    ensures DecodeN(d, s, dictSize, n).Finished?
  {
    hide DecOk, Next;
    if m < n { FinishSticks(d, s, dictSize, m, n - 1); }
  }
}
