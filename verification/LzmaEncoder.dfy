/** The encoder as the source runs it: registers, probabilities, state and distances updated in
    place. `steps` records what has been coded; Valid() ties every register to it. */
module LzmaEncoder {
  import opened Options
  import opened Bytes
  import opened Bits
  import opened RangeCoder
  import opened Contexts
  import opened Symbols
  import opened SymbolCoders
  import opened PosSlots
  import opened Lz
  import opened LzRoundTrip
  import opened EmptyStream

  lemma RunSnoc(steps: seq<Step>, st: Step)
    ensures Run(CODER_INIT, steps + [st]) == Apply(Run(CODER_INIT, steps), st)
  {
    RunAppend(CODER_INIT, steps, [st]);
    var c := Run(CODER_INIT, steps);
    assert [st][1..] == [];
    assert Run(c, [st]) == Run(Apply(c, st), []);
  }

  /** `symbol` holds 1 and the byte, shifted left k times: what the source's loops read off it. */
  lemma Register(sym: nat, k: nat)
    requires sym < 0x100 && k <= 8
    ensures var x := Shl(0x100 + sym, k);
            && Shr(x, 8) == Pow2(k) + Shr(sym, 8 - k)
            && (k < 8 ==> BitAt(x, 7) == BitAt(sym, 7 - k) && Shl(0x100 + sym, k + 1) == 2 * x)
            && (k > 0 ==> BitAt(x, 8) == BitAt(sym, 8 - k))
            && (x < 0x1_0000 <==> k < 8)
  {
    hide BitAt, Shr;
    ShrOfShl(0x100 + sym, k, 8);
    Pow2Values();
    HighBit(sym, 8 - k, 8);
    BitAtShl(0x100 + sym, k, 7);
    BitAtShl(0x100 + sym, k, 8);
    if k < 8 { LowBits(sym, 7 - k, 8); ShlLast(0x100 + sym, k); }
    if k > 0 { LowBits(sym, 8 - k, 8); }
    RegisterRange(0x100 + sym, k);
  }

  lemma RegisterRange(x: nat, k: nat)
    requires 0x100 <= x < 0x200 && k <= 8
    ensures Shl(x, k) < 0x1_0000 <==> k < 8
  {
    assert k in {0, 1, 2, 3, 4, 5, 6, 7, 8};
  }

  lemma {:induction false} ShrOfShl(x: nat, k: nat, n: nat)
    requires k <= n
    ensures Shr(Shl(x, k), n) == Shr(x, n - k)
    decreases k
  {
    if k > 0 {
      ShrOfShl(2 * x, k - 1, n);
      assert 2 * x / 2 == x;
    }
  }

  lemma {:induction false} HighBit(x: nat, n: nat, w: nat)
    requires n <= w
    ensures Shr(x + Pow2(w), n) == Shr(x, n) + Pow2(w - n)
  {
    if n > 0 {
      var p := Pow2(w - 1);
      assert (x + 2 * p) / 2 == x / 2 + p;
      HighBit(x / 2, n - 1, w - 1);
    }
  }

  lemma {:induction false} LowBits(x: nat, j: nat, w: nat)
    requires j < w
    ensures BitAt(x + Pow2(w), j) == BitAt(x, j)
  {
    var p := Pow2(w - 1);
    assert (x + 2 * p) / 2 == x / 2 + p && (x + 2 * p) % 2 == x % 2;
    if j > 0 { LowBits(x / 2, j - 1, w - 1); }
  }

  class Encoder {
    // CRangeEnc
    var low: nat
    var range: nat
    var cacheSize: nat
    var cache: byte
    var out: seq<byte>
    // CLzmaEnc
    var probs: map<Ctx, Prob>
    var state: nat
    var reps: Reps
    var nowPos: nat
    const fastPos: array<nat>
    ghost var steps: seq<Step>

    ghost function Rc(): Enc
      reads `low, `range, `cacheSize, `cache, `out
    {
      Enc(low, range, cacheSize, cache, out)
    }

    ghost predicate Valid()
      reads `low, `range, `cacheSize, `cache, `out, `probs, `steps, fastPos
    {
      && Coder(Rc(), probs) == Run(CODER_INIT, steps)
      && fastPos.Length == 2048 && forall c :: 0 <= c < 2048 ==> fastPos[c] == SlotOf(c)
    }

    /** RangeEnc_Init and the initialisation of LzmaEnc_Init. */
    constructor ()
      ensures Valid() && fresh(fastPos) && steps == []
      ensures state == LZ_INIT.state && reps == LZ_INIT.reps && nowPos == LZ_INIT.pos
    {
      low, range, cacheSize, cache, out := 0, 0xFFFF_FFFF, 1, 0, [];
      probs := map[];
      state, reps, nowPos := 0, Reps(0, 0, 0, 0), 0;
      steps := [];
      fastPos := new nat[2048];
      new;
      FastPosInit(fastPos);
    }

    /** RangeEnc_ShiftLow */
    method ShiftLow()
      requires cacheSize >= 1
      modifies this`low, this`cacheSize, this`cache, this`out
      ensures Rc() == RangeCoder.ShiftLow(old(Rc()))
    {
      var carry := low / TWO32 % 256;
      if low % TWO32 < 0xFF00_0000 || low / TWO32 != 0 {
        var temp: byte := cache;
        ghost var n := 0;
        while true
          invariant cacheSize == old(cacheSize) - n && cacheSize >= 1
          invariant temp == if n == 0 then cache else 255
          invariant low == old(low) && cache == old(cache)
          invariant out == old(out) + (if n == 0 then [] else [(cache + carry) % 256] + Repeat((255 + carry) % 256, n - 1))
          decreases cacheSize
        {
          out := out + [(temp + carry) % 256];
          temp := 0xFF;
          cacheSize := cacheSize - 1;
          n := n + 1;
          if cacheSize == 0 { break; }
        }
        cache := low % TWO32 / TOP;
      }
      cacheSize := cacheSize + 1;
      low := low % TOP * 256;
    }

    /** RangeEnc_EncodeBit */
    method EncodeBit(ctx: Ctx, symbol: bit)
      requires Valid()
      modifies this`low, this`range, this`cacheSize, this`cache, this`out, this`probs, this`steps
      ensures Valid() && steps == old(steps) + [Model(ctx, symbol)]
      // one probability moves towards the bit; before the first, a 0 and a 1 share the range evenly
      ensures ctx in probs && probs == old(probs)[ctx := probs[ctx]]
      ensures Moves(if ctx in old(probs) then old(probs)[ctx] else 1024, probs[ctx], symbol)
      ensures ctx !in old(probs) ==>
                exists w: nat :: Half(w, old(range)) && range == if w < TOP then w * 256 else w
    {
      hide Run, RangeCoder.ShiftLow, Bound, SlotOf, Moves, Half;
      EvenBound(range);
      RunSnoc(steps, Model(ctx, symbol));
      var ttt: Prob := if ctx in probs then probs[ctx] else PROB_INIT;
      AdaptMoves(ttt, Adapt(ttt, symbol), symbol);
      var newBound := Bound(range, ttt);
      if symbol == 0 {
        range := newBound;
        ttt := ttt + (MODEL_TOTAL - ttt) / 32;
      } else {
        low := low + newBound;
        range := range - newBound;
        ttt := ttt - ttt / 32;
      }
      probs := probs[ctx := ttt];
      ghost var w := range;
      assert ctx !in old(probs) ==> Half(w, old(range));
      if range < TOP {
        range := range * 256;
        ShiftLow();
      }
      steps := steps + [Model(ctx, symbol)];
    }

    /** RangeEnc_EncodeDirectBits */
    method EncodeDirectBits(value: nat, numBits: nat)
      requires Valid() && numBits >= 1
      modifies this`low, this`range, this`cacheSize, this`cache, this`out, this`steps
      ensures Valid() && steps == old(steps) + DirectSteps(value, numBits)
    {
      hide Run, RangeCoder.ShiftLow, Bound, SlotOf, BitAt, DirectSteps;
      var n := numBits;
      while n != 0
        invariant Valid() && n <= numBits
        invariant steps + DirectSteps(value, n) == old(steps) + DirectSteps(value, numBits)
      {
        n := n - 1;
        var b: bit := BitAt(value, n);
        RunSnoc(steps, Direct(b));
        range := range / 2;
        if b == 1 { low := low + range; }
        if range < TOP {
          range := range * 256;
          ShiftLow();
        }
        DirectTurn(steps, value, n);
        steps := steps + [Direct(b)];
      }
      DirectDone(steps, value);
    }

    /** RangeEnc_FlushData: the stream is complete. */
    method FlushData()
      requires Valid()
      modifies this`low, this`cacheSize, this`cache, this`out
      ensures out == StreamOf(steps)
    {
      hide RangeCoder.ShiftLow, Run;
      var i := 0;
      ghost var before := Rc();
      while i < 5
        invariant 0 <= i <= 5 && Rc() == Shifted(before, i)
      {
        ShiftLow();
        i := i + 1;
      }
    }

    /** RcTree_Encode */
    method TreeEncode(t: Table, off: nat, numBitLevels: nat, symbol: nat)
      requires Valid()
      modifies this`low, this`range, this`cacheSize, this`cache, this`out, this`probs, this`steps
      ensures Valid() && steps == old(steps) + TreeSteps(t, off, numBitLevels, symbol)
    {
      hide Valid, BitAt, TreeFrom;
      var m: nat, i: nat := 1, numBitLevels;
      while i != 0
        invariant Valid() && i <= numBitLevels
        invariant steps + TreeFrom(t, off, m, i, symbol) == old(steps) + TreeSteps(t, off, numBitLevels, symbol)
      {
        i := i - 1;
        var b: bit := BitAt(symbol, i);
        TreeTurn(steps, t, off, m, i, symbol);
        EncodeBit(Ctx(t, off + m), b);
        m := 2 * m + b;
      }
      TreeDone(steps, t, off, m, symbol);
    }

    /** RcTree_ReverseEncode */
    method ReverseEncode(t: Table, off: int, numBitLevels: nat, symbol: nat)
      requires Valid() && off >= -1
      modifies this`low, this`range, this`cacheSize, this`cache, this`out, this`probs, this`steps
      ensures Valid() && steps == old(steps) + ReverseSteps(t, off, numBitLevels, symbol)
    {
      hide Valid, BitAt, Shr, ReverseFrom;
      BaseCases(symbol);
      var m: nat, i: nat, sym: nat := 1, 0, symbol;
      while i < numBitLevels
        invariant Valid() && i <= numBitLevels && m >= 1 && sym == Shr(symbol, i)
        invariant steps + ReverseFrom(t, off, m, i, numBitLevels, symbol) == old(steps) + ReverseSteps(t, off, numBitLevels, symbol)
      {
        HalfBit(symbol, i);
        var b: bit := sym % 2;
        ReverseTurn(steps, t, off, m, i, numBitLevels, symbol);
        EncodeBit(Ctx(t, off + m), b);
        m := 2 * m + b;
        sym := sym / 2;
        i := i + 1;
      }
      ReverseDone(steps, t, off, m, i, symbol);
    }

    /** LitEnc_Encode */
    method LitEncode(row: nat, sym: byte)
      requires Valid()
      modifies this`low, this`range, this`cacheSize, this`cache, this`out, this`probs, this`steps
      ensures Valid() && steps == old(steps) + LiteralSteps(row, sym, None)
    {
      hide Valid, Shl, Shr, BitAt, Pow2, TreeFrom;
      var off := row * LIT_SIZE;
      var symbol := sym + 0x100;
      ghost var k := 0;
      BaseCases(symbol);
      ShrSmall8(sym);
      while true
        invariant Valid() && k < 8 && symbol == Shl(0x100 + sym, k)
        invariant steps + TreeFrom(Literal, off, Pow2(k) + Shr(sym, 8 - k), 8 - k, sym)
               == old(steps) + LiteralSteps(row, sym, None)
        decreases 8 - k
      {
        Register(sym, k);
        Register(sym, k + 1);
        var m, b: bit := Shr(symbol, 8), BitAt(symbol, 7);
        NextPrefix(sym, k);
        TreeTurn(steps, Literal, off, m, 7 - k, sym);
        EncodeBit(Ctx(Literal, off + m), b);
        symbol := symbol * 2;
        k := k + 1;
        if symbol >= 0x1_0000 { break; }
      }
      TreeDone(steps, Literal, off, Pow2(8) + Shr(sym, 0), sym);
    }

    /** LitEnc_EncodeMatched */
    method LitEncodeMatched(row: nat, sym: byte, predicted: byte)
      requires Valid()
      modifies this`low, this`range, this`cacheSize, this`cache, this`out, this`probs, this`steps
      ensures Valid() && steps == old(steps) + LiteralSteps(row, sym, Some(predicted))
    {
      hide Valid, Shl, Shr, BitAt, Pow2, MatchedFrom, And, AndNot, Xor;
      var off := row * LIT_SIZE;
      var offs, symbol, matchByte := 0x100, sym + 0x100, predicted as nat;
      ghost var k := 0;
      BaseCases(symbol); BaseCases(matchByte);
      ShrSmall8(sym);
      while true
        invariant Valid() && k < 8 && symbol == Shl(0x100 + sym, k) && matchByte == Shl(predicted, k)
        invariant offs == 0 || offs == 0x100
        invariant steps + MatchedFrom(off, Pow2(k) + Shr(sym, 8 - k), 8 - k, sym, predicted, offs == 0x100)
               == old(steps) + LiteralSteps(row, sym, Some(predicted))
        decreases 8 - k
      {
        Register(sym, k);
        Register(sym, k + 1);
        var m, b: bit := Shr(symbol, 8), BitAt(symbol, 7);
        NextPrefix(sym, k);
        MatchedMask(predicted, k, offs == 0x100, b);
        matchByte := matchByte * 2;
        MatchedTurn(steps, off, m, 7 - k, sym, predicted, offs == 0x100);
        EncodeBit(Ctx(Literal, off + (offs + And(matchByte, offs) + m)), b);
        symbol := symbol * 2;
        KeepMask(offs, matchByte, symbol);
        BitAtShl(predicted, k + 1, 8);
        offs := AndNot(offs, Xor(matchByte, symbol));
        k := k + 1;
        if symbol >= 0x1_0000 { break; }
      }
      MatchedFinished(steps, off, Pow2(8) + Shr(sym, 0), sym, predicted, offs == 0x100);
    }

    /** LenEnc_Encode */
    method LenEncode(rep: bool, symbol: nat, posState: nat)
      requires Valid()
      modifies this`low, this`range, this`cacheSize, this`cache, this`out, this`probs, this`steps
      ensures Valid() && steps == old(steps) + LenSteps(rep, symbol, posState)
    {
      hide Valid, TreeSteps;
      ghost var before := steps;
      if symbol < 8 {
        EncodeBit(Ctx(LenChoice(rep), 0), 0);
        TreeEncode(LenLow(rep), posState * 8, 3, symbol);
        Regroup2(before, [Model(Ctx(LenChoice(rep), 0), 0)], TreeSteps(LenLow(rep), posState * 8, 3, symbol));
      } else {
        EncodeBit(Ctx(LenChoice(rep), 0), 1);
        if symbol < 16 {
          EncodeBit(Ctx(LenChoice(rep), 1), 0);
          TreeEncode(LenMid(rep), posState * 8, 3, symbol - 8);
          Regroup3(before, [Model(Ctx(LenChoice(rep), 0), 1)], [Model(Ctx(LenChoice(rep), 1), 0)],
                   TreeSteps(LenMid(rep), posState * 8, 3, symbol - 8));
        } else {
          EncodeBit(Ctx(LenChoice(rep), 1), 1);
          TreeEncode(LenHigh(rep), 0, 8, symbol - 16);
          Regroup3(before, [Model(Ctx(LenChoice(rep), 0), 1)], [Model(Ctx(LenChoice(rep), 1), 1)],
                   TreeSteps(LenHigh(rep), 0, 8, symbol - 16));
        }
      }
    }

    /** The distance part of LzmaEnc_CodeOneBlock. */
    method DistEncode(dist: nat, lenState: nat)
      requires Valid() && dist < Pow2(27)
      modifies this`low, this`range, this`cacheSize, this`cache, this`out, this`probs, this`steps
      ensures Valid() && steps == old(steps) + DistSteps(dist, lenState)
    {
      hide SlotOf, TreeSteps, ReverseSteps, DirectSteps, Shl, Pow2, Run;
      var posSlot := GetPosSlot(fastPos, dist);
      TreeEncode(PosSlot, lenState * 64, 6, posSlot);
      if posSlot >= START_POS_MODEL {
        var footerBits := posSlot / 2 - 1;
        var base := Shl(2 + posSlot % 2, footerBits);
        var posReduced := dist - base;
        if posSlot < END_POS_MODEL {
          SpecPosFits(posSlot);
          ReverseEncode(SpecPos, base - posSlot - 1, footerBits, posReduced);
        } else {
          EncodeDirectBits(posReduced / 16, footerBits - 4);
          ReverseEncode(Align, 0, 4, posReduced % 16);
        }
      }
      assert steps == old(steps) + DistSteps(dist, lenState);
    }

    ghost function Z(): LzEnc reads `state, `reps, `nowPos { LzEnc(state, reps, nowPos) }

    method RepFlags(op: Op, posState: nat)
      requires Valid() && (op.ShortRep? || op.Rep?)
      modifies this`low, this`range, this`cacheSize, this`cache, this`out, this`probs, this`steps
      ensures Valid() && steps == old(steps) + RepSelect(state, posState, op)
    {
      hide Valid;
      if op.ShortRep? || op.index == 0 {
        EncodeBit(Ctx(IsRepG0, state), 0);
        EncodeBit(Ctx(IsRep0Long, state * 16 + posState), if op.ShortRep? then 0 else 1);
      } else {
        EncodeBit(Ctx(IsRepG0, state), 1);
        if op.index == 1 {
          EncodeBit(Ctx(IsRepG1, state), 0);
        } else {
          EncodeBit(Ctx(IsRepG1, state), 1);
          EncodeBit(Ctx(IsRepG2, state), if op.index == 2 then 0 else 1);
        }
      }
      assert steps == old(steps) + RepSelect(state, posState, op);
    }

    /** LzmaEnc_CodeOneBlock on a literal. */
    method CodeLit(data: seq<byte>, dictSize: nat)
      requires Valid() && LzOk(data, Z()) && ValidOp(data, Z(), Lit, dictSize)
      modifies this
      ensures Valid() && steps == old(steps) + OpSteps(data, old(Z()), Lit, dictSize)
      ensures Z() == After(old(Z()), Lit)
    {
      hide Valid, LiteralSteps, LitRow;
      ghost var before := steps;
      var row := if nowPos == 0 then 0 else data[nowPos - 1] / 32;
      RowIs(data, nowPos);
      EncodeBit(Ctx(IsMatch, state * 16 + nowPos % 4), 0);
      if state < 7 {
        LitEncode(row, data[nowPos]);
        Regroup2(before, [Flag(IsMatch, state * 16 + nowPos % 4, 0)], LiteralSteps(row, data[nowPos], None));
      } else {
        var matchByte := data[nowPos - reps.r0 - 1];
        LitEncodeMatched(row, data[nowPos], matchByte);
        Regroup2(before, [Flag(IsMatch, state * 16 + nowPos % 4, 0)], LiteralSteps(row, data[nowPos], Some(matchByte)));
      }
      state := LITERAL_NEXT[state];
      nowPos := nowPos + 1;
    }

    /** The distance used again becomes the latest one. */
    method BringForward(index: nat)
      requires index < 4
      modifies `reps
      ensures reps == old(reps).Front(index)
    {
      var distance := reps.Nth(index);
      if index == 3 { reps := reps.(r3 := reps.r2); }
      if index >= 2 { reps := reps.(r2 := reps.r1); }
      if index >= 1 { reps := reps.(r1 := reps.r0, r0 := distance); }
    }

    /** ... on a short repeat or a repeated distance. */
    method CodeRep(data: seq<byte>, op: Op, dictSize: nat)
      requires Valid() && LzOk(data, Z()) && (op.ShortRep? || op.Rep?) && ValidOp(data, Z(), op, dictSize)
      modifies this
      ensures Valid() && steps == old(steps) + OpSteps(data, old(Z()), op, dictSize)
      ensures Z() == After(old(Z()), op)
    {
      hide Valid, LenSteps, RepSelect, Repeats;
      var posState := nowPos % 4;
      ghost var before, st := steps, state;
      EncodeBit(Ctx(IsMatch, state * 16 + posState), 1);
      EncodeBit(Ctx(IsRep, state), 1);
      RepFlags(op, posState);
      if op.ShortRep? {
        state := SHORT_REP_NEXT[state];
        nowPos := nowPos + 1;
        Regroup3(before, [Flag(IsMatch, st * 16 + posState, 1)], [Flag(IsRep, st, 1)], RepSelect(st, posState, op));
      } else {
        BringForward(op.index);
        LenEncode(true, op.len - 2, posState);
        state := REP_NEXT[state];
        nowPos := nowPos + op.len;
        Regroup4(before, [Flag(IsMatch, st * 16 + posState, 1)], [Flag(IsRep, st, 1)], RepSelect(st, posState, op),
                 LenSteps(true, op.len - 2, posState));
      }
    }

    /** ... on a match. */
    method CodeMatch(data: seq<byte>, dist: nat, len: nat, dictSize: nat)
      requires Valid() && LzOk(data, Z()) && ValidOp(data, Z(), Match(dist, len), dictSize)
      modifies this
      ensures Valid() && steps == old(steps) + OpSteps(data, old(Z()), Match(dist, len), dictSize)
      ensures Z() == After(old(Z()), Match(dist, len))
    {
      hide Valid, LenSteps, DistSteps, Repeats, Pow2;
      var posState := nowPos % 4;
      ghost var before, st := steps, state;
      EncodeBit(Ctx(IsMatch, state * 16 + posState), 1);
      EncodeBit(Ctx(IsRep, state), 0);
      state := MATCH_NEXT[state];
      LenEncode(false, len - 2, posState);
      DistEncode(dist, LenState(len));
      reps := Reps(dist, reps.r0, reps.r1, reps.r2);
      nowPos := nowPos + len;
      Regroup4(before, [Flag(IsMatch, st * 16 + posState, 1)], [Flag(IsRep, st, 0)], LenSteps(false, len - 2, posState),
               DistSteps(dist, LenState(len)));
    }

    /** LZe_full_flush: the end marker, then the flush that completes the stream. */
    method CodeEnd()
      requires Valid() && state < 12
      modifies this
      ensures steps == old(steps) + EndSteps(old(Z())) && out == StreamOf(steps)
    {
      CodeMarker();
      FlushData();
    }

    /** The end marker: a match of the least length at distance 2^32 - 1. */
    method CodeMarker()
      requires Valid() && state < 12
      modifies this
      ensures Valid() && steps == old(steps) + EndSteps(old(Z()))
    {
      hide Valid, LenSteps, DistSteps, TreeSteps, DirectSteps, ReverseSteps, Pow2;
      var posState := nowPos % 4;
      ghost var before, st := steps, state;
      EncodeBit(Ctx(IsMatch, state * 16 + posState), 1);
      EncodeBit(Ctx(IsRep, state), 0);
      state := MATCH_NEXT[state];
      LenEncode(false, 0, posState);
      ghost var len := steps;
      TreeEncode(PosSlot, 0, 6, 63);
      LargePow2Values();
      EncodeDirectBits(0x3FFF_FFFF / 16, 26);
      ReverseEncode(Align, 0, 4, 15);
      EndMarkerSteps();
      Regroup3(len, TreeSteps(PosSlot, 0, 6, 63), DirectSteps(0x3FFF_FFFF / 16, 26), ReverseSteps(Align, 0, 4, 15));
      Regroup4(before, [Flag(IsMatch, st * 16 + posState, 1)], [Flag(IsRep, st, 0)], LenSteps(false, 0, posState),
               DistSteps(END_MARKER, 0));
    }

    /** LzmaEnc_Encode: codes a parse of data, operation by operation, and finishes the stream. */
    method Encode(data: seq<byte>, ops: seq<Op>, dictSize: nat)
      requires Valid() && steps == [] && Z() == LZ_INIT && ValidParse(data, LZ_INIT, ops, dictSize)
      modifies this
      ensures out == Compress(data, ops, dictSize)
      ensures data == [] ==> out == [0x00, 0x83, 0xFF, 0xFB, 0xFF, 0xFF, 0xC0, 0x00, 0x00, 0x00]
    {
      hide Valid, OpSteps, EndSteps, StreamOf, ValidOp, Repeats, Pow2;
      var i := 0;
      assert ops[0..] == ops;
      while i < |ops|
        invariant 0 <= i <= |ops| && Valid()
        invariant LzOk(data, Z()) && ValidParse(data, Z(), ops[i..], dictSize)
        invariant steps + ParseSteps(data, Z(), ops[i..], dictSize) == ParseSteps(data, LZ_INIT, ops, dictSize)
      {
        ghost var z, before := Z(), steps;
        assert ops[i..][0] == ops[i] && ops[i..][1..] == ops[i + 1..];
        AfterOk(data, z, ops[i], dictSize);
        CodeOp(data, ops[i], dictSize);
        Regroup2(before, OpSteps(data, z, ops[i], dictSize), ParseSteps(data, Z(), ops[i + 1..], dictSize));
        i := i + 1;
      }
      CodeEnd();
      if data == [] {
        NothingToCode(LZ_INIT, ops, dictSize);
        StreamOfNothing(dictSize);
      }
    }

    /** One turn of the loop of LzmaEnc_CodeOneBlock. */
    method CodeOp(data: seq<byte>, op: Op, dictSize: nat)
      requires Valid() && LzOk(data, Z()) && ValidOp(data, Z(), op, dictSize)
      modifies this
      ensures Valid() && steps == old(steps) + OpSteps(data, old(Z()), op, dictSize)
      ensures Z() == After(old(Z()), op)
    {
      hide Valid, OpSteps, ValidOp, After;
      match op
      case Lit => CodeLit(data, dictSize);
      case ShortRep => CodeRep(data, op, dictSize);
      case Rep(_, _) => CodeRep(data, op, dictSize);
      case Match(dist, len) => CodeMatch(data, dist, len, dictSize);
    }
  }

  lemma Regroup2(a: seq<Step>, b: seq<Step>, c: seq<Step>)
    ensures (a + b) + c == a + (b + c)
  {
  }

  lemma Regroup3(a: seq<Step>, b: seq<Step>, c: seq<Step>, d: seq<Step>)
    ensures ((a + b) + c) + d == a + (b + (c + d))
  {
  }

  lemma Regroup4(a: seq<Step>, b: seq<Step>, c: seq<Step>, d: seq<Step>, e: seq<Step>)
    ensures (((a + b) + c) + d) + e == a + (b + (c + (d + e)))
  {
  }

  lemma RowIs(data: seq<byte>, pos: nat)
    requires pos <= |data|
    ensures LitRow(data[..pos]) == if pos == 0 then 0 else data[pos - 1] / 32
  {
  }

  lemma TreeTurn(done: seq<Step>, t: Table, off: nat, m: nat, n: nat, sym: nat)
    ensures var b := BitAt(sym, n);
            done + TreeFrom(t, off, m, n + 1, sym)
            == (done + [Model(Ctx(t, off + m), b)]) + TreeFrom(t, off, 2 * m + b, n, sym)
  {
    hide BitAt;
  }

  lemma TreeDone(done: seq<Step>, t: Table, off: nat, m: nat, sym: nat)
    ensures done + TreeFrom(t, off, m, 0, sym) == done
  {
  }

  lemma ReverseTurn(done: seq<Step>, t: Table, off: int, m: nat, k: nat, n: nat, sym: nat)
    requires k < n && m >= 1 && off >= -1
    ensures var b := BitAt(sym, k);
            done + ReverseFrom(t, off, m, k, n, sym)
            == (done + [Model(Ctx(t, off + m), b)]) + ReverseFrom(t, off, 2 * m + b, k + 1, n, sym)
  {
    hide BitAt;
  }

  lemma ReverseDone(done: seq<Step>, t: Table, off: int, m: nat, n: nat, sym: nat)
    requires m >= 1 && off >= -1
    ensures done + ReverseFrom(t, off, m, n, n, sym) == done
  {
  }

  lemma DirectTurn(done: seq<Step>, value: nat, n: nat)
    ensures done + DirectSteps(value, n + 1) == (done + [Direct(BitAt(value, n))]) + DirectSteps(value, n)
  {
    hide BitAt;
  }

  lemma DirectDone(done: seq<Step>, value: nat)
    ensures done + DirectSteps(value, 0) == done
  {
  }

  lemma MatchedTurn(done: seq<Step>, off: nat, m: nat, n: nat, sym: nat, predicted: nat, same: bool)
    ensures var b, p := BitAt(sym, n), BitAt(predicted, n);
            done + MatchedFrom(off, m, n + 1, sym, predicted, same)
            == (done + [Model(Ctx(Literal, off + (if same then 0x100 + 0x100 * p else 0) + m), b)])
             + MatchedFrom(off, 2 * m + b, n, sym, predicted, same && b == p)
  {
    hide BitAt;
  }

  lemma MatchedFinished(done: seq<Step>, off: nat, m: nat, sym: nat, predicted: nat, same: bool)
    ensures done + MatchedFrom(off, m, 0, sym, predicted, same) == done
  {
  }

  /** offs &= ~(matchByte ^ symbol) keeps 0x100 exactly while the two bits 8 agree. */
  lemma KeepMask(offs: nat, x: nat, y: nat)
    requires offs == 0 || offs == 0x100
    ensures AndNot(offs, Xor(x, y)) == if BitAt(x, 8) == BitAt(y, 8) then offs else 0
  {
    AndNotMask(offs, Xor(x, y));
    XorBit(x, y, 8);
  }

  lemma HalfBit(x: nat, n: nat)
    ensures Shr(x, n) % 2 == BitAt(x, n) && Shr(x, n + 1) == Shr(x, n) / 2
  {
    ShrStep(x, n + 1);
  }

  lemma ShrSmall8(sym: nat)
    requires sym < 0x100
    ensures Shr(sym, 8) == 0
  {
    Pow2Values();
    ShrSmall(sym, 8);
  }

  lemma NextPrefix(sym: nat, k: nat)
    requires k < 8
    ensures Pow2(k + 1) + Shr(sym, 7 - k) == 2 * (Pow2(k) + Shr(sym, 8 - k)) + BitAt(sym, 7 - k)
  {
    ShrStep(sym, 8 - k);
  }
}
