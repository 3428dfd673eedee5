/** Bit trees, literals, lengths and distances: the steps the encoder takes for a symbol, the
    loop by which the decoder reads it, and the proof that the loop returns the symbol. */
module SymbolCoders {
  import opened Options
  import opened Bytes
  import opened Bits
  import opened RangeCoder
  import opened Contexts
  import opened Symbols

  // ---------------------------------------------------------------- bit trees

  /** Bits n-1 .. 0 of sym, most significant first, each in the context of the bits before it;
      m is 1 followed by those earlier bits. */
  function TreeFrom(t: Table, off: nat, m: nat, n: nat, sym: nat): seq<Step>
    decreases n
  {
    if n == 0 then [] else
      var b := BitAt(sym, n - 1);
      [Model(Ctx(t, off + m), b)] + TreeFrom(t, off, 2 * m + b, n - 1, sym)
  }

  function TreeSteps(t: Table, off: nat, n: nat, sym: nat): seq<Step> { TreeFrom(t, off, 1, n, sym) }

  /** TREE_DECODE */
  function ReadTree(r: Reader, s: seq<byte>, base: nat, limit: nat, i: nat): (res: Option<(nat, Reader)>)
    requires i >= 1 && base + limit <= |r.probs|
    ensures res.Some? && ReaderOk(r) ==> ReaderOk(res.value.1)
    ensures res.Some? ==> |res.value.1.probs| == |r.probs|
    ensures res.Some? && i < 2 * limit ==> res.value.0 < limit
    decreases limit - i
  {
    if i >= limit then Some((i - limit, r)) else
      var (b, r1) :- ReadBit(r, s, base + i);
      ReadTree(r1, s, base, limit, 2 * i + b)
  }

  lemma TreeUnfold(t: Table, off: nat, m: nat, n: nat, sym: nat, rest: seq<Step>)
    ensures n == 0 ==> TreeFrom(t, off, m, n, sym) + rest == rest
    ensures n > 0 ==>
              var b := BitAt(sym, n - 1);
              TreeFrom(t, off, m, n, sym) + rest
              == [Model(Ctx(t, off + m), b)] + (TreeFrom(t, off, 2 * m + b, n - 1, sym) + rest)
  {
    if n == 0 { assert [] + rest == rest; }
  }

  /** From any depth of the tree: k bits are read, n remain. */
  lemma {:induction false} ReadTreeFrom(r: Reader, s: seq<byte>, t: Table, off: nat, k: nat, n: nat,
                                        sym: nat, rest: seq<Step>)
    requires off + Pow2(k + n) <= Size(t) && Shr(sym, n) < Pow2(k)
    requires |r.probs| == NUM_PROBS && Base(t) + off + Pow2(k + n) <= NUM_PROBS
    requires Ready(r, s, TreeFrom(t, off, Pow2(k) + Shr(sym, n), n, sym) + rest)
    ensures var res := ReadTree(r, s, Base(t) + off, Pow2(k + n), Pow2(k) + Shr(sym, n));
            res.Some? && res.value.0 == sym && Ready(res.value.1, s, rest)
    decreases n
  {
    hide Ready, ReadBit, Base, Size, TreeFrom, BitAt, Shr, Pow2;
    var m := Pow2(k) + Shr(sym, n);
    TreeUnfold(t, off, m, n, sym, rest);
    if n == 0 {
      BaseCases(sym);
    } else {
      var b := BitAt(sym, n - 1);
      ShrStep(sym, n);
      Pow2Next(k);
      Pow2Mono(k + 1, k + n);
      ReadModel(r, s, Ctx(t, off + m), b, TreeFrom(t, off, 2 * m + b, n - 1, sym) + rest);
      var r1 := ReadBit(r, s, Base(t) + off + m).value.1;
      ReadTreeFrom(r1, s, t, off, k + 1, n - 1, sym, rest);
    }
  }

  /** Bit tree round trip, for every table, depth and symbol. */
  lemma ReadTreeOk(r: Reader, s: seq<byte>, t: Table, off: nat, n: nat, sym: nat, rest: seq<Step>)
    requires sym < Pow2(n) && off + Pow2(n) <= Size(t)
    requires |r.probs| == NUM_PROBS && Base(t) + off + Pow2(n) <= NUM_PROBS
    requires Ready(r, s, TreeSteps(t, off, n, sym) + rest)
    ensures var res := ReadTree(r, s, Base(t) + off, Pow2(n), 1);
            res.Some? && res.value.0 == sym && Ready(res.value.1, s, rest)
  {
    hide Ready, ReadBit, Base, Size;
    ShrSmall(sym, n);
    ReadTreeFrom(r, s, t, off, 0, n, sym, rest);
  }

  // ---------------------------------------------------------------- reversed bit trees

  /** Bits k, k+1, .. of sym, least significant first. */
  function ReverseFrom(t: Table, off: int, m: nat, k: nat, n: nat, sym: nat): seq<Step>
    requires k <= n && m >= 1 && off >= -1
    decreases n - k
  {
    if k == n then [] else
      var b := BitAt(sym, k);
      [Model(Ctx(t, off + m), b)] + ReverseFrom(t, off, 2 * m + b, k + 1, n, sym)
  }

  function ReverseSteps(t: Table, off: int, n: nat, sym: nat): seq<Step>
    requires off >= -1
  {
    ReverseFrom(t, off, 1, 0, n, sym)
  }

  /** The decoder's loop that sets bit k of `distance` for each 1 read. */
  function ReadReverse(r: Reader, s: seq<byte>, base: nat, i: nat, k: nat, n: nat, distance: nat)
    : (res: Option<(nat, Reader)>)
    requires k <= n && i < Pow2(k + 1) && base + Pow2(n) <= |r.probs|
    ensures res.Some? && ReaderOk(r) ==> ReaderOk(res.value.1)
    ensures res.Some? ==> |res.value.1.probs| == |r.probs|
    decreases n - k
  {
    if k == n then Some((distance, r)) else
      Pow2Mono(k + 1, n);
      var (b, r1) :- ReadBit(r, s, base + i);
      ReadReverse(r1, s, base, 2 * i + b, k + 1, n, if b == 1 then SetBit(distance, k) else distance)
  }

  /** Bits k .. n-1 of x, in place. */
  function BitSum(x: nat, k: nat, n: nat): nat
    requires k <= n
    decreases n - k
  {
    if k == n then 0 else BitAt(x, k) * Pow2(k) + BitSum(x, k + 1, n)
  }

  lemma {:induction false} BitSumShift(x: nat, k: nat, n: nat)
    requires k <= n
    ensures BitSum(x, k + 1, n + 1) == 2 * BitSum(x / 2, k, n)
    decreases n - k
  {
    if k < n { BitSumShift(x, k + 1, n); }
  }

  lemma {:induction false} BitSumAll(x: nat, n: nat)
    requires x < Pow2(n)
    ensures BitSum(x, 0, n) == x
  {
    if n > 0 {
      BitSumAll(x / 2, n - 1);
      BitSumShift(x, 0, n - 1);
    }
  }

  lemma {:induction false} ReadReverseFrom(r: Reader, s: seq<byte>, t: Table, off: int, i: nat, k: nat, n: nat,
                                           sym: nat, distance: nat, rest: seq<Step>)
    requires k <= n && Pow2(k) <= i < Pow2(k + 1)
    requires off >= -1 && off + Pow2(n) <= Size(t)
    requires |r.probs| == NUM_PROBS && 0 <= Base(t) + off && Base(t) + off + Pow2(n) <= NUM_PROBS
    requires forall j :: k <= j < n ==> BitAt(distance, j) == 0
    requires Ready(r, s, ReverseFrom(t, off, i, k, n, sym) + rest)
    ensures var res := ReadReverse(r, s, Base(t) + off, i, k, n, distance);
            res.Some? && res.value.0 == distance + BitSum(sym, k, n) && Ready(res.value.1, s, rest)
    decreases n - k
  {
    hide Ready, ReadBit, Base, Size;
    if k == n {
      assert [] + rest == rest;
    } else {
      var b := BitAt(sym, k);
      Pow2Mono(k + 1, n);
      var rest' := ReverseFrom(t, off, 2 * i + b, k + 1, n, sym) + rest;
      assert ReverseFrom(t, off, i, k, n, sym) + rest == [Model(Ctx(t, off + i), b)] + rest';
      ReadModel(r, s, Ctx(t, off + i), b, rest');
      var r1 := ReadBit(r, s, Base(t) + off + i).value.1;
      var distance' := if b == 1 then SetBit(distance, k) else distance;
      assert distance' == distance + b * Pow2(k);
      forall j | k + 1 <= j < n ensures BitAt(distance', j) == 0 {
        if b == 1 { AddBit(distance, k, j); }
      }
      ReadReverseFrom(r1, s, t, off, 2 * i + b, k + 1, n, sym, distance', rest);
    }
  }

  /** Reversed bit tree round trip: the symbol is added to whatever the high bits were. */
  lemma ReadReverseOk(r: Reader, s: seq<byte>, t: Table, off: int, n: nat, sym: nat, distance: nat, rest: seq<Step>)
    requires sym < Pow2(n) && off >= -1 && off + Pow2(n) <= Size(t)
    requires |r.probs| == NUM_PROBS && 0 <= Base(t) + off && Base(t) + off + Pow2(n) <= NUM_PROBS
    requires forall j :: 0 <= j < n ==> BitAt(distance, j) == 0
    requires Ready(r, s, ReverseSteps(t, off, n, sym) + rest)
    ensures var res := ReadReverse(r, s, Base(t) + off, 1, 0, n, distance);
            res.Some? && res.value.0 == distance + sym && Ready(res.value.1, s, rest)
  {
    hide Ready, ReadBit, Base, Size;
    BitSumAll(sym, n);
    ReadReverseFrom(r, s, t, off, 1, 0, n, sym, distance, rest);
  }

  // ---------------------------------------------------------------- direct bits

  /** Bits n-1 .. 0 of value, most significant first, without a context. */
  function DirectSteps(value: nat, n: nat): seq<Step> {
    if n == 0 then [] else [Direct(BitAt(value, n - 1))] + DirectSteps(value, n - 1)
  }

  function ReadDirects(r: Reader, s: seq<byte>, n: nat, distance: nat): (res: Option<(nat, Reader)>)
    ensures res.Some? && ReaderOk(r) ==> ReaderOk(res.value.1)
    ensures res.Some? ==> res.value.1.probs == r.probs
    decreases n
  {
    if n == 0 then Some((distance, r)) else
      var (b, r1) :- ReadDirect(r, s);
      ReadDirects(r1, s, n - 1, 2 * distance + b)
  }

  /** hi shifted up by n bits, plus the low n bits of value. */
  function Glue(hi: nat, value: nat, n: nat): nat
    decreases n
  {
    if n == 0 then hi else Glue(2 * hi + BitAt(value, n - 1), value, n - 1)
  }

  lemma {:induction false} GlueIs(hi: nat, value: nat, n: nat)
    ensures Glue(hi + Shr(value, n), value, n) == Shl(hi, n) + value
    decreases n
  {
    if n > 0 {
      ShrStep(value, n);
      GlueIs(2 * hi, value, n - 1);
    }
  }

  lemma {:induction false} ReadDirectsOk(r: Reader, s: seq<byte>, value: nat, n: nat, distance: nat, rest: seq<Step>)
    requires Ready(r, s, DirectSteps(value, n) + rest)
    ensures var res := ReadDirects(r, s, n, distance);
            res.Some? && res.value.0 == Glue(distance, value, n) && Ready(res.value.1, s, rest)
    decreases n
  {
    hide Ready, ReadBit, ReadDirect;
    if n == 0 {
      assert [] + rest == rest;
    } else {
      var b := BitAt(value, n - 1);
      assert DirectSteps(value, n) + rest == [Direct(b)] + (DirectSteps(value, n - 1) + rest);
      ReadRaw(r, s, b, DirectSteps(value, n - 1) + rest);
      ReadDirectsOk(ReadDirect(r, s).value.1, s, value, n - 1, 2 * distance + b, rest);
    }
  }

  // ---------------------------------------------------------------- literals

  /** A literal next to a match: as long as the bits agree with those of the byte that the last
      distance predicts, that byte's next bit selects one of two further context sets. */
  function MatchedFrom(off: nat, m: nat, n: nat, sym: nat, predicted: nat, same: bool): seq<Step>
    decreases n
  {
    if n == 0 then [] else
      var b, p := BitAt(sym, n - 1), BitAt(predicted, n - 1);
      var offs := if same then 0x100 + 0x100 * p else 0;
      [Model(Ctx(Literal, off + offs + m), b)]
      + MatchedFrom(off, 2 * m + b, n - 1, sym, predicted, same && b == p)
  }

  lemma MatchedUnfold(off: nat, m: nat, n: nat, sym: nat, predicted: nat, same: bool, rest: seq<Step>)
    requires n > 0
    ensures var b, p := BitAt(sym, n - 1), BitAt(predicted, n - 1);
            var ctx := Ctx(Literal, off + (if same then 0x100 + 0x100 * p else 0) + m);
            MatchedFrom(off, m, n, sym, predicted, same) + rest
            == [Model(ctx, b)] + (MatchedFrom(off, 2 * m + b, n - 1, sym, predicted, same && b == p) + rest)
  {
  }

  function LiteralSteps(row: nat, sym: nat, predicted: Option<nat>): seq<Step> {
    if predicted.None? then TreeSteps(Literal, row * LIT_SIZE, 8, sym)
    else MatchedFrom(row * LIT_SIZE, 1, 8, sym, predicted.value, true)
  }

  /** The decoder's matched-literal loop; `offs` is 0x100 or 0. */
  function ReadMatched(r: Reader, s: seq<byte>, base: nat, offs: nat, matchByte: nat, symbol: nat)
    : (res: Option<(nat, Reader)>)
    requires symbol >= 1 && (offs == 0 || offs == 0x100) && base + LIT_SIZE <= |r.probs|
    ensures res.Some? && ReaderOk(r) ==> ReaderOk(res.value.1)
    ensures res.Some? ==> |res.value.1.probs| == |r.probs|
    ensures res.Some? && symbol < 0x200 ==> 0x100 <= res.value.0 < 0x200
    decreases 0x100 - symbol
  {
    if symbol >= 0x100 then Some((symbol, r)) else
      AndMask(2 * matchByte, offs);
      var bit := And(2 * matchByte, offs);
      var (b, r1) :- ReadBit(r, s, base + offs + bit + symbol);
      AndNotMask(offs, bit); AndMask(offs, bit);
      ReadMatched(r1, s, base, if b == 0 then AndNot(offs, bit) else And(offs, bit), 2 * matchByte, 2 * symbol + b)
  }

  lemma AndMask(x: nat, offs: nat)
    requires offs == 0 || offs == 0x100
    ensures And(x, offs) == if BitAt(x, 8) == 1 then offs else 0
  {
    if offs != 0 {
      assert Pow2(8) == 0x100;
      AndPow2(x, 8);
    }
  }

  lemma AndNotMask(offs: nat, y: nat)
    requires offs == 0 || offs == 0x100
    ensures AndNot(offs, y) == if BitAt(y, 8) == 1 then 0 else offs
  {
    assert Pow2(8) == 0x100;
    AndNotPow2(8, y);
  }

  lemma Bit8Values()
    ensures BitAt(0x100, 8) == 1 && BitAt(0, 8) == 0
  {
    BitAtZero(8);
    AndPow2(0x100, 8);
    assert Pow2(8) == 0x100;
    BitAtShl(1, 8, 8);
    assert Shl(1, 8) == 0x100;
  }

  lemma BaseCases(x: nat)
    ensures Pow2(0) == 1 && Shl(x, 0) == x && Shr(x, 0) == x
  {
  }

  /** The decoder's masks track whether all bits so far agreed with the predicted byte. */
  lemma MatchedMask(predicted: nat, k: nat, same: bool, b: bit)
    requires k < 8
    ensures var p, mb, offs := BitAt(predicted, 7 - k), Shl(predicted, k + 1), if same then 0x100 else 0;
            && mb == 2 * Shl(predicted, k)
            && And(mb, offs) == (if same then 0x100 * p else 0)
            && (if b == 0 then AndNot(offs, And(mb, offs)) else And(offs, And(mb, offs)))
               == (if same && b == p then 0x100 else 0)
  {
    hide And, AndNot, Shl;
    var mb, offs := Shl(predicted, k + 1), if same then 0x100 else 0;
    ShlLast(predicted, k);
    BitAtShl(predicted, k + 1, 8);
    AndMask(mb, offs);
    Bit8Values();
    AndNotMask(offs, And(mb, offs));
    AndMask(offs, And(mb, offs));
  }

  /** One turn of the matched-literal loop. */
  lemma ReadMatchedTurn(r: Reader, s: seq<byte>, base: nat, predicted: nat, k: nat, same: bool, symbol: nat)
    requires k < 8 && 1 <= symbol < 0x100 && base + LIT_SIZE <= |r.probs|
    ensures var p := BitAt(predicted, 7 - k);
            var bit := ReadBit(r, s, base + (if same then 0x100 + 0x100 * p else 0) + symbol);
            bit.Some? ==>
              ReadMatched(r, s, base, if same then 0x100 else 0, Shl(predicted, k), symbol) ==
              ReadMatched(bit.value.1, s, base, if same && bit.value.0 == p then 0x100 else 0,
                          Shl(predicted, k + 1), 2 * symbol + bit.value.0)
  {
    hide ReadBit, And, AndNot, Shl;
    MatchedMask(predicted, k, same, 0);
    MatchedMask(predicted, k, same, 1);
  }

  /** The loop's result and the steps still expected, after k bits; matchByte is shifted k times. */
  ghost predicate MatchedAt(r: Reader, s: seq<byte>, off: nat, k: nat, sym: nat, predicted: nat, same: bool,
                            rest: seq<Step>)
    requires k <= 8
  {
    && off + LIT_SIZE <= Size(Literal) && Shr(sym, 8 - k) < Pow2(k) && |r.probs| == NUM_PROBS
    && Ready(r, s, MatchedFrom(off, Pow2(k) + Shr(sym, 8 - k), 8 - k, sym, predicted, same) + rest)
  }

  function MatchedLoop(r: Reader, s: seq<byte>, off: nat, k: nat, sym: nat, predicted: nat, same: bool)
    : Option<(nat, Reader)>
    requires k <= 8 && off + LIT_SIZE <= Size(Literal) && |r.probs| == NUM_PROBS
  {
    ReadMatched(r, s, LITERAL + off, if same then 0x100 else 0, Shl(predicted, k), Pow2(k) + Shr(sym, 8 - k))
  }

  lemma MatchedStep(r: Reader, s: seq<byte>, off: nat, k: nat, sym: nat, predicted: nat, same: bool,
                    rest: seq<Step>) returns (r1: Reader, same1: bool)
    requires k < 8 && MatchedAt(r, s, off, k, sym, predicted, same, rest)
    ensures MatchedAt(r1, s, off, k + 1, sym, predicted, same1, rest)
    ensures MatchedLoop(r, s, off, k, sym, predicted, same) == MatchedLoop(r1, s, off, k + 1, sym, predicted, same1)
  {
    hide Ready, ReadBit, ReadMatched, MatchedFrom, BitAt, Shr, Shl, Pow2;
    var m, n := Pow2(k) + Shr(sym, 8 - k), 8 - k;
    var b, p := BitAt(sym, n - 1), BitAt(predicted, n - 1);
    var ctx := Ctx(Literal, off + (if same then 0x100 + 0x100 * p else 0) + m);
    MatchedUnfold(off, m, n, sym, predicted, same, rest);
    ReadModel(r, s, ctx, b, MatchedFrom(off, 2 * m + b, n - 1, sym, predicted, same && b == p) + rest);
    ShrStep(sym, n);
    Pow2Values();
    Pow2Next(k);
    Pow2Mono(k + 1, 8);
    ReadMatchedTurn(r, s, LITERAL + off, predicted, k, same, m);
    r1, same1 := ReadBit(r, s, Index(ctx)).value.1, same && b == p;
  }

  lemma {:induction false} ReadMatchedFrom(r: Reader, s: seq<byte>, off: nat, k: nat, sym: nat, predicted: nat,
                                           same: bool, rest: seq<Step>)
    requires k <= 8 && MatchedAt(r, s, off, k, sym, predicted, same, rest)
    ensures var res := MatchedLoop(r, s, off, k, sym, predicted, same);
            res.Some? && res.value.0 == 0x100 + sym && Ready(res.value.1, s, rest)
    decreases 8 - k
  {
    hide Ready, ReadMatched, MatchedFrom, Shr, Shl, Pow2;
    if k == 8 {
      MatchedDone(r, s, LITERAL + off, if same then 0x100 else 0, sym, off, predicted, same, rest);
    } else {
      var r1, same1 := MatchedStep(r, s, off, k, sym, predicted, same, rest);
      ReadMatchedFrom(r1, s, off, k + 1, sym, predicted, same1, rest);
    }
  }

  lemma MatchedDone(r: Reader, s: seq<byte>, base: nat, offs: nat, sym: nat, off: nat, predicted: nat, same: bool,
                    rest: seq<Step>)
    requires (offs == 0 || offs == 0x100) && base + LIT_SIZE <= |r.probs|
    ensures Pow2(8) + Shr(sym, 0) == 0x100 + sym
    ensures MatchedFrom(off, 0x100 + sym, 0, sym, predicted, same) + rest == rest
    ensures ReadMatched(r, s, base, offs, Shl(predicted, 8), 0x100 + sym) == Some((0x100 + sym, r))
  {
    Pow2Values();
    assert [] + rest == rest;
  }

  function ReadLiteral(r: Reader, s: seq<byte>, row: nat, predicted: Option<byte>): (res: Option<(byte, Reader)>)
    requires row < LIT_ROWS && |r.probs| == NUM_PROBS
    ensures res.Some? && ReaderOk(r) ==> ReaderOk(res.value.1)
    ensures res.Some? ==> |res.value.1.probs| == NUM_PROBS
  {
    if predicted.None? then
      var (sym, r1) :- ReadTree(r, s, LITERAL + row * LIT_SIZE, 0x100, 1);
      Some((sym, r1))
    else
      var (symbol, r1) :- ReadMatched(r, s, LITERAL + row * LIT_SIZE, 0x100, predicted.value, 1);
      Some((symbol % 0x100, r1))
  }

  /** Literal round trip, plain and matched. */
  lemma ReadLiteralOk(r: Reader, s: seq<byte>, row: nat, sym: byte, predicted: Option<byte>, rest: seq<Step>)
    requires row < LIT_ROWS && |r.probs| == NUM_PROBS
    requires Ready(r, s, LiteralSteps(row, sym, predicted) + rest)
    ensures var res := ReadLiteral(r, s, row, predicted);
            res.Some? && res.value.0 == sym && Ready(res.value.1, s, rest)
  {
    hide Ready, ReadTree, ReadMatched, MatchedFrom, TreeFrom, Pow2;
    Pow2Values();
    if predicted.None? {
      ReadTreeOk(r, s, Literal, row * LIT_SIZE, 8, sym, rest);
    } else {
      ShrSmall(sym, 8);
      BaseCases(predicted.value);
      ReadMatchedFrom(r, s, row * LIT_SIZE, 0, sym, predicted.value, true, rest);
    }
  }

  // ---------------------------------------------------------------- lengths

  /** A length, minus the minimum 2, in one of three ranges. */
  function LenSteps(rep: bool, sym: nat, posState: nat): seq<Step> {
    if sym < 8 then
      [Model(Ctx(LenChoice(rep), 0), 0)] + TreeSteps(LenLow(rep), posState * 8, 3, sym)
    else if sym < 16 then
      [Model(Ctx(LenChoice(rep), 0), 1)] +
      ([Model(Ctx(LenChoice(rep), 1), 0)] + TreeSteps(LenMid(rep), posState * 8, 3, sym - 8))
    else
      [Model(Ctx(LenChoice(rep), 0), 1)] +
      ([Model(Ctx(LenChoice(rep), 1), 1)] + TreeSteps(LenHigh(rep), 0, 8, sym - 16))
  }

  function ReadLen(r: Reader, s: seq<byte>, rep: bool, posState: nat): (res: Option<(nat, Reader)>)
    requires posState < POS_STATES_MAX && |r.probs| == NUM_PROBS
    ensures res.Some? && ReaderOk(r) ==> ReaderOk(res.value.1)
    ensures res.Some? ==> res.value.0 < 272 && |res.value.1.probs| == NUM_PROBS
  {
    var prob := LenBase(rep);
    var (b, r1) :- ReadBit(r, s, prob);
    if b == 0 then
      ReadTree(r1, s, prob + LEN_LOW + posState * 8, 8, 1)
    else
      var (b2, r2) :- ReadBit(r1, s, prob + LEN_CHOICE2);
      if b2 == 0 then
        var (len, r3) :- ReadTree(r2, s, prob + LEN_MID + posState * 8, 8, 1);
        Some((len + 8, r3))
      else
        var (len, r3) :- ReadTree(r2, s, prob + LEN_HIGH, 256, 1);
        Some((len + 16, r3))
  }

  /** Lengths of the first range: one choice bit, then three bits by position state. */
  lemma ReadLowLen(r: Reader, s: seq<byte>, rep: bool, sym: nat, posState: nat, rest: seq<Step>)
    requires sym < 8 && posState < POS_STATES_MAX && |r.probs| == NUM_PROBS
    requires Ready(r, s, LenSteps(rep, sym, posState) + rest)
    ensures var res := ReadLen(r, s, rep, posState);
            res.Some? && res.value.0 == sym && Ready(res.value.1, s, rest)
  {
    hide Ready, ReadBit, ReadTree, TreeFrom, TreeSteps, Pow2;
    var c, tree := Ctx(LenChoice(rep), 0), TreeSteps(LenLow(rep), posState * 8, 3, sym);
    Pow2Values();
    Behind(Model(c, 0), tree, rest);
    ReadModel(r, s, c, 0, tree + rest);
    ReadTreeOk(ReadBit(r, s, Index(c)).value.1, s, LenLow(rep), posState * 8, 3, sym, rest);
  }

  /** The second range: two choice bits, then three bits by position state. */
  lemma ReadMidLen(r: Reader, s: seq<byte>, rep: bool, sym: nat, posState: nat, rest: seq<Step>)
    requires 8 <= sym < 16 && posState < POS_STATES_MAX && |r.probs| == NUM_PROBS
    requires Ready(r, s, LenSteps(rep, sym, posState) + rest)
    ensures var res := ReadLen(r, s, rep, posState);
            res.Some? && res.value.0 == sym && Ready(res.value.1, s, rest)
  {
    hide Ready, ReadBit, ReadTree, TreeFrom, TreeSteps, Pow2;
    var c, c2, tree := Ctx(LenChoice(rep), 0), Ctx(LenChoice(rep), 1), TreeSteps(LenMid(rep), posState * 8, 3, sym - 8);
    Pow2Values();
    BehindTwo(Model(c, 1), Model(c2, 0), tree, rest);
    ReadModel(r, s, c, 1, [Model(c2, 0)] + (tree + rest));
    var r1 := ReadBit(r, s, Index(c)).value.1;
    ReadModel(r1, s, c2, 0, tree + rest);
    ReadTreeOk(ReadBit(r1, s, Index(c2)).value.1, s, LenMid(rep), posState * 8, 3, sym - 8, rest);
  }

  /** The third range: two choice bits, then eight bits for all position states. */
  lemma ReadHighLen(r: Reader, s: seq<byte>, rep: bool, sym: nat, posState: nat, rest: seq<Step>)
    requires 16 <= sym < 272 && posState < POS_STATES_MAX && |r.probs| == NUM_PROBS
    requires Ready(r, s, LenSteps(rep, sym, posState) + rest)
    ensures var res := ReadLen(r, s, rep, posState);
            res.Some? && res.value.0 == sym && Ready(res.value.1, s, rest)
  {
    hide Ready, ReadBit, ReadTree, TreeFrom, TreeSteps, Pow2;
    var c, c2, tree := Ctx(LenChoice(rep), 0), Ctx(LenChoice(rep), 1), TreeSteps(LenHigh(rep), 0, 8, sym - 16);
    Pow2Values();
    BehindTwo(Model(c, 1), Model(c2, 1), tree, rest);
    ReadModel(r, s, c, 1, [Model(c2, 1)] + (tree + rest));
    var r1 := ReadBit(r, s, Index(c)).value.1;
    ReadModel(r1, s, c2, 1, tree + rest);
    ReadTreeOk(ReadBit(r1, s, Index(c2)).value.1, s, LenHigh(rep), 0, 8, sym - 16, rest);
  }

  lemma Behind(a: Step, tree: seq<Step>, rest: seq<Step>)
    ensures ([a] + tree) + rest == [a] + (tree + rest)
  {
  }

  lemma BehindTwo(a: Step, b: Step, tree: seq<Step>, rest: seq<Step>)
    ensures ([a] + ([b] + tree)) + rest == [a] + ([b] + (tree + rest))
  {
  }

  /** Length round trip over all three ranges. */
  lemma ReadLenOk(r: Reader, s: seq<byte>, rep: bool, sym: nat, posState: nat, rest: seq<Step>)
    requires sym < 272 && posState < POS_STATES_MAX && |r.probs| == NUM_PROBS
    requires Ready(r, s, LenSteps(rep, sym, posState) + rest)
    ensures var res := ReadLen(r, s, rep, posState);
            res.Some? && res.value.0 == sym && Ready(res.value.1, s, rest)
  {
    hide Ready, LenSteps, ReadLen;
    if sym < 8 {
      ReadLowLen(r, s, rep, sym, posState, rest);
    } else if sym < 16 {
      ReadMidLen(r, s, rep, sym, posState, rest);
    } else {
      ReadHighLen(r, s, rep, sym, posState, rest);
    }
  }
}
