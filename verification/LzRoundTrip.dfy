/** Compressing any valid parse of any input and decoding the bytes gives the input back. */
module LzRoundTrip {
  import opened Options
  import opened Bytes
  import opened Bits
  import opened RangeCoder
  import opened Contexts
  import opened Symbols
  import opened SymbolCoders
  import opened PosSlots
  import opened Lz

  // ---------------------------------------------------------------- one operation

  /** Decoder and encoder agree: same state, distances one apart, history equal to the input. */
  ghost predicate Agrees(d: LzDec, z: LzEnc, data: seq<byte>) {
    z.pos <= |data| && d.state == z.state && d.reps == z.reps.PlusOne() && d.hist == data[..z.pos]
  }

  ghost predicate SymbolIs(res: Option<(LzDec, Token)>, d: LzDec, s: seq<byte>, z': LzEnc, token: Token, rest: seq<Step>) {
    && res.Some? && res.value.1 == token
    && res.value.0.state == z'.state && res.value.0.reps == z'.reps.PlusOne()
    && Ready(res.value.0.rd, s, rest)
  }

  /** What follows the two leading flags of a literal. */
  lemma LitSymbol(d: LzDec, s: seq<byte>, rd: Reader, data: seq<byte>, z: LzEnc, dictSize: nat, rest: seq<Step>)
    requires StateOk(d, dictSize) && |rd.probs| == NUM_PROBS && LzOk(data, z) && z.pos < |data| && Agrees(d, z, data)
    requires var predicted := if z.state < 7 then None else Some(data[z.pos - z.reps.r0 - 1]);
             Ready(rd, s, LiteralSteps(LitRow(data[..z.pos]), data[z.pos], predicted) + rest)
    ensures SymbolIs(ReadLitSymbol(d, s, rd, dictSize), d, s, After(z, Lit), LitToken(data[z.pos]), rest)
  {
    hide Ready, LiteralSteps, ReadLiteral;
    var predicted := if z.state < 7 then None else Some(data[z.pos - z.reps.r0 - 1]);
    ReadLiteralOk(rd, s, LitRow(data[..z.pos]), data[z.pos], predicted, rest);
    LiteralStates(z.state);
  }

  /** The decoder's arithmetic on states is the encoder's table. */
  lemma LiteralStates(state: nat)
    requires state < 12
    ensures LITERAL_NEXT[state] == LitState(state)
    ensures MATCH_NEXT[state] == if state < 7 then 7 else 10
    ensures REP_NEXT[state] == if state < 7 then 8 else 11
    ensures SHORT_REP_NEXT[state] == if state < 7 then 9 else 11
  {
  }

  lemma MatchSymbol(d: LzDec, s: seq<byte>, rd: Reader, data: seq<byte>, z: LzEnc, dist: nat, len: nat, dictSize: nat,
                    rest: seq<Step>)
    requires StateOk(d, dictSize) && |rd.probs| == NUM_PROBS && LzOk(data, z) && Agrees(d, z, data)
    requires ValidOp(data, z, Match(dist, len), dictSize)
    requires Ready(rd, s, (LenSteps(false, len - 2, z.pos % 4) + DistSteps(dist, LenState(len))) + rest)
    ensures SymbolIs(ReadMatchSymbol(d, s, rd, dictSize), d, s, After(z, Match(dist, len)), CopyToken(len), rest)
  {
    hide Ready, LenSteps, DistSteps, ReadLen, ReadDistance, Pow2;
    var l, t := LenSteps(false, len - 2, z.pos % 4), DistSteps(dist, LenState(len));
    assert (l + t) + rest == l + (t + rest);
    ReadLenOk(rd, s, false, len - 2, z.pos % 4, t + rest);
    var rd1 := ReadLen(rd, s, false, z.pos % 4).value.1;
    LargePow2Values();
    ReadDistanceOk(rd1, s, LenState(len), dist, rest);
    LiteralStates(z.state);
  }

  lemma EndSymbol(d: LzDec, s: seq<byte>, rd: Reader, dictSize: nat, rest: seq<Step>)
    requires StateOk(d, dictSize) && |rd.probs| == NUM_PROBS
    requires Ready(rd, s, (LenSteps(false, 0, |d.hist| % 4) + DistSteps(END_MARKER, 0)) + rest)
    ensures var res := ReadMatchSymbol(d, s, rd, dictSize);
            res.Some? && res.value.1 == EndToken && Ready(res.value.0.rd, s, rest)
  {
    hide Ready, LenSteps, DistSteps, ReadLen, ReadDistance, Pow2;
    var l, t := LenSteps(false, 0, |d.hist| % 4), DistSteps(END_MARKER, 0);
    assert (l + t) + rest == l + (t + rest);
    ReadLenOk(rd, s, false, 0, |d.hist| % 4, t + rest);
    var rd1 := ReadLen(rd, s, false, |d.hist| % 4).value.1;
    LargePow2Values();
    ReadDistanceOk(rd1, s, 0, END_MARKER, rest);
  }

  lemma RepIndexOk(d: LzDec, s: seq<byte>, rd: Reader, op: Op, rest: seq<Step>)
    requires d.state < 12 && |rd.probs| == NUM_PROBS
    requires op.ShortRep? || (op.Rep? && op.index < 4)
    requires Ready(rd, s, RepSelect(d.state, |d.hist| % 4, op) + rest)
    ensures var res := ReadRepIndex(d, s, rd);
            && res.Some? && Ready(res.value.1, s, rest)
            && res.value.0 == if op.ShortRep? then None else Some(op.index)
  {
    hide Ready, ReadBit;
    var st, ps := d.state, |d.hist| % 4;
    var g0, long := Ctx(IsRepG0, st), Ctx(IsRep0Long, st * 16 + ps);
    if op.ShortRep? || op.index == 0 {
      var b: bit := if op.ShortRep? then 0 else 1;
      assert RepSelect(st, ps, op) + rest == [Model(g0, 0)] + ([Model(long, b)] + rest);
      ReadModel(rd, s, g0, 0, [Model(long, b)] + rest);
      ReadModel(ReadBit(rd, s, Index(g0)).value.1, s, long, b, rest);
    } else {
      RepIndexFar(d, s, rd, op, rest);
    }
  }

  lemma RepIndexFar(d: LzDec, s: seq<byte>, rd: Reader, op: Op, rest: seq<Step>)
    requires d.state < 12 && |rd.probs| == NUM_PROBS && op.Rep? && 1 <= op.index < 4
    requires Ready(rd, s, RepSelect(d.state, |d.hist| % 4, op) + rest)
    ensures var res := ReadRepIndex(d, s, rd);
            res.Some? && Ready(res.value.1, s, rest) && res.value.0 == Some(op.index)
  {
    hide Ready, ReadBit;
    var st, ps := d.state, |d.hist| % 4;
    var g0, g1, g2 := Ctx(IsRepG0, st), Ctx(IsRepG1, st), Ctx(IsRepG2, st);
    if op.index == 1 {
      assert RepSelect(st, ps, op) + rest == [Model(g0, 1)] + ([Model(g1, 0)] + rest);
      ReadModel(rd, s, g0, 1, [Model(g1, 0)] + rest);
      ReadModel(ReadBit(rd, s, Index(g0)).value.1, s, g1, 0, rest);
    } else {
      var b: bit := if op.index == 2 then 0 else 1;
      assert RepSelect(st, ps, op) + rest == [Model(g0, 1)] + ([Model(g1, 1)] + ([Model(g2, b)] + rest));
      ReadModel(rd, s, g0, 1, [Model(g1, 1)] + ([Model(g2, b)] + rest));
      var rd1 := ReadBit(rd, s, Index(g0)).value.1;
      ReadModel(rd1, s, g1, 1, [Model(g2, b)] + rest);
      ReadModel(ReadBit(rd1, s, Index(g1)).value.1, s, g2, b, rest);
    }
  }

  lemma RepSymbol(d: LzDec, s: seq<byte>, rd: Reader, data: seq<byte>, z: LzEnc, op: Op, dictSize: nat, rest: seq<Step>)
    requires StateOk(d, dictSize) && |rd.probs| == NUM_PROBS && LzOk(data, z) && Agrees(d, z, data)
    requires (op.ShortRep? || op.Rep?) && ValidOp(data, z, op, dictSize)
    requires var tail := if op.ShortRep? then rest else LenSteps(true, op.len - 2, z.pos % 4) + rest;
             Ready(rd, s, RepSelect(z.state, z.pos % 4, op) + tail)
    ensures SymbolIs(ReadRepSymbol(d, s, rd, dictSize), d, s, After(z, op), CopyToken(OpLen(op)), rest)
  {
    hide Ready, LenSteps, ReadLen, RepSelect, ReadRepIndex, Pow2;
    var tail := if op.ShortRep? then rest else LenSteps(true, op.len - 2, z.pos % 4) + rest;
    assert |d.hist| == z.pos > 0;
    RepIndexOk(d, s, rd, op, tail);
    var rd1 := ReadRepIndex(d, s, rd).value.1;
    LiteralStates(z.state);
    if op.Rep? {
      ReadLenOk(rd1, s, true, op.len - 2, z.pos % 4, rest);
    }
  }

  /** A literal's steps: its flag, then the literal in its row, predicted after a match. */
  lemma LitParts(data: seq<byte>, z: LzEnc, dictSize: nat, rest: seq<Step>)
    requires LzOk(data, z) && z.pos < |data|
    ensures var lit := LiteralSteps(LitRow(data[..z.pos]), data[z.pos],
                                    if z.state < 7 then None else Some(data[z.pos - z.reps.r0 - 1]));
            OpSteps(data, z, Lit, dictSize) + rest == [Model(Ctx(IsMatch, z.state * 16 + z.pos % 4), 0)] + (lit + rest)
  {
    hide LiteralSteps, LitRow;
  }

  /** A zero flag leads to the literal. */
  lemma LitBranch(d: LzDec, s: seq<byte>, state: nat, pos: nat, dictSize: nat)
    requires StateOk(d, dictSize) && |d.rd.probs| == NUM_PROBS && d.state == state && |d.hist| == pos
    ensures Index(Ctx(IsMatch, state * 16 + pos % 4)) < NUM_PROBS
    ensures var bit := ReadBit(d.rd, s, Index(Ctx(IsMatch, state * 16 + pos % 4)));
            bit.Some? && bit.value.0 == 0 ==> ReadToken(d, s, dictSize) == ReadLitSymbol(d, s, bit.value.1, dictSize)
  {
    hide ReadBit, ReadLitSymbol, ReadMatchSymbol, ReadRepSymbol;
  }

  lemma LitFlag(d: LzDec, s: seq<byte>, data: seq<byte>, z: LzEnc, dictSize: nat, rest: seq<Step>)
    requires StateOk(d, dictSize) && |d.rd.probs| == NUM_PROBS && LzOk(data, z) && Agrees(d, z, data) && z.pos < |data|
    requires Ready(d.rd, s, OpSteps(data, z, Lit, dictSize) + rest)
    ensures SymbolIs(ReadToken(d, s, dictSize), d, s, After(z, Lit), LitToken(data[z.pos]), rest)
  {
    hide Ready, ReadBit, ReadLitSymbol, ReadToken, LiteralSteps, LitRow, OpSteps, After, SymbolIs, Index;
    LitParts(data, z, dictSize, rest);
    LitBranch(d, s, z.state, z.pos, dictSize);
    var m := Ctx(IsMatch, z.state * 16 + z.pos % 4);
    var predicted := if z.state < 7 then None else Some(data[z.pos - z.reps.r0 - 1]);
    var lit := LiteralSteps(LitRow(data[..z.pos]), data[z.pos], predicted);
    ReadModel(d.rd, s, m, 0, lit + rest);
    LitSymbol(d, s, ReadBit(d.rd, s, Index(m)).value.1, data, z, dictSize, rest);
  }

  lemma OpTail(data: seq<byte>, z: LzEnc, op: Op, dictSize: nat, rest: seq<Step>)
    requires LzOk(data, z) && !op.Lit? && ValidOp(data, z, op, dictSize)
    ensures var steps := OpSteps(data, z, op, dictSize);
            && |steps| >= 2
            && steps + rest == [Flag(IsMatch, z.state * 16 + z.pos % 4, 1)]
                             + ([Flag(IsRep, z.state, if op.Match? then 0 else 1)] + (steps[2..] + rest))
  {
    hide LenSteps, DistSteps, RepSelect, Pow2;
  }

  /** A one flag leads to the second flag, and that to a match or a repetition. */
  lemma CopyBranch(d: LzDec, s: seq<byte>, state: nat, pos: nat, dictSize: nat, rd1: Reader, rd2: Reader, isRep: bit)
    requires StateOk(d, dictSize) && |d.rd.probs| == NUM_PROBS == |rd1.probs| == |rd2.probs| && d.state == state && |d.hist| == pos
    requires Index(Ctx(IsMatch, state * 16 + pos % 4)) < NUM_PROBS && Index(Ctx(IsRep, state)) < NUM_PROBS
    requires ReadBit(d.rd, s, Index(Ctx(IsMatch, state * 16 + pos % 4))) == Some((1, rd1))
    requires ReadBit(rd1, s, Index(Ctx(IsRep, state))) == Some((isRep, rd2))
    ensures ReadToken(d, s, dictSize) ==
            if isRep == 0 then ReadMatchSymbol(d, s, rd2, dictSize) else ReadRepSymbol(d, s, rd2, dictSize)
  {
    hide ReadBit, ReadLitSymbol, ReadMatchSymbol, ReadRepSymbol;
  }

  lemma FlagIndices(state: nat, pos: nat)
    requires state < 12
    ensures Index(Ctx(IsMatch, state * 16 + pos % 4)) < NUM_PROBS && Index(Ctx(IsRep, state)) < NUM_PROBS
  {
  }

  /** The two flags of an operation that copies, then what is behind them. */
  lemma CopyFlags(d: LzDec, s: seq<byte>, data: seq<byte>, z: LzEnc, op: Op, dictSize: nat, rest: seq<Step>)
    requires StateOk(d, dictSize) && |d.rd.probs| == NUM_PROBS && LzOk(data, z) && Agrees(d, z, data) && ValidOp(data, z, op, dictSize)
    requires !op.Lit? && Ready(d.rd, s, OpSteps(data, z, op, dictSize) + rest)
    ensures SymbolIs(ReadToken(d, s, dictSize), d, s, After(z, op), CopyToken(OpLen(op)), rest)
  {
    hide Ready, ReadBit, ReadToken, ReadMatchSymbol, ReadRepSymbol, OpSteps, After, SymbolIs, Pow2, Repeats, Index;
    FlagIndices(z.state, z.pos);
    var m, ir := Ctx(IsMatch, z.state * 16 + z.pos % 4), Ctx(IsRep, z.state);
    var b: bit := if op.Match? then 0 else 1;
    OpTail(data, z, op, dictSize, rest);
    var tail := OpSteps(data, z, op, dictSize)[2..] + rest;
    ReadModel(d.rd, s, m, 1, [Model(ir, b)] + tail);
    var rd1 := ReadBit(d.rd, s, Index(m)).value.1;
    ReadModel(rd1, s, ir, b, tail);
    var rd2 := ReadBit(rd1, s, Index(ir)).value.1;
    CopyBranch(d, s, z.state, z.pos, dictSize, rd1, rd2, b);
    AfterFlags(d, s, rd2, data, z, op, dictSize, rest);
  }

  /** Decoding one operation's steps yields its token and the encoder's next state. */
  lemma SymbolOk(d: LzDec, s: seq<byte>, data: seq<byte>, z: LzEnc, op: Op, dictSize: nat, rest: seq<Step>)
    requires StateOk(d, dictSize) && |d.rd.probs| == NUM_PROBS && LzOk(data, z) && Agrees(d, z, data) && ValidOp(data, z, op, dictSize)
    requires Ready(d.rd, s, OpSteps(data, z, op, dictSize) + rest)
    ensures SymbolIs(ReadToken(d, s, dictSize), d, s, After(z, op),
                     if op.Lit? then LitToken(data[z.pos]) else CopyToken(OpLen(op)), rest)
  {
    hide Ready, ReadToken, OpSteps, After, SymbolIs, Pow2, Repeats;
    if op.Lit? { LitFlag(d, s, data, z, dictSize, rest); } else { CopyFlags(d, s, data, z, op, dictSize, rest); }
  }

  /** What an operation codes behind its two flags. */
  lemma BehindFlags(data: seq<byte>, z: LzEnc, op: Op, dictSize: nat, rest: seq<Step>)
    requires LzOk(data, z) && !op.Lit? && ValidOp(data, z, op, dictSize) && |OpSteps(data, z, op, dictSize)| >= 2
    ensures var tail := OpSteps(data, z, op, dictSize)[2..];
            match op
            case Match(dist, len) => tail == LenSteps(false, len - 2, z.pos % 4) + DistSteps(dist, LenState(len))
            case ShortRep => tail == RepSelect(z.state, z.pos % 4, op)
            case Rep(i, len) => tail + rest == RepSelect(z.state, z.pos % 4, op) + (LenSteps(true, len - 2, z.pos % 4) + rest)
            case Lit => true
  {
    hide LenSteps, DistSteps, RepSelect, Pow2, Repeats;
  }

  lemma AfterFlags(d: LzDec, s: seq<byte>, rd: Reader, data: seq<byte>, z: LzEnc, op: Op, dictSize: nat, rest: seq<Step>)
    requires StateOk(d, dictSize) && |rd.probs| == NUM_PROBS && LzOk(data, z) && Agrees(d, z, data)
    requires !op.Lit? && ValidOp(data, z, op, dictSize)
    requires |OpSteps(data, z, op, dictSize)| >= 2 && Ready(rd, s, OpSteps(data, z, op, dictSize)[2..] + rest)
    ensures SymbolIs(if op.Match? then ReadMatchSymbol(d, s, rd, dictSize) else ReadRepSymbol(d, s, rd, dictSize),
                     d, s, After(z, op), CopyToken(OpLen(op)), rest)
  {
    hide Ready, ReadMatchSymbol, ReadRepSymbol, LenSteps, DistSteps, RepSelect, Pow2, OpSteps, SymbolIs, After, Repeats;
    BehindFlags(data, z, op, dictSize, rest);
    if op.Match? {
      MatchSymbol(d, s, rd, data, z, op.dist, op.len, dictSize, rest);
    } else {
      RepSymbol(d, s, rd, data, z, op, dictSize, rest);
    }
  }

  // ---------------------------------------------------------------- whole runs

  /** The decoder stands `d.rem` bytes before the end of the operation that led to z. */
  ghost predicate Tracks(d: LzDec, s: seq<byte>, data: seq<byte>, z: LzEnc, ops: seq<Op>, dictSize: nat) {
    && DecOk(d, dictSize) && LzOk(data, z) && ValidParse(data, z, ops, dictSize)
    && d.rem <= z.pos && d.state == z.state && d.reps == z.reps.PlusOne()
    && d.hist == data[..z.pos - d.rem]
    && (d.rem > 0 ==> Repeats(data, z.pos - d.rem, d.reps.r0 - 1, d.rem))
    && Ready(d.rd, s, ParseSteps(data, z, ops, dictSize))
  }

  ghost predicate OnTrack(d: LzDec, s: seq<byte>, data: seq<byte>, dictSize: nat) {
    exists z, ops :: Tracks(d, s, data, z, ops, dictSize)
  }

  /** LZ round trip, one byte at a time: a decoder on track produces the next byte of the input
      and stays on track, whether it reads a symbol or is in the middle of a copy; after the
      last byte it meets the end marker, with the code register at 0 on the last input byte. */
  lemma NextOnTrack(d: LzDec, s: seq<byte>, data: seq<byte>, dictSize: nat)
    requires DecOk(d, dictSize) && OnTrack(d, s, data, dictSize)
    ensures |d.hist| <= |data| && d.hist == data[..|d.hist|]
    ensures var p := Next(d, s, dictSize);
            if |d.hist| < |data| then
              p.More? && OnTrack(p.d, s, data, dictSize) && p.d.hist == data[..|d.hist| + 1]
            else
              p.Finished? && p.d.hist == data
              && p.d.rd.rc.code == 0 && p.d.rd.rc.pos == |s|
  {
    hide Ready, ParseSteps, ReadSymbol;
    var z, ops :| Tracks(d, s, data, z, ops, dictSize);
    if d.rem > 0 {
      CopyTracks(d, s, data, z, ops, dictSize);
    } else if ops == [] {
      AtEnd(d, s, data, z, dictSize);
    } else {
      var d' := OpTracks(d, s, data, z, ops, dictSize);
    }
  }

  lemma CopyTracks(d: LzDec, s: seq<byte>, data: seq<byte>, z: LzEnc, ops: seq<Op>, dictSize: nat)
    requires Tracks(d, s, data, z, ops, dictSize) && d.rem > 0
    ensures |d.hist| < |data|
    ensures CopyByte(d, dictSize).hist == data[..|d.hist| + 1]
    ensures Tracks(CopyByte(d, dictSize), s, data, z, ops, dictSize)
  {
    hide Ready, ParseSteps, ValidParse;
    var i := z.pos - d.rem;
    assert data[..i + 1] == data[..i] + [data[i]];
  }

  /** After one symbol the decoder is on track with the whole operation still to be written. */
  lemma HeadTracks(d: LzDec, s: seq<byte>, data: seq<byte>, z: LzEnc, ops: seq<Op>, dictSize: nat)
    requires Tracks(d, s, data, z, ops, dictSize) && d.rem == 0 && ops != []
    ensures z.state < 12 && ValidOp(data, z, ops[0], dictSize)
    ensures var op, z' := ops[0], After(z, ops[0]);
            && LzOk(data, z') && ValidParse(data, z', ops[1..], dictSize) && z'.pos == z.pos + OpLen(op)
            && SymbolIs(ReadSymbol(d, s, dictSize), d, s, z',
                        if op.Lit? then LitToken(data[z.pos]) else CopyToken(OpLen(op)),
                        ParseSteps(data, z', ops[1..], dictSize))
  {
    hide Ready, ReadToken, OpSteps, Pow2, Repeats, Refill;
    AfterOk(data, z, ops[0], dictSize);
    var rest := ParseSteps(data, After(z, ops[0]), ops[1..], dictSize);
    SymbolOk(d, s, data, z, ops[0], dictSize, rest);
    ReadyRefill(ReadToken(d, s, dictSize).value.0.rd, s, rest);
  }

  lemma LitTracks(d: LzDec, s: seq<byte>, data: seq<byte>, z: LzEnc, ops: seq<Op>, dictSize: nat) returns (d': LzDec)
    requires Tracks(d, s, data, z, ops, dictSize) && d.rem == 0 && ops != [] && ops[0].Lit?
    ensures Next(d, s, dictSize) == More(d')
    ensures |d.hist| < |data| && d'.hist == data[..|d.hist| + 1]
    ensures Tracks(d', s, data, After(z, ops[0]), ops[1..], dictSize)
  {
    hide Ready, ReadSymbol, Pow2, ParseSteps, ValidParse, ReaderOk;
    HeadTracks(d, s, data, z, ops, dictSize);
    var d1 := ReadSymbol(d, s, dictSize).value.0;
    assert data[..z.pos + 1] == data[..z.pos] + [data[z.pos]];
    d' := d1.(hist := d1.hist + [data[z.pos]]);
  }

  /** The symbol of a match or repetition has been read, its bytes are still to be copied. */
  lemma CopyStarts(d: LzDec, s: seq<byte>, data: seq<byte>, z: LzEnc, ops: seq<Op>, dictSize: nat) returns (d2: LzDec)
    requires Tracks(d, s, data, z, ops, dictSize) && d.rem == 0 && ops != [] && !ops[0].Lit?
    ensures z.state < 12 && ValidOp(data, z, ops[0], dictSize)
    ensures DecOk(d2, dictSize) && Tracks(d2, s, data, After(z, ops[0]), ops[1..], dictSize)
    ensures d2.rem > 0 && d2.hist == d.hist && Next(d, s, dictSize) == More(CopyByte(d2, dictSize))
  {
    hide Ready, ReadSymbol, Pow2, ParseSteps, ValidParse, ReaderOk, CopyByte, After, Repeats, ValidOp;
    HeadTracks(d, s, data, z, ops, dictSize);
    CopyRepeats(data, z, ops[0], dictSize);
    d2 := ReadSymbol(d, s, dictSize).value.0.(rem := OpLen(ops[0]));
  }

  /** An operation that copies repeats the bytes at the distance it leaves in front. */
  lemma CopyRepeats(data: seq<byte>, z: LzEnc, op: Op, dictSize: nat)
    requires z.state < 12 && ValidOp(data, z, op, dictSize) && !op.Lit?
    ensures OpLen(op) > 0 && Repeats(data, z.pos, After(z, op).reps.r0, OpLen(op))
  {
    hide Repeats, Pow2;
  }

  lemma OpTracks(d: LzDec, s: seq<byte>, data: seq<byte>, z: LzEnc, ops: seq<Op>, dictSize: nat) returns (d': LzDec)
    requires Tracks(d, s, data, z, ops, dictSize) && d.rem == 0 && ops != []
    ensures Next(d, s, dictSize) == More(d')
    ensures |d.hist| < |data| && d'.hist == data[..|d.hist| + 1]
    ensures OnTrack(d', s, data, dictSize)
  {
    hide Next, CopyByte, Ready, ParseSteps, Repeats, Pow2, ReaderOk;
    if ops[0].Lit? {
      d' := LitTracks(d, s, data, z, ops, dictSize);
    } else {
      var d2 := CopyStarts(d, s, data, z, ops, dictSize);
      CopyTracks(d2, s, data, After(z, ops[0]), ops[1..], dictSize);
      d' := CopyByte(d2, dictSize);
    }
    assert Tracks(d', s, data, After(z, ops[0]), ops[1..], dictSize);
  }

  lemma EndFlags(d: LzDec, s: seq<byte>, z: LzEnc, dictSize: nat)
    requires StateOk(d, dictSize) && |d.rd.probs| == NUM_PROBS && d.state == z.state && |d.hist| == z.pos && z.state < 12
    requires Ready(d.rd, s, EndSteps(z))
    ensures var res := ReadToken(d, s, dictSize);
            res.Some? && res.value.1 == EndToken && Ready(res.value.0.rd, s, [])
  {
    hide Ready, ReadBit, ReadMatchSymbol, ReadLitSymbol, ReadRepSymbol, LenSteps, DistSteps;
    var m, ir := Ctx(IsMatch, z.state * 16 + z.pos % 4), Ctx(IsRep, z.state);
    var tail := LenSteps(false, 0, z.pos % 4) + DistSteps(END_MARKER, 0);
    assert tail + [] == tail;
    ReadModel(d.rd, s, m, 1, [Model(ir, 0)] + tail);
    var rd1 := ReadBit(d.rd, s, Index(m)).value.1;
    ReadModel(rd1, s, ir, 0, tail);
    EndSymbol(d, s, ReadBit(rd1, s, Index(ir)).value.1, dictSize, []);
  }

  lemma AtEnd(d: LzDec, s: seq<byte>, data: seq<byte>, z: LzEnc, dictSize: nat)
    requires Tracks(d, s, data, z, [], dictSize) && d.rem == 0
    ensures d.hist == data
    ensures var p := Next(d, s, dictSize);
            p.Finished? && p.d.hist == data
            && p.d.rd.rc.code == 0 && p.d.rd.rc.pos == |s|
  {
    hide Ready, ReadToken, EndSteps;
    assert data[..|data|] == data;
    EndFlags(d, s, z, dictSize);
    var rd := ReadToken(d, s, dictSize).value.0.rd;
    ReadyEnd(rd, s);
    ReadyRefill(rd, s, []);
  }

  // ---------------------------------------------------------------- every context is in bounds

  lemma StepsOkConcat(a: seq<Step>, b: seq<Step>)
    requires StepsOk(a) && StepsOk(b)
    ensures StepsOk(a + b)
  {
  }

  lemma {:induction false} TreeFromOk(t: Table, off: nat, m: nat, k: nat, n: nat, sym: nat)
    requires m < Pow2(k + 1) && off + Pow2(k + n) <= Size(t)
    ensures StepsOk(TreeFrom(t, off, m, n, sym))
    decreases n
  {
    hide Size, BitAt;
    if n > 0 {
      var b := BitAt(sym, n - 1);
      Pow2Mono(k + 1, k + n);
      TreeFromOk(t, off, 2 * m + b, k + 1, n - 1, sym);
      StepsOkConcat([Model(Ctx(t, off + m), b)], TreeFrom(t, off, 2 * m + b, n - 1, sym));
    }
  }

  lemma {:induction false} ReverseFromOk(t: Table, off: int, m: nat, k: nat, n: nat, sym: nat)
    requires k <= n && 1 <= m < Pow2(k + 1) && off >= -1 && off + Pow2(n) <= Size(t)
    ensures StepsOk(ReverseFrom(t, off, m, k, n, sym))
    decreases n - k
  {
    hide Size, BitAt;
    if k < n {
      var b := BitAt(sym, k);
      Pow2Mono(k + 1, n);
      ReverseFromOk(t, off, 2 * m + b, k + 1, n, sym);
      StepsOkConcat([Model(Ctx(t, off + m), b)], ReverseFrom(t, off, 2 * m + b, k + 1, n, sym));
    }
  }

  lemma {:induction false} DirectStepsOk(value: nat, n: nat)
    ensures StepsOk(DirectSteps(value, n))
  {
    hide BitAt;
    if n > 0 {
      DirectStepsOk(value, n - 1);
      StepsOkConcat([Direct(BitAt(value, n - 1))], DirectSteps(value, n - 1));
    }
  }

  lemma {:induction false} MatchedFromOk(off: nat, m: nat, k: nat, n: nat, sym: nat, predicted: nat, same: bool)
    requires m < Pow2(k + 1) && k + n == 8 && off + LIT_SIZE <= Size(Literal)
    ensures StepsOk(MatchedFrom(off, m, n, sym, predicted, same))
    decreases n
  {
    hide BitAt, MatchedFrom;
    if n == 0 {
      MatchedEmpty(off, m, sym, predicted, same);
    } else {
      var b, p := BitAt(sym, n - 1), BitAt(predicted, n - 1);
      Pow2Mono(k + 1, 8);
      Pow2Values();
      var tail := MatchedFrom(off, 2 * m + b, n - 1, sym, predicted, same && b == p);
      MatchedFromOk(off, 2 * m + b, k + 1, n - 1, sym, predicted, same && b == p);
      MatchedUnfold(off, m, n, sym, predicted, same, []);
      var all := MatchedFrom(off, m, n, sym, predicted, same);
      assert all + [] == all && tail + [] == tail;
      var offs := if same then 0x100 + 0x100 * p else 0;
      StepsOkConcat([Model(Ctx(Literal, off + offs + m), b)], tail);
    }
  }

  lemma MatchedEmpty(off: nat, m: nat, sym: nat, predicted: nat, same: bool)
    ensures MatchedFrom(off, m, 0, sym, predicted, same) == []
  {
  }

  lemma LiteralStepsOk(row: nat, sym: nat, predicted: Option<nat>)
    requires row < LIT_ROWS
    ensures StepsOk(LiteralSteps(row, sym, predicted))
  {
    hide StepsOk;
    Pow2Values();
    TreeFromOk(Literal, row * LIT_SIZE, 1, 0, 8, sym);
    if predicted.Some? { MatchedFromOk(row * LIT_SIZE, 1, 0, 8, sym, predicted.value, true); }
  }

  lemma LenStepsOk(rep: bool, sym: nat, posState: nat)
    requires posState < POS_STATES_MAX
    ensures StepsOk(LenSteps(rep, sym, posState))
  {
    hide TreeFrom;
    Pow2Values();
    if sym < 8 { TreeFromOk(LenLow(rep), posState * 8, 1, 0, 3, sym); }
    else if sym < 16 { TreeFromOk(LenMid(rep), posState * 8, 1, 0, 3, sym - 8); }
    else { TreeFromOk(LenHigh(rep), 0, 1, 0, 8, sym - 16); }
  }

  lemma DistStepsOk(dist: nat, lenState: nat)
    requires lenState < 4
    ensures StepsOk(DistSteps(dist, lenState))
  {
    hide StepsOk, TreeFrom, ReverseFrom, DirectSteps, SlotOf, SlotBase;
    SlotBounds(dist);
    var slot := SlotOf(dist);
    Pow2Values();
    TreeFromOk(PosSlot, lenState * 64, 1, 0, 6, slot);
    FooterStepsOk(slot, dist - SlotBase(slot));
    StepsOkConcat(TreeSteps(PosSlot, lenState * 64, 6, slot), FooterSteps(slot, dist - SlotBase(slot)));
  }

  lemma FooterStepsOk(slot: nat, reduced: nat)
    ensures StepsOk(FooterSteps(slot, reduced))
  {
    hide TreeFrom, ReverseFrom, DirectSteps, SlotBase, Pow2;
    if START_POS_MODEL <= slot < END_POS_MODEL {
      SpecPosFits(slot);
      assert Pow2(1) == 2 by { LargeEnough(); }
      ReverseFromOk(SpecPos, SlotBase(slot) - slot - 1, 1, 0, FooterBits(slot), reduced);
    } else if slot >= END_POS_MODEL {
      Pow2Values();
      LargeEnough();
      DirectStepsOk(reduced / 16, FooterBits(slot) - 4);
      ReverseFromOk(Align, 0, 1, 0, 4, reduced % 16);
      StepsOkConcat(DirectSteps(reduced / 16, FooterBits(slot) - 4), ReverseSteps(Align, 0, 4, reduced % 16));
    }
  }

  lemma LargeEnough()
    ensures Pow2(1) == 2
  {
  }

  lemma OpStepsOk(data: seq<byte>, z: LzEnc, op: Op, dictSize: nat)
    requires LzOk(data, z) && ValidOp(data, z, op, dictSize)
    ensures StepsOk(OpSteps(data, z, op, dictSize))
  {
    hide LiteralSteps, LenSteps, DistSteps, Pow2, Repeats;
    match op
    case Lit =>
      var predicted := if z.state < 7 then None else Some(data[z.pos - z.reps.r0 - 1]);
      LiteralStepsOk(LitRow(data[..z.pos]), data[z.pos], predicted);
    case ShortRep =>
    case Rep(i, len) => LenStepsOk(true, len - 2, z.pos % 4);
    case Match(dist, len) =>
      LenStepsOk(false, len - 2, z.pos % 4);
      DistStepsOk(dist, LenState(len));
  }

  lemma EndStepsOk(z: LzEnc)
    requires z.state < 12
    ensures StepsOk(EndSteps(z))
  {
    hide LenSteps, DistSteps;
    LenStepsOk(false, 0, z.pos % 4);
    DistStepsOk(END_MARKER, 0);
  }

  lemma {:induction false} ParseStepsOk(data: seq<byte>, z: LzEnc, ops: seq<Op>, dictSize: nat)
    requires LzOk(data, z) && ValidParse(data, z, ops, dictSize)
    ensures StepsOk(ParseSteps(data, z, ops, dictSize))
    decreases |ops|
  {
    hide StepsOk, OpSteps, EndSteps, Pow2, Repeats;
    if ops == [] {
      EndStepsOk(z);
    } else {
      AfterOk(data, z, ops[0], dictSize);
      OpStepsOk(data, z, ops[0], dictSize);
      ParseStepsOk(data, After(z, ops[0]), ops[1..], dictSize);
      StepsOkConcat(OpSteps(data, z, ops[0], dictSize), ParseSteps(data, After(z, ops[0]), ops[1..], dictSize));
    }
  }

  // ---------------------------------------------------------------- the theorem

  /** Everything the encoder writes for a parse of data. */
  function Compress(data: seq<byte>, ops: seq<Op>, dictSize: nat): seq<byte>
    requires ValidParse(data, LZ_INIT, ops, dictSize)
  {
    StreamOf(ParseSteps(data, LZ_INIT, ops, dictSize))
  }

  function InitDec(s: seq<byte>): Option<LzDec> {
    var rd :- InitReader(s);
    Some(LzDec(rd, 0, Reps(1, 1, 1, 1), [], 0))
  }

  /** n bytes of output, unless the stream ends or fails before. */
  function DecodeN(d: LzDec, s: seq<byte>, dictSize: nat, n: nat): (p: Progress)
    requires DecOk(d, dictSize)
    ensures !p.Failed? ==> DecOk(p.d, dictSize)
  {
    if n == 0 then More(d) else
      var p := DecodeN(d, s, dictSize, n - 1);
      if p.More? then Next(p.d, s, dictSize) else p
  }

  lemma {:induction false} DecodeNOnTrack(d: LzDec, s: seq<byte>, data: seq<byte>, dictSize: nat, n: nat)
    requires DecOk(d, dictSize) && OnTrack(d, s, data, dictSize) && |d.hist| + n <= |data|
    ensures var p := DecodeN(d, s, dictSize, n);
            p.More? && OnTrack(p.d, s, data, dictSize) && p.d.hist == data[..|d.hist| + n]
  {
    hide OnTrack, Next, DecOk;
    NextOnTrack(d, s, data, dictSize);
    if n > 0 {
      DecodeNOnTrack(d, s, data, dictSize, n - 1);
      NextOnTrack(DecodeN(d, s, dictSize, n - 1).d, s, data, dictSize);
    }
  }

  lemma StartOnTrack(data: seq<byte>, ops: seq<Op>, dictSize: nat)
    requires dictSize >= 1 && ValidParse(data, LZ_INIT, ops, dictSize)
    ensures var s := Compress(data, ops, dictSize);
            var d := InitDec(s);
            d.Some? && DecOk(d.value, dictSize) && d.value.hist == [] && OnTrack(d.value, s, data, dictSize)
  {
    hide StepsOk, ParseSteps, StreamOf, ValidParse;
    var s, steps := Compress(data, ops, dictSize), ParseSteps(data, LZ_INIT, ops, dictSize);
    ParseStepsOk(data, LZ_INIT, ops, dictSize);
    StreamReady(steps);
    var d := InitDec(s).value;
    assert Ready(d.rd, s, steps) by { assert InSync(CODER_INIT, steps, d.rd, s); }
    assert Tracks(d, s, data, LZ_INIT, ops, dictSize);
  }

  /** LZMA round trip: for every input, every valid parse of it and every dictionary size, the
      decoder run on the compressed bytes has produced exactly the first n bytes of the input
      after n steps; then it meets the end marker, having consumed every byte, code register 0. */
  lemma RoundTrip(data: seq<byte>, ops: seq<Op>, dictSize: nat, n: nat)
    requires dictSize >= 1 && ValidParse(data, LZ_INIT, ops, dictSize) && n <= |data|
    ensures var s := Compress(data, ops, dictSize);
            && |s| >= 5 && s[0] == 0
            && InitDec(s).Some? && DecOk(InitDec(s).value, dictSize)
            && var p, q := DecodeN(InitDec(s).value, s, dictSize, n), DecodeN(InitDec(s).value, s, dictSize, |data| + 1);
            && p.More? && p.d.hist == data[..n]
            && q.Finished? && q.d.hist == data && q.d.rd.rc.code == 0 && q.d.rd.rc.pos == |s|
  {
    hide OnTrack, Next, Compress, ValidParse, DecOk;
    var s := Compress(data, ops, dictSize);
    StartOnTrack(data, ops, dictSize);
    var d := InitDec(s).value;
    DecodeNOnTrack(d, s, data, dictSize, n);
    DecodeNOnTrack(d, s, data, dictSize, |data|);
    NextOnTrack(DecodeN(d, s, dictSize, |data|).d, s, data, dictSize);
  }

  /** Every input has at least one valid parse: all literals. */
  lemma {:induction false} LiteralsParse(data: seq<byte>, z: LzEnc, dictSize: nat)
    requires LzOk(data, z)
    ensures ValidParse(data, z, seq(|data| - z.pos, _ => Lit), dictSize)
    decreases |data| - z.pos
  {
    var ops := seq(|data| - z.pos, _ => Lit);
    if ops != [] {
      AfterOk(data, z, Lit, dictSize);
      LiteralsParse(data, After(z, Lit), dictSize);
      assert ops[1..] == seq(|data| - After(z, Lit).pos, _ => Lit);
    }
  }
}
