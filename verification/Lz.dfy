/** The LZ layer: literals, matches, repeated matches and short repeats, the 12-state machine and
    the four last distances, on the encoder's side (tables, distance) and on the decoder's side
    (arithmetic, distance + 1, a history it may not read beyond). */
module Lz {
  import opened Options
  import opened Bytes
  import opened Bits
  import opened RangeCoder
  import opened Contexts
  import opened Symbols
  import opened SymbolCoders
  import opened PosSlots

  datatype Reps = Reps(r0: nat, r1: nat, r2: nat, r3: nat) {
    function Nth(i: nat): nat
      requires i < 4
    {
      if i == 0 then r0 else if i == 1 then r1 else if i == 2 then r2 else r3
    }

    /** A distance becomes the most recent one; those before position i move back by one. */
    function Front(i: nat): Reps
      requires i < 4
    {
      if i == 0 then this
      else if i == 1 then Reps(r1, r0, r2, r3)
      else if i == 2 then Reps(r2, r0, r1, r3)
      else Reps(r3, r0, r1, r2)
    }

    function Push(d: nat): Reps { Reps(d, r0, r1, r2) }

    function PlusOne(): Reps { Reps(r0 + 1, r1 + 1, r2 + 1, r3 + 1) }
  }

  // ---------------------------------------------------------------- encoder

  datatype Op = Lit | ShortRep | Rep(index: nat, len: nat) | Match(dist: nat, len: nat)

  datatype LzEnc = LzEnc(state: nat, reps: Reps, pos: nat)

  const LZ_INIT := LzEnc(0, Reps(0, 0, 0, 0), 0)

  const LITERAL_NEXT: seq<nat> := [0, 0, 0, 0, 1, 2, 3, 4, 5, 6, 4, 5]
  const MATCH_NEXT: seq<nat> := [7, 7, 7, 7, 7, 7, 7, 10, 10, 10, 10, 10]
  const REP_NEXT: seq<nat> := [8, 8, 8, 8, 8, 8, 8, 11, 11, 11, 11, 11]
  const SHORT_REP_NEXT: seq<nat> := [9, 9, 9, 9, 9, 9, 9, 11, 11, 11, 11, 11]

  function OpLen(op: Op): nat {
    match op
    case Lit | ShortRep => 1
    case Rep(_, len) => len
    case Match(_, len) => len
  }

  /** The len bytes at pos repeat those dist + 1 earlier; they may overlap. */
  predicate Repeats(data: seq<byte>, pos: nat, dist: nat, len: nat) {
    && dist < pos && pos + len <= |data|
    && forall i :: pos <= i < pos + len ==> data[i] == data[i - dist - 1]
  }

  predicate ValidOp(data: seq<byte>, z: LzEnc, op: Op, dictSize: nat) {
    match op
    case Lit => z.pos < |data|
    case ShortRep => z.reps.r0 < dictSize && Repeats(data, z.pos, z.reps.r0, 1)
    case Rep(i, len) => i < 4 && 2 <= len <= 273 && z.reps.Nth(i) < dictSize && Repeats(data, z.pos, z.reps.Nth(i), len)
    case Match(dist, len) => 2 <= len <= 273 && dist < dictSize && dist < Pow2(27) && Repeats(data, z.pos, dist, len)
  }

  function After(z: LzEnc, op: Op): LzEnc
    requires z.state < 12 && (op.Rep? ==> op.index < 4)
  {
    match op
    case Lit => LzEnc(LITERAL_NEXT[z.state], z.reps, z.pos + 1)
    case ShortRep => LzEnc(SHORT_REP_NEXT[z.state], z.reps, z.pos + 1)
    case Rep(i, len) => LzEnc(REP_NEXT[z.state], z.reps.Front(i), z.pos + len)
    case Match(dist, len) => LzEnc(MATCH_NEXT[z.state], z.reps.Push(dist), z.pos + len)
  }

  /** A state after a match predicts the next byte from the last distance. */
  predicate LzOk(data: seq<byte>, z: LzEnc) {
    z.state < 12 && z.pos <= |data| && (z.state >= 7 ==> z.reps.r0 < z.pos)
  }

  lemma AfterOk(data: seq<byte>, z: LzEnc, op: Op, dictSize: nat)
    requires LzOk(data, z) && ValidOp(data, z, op, dictSize)
    ensures LzOk(data, After(z, op)) && After(z, op).pos == z.pos + OpLen(op)
  {
  }

  predicate ValidParse(data: seq<byte>, z: LzEnc, ops: seq<Op>, dictSize: nat)
    decreases |ops|
  {
    if ops == [] then z.pos == |data|
    else z.state < 12 && ValidOp(data, z, ops[0], dictSize) && ValidParse(data, After(z, ops[0]), ops[1..], dictSize)
  }

  function LenState(len: nat): nat
    requires len >= 2
  {
    if len < 5 then len - 2 else 3
  }

  /** The literal's context row: the top three bits of the byte before it. */
  function LitRow(hist: seq<byte>): nat { if hist == [] then 0 else hist[|hist| - 1] / 32 }

  function Flag(t: Table, i: nat, b: bit): Step { Model(Ctx(t, i), b) }

  function RepSelect(state: nat, posState: nat, op: Op): seq<Step>
    requires op.ShortRep? || op.Rep?
  {
    if op.ShortRep? then [Flag(IsRepG0, state, 0)] + [Flag(IsRep0Long, state * 16 + posState, 0)]
    else if op.index == 0 then [Flag(IsRepG0, state, 0)] + [Flag(IsRep0Long, state * 16 + posState, 1)]
    else if op.index == 1 then [Flag(IsRepG0, state, 1)] + [Flag(IsRepG1, state, 0)]
    else [Flag(IsRepG0, state, 1)] + ([Flag(IsRepG1, state, 1)] + [Flag(IsRepG2, state, if op.index == 2 then 0 else 1)])
  }

  /** Everything the encoder codes for one operation. */
  function OpSteps(data: seq<byte>, z: LzEnc, op: Op, dictSize: nat): seq<Step>
    requires LzOk(data, z) && ValidOp(data, z, op, dictSize)
  {
    var posState := z.pos % 4;
    match op
    case Lit =>
      var predicted := if z.state < 7 then None else Some(data[z.pos - z.reps.r0 - 1]);
      [Flag(IsMatch, z.state * 16 + posState, 0)] + LiteralSteps(LitRow(data[..z.pos]), data[z.pos], predicted)
    case ShortRep =>
      [Flag(IsMatch, z.state * 16 + posState, 1)] + ([Flag(IsRep, z.state, 1)] + RepSelect(z.state, posState, op))
    case Rep(i, len) =>
      [Flag(IsMatch, z.state * 16 + posState, 1)] +
      ([Flag(IsRep, z.state, 1)] + (RepSelect(z.state, posState, op) + LenSteps(true, len - 2, posState)))
    case Match(dist, len) =>
      [Flag(IsMatch, z.state * 16 + posState, 1)] +
      ([Flag(IsRep, z.state, 0)] + (LenSteps(false, len - 2, posState) + DistSteps(dist, LenState(len))))
  }

  /** The end marker: a match of length 2 at distance 2^32 - 1. */
  function EndSteps(z: LzEnc): seq<Step> {
    [Flag(IsMatch, z.state * 16 + z.pos % 4, 1)] +
    ([Flag(IsRep, z.state, 0)] + (LenSteps(false, 0, z.pos % 4) + DistSteps(END_MARKER, 0)))
  }

  /** The whole message from z on, end marker included. */
  function ParseSteps(data: seq<byte>, z: LzEnc, ops: seq<Op>, dictSize: nat): seq<Step>
    requires LzOk(data, z) && ValidParse(data, z, ops, dictSize)
    decreases |ops|
  {
    if ops == [] then EndSteps(z) else
      AfterOk(data, z, ops[0], dictSize);
      OpSteps(data, z, ops[0], dictSize) + ParseSteps(data, After(z, ops[0]), ops[1..], dictSize)
  }

  // ---------------------------------------------------------------- decoder

  /** `reps` are distances plus one; `rem` bytes of the current match are still to be copied. */
  datatype LzDec = LzDec(rd: Reader, state: nat, reps: Reps, hist: seq<byte>, rem: nat)

  datatype Token = LitToken(b: byte) | CopyToken(len: nat) | EndToken

  predicate RepOk(rep: nat, written: nat, dictSize: nat) { 1 <= rep <= dictSize && (rep <= written || rep == 1) }

  /** Every distance reaches into bytes already written, or is the initial 1 before anything was. */
  predicate StateOk(d: LzDec, dictSize: nat) {
    var n := |d.hist|;
    && d.state < 12
    && RepOk(d.reps.r0, n, dictSize) && RepOk(d.reps.r1, n, dictSize)
    && RepOk(d.reps.r2, n, dictSize) && RepOk(d.reps.r3, n, dictSize)
    && (d.state >= 7 || d.rem > 0 ==> n > 0)
  }

  /** What holds of the decoder between symbols, whatever bytes it is fed. */
  predicate DecOk(d: LzDec, dictSize: nat) {
    StateOk(d, dictSize) && ReaderOk(d.rd) && d.rd.rc.range >= TOP
  }

  function LitState(state: nat): nat
    requires state < 12
  {
    if state < 4 then 0 else if state < 7 then state - 3 else if state < 10 then state - 3 else state - 6
  }

  function ReadLitSymbol(d: LzDec, s: seq<byte>, rd: Reader, dictSize: nat): (res: Option<(LzDec, Token)>)
    requires StateOk(d, dictSize) && |rd.probs| == NUM_PROBS
    ensures res.Some? && ReaderOk(rd) ==> ReaderOk(res.value.0.rd)
    ensures res.Some? ==> StateOk(res.value.0, dictSize) && res.value.0.hist == d.hist && res.value.0.rem == d.rem
    ensures res.Some? ==> res.value.1.LitToken?
  {
    var predicted := if d.state < 7 then None else Some(d.hist[|d.hist| - d.reps.r0]);
    var (sym, rd1) :- ReadLiteral(rd, s, LitRow(d.hist), predicted);
    Some((d.(rd := rd1, state := LitState(d.state)), LitToken(sym)))
  }

  function ReadMatchSymbol(d: LzDec, s: seq<byte>, rd: Reader, dictSize: nat): (res: Option<(LzDec, Token)>)
    requires StateOk(d, dictSize) && |rd.probs| == NUM_PROBS
    ensures res.Some? && ReaderOk(rd) ==> ReaderOk(res.value.0.rd)
    ensures res.Some? ==> StateOk(res.value.0, dictSize) && res.value.0.hist == d.hist && res.value.0.rem == d.rem
    ensures res.Some? ==> !res.value.1.LitToken? && (res.value.1.CopyToken? ==> 2 <= res.value.1.len <= 273 && |d.hist| > 0)
  {
    var (len, rd1) :- ReadLen(rd, s, false, |d.hist| % 4);
    var (dist, rd2) :- ReadDistance(rd1, s, if len < 4 then len else 3);
    if dist == END_MARKER then Some((d.(rd := rd2), EndToken))
    else if dist >= |d.hist| || dist >= dictSize then None
    else Some((d.(rd := rd2, reps := d.reps.Push(dist + 1), state := if d.state < 7 then 7 else 10), CopyToken(len + 2)))
  }

  /** Which of the four distances; None stands for a short repeat. */
  function ReadRepIndex(d: LzDec, s: seq<byte>, rd: Reader): (res: Option<(Option<nat>, Reader)>)
    requires d.state < 12 && |rd.probs| == NUM_PROBS
    ensures res.Some? && ReaderOk(rd) ==> ReaderOk(res.value.1)
    ensures res.Some? ==> |res.value.1.probs| == NUM_PROBS && (res.value.0.Some? ==> res.value.0.value < 4)
  {
    var (g0, rd0) :- ReadBit(rd, s, IS_REP_G0 + d.state);
    if g0 == 0 then
      var (long, rd1) :- ReadBit(rd0, s, IS_REP0_LONG + d.state * 16 + |d.hist| % 4);
      Some((if long == 0 then None else Some(0), rd1))
    else
      var (g1, rd1) :- ReadBit(rd0, s, IS_REP_G1 + d.state);
      if g1 == 0 then Some((Some(1), rd1)) else
        var (g2, rd2) :- ReadBit(rd1, s, IS_REP_G2 + d.state);
        Some((Some(if g2 == 0 then 2 else 3), rd2))
  }

  function ReadRepSymbol(d: LzDec, s: seq<byte>, rd: Reader, dictSize: nat): (res: Option<(LzDec, Token)>)
    requires StateOk(d, dictSize) && |rd.probs| == NUM_PROBS
    ensures res.Some? && ReaderOk(rd) ==> ReaderOk(res.value.0.rd)
    ensures res.Some? ==> StateOk(res.value.0, dictSize) && res.value.0.hist == d.hist && res.value.0.rem == d.rem
    ensures res.Some? ==> res.value.1.CopyToken? && 1 <= res.value.1.len <= 273 && |d.hist| > 0
  {
    if d.hist == [] then None else
      var (index, rd1) :- ReadRepIndex(d, s, rd);
      if index.None? then
        Some((d.(rd := rd1, state := if d.state < 7 then 9 else 11), CopyToken(1)))
      else
        var (len, rd2) :- ReadLen(rd1, s, true, |d.hist| % 4);
        Some((d.(rd := rd2, reps := d.reps.Front(index.value), state := if d.state < 7 then 8 else 11),
              CopyToken(len + 2)))
  }

  /** The bits of one symbol; None when the input is exhausted or corrupt. */
  function ReadToken(d: LzDec, s: seq<byte>, dictSize: nat): (res: Option<(LzDec, Token)>)
    requires StateOk(d, dictSize) && |d.rd.probs| == NUM_PROBS
    ensures res.Some? && ReaderOk(d.rd) ==> ReaderOk(res.value.0.rd)
    ensures res.Some? ==> StateOk(res.value.0, dictSize) && res.value.0.hist == d.hist && res.value.0.rem == d.rem
    ensures res.Some? && res.value.1.CopyToken? ==> 1 <= res.value.1.len <= 273 && |d.hist| > 0
  {
    var (isMatch, rd1) :- ReadBit(d.rd, s, d.state * 16 + |d.hist| % 4);
    if isMatch == 0 then ReadLitSymbol(d, s, rd1, dictSize) else
      var (isRep, rd2) :- ReadBit(rd1, s, IS_REP + d.state);
      if isRep == 0 then ReadMatchSymbol(d, s, rd2, dictSize) else ReadRepSymbol(d, s, rd2, dictSize)
  }

  /** The normalisation that follows a symbol. */
  function Settle(d: LzDec, s: seq<byte>, dictSize: nat): (res: Option<LzDec>)
    requires StateOk(d, dictSize) && ReaderOk(d.rd)
    ensures res.Some? ==> DecOk(res.value, dictSize) && res.value.hist == d.hist && res.value.rem == d.rem
  {
    var rc :- Refill(d.rd.rc, s);
    Some(d.(rd := d.rd.(rc := rc)))
  }

  /** One symbol of the stream. */
  function ReadSymbol(d: LzDec, s: seq<byte>, dictSize: nat): (res: Option<(LzDec, Token)>)
    requires DecOk(d, dictSize)
    ensures res.Some? ==> DecOk(res.value.0, dictSize) && res.value.0.hist == d.hist && res.value.0.rem == d.rem
    ensures res.Some? && res.value.1.CopyToken? ==> 1 <= res.value.1.len <= 273 && |d.hist| > 0
  {
    var (d1, token) :- ReadToken(d, s, dictSize);
    var d2 :- Settle(d1, s, dictSize);
    Some((d2, token))
  }

  datatype Progress = More(d: LzDec) | Finished(d: LzDec) | Failed

  /** One byte of the current match. */
  function CopyByte(d: LzDec, dictSize: nat): (d': LzDec)
    requires DecOk(d, dictSize) && d.rem > 0
    ensures DecOk(d', dictSize)
  {
    d.(hist := d.hist + [d.hist[|d.hist| - d.reps.r0]], rem := d.rem - 1)
  }

  /** The decoder, one byte of output at a time. It is total: no input, however corrupt, makes it
      read outside the bytes it has written or leave the bounds of DecOk. */
  function Next(d: LzDec, s: seq<byte>, dictSize: nat): (p: Progress)
    requires DecOk(d, dictSize)
    ensures !p.Failed? ==> DecOk(p.d, dictSize)
    ensures p.More? ==> |p.d.hist| == |d.hist| + 1
  {
    if d.rem > 0 then More(CopyByte(d, dictSize)) else
      match ReadSymbol(d, s, dictSize)
      case None => Failed
      case Some((d1, LitToken(b))) => More(d1.(hist := d1.hist + [b]))
      case Some((d1, CopyToken(len))) => More(CopyByte(d1.(rem := len), dictSize))
      case Some((d1, EndToken)) => Finished(d1)
  }
}
