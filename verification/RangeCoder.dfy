/** The adaptive binary range coder on values: the encoder with its delayed carry, the decoder
    with its lazy normalisation, and the proof that the second undoes the first.
    The classes in LzmaEncoder.dfy and LzmaDecoder.dfy are proved against these functions. */
module RangeCoder {
  import opened Options
  import opened Bytes

  const TOP: nat := 0x100_0000
  const TWO32: nat := 0x1_0000_0000
  const MODEL_TOTAL: nat := 2048
  const PROB_INIT: Prob := 1024

  type bit = b: int | 0 <= b < 2

  // ---------------------------------------------------------------- probabilities

  /** The range in which every probability stays for ever (see AdaptKeepsBounds). */
  predicate ProbOk(p: Prob) { 31 <= p <= 2017 }

  /** An 11-bit probability of a zero bit. */
  type Prob = p: int | 0 <= p <= 2048 witness 1024

  function Adapt(p: Prob, b: bit): Prob {
    if b == 0 then p + (MODEL_TOTAL - p) / 32 else p - p / 32
  }

  /** Neither end of 31..2017 can be crossed, from either side, by any bit. */
  lemma AdaptKeepsBounds(p: Prob, b: bit)
    requires ProbOk(p)
    ensures ProbOk(Adapt(p, b))
    ensures ProbOk(PROB_INIT)
  {
  }

  /** From p to p' is a 32nd, rounded down, of the way to the end that bit b stands for: 2048 for a 0, 0 for a 1. */
  predicate Moves(p: int, p': int, b: bit) {
    if b == 0 then 32 * (p' - p) <= 2048 - p < 32 * (p' - p) + 32
    else 32 * (p - p') <= p < 32 * (p - p') + 32
  }

  /** The law of adaptation: it leaves no choice of the probability after a bit. */
  lemma AdaptMoves(p: Prob, p': Prob, b: bit)
    ensures Moves(p, p', b) <==> p' == Adapt(p, b)
  {
  }

  function Bound(range: nat, prob: Prob): (bound: nat)
    ensures bound <= range
  {
    MulMono(range / MODEL_TOTAL, range / MODEL_TOTAL, prob, MODEL_TOTAL);
    range / MODEL_TOTAL * prob
  }

  /** With a normalised range and a probability in bounds, both halves of the interval survive,
      and each is large enough that one shift by eight bits normalises it again. */
  lemma BoundSplits(range: nat, p: Prob)
    requires TOP <= range < TWO32 && ProbOk(p)
    ensures TOP / 256 < Bound(range, p) < range
    ensures TOP / 256 < range - Bound(range, p)
  {
    var q := range / MODEL_TOTAL;
    assert q >= 8192;
    assert q * p >= 8192 * 31 by { MulMono(8192, q, 31, p); }
    assert q * p <= q * 2017 by { MulMono(q, q, p, 2017); }
    assert range >= q * 2048;
  }

  lemma MulMono(a: nat, b: nat, c: nat, d: nat)
    requires a <= b && c <= d
    ensures a * c <= b * d
  {
  }

  // ---------------------------------------------------------------- encoder

  /** `low` is the 33-bit accumulator, `cache` the last settled byte and `cacheSize - 1` the
      number of 0xFF bytes behind it that a carry would still turn over. */
  datatype Enc = Enc(low: nat, range: nat, cacheSize: nat, cache: byte, out: seq<byte>)

  const ENC_INIT := Enc(0, 0xFFFF_FFFF, 1, 0, [])

  datatype Event = Coin(prob: Prob, b: bit) | Raw(b: bit)

  function ShiftLow(e: Enc): Enc
    requires e.cacheSize >= 1
  {
    var carry := e.low / TWO32 % 256;
    if e.low % TWO32 < 0xFF00_0000 || e.low / TWO32 != 0 then
      Enc(e.low % TOP * 256, e.range, 1, e.low % TWO32 / TOP,
          e.out + [(e.cache + carry) % 256] + Repeat((255 + carry) % 256, e.cacheSize - 1))
    else
      Enc(e.low % TOP * 256, e.range, e.cacheSize + 1, e.cache, e.out)
  }

  function Shrink(e: Enc, ev: Event): Enc {
    match ev
    case Coin(p, b) =>
      var bound := Bound(e.range, p);
      if b == 0 then e.(range := bound)
      else e.(low := e.low + bound, range := e.range - bound)
    case Raw(b) =>
      var half := e.range / 2;
      e.(low := e.low + half * b, range := half)
  }

  function Normalize(e: Enc): Enc
    requires e.cacheSize >= 1
  {
    if e.range < TOP then ShiftLow(e.(range := e.range * 256)) else e
  }

  function Encode(e: Enc, ev: Event): Enc
    requires e.cacheSize >= 1
  {
    Normalize(Shrink(e, ev))
  }

  function Shifted(e: Enc, n: nat): (r: Enc)
    requires e.cacheSize >= 1
    ensures r.cacheSize >= 1
  {
    if n == 0 then e else ShiftLow(Shifted(e, n - 1))
  }

  function Flush(e: Enc): Enc
    requires e.cacheSize >= 1
  {
    Shifted(e, 5)
  }

  predicate EventOk(ev: Event) { ev.Coin? ==> ProbOk(ev.prob) }

  // ------------------------------------------------- the exact value behind the state

  /** Bytes settled or pending. */
  function Digits(e: Enc): nat { |e.out| + e.cacheSize }

  /** The bytes written, the cache, the pending 0xFF bytes, as one number. */
  function Settled(e: Enc): nat
    requires e.cacheSize >= 1
  {
    Num(e.out + [e.cache] + Repeat(255, e.cacheSize - 1))
  }

  /** The exact, unbounded-precision low end of the coding interval. */
  function Value(e: Enc): nat
    requires e.cacheSize >= 1
  {
    Settled(e) * TWO32 + e.low
  }

  /** What every reachable encoder state satisfies. The last two lines are why a carry never
      overflows a byte already settled and why the first byte of every stream is 0. */
  predicate EncInv(e: Enc) {
    && e.cacheSize >= 1
    && 1 <= e.range < TWO32
    && e.low + e.range <= 2 * TWO32 - 512
    && (e.cache == 255 ==> e.low + e.range <= TWO32)
    && (e.out == [] ==> e.cache == 0 && e.low + e.range <= TWO32)
    && (e.out != [] ==> e.out[0] == 0)
  }

  lemma EmitSettles(e: Enc)
    requires e.cacheSize >= 1 && e.low < 2 * TWO32 && (e.low >= TWO32 ==> e.cache < 255)
    requires e.low % TWO32 < 0xFF00_0000 || e.low / TWO32 != 0
    ensures Num(ShiftLow(e).out) == Settled(e) + e.low / TWO32
  {
    if e.low >= TWO32 {
      assert e.low / TWO32 == 1;
      CarryRipples(e.out, e.cache, e.cacheSize - 1);
    } else {
      assert e.low / TWO32 == 0;
    }
  }

  /** What a shift does to the settled bytes: it appends the top byte of `low`, after adding
      the carry, whether the bytes are written out or stay pending. */
  lemma ShiftSettled(e: Enc)
    requires e.cacheSize >= 1 && e.low < 2 * TWO32 && (e.low >= TWO32 ==> e.cache < 255)
    ensures Settled(ShiftLow(e)) == (Settled(e) + e.low / TWO32) * 256 + e.low % TWO32 / TOP
  {
    if e.low % TWO32 < 0xFF00_0000 || e.low / TWO32 != 0 {
      EmitSettles(e);
      var e', top := ShiftLow(e), e.low % TWO32 / TOP;
      NumSnoc(e'.out, top);
      assert e'.out + [top] + Repeat(255, 0) == e'.out + [top];
    } else {
      SnocRepeat(e.out + [e.cache], 255, e.cacheSize - 1);
    }
  }

  /** Carry correctness: one shift multiplies the exact value by 256, whatever is pending. */
  lemma ShiftValue(e: Enc)
    requires EncInv(e)
    ensures Value(ShiftLow(e)) == 256 * Value(e)
    ensures Digits(ShiftLow(e)) == Digits(e) + 1
  {
    ShiftSettled(e);
    SplitLow(e.low);
  }

  lemma SplitLow(low: nat)
    ensures low == low / TWO32 * TWO32 + low % TWO32 / TOP * TOP + low % TOP
  {
  }

  /** A shift taken when the interval is narrower than 2^24 keeps the invariant. */
  lemma NormalizeKeepsInv(e: Enc)
    requires EncInv(e) && TOP / 256 < e.range
    ensures EncInv(Normalize(e)) && Normalize(e).range >= TOP
  {
    SplitLow(e.low);
  }

  lemma ShrinkKeepsInv(e: Enc, ev: Event)
    requires EncInv(e) && e.range >= TOP && EventOk(ev)
    ensures EncInv(Shrink(e, ev)) && TOP / 256 < Shrink(e, ev).range
  {
    if ev.Coin? { BoundSplits(e.range, ev.prob); }
  }

  lemma EncodeKeepsInv(e: Enc, ev: Event)
    requires EncInv(e) && e.range >= TOP && EventOk(ev)
    ensures EncInv(Encode(e, ev)) && Encode(e, ev).range >= TOP
  {
    ShrinkKeepsInv(e, ev);
    NormalizeKeepsInv(Shrink(e, ev));
  }

  // ---------------------------------------------------------------- nested intervals

  /** The interval of f lies inside the interval of e, at f's finer scale. */
  predicate Within(f: Enc, e: Enc)
    requires e.cacheSize >= 1 && f.cacheSize >= 1
  {
    && Digits(e) <= Digits(f)
    && Value(e) * Pow256(Digits(f) - Digits(e)) <= Value(f)
    && Value(f) + f.range <= (Value(e) + e.range) * Pow256(Digits(f) - Digits(e))
  }

  lemma WithinTrans(g: Enc, f: Enc, e: Enc)
    requires e.cacheSize >= 1 && f.cacheSize >= 1 && g.cacheSize >= 1
    requires Within(f, e) && Within(g, f)
    ensures Within(g, e)
  {
    var a, b := Digits(f) - Digits(e), Digits(g) - Digits(f);
    PowSum(a, b);
    ScaleMono(Value(e), Pow256(a), Value(f), Pow256(b));
    ScaleMono'(Value(f) + f.range, Value(e) + e.range, Pow256(a), Pow256(b));
  }

  lemma ScaleMono(x: nat, p: nat, y: nat, q: nat)
    requires x * p <= y
    ensures x * (p * q) <= y * q
  {
    MulMono(x * p, y, q, q);
    assert x * (p * q) == (x * p) * q;
  }

  lemma ScaleMono'(y: nat, x: nat, p: nat, q: nat)
    requires y <= x * p
    ensures y * q <= x * (p * q)
  {
    MulMono(y, x * p, q, q);
    assert x * (p * q) == (x * p) * q;
  }

  lemma ShrinkWithin(e: Enc, ev: Event)
    requires EncInv(e) && e.range >= TOP && EventOk(ev)
    ensures Within(Shrink(e, ev), e)
  {
    ShrinkKeepsInv(e, ev);
    if ev.Coin? { BoundSplits(e.range, ev.prob); }
    assert Settled(Shrink(e, ev)) == Settled(e);
    assert Pow256(0) == 1;
  }

  lemma NormalizeWithin(e: Enc)
    requires EncInv(e) && TOP / 256 < e.range
    ensures Within(Normalize(e), e)
  {
    if e.range < TOP {
      NormalizeValue(e);
      assert Pow256(1) == 256 * Pow256(0);
    }
  }

  lemma EncodeWithin(e: Enc, ev: Event)
    requires EncInv(e) && e.range >= TOP && EventOk(ev)
    ensures EncInv(Encode(e, ev)) && Within(Encode(e, ev), e)
  {
    EncodeKeepsInv(e, ev);
    ShrinkKeepsInv(e, ev);
    ShrinkWithin(e, ev);
    NormalizeWithin(Shrink(e, ev));
    WithinTrans(Encode(e, ev), Shrink(e, ev), e);
  }

  // ---------------------------------------------------------------- the finished stream

  /** s is the byte string that names e's value exactly. */
  predicate Names(s: seq<byte>, e: Enc)
    requires e.cacheSize >= 1
  {
    |s| == Digits(e) + 4 && Num(s) == Value(e)
  }

  predicate FlushInv(e: Enc) {
    && e.cacheSize >= 1
    && e.low < 2 * TWO32 - 512
    && (e.cache == 255 ==> e.low < TWO32)
    && (e.out == [] ==> e.cache == 0 && e.low < TWO32)
    && (e.out != [] ==> e.out[0] == 0)
  }

  lemma FlushShift(e: Enc)
    requires FlushInv(e)
    ensures FlushInv(ShiftLow(e)) && ShiftLow(e).low == e.low % TOP * 256
    ensures Value(ShiftLow(e)) == 256 * Value(e) && Digits(ShiftLow(e)) == Digits(e) + 1
  {
    ShiftValue(e.(range := 1));
    assert ShiftLow(e.(range := 1)) == ShiftLow(e).(range := 1);
  }

  lemma DropTop(h: nat, l: nat)
    requires l < TOP
    ensures (h * TOP + l) % TOP == l
  {
  }

  lemma LowDrains(x: nat)
    ensures x % TOP * 256 % TOP * 256 % TOP * 256 % TOP * 256 == 0
  {
    var l := x % TOP;
    var b2, l2 := l / 0x1_0000, l % 0x1_0000;
    var b1, b0 := l2 / 0x100, l2 % 0x100;
    DropTop(b2, b1 * 0x1_0000 + b0 * 0x100);
    DropTop(b1, b0 * 0x1_0000);
    DropTop(b0, 0);
  }

  lemma {:induction false} ShiftedValue(e: Enc, n: nat)
    requires FlushInv(e)
    ensures FlushInv(Shifted(e, n)) && Digits(Shifted(e, n)) == Digits(e) + n
    ensures Value(Shifted(e, n)) == Value(e) * Pow256(n)
    ensures n > 0 ==> Shifted(e, n).low == Shifted(e, n - 1).low % TOP * 256
  {
    if n == 0 {
      assert Pow256(0) == 1;
    } else {
      ShiftedValue(e, n - 1);
      FlushShift(Shifted(e, n - 1));
      MulAssoc(Value(e), Pow256(n - 1));
    }
  }

  lemma ShiftedLow(e: Enc)
    requires e.cacheSize >= 1
    ensures Shifted(e, 4).low == 0
  {
    var e1 := ShiftLow(e);
    var e2 := ShiftLow(e1);
    var e3 := ShiftLow(e2);
    LowDrains(e.low);
    assert Shifted(e, 1) == ShiftLow(Shifted(e, 0));
    assert Shifted(e, 2) == e2;
    assert Shifted(e, 3) == e3;
  }

  lemma FlushedState(e: Enc)
    requires EncInv(e)
    ensures var r := Flush(e);
            r.low == 0 && r.cache == 0 && r.cacheSize == 1 && |r.out| == Digits(e) + 4 && r.out[0] == 0
    ensures Value(Flush(e)) == Value(e) * Pow256(5)
  {
    ShiftedLow(e);
    ShiftedValue(e, 5);
    assert Shifted(e, 5) == ShiftLow(Shifted(e, 4));
  }

  /** Five shifts push the whole accumulator out: the bytes written are exactly the value, none
      is left pending, and the first of them is 0. */
  lemma FlushNames(e: Enc)
    requires EncInv(e)
    ensures Names(Flush(e).out, e)
    ensures Flush(e).out[0] == 0
  {
    FlushedState(e);
    var r := Flush(e);
    assert Pow256(2) == 0x1_0000;
    assert Pow256(5) == 256 * TWO32;
    NumSnoc(r.out, 0);
    assert r.out + [0] + Repeat(255, 0) == r.out + [0];
  }

  /** The stream prefix at e's digit count lies in e's interval. */
  ghost predicate Pinned(s: seq<byte>, e: Enc)
    requires e.cacheSize >= 1
  {
    Digits(e) + 4 <= |s| && Value(e) <= Num(s[..Digits(e) + 4]) < Value(e) + e.range
  }

  /** Any prefix of the finished stream lies in the interval the encoder had when it had
      settled that many digits: this is what lets the decoder work byte by byte. */
  lemma PrefixWithin(s: seq<byte>, f: Enc, e: Enc)
    requires e.cacheSize >= 1 && f.cacheSize >= 1 && f.range >= 1
    requires Within(f, e) && Names(s, f)
    ensures Pinned(s, e)
  {
    var m := Digits(e) + 4;
    var p := Pow256(|s| - m);
    assert s == s[..m] + s[m..];
    NumSplit(s[..m], s[m..]);
    Descale(Value(e), Num(s[..m]), Value(e) + e.range, p, Num(s[m..]));
  }

  lemma Descale(a: nat, b: nat, c: nat, p: nat, r: nat)
    requires r < p
    requires a * p <= b * p + r < c * p
    ensures a <= b < c
  {
    if a > b {
      assert (b + 1) * p == b * p + p;
      MulMono(b + 1, a, p, p);
    } else if b >= c {
      MulMono(c, b, p, p);
    }
  }

  // ---------------------------------------------------------------- decoder

  datatype Dec = Dec(range: nat, code: nat, pos: nat)

  /** The decoder's start: byte 0 is skipped, the next four fill the code register. */
  function InitRc(s: seq<byte>): Option<Dec> {
    if |s| < 5 || s[0] != 0 then None
    else Some(Dec(0xFFFF_FFFF, Num(s[1..5]), 5))
  }

  /** NORMALIZE; None when the input is exhausted. */
  function Refill(d: Dec, s: seq<byte>): Option<Dec> {
    if d.range >= TOP then Some(d)
    else if d.pos >= |s| then None
    else Some(Dec(d.range * 256, (d.code * 256 + s[d.pos]) % TWO32, d.pos + 1))
  }

  /** IF_BIT_0 / UPDATE_0 / UPDATE_1. */
  function DecodeCoin(d: Dec, s: seq<byte>, prob: Prob): Option<(bit, Dec)> {
    var d :- Refill(d, s);
    var bound := Bound(d.range, prob);
    if d.code < bound then Some((0, d.(range := bound)))
    else Some((1, d.(range := d.range - bound, code := d.code - bound)))
  }

  /** One direct bit: the 32-bit difference's sign bit selects, exactly as the source does. */
  function DecodeRaw(d: Dec, s: seq<byte>): Option<(bit, Dec)> {
    var d :- Refill(d, s);
    var half := d.range / 2;
    var diff := (d.code - half) % TWO32;
    if diff >= TWO32 / 2 then Some((0, d.(range := half, code := (diff + half) % TWO32)))
    else Some((1, d.(range := half, code := diff)))
  }

  function DecodeEvent(d: Dec, s: seq<byte>, ev: Event): Option<(bit, Dec)> {
    match ev
    case Coin(p, _) => DecodeCoin(d, s, p)
    case Raw(_) => DecodeRaw(d, s)
  }

  /** The decoder's registers mirror the encoder's: after normalising, the ranges agree and the
      code is the distance of the stream prefix above the encoder's exact value. */
  ghost predicate Mirrors(d: Dec, s: seq<byte>, e: Enc)
    requires e.cacheSize >= 1
  {
    && var r := Refill(d, s);
    && r.Some?
    && r.value.range == e.range
    && r.value.pos == Digits(e) + 4 <= |s|
    && Value(e) + r.value.code == Num(s[..r.value.pos])
  }

  lemma InitMirrors(s: seq<byte>, f: Enc)
    requires EncInv(f) && Within(f, ENC_INIT) && Names(s, f) && s[0] == 0
    ensures InitRc(s).Some? && Mirrors(InitRc(s).value, s, ENC_INIT)
  {
    PrefixWithin(s, f, ENC_INIT);
    NumSplit([s[0]], s[1..5]);
    assert [s[0]] + s[1..5] == s[..5];
    NumSnoc([], 0);
    assert [] + [0] + Repeat(255, 0) == [0];
    assert [] + [0] == [0] == [s[0]];
  }

  /** A code register inside one half of the interval makes the decoder choose that half. */
  lemma ChoosesHalf(d: Dec, s: seq<byte>, e: Enc, ev: Event)
    requires TOP <= e.range < TWO32 && EventOk(ev)
    requires Refill(d, s).Some? && Refill(d, s).value.range == e.range
    requires var n, code := Shrink(e, ev), Refill(d, s).value.code;
             n.low <= e.low + code < n.low + n.range
    ensures var n, d0 := Shrink(e, ev), Refill(d, s).value;
            DecodeEvent(d, s, ev) == Some((ev.b, Dec(n.range, e.low + d0.code - n.low, d0.pos)))
  {
    if ev.Coin? {
      BoundSplits(e.range, ev.prob);
    } else {
      var d0 := Refill(d, s).value;
      RawDiff(d0.range, d0.code);
    }
  }

  lemma RawDiff(range: nat, code: nat)
    requires range < TWO32 && code < range / 2 * 2
    ensures var half := range / 2;
            var diff := (code - half) % TWO32;
            if code < half then diff >= TWO32 / 2 && (diff + half) % TWO32 == code
            else diff < TWO32 / 2 && diff == code - half
  {
    var half := range / 2;
    if code < half {
      assert (code - half) % TWO32 == code - half + TWO32;
    }
  }

  lemma PinnedHalf(s: seq<byte>, n: Enc, f: Enc)
    requires EncInv(n) && TOP / 256 < n.range && EncInv(f)
    requires Within(f, Normalize(n)) && Names(s, f)
    ensures Pinned(s, n)
  {
    NormalizeWithin(n);
    WithinTrans(f, Normalize(n), n);
    PrefixWithin(s, f, n);
  }

  lemma CodeInHalf(d: Dec, s: seq<byte>, e: Enc, ev: Event)
    requires EncInv(e) && Mirrors(d, s, e) && Pinned(s, Shrink(e, ev))
    ensures var n, d0 := Shrink(e, ev), Refill(d, s).value;
            && n.low <= e.low + d0.code < n.low + n.range
            && d0.pos == Digits(n) + 4 <= |s|
            && Value(n) + (e.low + d0.code - n.low) == Num(s[..d0.pos])
  {
    assert Settled(Shrink(e, ev)) == Settled(e);
  }

  /** The heart of the round trip: reading one event with the encoder's probability returns the
      encoder's bit and keeps the two sides mirrored. */
  lemma DecodeMirrors(d: Dec, s: seq<byte>, e: Enc, ev: Event)
    requires EncInv(e) && e.range >= TOP && EventOk(ev)
    requires Mirrors(d, s, e)
    requires Pinned(s, Shrink(e, ev)) && Pinned(s, Encode(e, ev))
    ensures var r := DecodeEvent(d, s, ev);
            r.Some? && r.value.0 == ev.b && Mirrors(r.value.1, s, Encode(e, ev))
  {
    CodeInHalf(d, s, e, ev);
    ChoosesHalf(d, s, e, ev);
    ShrinkKeepsInv(e, ev);
    NormalizeKeepsInv(Shrink(e, ev));
    RefillMirrors(DecodeEvent(d, s, ev).value.1, s, Shrink(e, ev));
  }

  lemma RefillMirrors(d: Dec, s: seq<byte>, n: Enc)
    requires EncInv(n) && EncInv(Normalize(n)) && Pinned(s, Normalize(n))
    requires d.range == n.range && d.pos == Digits(n) + 4 <= |s|
    requires Value(n) + d.code == Num(s[..d.pos]) && d.code < n.range
    ensures Mirrors(d, s, Normalize(n))
  {
    if n.range < TOP {
      NormalizeValue(n);
      PrefixGrows(s, d.pos);
      assert d.code * 256 + s[d.pos] < TWO32;
    }
  }

  lemma PrefixGrows(s: seq<byte>, k: nat)
    requires k < |s|
    ensures Num(s[..k + 1]) == Num(s[..k]) * 256 + s[k]
  {
    NumSnoc(s[..k], s[k]);
    assert s[..k + 1] == s[..k] + [s[k]];
  }

  lemma NormalizeValue(n: Enc)
    requires EncInv(n) && n.range < TOP
    ensures Value(Normalize(n)) == 256 * Value(n) && Digits(Normalize(n)) == Digits(n) + 1
    ensures Normalize(n).range == 256 * n.range
  {
    var n' := n.(range := n.range * 256);
    assert ShiftLow(n') == ShiftLow(n).(range := n'.range);
    ShiftValue(n);
  }

  /** At the end nothing is left over: the code register is 0 and every byte was consumed. */
  lemma EndMirrors(d: Dec, s: seq<byte>, f: Enc)
    requires f.cacheSize >= 1 && Names(s, f) && Mirrors(d, s, f)
    ensures Refill(d, s) == Some(Dec(f.range, 0, |s|))
  {
    assert s[..|s|] == s;
  }
}
