/** Runs of the range coder over contexts: the encoder's coding steps with their adapting
    probabilities, the decoder's bit over its flat probability array, and the proof that reading
    a step in the context it was coded in returns its bit, up to the round trip of whole runs. */
module Symbols {
  import opened Options
  import opened Bytes
  import opened RangeCoder
  import opened Contexts

  // ---------------------------------------------------------------- coding steps

  datatype Step = Model(ctx: Ctx, b: bit) | Direct(b: bit)

  /** The encoder: range coder registers and one probability per context. A context that was
      never coded still has its initial probability. */
  datatype Coder = Coder(rc: Enc, probs: map<Ctx, Prob>)

  const CODER_INIT := Coder(ENC_INIT, map[])

  function ProbOf(probs: map<Ctx, Prob>, c: Ctx): Prob {
    if c in probs then probs[c] else PROB_INIT
  }

  /** Width w is half of range, give or take what rounding to 2048ths makes. */
  predicate Half(w: nat, range: nat) { -2048 < 2 * w - range < 2048 }

  lemma EvenBound(range: nat)
    ensures Half(Bound(range, 1024), range) && Half(range - Bound(range, 1024), range)
  {
    var q := range / 2048;
    assert Bound(range, 1024) == q * 1024;
  }

  /** In a context not coded yet a 0 and a 1 share the range evenly, in the encoder ... */
  lemma FreshIsEven(c: Coder, ctx: Ctx, b: bit)
    requires ctx !in c.probs
    ensures Half(Shrink(c.rc, EventOf(c, Model(ctx, b))).range, c.rc.range)
  {
    EvenBound(c.rc.range);
  }

  /** ... and in the decoder. */
  lemma FreshReadIsEven(s: seq<byte>, i: nat)
    requires InitReader(s).Some? && i < NUM_PROBS
    ensures var r := InitReader(s).value;
            ReadBit(r, s, i).Some? ==> Refill(r.rc, s).Some? && Half(ReadBit(r, s, i).value.1.rc.range, Refill(r.rc, s).value.range)
  {
    var r := InitReader(s).value;
    if ReadBit(r, s, i).Some? { EvenBound(Refill(r.rc, s).value.range); }
  }

  function EventOf(c: Coder, st: Step): Event {
    match st
    case Model(ctx, b) => Coin(ProbOf(c.probs, ctx), b)
    case Direct(b) => Raw(b)
  }

  function Apply(c: Coder, st: Step): (c': Coder)
    requires c.rc.cacheSize >= 1
    ensures c'.rc.cacheSize >= 1
  {
    Coder(Encode(c.rc, EventOf(c, st)),
          if st.Model? then c.probs[st.ctx := Adapt(ProbOf(c.probs, st.ctx), st.b)] else c.probs)
  }

  function Run(c: Coder, steps: seq<Step>): (c': Coder)
    requires c.rc.cacheSize >= 1
    ensures c'.rc.cacheSize >= 1
    decreases |steps|
  {
    if steps == [] then c else Run(Apply(c, steps[0]), steps[1..])
  }

  lemma {:induction false} RunAppend(c: Coder, a: seq<Step>, b: seq<Step>)
    requires c.rc.cacheSize >= 1
    ensures Run(c, a + b) == Run(Run(c, a), b)
    decreases |a|
  {
    if a == [] {
      assert a + b == b;
    } else {
      assert (a + b)[1..] == a[1..] + b;
      RunAppend(Apply(c, a[0]), a[1..], b);
    }
  }

  /** Every probability in 31..2017, the registers sound and normalised. */
  ghost predicate CoderOk(c: Coder) {
    && EncInv(c.rc) && c.rc.range >= TOP
    && forall x :: x in c.probs ==> ProbOk(c.probs[x])
  }

  ghost predicate StepsOk(steps: seq<Step>) {
    forall i :: 0 <= i < |steps| && steps[i].Model? ==> Valid(steps[i].ctx)
  }

  lemma ApplyOk(c: Coder, st: Step)
    requires CoderOk(c)
    ensures CoderOk(Apply(c, st)) && EventOk(EventOf(c, st)) && Within(Apply(c, st).rc, c.rc)
  {
    EncodeKeepsInv(c.rc, EventOf(c, st));
    EncodeWithin(c.rc, EventOf(c, st));
    if st.Model? { AdaptKeepsBounds(ProbOf(c.probs, st.ctx), st.b); }
  }

  /** The bounds that keep the coder alive, over every run of the encoder. */
  lemma {:induction false} RunOk(c: Coder, steps: seq<Step>)
    requires CoderOk(c)
    ensures CoderOk(Run(c, steps)) && Within(Run(c, steps).rc, c.rc)
    decreases |steps|
  {
    if steps == [] {
      assert Pow256(0) == 1;
    } else {
      var c' := Apply(c, steps[0]);
      ApplyOk(c, steps[0]);
      RunOk(c', steps[1..]);
      WithinTrans(Run(c, steps).rc, c'.rc, c.rc);
    }
  }

  /** A run of n steps leaves at most n pending bytes: the source's 32-bit count cannot wrap before 2^32 - 1 steps. */
  lemma {:induction false} PendingBound(c: Coder, steps: seq<Step>)
    requires c.rc.cacheSize >= 1
    ensures Run(c, steps).rc.cacheSize <= c.rc.cacheSize + |steps|
    decreases |steps|
  {
    if steps != [] { PendingBound(Apply(c, steps[0]), steps[1..]); }
  }

  // ---------------------------------------------------------------- the reading side

  /** The decoder: range decoder registers and the flat probability array. */
  datatype Reader = Reader(rc: Dec, probs: seq<Prob>)

  /** What keeps the decoder alive, on any input: the range can be normalised by one shift, and
      every probability is in 31..2017. */
  predicate ReaderOk(r: Reader) {
    && TOP / 256 <= r.rc.range < TWO32
    && |r.probs| == NUM_PROBS
    && forall i :: 0 <= i < NUM_PROBS ==> ProbOk(r.probs[i])
  }

  function ReadBit(r: Reader, s: seq<byte>, i: nat): (res: Option<(bit, Reader)>)
    requires i < |r.probs|
    ensures res.Some? ==> |res.value.1.probs| == |r.probs|
    ensures res.Some? && ReaderOk(r) ==> ReaderOk(res.value.1)
  {
    var (b, rc) :- DecodeCoin(r.rc, s, r.probs[i]);
    assert ReaderOk(r) ==> TOP / 256 <= rc.range < TWO32 && ProbOk(Adapt(r.probs[i], b)) by {
      if ReaderOk(r) { ReadBitOk(r, s, i); }
    }
    Some((b, Reader(rc, r.probs[i := Adapt(r.probs[i], b)])))
  }

  lemma ReadBitOk(r: Reader, s: seq<byte>, i: nat)
    requires i < |r.probs| && ReaderOk(r)
    ensures var d := DecodeCoin(r.rc, s, r.probs[i]);
            d.Some? ==> TOP / 256 <= d.value.1.range < TWO32 && ProbOk(Adapt(r.probs[i], d.value.0))
  {
    var d := Refill(r.rc, s);
    if d.Some? {
      BoundSplits(d.value.range, r.probs[i]);
      AdaptKeepsBounds(r.probs[i], 0);
      AdaptKeepsBounds(r.probs[i], 1);
    }
  }

  function ReadDirect(r: Reader, s: seq<byte>): (res: Option<(bit, Reader)>)
    ensures res.Some? ==> res.value.1.probs == r.probs
    ensures res.Some? && ReaderOk(r) ==> ReaderOk(res.value.1)
  {
    var (b, rc) :- DecodeRaw(r.rc, s);
    Some((b, r.(rc := rc)))
  }

  ghost predicate ProbsMirror(ep: map<Ctx, Prob>, dp: seq<Prob>) {
    |dp| == NUM_PROBS && forall c :: Valid(c) ==> Index(c) < NUM_PROBS && dp[Index(c)] == ProbOf(ep, c)
  }

  /** The reader stands where some encoder stood just before coding `steps`, and s is what that
      encoder wrote after coding them and flushing. */
  ghost predicate InSync(c: Coder, steps: seq<Step>, r: Reader, s: seq<byte>) {
    && CoderOk(c) && StepsOk(steps)
    && Names(s, Run(c, steps).rc)
    && Mirrors(r.rc, s, c.rc)
    && ProbsMirror(c.probs, r.probs)
  }

  ghost predicate Ready(r: Reader, s: seq<byte>, steps: seq<Step>) {
    exists c :: InSync(c, steps, r, s)
  }

  /** Decoding a step in the context it was coded in yields its bit, whatever follows. */
  lemma SyncStep(c: Coder, st: Step, rest: seq<Step>, r: Reader, s: seq<byte>)
    requires InSync(c, [st] + rest, r, s)
    ensures st.Model? ==> Index(st.ctx) < |r.probs|
    ensures var res := if st.Model? then ReadBit(r, s, Index(st.ctx)) else ReadDirect(r, s);
            res.Some? && res.value.0 == st.b && InSync(Apply(c, st), rest, res.value.1, s)
  {
    var steps := [st] + rest;
    assert steps[0] == st && steps[1..] == rest;
    var ev, c', f := EventOf(c, st), Apply(c, st), Run(c, steps).rc;
    ApplyOk(c, st);
    RunOk(c', rest);
    SyncEvent(c.rc, ev, f, r.rc, s);
    assert StepsOk(rest) by { assert forall i :: 0 <= i < |rest| ==> rest[i] == steps[i + 1]; }
    if st.Model? {
      assert Valid(steps[0].ctx);
      MirrorUpdate(c.probs, r.probs, st.ctx, Adapt(ev.prob, st.b));
    }
  }

  lemma SyncEvent(e: Enc, ev: Event, f: Enc, d: Dec, s: seq<byte>)
    requires EncInv(e) && e.range >= TOP && EventOk(ev) && EncInv(f)
    requires EncInv(Encode(e, ev)) && Within(f, Encode(e, ev)) && Names(s, f) && Mirrors(d, s, e)
    ensures var res := DecodeEvent(d, s, ev);
            res.Some? && res.value.0 == ev.b && Mirrors(res.value.1, s, Encode(e, ev))
  {
    ShrinkKeepsInv(e, ev);
    PinnedHalf(s, Shrink(e, ev), f);
    PrefixWithin(s, f, Encode(e, ev));
    DecodeMirrors(d, s, e, ev);
  }

  lemma MirrorUpdate(ep: map<Ctx, Prob>, dp: seq<Prob>, c: Ctx, p: Prob)
    requires ProbsMirror(ep, dp) && Valid(c)
    ensures ProbsMirror(ep[c := p], dp[Index(c) := p])
  {
    forall x | Valid(x)
      ensures Index(x) < NUM_PROBS && dp[Index(c) := p][Index(x)] == ProbOf(ep[c := p], x)
    {
      IndexInjective(x, c);
    }
  }

  lemma ReadModel(r: Reader, s: seq<byte>, ctx: Ctx, b: bit, rest: seq<Step>)
    requires Ready(r, s, [Model(ctx, b)] + rest)
    ensures Index(ctx) < |r.probs|
    ensures var res := ReadBit(r, s, Index(ctx));
            res.Some? && res.value.0 == b && Ready(res.value.1, s, rest)
  {
    var c :| InSync(c, [Model(ctx, b)] + rest, r, s);
    SyncStep(c, Model(ctx, b), rest, r, s);
  }

  lemma ReadRaw(r: Reader, s: seq<byte>, b: bit, rest: seq<Step>)
    requires Ready(r, s, [Direct(b)] + rest)
    ensures var res := ReadDirect(r, s);
            res.Some? && res.value.0 == b && Ready(res.value.1, s, rest)
  {
    var c :| InSync(c, [Direct(b)] + rest, r, s);
    SyncStep(c, Direct(b), rest, r, s);
  }

  // ---------------------------------------------------------------- whole streams

  /** Everything RangeEnc_Init .. RangeEnc_FlushData writes for these steps. */
  function StreamOf(steps: seq<Step>): seq<byte> {
    Flush(Run(CODER_INIT, steps).rc).out
  }

  function InitReader(s: seq<byte>): Option<Reader> {
    var rc :- InitRc(s);
    Some(Reader(rc, seq(NUM_PROBS, _ => PROB_INIT)))
  }

  /** A freshly started decoder is ready for everything the encoder wrote; byte 0 is 0. */
  lemma StreamReady(steps: seq<Step>)
    requires StepsOk(steps)
    ensures |StreamOf(steps)| >= 5 && StreamOf(steps)[0] == 0
    ensures var r := InitReader(StreamOf(steps));
            r.Some? && InSync(CODER_INIT, steps, r.value, StreamOf(steps))
  {
    var f, s := Run(CODER_INIT, steps).rc, StreamOf(steps);
    RunOk(CODER_INIT, steps);
    FlushNames(f);
    InitMirrors(s, f);
    forall c | Valid(c) ensures Index(c) < NUM_PROBS { IndexInjective(c, c); }
  }

  /** Normalising early changes nothing for what is still to be read. */
  lemma ReadyRefill(r: Reader, s: seq<byte>, steps: seq<Step>)
    requires Ready(r, s, steps)
    ensures var d := Refill(r.rc, s);
            d.Some? && d.value.range >= TOP && Ready(r.(rc := d.value), s, steps)
  {
    hide Run, ProbsMirror, Names, StepsOk;
    var c :| InSync(c, steps, r, s);
    assert InSync(c, steps, r.(rc := Refill(r.rc, s).value), s);
  }

  /** Once all steps are read, normalising consumes the last byte and leaves code 0. */
  lemma ReadyEnd(r: Reader, s: seq<byte>)
    requires Ready(r, s, [])
    ensures var d := Refill(r.rc, s); d.Some? && d.value.code == 0 && d.value.pos == |s|
  {
    var c :| InSync(c, [], r, s);
    EndMirrors(r.rc, s, c.rc);
  }

  /** Reading a list of steps in the given contexts. */
  function ReadAll(r: Reader, s: seq<byte>, asked: seq<Step>): Option<(seq<bit>, Reader)>
    requires |r.probs| == NUM_PROBS && StepsOk(asked)
    decreases |asked|
  {
    if asked == [] then Some(([], r)) else
      assert asked[0].Model? ==> Index(asked[0].ctx) < NUM_PROBS by {
        if asked[0].Model? { IndexInjective(asked[0].ctx, asked[0].ctx); }
      }
      var (b, r1) :- if asked[0].Model? then ReadBit(r, s, Index(asked[0].ctx)) else ReadDirect(r, s);
      var (bs, r2) :- ReadAll(r1, s, asked[1..]);
      Some(([b] + bs, r2))
  }

  function BitsOf(steps: seq<Step>): seq<bit> { seq(|steps|, i requires 0 <= i < |steps| => steps[i].b) }

  lemma {:induction false} ReadAllSync(c: Coder, steps: seq<Step>, r: Reader, s: seq<byte>)
    requires StepsOk(steps) && |r.probs| == NUM_PROBS && InSync(c, steps, r, s)
    ensures var res := ReadAll(r, s, steps);
            res.Some? && res.value.0 == BitsOf(steps) && InSync(Run(c, steps), [], res.value.1, s)
    decreases |steps|
  {
    if steps != [] {
      var st, rest := steps[0], steps[1..];
      assert steps == [st] + rest;
      SyncStep(c, st, rest, r, s);
      var res := if st.Model? then ReadBit(r, s, Index(st.ctx)) else ReadDirect(r, s);
      ReadAllSync(Apply(c, st), rest, res.value.1, s);
      assert BitsOf(steps) == [st.b] + BitsOf(rest);
    }
  }

  /** Range coder round trip: for every list of context and direct bits, the decoder started on
      the encoder's bytes and asked in the same contexts returns exactly those bits, ends with
      the encoder's probabilities, on the last byte, with a zero code register. */
  lemma RangeCoderRoundTrip(steps: seq<Step>)
    requires StepsOk(steps)
    ensures var s := StreamOf(steps);
            var r := InitReader(s);
            && r.Some? && |r.value.probs| == NUM_PROBS
            && var res := ReadAll(r.value, s, steps);
            && res.Some? && res.value.0 == BitsOf(steps)
            && ProbsMirror(Run(CODER_INIT, steps).probs, res.value.1.probs)
            && var d := Refill(res.value.1.rc, s);
            && d.Some? && d.value.code == 0 && d.value.pos == |s|
  {
    StreamReady(steps);
    var s := StreamOf(steps);
    ReadAllSync(CODER_INIT, steps, InitReader(s).value, s);
    ReadyEnd(ReadAll(InitReader(s).value, s, steps).value.1, s);
  }
}
