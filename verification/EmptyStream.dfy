/** The bytes of the shortest stream, that of no data: the end marker and the flush. They are
    fixed by the source's formulas alone, whatever encoder and decoder have in common. */
module EmptyStream {
  import opened Bytes
  import opened Bits
  import opened RangeCoder
  import opened Contexts
  import opened Symbols
  import opened SymbolCoders
  import opened PosSlots
  import opened Lz
  import opened LzRoundTrip

  // ---------------------------------------------------------------- the registers

  /** The same event n times. */
  function Times(e: Enc, ev: Event, n: nat): (r: Enc)
    requires e.cacheSize >= 1
    ensures r.cacheSize >= 1
    decreases n
  {
    if n == 0 then e else Times(Encode(e, ev), ev, n - 1)
  }

  lemma {:induction false} TimesSum(e: Enc, ev: Event, m: nat, n: nat)
    requires e.cacheSize >= 1
    ensures Times(e, ev, m + n) == Times(Times(e, ev, m), ev, n)
    decreases m
  {
    if m > 0 { TimesSum(Encode(e, ev), ev, m - 1, n); }
  }

  /** An event that shares the range evenly. */
  predicate Even(ev: Event) { ev.Coin? ==> ev.prob == 1024 }

  function Part(b: bit, x: nat): nat { if b == 1 then x else 0 }

  lemma HalfOfPow(k: nat)
    requires k >= 11
    ensures Pow2(k) / 2 == Pow2(k - 1) == Pow2(k) / 2048 * 1024
  {
    hide Pow2;
    Pow2Next(k - 1); Pow2Next(k - 2); Pow2Next(k - 3); Pow2Next(k - 4); Pow2Next(k - 5); Pow2Next(k - 6);
    Pow2Next(k - 7); Pow2Next(k - 8); Pow2Next(k - 9); Pow2Next(k - 10); Pow2Next(k - 11);
    Halved(Pow2(k - 11));
  }

  lemma Halved(q: nat)
    ensures 2048 * q / 2 == 1024 * q == 2048 * q / 2048 * 1024
  {
  }

  /** One event on a range that is a power of two. */
  lemma EvenStep(e: Enc, ev: Event, k: nat)
    requires e.cacheSize >= 1 && Even(ev) && k >= 11 && e.range == Pow2(k)
    ensures Encode(e, ev) == Normalize(e.(low := e.low + Part(ev.b, Pow2(k - 1)), range := Pow2(k - 1)))
  {
    hide Pow2, Normalize;
    HalfOfPow(k);
    Pow2Next(k - 1);
  }

  /** n events before the range gets narrow. */
  lemma {:induction false} EvenSteps(e: Enc, ev: Event, n: nat, k: nat)
    requires e.cacheSize >= 1 && Even(ev) && n + 24 <= k && e.range == Pow2(k)
    ensures Pow2(k - n) <= Pow2(k)
    ensures Times(e, ev, n) == e.(low := e.low + Part(ev.b, Pow2(k) - Pow2(k - n)), range := Pow2(k - n))
    decreases n
  {
    hide Pow2, ShiftLow, Encode;
    Pow2Mono(k - n, k);
    if n > 0 {
      var next := e.(low := e.low + Part(ev.b, Pow2(k - 1)), range := Pow2(k - 1));
      EvenStep(e, ev, k);
      Pow2Next(k - 1);
      Pow2Mono(24, k - 1);
      assert Pow2(24) == TOP by { Wide(); }
      EvenSteps(next, ev, n - 1, k - 1);
    }
  }

  lemma Wide()
    ensures Pow2(23) == 0x80_0000 && Pow2(24) == TOP && Pow2(25) == 0x200_0000 && Pow2(26) == 0x400_0000
    ensures Pow2(28) == 0x1000_0000 && Pow2(29) == 0x2000_0000 && Pow2(30) == 0x4000_0000 && Pow2(31) == 0x8000_0000
  {
    assert Pow2(12) == 4096;
  }

  /** One more event from range 2^24: a shift makes it 2^31 again. */
  lemma NarrowStep(e: Enc, ev: Event)
    requires e.cacheSize >= 1 && Even(ev) && e.range == TOP
    ensures Times(e, ev, 1) == ShiftLow(e.(low := e.low + Part(ev.b, 0x80_0000), range := 0x8000_0000))
  {
    hide Pow2, ShiftLow, Encode;
    Wide();
    EvenStep(e, ev, 24);
    var next := Encode(e, ev);
    assert Times(e, ev, 1) == Times(next, ev, 0);
  }

  lemma ToNarrow(e: Enc, ev: Event, k: nat)
    requires e.cacheSize >= 1 && Even(ev) && 24 <= k && e.range == Pow2(k)
    ensures Pow2(k) >= TOP && Times(e, ev, k - 24) == e.(low := e.low + Part(ev.b, Pow2(k) - TOP), range := TOP)
  {
    hide Pow2, Times, Part;
    assert Pow2(24) == TOP by { Wide(); }
    Pow2Mono(24, k);
    EvenSteps(e, ev, k - 24, k);
  }

  /** Up to the next shift and over it: a range 2^k is narrow after k - 24 events. */
  lemma ToNextShift(e: Enc, ev: Event, k: nat)
    requires e.cacheSize >= 1 && Even(ev) && 24 <= k && e.range == Pow2(k)
    ensures Pow2(k) >= TOP
    ensures Times(e, ev, k - 23)
            == ShiftLow(e.(low := e.low + Part(ev.b, Pow2(k) - TOP) + Part(ev.b, 0x80_0000), range := 0x8000_0000))
  {
    hide Pow2, ShiftLow, Encode, Times, Part;
    ToNarrow(e, ev, k);
    NarrowStep(Times(e, ev, k - 24), ev);
    TimesSum(e, ev, k - 24, 1);
    assert k - 24 + 1 == k - 23;
  }

  const ZERO := Coin(1024, 0)
  const ONE := Coin(1024, 1)
  const RAW := Raw(1)

  const AFTER_LENGTH := Enc(0x7FFF_FC00, 0x400_0000, 1, 0, [])
  const AFTER_SLOT := Enc(0xEFFC_0000, 0x1000_0000, 1, 131, [0])
  const AFTER_DIRECT := Enc(0xFC00_0000, 0x400_0000, 2, 251, [0, 131, 255])
  const AFTER_ALIGN := Enc(0xC000_0000, 0x4000_0000, 3, 251, [0, 131, 255])

  /** A one and five zeros. */
  lemma FlagsAndLength()
    ensures Times(Times(ENC_INIT, ONE, 1), ZERO, 5) == AFTER_LENGTH
  {
    hide Pow2, ShiftLow;
    var e0 := ENC_INIT;
    var e1 := Enc(0x7FFF_FC00, 0x8000_03FF, 1, 0, []);
    var e2 := Enc(0x7FFF_FC00, 0x4000_0000, 1, 0, []);
    assert Encode(e0, ONE) == e1;
    assert Times(e0, ONE, 1) == Times(e1, ONE, 0) == e1;
    assert Encode(e1, ZERO) == e2;
    Wide();
    EvenSteps(e2, ZERO, 4, 30);
    assert Times(e1, ZERO, 5) == Times(e2, ZERO, 4);
  }

  /** Six ones, with one shift. */
  lemma Slot()
    ensures Times(AFTER_LENGTH, ONE, 6) == AFTER_SLOT
  {
    hide Pow2, Times, Encode, Repeat;
    Wide();
    ToNextShift(AFTER_LENGTH, ONE, 26);
    TimesSum(AFTER_LENGTH, ONE, 3, 3);
    assert Repeat(255, 0) == [] by { NoneOrOne(255); }
    var e := Enc(0x7FFC_0000, 0x8000_0000, 1, 131, [0]);
    assert Times(AFTER_LENGTH, ONE, 3) == e;
    EvenSteps(e, ONE, 3, 31);
  }

  lemma NoneOrOne(b: byte)
    ensures Repeat(b, 0) == [] && Repeat(b, 1) == [b] && Repeat(b, 2) == [b, b]
  {
  }

  /** 26 ones, with three shifts. */
  lemma Directs()
    ensures Times(AFTER_SLOT, RAW, 26) == AFTER_DIRECT
  {
    hide Pow2, Times, Encode, Repeat;
    Wide();
    NoneOrOne(255);
    NoneOrOne(0);
    var e1 := Enc(0x7C00_0000, 0x8000_0000, 2, 131, [0]);
    var e2 := Enc(0x8000_0000, 0x8000_0000, 1, 251, [0, 131, 255]);
    var e3 := Enc(0x8000_0000, 0x8000_0000, 2, 251, [0, 131, 255]);
    ToNextShift(AFTER_SLOT, RAW, 28);
    assert Times(AFTER_SLOT, RAW, 5) == e1;
    ToNextShift(e1, RAW, 31);
    assert Times(e1, RAW, 8) == e2;
    ToNextShift(e2, RAW, 31);
    assert Times(e2, RAW, 8) == e3;
    EvenSteps(e3, RAW, 5, 31);
    TimesSum(AFTER_SLOT, RAW, 5, 21);
    TimesSum(e1, RAW, 8, 13);
    TimesSum(e2, RAW, 8, 5);
  }

  /** Four ones, with one shift. */
  lemma Alignment()
    ensures Times(AFTER_DIRECT, ONE, 4) == AFTER_ALIGN
  {
    hide Pow2, Times, Encode, Repeat;
    Wide();
    NoneOrOne(255);
    var e := Enc(0x8000_0000, 0x8000_0000, 3, 251, [0, 131, 255]);
    ToNextShift(AFTER_DIRECT, ONE, 26);
    assert Times(AFTER_DIRECT, ONE, 3) == e;
    EvenSteps(e, ONE, 1, 31);
    TimesSum(AFTER_DIRECT, ONE, 3, 1);
  }

  /** Five shifts. */
  lemma FlushOut()
    ensures Flush(AFTER_ALIGN).out == [0, 131, 255, 251, 255, 255, 192, 0, 0, 0]
  {
    hide Repeat;
    NoneOrOne(255);
    NoneOrOne(0);
    var e0 := AFTER_ALIGN;
    var e1 := Enc(0, e0.range, 1, 192, [0, 131, 255, 251, 255, 255]);
    assert ShiftLow(e0) == e1;
    var e2 := Enc(0, e0.range, 1, 0, e1.out + [192]);
    assert ShiftLow(e1) == e2;
    var e3 := e2.(out := e2.out + [0]);
    assert ShiftLow(e2) == e3;
    var e4 := e3.(out := e3.out + [0]);
    assert ShiftLow(e3) == e4;
    var e5 := e4.(out := e4.out + [0]);
    assert ShiftLow(e4) == e5;
    assert Shifted(e0, 5) == ShiftLow(ShiftLow(ShiftLow(ShiftLow(ShiftLow(e0)))));
  }

  // ---------------------------------------------------------------- the coding steps

  /** Steps with bit b in contexts not coded before, each in its own. */
  predicate Fresh(seen: set<Ctx>, steps: seq<Step>, b: bit)
    decreases |steps|
  {
    steps == [] ||
    (steps[0].Model? && steps[0].b == b && steps[0].ctx !in seen && Fresh(seen + {steps[0].ctx}, steps[1..], b))
  }

  function Seen(seen: set<Ctx>, steps: seq<Step>): set<Ctx>
    decreases |steps|
  {
    if steps == [] then seen
    else Seen(if steps[0].Model? then seen + {steps[0].ctx} else seen, steps[1..])
  }

  lemma {:induction false} RunFresh(c: Coder, steps: seq<Step>, b: bit)
    requires c.rc.cacheSize >= 1 && Fresh(c.probs.Keys, steps, b)
    ensures Run(c, steps).rc == Times(c.rc, Coin(1024, b), |steps|)
    ensures Run(c, steps).probs.Keys == Seen(c.probs.Keys, steps)
    decreases |steps|
  {
    hide Encode;
    if steps != [] {
      var c' := Apply(c, steps[0]);
      assert c'.probs.Keys == c.probs.Keys + {steps[0].ctx};
      RunFresh(c', steps[1..], b);
    }
  }

  lemma {:induction false} RunDirect(c: Coder, x: nat, n: nat)
    requires c.rc.cacheSize >= 1 && forall k :: 0 <= k < n ==> BitAt(x, k) == 1
    ensures Run(c, DirectSteps(x, n)).rc == Times(c.rc, RAW, n)
    ensures Run(c, DirectSteps(x, n)).probs == c.probs
    decreases n
  {
    hide Encode, BitAt;
    if n > 0 {
      var steps := DirectSteps(x, n);
      assert steps[0] == Direct(1) && steps[1..] == DirectSteps(x, n - 1);
      RunDirect(Apply(c, Direct(1)), x, n - 1);
    }
  }

  /** Flags, length and slot of the end marker: a one, five zeros and six ones. */
  const FIRST := [Flag(IsMatch, 0, 1)]
  const ZEROS := [Flag(IsRep, 0, 0), Flag(LenChoice(false), 0, 0), Flag(LenLow(false), 1, 0),
                  Flag(LenLow(false), 2, 0), Flag(LenLow(false), 4, 0)]
  const SLOT := [Flag(PosSlot, 1, 1), Flag(PosSlot, 3, 1), Flag(PosSlot, 7, 1),
                 Flag(PosSlot, 15, 1), Flag(PosSlot, 31, 1), Flag(PosSlot, 63, 1)]
  const ALIGNMENT := [Flag(Align, 1, 1), Flag(Align, 3, 1), Flag(Align, 7, 1), Flag(Align, 15, 1)]

  lemma LengthSteps()
    ensures [Flag(IsRep, 0, 0)] + LenSteps(false, 0, 0) == ZEROS
  {
    assert TreeSteps(LenLow(false), 0, 3, 0) == [Flag(LenLow(false), 1, 0), Flag(LenLow(false), 2, 0), Flag(LenLow(false), 4, 0)];
  }

  lemma SlotSteps()
    ensures TreeSteps(PosSlot, 0, 6, 63) == SLOT
  {
    hide Pow2;
    assert TreeFrom(PosSlot, 0, 31, 1, 63) == [Flag(PosSlot, 31, 1)] + TreeFrom(PosSlot, 0, 63, 0, 63);
    assert TreeFrom(PosSlot, 0, 7, 3, 63) == [Flag(PosSlot, 7, 1), Flag(PosSlot, 15, 1), Flag(PosSlot, 31, 1)];
  }

  lemma AlignSteps()
    ensures ReverseSteps(Align, 0, 4, 15) == ALIGNMENT
  {
  }

  lemma {:induction false} OnesBelow(n: nat, k: nat)
    requires k < n
    ensures BitAt(Pow2(n) - 1, k) == 1
  {
    var p := Pow2(n - 1);
    assert (2 * p - 1) / 2 == p - 1 && (2 * p - 1) % 2 == 1;
    if k > 0 { OnesBelow(n - 1, k - 1); }
  }

  /** The end marker of an empty message. */
  lemma MarkerSteps(x: nat)
    requires x == Pow2(26) - 1
    ensures EndSteps(LZ_INIT) == FIRST + (ZEROS + (SLOT + (DirectSteps(x, 26) + ALIGNMENT)))
  {
    hide Pow2, LenSteps, DistSteps, TreeSteps, DirectSteps, ReverseSteps;
    EndMarkerSteps();
    LengthSteps();
    SlotSteps();
    AlignSteps();
    Pow2Next(29); Pow2Next(28); Pow2Next(27); Pow2Next(26);
    var rest := DirectSteps(x, 26) + ALIGNMENT;
    assert DistSteps(END_MARKER, 0) == SLOT + rest;
    assert [Flag(IsRep, 0, 0)] + (LenSteps(false, 0, 0) + (SLOT + rest)) == ZEROS + (SLOT + rest);
  }

  const SEEN1: set<Ctx> := {Ctx(IsMatch, 0)}
  const SEEN2: set<Ctx> := SEEN1 + {Ctx(IsRep, 0), Ctx(LenChoice(false), 0), Ctx(LenLow(false), 1),
                                    Ctx(LenLow(false), 2), Ctx(LenLow(false), 4)}
  const SEEN3: set<Ctx> := SEEN2 + {Ctx(PosSlot, 1), Ctx(PosSlot, 3), Ctx(PosSlot, 7),
                                    Ctx(PosSlot, 15), Ctx(PosSlot, 31), Ctx(PosSlot, 63)}

  lemma FreshFirst()
    ensures Fresh({}, FIRST, 1) && Seen({}, FIRST) == SEEN1
  {
  }

  lemma FreshZeros()
    ensures Fresh(SEEN1, ZEROS, 0) && Seen(SEEN1, ZEROS) == SEEN2
  {
  }

  lemma FreshSlot()
    ensures Fresh(SEEN2, SLOT, 1) && Seen(SEEN2, SLOT) == SEEN3
  {
  }

  lemma FreshAlignment()
    ensures Fresh(SEEN3, ALIGNMENT, 1)
  {
  }

  /** The four stretches behind the first flag. */
  lemma RunStretch(c: Coder, e: Enc, a: seq<Step>, b: bit, rest: seq<Step>, seen: set<Ctx>, seen': set<Ctx>)
    requires c.rc == e && c.probs.Keys == seen && e.cacheSize >= 1 && Fresh(seen, a, b) && Seen(seen, a) == seen'
    ensures Run(c, a + rest) == Run(Run(c, a), rest)
    ensures Run(c, a).rc == Times(e, Coin(1024, b), |a|) && Run(c, a).probs.Keys == seen'
  {
    RunAppend(c, a, rest);
    RunFresh(c, a, b);
  }

  /** Up to the slot. */
  lemma ToSlot(rest: seq<Step>) returns (c: Coder)
    ensures c.rc == AFTER_SLOT && c.probs.Keys == SEEN3
    ensures Run(CODER_INIT, FIRST + (ZEROS + (SLOT + rest))) == Run(c, rest)
  {
    hide Times, Encode, Run, Fresh, Seen;
    FreshFirst();
    FreshZeros();
    FreshSlot();
    assert CODER_INIT.probs.Keys == {};
    RunStretch(CODER_INIT, ENC_INIT, FIRST, 1, ZEROS + (SLOT + rest), {}, SEEN1);
    var c1 := Run(CODER_INIT, FIRST);
    RunStretch(c1, c1.rc, ZEROS, 0, SLOT + rest, SEEN1, SEEN2);
    FlagsAndLength();
    var c2 := Run(c1, ZEROS);
    RunStretch(c2, AFTER_LENGTH, SLOT, 1, rest, SEEN2, SEEN3);
    Slot();
    c := Run(c2, SLOT);
  }

  /** From the slot to the last bit. */
  lemma ToEnd(c: Coder, x: nat)
    requires c.rc == AFTER_SLOT && c.probs.Keys == SEEN3 && x == Pow2(26) - 1
    ensures Run(c, DirectSteps(x, 26) + ALIGNMENT).rc == AFTER_ALIGN
  {
    hide Pow2, DirectSteps, Times, Encode, Run, Fresh, Seen;
    var direct := DirectSteps(x, 26);
    RunAppend(c, direct, ALIGNMENT);
    forall k | 0 <= k < 26 ensures BitAt(x, k) == 1 { OnesBelow(26, k); }
    RunDirect(c, x, 26);
    Directs();
    FreshAlignment();
    RunFresh(Run(c, direct), ALIGNMENT, 1);
    Alignment();
  }

  lemma MarkerRegisters()
    ensures Run(CODER_INIT, EndSteps(LZ_INIT)).rc == AFTER_ALIGN
  {
    hide Pow2, DirectSteps, Run, EndSteps;
    var x := Pow2(26) - 1;
    MarkerSteps(x);
    var c := ToSlot(DirectSteps(x, 26) + ALIGNMENT);
    ToEnd(c, x);
  }

  /** The stream of no data: what the source's constants and formulas make of the end marker. */
  lemma StreamOfNothing(dictSize: nat)
    ensures ValidParse([], LZ_INIT, [], dictSize)
    ensures Compress([], [], dictSize) == [0x00, 0x83, 0xFF, 0xFB, 0xFF, 0xFF, 0xC0, 0x00, 0x00, 0x00]
  {
    hide EndSteps, Run, Flush;
    MarkerRegisters();
    FlushOut();
  }

  /** No data leaves no operation but the end marker. */
  lemma NothingToCode(z: LzEnc, ops: seq<Op>, dictSize: nat)
    requires ValidParse([], z, ops, dictSize)
    ensures ops == []
  {
  }
}
