/** Distances: the slot of a distance by arithmetic, the encoder's table that computes it fast,
    and the round trip through slot, footer bits and alignment bits. */
module PosSlots {
  import opened Options
  import opened Bytes
  import opened Bits
  import opened Contexts
  import opened Symbols
  import opened SymbolCoders

  const START_POS_MODEL := 4
  const END_POS_MODEL := 14
  const FULL_DISTANCES := 128
  const END_MARKER := 0xFFFF_FFFF

  // ---------------------------------------------------------------- slots

  /** Index of the highest bit set. */
  function Log2(x: nat): nat
    requires x >= 1
  {
    if x < 2 then 0 else 1 + Log2(x / 2)
  }

  /** The two leading bits of a distance and how many bits follow them. */
  function SlotOf(dist: nat): nat {
    if dist < 4 then dist else 2 * Log2(dist) + BitAt(dist, Log2(dist) - 1)
  }

  function FooterBits(slot: nat): nat
    requires slot >= 2
  {
    slot / 2 - 1
  }

  /** The least distance of a slot. */
  function SlotBase(slot: nat): nat {
    if slot < 2 then slot else Shl(2 + slot % 2, FooterBits(slot))
  }

  lemma {:induction false} ShrShl(x: nat, n: nat)
    ensures Shl(Shr(x, n), n) <= x < Shl(Shr(x, n), n) + Pow2(n)
  {
    if n > 0 {
      ShrShl(x / 2, n - 1);
      ShlLast(Shr(x, n), n - 1);
    }
  }

  lemma {:induction false} TopBit(x: nat)
    requires x >= 1
    ensures Shr(x, Log2(x)) == 1
  {
    if x >= 2 { TopBit(x / 2); }
  }

  lemma SlotLarge(dist: nat)
    requires dist >= 2
    ensures SlotOf(dist) == 2 * Log2(dist) + BitAt(dist, Log2(dist) - 1)
    ensures Log2(dist) >= 1 && FooterBits(SlotOf(dist)) == Log2(dist) - 1
  {
    if dist < 4 { assert Log2(dist) == 1; }
  }

  /** Consecutive slots tile the distances. */
  lemma SlotNext(slot: nat)
    requires slot >= 2
    ensures SlotBase(slot + 1) == SlotBase(slot) + Pow2(FooterBits(slot))
  {
    var n := FooterBits(slot);
    ShlGrows(2 + slot % 2, n);
    if slot % 2 == 1 { assert Shl(2, n + 1) == Shl(4, n); }
  }

  lemma {:induction false} SlotBaseMono(a: nat, b: nat)
    requires a < b
    ensures SlotBase(a) < SlotBase(b)
  {
    if b >= 3 {
      SlotNext(b - 1);
      if a < b - 1 { SlotBaseMono(a, b - 1); }
    } else {
      assert Shl(2, 0) == 2;
    }
  }

  /** The slot of a distance is the one whose base is at most it, with the next base above it. */
  lemma SlotBounds(dist: nat)
    ensures SlotBase(SlotOf(dist)) <= dist < SlotBase(SlotOf(dist) + 1)
  {
    if dist < 2 {
      assert Shl(2, 0) == 2;
    } else {
      SlotLarge(dist);
      var k, slot := Log2(dist), SlotOf(dist);
      TopBit(dist);
      ShrStep(dist, k);
      ShrShl(dist, k - 1);
      SlotNext(slot);
    }
  }

  /** ... and it is the only such slot. */
  lemma SlotUnique(dist: nat, slot: nat)
    requires SlotBase(slot) <= dist < SlotBase(slot + 1)
    ensures SlotOf(dist) == slot
  {
    SlotBounds(dist);
    var t := SlotOf(dist);
    if t < slot && t + 1 < slot { SlotBaseMono(t + 1, slot); }
    if slot < t && slot + 1 < t { SlotBaseMono(slot + 1, t); }
  }

  lemma {:induction false} SlotShift(dist: nat, i: nat)
    requires Shr(dist, i) >= 2
    ensures SlotOf(dist) == SlotOf(Shr(dist, i)) + 2 * i
    decreases i
  {
    if i > 0 {
      SlotShift(dist / 2, i - 1);
      ShrLeq(dist / 2, i - 1);
      SlotLarge(dist / 2);
      SlotLarge(dist);
    }
  }

  lemma {:induction false} ShrLeq(x: nat, n: nat)
    ensures Shr(x, n) <= x
  {
    if n > 0 { ShrLeq(x / 2, n - 1); }
  }

  lemma {:induction false} ShrBounds(x: nat, n: nat, m: nat)
    requires x < Pow2(n + m)
    ensures Shr(x, n) < Pow2(m)
  {
    if n > 0 { ShrBounds(x / 2, n - 1, m); }
  }

  lemma {:induction false} ShrAtLeastTwo(x: nat, n: nat)
    requires x >= Pow2(n + 1)
    ensures Shr(x, n) >= 2
  {
    if n > 0 { ShrAtLeastTwo(x / 2, n - 1); }
  }

  lemma {:induction false} SlotLimit(dist: nat, n: nat)
    requires n >= 1 && dist < Pow2(n)
    ensures SlotOf(dist) < 2 * n
  {
    if dist >= 2 {
      SlotLarge(dist);
      Log2Limit(dist, n);
    }
  }

  lemma {:induction false} Log2Limit(x: nat, n: nat)
    requires 1 <= x < Pow2(n)
    ensures Log2(x) < n
  {
    if x >= 2 { Log2Limit(x / 2, n - 1); }
  }

  // ---------------------------------------------------------------- the encoder's table

  const NUM_LOG_BITS := 11

  /** LzmaEnc_FastPosInit: the first 2048 slots, filled slot by slot. */
  method FastPosInit(fastPos: array<nat>)
    requires fastPos.Length == 2048
    modifies fastPos
    ensures forall c :: 0 <= c < 2048 ==> fastPos[c] == SlotOf(c)
  {
    hide SlotOf, SlotBase, Pow2;
    FirstSlots();
    var c := 2;
    fastPos[0] := 0;
    fastPos[1] := 1;
    var slotFast := 2;
    while slotFast < NUM_LOG_BITS * 2
      invariant 2 <= slotFast <= 22 && c == SlotBase(slotFast) <= 2048
      invariant forall i :: 0 <= i < c ==> fastPos[i] == SlotOf(i)
    {
      var k := Pow2(slotFast / 2 - 1);
      SlotNext(slotFast);
      TableFits(slotFast + 1);
      var j := 0;
      while j < k
        invariant 0 <= j <= k && c == SlotBase(slotFast) + j <= 2048
        invariant forall i :: 0 <= i < c ==> fastPos[i] == SlotOf(i)
      {
        SlotUnique(c, slotFast);
        fastPos[c] := slotFast;
        j, c := j + 1, c + 1;
      }
      slotFast := slotFast + 1;
    }
    TableFits(22);
  }

  lemma FirstSlots()
    ensures SlotOf(0) == 0 && SlotOf(1) == 1 && SlotBase(2) == 2
  {
    assert Shl(2, 0) == 2;
  }

  lemma TableFits(slot: nat)
    requires slot <= 22
    ensures SlotBase(slot) <= 2048 && SlotBase(22) == 2048
  {
    assert Shl(2, 10) == 2048;
    if slot < 22 { SlotBaseMono(slot, 22); }
  }

  lemma TwoScales(pos: nat)
    requires FULL_DISTANCES <= pos < Pow2(27)
    ensures var i := if pos < Pow2(17) then 6 else 16;
            Shr(pos, i) < 2048 && SlotOf(pos) == SlotOf(Shr(pos, i)) + 2 * i
  {
    hide SlotOf;
    LargePow2Values();
    var i := if pos < Pow2(17) then 6 else 16;
    ShrBounds(pos, i, 11);
    ShrAtLeastTwo(pos, i);
    SlotShift(pos, i);
  }

  /** GetPosSlot: two table look-ups at different scales cover every distance below 2^27. */
  method GetPosSlot(fastPos: array<nat>, pos: nat) returns (slot: nat)
    requires fastPos.Length == 2048 && forall c :: 0 <= c < 2048 ==> fastPos[c] == SlotOf(c)
    requires pos < Pow2(27)
    ensures slot == SlotOf(pos)
    ensures SlotBase(slot) <= pos < SlotBase(slot + 1) && slot < 54
  {
    hide SlotOf, SlotBase, Shr, Pow2;
    SlotBounds(pos);
    SlotLimit(pos, 27);
    if pos < FULL_DISTANCES {
      slot := fastPos[pos];
    } else {
      LargePow2Values();
      // the source selects the shift with the sign bit of (2^17 - 1) - pos in 32 bits
      var signBit := (0x2_0000 - 1 - pos) % 0x1_0000_0000 / 0x8000_0000;
      var i := 6 + (if signBit == 1 then NUM_LOG_BITS - 1 else 0);
      TwoScales(pos);
      slot := fastPos[Shr(pos, i)] + i * 2;
    }
  }

  // ---------------------------------------------------------------- coding a distance

  function DistSteps(dist: nat, lenState: nat): seq<Step> {
    var slot := SlotOf(dist);
    SlotBounds(dist);
    TreeSteps(PosSlot, lenState * 64, 6, slot) + FooterSteps(slot, dist - SlotBase(slot))
  }

  function FooterSteps(slot: nat, reduced: nat): seq<Step> {
    if slot < START_POS_MODEL then []
    else if slot < END_POS_MODEL then
      SpecPosFits(slot);
      ReverseSteps(SpecPos, SlotBase(slot) - slot - 1, FooterBits(slot), reduced)
    else
      DirectSteps(reduced / 16, FooterBits(slot) - 4) + ReverseSteps(Align, 0, 4, reduced % 16)
  }

  /** How many of the steps are without a context. */
  function Directs(steps: seq<Step>): nat {
    if steps == [] then 0 else Directs(steps[1..]) + if steps[0].Direct? then 1 else 0
  }

  lemma {:induction false} DirectsAppend(a: seq<Step>, b: seq<Step>)
    ensures Directs(a + b) == Directs(a) + Directs(b)
  {
    if a == [] {
      assert a + b == b;
    } else {
      assert (a + b)[1..] == a[1..] + b;
      DirectsAppend(a[1..], b);
    }
  }

  lemma {:induction false} TreeForm(t: Table, off: nat, m: nat, n: nat, sym: nat)
    ensures |TreeFrom(t, off, m, n, sym)| == n && Directs(TreeFrom(t, off, m, n, sym)) == 0
    decreases n
  {
    hide BitAt;
    if n > 0 {
      var rest := TreeFrom(t, off, 2 * m + BitAt(sym, n - 1), n - 1, sym);
      TreeForm(t, off, 2 * m + BitAt(sym, n - 1), n - 1, sym);
      assert TreeFrom(t, off, m, n, sym)[1..] == rest;
    }
  }

  lemma {:induction false} ReverseForm(t: Table, off: int, m: nat, k: nat, n: nat, sym: nat)
    requires k <= n && m >= 1 && off >= -1
    ensures |ReverseFrom(t, off, m, k, n, sym)| == n - k && Directs(ReverseFrom(t, off, m, k, n, sym)) == 0
    decreases n - k
  {
    hide BitAt;
    if k < n {
      var rest := ReverseFrom(t, off, 2 * m + BitAt(sym, k), k + 1, n, sym);
      ReverseForm(t, off, 2 * m + BitAt(sym, k), k + 1, n, sym);
      assert ReverseFrom(t, off, m, k, n, sym)[1..] == rest;
    }
  }

  lemma {:induction false} DirectForm(value: nat, n: nat)
    ensures |DirectSteps(value, n)| == Directs(DirectSteps(value, n)) == n
  {
    hide BitAt;
    if n > 0 {
      DirectForm(value, n - 1);
      assert DirectSteps(value, n)[1..] == DirectSteps(value, n - 1);
    }
  }

  lemma {:induction false} Log2AtLeast(x: nat, n: nat)
    requires x >= 1
    ensures Log2(x) >= n <==> x >= Pow2(n)
  {
    if x >= 2 && n > 0 { Log2AtLeast(x / 2, n - 1); }
  }

  /** A distance takes six steps for its slot and one for each of its bits below the leading two; those in the middle
      have no context, from the distance 128 on all but the lowest four. */
  lemma DistForm(dist: nat, lenState: nat)
    ensures |DistSteps(dist, lenState)| == if dist < 4 then 6 else 5 + Log2(dist)
    ensures Directs(DistSteps(dist, lenState)) == if dist < 128 then 0 else Log2(dist) - 5
  {
    hide TreeSteps, ReverseSteps, DirectSteps, Directs, SlotBase, Log2, Pow2;
    var slot := SlotOf(dist);
    SlotBounds(dist);
    var reduced := dist - SlotBase(slot);
    TreeIsSix(lenState * 64, slot);
    DirectsAppend(TreeSteps(PosSlot, lenState * 64, 6, slot), FooterSteps(slot, reduced));
    assert Directs([]) == 0 by { NoDirects(); }
    if dist >= 2 {
      SlotLarge(dist);
      Log2AtLeast(dist, 7);
      Log2AtLeast(dist, 2);
      LargePow2Values();
      assert Pow2(2) == 4 by { Two(); }
      FooterForm(slot, reduced);
    }
  }

  lemma NoDirects()
    ensures Directs([]) == 0
  {
  }

  lemma Two()
    ensures Pow2(2) == 4
  {
  }

  lemma TreeIsSix(off: nat, slot: nat)
    ensures |TreeSteps(PosSlot, off, 6, slot)| == 6 && Directs(TreeSteps(PosSlot, off, 6, slot)) == 0
  {
    TreeForm(PosSlot, off, 1, 6, slot);
  }

  lemma FooterForm(slot: nat, reduced: nat)
    requires slot >= 2
    ensures |FooterSteps(slot, reduced)| == if slot < 4 then 0 else FooterBits(slot)
    ensures Directs(FooterSteps(slot, reduced)) == if slot < 14 then 0 else FooterBits(slot) - 4
  {
    hide TreeFrom, ReverseFrom, DirectSteps, Directs, SlotBase;
    NoDirects();
    if slot >= END_POS_MODEL {
      DirectForm(reduced / 16, FooterBits(slot) - 4);
      ReverseForm(Align, 0, 1, 0, 4, reduced % 16);
      DirectsAppend(DirectSteps(reduced / 16, FooterBits(slot) - 4), ReverseSteps(Align, 0, 4, reduced % 16));
    } else if slot >= START_POS_MODEL {
      SpecPosFits(slot);
      ReverseForm(SpecPos, SlotBase(slot) - slot - 1, 1, 0, FooterBits(slot), reduced);
    }
  }

  /** The contexts of a modelled slot lie inside the array ... */
  lemma SpecPosFits(slot: nat)
    requires START_POS_MODEL <= slot < END_POS_MODEL
    ensures SlotBase(slot) - slot - 1 >= -1
    ensures SlotBase(slot) - slot - 1 + Pow2(FooterBits(slot)) <= Size(SpecPos)
  {
    assert slot in {4, 5, 6, 7, 8, 9, 10, 11, 12, 13};
  }

  /** ... and no two slots share one. */
  lemma {:induction false} SpecPosDisjoint(a: nat, b: nat, m: nat, m': nat)
    requires START_POS_MODEL <= a < b < END_POS_MODEL
    requires 1 <= m < Pow2(FooterBits(a)) && 1 <= m' < Pow2(FooterBits(b))
    ensures SlotBase(a) - a - 1 + m < SlotBase(b) - b - 1 + m'
    decreases b
  {
    SlotNext(b - 1);
    if a < b - 1 {
      SpecPosFits(b - 1);
      assert Pow2(FooterBits(b - 1)) >= 2;
      SpecPosDisjoint(a, b - 1, m, 1);
    }
  }

  function ReadDistance(r: Reader, s: seq<byte>, lenState: nat): (res: Option<(nat, Reader)>)
    requires lenState < 4 && |r.probs| == NUM_PROBS
    ensures res.Some? && ReaderOk(r) ==> ReaderOk(res.value.1)
    ensures res.Some? ==> |res.value.1.probs| == NUM_PROBS
  {
    var (slot, r1) :- ReadTree(r, s, POS_SLOT + lenState * 64, 64, 1);
    ReadFooter(r1, s, slot)
  }

  function ReadFooter(r: Reader, s: seq<byte>, slot: nat): (res: Option<(nat, Reader)>)
    requires slot < 64 && |r.probs| == NUM_PROBS
    ensures res.Some? && ReaderOk(r) ==> ReaderOk(res.value.1)
    ensures res.Some? ==> |res.value.1.probs| == NUM_PROBS
  {
    if slot < START_POS_MODEL then Some((slot, r)) else
      var n, distance := FooterBits(slot), 2 + slot % 2;
      if slot < END_POS_MODEL then
        SpecPosFits(slot);
        ReadReverse(r, s, SPEC_POS + SlotBase(slot) - slot - 1, 1, 0, n, SlotBase(slot))
      else
        var (direct, r1) :- ReadDirects(r, s, n - 4, distance);
        Pow2Values();
        ReadReverse(r1, s, ALIGN, 1, 0, 4, Shl(direct, 4))
  }

  lemma AlignParts(top: nat, reduced: nat, n: nat)
    requires n >= 4 && reduced < Pow2(n)
    ensures reduced / 16 < Pow2(n - 4)
    ensures Shl(Shl(top, n - 4) + reduced / 16, 4) + reduced % 16 == Shl(top, n) + reduced
  {
    ShlLast(top, n - 1); ShlLast(top, n - 2); ShlLast(top, n - 3); ShlLast(top, n - 4);
    var x := Shl(top, n - 4) + reduced / 16;
    ShlLast(x, 3); ShlLast(x, 2); ShlLast(x, 1); ShlLast(x, 0);
    assert Shl(x, 0) == x;
    assert Pow2(n - 2) == 4 * Pow2(n - 4);
    assert Pow2(n) == 4 * Pow2(n - 2);
  }

  /** Slots 4 to 13: the footer is a reverse tree with its own contexts. */
  lemma ReadSpecFooter(r: Reader, s: seq<byte>, slot: nat, reduced: nat, rest: seq<Step>)
    requires START_POS_MODEL <= slot < END_POS_MODEL && |r.probs| == NUM_PROBS && reduced < Pow2(FooterBits(slot))
    requires Ready(r, s, FooterSteps(slot, reduced) + rest)
    ensures var res := ReadFooter(r, s, slot);
            res.Some? && res.value.0 == SlotBase(slot) + reduced && Ready(res.value.1, s, rest)
  {
    hide Ready, ReadReverse, ReverseFrom, ReadDirects, DirectSteps, Shl, Pow2;
    var n, top := FooterBits(slot), 2 + slot % 2;
    SpecPosFits(slot);
    forall j | 0 <= j < n ensures BitAt(SlotBase(slot), j) == 0 { BitAtShl(top, n, j); }
    ReadReverseOk(r, s, SpecPos, SlotBase(slot) - slot - 1, n, reduced, SlotBase(slot), rest);
  }

  /** The direct bits, with the slot's two leading bits before them. */
  lemma ReadTopBits(r: Reader, s: seq<byte>, top: nat, high: nat, n: nat, rest: seq<Step>)
    requires |r.probs| == NUM_PROBS && high < Pow2(n) && Ready(r, s, DirectSteps(high, n) + rest)
    ensures var res := ReadDirects(r, s, n, top);
            res.Some? && res.value.0 == Shl(top, n) + high && Ready(res.value.1, s, rest)
            && |res.value.1.probs| == NUM_PROBS
  {
    hide Ready, ReadDirects, DirectSteps, Shl, Pow2;
    ReadDirectsOk(r, s, high, n, top, rest);
    ShrSmall(high, n);
    GlueIs(top, high, n);
  }

  /** Slots from 14: direct bits, then four bits of alignment. */
  lemma ReadAlignFooter(r: Reader, s: seq<byte>, slot: nat, reduced: nat, rest: seq<Step>)
    requires END_POS_MODEL <= slot < 64 && |r.probs| == NUM_PROBS && reduced < Pow2(FooterBits(slot))
    requires Ready(r, s, FooterSteps(slot, reduced) + rest)
    ensures var res := ReadFooter(r, s, slot);
            res.Some? && res.value.0 == SlotBase(slot) + reduced && Ready(res.value.1, s, rest)
  {
    hide Ready, ReadReverse, ReverseSteps, ReadDirects, DirectSteps, Shl, Pow2;
    var n, top := FooterBits(slot), 2 + slot % 2;
    var d, a := DirectSteps(reduced / 16, n - 4), ReverseSteps(Align, 0, 4, reduced % 16);
    assert (d + a) + rest == d + (a + rest);
    AlignParts(top, reduced, n);
    ReadTopBits(r, s, top, reduced / 16, n - 4, a + rest);
    var (direct, r1) := ReadDirects(r, s, n - 4, top).value;
    Pow2Values();
    forall j | 0 <= j < 4 ensures BitAt(Shl(direct, 4), j) == 0 { BitAtShl(direct, 4, j); }
    ReadReverseOk(r1, s, Align, 0, 4, reduced % 16, Shl(direct, 4), rest);
  }

  lemma ReadFooterOk(r: Reader, s: seq<byte>, slot: nat, reduced: nat, rest: seq<Step>)
    requires slot < 64 && |r.probs| == NUM_PROBS
    requires if slot < START_POS_MODEL then reduced == 0 else reduced < Pow2(FooterBits(slot))
    requires Ready(r, s, FooterSteps(slot, reduced) + rest)
    ensures var res := ReadFooter(r, s, slot);
            res.Some? && res.value.0 == SlotBase(slot) + reduced && Ready(res.value.1, s, rest)
  {
    if slot < START_POS_MODEL {
      assert [] + rest == rest;
      SmallBases(slot);
    } else if slot < END_POS_MODEL {
      ReadSpecFooter(r, s, slot, reduced, rest);
    } else {
      ReadAlignFooter(r, s, slot, reduced, rest);
    }
  }

  lemma SmallBases(slot: nat)
    requires slot < 4
    ensures SlotBase(slot) == slot
  {
    assert Shl(2, 0) == 2 && Shl(3, 0) == 3;
  }

  /** Distance round trip, for every 32-bit distance: slot, footer and alignment bits rebuild it. */
  lemma ReadDistanceOk(r: Reader, s: seq<byte>, lenState: nat, dist: nat, rest: seq<Step>)
    requires lenState < 4 && dist < Pow2(32) && |r.probs| == NUM_PROBS
    requires Ready(r, s, DistSteps(dist, lenState) + rest)
    ensures var res := ReadDistance(r, s, lenState);
            res.Some? && res.value.0 == dist && Ready(res.value.1, s, rest)
  {
    hide Ready, ReadTree, TreeSteps, ReadFooter, FooterSteps, Pow2;
    var slot := SlotOf(dist);
    SlotBounds(dist);
    var tree, foot := TreeSteps(PosSlot, lenState * 64, 6, slot), FooterSteps(slot, dist - SlotBase(slot));
    assert (tree + foot) + rest == tree + (foot + rest);
    SlotLimit(dist, 32);
    Pow2Values();
    ReadTreeOk(r, s, PosSlot, lenState * 64, 6, slot, foot + rest);
    if slot >= START_POS_MODEL { SlotNext(slot); } else { SmallBases(slot); }
    var r1 := ReadTree(r, s, POS_SLOT + lenState * 64, 64, 1).value.1;
    ReadFooterOk(r1, s, slot, dist - SlotBase(slot), rest);
  }

  lemma EndMarkerSlot()
    ensures SlotOf(END_MARKER) == 63 && SlotBase(63) == 0xC000_0000
  {
    hide Pow2, Shl;
    LargePow2Values();
    ShlThree(30);
    assert SlotBase(63) == 0xC000_0000;
    SlotNext(63);
    SlotUnique(END_MARKER, 63);
  }

  /** The end marker written by the encoder is the distance 2^32 - 1, which no match can have. */
  lemma EndMarkerSteps()
    ensures SlotOf(END_MARKER) == 63
    ensures DistSteps(END_MARKER, 0)
            == TreeSteps(PosSlot, 0, 6, 63)
             + (DirectSteps((Pow2(30) - 1) / 16, 26) + ReverseSteps(Align, 0, 4, 15))
    ensures Pow2(27) < END_MARKER < Pow2(32)
  {
    hide TreeSteps, DirectSteps, ReverseSteps, Pow2, SlotOf, SlotBase;
    LargePow2Values();
    EndMarkerSlot();
  }
}
