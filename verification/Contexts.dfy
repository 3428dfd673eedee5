/** The probability contexts. The encoder keeps one array per role (a `Table` here); the decoder
    keeps a single array and addresses it with the offsets below. */
module Contexts {

  datatype Table =
    | IsMatch | IsRep | IsRepG0 | IsRepG1 | IsRepG2 | IsRep0Long
    | PosSlot | SpecPos | Align
    | LenChoice(rep: bool) | LenLow(rep: bool) | LenMid(rep: bool) | LenHigh(rep: bool)
    | Literal

  /** Entry `offset` of an encoder array. */
  datatype Ctx = Ctx(table: Table, offset: nat)

  const NUM_STATES := 12
  const POS_STATES_MAX := 16
  const LIT_SIZE := 0x300
  const LIT_ROWS := 8
  const NUM_LEN_PROBS := 2 + 128 + 128 + 256

  // The decoder's layout, in the source's order.
  const IS_REP := NUM_STATES * POS_STATES_MAX
  const IS_REP_G0 := IS_REP + NUM_STATES
  const IS_REP_G1 := IS_REP_G0 + NUM_STATES
  const IS_REP_G2 := IS_REP_G1 + NUM_STATES
  const IS_REP0_LONG := IS_REP_G2 + NUM_STATES
  const POS_SLOT := IS_REP0_LONG + NUM_STATES * POS_STATES_MAX
  const SPEC_POS := POS_SLOT + 4 * 64
  const ALIGN := SPEC_POS + 128 - 14
  const LEN_CODER := ALIGN + 16
  const REP_LEN_CODER := LEN_CODER + NUM_LEN_PROBS
  const LITERAL := REP_LEN_CODER + NUM_LEN_PROBS
  const NUM_PROBS := LITERAL + LIT_SIZE * LIT_ROWS

  // Offsets inside one length coder.
  const LEN_CHOICE2 := 1
  const LEN_LOW := 2
  const LEN_MID := LEN_LOW + 128
  const LEN_HIGH := LEN_MID + 128

  function LenBase(rep: bool): nat { if rep then REP_LEN_CODER else LEN_CODER }

  function Base(t: Table): nat {
    match t
    case IsMatch => 0
    case IsRep => IS_REP
    case IsRepG0 => IS_REP_G0
    case IsRepG1 => IS_REP_G1
    case IsRepG2 => IS_REP_G2
    case IsRep0Long => IS_REP0_LONG
    case PosSlot => POS_SLOT
    case SpecPos => SPEC_POS
    case Align => ALIGN
    case LenChoice(rep) => LenBase(rep)
    case LenLow(rep) => LenBase(rep) + LEN_LOW
    case LenMid(rep) => LenBase(rep) + LEN_MID
    case LenHigh(rep) => LenBase(rep) + LEN_HIGH
    case Literal => LITERAL
  }

  function Size(t: Table): nat {
    match t
    case IsMatch | IsRep0Long => NUM_STATES * POS_STATES_MAX
    case IsRep | IsRepG0 | IsRepG1 | IsRepG2 => NUM_STATES
    case PosSlot => 256
    case SpecPos => 114
    case Align => 16
    case LenChoice(_) => 2
    case LenLow(_) | LenMid(_) => 128
    case LenHigh(_) => 256
    case Literal => LIT_SIZE * LIT_ROWS
  }

  predicate Valid(c: Ctx) { c.offset < Size(c.table) }

  function Index(c: Ctx): nat { Base(c.table) + c.offset }

  /** The compile-time check of the source: the literal block starts at LZMA_BASE_SIZE. */
  lemma LayoutSize()
    ensures LITERAL == 1846 && NUM_PROBS == 1846 + 768 * 8
  {
  }

  /** No two contexts share a slot of the decoder's array, and every context has one. */
  lemma IndexInjective(c: Ctx, c': Ctx)
    requires Valid(c) && Valid(c')
    ensures Index(c) < NUM_PROBS
    ensures Index(c) == Index(c') ==> c == c'
  {
    if Index(c) == Index(c') {
      assert c.table == c'.table;
    }
  }
}
