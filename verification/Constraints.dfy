/**
 * Feature constraints printed as SQL (EMdF/emdf_ffeatures.cpp) and assembled
 * into a WHERE clause (EMdF/emdfdb.cpp), read back with SQL's precedence: NOT
 * binds tighter than AND, AND tighter than OR. Text is a sequence of tokens; a
 * literal value, quoted as the back end wants it, is one token.
 */
module Constraints {
  import opened Options

  datatype Token =
    | NOT | AND | OR | OPEN | CLOSE | WHERE | IN | COMMA
    | NAME(text: string) | OPERATOR(text: string) | VALUE(text: string) | NUMBER(n: int)

  /** EMdFComparison: a feature against one value, or against a list of numbers (enumeration constants or integers). */
  datatype Comparison = Simple(feature: string, op: string, value: string) | OneOf(feature: string, values: seq<int>)

  /** The trees of EMdFFFactor, EMdFFTerm and EMdFFFeatures. */
  datatype Factor = Negation(factor: Factor) | Parenthesis(inner: Features) | Compare(comparison: Comparison)

  datatype Term = JustFactor(only: Factor) | AndTerm(left: Term, last: Factor)

  datatype Features = JustTerm(only: Term) | OrFeatures(left: Features, last: Term)

  /** A row decides each simple comparison, and whether a feature equals a number. */
  datatype Row = Row(meets: (string, string, string) -> bool, equals: (string, int) -> bool)

  predicate Holds(c: Comparison, row: Row) {
    match c
    case Simple(feature, op, value) => row.meets(feature, op, value)
    case OneOf(feature, values) => exists i :: 0 <= i < |values| && row.equals(feature, values[i])
  }

  predicate FactorHolds(f: Factor, row: Row) {
    match f
    case Negation(g) => !FactorHolds(g, row)
    case Parenthesis(fs) => FeaturesHold(fs, row)
    case Compare(c) => Holds(c, row)
  }

  predicate TermHolds(t: Term, row: Row) {
    match t
    case JustFactor(f) => FactorHolds(f, row)
    case AndTerm(u, f) => TermHolds(u, row) && FactorHolds(f, row)
  }

  predicate FeaturesHold(fs: Features, row: Row) {
    match fs
    case JustTerm(t) => TermHolds(t, row)
    case OrFeatures(gs, t) => FeaturesHold(gs, row) || TermHolds(t, row)
  }

  /* ---------- what can be printed ---------- */

  /** The grammar keeps lists from being empty; an empty one would print as IN (). */
  predicate FactorOk(f: Factor) {
    match f
    case Negation(g) => FactorOk(g)
    case Parenthesis(fs) => FeaturesOk(fs)
    case Compare(c) => c.OneOf? ==> c.values != []
  }

  predicate TermOk(t: Term) {
    match t
    case JustFactor(f) => FactorOk(f)
    case AndTerm(u, f) => TermOk(u) && FactorOk(f)
  }

  predicate FeaturesOk(fs: Features) {
    match fs
    case JustTerm(t) => TermOk(t)
    case OrFeatures(gs, t) => FeaturesOk(gs) && TermOk(t)
  }

  /* ---------- makeConstraints ---------- */

  function PrintNumbers(values: seq<int>): seq<Token> {
    if values == [] then []
    else if |values| == 1 then [NUMBER(values[0])]
    else [NUMBER(values[0]), COMMA] + PrintNumbers(values[1..])
  }

  function PrintComparison(c: Comparison): seq<Token> {
    match c
    case Simple(feature, op, value) => [NAME(feature), OPERATOR(op), VALUE(value)]
    case OneOf(feature, values) => [NAME(feature), IN, OPEN] + PrintNumbers(values) + [CLOSE]
  }

  /** The loop over an IN list: a comma after every number but the last. */
  method MakeList(values: seq<int>) returns (ts: seq<Token>)
    ensures ts == PrintNumbers(values)
  {
    ts := [];
    var i := 0;
    assert values[0..] == values;
    while i < |values|
      invariant 0 <= i <= |values| && ts + PrintNumbers(values[i..]) == PrintNumbers(values)
    {
      assert values[i..][1..] == values[i + 1..];
      ghost var before := ts;
      ts := ts + [NUMBER(values[i])];
      i := i + 1;
      if i < |values| {
        ts := ts + [COMMA];
        assert ts + PrintNumbers(values[i..]) == before + ([NUMBER(values[i - 1]), COMMA] + PrintNumbers(values[i..]));
      }
    }
  }

  function PrintFactor(f: Factor): seq<Token> {
    match f
    case Negation(g) => [NOT, OPEN] + PrintFactor(g) + [CLOSE]
    case Parenthesis(fs) => [OPEN] + PrintFeatures(fs) + [CLOSE]
    case Compare(c) => PrintComparison(c)
  }

  function PrintTerm(t: Term): seq<Token> {
    match t
    case JustFactor(f) => PrintFactor(f)
    case AndTerm(u, f) => PrintTerm(u) + [AND] + PrintFactor(f)
  }

  function PrintFeatures(fs: Features): seq<Token> {
    match fs
    case JustTerm(t) => PrintTerm(t)
    case OrFeatures(gs, t) => PrintFeatures(gs) + [OR] + PrintTerm(t)
  }

  /* ---------- reading SQL ---------- */

  datatype Expr = Not(e: Expr) | And(a: Expr, b: Expr) | Or(a: Expr, b: Expr) | Atom(c: Comparison)

  predicate Eval(e: Expr, row: Row) {
    match e
    case Not(f) => !Eval(f, row)
    case And(a, b) => Eval(a, row) && Eval(b, row)
    case Or(a, b) => Eval(a, row) || Eval(b, row)
    case Atom(Simple(feature, op, value)) => row.meets(feature, op, value)
    case Atom(OneOf(feature, values)) => EqualsAny(feature, values, row)
  }

  /** feature = n1 OR feature = n2 ... */
  predicate EqualsAny(feature: string, values: seq<int>, row: Row) {
    values != [] && (row.equals(feature, values[0]) || EqualsAny(feature, values[1..], row))
  }

  lemma {:induction false} AnyIsOne(feature: string, values: seq<int>, row: Row)
    ensures EqualsAny(feature, values, row) <==> Holds(OneOf(feature, values), row)
  {
    if values != [] {
      AnyIsOne(feature, values[1..], row);
      if i :| 0 <= i < |values| && row.equals(feature, values[i]) {
        assert i > 0 ==> values[1..][i - 1] == values[i];
      }
    }
  }

  datatype Parsed = Error | Parsed(expr: Expr, rest: seq<Token>)

  datatype Numbers = NoNumbers | Numbers(values: seq<int>, rest: seq<Token>)

  /** list ::= number (, number)* ) */
  function ParseNumbers(ts: seq<Token>): (r: Numbers)
    ensures r.Numbers? ==> |r.rest| < |ts|
  {
    if |ts| < 2 || !ts[0].NUMBER? then NoNumbers
    else if ts[1] == CLOSE then Numbers([ts[0].n], ts[2..])
    else if ts[1] != COMMA then NoNumbers
    else match ParseNumbers(ts[2..])
      case NoNumbers => NoNumbers
      case Numbers(values, rest) => Numbers([ts[0].n] + values, rest)
  }

  /** atom ::= name operator value | name IN ( list */
  function ParseAtom(ts: seq<Token>): (r: Parsed)
    ensures r.Parsed? ==> |r.rest| < |ts|
  {
    if |ts| < 3 || !ts[0].NAME? then Error
    else if ts[1].OPERATOR? && ts[2].VALUE? then Parsed(Atom(Simple(ts[0].text, ts[1].text, ts[2].text)), ts[3..])
    else if ts[1] == IN && ts[2] == OPEN then
      match ParseNumbers(ts[3..])
      case NoNumbers => Error
      case Numbers(values, rest) => Parsed(Atom(OneOf(ts[0].text, values)), rest)
    else Error
  }

  /** primary ::= atom | ( or ), not ::= NOT not | primary */
  function ParseNot(ts: seq<Token>): (r: Parsed)
    ensures r.Parsed? ==> |r.rest| < |ts|
    decreases |ts|, 0
  {
    if ts == [] then Error
    else match ts[0]
      case NOT =>
        (match ParseNot(ts[1..])
         case Error => Error
         case Parsed(e, rest) => Parsed(Not(e), rest))
      case OPEN =>
        (match ParseOr(ts[1..])
         case Error => Error
         case Parsed(e, rest) => if rest != [] && rest[0] == CLOSE then Parsed(e, rest[1..]) else Error)
      case _ => ParseAtom(ts)
  }

  /** and ::= not (AND not)* */
  function ParseAnd(ts: seq<Token>): (r: Parsed)
    ensures r.Parsed? ==> |r.rest| < |ts|
    decreases |ts|, 1
  {
    match ParseNot(ts)
    case Error => Error
    case Parsed(e, rest) => AndRest(e, rest)
  }

  function AndRest(e: Expr, ts: seq<Token>): (r: Parsed)
    ensures r.Parsed? ==> |r.rest| <= |ts|
    decreases |ts|, 2
  {
    if ts == [] || ts[0] != AND then Parsed(e, ts)
    else match ParseNot(ts[1..])
      case Error => Error
      case Parsed(f, rest) => AndRest(And(e, f), rest)
  }

  /** or ::= and (OR and)* */
  function ParseOr(ts: seq<Token>): (r: Parsed)
    ensures r.Parsed? ==> |r.rest| < |ts|
    decreases |ts|, 3
  {
    match ParseAnd(ts)
    case Error => Error
    case Parsed(e, rest) => OrRest(e, rest)
  }

  function OrRest(e: Expr, ts: seq<Token>): (r: Parsed)
    ensures r.Parsed? ==> |r.rest| <= |ts|
    decreases |ts|, 4
  {
    if ts == [] || ts[0] != OR then Parsed(e, ts)
    else match ParseAnd(ts[1..])
      case Error => Error
      case Parsed(f, rest) => OrRest(Or(e, f), rest)
  }

  /* ---------- printing preserves meaning ---------- */

  /** The expression that SQL reads for each tree. */
  function FactorExpr(f: Factor): Expr {
    match f
    case Negation(g) => Not(FactorExpr(g))
    case Parenthesis(fs) => FeaturesExpr(fs)
    case Compare(c) => Atom(c)
  }

  function TermExpr(t: Term): Expr {
    match t
    case JustFactor(f) => FactorExpr(f)
    case AndTerm(u, f) => And(TermExpr(u), FactorExpr(f))
  }

  function FeaturesExpr(fs: Features): Expr {
    match fs
    case JustTerm(t) => TermExpr(t)
    case OrFeatures(gs, t) => Or(FeaturesExpr(gs), TermExpr(t))
  }

  lemma {:induction false} FactorMeans(f: Factor, row: Row)
    ensures Eval(FactorExpr(f), row) <==> FactorHolds(f, row)
  {
    match f
    case Negation(g) => FactorMeans(g, row);
    case Parenthesis(fs) => FeaturesMean(fs, row);
    case Compare(c) => if c.OneOf? { AnyIsOne(c.feature, c.values, row); }
  }

  lemma {:induction false} TermMeans(t: Term, row: Row)
    ensures Eval(TermExpr(t), row) <==> TermHolds(t, row)
  {
    match t
    case JustFactor(f) => FactorMeans(f, row);
    case AndTerm(u, f) => TermMeans(u, row); FactorMeans(f, row);
  }

  lemma {:induction false} FeaturesMean(fs: Features, row: Row)
    ensures Eval(FeaturesExpr(fs), row) <==> FeaturesHold(fs, row)
  {
    match fs
    case JustTerm(t) => TermMeans(t, row);
    case OrFeatures(gs, t) => FeaturesMean(gs, row); TermMeans(t, row);
  }

  lemma Inside(inner: seq<Token>, e: Expr, rest: seq<Token>)
    requires ParseOr(inner) == Parsed(e, [CLOSE] + rest)
    ensures ParseNot([OPEN] + inner) == Parsed(e, rest)
  {
    assert ([OPEN] + inner)[1..] == inner;
    assert ([CLOSE] + rest)[1..] == rest;
  }

  lemma ReadNegation(inner: seq<Token>, e: Expr, rest: seq<Token>)
    requires ParseNot(inner) == Parsed(e, [CLOSE] + rest)
    ensures ParseNot([NOT] + ([OPEN] + inner)) == Parsed(Not(e), rest)
  {
    assert ParseAnd(inner) == Parsed(e, [CLOSE] + rest);
    Inside(inner, e, rest);
    assert ([NOT] + ([OPEN] + inner))[1..] == [OPEN] + inner;
  }

  lemma ReadParenthesis(inner: seq<Token>, e: Expr, rest: seq<Token>)
    requires ParseOr(inner) == OrRest(e, [CLOSE] + rest)
    ensures ParseNot([OPEN] + inner) == Parsed(e, rest)
  {
    Inside(inner, e, rest);
  }

  /** What cannot be read cannot be read in parentheses or behind NOT either. */
  lemma ErrorInside(inner: seq<Token>)
    requires ParseOr(inner) == Error
    ensures ParseNot([OPEN] + inner) == Error && ParseNot([NOT] + ([OPEN] + inner)) == Error
  {
    assert ([OPEN] + inner)[1..] == inner;
    assert ([NOT] + ([OPEN] + inner))[1..] == [OPEN] + inner;
  }

  lemma Bracketed(open: seq<Token>, p: seq<Token>, rest: seq<Token>)
    ensures open + p + [CLOSE] + rest == open + (p + ([CLOSE] + rest))
  {
  }

  lemma ReadLast(n: int, rest: seq<Token>)
    ensures ParseNumbers([NUMBER(n)] + ([CLOSE] + rest)) == Numbers([n], rest)
  {
    var ts := [NUMBER(n)] + ([CLOSE] + rest);
    assert ts[1] == CLOSE && ts[2..] == rest;
  }

  lemma ReadMore(n: int, more: seq<Token>, values: seq<int>, rest: seq<Token>)
    requires ParseNumbers(more) == Numbers(values, rest)
    ensures ParseNumbers([NUMBER(n), COMMA] + more) == Numbers([n] + values, rest)
  {
    var ts := [NUMBER(n), COMMA] + more;
    assert ts[1] == COMMA && ts[2..] == more;
  }

  lemma {:induction false} ReadNumbers(values: seq<int>, rest: seq<Token>)
    requires values != []
    ensures ParseNumbers(PrintNumbers(values) + ([CLOSE] + rest)) == Numbers(values, rest)
  {
    hide ParseNumbers;
    if |values| == 1 {
      ReadLast(values[0], rest);
      assert values == [values[0]];
    } else {
      var more := PrintNumbers(values[1..]) + ([CLOSE] + rest);
      ReadNumbers(values[1..], rest);
      ReadMore(values[0], more, values[1..], rest);
      assert PrintNumbers(values) + ([CLOSE] + rest) == [NUMBER(values[0]), COMMA] + more;
      assert values == [values[0]] + values[1..];
    }
  }

  /** A printed comparison is read back, and an empty list cannot be read. */
  lemma ReadComparison(c: Comparison, rest: seq<Token>)
    ensures ParseNot(PrintComparison(c) + rest) == if c.OneOf? && c.values == [] then Error else Parsed(Atom(c), rest)
  {
    var ts := PrintComparison(c) + rest;
    match c
    case Simple(feature, op, value) =>
      assert ts[3..] == rest;
    case OneOf(feature, values) =>
      var tail := PrintNumbers(values) + ([CLOSE] + rest);
      assert ts == [NAME(feature), IN, OPEN] + tail && ts[3..] == tail;
      if values == [] { assert tail == [CLOSE] + rest; } else { ReadNumbers(values, rest); }
  }

  lemma {:induction false} ReadFactor(f: Factor, rest: seq<Token>)
    ensures ParseNot(PrintFactor(f) + rest) == if FactorOk(f) then Parsed(FactorExpr(f), rest) else Error
    decreases f
  {
    hide ParseOr, ParseAnd, ParseNot, OrRest, AndRest;
    match f
    case Negation(g) =>
      var inner := PrintFactor(g) + ([CLOSE] + rest);
      ReadFactor(g, [CLOSE] + rest);
      if FactorOk(g) { ReadNegation(inner, FactorExpr(g), rest); } else { ErrorGoesUp(inner); ErrorInside(inner); }
      Bracketed([NOT, OPEN], PrintFactor(g), rest);
      assert [NOT, OPEN] + inner == [NOT] + ([OPEN] + inner);
    case Parenthesis(fs) =>
      var inner := PrintFeatures(fs) + ([CLOSE] + rest);
      ReadFeatures(fs, [CLOSE] + rest);
      if FeaturesOk(fs) { ReadParenthesis(inner, FeaturesExpr(fs), rest); } else { ErrorInside(inner); }
      Bracketed([OPEN], PrintFeatures(fs), rest);
    case Compare(c) => ReadComparison(c, rest);
  }

  lemma ErrorGoesUp(ts: seq<Token>)
    requires ParseNot(ts) == Error
    ensures ParseAnd(ts) == Error && ParseOr(ts) == Error
  {
  }

  lemma {:induction false} ReadTerm(t: Term, rest: seq<Token>)
    ensures ParseAnd(PrintTerm(t) + rest) == if TermOk(t) then AndRest(TermExpr(t), rest) else Error
    decreases t
  {
    match t
    case JustFactor(f) => ReadFactor(f, rest);
    case AndTerm(u, f) =>
      assert PrintTerm(t) + rest == PrintTerm(u) + ([AND] + (PrintFactor(f) + rest));
      ReadTerm(u, [AND] + (PrintFactor(f) + rest));
      ReadFactor(f, rest);
  }

  lemma {:induction false} ReadFeatures(fs: Features, rest: seq<Token>)
    requires rest == [] || rest[0] != AND
    ensures ParseOr(PrintFeatures(fs) + rest) == if FeaturesOk(fs) then OrRest(FeaturesExpr(fs), rest) else Error
    decreases fs
  {
    match fs
    case JustTerm(t) => ReadTerm(t, rest);
    case OrFeatures(gs, t) =>
      assert PrintFeatures(fs) + rest == PrintFeatures(gs) + ([OR] + (PrintTerm(t) + rest));
      ReadFeatures(gs, [OR] + (PrintTerm(t) + rest));
      ReadTerm(t, rest);
  }

  /**
   * For every tree and every row, the printed text has the tree's truth value when
   * read as SQL; it can be read exactly when no list in the tree is empty.
   */
  lemma PrintPreservesMeaning(fs: Features, row: Row)
    ensures var r := ParseOr(PrintFeatures(fs));
            && (r.Parsed? <==> FeaturesOk(fs))
            && (r.Parsed? ==> r.rest == [] && (Eval(r.expr, row) <==> FeaturesHold(fs, row)))
  {
    assert PrintFeatures(fs) + [] == PrintFeatures(fs);
    ReadFeatures(fs, []);
    FeaturesMean(fs, row);
  }

  /** The failing case: an empty list prints as IN with nothing between its parentheses. */
  lemma EmptyListFails()
    ensures var fs := JustTerm(JustFactor(Compare(OneOf("f", []))));
            PrintFeatures(fs) == [NAME("f"), IN, OPEN, CLOSE] && !ParseOr(PrintFeatures(fs)).Parsed?
  {
    var fs := JustTerm(JustFactor(Compare(OneOf("f", []))));
    PrintPreservesMeaning(fs, Row((f: string, op: string, v: string) => false, (f: string, n: int) => false));
  }

  /* ---------- the WHERE clause ---------- */

  /**
   * local_get_getObjectsHavingMonadsInSQLQuery followed by the monad constraint;
   * the constraint is itself in parentheses there.
   */
  function AssembleWindow(join: Option<Term>, pre: Option<Features>, monads: Option<Term>): seq<Token> {
    (if join.Some? || monads.Some? || pre.Some? then [WHERE] else [])
    + (if join.Some? then PrintTerm(join.value) else [])
    + (if pre.Some? then
         (if join.Some? then [AND] + ([OPEN] + PrintFeatures(pre.value) + [CLOSE])
          else [OPEN] + PrintFeatures(pre.value) + [CLOSE])
       else [])
    + (if (join.Some? || pre.Some?) && monads.Some? then [AND] else [])
    + (if monads.Some? then [OPEN] + PrintTerm(monads.value) + [CLOSE] else [])
  }

  /** doGetInst: the clause is built by two branches, with and without a pre-query. */
  function AssembleInst(join: Option<Term>, pre: Option<Features>, monads: Option<Term>): seq<Token> {
    if pre.Some? then
      [WHERE]
      + (if join.Some? then PrintTerm(join.value) + [AND] else [])
      + (if monads.Some? then [OPEN] + PrintFeatures(pre.value) + [CLOSE, AND]
         else [OPEN] + PrintFeatures(pre.value) + [CLOSE])
      + (if monads.Some? then PrintTerm(monads.value) else [])
    else if monads.Some? || join.Some? then
      [WHERE]
      + (if join.Some? then PrintTerm(join.value) + (if monads.Some? then [AND] else []) else [])
      + (if monads.Some? then PrintTerm(monads.value) else [])
    else []
  }

  predicate PartsHold(join: Option<Term>, pre: Option<Features>, monads: Option<Term>, row: Row) {
    (join.Some? ==> TermHolds(join.value, row)) &&
    (pre.Some? ==> FeaturesHold(pre.value, row)) &&
    (monads.Some? ==> TermHolds(monads.value, row))
  }

  predicate PartsOk(join: Option<Term>, pre: Option<Features>, monads: Option<Term>) {
    (join.Some? ==> TermOk(join.value)) && (pre.Some? ==> FeaturesOk(pre.value)) && (monads.Some? ==> TermOk(monads.value))
  }

  /** Two terms joined by AND are one term. */
  function Joined(t: Term, u: Term): Term {
    match u
    case JustFactor(f) => AndTerm(t, f)
    case AndTerm(v, f) => AndTerm(Joined(t, v), f)
  }

  lemma {:induction false} JoinedPrints(t: Term, u: Term)
    ensures PrintTerm(Joined(t, u)) == PrintTerm(t) + [AND] + PrintTerm(u)
  {
    match u
    case JustFactor(f) =>
    case AndTerm(v, f) => JoinedPrints(t, v);
  }

  lemma {:induction false} JoinedMeans(t: Term, u: Term, row: Row)
    ensures TermHolds(Joined(t, u), row) <==> TermHolds(t, row) && TermHolds(u, row)
    ensures TermOk(Joined(t, u)) <==> TermOk(t) && TermOk(u)
  {
    match u
    case JustFactor(f) =>
    case AndTerm(v, f) => JoinedMeans(t, v, row);
  }

  /** A term assembled from the parts that are present, in the order they are printed. */
  function Conjoin(a: Option<Term>, b: Option<Term>): Option<Term> {
    if a.None? then b else if b.None? then a else Some(Joined(a.value, b.value))
  }

  function PrintPart(a: Option<Term>): seq<Token> { if a.None? then [] else PrintTerm(a.value) }

  lemma ConjoinPrints(a: Option<Term>, b: Option<Term>)
    ensures PrintPart(Conjoin(a, b)) == PrintPart(a) + (if a.Some? && b.Some? then [AND] else []) + PrintPart(b)
  {
    if a.Some? && b.Some? { JoinedPrints(a.value, b.value); }
  }

  lemma ConjoinMeans(a: Option<Term>, b: Option<Term>, row: Row)
    ensures (Conjoin(a, b).Some? ==> TermHolds(Conjoin(a, b).value, row)) <==>
            (a.Some? ==> TermHolds(a.value, row)) && (b.Some? ==> TermHolds(b.value, row))
    ensures (Conjoin(a, b).Some? ==> TermOk(Conjoin(a, b).value)) <==>
            (a.Some? ==> TermOk(a.value)) && (b.Some? ==> TermOk(b.value))
  {
    if a.Some? && b.Some? { JoinedMeans(a.value, b.value, row); }
  }

  function Wrapped(pre: Option<Features>): Option<Term> {
    if pre.None? then None else Some(JustFactor(Parenthesis(pre.value)))
  }

  function WrappedTerm(t: Option<Term>): Option<Term> {
    if t.None? then None else Some(JustFactor(Parenthesis(JustTerm(t.value))))
  }

  lemma WrappedPrints(fs: Features)
    ensures PrintTerm(JustFactor(Parenthesis(fs))) == [OPEN] + PrintFeatures(fs) + [CLOSE]
  {
    assert PrintFactor(Parenthesis(fs)) == [OPEN] + PrintFeatures(fs) + [CLOSE];
  }

  lemma WrappedMeans(fs: Features, row: Row)
    ensures TermHolds(JustFactor(Parenthesis(fs)), row) <==> FeaturesHold(fs, row)
    ensures TermOk(JustFactor(Parenthesis(fs))) <==> FeaturesOk(fs)
  {
    assert FactorHolds(Parenthesis(fs), row) <==> FeaturesHold(fs, row);
    assert FactorOk(Parenthesis(fs)) <==> FeaturesOk(fs);
  }

  lemma WindowRegroup(j: seq<Token>, p: seq<Token>, m: seq<Token>, a: seq<Token>, b: seq<Token>, w: seq<Token>)
    ensures w + j + (a + p) + b + m == w + ((j + a + p) + b + m)
  {
  }

  lemma InstPrints(join: Option<Term>, pre: Option<Features>, monads: Option<Term>)
    ensures var whole := Conjoin(Conjoin(join, Wrapped(pre)), monads);
            AssembleInst(join, pre, monads) == (if whole.Some? then [WHERE] else []) + PrintPart(whole)
  {
    hide PrintTerm, PrintFeatures, Joined;
    ConjoinPrints(join, Wrapped(pre));
    ConjoinPrints(Conjoin(join, Wrapped(pre)), monads);
    if pre.Some? { WrappedPrints(pre.value); }
  }

  lemma WindowPrints(join: Option<Term>, pre: Option<Features>, monads: Option<Term>)
    ensures var whole := Conjoin(Conjoin(join, Wrapped(pre)), WrappedTerm(monads));
            AssembleWindow(join, pre, monads) == (if whole.Some? then [WHERE] else []) + PrintPart(whole)
  {
    hide PrintTerm, PrintFeatures, Joined;
    ConjoinPrints(join, Wrapped(pre));
    ConjoinPrints(Conjoin(join, Wrapped(pre)), WrappedTerm(monads));
    if monads.Some? { WrappedPrints(JustTerm(monads.value)); JustTermPrints(monads.value); }
    if pre.Some? { WrappedPrints(pre.value); }
    WindowRegroup(PrintPart(join), PrintPart(Wrapped(pre)), PrintPart(WrappedTerm(monads)),
                  if join.Some? && pre.Some? then [AND] else [],
                  if (join.Some? || pre.Some?) && monads.Some? then [AND] else [],
                  if join.Some? || monads.Some? || pre.Some? then [WHERE] else []);
  }

  lemma JustTermPrints(t: Term)
    ensures PrintFeatures(JustTerm(t)) == PrintTerm(t)
  {
  }

  /** What a WHERE clause, possibly absent, lets through. */
  predicate Accepts(clause: seq<Token>, row: Row) {
    clause == [] ||
    (clause[0] == WHERE
     && var r := ParseOr(clause[1..]); r.Parsed? && r.rest == [] && Eval(r.expr, row))
  }

  lemma PartAccepted(whole: Option<Term>, row: Row)
    ensures Accepts((if whole.Some? then [WHERE] else []) + PrintPart(whole), row) <==>
            (whole.Some? ==> TermOk(whole.value) && TermHolds(whole.value, row))
  {
    if whole.Some? {
      var t := whole.value;
      assert ([WHERE] + PrintTerm(t))[1..] == PrintFeatures(JustTerm(t));
      PrintPreservesMeaning(JustTerm(t), row);
    }
  }

  /**
   * Both ways of assembling the clause let a row through exactly when it meets
   * every part that is present: join, pre-query and monad constraint. A part with
   * an empty list makes the clause unreadable.
   */
  lemma WhereIsConjunction(join: Option<Term>, pre: Option<Features>, monads: Option<Term>, row: Row)
    ensures Accepts(AssembleInst(join, pre, monads), row) <==> PartsOk(join, pre, monads) && PartsHold(join, pre, monads, row)
    ensures Accepts(AssembleWindow(join, pre, monads), row) <==> PartsOk(join, pre, monads) && PartsHold(join, pre, monads, row)
  {
    var both := Conjoin(join, Wrapped(pre));
    InstPrints(join, pre, monads);
    WindowPrints(join, pre, monads);
    ConjoinMeans(join, Wrapped(pre), row);
    ConjoinMeans(both, monads, row);
    ConjoinMeans(both, WrappedTerm(monads), row);
    if pre.Some? { WrappedMeans(pre.value, row); }
    if monads.Some? { WrappedMeans(JustTerm(monads.value), row); }
    PartAccepted(Conjoin(both, monads), row);
    PartAccepted(Conjoin(both, WrappedTerm(monads)), row);
  }

  /** Why the pre-query is printed in parentheses: without them a disjunction escapes the join. */
  lemma ParenthesesNeeded()
    ensures exists join: Term, pre: Features, row: Row ::
              var r := ParseOr(PrintTerm(join) + [AND] + PrintFeatures(pre));
              r.Parsed? && r.rest == [] && Eval(r.expr, row) && !(TermHolds(join, row) && FeaturesHold(pre, row))
  {
    var a, b, c := Compare(Simple("a", "=", "1")), Compare(Simple("b", "=", "1")), Compare(Simple("c", "=", "1"));
    var join := JustFactor(a);
    var pre := OrFeatures(JustTerm(JustFactor(b)), JustFactor(c));
    var row := Row((f: string, op: string, v: string) => f == "c", (f: string, n: int) => false);
    var read := OrFeatures(JustTerm(AndTerm(JustFactor(a), b)), JustFactor(c));
    assert PrintTerm(join) + [AND] + PrintFeatures(pre) == PrintFeatures(read);
    PrintPreservesMeaning(read, row);
    assert !FactorHolds(a, row) && FactorHolds(c, row);
    assert FeaturesHold(read, row) && !TermHolds(join, row);
  }
}
