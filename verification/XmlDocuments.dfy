/**
 * What QDParser makes of a document in XML's own freedom of writing: a letter raw, as one of the
 * predefined entities or as a numeric reference, values in either quote, blanks where tags allow
 * them, comments, CDATA sections and document type declarations. `DocumentText` is the text
 * of a written document and `Tell` what it says; neither mentions the parser.
 */
module XmlDocuments {
  import opened Options
  import opened XmlReader
  import opened XmlInput
  import opened XmlRoundTrip

  /* ---------- letters ---------- */

  datatype Letter =
    | Plain(c: char)
    | Named(c: char)
    | Coded(digits: string)

  predicate Predefined(c: char) { c == '<' || c == '>' || c == '&' || c == '"' || c == '\'' }

  /** The predefined entities of section 4.6 of XML 1.0. */
  function Reference(c: char): string
    requires Predefined(c)
  {
    if c == '<' then "&lt;" else if c == '>' then "&gt;" else if c == '&' then "&amp;"
    else if c == '"' then "&quot;" else "&apos;"
  }

  /** `stop` cannot stand for itself: the quote inside a value, the less-than sign outside. */
  predicate LetterOk(numeric: Numeric, l: Letter, stop: char) {
    match l
    case Plain(c) => c != '&' && c != stop
    case Named(c) => Predefined(c)
    case Coded(digits) => ';' !in digits && numeric("#" + digits).Some?
  }

  predicate LettersOk(numeric: Numeric, ls: seq<Letter>, stop: char) {
    forall i :: 0 <= i < |ls| ==> LetterOk(numeric, ls[i], stop)
  }

  function LetterText(l: Letter): string {
    match l
    case Plain(c) => [c]
    case Named(c) => if Predefined(c) then Reference(c) else ""
    case Coded(digits) => "&#" + digits + ";"
  }

  function LettersText(ls: seq<Letter>): string {
    if ls == [] then "" else LetterText(ls[0]) + LettersText(ls[1..])
  }

  /** What a letter stands for; only raw line feeds and tabs of a value become spaces. */
  function Meant(numeric: Numeric, l: Letter, quoted: bool): string {
    match l
    case Plain(c) => if quoted && (c == '\n' || c == '\t') then " " else [c]
    case Named(c) => [c]
    case Coded(digits) => var v := numeric("#" + digits); if v.Some? then v.value else ""
  }

  function MeantAll(numeric: Numeric, ls: seq<Letter>, quoted: bool): string {
    if ls == [] then "" else Meant(numeric, ls[0], quoted) + MeantAll(numeric, ls[1..], quoted)
  }

  /* ---------- attributes ---------- */

  /** lead name before = after "value", with blanks for lead, before and after. */
  datatype Attr = Attr(lead: string, name: string, before: string, after: string, quote: char, value: seq<Letter>)

  /** Space, line feed, vertical tab and form feed; a tab is none, inside a tag. */
  predicate IsBlank(c: char) { c as int in {0x20, 0x0A, 0x0B, 0x0C} }

  /** With the tab. */
  predicate IsWhite(c: char) { c as int in {0x20, 0x09, 0x0A, 0x0B, 0x0C} }

  predicate Blanks(s: string) { forall i :: 0 <= i < |s| ==> IsBlank(s[i]) }

  predicate Spaces(s: string) { forall i :: 0 <= i < |s| ==> IsWhite(s[i]) }

  /** In the declaration (`decl`) tabs are blanks too, and other first characters end the attributes. */
  predicate AttrOk(numeric: Numeric, a: Attr, decl: bool) {
    && a.name != "" && (forall i :: 0 <= i < |a.name| ==> a.name[i] != '=' && !IsBlank(a.name[i]))
    && (if decl then Spaces(a.lead) && a.name[0] != '?' && a.name[0] != '\t'
        else Blanks(a.lead) && a.name[0] != '/' && a.name[0] != '>')
    && Blanks(a.before) && Blanks(a.after) && (a.quote == '"' || a.quote == '\'') && LettersOk(numeric, a.value, a.quote)
  }

  predicate AttrsOk(numeric: Numeric, attrs: seq<Attr>, decl: bool) {
    forall i :: 0 <= i < |attrs| ==> AttrOk(numeric, attrs[i], decl)
  }

  function AttrText(a: Attr): string {
    a.lead + (a.name + (a.before + ("=" + (a.after + ([a.quote] + (LettersText(a.value) + [a.quote]))))))
  }

  function AttrsText(attrs: seq<Attr>): string {
    if attrs == [] then "" else AttrText(attrs[0]) + AttrsText(attrs[1..])
  }

  /** Name to value; of equal names the first counts. */
  function Given(numeric: Numeric, attrs: seq<Attr>): Attributes {
    if attrs == [] then map[]
    else Given(numeric, attrs[1..])[attrs[0].name := MeantAll(numeric, attrs[0].value, true)]
  }

  /* ---------- pieces of a document ---------- */

  /** A comment inside a document type declaration and the markup behind it. */
  datatype Aside = Aside(remark: string, markup: string)

  datatype Piece =
    | Chars(letters: seq<Letter>)
    | Remark(body: string)
    | Verbatim(body: string)
    | Doctype(markup: string, asides: seq<Aside>)
    | Empty(name: string, attrs: seq<Attr>, tail: string)
    | Elem(name: string, attrs: seq<Attr>, tail: string, children: seq<Piece>, close: string)

  predicate Here(s: string, k: nat, w: string) { k + |w| <= |s| && s[k..k + |w|] == w }

  predicate Lacks(s: string, w: string) { forall k: nat :: k <= |s| ==> !Here(s, k, w) }

  predicate RemarkOk(body: string) { Lacks(body + "--", "-->") }

  predicate MarkupOk(s: string) { Lacks(s, "<!--") && Lacks(s, "]>") }

  predicate AsideOk(a: Aside) { RemarkOk(a.remark) && MarkupOk(a.markup) }

  predicate TagNameOk(s: string) {
    s != "" && s[0] != '?' && s[0] != '!' && forall i :: 0 <= i < |s| ==> s[i] != '/' && s[i] != '>' && !IsBlank(s[i])
  }

  predicate TagOk(numeric: Numeric, name: string, attrs: seq<Attr>, tail: string) {
    TagNameOk(name) && AttrsOk(numeric, attrs, false) && Blanks(tail) && (attrs != [] ==> attrs[0].lead != "")
  }

  predicate PieceOk(numeric: Numeric, n: Piece) {
    match n
    case Chars(ls) => LettersOk(numeric, ls, '<')
    case Remark(body) => RemarkOk(body)
    case Verbatim(body) => Lacks(body + "]]", "]]>")
    case Doctype(markup, asides) =>
      MarkupOk(markup) && !Here(markup, 0, "!--") &&
      forall i :: 0 <= i < |asides| ==> AsideOk(asides[i])
    case Empty(name, attrs, tail) => TagOk(numeric, name, attrs, tail)
    case Elem(name, attrs, tail, children, close) =>
      TagOk(numeric, name, attrs, tail) && '>' !in close && forall i :: 0 <= i < |children| ==> PieceOk(numeric, children[i])
  }

  function AsidesText(asides: seq<Aside>): string {
    if asides == [] then ""
    else "<!--" + (asides[0].remark + ("-->" + (asides[0].markup + AsidesText(asides[1..]))))
  }

  function TagText(name: string, attrs: seq<Attr>, tail: string): string { "<" + (name + (AttrsText(attrs) + tail)) }

  function PieceText(n: Piece): string {
    match n
    case Chars(ls) => LettersText(ls)
    case Remark(body) => "<!--" + (body + "-->")
    case Verbatim(body) => "<![CDATA[" + (body + "]]>")
    case Doctype(markup, asides) => "<!DOCTYPE" + (markup + (AsidesText(asides) + "]>"))
    case Empty(name, attrs, tail) => TagText(name, attrs, tail) + "/>"
    case Elem(name, attrs, tail, children, close) =>
      TagText(name, attrs, tail) + (">" + (PiecesText(children) + ("</" + (close + ">"))))
  }

  function PiecesText(ns: seq<Piece>): string {
    if ns == [] then "" else PieceText(ns[0]) + PiecesText(ns[1..])
  }

  function AsidesTell(asides: seq<Aside>): seq<Event> {
    if asides == [] then [] else [CommentText(asides[0].remark + "-->")] + AsidesTell(asides[1..])
  }

  /** What the pieces say: letters up to the next tag together, `pending` those before. */
  function Tell(numeric: Numeric, ns: seq<Piece>, pending: string): seq<Event> {
    if ns == [] then Flush(pending)
    else
      match ns[0]
      case Chars(ls) => Tell(numeric, ns[1..], pending + MeantAll(numeric, ls, false))
      case Remark(body) => Flush(pending) + [CommentText(body + "-->")] + Tell(numeric, ns[1..], "")
      case Verbatim(body) => Flush(pending) + [Characters(body)] + Tell(numeric, ns[1..], "")
      case Doctype(_, asides) => Flush(pending) + AsidesTell(asides) + Tell(numeric, ns[1..], "")
      case Empty(name, attrs, _) =>
        Flush(pending) + [StartElement(name, Given(numeric, attrs)), EndElement(name)] + Tell(numeric, ns[1..], "")
      case Elem(name, attrs, _, children, close) =>
        Flush(pending) + [StartElement(name, Given(numeric, attrs))] + Tell(numeric, children, "")
        + [EndElement(close)] + Tell(numeric, ns[1..], "")
  }

  /** `ahead` is what stands before the declaration, `blank` the blank after <?xml. */
  datatype Document = Document(ahead: string, blank: char, attrs: seq<Attr>, tail: string, prolog: seq<Piece>, root: Piece)

  predicate IsTag(n: Piece) { n.Empty? || n.Elem? }

  predicate DocumentOk(numeric: Numeric, d: Document) {
    && '<' !in d.ahead && IsWhite(d.blank) && AttrsOk(numeric, d.attrs, true) && Spaces(d.tail)
    && (forall i :: 0 <= i < |d.prolog| ==> PieceOk(numeric, d.prolog[i]) && !IsTag(d.prolog[i]))
    && PieceOk(numeric, d.root) && IsTag(d.root)
  }

  function DocumentText(d: Document): string {
    d.ahead + ("<?xml" + ([d.blank] + (AttrsText(d.attrs) + (d.tail + ("?>" + (PiecesText(d.prolog) + PieceText(d.root)))))))
  }

  function DocumentTells(numeric: Numeric, d: Document): seq<Event> {
    [StartDocument] + Tell(numeric, d.prolog, "") + Tell(numeric, [d.root], "") + [EndDocument]
  }

  /* ---------- reading letters ---------- */

  function Took(p: Parser, s: string): Parser {
    if p.state == QUOTE then p.(rvalue := p.rvalue + s) else p.(text := p.text + s)
  }

  predicate Stops(p: Parser, stop: char) {
    if p.state == QUOTE then stop == p.quote && (stop == '"' || stop == '\'') else p.state == TEXT && stop == '<'
  }

  predicate Stands(numeric: Numeric, name: string, meaning: string) {
    (if name != "" && name[0] == '#' then numeric(name) else NamedEntity(name)) == Some(meaning)
  }

  lemma RunSemicolon(numeric: Numeric, p: Parser, back: Parser, meaning: string, rest: string)
    requires back.state == TEXT || back.state == QUOTE
    requires p == Push(back, back.state).(state := ENTITY, entity := p.entity) && Stands(numeric, p.entity, meaning)
    ensures Run(numeric, p, ";" + rest) == Run(numeric, Took(back, meaning).(entity := p.entity), rest)
  {
    hide Run;
    assert (back.stack + [back.state])[..|back.stack|] == back.stack;
    Advance(numeric, p, ';', rest);
  }

  /** An entity or a numeric reference, between & and ;. */
  lemma RunReference(numeric: Numeric, p: Parser, name: string, meaning: string, rest: string)
    requires (p.state == TEXT || p.state == QUOTE) && ';' !in name && Stands(numeric, name, meaning)
    ensures Run(numeric, p, "&" + (name + (";" + rest))) == Run(numeric, Took(p, meaning).(entity := name), rest)
  {
    hide Run, Stands;
    var p1 := Push(p, p.state).(entity := "", state := ENTITY);
    Advance(numeric, p, '&', name + (";" + rest));
    RunEntityName(numeric, p1, name, ";" + rest);
    assert "" + name == name;
    RunSemicolon(numeric, p1.(entity := name), p, meaning, rest);
  }

  function NameOf(c: char): string
    requires Predefined(c)
  {
    if c == '<' then "lt" else if c == '>' then "gt" else if c == '&' then "amp" else if c == '"' then "quot" else "apos"
  }

  lemma NamedParts(numeric: Numeric, c: char, rest: string)
    requires Predefined(c)
    ensures Reference(c) + rest == "&" + (NameOf(c) + (";" + rest))
    ensures ';' !in NameOf(c) && Stands(numeric, NameOf(c), [c])
  {
  }

  lemma RunLetter(numeric: Numeric, p: Parser, l: Letter, stop: char, rest: string) returns (q: Parser)
    requires Stops(p, stop) && LetterOk(numeric, l, stop)
    ensures q == Took(p, Meant(numeric, l, p.state == QUOTE)).(entity := q.entity)
    ensures Run(numeric, p, LetterText(l) + rest) == Run(numeric, q, rest)
  {
    hide Run, Reference, NamedEntity, NameOf;
    match l
    case Plain(c) =>
      Advance(numeric, p, c, rest);
      q := Step(numeric, p, c).p;
    case Named(c) =>
      NamedParts(numeric, c, rest);
      RunReference(numeric, p, NameOf(c), [c], rest);
      q := Took(p, [c]).(entity := NameOf(c));
    case Coded(digits) =>
      var name := "#" + digits;
      assert LetterText(l) + rest == "&" + (name + (";" + rest));
      RunReference(numeric, p, name, numeric(name).value, rest);
      q := Took(p, numeric(name).value).(entity := name);
  }

  lemma {:induction false} RunLetters(numeric: Numeric, p: Parser, ls: seq<Letter>, stop: char, rest: string)
    returns (q: Parser)
    requires Stops(p, stop)
    requires LettersOk(numeric, ls, stop)
    ensures q == Took(p, MeantAll(numeric, ls, p.state == QUOTE)).(entity := q.entity)
    ensures Run(numeric, p, LettersText(ls) + rest) == Run(numeric, q, rest)
    decreases |ls|
  {
    hide Run, Meant, LetterText;
    if ls == [] {
      assert LettersText(ls) + rest == rest;
      q := p;
    } else {
      assert LettersText(ls) + rest == LetterText(ls[0]) + (LettersText(ls[1..]) + rest);
      var q1 := RunLetter(numeric, p, ls[0], stop, LettersText(ls[1..]) + rest);
      q := RunLetters(numeric, q1, ls[1..], stop, rest);
    }
  }

  /* ---------- reading attributes ---------- */

  /** The parser's blanks are those. */
  lemma BlanksAre()
    ensures forall c :: IsBlank(c) <==> Blank(c)
    ensures forall c :: IsWhite(c) <==> IsSpace(c)
  {
  }

  /** Blanks that change nothing. */
  lemma {:induction false} RunBlanks(numeric: Numeric, p: Parser, w: string, rest: string)
    requires p.state == IN_TAG || p.state == ATTRIBUTE_EQUAL || p.state == ATTRIBUTE_RVALUE || p.state == IN_XMLDECLARATION
    requires if p.state == IN_XMLDECLARATION then Spaces(w) else Blanks(w)
    ensures Run(numeric, p, w + rest) == Run(numeric, p, rest)
    decreases |w|
  {
    hide Run;
    if w == "" {
      assert w + rest == rest;
    } else {
      Uncons(w, rest);
      Advance(numeric, p, w[0], w[1..] + rest);
      RunBlanks(numeric, p, w[1..], rest);
    }
  }

  /** From the name over the equals sign to the opening quote. */
  lemma RunEquals(numeric: Numeric, p: Parser, before: string, after: string, quote: char, rest: string)
    requires p.state == ATTRIBUTE_LVALUE && Blanks(before) && Blanks(after) && (quote == '"' || quote == '\'')
    ensures Run(numeric, p, before + ("=" + (after + ([quote] + rest)))) == Run(numeric, p.(state := QUOTE, quote := quote), rest)
  {
    hide Run;
    var tail := after + ([quote] + rest);
    var r := p.(state := ATTRIBUTE_RVALUE);
    if before == "" {
      assert before + ("=" + tail) == ['='] + tail;
      Advance(numeric, p, '=', tail);
    } else {
      var e := p.(state := ATTRIBUTE_EQUAL);
      Uncons(before, "=" + tail);
      Advance(numeric, p, before[0], before[1..] + ("=" + tail));
      RunBlanks(numeric, e, before[1..], "=" + tail);
      Advance(numeric, e, '=', tail);
    }
    RunBlanks(numeric, r, after, [quote] + rest);
    Advance(numeric, r, quote, rest);
  }

  lemma AttrRegroup(a: Attr, rest: string)
    ensures AttrText(a) + rest ==
            a.lead + (a.name + (a.before + ("=" + (a.after + ([a.quote] + (LettersText(a.value) + ([a.quote] + rest)))))))
  {
    hide LettersText;
    var v := LettersText(a.value);
    assert (v + [a.quote]) + rest == v + ([a.quote] + rest);
  }

  function Reading(decl: bool): State { if decl then IN_XMLDECLARATION else IN_TAG }

  lemma RunName(numeric: Numeric, p: Parser, a: Attr, decl: bool, rest: string)
    requires p.state == Reading(decl) && AttrOk(numeric, a, decl)
    ensures Run(numeric, p, a.name + rest) ==
            Run(numeric, Push(p, p.state).(state := ATTRIBUTE_LVALUE, lvalue := a.name, rvalue := ""), rest)
  {
    hide Run, LettersOk, Spaces, Blanks, Step, Blank, IsBlank;
    BlanksAre();
    var name := a.name;
    Uncons(name, rest);
    RunNameStart(numeric, p, name[0], name[1..] + rest);
    assert forall i :: 0 <= i < |name[1..]| ==> name[1..][i] == name[i + 1];
    RunLvalue(numeric, Push(p, p.state).(state := ATTRIBUTE_LVALUE, lvalue := [name[0]], rvalue := ""), name[1..], rest);
    assert [name[0]] + name[1..] == name;
  }

  lemma RunAttr(numeric: Numeric, p: Parser, a: Attr, decl: bool, rest: string) returns (q: Parser)
    requires p.state == Reading(decl) && AttrOk(numeric, a, decl)
    ensures q.state == p.state && SameTag(p, q)
    ensures q.attributes == Insert(p.attributes, a.name, MeantAll(numeric, a.value, true))
    ensures Run(numeric, p, AttrText(a) + rest) == Run(numeric, q, rest)
  {
    hide Run, LettersOk, LettersText, MeantAll, AttrText, Blank, IsSpace, IsBlank, IsWhite;
    AttrRegroup(a, rest);
    var closing := LettersText(a.value) + ([a.quote] + rest);
    var equals := a.before + ("=" + (a.after + ([a.quote] + closing)));
    RunBlanks(numeric, p, a.lead, a.name + equals);
    RunName(numeric, p, a, decl, equals);
    var p1 := Push(p, p.state).(state := ATTRIBUTE_LVALUE, lvalue := a.name, rvalue := "");
    RunEquals(numeric, p1, a.before, a.after, a.quote, closing);
    var p2 := p1.(state := QUOTE, quote := a.quote);
    var p3 := RunLetters(numeric, p2, a.value, a.quote, [a.quote] + rest);
    assert "" + MeantAll(numeric, a.value, true) == MeantAll(numeric, a.value, true);
    RunCloseQuote(numeric, p3, p.state, rest);
    q := p3.(state := p.state, stack := p3.stack[..|p3.stack| - 1],
             attributes := Insert(p3.attributes, p3.lvalue, p3.rvalue));
    assert (p.stack + [p.state])[..|p.stack|] == p.stack;
  }

  lemma {:induction false} RunAttrs(numeric: Numeric, p: Parser, attrs: seq<Attr>, decl: bool, rest: string)
    returns (q: Parser)
    requires p.state == Reading(decl) && AttrsOk(numeric, attrs, decl)
    ensures q.state == p.state && SameTag(p, q)
    ensures q.attributes == Given(numeric, attrs) + p.attributes
    ensures Run(numeric, p, AttrsText(attrs) + rest) == Run(numeric, q, rest)
    decreases |attrs|
  {
    hide Run, AttrText, AttrOk, MeantAll;
    if attrs == [] {
      assert AttrsText(attrs) + rest == rest;
      q := p;
    } else {
      assert AttrsText(attrs) + rest == AttrText(attrs[0]) + (AttrsText(attrs[1..]) + rest);
      var q1 := RunAttr(numeric, p, attrs[0], decl, AttrsText(attrs[1..]) + rest);
      q := RunAttrs(numeric, q1, attrs[1..], decl, rest);
    }
  }

  /* ---------- reading tags ---------- */

  /** Behind the name the tag is open for attributes, or ends. */
  lemma OpenIsIn(numeric: Numeric, p: Parser, s: string)
    requires p.state == OPEN_TAG && p.stack != [] && s != "" && (Blank(s[0]) || s[0] == '/' || s[0] == '>')
    ensures Run(numeric, p, s) == Run(numeric, p.(state := IN_TAG), s)
  {
    hide Run, Step, Blank;
    assert s == [s[0]] + s[1..];
    OpenIsInStep(numeric, p, s[0]);
    Advance(numeric, p, s[0], s[1..]);
    Advance(numeric, p.(state := IN_TAG), s[0], s[1..]);
  }

  lemma OpenIsInStep(numeric: Numeric, p: Parser, c: char)
    requires p.state == OPEN_TAG && p.stack != [] && (Blank(c) || c == '/' || c == '>')
    ensures Step(numeric, p, c).Going? && Step(numeric, p, c) == Step(numeric, p.(state := IN_TAG), c)
  {
  }

  /** What follows the name begins with a blank or is the end of the tag. */
  lemma BehindName(numeric: Numeric, name: string, attrs: seq<Attr>, tail: string, end: string)
    requires TagOk(numeric, name, attrs, tail) && end != "" && (end[0] == '/' || end[0] == '>')
    ensures var s := AttrsText(attrs) + (tail + end); s != "" && (Blank(s[0]) || s[0] == '/' || s[0] == '>')
  {
    if attrs != [] {
      assert AttrText(attrs[0])[0] == attrs[0].lead[0];
      assert AttrsText(attrs)[0] == attrs[0].lead[0];
    }
  }

  lemma TagRegroup(name: string, attrs: seq<Attr>, tail: string, end: string)
    requires name != ""
    ensures TagText(name, attrs, tail) + end == ['<'] + ([name[0]] + (name[1..] + (AttrsText(attrs) + (tail + end))))
  {
    hide AttrsText;
    Uncons(name, AttrsText(attrs) + (tail + end));
    var t := AttrsText(attrs);
    assert (t + tail) + end == t + (tail + end);
    assert (name + (t + tail)) + end == name + (t + (tail + end));
  }

  /** To the end of a tag; the text before it has been delivered. */
  lemma RunTag(numeric: Numeric, p: Parser, name: string, attrs: seq<Attr>, tail: string, end: string) returns (q: Parser)
    requires p.state == TEXT && TagOk(numeric, name, attrs, tail) && end != "" && (end[0] == '/' || end[0] == '>')
    ensures q.state == IN_TAG && q.stack == p.stack + [TEXT] && q.depth == p.depth && q.tag == name && q.text == ""
    ensures q.events == p.events + Flush(p.text) && q.attributes == Given(numeric, attrs)
    ensures Run(numeric, p, TagText(name, attrs, tail) + end) == Run(numeric, q, end)
  {
    hide Run, AttrsText, TagText, Given, AttrsOk, Blank, IsBlank;
    BlanksAre();
    TagRegroup(name, attrs, tail, end);
    var more := AttrsText(attrs) + (tail + end);
    Advance(numeric, p, '<', [name[0]] + (name[1..] + more));
    var p1 := Push(FlushText(p), TEXT).(state := START_TAG, tag := "");
    Advance(numeric, p1, name[0], name[1..] + more);
    var p2 := p1.(state := OPEN_TAG, tag := [name[0]], attributes := map[]);
    RunTagName(numeric, p2, name[1..], more);
    assert [name[0]] + name[1..] == name;
    BehindName(numeric, name, attrs, tail, end);
    OpenIsIn(numeric, p2.(tag := name), more);
    q := RunAttrs(numeric, p2.(tag := name, state := IN_TAG), attrs, false, tail + end);
    assert Given(numeric, attrs) + map[] == Given(numeric, attrs);
    RunBlanks(numeric, q, tail, end);
  }

  lemma RunStart(numeric: Numeric, p: Parser, name: string, attrs: seq<Attr>, tail: string, rest: string) returns (q: Parser)
    requires p.state == TEXT && TagOk(numeric, name, attrs, tail)
    ensures At(q, p.stack, p.depth + 1, "", p.events + Flush(p.text) + [StartElement(name, Given(numeric, attrs))])
    ensures Run(numeric, p, TagText(name, attrs, tail) + (">" + rest)) == Run(numeric, q, rest)
  {
    hide Run, TagText, Given, TagOk;
    var q1 := RunTag(numeric, p, name, attrs, tail, ">" + rest);
    assert (p.stack + [TEXT])[..|p.stack|] == p.stack;
    Advance(numeric, q1, '>', rest);
    q := Step(numeric, q1, '>').p;
  }

  /** A tag without content: the document is over when it is the root. */
  lemma RunEmpty(numeric: Numeric, p: Parser, name: string, attrs: seq<Attr>, tail: string, rest: string) returns (q: Parser)
    requires p.state == TEXT && TagOk(numeric, name, attrs, tail)
    ensures q.events == p.events + Flush(p.text) + [StartElement(name, Given(numeric, attrs)), EndElement(name)]
    ensures if p.depth == 0 then q.state == DONE else At(q, p.stack, p.depth, "", q.events)
    ensures Run(numeric, p, (TagText(name, attrs, tail) + "/>") + rest) == Run(numeric, q, rest)
  {
    hide Run, TagText, Given, TagOk;
    var tag := TagText(name, attrs, tail);
    assert (tag + "/>") + rest == tag + ("/>" + rest);
    var q1 := RunTag(numeric, p, name, attrs, tail, "/>" + rest);
    assert "/>" + rest == ['/'] + (['>'] + rest);
    assert (p.stack + [TEXT])[..|p.stack|] == p.stack;
    Advance(numeric, q1, '/', ['>'] + rest);
    var q2 := q1.(state := SINGLE_TAG);
    Advance(numeric, q2, '>', rest);
    q := Step(numeric, q2, '>').p;
    assert q.events == q1.events + [StartElement(name, q1.attributes)] + [EndElement(name)];
  }

  /** What stands between </ and > is reported as the end tag's name, blanks included. */
  lemma RunEnd(numeric: Numeric, p: Parser, close: string, rest: string) returns (q: Parser)
    requires p.state == TEXT && '>' !in close
    ensures q.events == p.events + Flush(p.text) + [EndElement(close)]
    ensures if p.depth == 1 then q.state == DONE else At(q, p.stack, p.depth - 1, "", q.events)
    ensures Run(numeric, p, "</" + (close + (">" + rest))) == Run(numeric, q, rest)
  {
    hide Run, Step;
    assert "</" + (close + (">" + rest)) == ['<'] + (['/'] + (close + (['>'] + rest)));
    RunCloseStart(numeric, p, close + (['>'] + rest));
    var p1 := Push(FlushText(p), TEXT).(state := CLOSE_TAG, tag := "");
    RunCloseName(numeric, p1, close, ['>'] + rest);
    assert "" + close == close;
    var p2 := p1.(tag := close);
    RunCloseEnd(numeric, p2, rest);
    assert (p.stack + [TEXT])[..|p.stack|] == p.stack;
    q := p2.(state := if p.depth == 1 then DONE else TEXT, stack := p.stack, depth := p.depth - 1, tag := "",
             events := p2.events + [EndElement(close)]);
  }

  /* ---------- reading comments, CDATA sections and document type declarations ---------- */

  predicate Opener(s: string) { s == "!--" || s == "![CDATA[" || s == "!DOCTYPE" }

  /** The characters of an opener before its last. */
  lemma {:induction false} RunOpener(numeric: Numeric, p: Parser, w: string, rest: string)
    requires p.state == OPEN_TAG && forall i :: 0 < i <= |w| ==> !Opener(p.tag + w[..i])
    requires forall i :: 0 <= i < |w| ==> w[i] != '/' && w[i] != '>' && !Blank(w[i])
    ensures Run(numeric, p, w + rest) == Run(numeric, p.(tag := p.tag + w), rest)
    decreases |w|
  {
    hide Run, Blank;
    if w == "" {
      assert w + rest == rest && p.tag + w == p.tag;
    } else {
      var p1 := p.(tag := p.tag + [w[0]]);
      assert w[..1] == [w[0]];
      assert !Opener(p.tag + w[..1]);
      Advance(numeric, p, w[0], w[1..] + rest);
      Uncons(w, rest);
      forall i | 0 < i <= |w[1..]| ensures !Opener(p1.tag + w[1..][..i]) {
        assert p1.tag + w[1..][..i] == p.tag + w[..i + 1];
      }
      RunOpener(numeric, p1, w[1..], rest);
      assert p.tag + [w[0]] + w[1..] == p.tag + w;
    }
  }

  /** What stands between an opener's ! and its last character. */
  function Middle(opener: string): string
    requires Opener(opener)
  {
    if opener == "!--" then "-" else if opener == "![CDATA[" then "[CDATA" else "DOCTYP"
  }

  function Last(opener: string): char
    requires Opener(opener)
  {
    if opener == "!--" then '-' else if opener == "![CDATA[" then '[' else 'E'
  }

  lemma OpenerParts(opener: string)
    requires Opener(opener)
    ensures opener == ['!'] + (Middle(opener) + [Last(opener)])
    ensures forall i :: 0 <= i < |Middle(opener)| ==> Middle(opener)[i] != '/' && Middle(opener)[i] != '>' && !Blank(Middle(opener)[i])
  {
  }

  lemma NotYet(opener: string, i: nat)
    requires Opener(opener) && 0 < i <= |Middle(opener)|
    ensures !Opener("!" + Middle(opener)[..i])
  {
    var s := "!" + Middle(opener)[..i];
    assert |s| == i + 1 <= 7;
    assert s[1] == Middle(opener)[0];
  }

  /** What an opener leads to. */
  function Opened(p: Parser, opener: string): Parser
    requires Opener(opener)
  {
    Push(FlushText(p), TEXT).(
      tag := if opener == "!DOCTYPE" then "" else opener, attributes := map[],
      state := if opener == "!--" then COMMENT else if opener == "![CDATA[" then CDATA else DOCTYPE)
  }

  lemma RunOpened(numeric: Numeric, p: Parser, opener: string, rest: string)
    requires p.state == TEXT && Opener(opener)
    ensures Run(numeric, p, "<" + (opener + rest)) == Run(numeric, Opened(p, opener), rest)
    ensures Opened(p, opener).text == "" && Opened(p, opener).events == p.events + Flush(p.text)
  {
    hide Run, Middle, Last, Blank;
    OpenerParts(opener);
    var w := Middle(opener);
    var last := [Last(opener)] + rest;
    assert opener + rest == ['!'] + (w + last);
    Advance(numeric, p, '<', opener + rest);
    var p1 := Push(FlushText(p), TEXT).(state := START_TAG, tag := "");
    Advance(numeric, p1, '!', w + last);
    var p2 := p1.(state := OPEN_TAG, tag := "!", attributes := map[]);
    forall i | 0 < i <= |w| ensures !Opener(p2.tag + w[..i]) { NotYet(opener, i); }
    RunOpener(numeric, p2, w, last);
    RunLast(numeric, p2.(tag := "!" + w), opener, rest);
  }

  lemma RunLast(numeric: Numeric, p: Parser, opener: string, rest: string)
    requires Opener(opener) && p.state == OPEN_TAG && p.tag == "!" + Middle(opener)
    ensures Run(numeric, p, [Last(opener)] + rest) ==
            Run(numeric, p.(tag := if opener == "!DOCTYPE" then "" else opener,
                            text := if opener == "!--" then p.text else "",
                            state := if opener == "!--" then COMMENT else if opener == "![CDATA[" then CDATA else DOCTYPE), rest)
  {
    hide Run;
    OpenerParts(opener);
    assert p.tag + [Last(opener)] == opener;
    Advance(numeric, p, Last(opener), rest);
  }

  lemma Occurs(s: string, t: string, w: string)
    requires Lacks(s + t, w)
    ensures !EndsWith(s, w)
  {
    if EndsWith(s, w) {
      assert (s + t)[|s| - |w|..|s|] == s[|s| - |w|..];
      assert Here(s + t, |s| - |w|, w);
    }
  }

  /** Inside a comment, as long as it does not end. */
  lemma {:induction false} RunRemark(numeric: Numeric, p: Parser, w: string, rest: string)
    requires p.state == COMMENT && Lacks(p.text + w, "-->")
    ensures Run(numeric, p, w + rest) == Run(numeric, p.(text := p.text + w), rest)
    decreases |w|
  {
    hide Run, Lacks, EndsWith;
    if w == "" {
      assert w + rest == rest && p.text + w == p.text;
    } else {
      var p1 := p.(text := p.text + [w[0]]);
      assert p1.text + w[1..] == p.text + w;
      Occurs(p1.text, w[1..], "-->");
      Advance(numeric, p, w[0], w[1..] + rest);
      Uncons(w, rest);
      RunRemark(numeric, p1, w[1..], rest);
    }
  }

  /** A comment up to the first -->, which is handed over with it. */
  lemma RunRemarkEnd(numeric: Numeric, p: Parser, body: string, rest: string)
    requires p.state == COMMENT && p.text == "" && p.stack != [] && RemarkOk(body)
    ensures Run(numeric, p, body + ("-->" + rest)) ==
            Run(numeric, p.(state := p.stack[|p.stack| - 1], stack := p.stack[..|p.stack| - 1],
                            events := p.events + [CommentText(body + "-->")]), rest)
  {
    hide Run, Lacks;
    assert body + ("-->" + rest) == (body + "--") + ([ '>' ] + rest);
    assert "" + (body + "--") == body + "--";
    RunRemark(numeric, p, body + "--", ['>'] + rest);
    var p1 := p.(text := body + "--");
    assert (body + "--") + ['>'] == body + "-->";
    assert EndsWith(body + "-->", "-->");
    Advance(numeric, p1, '>', rest);
  }

  lemma {:induction false} RunVerbatim(numeric: Numeric, p: Parser, w: string, rest: string)
    requires p.state == CDATA && Lacks(p.text + w, "]]>")
    ensures Run(numeric, p, w + rest) == Run(numeric, p.(text := p.text + w), rest)
    decreases |w|
  {
    hide Run, Lacks;
    if w == "" {
      assert w + rest == rest && p.text + w == p.text;
    } else {
      var p1 := p.(text := p.text + [w[0]]);
      assert p1.text + w[1..] == p.text + w;
      Occurs(p1.text, w[1..], "]]>");
      assert w[0] == '>' && EndsWith(p.text, "]]") ==> EndsWith(p1.text, "]]>");
      Advance(numeric, p, w[0], w[1..] + rest);
      Uncons(w, rest);
      RunVerbatim(numeric, p1, w[1..], rest);
    }
  }

  /** A CDATA section up to the first ]]>, as it stands. */
  lemma RunVerbatimEnd(numeric: Numeric, p: Parser, body: string, rest: string)
    requires p.state == CDATA && p.text == "" && p.stack != [] && Lacks(body + "]]", "]]>")
    ensures Run(numeric, p, body + ("]]>" + rest)) ==
            Run(numeric, p.(state := p.stack[|p.stack| - 1], stack := p.stack[..|p.stack| - 1],
                            events := p.events + [Characters(body)]), rest)
  {
    hide Run, Lacks;
    assert body + ("]]>" + rest) == (body + "]]") + ([ '>' ] + rest);
    assert "" + (body + "]]") == body + "]]";
    RunVerbatim(numeric, p, body + "]]", ['>'] + rest);
    var p1 := p.(text := body + "]]");
    assert EndsWith(body + "]]", "]]") && (body + "]]")[..|body|] == body;
    Advance(numeric, p1, '>', rest);
  }

  /** In a document type declaration: the characters since the last < or from the last ] on. */
  function TagAt(tag0: string, done: string): string {
    if done == "" then tag0
    else
      var c := done[|done| - 1];
      if c == '<' then "" else if c == ']' then [c] else TagAt(tag0, done[..|done| - 1]) + [c]
  }

  lemma TagNext(tag0: string, done: string, c: char)
    ensures TagAt(tag0, done + [c]) == if c == '<' then "" else if c == ']' then [c] else TagAt(tag0, done) + [c]
  {
    assert (done + [c])[..|done|] == done;
  }

  lemma TagBack(tag0: string, done: string, t: string, c: char)
    requires TagAt(tag0, done) == t + [c] && done != "" && c != ']'
    ensures done == done[..|done| - 1] + [c] && TagAt(tag0, done[..|done| - 1]) == t
  {
    assert (t + [c])[|t|] == c;
    assert TagAt(tag0, done) == TagAt(tag0, done[..|done| - 1]) + [done[|done| - 1]];
    assert (t + [c])[..|t|] == t;
  }

  lemma TagEmpty(tag0: string, done: string)
    requires TagAt(tag0, done) == "" && done != ""
    ensures done == done[..|done| - 1] + ['<']
  {
  }

  lemma TagBracket(tag0: string, done: string)
    requires TagAt(tag0, done) == "]" && done != ""
    ensures done == done[..|done| - 1] + [']']
  {
    var init, c := done[..|done| - 1], done[|done| - 1];
    assert (TagAt(tag0, init) + [c])[|TagAt(tag0, init)|] == c;
  }

  lemma TagOfNone(tag0: string)
    ensures TagAt(tag0, "") == tag0
  {
  }

  lemma Suffix(d: string, w: string)
    ensures Here(d + w, |d|, w)
  {
  }

  /** The tag is !-- only behind a comment's start, or where the declaration begins so. */
  lemma TagIsComment(tag0: string, done: string)
    requires (tag0 == "" || tag0 == "!--") && done != "" && TagAt(tag0, done) == "!--"
    ensures (|done| >= 4 && Here(done, |done| - 4, "<!--")) || (tag0 == "" && Here(done, 0, "!--"))
  {
    hide TagAt, Here;
    TagOfNone(tag0);
    assert "!--" == "!-" + ['-'] && "!-" == "!" + ['-'] && "!" == "" + ['!'];
    TagBack(tag0, done, "!-", '-');
    var d1 := done[..|done| - 1];
    TagBack(tag0, d1, "!", '-');
    var d2 := d1[..|d1| - 1];
    TagBack(tag0, d2, "", '!');
    var d3 := d2[..|d2| - 1];
    if d3 == "" {
      assert done == "" + "!--";
      Suffix("", "!--");
    } else {
      TagEmpty(tag0, d3);
      var d4 := d3[..|d3| - 1];
      assert done == d4 + "<!--";
      Suffix(d4, "<!--");
    }
  }

  lemma TagIsEnd(tag0: string, done: string)
    requires (tag0 == "" || tag0 == "!--") && done != "" && TagAt(tag0, done) == "]>"
    ensures |done| >= 2 && Here(done, |done| - 2, "]>")
  {
    hide TagAt, Here;
    TagOfNone(tag0);
    assert "]>" == "]" + ['>'];
    TagBack(tag0, done, "]", '>');
    var d1 := done[..|done| - 1];
    TagBracket(tag0, d1);
    assert done == d1[..|d1| - 1] + "]>";
    Suffix(d1[..|d1| - 1], "]>");
  }

  lemma Further(s: string, t: string, k: nat, w: string)
    requires Here(s, k, w)
    ensures Here(s + t, k, w)
  {
    assert (s + t)[k..k + |w|] == s[k..k + |w|];
  }

  /** Markup of a declaration changes nothing but the tag. */
  lemma {:induction false} RunMarkup(numeric: Numeric, p: Parser, tag0: string, done: string, todo: string, rest: string)
    returns (q: Parser)
    requires p.state == DOCTYPE && p.tag == TagAt(tag0, done) && MarkupOk(done + todo)
    requires tag0 == "!--" || (tag0 == "" && !Here(done + todo, 0, "!--"))
    ensures q == p.(tag := q.tag)
    ensures Run(numeric, p, todo + rest) == Run(numeric, q, rest)
    decreases |todo|
  {
    hide Run, TagAt, Here;
    if todo == "" {
      assert todo + rest == rest;
      q := p;
    } else {
      var c := todo[0];
      var done' := done + [c];
      assert done' + todo[1..] == done + todo;
      var p1 := p.(tag := if c == '<' then "" else if c == ']' then [c] else p.tag + [c]);
      TagNext(tag0, done, c);
      if p1.tag == "!--" {
        TagIsComment(tag0, done');
        if tag0 == "" && Here(done', 0, "!--") { Further(done', todo[1..], 0, "!--"); }
        if |done'| >= 4 && Here(done', |done'| - 4, "<!--") { Further(done', todo[1..], |done'| - 4, "<!--"); }
      }
      if p1.tag == "]>" {
        TagIsEnd(tag0, done');
        Further(done', todo[1..], |done'| - 2, "]>");
      }
      Advance(numeric, p, c, todo[1..] + rest);
      Uncons(todo, rest);
      q := RunMarkup(numeric, p1, tag0, done', todo[1..], rest);
    }
  }

  lemma DoctypeSteps(numeric: Numeric, p: Parser)
    requires p.state == DOCTYPE
    ensures Step(numeric, p, '<') == Going(p.(tag := ""))
    ensures Step(numeric, p.(tag := ""), '!') == Going(p.(tag := "" + ['!']))
    ensures Step(numeric, p.(tag := "!"), '-') == Going(p.(tag := "!" + ['-']))
    ensures Step(numeric, p.(tag := "!-"), '-') == Going(Push(p, DOCTYPE).(state := COMMENT, tag := "!--"))
  {
    assert "!-" + ['-'] == "!--";
  }

  lemma RunAsideStart(numeric: Numeric, p: Parser, rest: string)
    requires p.state == DOCTYPE
    ensures Run(numeric, p, "<!--" + rest) == Run(numeric, Push(p, DOCTYPE).(state := COMMENT, tag := "!--"), rest)
  {
    hide Run, Step;
    assert "<!--" + rest == ['<'] + (['!'] + (['-'] + (['-'] + rest)));
    assert "" + ['!'] == "!" && "!" + ['-'] == "!-" && "!-" + ['-'] == "!--";
    DoctypeSteps(numeric, p);
    Advance(numeric, p, '<', ['!'] + (['-'] + (['-'] + rest)));
    Advance(numeric, p.(tag := ""), '!', ['-'] + (['-'] + rest));
    Advance(numeric, p.(tag := "!"), '-', ['-'] + rest);
    Advance(numeric, p.(tag := "!-"), '-', rest);
  }

  /** A comment in a declaration and the markup behind it. */
  lemma RunAside(numeric: Numeric, p: Parser, a: Aside, rest: string) returns (q: Parser)
    requires p.state == DOCTYPE && p.text == "" && AsideOk(a)
    ensures q == p.(tag := q.tag, events := p.events + [CommentText(a.remark + "-->")])
    ensures Run(numeric, p, "<!--" + (a.remark + ("-->" + (a.markup + rest)))) == Run(numeric, q, rest)
  {
    hide Run, RemarkOk, MarkupOk;
    RunAsideStart(numeric, p, a.remark + ("-->" + (a.markup + rest)));
    var p1 := Push(p, DOCTYPE).(state := COMMENT, tag := "!--");
    RunRemarkEnd(numeric, p1, a.remark, a.markup + rest);
    assert (p.stack + [DOCTYPE])[..|p.stack|] == p.stack;
    var p2 := p.(tag := "!--", events := p.events + [CommentText(a.remark + "-->")]);
    assert "!--" + "" == "!--" && "" + a.markup == a.markup;
    q := RunMarkup(numeric, p2, "!--", "", a.markup, rest);
  }

  lemma AsideRegroup(a: Aside, more: string, rest: string)
    ensures ("<!--" + (a.remark + ("-->" + (a.markup + more)))) + rest == "<!--" + (a.remark + ("-->" + (a.markup + (more + rest))))
  {
  }

  lemma AsidesUnfold(asides: seq<Aside>, rest: string)
    ensures asides == [] ==> AsidesText(asides) + rest == rest && AsidesTell(asides) == []
    ensures asides != [] ==>
              var a, more := asides[0], AsidesText(asides[1..]);
              && AsidesText(asides) + rest == "<!--" + (a.remark + ("-->" + (a.markup + (more + rest))))
              && AsidesTell(asides) == [CommentText(a.remark + "-->")] + AsidesTell(asides[1..])
  {
    if asides != [] {
      AsideRegroup(asides[0], AsidesText(asides[1..]), rest);
    }
  }

  lemma {:induction false} RunAsides(numeric: Numeric, p: Parser, asides: seq<Aside>, rest: string) returns (q: Parser)
    requires p.state == DOCTYPE && p.text == "" && forall i :: 0 <= i < |asides| ==> AsideOk(asides[i])
    ensures q == p.(tag := q.tag, events := p.events + AsidesTell(asides))
    ensures Run(numeric, p, AsidesText(asides) + rest) == Run(numeric, q, rest)
    decreases |asides|
  {
    hide Run, AsideOk, AsidesText, AsidesTell;
    AsidesUnfold(asides, rest);
    if asides == [] {
      q := p;
    } else {
      var q1 := RunAside(numeric, p, asides[0], AsidesText(asides[1..]) + rest);
      q := RunAsides(numeric, q1, asides[1..], rest);
    }
  }

  /** A declaration ends at the first ]> outside its comments. */
  lemma RunDoctype(numeric: Numeric, p: Parser, markup: string, asides: seq<Aside>, rest: string) returns (q: Parser)
    requires p.state == TEXT && PieceOk(numeric, Doctype(markup, asides))
    ensures At(q, p.stack, p.depth, "", p.events + Flush(p.text) + AsidesTell(asides))
    ensures Run(numeric, p, PieceText(Doctype(markup, asides)) + rest) == Run(numeric, q, rest)
  {
    hide Run, AsidesText, MarkupOk, RemarkOk, Opened;
    var end := "]>" + rest;
    var inner := AsidesText(asides) + end;
    DoctypeRegroup(markup, asides, rest);
    RunOpened(numeric, p, "!DOCTYPE", markup + inner);
    var p1 := OpenedDoctype(p);
    assert "" + "" == "" && "" + markup == markup;
    var p2 := RunMarkup(numeric, p1, "", "", markup, inner);
    var p3 := RunAsides(numeric, p2, asides, end);
    assert end == [']'] + (['>'] + rest);
    Advance(numeric, p3, ']', ['>'] + rest);
    assert (p.stack + [TEXT])[..|p.stack|] == p.stack;
    Advance(numeric, p3.(tag := "]"), '>', rest);
    q := Step(numeric, p3.(tag := "]"), '>').p;
  }

  lemma OpenedDoctype(p: Parser) returns (q: Parser)
    ensures q == Opened(p, "!DOCTYPE")
    ensures q.state == DOCTYPE && q.tag == "" && q.text == "" && q.stack == p.stack + [TEXT] && q.depth == p.depth
    ensures q.events == p.events + Flush(p.text)
  {
    q := Opened(p, "!DOCTYPE");
  }

  lemma DoctypeRegroup(markup: string, asides: seq<Aside>, rest: string)
    ensures PieceText(Doctype(markup, asides)) + rest == "<" + ("!DOCTYPE" + (markup + (AsidesText(asides) + ("]>" + rest))))
  {
    hide AsidesText;
    var t := AsidesText(asides);
    assert (t + "]>") + rest == t + ("]>" + rest);
    assert (markup + (t + "]>")) + rest == markup + (t + ("]>" + rest));
  }

  /* ---------- reading pieces and documents ---------- */

  lemma RunCDataPiece(numeric: Numeric, p: Parser, body: string, rest: string) returns (q: Parser)
    requires p.state == TEXT && Lacks(body + "]]", "]]>")
    ensures At(q, p.stack, p.depth, "", p.events + Flush(p.text) + [Characters(body)])
    ensures Run(numeric, p, PieceText(Verbatim(body)) + rest) == Run(numeric, q, rest)
  {
    hide Run, Lacks;
    assert PieceText(Verbatim(body)) + rest == "<" + ("![CDATA[" + (body + ("]]>" + rest)));
    RunOpened(numeric, p, "![CDATA[", body + ("]]>" + rest));
    var p1 := Opened(p, "![CDATA[");
    RunVerbatimEnd(numeric, p1, body, rest);
    assert (p.stack + [TEXT])[..|p.stack|] == p.stack;
    q := p1.(state := TEXT, stack := p.stack, events := p1.events + [Characters(body)]);
  }

  lemma RunRemarkPiece(numeric: Numeric, p: Parser, body: string, rest: string) returns (q: Parser)
    requires p.state == TEXT && RemarkOk(body)
    ensures At(q, p.stack, p.depth, "", p.events + Flush(p.text) + [CommentText(body + "-->")])
    ensures Run(numeric, p, PieceText(Remark(body)) + rest) == Run(numeric, q, rest)
  {
    hide Run, RemarkOk;
    assert PieceText(Remark(body)) + rest == "<" + ("!--" + (body + ("-->" + rest)));
    RunOpened(numeric, p, "!--", body + ("-->" + rest));
    var p1 := Opened(p, "!--");
    RunRemarkEnd(numeric, p1, body, rest);
    assert (p.stack + [TEXT])[..|p.stack|] == p.stack;
    q := p1.(state := TEXT, stack := p.stack, events := p1.events + [CommentText(body + "-->")]);
  }

  /** The parser has said `told` since p and holds text not yet delivered, like the arguments of Tell. */
  ghost predicate Told(p: Parser, q: Parser, told: seq<Event>) {
    q.state == TEXT && q.stack == p.stack && q.depth == p.depth && q.events + Flush(q.text) == p.events + told
  }

  /** A piece and those behind it say what they say one after the other. */
  lemma TellNext(numeric: Numeric, p: Parser, q1: Parser, q: Parser, n: Piece, ns: seq<Piece>)
    requires !n.Chars? && q1.text == "" && q1.stack == p.stack && q1.depth == p.depth
    requires q1.events == p.events + Tell(numeric, [n], p.text) && Told(q1, q, Tell(numeric, ns, ""))
    ensures Told(p, q, Tell(numeric, [n] + ns, p.text))
  {
    hide Tell;
    TellCons(numeric, n, ns, p.text);
  }

  lemma TellCons(numeric: Numeric, n: Piece, ns: seq<Piece>, pending: string)
    requires !n.Chars?
    ensures Tell(numeric, [n] + ns, pending) == Tell(numeric, [n], pending) + Tell(numeric, ns, "")
  {
    assert ([n] + ns)[1..] == ns && [n][1..] == [];
    assert Tell(numeric, [], "") == [];
  }

  /** A tag with or without content, inside another element or as the root. */
  lemma {:induction false} RunTagPiece(numeric: Numeric, p: Parser, n: Piece, rest: string) returns (q: Parser)
    requires p.state == TEXT && p.depth >= 0 && IsTag(n) && PieceOk(numeric, n)
    ensures q.events == p.events + Tell(numeric, [n], p.text)
    ensures if p.depth == 0 then q.state == DONE else At(q, p.stack, p.depth, "", q.events)
    ensures Run(numeric, p, PieceText(n) + rest) == Run(numeric, q, rest)
    decreases n, 1
  {
    hide Run, TagText, Given, TagOk, Tell;
    TellTag(numeric, n, p.text);
    match n
    case Empty(name, attrs, tail) =>
      q := RunEmpty(numeric, p, name, attrs, tail, rest);
    case Elem(name, attrs, tail, children, close) =>
      var end := "</" + (close + (">" + rest));
      ElemRegroup(n, rest);
      var q1 := RunStart(numeric, p, name, attrs, tail, PiecesText(children) + end);
      var q2 := RunPieces(numeric, q1, children, end);
      q := RunEnd(numeric, q2, close, rest);
  }

  lemma TellTag(numeric: Numeric, n: Piece, pending: string)
    requires IsTag(n)
    ensures n.Empty? ==>
              Tell(numeric, [n], pending) == Flush(pending) + [StartElement(n.name, Given(numeric, n.attrs)), EndElement(n.name)]
    ensures n.Elem? ==>
              Tell(numeric, [n], pending) == Flush(pending) + [StartElement(n.name, Given(numeric, n.attrs))]
                                             + Tell(numeric, n.children, "") + [EndElement(n.close)]
  {
    hide Given;
    assert Tell(numeric, [], "") == [] && [n][1..] == [];
  }

  lemma ElemRegroup(n: Piece, rest: string)
    requires n.Elem?
    ensures PieceText(n) + rest ==
            TagText(n.name, n.attrs, n.tail) + (">" + (PiecesText(n.children) + ("</" + (n.close + (">" + rest)))))
  {
    hide TagText, PiecesText;
    var c, e := PiecesText(n.children), "</" + (n.close + ">");
    assert e + rest == "</" + (n.close + (">" + rest));
    assert (c + e) + rest == c + (e + rest);
    assert (">" + (c + e)) + rest == ">" + (c + (e + rest));
  }

  lemma {:induction false} RunPiece(numeric: Numeric, p: Parser, n: Piece, rest: string) returns (q: Parser)
    requires p.state == TEXT && !n.Chars? && PieceOk(numeric, n) && (IsTag(n) ==> p.depth >= 1)
    ensures At(q, p.stack, p.depth, "", p.events + Tell(numeric, [n], p.text))
    ensures Run(numeric, p, PieceText(n) + rest) == Run(numeric, q, rest)
    decreases n, 2
  {
    hide Run, PieceText;
    assert Tell(numeric, [], "") == [] && [n][1..] == [];
    match n
    case Remark(body) => q := RunRemarkPiece(numeric, p, body, rest);
    case Verbatim(body) => q := RunCDataPiece(numeric, p, body, rest);
    case Doctype(markup, asides) => q := RunDoctype(numeric, p, markup, asides, rest);
    case Empty(_, _, _) => q := RunTagPiece(numeric, p, n, rest);
    case Elem(_, _, _, _, _) => q := RunTagPiece(numeric, p, n, rest);
  }

  lemma {:induction false} RunPieces(numeric: Numeric, p: Parser, ns: seq<Piece>, rest: string) returns (q: Parser)
    requires p.state == TEXT && p.depth >= 0
    requires forall i :: 0 <= i < |ns| ==> PieceOk(numeric, ns[i]) && (IsTag(ns[i]) ==> p.depth >= 1)
    ensures Told(p, q, Tell(numeric, ns, p.text))
    ensures Run(numeric, p, PiecesText(ns) + rest) == Run(numeric, q, rest)
    decreases ns, 3
  {
    hide Run, PieceText, Tell, PieceOk;
    if ns == [] {
      assert PiecesText(ns) + rest == rest;
      TellNone(numeric, p.text);
      q := p;
    } else {
      var n, more := ns[0], ns[1..];
      assert ns == [n] + more;
      assert PiecesText(ns) + rest == PieceText(n) + (PiecesText(more) + rest);
      if n.Chars? {
        TellChars(numeric, n, more, p.text);
        var q1 := RunLetters(numeric, p, n.letters, '<', PiecesText(more) + rest);
        q := RunPieces(numeric, q1, more, rest);
      } else {
        var q1 := RunPiece(numeric, p, n, PiecesText(more) + rest);
        q := RunPieces(numeric, q1, more, rest);
        TellNext(numeric, p, q1, q, n, more);
      }
    }
  }

  lemma TellNone(numeric: Numeric, pending: string)
    ensures Tell(numeric, [], pending) == Flush(pending)
  {
  }

  lemma TellChars(numeric: Numeric, n: Piece, ns: seq<Piece>, pending: string)
    requires n.Chars?
    ensures PieceText(n) == LettersText(n.letters)
    ensures PieceOk(numeric, n) ==> LettersOk(numeric, n.letters, '<')
    ensures Tell(numeric, [n] + ns, pending) == Tell(numeric, ns, pending + MeantAll(numeric, n.letters, false))
  {
    assert ([n] + ns)[1..] == ns;
  }

  /** Whatever stands before the declaration is passed over, up to its less-than sign. */
  lemma {:induction false} RunAhead(numeric: Numeric, p: Parser, w: string, rest: string)
    requires p.state == BEFORE_XMLDECLARATION && '<' !in w
    ensures Run(numeric, p, w + rest) == Run(numeric, p, rest)
    decreases |w|
  {
    if w == "" {
      assert w + rest == rest;
    } else {
      var s := w + rest;
      assert s[0] == w[0] && s[1..] == w[1..] + rest;
      RunAhead(numeric, p, w[1..], rest);
    }
  }

  lemma RunDeclWord(numeric: Numeric, p: Parser, blank: char, rest: string)
    requires p.state == BEFORE_XMLDECLARATION && IsWhite(blank)
    ensures Run(numeric, p, "<?xml" + ([blank] + rest)) == Run(numeric, p.(state := IN_XMLDECLARATION), rest)
  {
    var s := "<?xml" + ([blank] + rest);
    assert s[0] == '<' && s[1..5] == "?xml" && s[5] == blank && s[6..] == rest;
  }

  lemma RunDeclaration(numeric: Numeric, d: Document, rest: string) returns (q: Parser)
    requires '<' !in d.ahead && IsWhite(d.blank) && AttrsOk(numeric, d.attrs, true) && Spaces(d.tail)
    ensures At(q, [], 0, "", [StartDocument])
    ensures Parse(numeric, d.ahead + ("<?xml" + ([d.blank] + (AttrsText(d.attrs) + (d.tail + ("?>" + rest)))))) == Run(numeric, q, rest)
  {
    hide Run, AttrsText, AttrsOk, IsSpace;
    var more := AttrsText(d.attrs) + (d.tail + ("?>" + rest));
    RunAhead(numeric, Initial(), d.ahead, "<?xml" + ([d.blank] + more));
    RunDeclWord(numeric, Initial(), d.blank, more);
    var p := Initial().(state := IN_XMLDECLARATION);
    q := RunAttrs(numeric, p, d.attrs, true, d.tail + ("?>" + rest));
    RunBlanks(numeric, q, d.tail, "?>" + rest);
    RunDeclEnd(numeric, q, rest);
    q := q.(state := TEXT);
  }

  /* ---------- declarations that do not end ---------- */

  lemma HereTail(s: string, k: nat, w: string)
    requires s != "" && Here(s[1..], k, w)
    ensures Here(s, k + 1, w)
  {
    assert s[k + 1..k + 1 + |w|] == s[1..][k..k + |w|];
  }

  lemma LacksTail(s: string, w: string)
    requires s != "" && Lacks(s, w)
    ensures Lacks(s[1..], w)
  {
    hide Here;
    forall k: nat | k <= |s[1..]| && Here(s[1..], k, w) ensures false { HereTail(s, k, w); }
  }

  predicate InDoctype(p: Parser) {
    p.state == DOCTYPE || (p.state == COMMENT && p.stack != [] && p.stack[|p.stack| - 1] == DOCTYPE && p.tag == "!--")
  }

  lemma ClosedHere(s: string)
    requires |s| > 1 && s[0] == ']' && s[1] == '>'
    ensures !Lacks(s, "]>")
  {
    assert s[0..2] == "]>";
    assert Here(s, 0, "]>");
  }

  lemma DoctypeGoesOn(numeric: Numeric, p: Parser, s: string) returns (q: Parser)
    requires s != "" && InDoctype(p) && Lacks(s, "]>") && (p.tag == "]" ==> s[0] != '>')
    ensures Step(numeric, p, s[0]) == Going(q) && InDoctype(q) && (q.tag == "]" && |s| > 1 ==> s[1] != '>')
  {
    assert (p.tag + [s[0]])[..|p.tag|] == p.tag;
    assert "]>"[..1] == "]";
    q := Step(numeric, p, s[0]).p;
    if |s| > 1 && s[0] == ']' && s[1] == '>' { ClosedHere(s); }
  }

  lemma {:induction false} RunUnended(numeric: Numeric, p: Parser, s: string)
    requires InDoctype(p) && Lacks(s, "]>") && (p.tag == "]" && s != "" ==> s[0] != '>')
    ensures Run(numeric, p, s) == Error
    decreases |s|
  {
    hide Lacks, Step;
    if s != "" {
      var q := DoctypeGoesOn(numeric, p, s);
      LacksTail(s, "]>");
      RunUnended(numeric, q, s[1..]);
    }
  }

  /**
   * Section 2.8 of XML 1.0 lets a document type declaration do without ]>. Here one that does
   * makes the parser refuse any document, since it goes on to the end of the input.
   */
  lemma DoctypeNeedsSubset(numeric: Numeric, d: Document, s: string)
    requires DocumentOk(numeric, d) && Lacks(s, "]>")
    ensures Parse(numeric, d.ahead + ("<?xml" + ([d.blank] + (AttrsText(d.attrs) + (d.tail + ("?>" + (PiecesText(d.prolog)
            + ("<!DOCTYPE" + s)))))))) == Error
  {
    hide Run, Parse, PieceOk, Tell, AttrsOk, AttrsText, PieceText, PiecesText, Opened, Lacks;
    var p := RunDeclaration(numeric, d, PiecesText(d.prolog) + ("<!DOCTYPE" + s));
    var q := RunPieces(numeric, p, d.prolog, "<!DOCTYPE" + s);
    assert "<!DOCTYPE" + s == "<" + ("!DOCTYPE" + s);
    RunOpened(numeric, q, "!DOCTYPE", s);
    var q1 := OpenedDoctype(q);
    RunUnended(numeric, q1, s);
  }

  lemma DocumentRegroup(d: Document, rest: string)
    ensures DocumentText(d) + rest ==
            d.ahead + ("<?xml" + ([d.blank] + (AttrsText(d.attrs) + (d.tail + ("?>" + (PiecesText(d.prolog) + (PieceText(d.root) + rest)))))))
  {
    hide AttrsText, PiecesText, PieceText;
    var a, b, c := AttrsText(d.attrs), PiecesText(d.prolog), PieceText(d.root);
    assert (b + c) + rest == b + (c + rest);
    assert ("?>" + (b + c)) + rest == "?>" + (b + (c + rest));
    assert (a + (d.tail + ("?>" + (b + c)))) + rest == a + (d.tail + ("?>" + (b + (c + rest))));
    assert ([d.blank] + (a + (d.tail + ("?>" + (b + c))))) + rest == [d.blank] + (a + (d.tail + ("?>" + (b + (c + rest)))));
  }

  /**
   * Every way of writing a document delivers what the document says, and the parser stops
   * behind the root, whatever follows.
   */
  lemma DocumentRoundTrip(numeric: Numeric, d: Document, rest: string)
    requires DocumentOk(numeric, d)
    ensures Parse(numeric, DocumentText(d) + rest) == Parsed(DocumentTells(numeric, d))
  {
    hide Run, Parse, DocumentText, PieceText, PiecesText, PieceOk, Tell, AttrsOk, AttrsText;
    DocumentRegroup(d, rest);
    var p := RunDeclaration(numeric, d, PiecesText(d.prolog) + (PieceText(d.root) + rest));
    var q := RunPieces(numeric, p, d.prolog, PieceText(d.root) + rest);
    var done := RunTagPiece(numeric, q, d.root, rest);
    RunDone(numeric, done, rest);
    FlushFirst(numeric, d.root, q.text);
    assert done.events == q.events + Flush(q.text) + Tell(numeric, [d.root], "");
  }

  lemma FlushFirst(numeric: Numeric, n: Piece, pending: string)
    requires IsTag(n)
    ensures Tell(numeric, [n], pending) == Flush(pending) + Tell(numeric, [n], "")
  {
    hide Tell, Given;
    TellTag(numeric, n, pending);
    TellTag(numeric, n, "");
  }

  /** The same through the input buffer, for any line ends that translate to those of the document. */
  method ReadDocument(numeric: Numeric, d: Document, rest: string, input: string) returns (r: Result)
    requires DocumentOk(numeric, d) && Translated(input, false) == DocumentText(d) + rest
    ensures r == Parsed(DocumentTells(numeric, d))
  {
    r := ParseStream(numeric, input);
    DocumentRoundTrip(numeric, d, rest);
  }
}
