/**
 * QDParser of EMdF/qdxml.cpp: a character state machine with a stack of states
 * and one buffer per kind of token. `Run` is the parse loop over the characters
 * that getNextChar delivers; numeric character references are expanded by the
 * parameter `numeric`, which fails on the ones the parser refuses.
 */
module XmlReader {
  import opened Options

  datatype State =
    | TEXT | ENTITY | OPEN_TAG | CLOSE_TAG | START_TAG | ATTRIBUTE_LVALUE | ATTRIBUTE_EQUAL
    | ATTRIBUTE_RVALUE | QUOTE | IN_TAG | SINGLE_TAG | COMMENT | DONE | DOCTYPE
    | IN_XMLDECLARATION | BEFORE_XMLDECLARATION | OPEN_XMLDECLARATION | CDATA

  type Attributes = map<string, string>

  /** What the document handler is called with. */
  datatype Event =
    | StartDocument
    | StartElement(tag: string, attributes: Attributes)
    | EndElement(tag: string)
    | Characters(text: string)
    | CommentText(text: string)
    | EndDocument

  type Numeric = string -> Option<string>

  datatype Parser = Parser(
    state: State, stack: seq<State>, depth: int, tag: string, lvalue: string, rvalue: string,
    quote: char, entity: string, text: string, attributes: Attributes, events: seq<Event>)

  datatype Outcome = Failed | Going(p: Parser)

  const VT := '\U{0B}'
  const FF := '\U{0C}'

  predicate Blank(c: char) { c == ' ' || c == '\n' || c == VT || c == FF }

  predicate IsSpace(c: char) { Blank(c) || c == '\t' }

  function Push(p: Parser, s: State): Parser { p.(stack := p.stack + [s]) }

  /** popState: an empty stack is an error. */
  function Pop(p: Parser): Outcome {
    if p.stack == [] then Failed
    else Going(p.(state := p.stack[|p.stack| - 1], stack := p.stack[..|p.stack| - 1]))
  }

  function Emit(p: Parser, e: Event): Parser { p.(events := p.events + [e]) }

  /** Text is handed over when a tag starts, if there is any. */
  function FlushText(p: Parser): Parser {
    if p.text != "" then Emit(p, Characters(p.text)).(text := "") else p
  }

  /** std::map::insert keeps the value that is already there. */
  function Insert(attributes: Attributes, name: string, value: string): Attributes {
    if name in attributes then attributes else attributes[name := value]
  }

  function StepText(p: Parser, c: char): Outcome {
    if c == '&' then Going(Push(p, TEXT).(entity := "", state := ENTITY))
    else if c == '<' then Going(Push(FlushText(p), TEXT).(state := START_TAG, tag := ""))
    else Going(p.(text := p.text + [c]))
  }

  function StepQuote(p: Parser, c: char): Outcome {
    if c == '\n' || c == '\t' then Going(p.(rvalue := p.rvalue + " "))
    else if c == '&' then Going(Push(p, QUOTE).(entity := "", state := ENTITY))
    else if c == p.quote then Pop(p.(attributes := Insert(p.attributes, p.lvalue, p.rvalue)))
    else Going(p.(rvalue := p.rvalue + [c]))
  }

  function StepLvalue(p: Parser, c: char): Outcome {
    if c == '=' then Going(p.(state := ATTRIBUTE_RVALUE))
    else if Blank(c) then Going(p.(state := ATTRIBUTE_EQUAL))
    else Going(p.(lvalue := p.lvalue + [c]))
  }

  function StepEqual(p: Parser, c: char): Outcome {
    if c == '=' then Going(p.(state := ATTRIBUTE_RVALUE))
    else if Blank(c) then Going(p)
    else Failed
  }

  function StepRvalue(p: Parser, c: char): Outcome {
    if c == '\'' || c == '"' then Going(p.(quote := c, state := QUOTE))
    else if Blank(c) then Going(p)
    else Failed
  }

  function OpenElement(p: Parser): Outcome {
    Pop(Emit(p, StartElement(p.tag, p.attributes)).(depth := p.depth + 1, attributes := map[], tag := ""))
  }

  function StepOpenTag(p: Parser, c: char): Outcome {
    if c == '/' then Going(p.(state := SINGLE_TAG))
    else if c == '>' then OpenElement(p)
    else if Blank(c) then Going(p.(state := IN_TAG))
    else
      var tag := p.tag + [c];
      if tag == "!--" then Going(p.(tag := tag, state := COMMENT))
      else if tag == "![CDATA[" then Going(p.(tag := tag, text := "", state := CDATA))
      else if tag == "!DOCTYPE" then Going(p.(tag := "", text := "", state := DOCTYPE))
      else Going(p.(tag := tag))
  }

  function StepInTag(p: Parser, c: char): Outcome {
    if c == '/' then Going(p.(state := SINGLE_TAG))
    else if c == '>' then OpenElement(p)
    else if Blank(c) then Going(p)
    else Going(Push(p, IN_TAG).(state := ATTRIBUTE_LVALUE, lvalue := [c], rvalue := ""))
  }

  function StepStartTag(p: Parser, c: char): Outcome {
    if p.stack == [] then Failed
    else if c == '/' then Going(p.(state := CLOSE_TAG))
    else if c == '?' then Going(p.(state := OPEN_XMLDECLARATION, attributes := map[]))
    else Going(p.(state := OPEN_TAG, tag := [c], attributes := map[]))
  }

  function StepSingle(p: Parser, c: char): Outcome {
    if c != '>' then Failed
    else
      var q := Emit(Emit(p, StartElement(p.tag, p.attributes)), EndElement(p.tag));
      if p.depth == 0 then Going(q.(state := DONE)) else Pop(q.(tag := "", attributes := map[]))
  }

  function StepCloseTag(p: Parser, c: char): Outcome {
    if c != '>' then Going(p.(tag := p.tag + [c]))
    else match Pop(Emit(p, EndElement(p.tag)))
      case Failed => Failed
      case Going(q) =>
        Going(q.(depth := p.depth - 1, tag := "", state := if p.depth - 1 == 0 then DONE else q.state))
  }

  function NamedEntity(name: string): Option<string> {
    if name == "lt" then Some("<")
    else if name == "gt" then Some(">")
    else if name == "amp" then Some("&")
    else if name == "quot" then Some("\"")
    else if name == "apos" then Some("'")
    else None
  }

  /** handle_entity, after the state that met the entity has been popped. */
  function StepEntity(numeric: Numeric, p: Parser, c: char): Outcome {
    if c != ';' then Going(p.(entity := p.entity + [c]))
    else match Pop(p)
      case Failed => Failed
      case Going(q) =>
        var v := if q.entity != "" && q.entity[0] == '#' then numeric(q.entity) else NamedEntity(q.entity);
        if v.None? then Failed
        else if q.state == QUOTE then Going(q.(rvalue := q.rvalue + v.value))
        else Going(q.(text := q.text + v.value))
  }

  predicate EndsWith(s: string, t: string) { |s| >= |t| && s[|s| - |t|..] == t }

  function StepComment(p: Parser, c: char): Outcome {
    var q := p.(text := p.text + [c]);
    if c == '>' && EndsWith(q.text, "-->") then Pop(Emit(q, CommentText(q.text)).(text := "")) else Going(q)
  }

  function StepCData(p: Parser, c: char): Outcome {
    if c == '>' && EndsWith(p.text, "]]") then Pop(Emit(p, Characters(p.text[..|p.text| - 2])).(text := ""))
    else Going(p.(text := p.text + [c]))
  }

  function StepDoctype(p: Parser, c: char): Outcome {
    var q := p.(tag := p.tag + [c]);
    if c == '<' then Going(q.(tag := ""))
    else if c == '-' && q.tag == "!--" then Going(Push(q, DOCTYPE).(state := COMMENT))
    else if c == ']' then Going(q.(tag := [c]))
    else if c == '>' && q.tag == "]>" then Pop(q)
    else Going(q)
  }

  /** One turn of the loop in a state that looks at one character. */
  function Step(numeric: Numeric, p: Parser, c: char): Outcome {
    match p.state
    case TEXT => StepText(p, c)
    case QUOTE => StepQuote(p, c)
    case ATTRIBUTE_LVALUE => StepLvalue(p, c)
    case ATTRIBUTE_EQUAL => StepEqual(p, c)
    case ATTRIBUTE_RVALUE => StepRvalue(p, c)
    case OPEN_TAG => StepOpenTag(p, c)
    case IN_TAG => StepInTag(p, c)
    case START_TAG => StepStartTag(p, c)
    case SINGLE_TAG => StepSingle(p, c)
    case CLOSE_TAG => StepCloseTag(p, c)
    case ENTITY => StepEntity(numeric, p, c)
    case COMMENT => StepComment(p, c)
    case CDATA => StepCData(p, c)
    case DOCTYPE => StepDoctype(p, c)
    case IN_XMLDECLARATION =>
      if IsSpace(c) then Going(p)
      else Going(Push(p, IN_XMLDECLARATION).(state := ATTRIBUTE_LVALUE, lvalue := [c], rvalue := ""))
    case BEFORE_XMLDECLARATION => Going(p)
    case _ => Failed
  }

  /** How many characters a turn reads: two states read ahead. */
  function Reads(p: Parser, s: string): nat
    requires s != ""
  {
    if p.state == BEFORE_XMLDECLARATION && s[0] == '<' then 6
    else if p.state == IN_XMLDECLARATION && s[0] == '?' then 2
    else 1
  }

  function Turn(numeric: Numeric, p: Parser, s: string): Outcome
    requires s != ""
  {
    if Reads(p, s) == 6 then
      if |s| >= 6 && s[1..5] == "?xml" && IsSpace(s[5]) then Going(p.(state := IN_XMLDECLARATION)) else Failed
    else if Reads(p, s) == 2 then
      if |s| >= 2 && s[1] == '>' then Going(p.(state := TEXT)) else Failed
    else Step(numeric, p, s[0])
  }

  datatype Result = Error | Parsed(events: seq<Event>)

  /** The parse loop: the events delivered, or the exception thrown. */
  function Run(numeric: Numeric, p: Parser, s: string): Result
    decreases |s|
  {
    if p.state == DONE then Parsed(p.events + [EndDocument])
    else if s == "" then Error
    else match Turn(numeric, p, s)
      case Failed => Error
      case Going(q) => Run(numeric, q, if Reads(p, s) <= |s| then s[Reads(p, s)..] else "")
  }

  function Initial(): Parser {
    Parser(BEFORE_XMLDECLARATION, [], 0, "<>", "", "", '\0', "", "", map[], [StartDocument])
  }

  function Parse(numeric: Numeric, s: string): Result { Run(numeric, Initial(), s) }

  /** One ordinary character, as a rewriting step for proofs. */
  lemma Advance(numeric: Numeric, p: Parser, c: char, rest: string)
    requires p.state != DONE && p.state != BEFORE_XMLDECLARATION
    requires p.state == IN_XMLDECLARATION ==> c != '?'
    requires Step(numeric, p, c).Going?
    ensures Run(numeric, p, [c] + rest) == Run(numeric, Step(numeric, p, c).p, rest)
  {
    var s := [c] + rest;
    assert s[0] == c && s[1..] == rest;
  }
}
