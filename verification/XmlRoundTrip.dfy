/**
 * QDParser undoes EMdFOutput: what is written in compact XML is delivered as the
 * tree's start, text and end events, in order, with adjacent text merged.
 */
module XmlRoundTrip {
  import opened XmlWriter
  import opened Options
  import opened XmlReader
  import opened XmlInput

  /* ---------- what the round trip is promised for ---------- */

  predicate Clean(s: string) { forall i :: 0 <= i < |s| ==> s[i] != '\0' && s[i] != '\r' }

  /** No character that ends a tag name, and no first character that starts another construct. */
  predicate NameOk(s: string) {
    Clean(s) && s != "" && s[0] != '?' && s[0] != '!' &&
    forall i :: 0 <= i < |s| ==> s[i] != '/' && s[i] != '>' && !Blank(s[i])
  }

  predicate AttributeOk(a: Attribute) {
    Clean(a.name) && Clean(a.value) && a.name != "" && a.name[0] != '/' && a.name[0] != '>' &&
    forall i :: 0 <= i < |a.name| ==> a.name[i] != '=' && !Blank(a.name[i])
  }

  predicate AttributesOk(attributes: seq<Attribute>) {
    forall i :: 0 <= i < |attributes| ==> AttributeOk(attributes[i])
  }

  predicate NodeOk(n: Node) {
    match n
    case Text(s) => Clean(s)
    case Single(name, attributes) => NameOk(name) && AttributesOk(attributes)
    case Element(name, attributes, children) =>
      NameOk(name) && AttributesOk(attributes) && forall i :: 0 <= i < |children| ==> NodeOk(children[i])
  }

  /* ---------- what is delivered ---------- */

  /** Attribute-value normalization of section 3.3.3 of XML 1.0. */
  function Normalized(s: string): string {
    if s == "" then ""
    else
      var c := s[|s| - 1];
      Normalized(s[..|s| - 1]) + (if c == '\n' || c == '\t' then " " else [c])
  }

  /** The attributes as the parser's map holds them: of equal names the first counts. */
  function Collected(attributes: seq<Attribute>): Attributes {
    if attributes == [] then map[]
    else
      var a := attributes[|attributes| - 1];
      Insert(Collected(attributes[..|attributes| - 1]), a.name, Normalized(a.value))
  }

  /** The events of a tree, one text event per text node. */
  function Raw(n: Node): seq<Event> {
    match n
    case Text(s) => [Characters(s)]
    case Single(name, attributes) => [StartElement(name, Collected(attributes)), EndElement(name)]
    case Element(name, attributes, children) =>
      [StartElement(name, Collected(attributes))] + RawAll(children) + [EndElement(name)]
  }

  function RawAll(ns: seq<Node>): seq<Event> {
    if ns == [] then [] else Raw(ns[0]) + RawAll(ns[1..])
  }

  /** Adjacent text events become one, and empty text none; `pending` is text not yet delivered. */
  function Merge(events: seq<Event>, pending: string): seq<Event> {
    if events == [] then Flush(pending)
    else if events[0].Characters? then Merge(events[1..], pending + events[0].text)
    else Flush(pending) + [events[0]] + Merge(events[1..], "")
  }

  function Flush(pending: string): seq<Event> { if pending == "" then [] else [Characters(pending)] }

  /* ---------- characters ---------- */

  lemma {:induction false} CStrId(s: string)
    requires Clean(s)
    ensures CStr(s) == s
  {
    if s != "" {
      CStrId(s[1..]);
      assert s == [s[0]] + s[1..];
    }
  }

  lemma Uncons(w: string, rest: string)
    requires w != ""
    ensures w + rest == [w[0]] + (w[1..] + rest)
    ensures [w[0]] + w[1..] == w
  {
  }

  lemma SplitLast(s: string)
    requires s != ""
    ensures s == s[..|s| - 1] + [s[|s| - 1]]
  {
  }

  /** Characters that only accumulate, in the text state. */
  lemma {:induction false} RunRaw(numeric: Numeric, p: Parser, w: string, rest: string)
    requires p.state == TEXT && forall i :: 0 <= i < |w| ==> w[i] != '&' && w[i] != '<'
    ensures Run(numeric, p, w + rest) == Run(numeric, p.(text := p.text + w), rest)
    decreases |w|
  {
    hide Run;
    if w == "" {
      assert w + rest == rest && p.text + w == p.text;
    } else {
      Advance(numeric, p, w[0], w[1..] + rest);
      assert w + rest == [w[0]] + (w[1..] + rest);
      RunRaw(numeric, p.(text := p.text + [w[0]]), w[1..], rest);
      assert p.text + [w[0]] + w[1..] == p.text + w;
    }
  }

  /** An entity the parser knows, met in the text or in a quoted value. */
  lemma {:induction false} RunEntityName(numeric: Numeric, p: Parser, name: string, rest: string)
    requires p.state == ENTITY && forall i :: 0 <= i < |name| ==> name[i] != ';'
    ensures Run(numeric, p, name + rest) == Run(numeric, p.(entity := p.entity + name), rest)
    decreases |name|
  {
    hide Run;
    if name == "" {
      assert name + rest == rest && p.entity + name == p.entity;
    } else {
      Advance(numeric, p, name[0], name[1..] + rest);
      assert name + rest == [name[0]] + (name[1..] + rest);
      RunEntityName(numeric, p.(entity := p.entity + [name[0]]), name[1..], rest);
      assert p.entity + [name[0]] + name[1..] == p.entity + name;
    }
  }

  function EntityName(c: char): string {
    if c == '&' then "amp" else if c == '"' then "quot" else if c == '<' then "lt" else "gt"
  }

  predicate Escaped(c: char) { c == '&' || c == '"' || c == '<' || c == '>' }

  lemma EscapedMeans(c: char)
    requires Escaped(c)
    ensures EscapeChar(c) == ['&'] + (EntityName(c) + [';'])
    ensures NamedEntity(EntityName(c)) == Some([c]) && EntityName(c)[0] != '#'
    ensures forall i :: 0 <= i < |EntityName(c)| ==> EntityName(c)[i] != ';'
  {
  }

  /** The state after an entity has been read from `p`. */
  function Expanded(p: Parser, c: char): Parser {
    var q := p.(entity := EntityName(c));
    if p.state == QUOTE then q.(rvalue := p.rvalue + [c]) else q.(text := p.text + [c])
  }

  lemma RunEntity(numeric: Numeric, p: Parser, c: char, rest: string)
    requires (p.state == TEXT || p.state == QUOTE) && Escaped(c)
    ensures Run(numeric, p, EscapeChar(c) + rest) == Run(numeric, Expanded(p, c), rest)
  {
    hide Run;
    EscapedMeans(c);
    var name := EntityName(c);
    var p1 := Push(p, p.state).(entity := "", state := ENTITY);
    assert EscapeChar(c) + rest == ['&'] + (name + ([';'] + rest));
    Advance(numeric, p, '&', name + ([';'] + rest));
    RunEntityName(numeric, p1, name, [';'] + rest);
    assert "" + name == name;
    var p2 := p1.(entity := name);
    assert (p.stack + [p.state])[..|p.stack|] == p.stack;
    Advance(numeric, p2, ';', rest);
  }

  lemma {:induction false} RunEscape(numeric: Numeric, p: Parser, s: string, rest: string) returns (q: Parser)
    requires p.state == TEXT && Clean(s)
    ensures q == p.(text := p.text + s, entity := q.entity)
    ensures Run(numeric, p, Escape(s) + rest) == Run(numeric, q, rest)
  {
    hide Run;
    if s == "" {
      assert Escape(s) + rest == rest && p.text + s == p.text;
      q := p;
    } else {
      var n := |s| - 1;
      SplitLast(s);
      var q1 := RunEscape(numeric, p, s[..n], EscapeChar(s[n]) + rest);
      assert Escape(s) + rest == Escape(s[..n]) + (EscapeChar(s[n]) + rest);
      assert p.text + s[..n] + [s[n]] == p.text + s;
      if Escaped(s[n]) {
        RunEntity(numeric, q1, s[n], rest);
        q := Expanded(q1, s[n]);
      } else {
        Advance(numeric, q1, s[n], rest);
        q := q1.(text := q1.text + [s[n]]);
      }
    }
  }

  /** Character data written between tags comes back as the text it was. */
  lemma RunText(numeric: Numeric, p: Parser, s: string, rest: string) returns (q: Parser)
    requires p.state == TEXT && Clean(s)
    ensures q == p.(text := p.text + s, entity := q.entity)
    ensures Run(numeric, p, CharData(s) + rest) == Run(numeric, q, rest)
  {
    if NeedsEscape(s) {
      q := RunEscape(numeric, p, s, rest);
    } else {
      CStrId(s);
      RunRaw(numeric, p, s, rest);
      q := p.(text := p.text + s);
    }
  }

  /* ---------- attributes ---------- */

  function Adjusted(c: char): char { if c == '\n' || c == '\t' then ' ' else c }

  /** A character of a quoted value that stands for itself. */
  lemma RunQuotedChar(numeric: Numeric, p: Parser, c: char, rest: string)
    requires p.state == QUOTE && c != '&' && c != p.quote && p.quote != '\n' && p.quote != '\t'
    ensures Run(numeric, p, [c] + rest) == Run(numeric, p.(rvalue := p.rvalue + [Adjusted(c)]), rest)
  {
    hide Run;
    Advance(numeric, p, c, rest);
  }

  lemma {:induction false} RunQuotedRaw(numeric: Numeric, p: Parser, w: string, rest: string)
    requires p.state == QUOTE && p.quote != '\n' && p.quote != '\t'
    requires forall i :: 0 <= i < |w| ==> w[i] != '&' && w[i] != p.quote
    ensures Run(numeric, p, w + rest) == Run(numeric, p.(rvalue := p.rvalue + Normalized(w)), rest)
  {
    hide Run;
    if w == "" {
      assert w + rest == rest && p.rvalue + Normalized(w) == p.rvalue;
    } else {
      var n := |w| - 1;
      SplitLast(w);
      assert w + rest == w[..n] + ([w[n]] + rest);
      RunQuotedRaw(numeric, p, w[..n], [w[n]] + rest);
      RunQuotedChar(numeric, p.(rvalue := p.rvalue + Normalized(w[..n])), w[n], rest);
      assert p.rvalue + Normalized(w[..n]) + [Adjusted(w[n])] == p.rvalue + Normalized(w);
    }
  }

  lemma {:induction false} RunQuotedEscape(numeric: Numeric, p: Parser, s: string, rest: string) returns (q: Parser)
    requires p.state == QUOTE && p.quote == '"'
    ensures q == p.(rvalue := p.rvalue + Normalized(s), entity := q.entity)
    ensures Run(numeric, p, Escape(s) + rest) == Run(numeric, q, rest)
  {
    hide Run;
    if s == "" {
      assert Escape(s) + rest == rest && p.rvalue + Normalized(s) == p.rvalue;
      q := p;
    } else {
      var n := |s| - 1;
      SplitLast(s);
      var q1 := RunQuotedEscape(numeric, p, s[..n], EscapeChar(s[n]) + rest);
      assert Escape(s) + rest == Escape(s[..n]) + (EscapeChar(s[n]) + rest);
      assert p.rvalue + Normalized(s[..n]) + [Adjusted(s[n])] == p.rvalue + Normalized(s);
      if Escaped(s[n]) {
        RunEntity(numeric, q1, s[n], rest);
        q := Expanded(q1, s[n]);
      } else {
        RunQuotedChar(numeric, q1, s[n], rest);
        q := q1.(rvalue := q1.rvalue + [Adjusted(s[n])]);
      }
    }
  }

  lemma RunValue(numeric: Numeric, p: Parser, s: string, rest: string) returns (q: Parser)
    requires p.state == QUOTE && p.quote == '"' && Clean(s)
    ensures q == p.(rvalue := p.rvalue + Normalized(s), entity := q.entity)
    ensures Run(numeric, p, CharData(s) + rest) == Run(numeric, q, rest)
  {
    if NeedsEscape(s) {
      q := RunQuotedEscape(numeric, p, s, rest);
    } else {
      CStrId(s);
      RunQuotedRaw(numeric, p, s, rest);
      q := p.(rvalue := p.rvalue + Normalized(s));
    }
  }

  lemma {:induction false} RunLvalue(numeric: Numeric, p: Parser, w: string, rest: string)
    requires p.state == ATTRIBUTE_LVALUE && forall i :: 0 <= i < |w| ==> w[i] != '=' && !Blank(w[i])
    ensures Run(numeric, p, w + rest) == Run(numeric, p.(lvalue := p.lvalue + w), rest)
    decreases |w|
  {
    hide Run;
    if w == "" {
      assert w + rest == rest && p.lvalue + w == p.lvalue;
    } else {
      Advance(numeric, p, w[0], w[1..] + rest);
      assert w + rest == [w[0]] + (w[1..] + rest);
      RunLvalue(numeric, p.(lvalue := p.lvalue + [w[0]]), w[1..], rest);
      assert p.lvalue + [w[0]] + w[1..] == p.lvalue + w;
    }
  }

  lemma RunNameStart(numeric: Numeric, p: Parser, c: char, rest: string)
    requires p.state == IN_TAG || p.state == IN_XMLDECLARATION
    requires !Blank(c)
    requires p.state == IN_TAG ==> c != '/' && c != '>'
    requires p.state == IN_XMLDECLARATION ==> c != '?' && c != '\t'
    ensures Run(numeric, p, [c] + rest) ==
            Run(numeric, Push(p, p.state).(state := ATTRIBUTE_LVALUE, lvalue := [c], rvalue := ""), rest)
  {
    hide Run;
    Advance(numeric, p, c, rest);
  }

  lemma RunEqualQuote(numeric: Numeric, p: Parser, quote: char, rest: string)
    requires p.state == ATTRIBUTE_LVALUE && (quote == '"' || quote == '\'')
    ensures Run(numeric, p, ['=', quote] + rest) == Run(numeric, p.(state := QUOTE, quote := quote), rest)
  {
    hide Run;
    assert ['=', quote] + rest == ['='] + ([quote] + rest);
    Advance(numeric, p, '=', [quote] + rest);
    Advance(numeric, p.(state := ATTRIBUTE_RVALUE), quote, rest);
  }

  /** name, equals sign and opening quote, inside a tag or the declaration. */
  lemma RunToQuote(numeric: Numeric, p: Parser, name: string, quote: char, rest: string)
    requires p.state == IN_TAG || p.state == IN_XMLDECLARATION
    requires name != "" && forall i :: 0 <= i < |name| ==> name[i] != '=' && !Blank(name[i])
    requires p.state == IN_TAG ==> name[0] != '/' && name[0] != '>'
    requires p.state == IN_XMLDECLARATION ==> name[0] != '?' && name[0] != '\t'
    requires quote == '"' || quote == '\''
    ensures Run(numeric, p, name + (['=', quote] + rest)) ==
            Run(numeric, Push(p, p.state).(state := QUOTE, lvalue := name, rvalue := "", quote := quote), rest)
  {
    hide Run, Blank, Step;
    var tail := ['=', quote] + rest;
    var p1 := Push(p, p.state).(state := ATTRIBUTE_LVALUE, lvalue := [name[0]], rvalue := "");
    Uncons(name, tail);
    RunNameStart(numeric, p, name[0], name[1..] + tail);
    assert forall i :: 0 <= i < |name[1..]| ==> name[1..][i] == name[i + 1];
    RunLvalue(numeric, p1, name[1..], tail);
    RunEqualQuote(numeric, p1.(lvalue := name), quote, rest);
  }

  /** The closing quote stores the attribute and returns to where it began. */
  lemma RunCloseQuote(numeric: Numeric, p: Parser, back: State, rest: string)
    requires p.state == QUOTE && p.stack != [] && p.stack[|p.stack| - 1] == back
    requires p.quote == '"' || p.quote == '\''
    ensures Run(numeric, p, [p.quote] + rest) ==
            Run(numeric, p.(state := back, stack := p.stack[..|p.stack| - 1],
                            attributes := Insert(p.attributes, p.lvalue, p.rvalue)), rest)
  {
    hide Run;
    Advance(numeric, p, p.quote, rest);
  }

  /** Equal in all that an open tag's later course depends on. */
  ghost predicate SameTag(p: Parser, q: Parser) {
    p.stack == q.stack && p.depth == q.depth && p.tag == q.tag && p.text == q.text && p.events == q.events
  }

  predicate Tagging(p: Parser) { p.state == OPEN_TAG || p.state == IN_TAG }

  lemma AttributeParts(name: string, data: string, rest: string)
    ensures " " + name + "=\"" + data + "\"" + rest == [' '] + (name + (['=', '"'] + (data + (['"'] + rest))))
  {
  }

  lemma RunAttribute(numeric: Numeric, p: Parser, a: Attribute, rest: string) returns (q: Parser)
    requires Tagging(p) && AttributeOk(a)
    ensures q.state == IN_TAG && SameTag(p, q)
    ensures q.attributes == Insert(p.attributes, a.name, Normalized(a.value))
    ensures Run(numeric, p, PrintAttribute(a) + rest) == Run(numeric, q, rest)
  {
    hide Run;
    CStrId(a.name);
    var data := CharData(a.value);
    AttributeParts(a.name, data, rest);
    var p1 := p.(state := IN_TAG);
    Advance(numeric, p, ' ', a.name + (['=', '"'] + (data + (['"'] + rest))));
    RunToQuote(numeric, p1, a.name, '"', data + (['"'] + rest));
    var p2 := Push(p1, IN_TAG).(state := QUOTE, lvalue := a.name, rvalue := "", quote := '"');
    var p3 := RunValue(numeric, p2, a.value, ['"'] + rest);
    assert "" + Normalized(a.value) == Normalized(a.value);
    RunCloseQuote(numeric, p3, IN_TAG, rest);
    q := p3.(state := IN_TAG, stack := p3.stack[..|p3.stack| - 1],
             attributes := Insert(p3.attributes, p3.lvalue, p3.rvalue));
    assert (p.stack + [IN_TAG])[..|p.stack|] == p.stack;
  }

  lemma {:induction false} RunAttributes(numeric: Numeric, p: Parser, attributes: seq<Attribute>, rest: string)
    returns (q: Parser)
    requires Tagging(p) && AttributesOk(attributes) && p.attributes == map[]
    ensures Tagging(q) && SameTag(p, q) && q.attributes == Collected(attributes)
    ensures Run(numeric, p, PrintAttributes(attributes) + rest) == Run(numeric, q, rest)
  {
    hide Run, PrintAttribute;
    if attributes == [] {
      assert PrintAttributes(attributes) + rest == rest;
      q := p;
    } else {
      var n := |attributes| - 1;
      var a := attributes[n];
      var q1 := RunAttributes(numeric, p, attributes[..n], PrintAttribute(a) + rest);
      assert PrintAttributes(attributes) + rest == PrintAttributes(attributes[..n]) + (PrintAttribute(a) + rest);
      q := RunAttribute(numeric, q1, a, rest);
    }
  }

  /* ---------- tags ---------- */

  lemma {:induction false} RunTagName(numeric: Numeric, p: Parser, w: string, rest: string)
    requires p.state == OPEN_TAG && p.tag != "" && p.tag[0] != '!'
    requires forall i :: 0 <= i < |w| ==> w[i] != '/' && w[i] != '>' && !Blank(w[i])
    ensures Run(numeric, p, w + rest) == Run(numeric, p.(tag := p.tag + w), rest)
    decreases |w|
  {
    hide Run;
    if w == "" {
      assert w + rest == rest && p.tag + w == p.tag;
    } else {
      assert (p.tag + [w[0]])[0] == p.tag[0];
      Advance(numeric, p, w[0], w[1..] + rest);
      assert w + rest == [w[0]] + (w[1..] + rest);
      RunTagName(numeric, p.(tag := p.tag + [w[0]]), w[1..], rest);
      assert p.tag + [w[0]] + w[1..] == p.tag + w;
    }
  }

  lemma {:induction false} RunCloseName(numeric: Numeric, p: Parser, w: string, rest: string)
    requires p.state == CLOSE_TAG && forall i :: 0 <= i < |w| ==> w[i] != '>'
    ensures Run(numeric, p, w + rest) == Run(numeric, p.(tag := p.tag + w), rest)
    decreases |w|
  {
    hide Run;
    if w == "" {
      assert w + rest == rest && p.tag + w == p.tag;
    } else {
      Advance(numeric, p, w[0], w[1..] + rest);
      assert w + rest == [w[0]] + (w[1..] + rest);
      RunCloseName(numeric, p.(tag := p.tag + [w[0]]), w[1..], rest);
      assert p.tag + [w[0]] + w[1..] == p.tag + w;
    }
  }

  /** From text to the end of a tag's attributes; the text before the tag has been delivered. */
  lemma RunTagStart(numeric: Numeric, p: Parser, name: string, attributes: seq<Attribute>, rest: string)
    returns (q: Parser)
    requires p.state == TEXT && NameOk(name) && AttributesOk(attributes)
    ensures Tagging(q) && q.stack == p.stack + [TEXT] && q.depth == p.depth && q.tag == name && q.text == ""
    ensures q.events == p.events + Flush(p.text) && q.attributes == Collected(attributes)
    ensures Run(numeric, p, "<" + CStr(name) + PrintAttributes(attributes) + rest) == Run(numeric, q, rest)
  {
    hide Run, PrintAttributes, Collected;
    CStrId(name);
    var more := PrintAttributes(attributes) + rest;
    assert "<" + name + PrintAttributes(attributes) + rest == ['<'] + ([name[0]] + (name[1..] + more));
    Advance(numeric, p, '<', [name[0]] + (name[1..] + more));
    var p1 := Push(FlushText(p), TEXT).(state := START_TAG, tag := "");
    Advance(numeric, p1, name[0], name[1..] + more);
    var p2 := p1.(state := OPEN_TAG, tag := [name[0]], attributes := map[]);
    RunTagName(numeric, p2, name[1..], more);
    assert [name[0]] + name[1..] == name;
    q := RunAttributes(numeric, p2.(tag := name), attributes, rest);
  }

  /** Equal in all that the course after a tag depends on. */
  ghost predicate At(p: Parser, stack: seq<State>, depth: int, text: string, events: seq<Event>) {
    p.state == TEXT && p.stack == stack && p.depth == depth && p.text == text && p.events == events
  }

  lemma RunOpenTag(numeric: Numeric, p: Parser, name: string, attributes: seq<Attribute>, rest: string)
    returns (q: Parser)
    requires p.state == TEXT && NameOk(name) && AttributesOk(attributes)
    ensures At(q, p.stack, p.depth + 1, "", p.events + Flush(p.text) + [StartElement(name, Collected(attributes))])
    ensures Run(numeric, p, OpenTag(name, attributes) + rest) == Run(numeric, q, rest)
  {
    hide Run, PrintAttributes, Collected;
    var q1 := RunTagStart(numeric, p, name, attributes, ">" + rest);
    assert OpenTag(name, attributes) + rest == "<" + CStr(name) + PrintAttributes(attributes) + (">" + rest);
    assert ">" + rest == ['>'] + rest;
    assert (p.stack + [TEXT])[..|p.stack|] == p.stack;
    Advance(numeric, q1, '>', rest);
    q := Step(numeric, q1, '>').p;
  }

  lemma RunSingleTag(numeric: Numeric, p: Parser, name: string, attributes: seq<Attribute>, rest: string)
    returns (q: Parser)
    requires p.state == TEXT && NameOk(name) && AttributesOk(attributes)
    ensures q.events == p.events + Flush(p.text) + [StartElement(name, Collected(attributes)), EndElement(name)]
    ensures if p.depth == 0 then q.state == DONE else At(q, p.stack, p.depth, "", q.events)
    ensures Run(numeric, p, SingleTag(name, attributes) + rest) == Run(numeric, q, rest)
  {
    hide Run, PrintAttributes, Collected;
    var q1 := RunTagStart(numeric, p, name, attributes, "/>" + rest);
    assert SingleTag(name, attributes) + rest == "<" + CStr(name) + PrintAttributes(attributes) + ("/>" + rest);
    assert "/>" + rest == ['/'] + (['>'] + rest);
    assert (p.stack + [TEXT])[..|p.stack|] == p.stack;
    Advance(numeric, q1, '/', ['>'] + rest);
    var q2 := q1.(state := SINGLE_TAG);
    Advance(numeric, q2, '>', rest);
    q := Step(numeric, q2, '>').p;
    assert q.events == q1.events + [StartElement(name, q1.attributes)] + [EndElement(name)];
  }

  lemma CloseParts(name: string, rest: string)
    requires CStr(name) == name
    ensures CloseTag(name) + rest == ['<'] + (['/'] + (name + (['>'] + rest)))
  {
  }

  lemma RunCloseStart(numeric: Numeric, p: Parser, rest: string)
    requires p.state == TEXT
    ensures Run(numeric, p, ['<'] + (['/'] + rest)) ==
            Run(numeric, Push(FlushText(p), TEXT).(state := CLOSE_TAG, tag := ""), rest)
  {
    hide Run;
    Advance(numeric, p, '<', ['/'] + rest);
    Advance(numeric, Push(FlushText(p), TEXT).(state := START_TAG, tag := ""), '/', rest);
  }

  lemma RunCloseEnd(numeric: Numeric, p: Parser, rest: string)
    requires p.state == CLOSE_TAG && p.stack != []
    ensures Run(numeric, p, ['>'] + rest) ==
            Run(numeric, p.(state := if p.depth == 1 then DONE else p.stack[|p.stack| - 1],
                            stack := p.stack[..|p.stack| - 1], depth := p.depth - 1, tag := "",
                            events := p.events + [EndElement(p.tag)]), rest)
  {
    hide Run;
    Advance(numeric, p, '>', rest);
  }

  lemma RunCloseTag(numeric: Numeric, p: Parser, name: string, rest: string) returns (q: Parser)
    requires p.state == TEXT && NameOk(name)
    ensures q.events == p.events + Flush(p.text) + [EndElement(name)]
    ensures if p.depth == 1 then q.state == DONE else At(q, p.stack, p.depth - 1, "", q.events)
    ensures Run(numeric, p, CloseTag(name) + rest) == Run(numeric, q, rest)
  {
    hide Run, Step, CStr;
    CStrId(name);
    CloseParts(name, rest);
    RunCloseStart(numeric, p, name + (['>'] + rest));
    var p1 := Push(FlushText(p), TEXT).(state := CLOSE_TAG, tag := "");
    RunCloseName(numeric, p1, name, ['>'] + rest);
    assert "" + name == name;
    var p2 := p1.(tag := name);
    RunCloseEnd(numeric, p2, rest);
    assert (p.stack + [TEXT])[..|p.stack|] == p.stack;
    q := p2.(state := if p.depth == 1 then DONE else TEXT, stack := p.stack, depth := p.depth - 1, tag := "",
             events := p2.events + [EndElement(name)]);
  }

  /* ---------- trees ---------- */

  /** What a node does to the events delivered and the text collected. */
  datatype Sink = Sink(events: seq<Event>, text: string)

  function Deliver(n: Node, k: Sink): Sink {
    match n
    case Text(s) => Sink(k.events, k.text + s)
    case Single(name, attributes) =>
      Sink(k.events + Flush(k.text) + [StartElement(name, Collected(attributes)), EndElement(name)], "")
    case Element(name, attributes, children) =>
      var inner := DeliverAll(children, Sink(k.events + Flush(k.text) + [StartElement(name, Collected(attributes))], ""));
      Sink(inner.events + Flush(inner.text) + [EndElement(name)], "")
  }

  function DeliverAll(ns: seq<Node>, k: Sink): Sink {
    if ns == [] then k else DeliverAll(ns[1..], Deliver(ns[0], k))
  }

  /** Collecting text as the parser does is merging the tree's own events. */
  lemma {:induction false} DeliverMerges(n: Node, k: Sink, more: seq<Event>)
    ensures Deliver(n, k).events + Merge(more, Deliver(n, k).text) == k.events + Merge(Raw(n) + more, k.text)
    decreases n, 0
  {
    hide Merge, Collected;
    match n
    case Text(s) => MergeText(s, more, k.text);
    case Single(name, attributes) =>
      var b, e := StartElement(name, Collected(attributes)), EndElement(name);
      assert Raw(n) + more == [b] + ([e] + more);
      MergeCons(b, [e] + more, k.text);
      MergeCons(e, more, "");
      assert k.events + Flush(k.text) + [b, e] + Merge(more, "") ==
             k.events + (Flush(k.text) + [b] + ([e] + Merge(more, "")));
    case Element(name, attributes, children) =>
      var b, e := StartElement(name, Collected(attributes)), EndElement(name);
      var k1 := Sink(k.events + Flush(k.text) + [b], "");
      assert Raw(n) + more == [b] + (RawAll(children) + ([e] + more));
      MergeCons(b, RawAll(children) + ([e] + more), k.text);
      DeliverAllMerges(n, children, k1, [e] + more);
      var inner := DeliverAll(children, k1);
      MergeCons(e, more, inner.text);
      Regroup(inner.events, Flush(inner.text), [e], Merge(more, ""));
      Regroup(k.events, Flush(k.text), [b], Merge(RawAll(children) + ([e] + more), ""));
  }

  lemma {:induction false} DeliverAllMerges(parent: Node, ns: seq<Node>, k: Sink, more: seq<Event>)
    requires parent.Element? && |ns| <= |parent.children| && ns == parent.children[|parent.children| - |ns|..]
    ensures DeliverAll(ns, k).events + Merge(more, DeliverAll(ns, k).text) == k.events + Merge(RawAll(ns) + more, k.text)
    decreases parent, 0, |ns|
  {
    hide Deliver, Merge, Raw;
    if ns == [] {
      assert RawAll(ns) + more == more;
    } else {
      var k1 := Deliver(ns[0], k);
      assert ns[0] == parent.children[|parent.children| - |ns|];
      DeliverMerges(ns[0], k, RawAll(ns[1..]) + more);
      DeliverAllMerges(parent, ns[1..], k1, more);
      assert RawAll(ns) + more == Raw(ns[0]) + (RawAll(ns[1..]) + more);
    }
  }

  lemma Regroup(a: seq<Event>, b: seq<Event>, c: seq<Event>, d: seq<Event>)
    ensures a + b + c + d == a + (b + c + d)
  {
  }

  lemma MergeText(s: string, more: seq<Event>, pending: string)
    ensures Merge([Characters(s)] + more, pending) == Merge(more, pending + s)
  {
    assert ([Characters(s)] + more)[1..] == more;
  }

  lemma MergeCons(e: Event, more: seq<Event>, pending: string)
    requires !e.Characters?
    ensures Merge([e] + more, pending) == Flush(pending) + [e] + Merge(more, "")
  {
    assert ([e] + more)[1..] == more;
  }

  lemma {:induction false} RunNode(numeric: Numeric, p: Parser, n: Node, rest: string) returns (q: Parser)
    requires p.state == TEXT && p.depth >= 1 && NodeOk(n)
    ensures var k := Deliver(n, Sink(p.events, p.text)); At(q, p.stack, p.depth, k.text, k.events)
    ensures Run(numeric, p, PrintNode(n) + rest) == Run(numeric, q, rest)
    decreases n, 0
  {
    hide Run, OpenTag, CloseTag, SingleTag, CharData, Collected;
    match n
    case Text(s) => q := RunText(numeric, p, s, rest);
    case Single(name, attributes) => q := RunSingleTag(numeric, p, name, attributes, rest);
    case Element(name, attributes, children) =>
      var inner := PrintNodes(children);
      assert PrintNode(n) + rest == OpenTag(name, attributes) + (inner + (CloseTag(name) + rest));
      var q1 := RunOpenTag(numeric, p, name, attributes, inner + (CloseTag(name) + rest));
      var q2 := RunNodes(numeric, n, q1, children, CloseTag(name) + rest);
      q := RunCloseTag(numeric, q2, name, rest);
  }

  lemma {:induction false} RunNodes(numeric: Numeric, parent: Node, p: Parser, ns: seq<Node>, rest: string)
    returns (q: Parser)
    requires parent.Element? && |ns| <= |parent.children| && ns == parent.children[|parent.children| - |ns|..]
    requires p.state == TEXT && p.depth >= 1 && NodeOk(parent)
    ensures var k := DeliverAll(ns, Sink(p.events, p.text)); At(q, p.stack, p.depth, k.text, k.events)
    ensures Run(numeric, p, PrintNodes(ns) + rest) == Run(numeric, q, rest)
    decreases parent, 0, |ns|
  {
    hide Run, Deliver;
    if ns == [] {
      assert PrintNodes(ns) + rest == rest;
      q := p;
    } else {
      assert ns[0] == parent.children[|parent.children| - |ns|];
      assert PrintNodes(ns) + rest == PrintNode(ns[0]) + (PrintNodes(ns[1..]) + rest);
      var q1 := RunNode(numeric, p, ns[0], PrintNodes(ns[1..]) + rest);
      q := RunNodes(numeric, parent, q1, ns[1..], rest);
    }
  }

  /* ---------- documents ---------- */

  /** The charset names of s_charset_names are such strings. */
  predicate CharsetOk(s: string) {
    Clean(s) && forall i :: 0 <= i < |s| ==> s[i] != '&' && s[i] != '\'' && s[i] != '\n' && s[i] != '\t'
  }

  lemma DeclParts(name: string, value: string, rest: string)
    ensures name + "='" + value + "'" + rest == name + (['=', '\''] + (value + (['\''] + rest)))
  {
  }

  lemma RunDeclAttribute(numeric: Numeric, p: Parser, name: string, value: string, rest: string) returns (q: Parser)
    requires p.state == IN_XMLDECLARATION && CharsetOk(value)
    requires name != "" && name[0] != '?' && name[0] != '\t'
    requires forall i :: 0 <= i < |name| ==> name[i] != '=' && !Blank(name[i])
    ensures q.state == IN_XMLDECLARATION && SameTag(p, q)
    ensures Run(numeric, p, name + "='" + value + "'" + rest) == Run(numeric, q, rest)
  {
    hide Run, Step, Blank;
    DeclParts(name, value, rest);
    RunToQuote(numeric, p, name, '\'', value + (['\''] + rest));
    var p1 := Push(p, p.state).(state := QUOTE, lvalue := name, rvalue := "", quote := '\'');
    RunQuotedRaw(numeric, p1, value, ['\''] + rest);
    var p2 := p1.(rvalue := "" + Normalized(value));
    RunCloseQuote(numeric, p2, IN_XMLDECLARATION, rest);
    q := p2.(state := IN_XMLDECLARATION, stack := p2.stack[..|p2.stack| - 1],
             attributes := Insert(p2.attributes, p2.lvalue, p2.rvalue));
    assert (p.stack + [IN_XMLDECLARATION])[..|p.stack|] == p.stack;
  }

  lemma RunDeclStart(numeric: Numeric, p: Parser, rest: string)
    requires p.state == BEFORE_XMLDECLARATION
    ensures Run(numeric, p, "<?xml " + rest) == Run(numeric, p.(state := IN_XMLDECLARATION), rest)
  {
    var s := "<?xml " + rest;
    assert s[1..5] == "?xml" && s[6..] == rest && s[5] == ' ' && s[0] == '<';
  }

  lemma RunDeclEnd(numeric: Numeric, p: Parser, rest: string)
    requires p.state == IN_XMLDECLARATION
    ensures Run(numeric, p, "?>" + rest) == Run(numeric, p.(state := TEXT), rest)
  {
    var s := "?>" + rest;
    assert s[2..] == rest && s[0] == '?' && s[1] == '>';
  }

  lemma RunDeclSpace(numeric: Numeric, p: Parser, rest: string)
    requires p.state == IN_XMLDECLARATION
    ensures Run(numeric, p, " " + rest) == Run(numeric, p, rest)
  {
    hide Run;
    Advance(numeric, p, ' ', rest);
  }

  lemma DeclRegroup(charset: string, rest: string)
    ensures XmlDecl(charset) + rest ==
            "<?xml " + ("version" + "='" + "1.0" + "'" + (" " + ("encoding" + "='" + charset + "'"
            + (" " + ("standalone" + "='" + "yes" + "'" + (" " + ("?>" + rest)))))))
  {
    var end := " " + ("standalone" + "='" + "yes" + "'" + (" " + ("?>" + rest)));
    FiveParts("<?xml ", "version='1.0' encoding='", charset, "' standalone='yes' ?>", rest);
    DeclTail(rest);
    DeclHead(charset + ("'" + end));
    FourParts("encoding" + "='", charset, "'", end);
  }

  lemma FiveParts(a: string, b: string, c: string, d: string, e: string)
    ensures a + b + c + d + e == a + (b + (c + (d + e)))
  {
  }

  lemma FourParts(a: string, b: string, c: string, d: string)
    ensures a + b + c + d == a + (b + (c + d))
  {
  }

  lemma DeclHead(x: string)
    ensures "version='1.0' encoding='" + x == "version" + "='" + "1.0" + "'" + (" " + ("encoding" + "='" + x))
  {
  }

  lemma DeclTail(rest: string)
    ensures "' standalone='yes' ?>" + rest == "'" + (" " + ("standalone" + "='" + "yes" + "'" + (" " + ("?>" + rest))))
  {
  }

  lemma RunDecl(numeric: Numeric, p: Parser, charset: string, rest: string) returns (q: Parser)
    requires p.state == BEFORE_XMLDECLARATION && CharsetOk(charset)
    ensures At(q, p.stack, p.depth, p.text, p.events)
    ensures Run(numeric, p, XmlDecl(charset) + rest) == Run(numeric, q, rest)
  {
    hide Run, XmlDecl;
    DeclRegroup(charset, rest);
    var end := " " + ("?>" + rest);
    var third := "standalone" + "='" + "yes" + "'" + end;
    var second := "encoding" + "='" + charset + "'" + (" " + third);
    RunDeclStart(numeric, p, "version" + "='" + "1.0" + "'" + (" " + second));
    q := RunDeclAttribute(numeric, p.(state := IN_XMLDECLARATION), "version", "1.0", " " + second);
    RunDeclSpace(numeric, q, second);
    q := RunDeclAttribute(numeric, q, "encoding", charset, " " + third);
    RunDeclSpace(numeric, q, third);
    q := RunDeclAttribute(numeric, q, "standalone", "yes", end);
    RunDeclSpace(numeric, q, "?>" + rest);
    RunDeclEnd(numeric, q, rest);
    q := q.(state := TEXT);
  }

  lemma RunRoot(numeric: Numeric, p: Parser, root: Node, rest: string) returns (q: Parser)
    requires p.state == TEXT && p.depth == 0 && p.text == "" && !root.Text? && NodeOk(root)
    ensures q.state == DONE && q.events == Deliver(root, Sink(p.events, "")).events
    ensures Run(numeric, p, PrintNode(root) + rest) == Run(numeric, q, rest)
  {
    hide Run, OpenTag, CloseTag, SingleTag, Collected;
    if root.Single? {
      q := RunSingleTag(numeric, p, root.name, root.attributes, rest);
    } else {
      var inner, close := PrintNodes(root.children), CloseTag(root.name);
      assert PrintNode(root) + rest == OpenTag(root.name, root.attributes) + (inner + (close + rest));
      var q1 := RunOpenTag(numeric, p, root.name, root.attributes, inner + (close + rest));
      assert root.children[0..] == root.children;
      var q2 := RunNodes(numeric, root, q1, root.children, close + rest);
      q := RunCloseTag(numeric, q2, root.name, rest);
    }
  }

  /**
   * For every document: the parser delivers exactly the tree's events between
   * startDocument and endDocument, and stops there whatever follows.
   */
  lemma RoundTrip(numeric: Numeric, charset: string, root: Node, rest: string)
    requires CharsetOk(charset) && !root.Text? && NodeOk(root)
    ensures Parse(numeric, XmlDecl(charset) + PrintNode(root) + rest) ==
            Parsed([StartDocument] + Merge(Raw(root), "") + [EndDocument])
  {
    hide XmlDecl, PrintNode, Merge, Raw, Run, Deliver;
    var q := RunDecl(numeric, Initial(), charset, PrintNode(root) + rest);
    assert XmlDecl(charset) + PrintNode(root) + rest == XmlDecl(charset) + (PrintNode(root) + rest);
    var done := RunRoot(numeric, q, root, rest);
    RunDone(numeric, done, rest);
    DeliverMerges(root, Sink([StartDocument], ""), []);
    assert Raw(root) + [] == Raw(root);
    NothingLeft(root);
  }

  lemma RunDone(numeric: Numeric, p: Parser, rest: string)
    requires p.state == DONE
    ensures Run(numeric, p, rest) == Parsed(p.events + [EndDocument])
  {
  }

  lemma NothingLeft(root: Node)
    requires !root.Text?
    ensures Deliver(root, Sink([StartDocument], "")).text == "" && Merge([], "") == []
  {
  }

  /* ---------- what the delivered attributes are ---------- */

  /** Values without line feed and tab come back unchanged. */
  lemma {:induction false} NormalizedId(s: string)
    ensures Normalized(s) == s <==> forall i :: 0 <= i < |s| ==> s[i] != '\n' && s[i] != '\t'
    ensures |Normalized(s)| == |s|
  {
    if s != "" {
      var n := |s| - 1;
      NormalizedId(s[..n]);
      SplitLast(s);
      var t := Normalized(s);
      assert t[..n] == Normalized(s[..n]) && t[n] == Adjusted(s[n]);
      if t == s { assert t[..n] == s[..n]; }
      if forall i :: 0 <= i < |s| ==> s[i] != '\n' && s[i] != '\t' { assert t == s[..n] + [s[n]]; }
    }
  }

  /** With distinct names every attribute is delivered under its name, and no other. */
  lemma {:induction false} CollectedMeans(attributes: seq<Attribute>)
    requires forall i, j :: 0 <= i < j < |attributes| ==> attributes[i].name != attributes[j].name
    ensures forall i :: 0 <= i < |attributes| ==>
              attributes[i].name in Collected(attributes)
              && Collected(attributes)[attributes[i].name] == Normalized(attributes[i].value)
    ensures forall name :: name in Collected(attributes) ==> exists i :: 0 <= i < |attributes| && attributes[i].name == name
  {
    hide Normalized;
    if attributes != [] {
      var n := |attributes| - 1;
      var before := attributes[..n];
      CollectedMeans(before);
      assert forall i :: 0 <= i < n ==> before[i] == attributes[i];
      assert attributes[n].name !in Collected(before);
      assert attributes[n].name in Collected(attributes);
    }
  }

  /* ---------- through the input buffer ---------- */

  predicate NoCr(s: string) { '\r' !in s }

  lemma {:induction false} EscapeNoCr(s: string)
    requires Clean(s)
    ensures NoCr(Escape(s))
  {
    if s != "" {
      EscapeNoCr(s[..|s| - 1]);
      assert NoCr(EscapeChar(s[|s| - 1]));
    }
  }

  lemma CharDataNoCr(s: string)
    requires Clean(s)
    ensures NoCr(CharData(s))
  {
    CStrId(s);
    EscapeNoCr(s);
  }

  lemma AttributeNoCr(a: Attribute)
    requires AttributeOk(a)
    ensures NoCr(PrintAttribute(a))
  {
    hide CharData, CStr;
    CStrId(a.name);
    CharDataNoCr(a.value);
  }

  lemma {:induction false} AttributesNoCr(attributes: seq<Attribute>)
    requires AttributesOk(attributes)
    ensures NoCr(PrintAttributes(attributes))
  {
    hide PrintAttribute, AttributeOk;
    if attributes != [] {
      AttributesNoCr(attributes[..|attributes| - 1]);
      AttributeNoCr(attributes[|attributes| - 1]);
    }
  }

  lemma TagNoCr(name: string, attributes: seq<Attribute>)
    requires NameOk(name) && AttributesOk(attributes)
    ensures NoCr(OpenTag(name, attributes)) && NoCr(SingleTag(name, attributes)) && NoCr(CloseTag(name))
  {
    hide CStr, PrintAttributes, AttributesOk;
    CStrId(name);
    AttributesNoCr(attributes);
  }

  lemma {:induction false} NodeNoCr(n: Node)
    requires NodeOk(n)
    ensures NoCr(PrintNode(n))
    decreases n, 0
  {
    hide OpenTag, SingleTag, CloseTag, CharData, AttributesOk, NameOk, Clean;
    match n
    case Text(s) => CharDataNoCr(s);
    case Single(name, attributes) => TagNoCr(name, attributes);
    case Element(name, attributes, children) =>
      TagNoCr(name, attributes);
      NodesNoCr(n, children);
  }

  lemma {:induction false} NodesNoCr(parent: Node, ns: seq<Node>)
    requires parent.Element? && |ns| <= |parent.children| && ns == parent.children[|parent.children| - |ns|..]
    requires NodeOk(parent)
    ensures NoCr(PrintNodes(ns))
    decreases parent, 0, |ns|
  {
    hide AttributesOk, NameOk, PrintNode;
    if ns != [] {
      assert ns[0] == parent.children[|parent.children| - |ns|];
      NodeNoCr(ns[0]);
      NodesNoCr(parent, ns[1..]);
    }
  }

  /** The round trip through the writer's stream, the buffer and the end-of-line translation. */
  method WriteThenParse(numeric: Numeric, charset: string, root: Node) returns (r: Result)
    requires CharsetOk(charset) && !root.Text? && NodeOk(root)
    ensures r == Parsed([StartDocument] + Merge(Raw(root), "") + [EndDocument])
  {
    hide XmlDecl, PrintNode, Merge, Raw, NodeOk, CharsetOk, Translated;
    var output := new Output(CompactXml, 0);
    output.stream := output.stream + XmlDecl(charset);
    WriteNode(output, root);
    r := ParseStream(numeric, output.stream);
    DeclNoCr(charset);
    NodeNoCr(root);
    assert output.stream == XmlDecl(charset) + PrintNode(root) + "";
    TranslatedId(output.stream);
    RoundTrip(numeric, charset, root, "");
  }

  lemma DeclNoCr(charset: string)
    requires CharsetOk(charset)
    ensures NoCr(XmlDecl(charset))
  {
  }
}
