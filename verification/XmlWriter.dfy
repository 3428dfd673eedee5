/**
 * The XML side of EMdFOutput (EMdF/emdf_output.cpp): character data with
 * escapes, tags with attributes, indentation when the output is not compact.
 */
module XmlWriter {

  datatype Attribute = Attribute(name: string, value: string)

  datatype Node =
    | Text(text: string)
    | Element(name: string, attributes: seq<Attribute>, children: seq<Node>)
    | Single(name: string, attributes: seq<Attribute>)

  /** What `<<` writes of a C string: all up to the first NUL. */
  function CStr(s: string): string {
    if s == "" || s[0] == '\0' then "" else [s[0]] + CStr(s[1..])
  }

  /** Up to the first NUL. */
  lemma {:induction false} CStrMeans(s: string)
    ensures |CStr(s)| <= |s| && CStr(s) == s[..|CStr(s)|] && '\0' !in CStr(s) && (CStr(s) == s || s[|CStr(s)|] == '\0')
    decreases |s|
  {
    if s != "" && s[0] != '\0' {
      CStrMeans(s[1..]);
      var t := CStr(s[1..]);
      assert s[..1 + |t|] == [s[0]] + s[1..][..|t|];
      if t == s[1..] { assert CStr(s) == s; }
    }
  }

  function EscapeChar(c: char): string {
    if c == '&' then "&amp;"
    else if c == '"' then "&quot;"
    else if c == '<' then "&lt;"
    else if c == '>' then "&gt;"
    else [c]
  }

  function Escape(s: string): string {
    if s == "" then "" else Escape(s[..|s| - 1]) + EscapeChar(s[|s| - 1])
  }

  lemma EscapeNone(done: string, s: string)
    ensures done + Escape(s[..0]) == done
  {
  }

  lemma EscapeNext(done: string, s: string, i: nat)
    requires i < |s|
    ensures done + Escape(s[..i + 1]) == (done + Escape(s[..i])) + EscapeChar(s[i])
  {
    assert s[..i + 1][..i] == s[..i];
  }

  predicate NeedsEscape(s: string) {
    exists i :: 0 <= i < |s| && (s[i] == '&' || s[i] == '<' || s[i] == '"')
  }

  /** outCharData: a string without &, < and " goes out as it is, even with > in it. */
  function CharData(s: string): string { if NeedsEscape(s) then Escape(s) else CStr(s) }

  function PrintAttribute(a: Attribute): string {
    " " + CStr(a.name) + "=\"" + CharData(a.value) + "\""
  }

  function PrintAttributes(attributes: seq<Attribute>): string {
    if attributes == [] then ""
    else PrintAttributes(attributes[..|attributes| - 1]) + PrintAttribute(attributes[|attributes| - 1])
  }

  function OpenTag(name: string, attributes: seq<Attribute>): string {
    "<" + CStr(name) + PrintAttributes(attributes) + ">"
  }

  function SingleTag(name: string, attributes: seq<Attribute>): string {
    "<" + CStr(name) + PrintAttributes(attributes) + "/>"
  }

  function CloseTag(name: string): string { "</" + CStr(name) + ">" }

  function XmlDecl(charset: string): string {
    "<?xml " + "version='1.0' encoding='" + charset + "' standalone='yes' ?>"
  }

  /** A node in compact XML. */
  function PrintNode(n: Node): string {
    match n
    case Text(s) => CharData(s)
    case Single(name, attributes) => SingleTag(name, attributes)
    case Element(name, attributes, children) => OpenTag(name, attributes) + PrintNodes(children) + CloseTag(name)
  }

  function PrintNodes(ns: seq<Node>): string {
    if ns == [] then "" else PrintNode(ns[0]) + PrintNodes(ns[1..])
  }

  datatype Kind = Console | Xml | CompactXml | Json | CompactJson

  function Spaces(n: nat): string { if n == 0 then "" else Spaces(n - 1) + " " }

  lemma Joined(a: string, b: string, c: string, d: string, e: string, f: string)
    ensures a + b + c + d + e + f == a + (b + c + d + e + f)
    ensures f == "" ==> a + b + c + d + e == a + (b + c + d + e)
  {
  }

  lemma AttributesSnoc(a: string, attributes: seq<Attribute>, i: nat)
    requires i < |attributes|
    ensures a + PrintAttributes(attributes[..i]) + PrintAttribute(attributes[i]) == a + PrintAttributes(attributes[..i + 1])
  {
    hide PrintAttribute;
    assert attributes[..i + 1][..i] == attributes[..i];
    assert PrintAttributes(attributes[..i + 1]) == PrintAttributes(attributes[..i]) + PrintAttribute(attributes[i]);
  }

  lemma NoBreak(a: string)
    ensures a + "" == a
  {
  }

  /** The output stream with its indentation. */
  class Output {
    var stream: string
    var indent: int
    const kind: Kind
    const indentChars: nat

    constructor (kind: Kind, indentChars: nat)
      ensures stream == "" && indent == 0 && this.kind == kind && this.indentChars == indentChars
    {
      stream, indent := "", 0;
      this.kind := kind;
      this.indentChars := indentChars;
    }

    method OutCharData(s: string)
      modifies this`stream
      ensures stream == old(stream) + CharData(s)
    {
      hide Escape, NeedsEscape, CStr;
      EscapeNone(stream, s);
      if NeedsEscape(s) {
        var i := 0;
        while i < |s|
          invariant 0 <= i <= |s|
          invariant stream == old(stream) + Escape(s[..i])
        {
          EscapeNext(old(stream), s, i);
          var c := s[i];
          if c == '&' { stream := stream + "&amp;"; }
          else if c == '"' { stream := stream + "&quot;"; }
          else if c == '<' { stream := stream + "&lt;"; }
          else if c == '>' { stream := stream + "&gt;"; }
          else { stream := stream + [c]; }
          i := i + 1;
        }
        assert s[..i] == s;
      } else {
        stream := stream + CStr(s);
      }
    }

    method EmitAttribute(a: Attribute)
      modifies this`stream
      ensures stream == old(stream) + PrintAttribute(a)
    {
      hide CStr, CharData;
      stream := stream + " ";
      stream := stream + CStr(a.name);
      stream := stream + "=\"";
      OutCharData(a.value);
      stream := stream + "\"";
      Joined(old(stream), " ", CStr(a.name), "=\"", CharData(a.value), "\"");
    }

    method EmitAttributes(attributes: seq<Attribute>)
      modifies this`stream
      ensures stream == old(stream) + PrintAttributes(attributes)
    {
      var i := 0;
      while i < |attributes|
        invariant 0 <= i <= |attributes|
        invariant stream == old(stream) + PrintAttributes(attributes[..i])
      {
        EmitAttribute(attributes[i]);
        AttributesSnoc(old(stream), attributes, i);
        i := i + 1;
      }
      assert attributes[..i] == attributes;
    }

    /** The characters of a tag, from < to its closing characters. */
    method EmitTag(name: string, attributes: seq<Attribute>, close: string)
      modifies this`stream
      ensures stream == old(stream) + ("<" + CStr(name) + PrintAttributes(attributes) + close)
    {
      hide CStr, PrintAttributes;
      stream := stream + "<";
      stream := stream + CStr(name);
      EmitAttributes(attributes);
      stream := stream + close;
      Joined(old(stream), "<", CStr(name), PrintAttributes(attributes), close, "");
    }

    ghost function Break(level: int): string
      reads this
    {
      "\n" + if kind.Xml? || kind.Json? then Spaces(if level * indentChars > 0 then level * indentChars else 0) else ""
    }

    method Newline()
      modifies this`stream
      ensures stream == old(stream) + Break(indent)
    {
      stream := stream + "\n";
      if kind.Xml? || kind.Json? {
        var spaces := indent * indentChars;
        var i := 0;
        while i < spaces
          invariant 0 <= i && (i <= spaces || i == 0)
          invariant stream == old(stream) + ("\n" + Spaces(i))
        {
          stream := stream + " ";
          i := i + 1;
        }
      }
    }

    method StartTag(name: string, attributes: seq<Attribute>, newlineBefore: bool)
      modifies this
      ensures stream == old(stream) + (if kind.Xml? && newlineBefore then Break(old(indent)) else "") + OpenTag(name, attributes)
      ensures indent == old(indent) + if kind.Xml? then 1 else 0
    {
      hide CStr, PrintAttributes, Spaces;
      NoBreak(stream);
      if kind.Xml? {
        if newlineBefore { Newline(); }
        indent := indent + 1;
      }
      EmitTag(name, attributes, ">");
    }

    method StartSingleTag(name: string, attributes: seq<Attribute>, newlineBefore: bool)
      modifies this`stream
      ensures stream == old(stream) + (if kind.Xml? && newlineBefore then Break(indent) else "") + SingleTag(name, attributes)
    {
      hide CStr, PrintAttributes, Spaces;
      NoBreak(stream);
      if kind.Xml? && newlineBefore { Newline(); }
      EmitTag(name, attributes, "/>");
    }

    /** endTag: the indent that would go below zero is an error. */
    method EndTag(name: string, newlineBefore: bool) returns (ok: bool)
      modifies this
      ensures ok <==> kind.Xml? ==> old(indent) >= 1
      ensures ok ==> indent == old(indent) - if kind.Xml? then 1 else 0
      ensures ok ==> stream == old(stream) + (if kind.Xml? && newlineBefore then Break(indent) else "") + CloseTag(name)
    {
      hide CStr, Spaces;
      NoBreak(stream);
      if kind.Xml? {
        indent := indent - 1;
        if indent < 0 { return false; }
        if newlineBefore { Newline(); }
      }
      ghost var before := stream;
      stream := stream + "</";
      stream := stream + CStr(name);
      stream := stream + ">";
      assert stream == before + CloseTag(name);
      ok := true;
    }
  }

  /** The calls that write a tree in compact XML. */
  method WriteNode(output: Output, n: Node)
    requires output.kind.CompactXml?
    modifies output
    ensures output.stream == old(output.stream) + PrintNode(n) && output.indent == old(output.indent)
    decreases n, 0
  {
    hide CharData, OpenTag, SingleTag, CloseTag, PrintNodes;
    NoBreak(output.stream);
    match n
    case Text(s) => output.OutCharData(s);
    case Single(name, attributes) => output.StartSingleTag(name, attributes, true);
    case Element(name, attributes, children) =>
      output.StartTag(name, attributes, true);
      WriteNodes(output, n, children, 0);
      assert children[0..] == children;
      var ok := output.EndTag(name, true);
      ElementParts(old(output.stream), OpenTag(name, attributes), PrintNodes(children), CloseTag(name));
  }

  lemma ElementParts(a: string, b: string, c: string, d: string)
    ensures a + "" + b + c + "" + d == a + (b + c + d)
  {
  }

  lemma NodesFrom(done: string, ns: seq<Node>, i: nat)
    requires i <= |ns|
    ensures i == |ns| ==> done + PrintNodes(ns[i..]) == done
    ensures i < |ns| ==> (done + PrintNode(ns[i])) + PrintNodes(ns[i + 1..]) == done + PrintNodes(ns[i..])
  {
    hide PrintNode;
    if i < |ns| { assert ns[i..][1..] == ns[i + 1..]; }
  }

  method WriteNodes(output: Output, ghost parent: Node, ns: seq<Node>, i: nat)
    requires output.kind.CompactXml? && parent.Element? && parent.children == ns && i <= |ns|
    modifies output
    ensures output.stream == old(output.stream) + PrintNodes(ns[i..]) && output.indent == old(output.indent)
    decreases parent, 0, |ns| - i
  {
    hide PrintNode, PrintNodes;
    NodesFrom(output.stream, ns, i);
    if i < |ns| {
      WriteNode(output, ns[i]);
      WriteNodes(output, parent, ns, i + 1);
    }
  }
}
