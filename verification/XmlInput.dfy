/**
 * Where QDParser's characters come from (EMdF/qdxml.cpp): a buffer refilled in
 * pieces of 32 KiB with a NUL after the last character, end-of-line translation,
 * and the parse loop that reads through both.
 */
module XmlInput {
  import opened XmlReader

  const READ_SIZE := 32 * 1024

  /* ---------- end-of-line translation ---------- */

  /** What getNextChar delivers; eol says that the character before was a carriage return. */
  function Translated(s: string, eol: bool): string {
    if s == "" then ""
    else if s[0] == '\r' then ['\n'] + Translated(s[1..], true)
    else if s[0] == '\n' && eol then
      if |s| == 1 then "" else [s[1]] + Translated(s[2..], false)
    else [s[0]] + Translated(s[1..], false)
  }

  /** Section 2.11 of XML 1.0: CR LF, and CR alone, become LF. */
  function LineEndsNormalized(s: string): string {
    if s == "" then ""
    else if s[0] == '\r' then
      ['\n'] + LineEndsNormalized(if |s| > 1 && s[1] == '\n' then s[2..] else s[1..])
    else [s[0]] + LineEndsNormalized(s[1..])
  }

  /** CR LF CR occurs at position i. */
  predicate CrLfCrAt(s: string, i: nat) {
    i + 2 < |s| && s[i] == '\r' && s[i + 1] == '\n' && s[i + 2] == '\r'
  }

  ghost predicate HasCrLfCr(s: string) { exists i: nat :: CrLfCrAt(s, i) }

  lemma HasCrLfCrTail(s: string, k: nat)
    requires k <= |s| && HasCrLfCr(s[k..])
    ensures HasCrLfCr(s)
  {
    var i: nat :| CrLfCrAt(s[k..], i);
    assert CrLfCrAt(s, k + i);
  }

  lemma {:induction false} NoCarriageReturns(s: string)
    ensures '\r' !in LineEndsNormalized(s)
    decreases |s|
  {
    if s != "" && s[0] == '\r' {
      NoCarriageReturns(if |s| > 1 && s[1] == '\n' then s[2..] else s[1..]);
    } else if s != "" {
      NoCarriageReturns(s[1..]);
    }
  }

  /** After a carriage return the translation continues behind a line feed. */
  function BehindLf(s: string): string { if s != "" && s[0] == '\n' then s[1..] else s }

  lemma {:induction false} TranslatedNormal(s: string, eol: bool)
    requires !HasCrLfCr(s) && (eol ==> !(|s| >= 2 && s[0] == '\n' && s[1] == '\r'))
    ensures Translated(s, eol) == LineEndsNormalized(if eol then BehindLf(s) else s)
    decreases |s|
  {
    if s == "" {
    } else if s[0] == '\r' {
      if HasCrLfCr(s[1..]) { HasCrLfCrTail(s, 1); }
      assert !CrLfCrAt(s, 0);
      TranslatedNormal(s[1..], true);
      if |s| > 1 && s[1] == '\n' { assert s[1..][1..] == s[2..]; }
    } else if s[0] == '\n' && eol {
      if |s| > 1 {
        if HasCrLfCr(s[2..]) { HasCrLfCrTail(s, 2); }
        TranslatedNormal(s[2..], false);
        assert s[1..][1..] == s[2..] && s[1] != '\r';
      }
    } else {
      if HasCrLfCr(s[1..]) { HasCrLfCrTail(s, 1); }
      TranslatedNormal(s[1..], false);
    }
  }

  /** The first CR LF CR lets its second carriage return through. */
  lemma {:induction false} TranslatedLeaks(s: string, eol: bool, i: nat)
    requires CrLfCrAt(s, i)
    ensures '\r' in Translated(s, eol)
    decreases |s|
  {
    if i == 0 {
      assert s[1..][0] == '\n' && s[1..][1] == '\r';
      assert Translated(s[1..], true) == ['\r'] + Translated(s[1..][2..], false);
    } else if s[0] == '\n' && eol {
      if i == 1 { assert s[1] == '\r'; } else { assert CrLfCrAt(s[2..], i - 2); TranslatedLeaks(s[2..], false, i - 2); }
    } else {
      assert CrLfCrAt(s[1..], i - 1);
      TranslatedLeaks(s[1..], s[0] == '\r', i - 1);
    }
  }

  /**
   * The translation is the one the standard asks for exactly when no CR LF is
   * followed by another CR: the character after a swallowed line feed is
   * delivered without looking at it.
   */
  lemma TranslationIsStandardIff(s: string)
    ensures Translated(s, false) == LineEndsNormalized(s) <==> !HasCrLfCr(s)
  {
    if HasCrLfCr(s) {
      var i: nat :| CrLfCrAt(s, i);
      TranslatedLeaks(s, false, i);
      NoCarriageReturns(s);
    } else {
      TranslatedNormal(s, false);
    }
  }

  lemma TranslationFails()
    ensures Translated("\r\n\r\n", false) == "\n\r\n" && LineEndsNormalized("\r\n\r\n") == "\n\n"
  {
    var s := "\r\n\r\n";
    assert s[1..] == "\n\r\n" && s[1..][2..] == "\n" && s[2..] == "\r\n" && s[2..][2..] == "";
    assert Translated("\n", false) == ['\n'] + Translated("\n"[1..], false);
    assert Translated("\n\r\n", true) == ['\r'] + Translated("\n", false);
    assert LineEndsNormalized("\r\n") == ['\n'] + LineEndsNormalized("");
  }

  /** Text without carriage returns is delivered as it is. */
  lemma {:induction false} TranslatedId(s: string)
    requires forall i :: 0 <= i < |s| ==> s[i] != '\r'
    ensures Translated(s, false) == s
  {
    if s != "" {
      TranslatedId(s[1..]);
      assert s == [s[0]] + s[1..];
    }
  }

  /* ---------- the buffer ---------- */

  /** The stream and the buffer pointers: bot is index 0, eof is -1 until the last piece is in. */
  class Scanner {
    var input: string
    var pos: nat
    var buf: array?<char>
    var cur: nat
    var lim: nat
    var eof: int
    var endOfLine: bool

    ghost predicate Valid()
      reads this, buf
    {
      pos <= |input| &&
      (buf == null ==> cur == 0 && lim == 0 && eof == -1) &&
      (buf != null ==> buf.Length == 2 * READ_SIZE && lim <= 2 * READ_SIZE && cur <= lim + 1) &&
      (eof == -1 ==> cur <= lim) &&
      (eof != -1 ==> buf != null && lim < 2 * READ_SIZE && eof == lim + 1 && buf[lim] == '\0' && pos == |input|)
    }

    lemma UnfoldValid()
      requires Valid()
      ensures pos <= |input| && (buf != null ==> buf.Length == 2 * READ_SIZE && lim <= 2 * READ_SIZE)
      ensures eof == -1 ==> cur <= lim
    {
    }

    lemma FoldValid()
      requires pos <= |input| && buf != null && buf.Length == 2 * READ_SIZE && lim <= 2 * READ_SIZE && cur <= lim
      requires eof != -1 ==> lim < 2 * READ_SIZE && eof == lim + 1 && buf[lim] == '\0' && pos == |input|
      ensures Valid()
    {
    }

    predicate HasMoreInput()
      reads this
    {
      eof == -1 || cur != eof
    }

    /** The characters not read yet. */
    ghost function Rest(): string
      requires Valid()
      reads this, buf
    {
      (if buf != null && cur <= lim then buf[cur..lim] else "") + input[pos..]
    }

    /** The characters still to be delivered. */
    ghost function Ahead(): string
      requires Valid()
      reads this, buf
    {
      Translated(Rest(), endOfLine)
    }

    constructor (input: string)
      ensures Valid() && HasMoreInput() && Rest() == input && !endOfLine && buf == null
    {
      this.input := input;
      pos, buf, cur, lim, eof, endOfLine := 0, null, 0, 0, -1, false;
    }

    /**
     * readIntoBuffer: istream::read into the buffer at lim, then the NUL once the
     * stream has run dry; an exception when there is no room for a whole piece.
     */
    method ReadIntoBuffer() returns (ok: bool)
      requires Valid() && buf != null && cur == 0 && eof == -1
      modifies this, buf
      ensures buf == old(buf) && endOfLine == old(endOfLine)
      ensures ok <==> old(lim) <= READ_SIZE
      ensures ok ==> Valid() && cur == 0 && Rest() == old(Rest()) && (lim > old(lim) || eof != -1)
      ensures !ok ==> unchanged(this) && unchanged(buf)
    {
      hide Valid;
      UnfoldValid();
      if buf.Length - lim < READ_SIZE { return false; }
      ghost var had, more := buf[..lim], input[pos..];
      var count := Read();
      if count != READ_SIZE {
        eof := lim + count + 1;
        buf[lim + count] := '\0';
      }
      lim := lim + count;
      assert buf[..lim] == had + more[..count];
      assert more == more[..count] + more[count..];
      assert buf[0..lim] == buf[..lim] && had == old(buf[0..lim]);
      FoldValid();
      ok := true;
    }

    /** istream::read with gcount: as many characters as there are, at most a piece, behind those in the buffer. */
    method Read() returns (count: nat)
      requires buf != null && lim + READ_SIZE <= buf.Length && pos <= |input|
      modifies this`pos, buf
      ensures count == (if |input| - old(pos) < READ_SIZE then |input| - old(pos) else READ_SIZE)
      ensures pos == old(pos) + count && buf[..lim] == old(buf[..lim])
      ensures buf[..lim + count] == old(buf[..lim]) + input[old(pos)..][..count]
    {
      count := if |input| - pos < READ_SIZE then |input| - pos else READ_SIZE;
      ghost var had, more := buf[..lim], input[pos..];
      var i := 0;
      while i < count
        invariant 0 <= i <= count
        invariant unchanged(this)
        invariant buf[..lim] == had
        invariant forall k :: 0 <= k < i ==> buf[lim + k] == more[k]
      {
        buf[lim + i] := input[pos + i];
        i := i + 1;
      }
      assert buf[..lim + count] == had + more[..count];
      pos := pos + count;
    }

    /** memcpy of what has not been used to the start of the buffer. */
    method MoveToFront()
      requires Valid() && buf != null && eof == -1 && cur <= lim
      modifies this`cur, this`lim, buf
      ensures Valid() && cur == 0 && lim == old(lim - cur) && Rest() == old(Rest())
    {
      ghost var unused, n := buf[cur..lim], lim - cur;
      var i := 0;
      while i < lim - cur
        invariant 0 <= i <= lim - cur && unchanged(this)
        invariant forall k :: 0 <= k < i ==> buf[k] == unused[k]
        invariant forall k :: i <= k < n ==> buf[cur + k] == unused[k]
      {
        buf[i] := buf[cur + i];
        i := i + 1;
      }
      lim := lim - cur;
      cur := 0;
      assert buf[0..lim] == unused;
    }

    /** fillBuffer: the first time, or whenever the last piece is not in yet; what has not been used moves to the front. */
    method FillBuffer() returns (ok: bool)
      requires Valid() && cur <= lim
      modifies this, buf
      ensures buf == old(buf) || fresh(buf)
      ensures endOfLine == old(endOfLine)
      ensures ok <==> old(eof) != -1 || old(lim - cur) <= READ_SIZE
      ensures ok ==> Valid() && Rest() == old(Rest())
      ensures ok ==> eof != -1 || lim - cur > old(lim - cur)
      ensures ok && old(lim == cur) ==> cur < lim || (cur == lim && eof != -1)
    {
      if buf == null {
        buf := new char[2 * READ_SIZE];
        cur, lim := 0, 0;
        ok := ReadIntoBuffer();
      } else if eof == -1 {
        if lim - cur > 0 {
          MoveToFront();
        } else {
          lim, cur := 0, 0;
        }
        ok := ReadIntoBuffer();
      } else {
        ok := true;
      }
    }

    /** The next character as it is in the stream, or the NUL behind the last one. */
    method Fetch() returns (c: char)
      requires Valid() && HasMoreInput()
      modifies this, buf
      ensures Valid() && endOfLine == old(endOfLine) && (buf == old(buf) || fresh(buf))
      ensures old(Rest()) != "" ==> c == old(Rest())[0] && Rest() == old(Rest())[1..] && HasMoreInput()
      ensures old(Rest()) == "" ==> c == '\0' && Rest() == "" && !HasMoreInput()
    {
      if lim == cur { var ok := FillBuffer(); }
      ghost var rest := Rest();
      c := buf[cur];
      assert cur < lim ==> buf[cur..lim] == [buf[cur]] + buf[cur + 1..lim];
      cur := cur + 1;
      assert Rest() == if rest == "" then "" else rest[1..];
    }

    /** handleEOL, after c was read from the front of rest: a line feed behind a carriage return is passed over unseen. */
    method HandleEol(c0: char, ghost rest: string) returns (c: char)
      requires Valid() && HasMoreInput() && rest != "" && c0 == rest[0] && Rest() == rest[1..] && (c0 == '\r' || c0 == '\n')
      modifies this, buf
      ensures Valid() && (buf == old(buf) || fresh(buf))
      ensures var all := Translated(rest, old(endOfLine));
              if all != "" then c == all[0] && HasMoreInput() && Ahead() == all[1..] else c == '\0' && !HasMoreInput()
    {
      hide Translated;
      TranslatedFirst(rest, endOfLine);
      c := c0;
      if c == '\r' {
        endOfLine := true;
        c := '\n';
      } else if endOfLine {
        if HasMoreInput() { c := Fetch(); }
        endOfLine := false;
      }
    }

    method GetNextChar() returns (c: char)
      requires Valid() && HasMoreInput()
      modifies this, buf
      ensures Valid() && (buf == old(buf) || fresh(buf))
      ensures if old(Ahead()) != "" then c == old(Ahead())[0] && HasMoreInput() && Ahead() == old(Ahead())[1..]
              else c == '\0' && !HasMoreInput()
    {
      hide Translated;
      ghost var rest := Rest();
      TranslatedFirst(rest, endOfLine);
      c := Fetch();
      if c == '\n' || c == '\r' {
        c := HandleEol(c, rest);
      } else {
        endOfLine := false;
      }
    }
  }

  /** What the first characters of the rest contribute, by the four cases of handleEOL. */
  lemma TranslatedFirst(rest: string, eol: bool)
    ensures rest == "" ==> Translated(rest, eol) == ""
    ensures rest != "" && rest[0] == '\r' ==> Translated(rest, eol) == ['\n'] + Translated(rest[1..], true)
    ensures rest != "" && rest[0] != '\r' && !(rest[0] == '\n' && eol) ==>
              Translated(rest, eol) == [rest[0]] + Translated(rest[1..], false)
    ensures rest != "" && rest[0] == '\n' && eol ==>
              Translated(rest, eol) == if rest[1..] == "" then "" else [rest[1..][0]] + Translated(rest[1..][1..], false)
  {
    if |rest| > 1 { assert rest[1..][1..] == rest[2..] && rest[1..][0] == rest[1]; }
  }

  /* ---------- the parse loop ---------- */

  /** Reads on only while the characters match, as the declaration is recognized. */
  method Expect(scanner: Scanner, word: string) returns (ok: bool, ghost used: nat)
    requires scanner.Valid() && scanner.HasMoreInput() && '\0' !in word
    modifies scanner, scanner.buf
    ensures scanner.Valid() && (scanner.buf == old(scanner.buf) || fresh(scanner.buf))
    ensures ok <==> used == |word|
    ensures used <= |word| && used <= |old(scanner.Ahead())| && old(scanner.Ahead())[..used] == word[..used]
    ensures !ok ==> used == |old(scanner.Ahead())| || old(scanner.Ahead())[used] != word[used]
    ensures ok ==> scanner.HasMoreInput() && scanner.Ahead() == old(scanner.Ahead())[|word|..]
  {
    hide Translated;
    ghost var left := scanner.Ahead();
    used := 0;
    var i := 0;
    while i < |word|
      invariant 0 <= i == used <= |word| && i <= |left| && left[..i] == word[..i]
      invariant scanner.Valid() && scanner.HasMoreInput() && (scanner.buf == old(scanner.buf) || fresh(scanner.buf))
      invariant left[i..] == scanner.Ahead()
    {
      var c := scanner.GetNextChar();
      if c != word[i] { return false, i; }
      assert left[i..][1..] == left[i + 1..] && left[i..][0] == left[i];
      i, used := i + 1, used + 1;
    }
    ok := true;
  }

  /** What remains to be parsed when c is in hand: nothing once the NUL behind the last character is read. */
  ghost function Left(scanner: Scanner, c: char): string
    requires scanner.Valid()
    reads scanner, scanner.buf
  {
    if scanner.HasMoreInput() then [c] + scanner.Ahead() else ""
  }

  /** The declaration's first characters, after '<'. */
  method ReadXmlWord(scanner: Scanner) returns (ok: bool)
    requires scanner.Valid() && scanner.HasMoreInput()
    modifies scanner, scanner.buf
    ensures scanner.Valid() && (scanner.buf == old(scanner.buf) || fresh(scanner.buf))
    ensures var ahead := old(scanner.Ahead());
            && (ok <==> |ahead| >= 5 && ahead[..4] == "?xml" && IsSpace(ahead[4]))
            && (ok ==> scanner.HasMoreInput() && scanner.Ahead() == ahead[5..])
  {
    hide Translated;
    ghost var ahead := scanner.Ahead();
    ghost var used;
    ok, used := Expect(scanner, "?xml");
    if !ok {
      assert |ahead| >= 4 ==> ahead[..4][used] != "?xml"[used];
      return;
    }
    assert ahead[4..] == scanner.Ahead();
    var c := scanner.GetNextChar();
    ok := IsSpace(c);
    assert |ahead| > 4 ==> ahead[4..][0] == ahead[4] && ahead[4..][1..] == ahead[5..];
  }

  lemma TurnOnDeclaration(numeric: Numeric, p: Parser, c: char, ahead: string)
    requires p.state == BEFORE_XMLDECLARATION && c == '<'
    ensures Reads(p, [c] + ahead) == 6
    ensures var ok := |ahead| >= 5 && ahead[..4] == "?xml" && IsSpace(ahead[4]);
            && Turn(numeric, p, [c] + ahead) == (if ok then Going(p.(state := IN_XMLDECLARATION)) else Failed)
            && (ok ==> ([c] + ahead)[6..] == ahead[5..])
  {
    var s := [c] + ahead;
    if |ahead| >= 5 { assert s[1..5] == ahead[..4] && s[5] == ahead[4] && s[6..] == ahead[5..]; }
  }

  lemma TurnOnDeclarationEnd(numeric: Numeric, p: Parser, c: char, ahead: string)
    requires p.state == IN_XMLDECLARATION && c == '?'
    ensures Reads(p, [c] + ahead) == 2
    ensures var ok := ahead != "" && ahead[0] == '>';
            && Turn(numeric, p, [c] + ahead) == (if ok then Going(p.(state := TEXT)) else Failed)
            && (ok ==> ([c] + ahead)[2..] == ahead[1..])
  {
  }

  lemma TurnOnOne(numeric: Numeric, p: Parser, c: char, ahead: string)
    requires !(p.state == BEFORE_XMLDECLARATION && c == '<') && !(p.state == IN_XMLDECLARATION && c == '?')
    ensures Reads(p, [c] + ahead) == 1
    ensures Turn(numeric, p, [c] + ahead) == Step(numeric, p, c) && ([c] + ahead)[1..] == ahead
  {
  }

  /** One turn of the loop on the character in hand: the next state and the next character. */
  method OneTurn(numeric: Numeric, scanner: Scanner, p: Parser, c0: char) returns (out: Outcome, c: char)
    requires scanner.Valid() && scanner.HasMoreInput()
    modifies scanner, scanner.buf
    ensures scanner.Valid() && (scanner.buf == old(scanner.buf) || fresh(scanner.buf))
    ensures var left := old(Left(scanner, c0));
            && out == Turn(numeric, p, left)
            && (out.Going? ==> Reads(p, left) <= |left| && Left(scanner, c) == left[Reads(p, left)..])
  {
    hide Step, Turn, Translated, Reads;
    c := c0;
    ghost var ahead := scanner.Ahead();
    if p.state == BEFORE_XMLDECLARATION && c == '<' {
      TurnOnDeclaration(numeric, p, c, ahead);
      var ok := ReadXmlWord(scanner);
      if !ok { return Failed, c; }
      out := Going(p.(state := IN_XMLDECLARATION));
    } else if p.state == IN_XMLDECLARATION && c == '?' {
      TurnOnDeclarationEnd(numeric, p, c, ahead);
      c := scanner.GetNextChar();
      if c != '>' { return Failed, c; }
      out := Going(p.(state := TEXT));
    } else {
      TurnOnOne(numeric, p, c, ahead);
      out := Step(numeric, p, c);
      if out.Failed? { return; }
    }
    ghost var more := scanner.Ahead();
    c := scanner.GetNextChar();
    assert more != "" ==> more == [more[0]] + more[1..];
  }

  /** QDParser::parse on a stream: the outcome is that of Parse on the translated characters. */
  method ParseStream(numeric: Numeric, input: string) returns (r: Result)
    ensures r == Parse(numeric, Translated(input, false))
  {
    hide Turn, Translated;
    var scanner := new Scanner(input);
    ghost var all := Translated(input, false);
    var p := Initial();
    var c := scanner.GetNextChar();
    ghost var left := Left(scanner, c);
    assert left == all;
    while scanner.HasMoreInput()
      invariant scanner.Valid() && fresh(scanner) && (scanner.buf == null || fresh(scanner.buf))
      invariant left == Left(scanner, c)
      invariant Run(numeric, p, left) == Run(numeric, Initial(), all)
      decreases |left|
    {
      if p.state == DONE { return Parsed(p.events + [EndDocument]); }
      var out;
      out, c := OneTurn(numeric, scanner, p, c);
      if out.Failed? { return Error; }
      left := left[Reads(p, left)..];
      p := out.p;
    }
    if p.state == DONE { r := Parsed(p.events + [EndDocument]); } else { r := Error; }
  }
}
