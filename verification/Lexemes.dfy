/** Writing tokens: gaps of blanks and comments, names, punctuation and quoted strings with any
    mixture of escapes. Scanning what is written gives the tokens back. */
module Lexemes {
  import opened Options
  import opened Lexer

  /** One byte of a quoted string: itself, a named escape or a hex escape. */
  datatype Ch = Raw(c: char) | Named(c: char) | Hex(a: char, b: char)

  predicate WfCh(ch: Ch) {
    match ch
    case Raw(c) => c != '"' && c != '\\'
    case Named(c) => c in ['"', 'n', 't', 'r', '0']
    case Hex(_, _) => true
  }

  function WriteCh(ch: Ch): string {
    match ch
    case Raw(c) => [c]
    case Named(c) => ['\\', c]
    case Hex(a, b) => ['\\', 'x', a, b]
  }

  function ByteOf(ch: Ch): char {
    match ch
    case Raw(c) => c
    case Named(c) =>
      if c == 'n' then '\n' else if c == 't' then '\t' else if c == 'r' then '\r' else if c == '0' then '\0' else '"'
    case Hex(a, b) => HexByte(a, b)
  }

  function WriteChs(chs: seq<Ch>): string {
    if chs == [] then [] else WriteCh(chs[0]) + WriteChs(chs[1..])
  }

  function Bytes(chs: seq<Ch>): string {
    if chs == [] then [] else [ByteOf(chs[0])] + Bytes(chs[1..])
  }

  /** What may stand between tokens: a blank, a // comment with its newline, a closed comment. */
  datatype Gap = Blank(c: char) | LineNote(text: string) | BlockNote(text: string)

  predicate Closes(text: string) {
    exists k :: 0 <= k < |text| - 1 && text[k] == '*' && text[k + 1] == '/'
  }

  predicate WfGap(g: Gap) {
    match g
    case Blank(c) => c in [' ', '\t', '\r', '\n']
    case LineNote(text) => '\n' !in text
    case BlockNote(text) => !Closes(text)
  }

  function WriteGap(g: Gap): string {
    match g
    case Blank(c) => [c]
    case LineNote(text) => ['/', '/'] + (text + ['\n'])
    case BlockNote(text) => ['/', '*'] + (text + ['*', '/'])
  }

  datatype Piece = Space(gap: Gap) | Name(name: string) | Mark(token: Token) | Quoted(chs: seq<Ch>)

  function MarkChar(t: Token): char {
    match t
    case Equals => '='
    case SOpen => '['
    case SClose => ']'
    case BOpen => '{'
    case BClose => '}'
    case _ => ','
  }

  predicate WfPiece(p: Piece) {
    match p
    case Space(g) => WfGap(g)
    case Name(n) => IdentText(n)
    case Mark(t) => !t.Ident? && !t.Str?
    case Quoted(chs) => forall ch :: ch in chs ==> WfCh(ch)
  }

  function WritePiece(p: Piece): string {
    match p
    case Space(g) => WriteGap(g)
    case Name(n) => n
    case Mark(t) => [MarkChar(t)]
    case Quoted(chs) => ['"'] + (WriteChs(chs) + ['"'])
  }

  function Write(ps: seq<Piece>): string {
    if ps == [] then [] else WritePiece(ps[0]) + Write(ps[1..])
  }

  function TokenOfPiece(p: Piece): seq<Token> {
    match p
    case Space(_) => []
    case Name(n) => [Ident(n)]
    case Mark(t) => [t]
    case Quoted(chs) => [Str(Bytes(chs))]
  }

  function Meaning(ps: seq<Piece>): seq<Token> {
    if ps == [] then [] else TokenOfPiece(ps[0]) + Meaning(ps[1..])
  }

  ghost predicate WfPieces(ps: seq<Piece>) {
    forall p :: p in ps ==> WfPiece(p)
  }

  /** Every identifier is followed by an equals sign, as everywhere in a document. */
  predicate KeysThenEquals(toks: seq<Token>) {
    forall k :: 0 <= k < |toks| && toks[k].Ident? ==> k + 1 < |toks| && toks[k + 1] == Equals
  }

  // ---------- scanning what was written ----------

  lemma ScanCons(f: Fsm, c: char, rest: string)
    requires StepOf(f, c).token == [] && !StepOf(f, c).next.state.Invalid?
    ensures Scan(f, [c] + rest) == Scan(StepOf(f, c).next, rest)
  {
    assert ([c] + rest)[1..] == rest;
  }

  lemma {:induction false} ScanLineNote(text: string, rest: string)
    requires '\n' !in text
    ensures Scan(Init.(state := InOneline), text + ['\n'] + rest) == Scan(Init, rest)
  {
    var f := Init.(state := InOneline);
    if text == [] {
      ScanCons(f, '\n', rest);
      assert text + ['\n'] + rest == ['\n'] + rest;
    } else {
      ScanCons(f, text[0], text[1..] + ['\n'] + rest);
      assert text + ['\n'] + rest == [text[0]] + (text[1..] + ['\n'] + rest);
      ScanLineNote(text[1..], rest);
    }
  }

  lemma ClosesTail(text: string)
    requires text != []
    ensures Closes(text[1..]) ==> Closes(text)
    ensures text[0] == '*' && |text| > 1 && text[1] == '/' ==> Closes(text)
  {
    if k :| 0 <= k < |text| - 2 && text[1..][k] == '*' && text[1..][k + 1] == '/' {
      assert text[k + 1] == '*' && text[k + 1 + 1] == '/';
    }
    if text[0] == '*' && |text| > 1 && text[1] == '/' {
      assert text[0] == '*' && text[0 + 1] == '/';
    }
  }

  /** star says that a star was the last character of the comment so far. */
  lemma {:induction false} ScanBlockNote(text: string, star: bool, rest: string)
    requires !Closes(text) && (star && text != [] ==> text[0] != '/')
    ensures Scan(Init.(state := if star then MultilineEnd else InMultiline), text + ['*', '/'] + rest) ==
            Scan(Init, rest)
  {
    var f := Init.(state := if star then MultilineEnd else InMultiline);
    if text == [] {
      ScanCons(f, '*', ['/'] + rest);
      ScanCons(Init.(state := MultilineEnd), '/', rest);
      assert text + ['*', '/'] + rest == ['*'] + (['/'] + rest);
    } else {
      var more := text[1..];
      ClosesTail(text);
      ScanCons(f, text[0], more + ['*', '/'] + rest);
      assert text + ['*', '/'] + rest == [text[0]] + (more + ['*', '/'] + rest);
      ScanBlockNote(more, text[0] == '*', rest);
    }
  }

  /** A gap is skipped. */
  lemma ScanGap(g: Gap, rest: string)
    requires WfGap(g)
    ensures Scan(Init, WriteGap(g) + rest) == Scan(Init, rest)
  {
    hide Scan;
    match g
    case Blank(c) =>
      ScanCons(Init, c, rest);
    case LineNote(text) =>
      assert WriteGap(g) + rest == ['/'] + (['/'] + (text + ['\n'] + rest));
      ScanCons(Init, '/', ['/'] + (text + ['\n'] + rest));
      ScanCons(Init.(state := CommStart), '/', text + ['\n'] + rest);
      ScanLineNote(text, rest);
    case BlockNote(text) =>
      assert WriteGap(g) + rest == ['/'] + (['*'] + (text + ['*', '/'] + rest));
      ScanCons(Init, '/', ['*'] + (text + ['*', '/'] + rest));
      ScanCons(Init.(state := CommStart), '*', text + ['*', '/'] + rest);
      ScanBlockNote(text, false, rest);
  }

  lemma {:induction false} ScanName(got: string, more: string, rest: string)
    requires forall k :: 0 <= k < |more| ==> IsIdentChar(more[k])
    requires rest != [] && !IsIdentChar(rest[0])
    ensures Scan(Fsm(InIdentifier, got, '\0'), more + rest) == Got(Ident(got + more), rest)
    decreases |more|
  {
    if more == [] {
      assert more + rest == rest && got + more == got;
    } else {
      ScanCons(Fsm(InIdentifier, got, '\0'), more[0], more[1..] + rest);
      assert more + rest == [more[0]] + (more[1..] + rest);
      ScanName(got + [more[0]], more[1..], rest);
      assert got + [more[0]] + more[1..] == got + more;
    }
  }

  lemma ScanCh(got: string, hex: char, ch: Ch, rest: string) returns (hex1: char)
    requires WfCh(ch)
    ensures Scan(Fsm(InStr, got, hex), WriteCh(ch) + rest) == Scan(Fsm(InStr, got + [ByteOf(ch)], hex1), rest)
  {
    hide Scan;
    hex1 := hex;
    var f := Fsm(InStr, got, hex);
    match ch {
      case Raw(c) =>
        ScanCons(f, c, rest);
      case Named(c) =>
        assert WriteCh(ch) + rest == ['\\'] + ([c] + rest);
        ScanCons(f, '\\', [c] + rest);
        ScanCons(f.(state := InEsc), c, rest);
      case Hex(a, b) =>
        hex1 := a;
        assert WriteCh(ch) + rest == ['\\'] + (['x'] + ([a] + ([b] + rest)));
        ScanCons(f, '\\', ['x'] + ([a] + ([b] + rest)));
        ScanCons(f.(state := InEsc), 'x', [a] + ([b] + rest));
        ScanCons(f.(state := HexFirst), a, [b] + rest);
        ScanCons(f.(state := HexSecond, hex := a), b, rest);
    }
  }

  lemma {:induction false} ScanQuoted(got: string, hex: char, chs: seq<Ch>, rest: string)
    requires forall ch :: ch in chs ==> WfCh(ch)
    ensures Scan(Fsm(InStr, got, hex), WriteChs(chs) + (['"'] + rest)) == Got(Str(got + Bytes(chs)), rest)
    decreases |chs|
  {
    if chs == [] {
      assert WriteChs(chs) + (['"'] + rest) == ['"'] + rest && (['"'] + rest)[1..] == rest;
      assert got + Bytes(chs) == got;
    } else {
      var tail := WriteChs(chs[1..]) + (['"'] + rest);
      assert WriteChs(chs) + (['"'] + rest) == WriteCh(chs[0]) + tail;
      var hex1 := ScanCh(got, hex, chs[0], tail);
      ScanQuoted(got + [ByteOf(chs[0])], hex1, chs[1..], rest);
      assert got + [ByteOf(chs[0])] + Bytes(chs[1..]) == got + Bytes(chs);
    }
  }

  lemma ScanMark(t: Token, rest: string)
    requires !t.Ident? && !t.Str?
    ensures Scan(Init, [MarkChar(t)] + rest) == Got(t, rest)
  {
    assert ([MarkChar(t)] + rest)[1..] == rest;
  }

  lemma ScanNamePiece(n: string, rest: string)
    requires IdentText(n) && rest != [] && !IsIdentChar(rest[0])
    ensures Scan(Init, n + rest) == Got(Ident(n), rest)
  {
    assert n + rest == [n[0]] + (n[1..] + rest);
    ScanCons(Init, n[0], n[1..] + rest);
    ScanName([n[0]], n[1..], rest);
    assert [n[0]] + n[1..] == n;
  }

  lemma ScanQuotedPiece(chs: seq<Ch>, rest: string)
    requires forall ch :: ch in chs ==> WfCh(ch)
    ensures Scan(Init, ['"'] + (WriteChs(chs) + ['"']) + rest) == Got(Str(Bytes(chs)), rest)
  {
    var tail := WriteChs(chs) + (['"'] + rest);
    assert ['"'] + (WriteChs(chs) + ['"']) + rest == ['"'] + tail;
    ScanCons(Init, '"', tail);
    ScanQuoted("", '\0', chs, rest);
    assert "" + Bytes(chs) == Bytes(chs);
  }

  /** A piece that is a token is read as that token. */
  lemma ScanToken(p: Piece, rest: string)
    requires WfPiece(p) && !p.Space?
    requires p.Name? ==> rest != [] && !IsIdentChar(rest[0])
    ensures Scan(Init, WritePiece(p) + rest) == Got(TokenOfPiece(p)[0], rest)
  {
    hide Scan;
    match p
    case Name(n) => ScanNamePiece(n, rest);
    case Mark(t) => ScanMark(t, rest);
    case Quoted(chs) => ScanQuotedPiece(chs, rest);
  }

  lemma FirstOfPiece(p: Piece)
    requires WfPiece(p) && !p.Name?
    ensures |WritePiece(p)| > 0 && !IsIdentChar(WritePiece(p)[0])
  {
  }

  lemma ScanNothing()
    ensures Scan(Init, "") == End
  {
  }

  lemma TokenizeGap(g: Gap, rest: string)
    requires WfGap(g)
    ensures Tokenize(WriteGap(g) + rest) == Tokenize(rest)
  {
    hide Scan, WfGap, WriteGap;
    ScanGap(g, rest);
  }

  lemma TokenizeToken(p: Piece, rest: string)
    requires WfPiece(p) && !p.Space?
    requires p.Name? ==> rest != [] && !IsIdentChar(rest[0])
    ensures Tokenize(rest).Some? ==>
              Tokenize(WritePiece(p) + rest) == Some([TokenOfPiece(p)[0]] + Tokenize(rest).value)
  {
    ScanToken(p, rest);
    hide Scan, WritePiece, WfPiece, IsIdentChar;
  }

  /** Whatever the gaps and the spelling of the strings, the tokens are read back. */
  lemma {:induction false} TokenizeWritten(ps: seq<Piece>)
    requires WfPieces(ps) && KeysThenEquals(Meaning(ps))
    ensures Tokenize(Write(ps)) == Some(Meaning(ps))
  {
    if ps == [] {
      ScanNothing();
    } else {
      hide Scan, Tokenize, WfGap, WriteGap, WriteChs;
      var p, more := ps[0], ps[1..];
      assert p in ps && WfPieces(more);
      var toks := TokenOfPiece(p);
      assert forall k :: 0 <= k < |Meaning(more)| ==> Meaning(more)[k] == Meaning(ps)[k + |toks|];
      assert KeysThenEquals(Meaning(more));
      TokenizeWritten(more);
      if p.Space? {
        TokenizeGap(p.gap, Write(more));
        assert Meaning(ps) == Meaning(more);
      } else {
        if p.Name? {
          assert Meaning(ps)[0] == Ident(p.name) && Meaning(ps)[1] == Equals;
          assert more != [] && more[0] in ps;
          FirstOfPiece(more[0]);
        }
        TokenizeToken(p, Write(more));
      }
    }
  }

  // ---------- which characters make names, gaps and bytes ----------

  /** A text in front of an equals sign is read as a name exactly when it is a letter and then
      letters, digits, minus and underscore. */
  lemma NameExact(n: string)
    ensures Tokenize(n + "=") == Some([Ident(n), Equals]) <==>
            && n != "" && ('a' <= n[0] <= 'z' || 'A' <= n[0] <= 'Z')
            && forall k :: 0 <= k < |n| ==>
                 'a' <= n[k] <= 'z' || 'A' <= n[k] <= 'Z' || '0' <= n[k] <= '9' || n[k] == '-' || n[k] == '_'
  {
    if Tokenize(n + "=") == Some([Ident(n), Equals]) {
      TokenizedIdents(n + "=", 0);
    } else if IdentText(n) {
      NameRead(n);
    }
  }

  lemma NameRead(n: string)
    requires IdentText(n)
    ensures Tokenize(n + "=") == Some([Ident(n), Equals])
  {
    var ps := [Name(n), Mark(Equals)];
    assert ps[1..] == [Mark(Equals)] && [Mark(Equals)][1..] == [];
    assert Write([Mark(Equals)]) == "=" && Write(ps) == n + "=";
    assert Meaning([Mark(Equals)]) == [Equals] && Meaning(ps) == [Ident(n), Equals];
    TokenizeWritten(ps);
  }

  /** What a single character is read as: a space, a tab and the two line ends are skipped, six
      characters are tokens, and all others are no text by themselves. */
  lemma StartExact(c: char)
    ensures Tokenize([c]) ==
            if c == ' ' || c == '\t' || c == '\r' || c == '\n' then Some([])
            else if c == '=' then Some([Equals])
            else if c == '[' then Some([SOpen])
            else if c == ']' then Some([SClose])
            else if c == '{' then Some([BOpen])
            else if c == '}' then Some([BClose])
            else if c == ',' then Some([Comma])
            else None
  {
    var s := StepOf(Init, c);
    assert [c][1..] == [] && ReadAll([]) == Stream([], true);
    ScanStep(Init, [c]);
    if s.token != [] {
      assert Scan(Init, [c]) == Got(s.token[0], []);
      assert |s.token| == 1 && ReadAll([c]) == ReadAll([]).After(s.token[0]);
      assert [s.token[0]] + [] == s.token;
    } else {
      assert Scan(s.next, []) == if s.next.state.Start? then End else Fail;
    }
  }

  /** Two slashes begin a comment to the end of the line, a slash and a star one to a star and a
      slash, and nothing else that is no blank begins one. */
  lemma CommentExact(c: char, d: char)
    requires c !in [' ', '\t', '\r', '\n']
    ensures Tokenize([c, d, '\n']) == Some([]) <==> c == '/' && d == '/'
    ensures Tokenize([c, d, '*', '/']) == Some([]) <==> c == '/' && d == '*'
  {
    CommentLine(c, d);
    CommentBlock(c, d);
    NothingRead([c, d, '\n']);
    NothingRead([c, d, '*', '/']);
  }

  lemma NothingRead(t: string)
    ensures Tokenize(t) == Some([]) <==> Scan(Init, t) == End
  {
    hide Scan;
  }

  lemma CommentLine(c: char, d: char)
    requires c !in [' ', '\t', '\r', '\n']
    ensures Scan(Init, [c, d, '\n']) == End <==> c == '/' && d == '/'
  {
    var t := [c, d, '\n'];
    assert t[1..] == [d, '\n'] && t[1..][1..] == ['\n'] && t[1..][1..][1..] == [];
    ScanStep(Init, t);
    var f := StepOf(Init, c).next;
    ScanStep(f, t[1..]);
    ScanStep(StepOf(f, d).next, t[1..][1..]);
  }

  lemma CommentBlock(c: char, d: char)
    requires c !in [' ', '\t', '\r', '\n']
    ensures Scan(Init, [c, d, '*', '/']) == End <==> c == '/' && d == '*'
  {
    var t := [c, d, '*', '/'];
    assert t[1..] == [d, '*', '/'] && t[1..][1..] == ['*', '/'];
    assert t[1..][1..][1..] == ['/'] && t[1..][1..][1..][1..] == [];
    ScanStep(Init, t);
    var f := StepOf(Init, c).next;
    ScanStep(f, t[1..]);
    var g := StepOf(f, d).next;
    ScanStep(g, t[1..][1..]);
    ScanStep(StepOf(g, '*').next, t[1..][1..][1..]);
  }

  /** The escapes of one character that are read, and as what; all others make the text unreadable. */
  lemma EscapeExact(c: char)
    ensures Tokenize(['"', '\\', c, '"']) ==
            if c == '"' then Some([Str("\"")])
            else if c == 'n' then Some([Str("\n")])
            else if c == 't' then Some([Str("\t")])
            else if c == 'r' then Some([Str("\r")])
            else if c == '0' then Some([Str("\0")])
            else None
  {
    var i := ['"', '\\', c, '"'];
    if c in ['"', 'n', 't', 'r', '0'] {
      var ps := [Quoted([Named(c)])];
      assert ps[1..] == [] && [Named(c)][1..] == [];
      assert WriteChs([Named(c)]) == ['\\', c] + [] && Write(ps) == i;
      assert Bytes([Named(c)]) == [ByteOf(Named(c))] && Meaning(ps) == [Str([ByteOf(Named(c))])];
      TokenizeWritten(ps);
    } else {
      EscapeFails(c);
    }
  }

  lemma EscapeFails(c: char)
    requires c !in ['"', 'n', 't', 'r', '0']
    ensures Tokenize(['"', '\\', c, '"']) == None
  {
    var i := ['"', '\\', c, '"'];
    var f := Fsm(InStr, "", '\0');
    assert i[1..][1..][1..] == ['"'] && ['"'][1..] == [];
    assert Scan(Init, i) == Scan(f, i[1..]);
    assert Scan(f, i[1..]) == Scan(f.(state := InEsc), i[1..][1..]);
    if c == 'x' {
      assert Scan(f.(state := InEsc), i[1..][1..]) == Scan(f.(state := HexFirst), ['"']);
      assert Scan(f.(state := HexFirst), ['"']) == Scan(f.(state := HexSecond, hex := '"'), []);
    } else {
      assert Scan(f.(state := InEsc), i[1..][1..]) == Fail;
    }
  }

  const HEX_DIGITS := "0123456789abcdef"
  const UPPER_HEX_DIGITS := "0123456789ABCDEF"

  /** A hex escape of two hex digits, of either case each, is read as the byte they stand for. */
  lemma HexRead(n: nat, upper: bool, lower: bool)
    requires n < 256
    ensures var a := (if upper then UPPER_HEX_DIGITS else HEX_DIGITS)[n / 16];
            var b := (if lower then HEX_DIGITS else UPPER_HEX_DIGITS)[n % 16];
            Tokenize(['"', '\\', 'x', a, b, '"']) == Some([Str([n as char])])
  {
    var a := (if upper then UPPER_HEX_DIGITS else HEX_DIGITS)[n / 16];
    var b := (if lower then HEX_DIGITS else UPPER_HEX_DIGITS)[n % 16];
    HexDigitAt(n / 16);
    HexDigitAt(n % 16);
    BadHexRead(a, b);
  }

  lemma HexDigitAt(d: nat)
    requires d < 16
    ensures IsHex(HEX_DIGITS[d]) && HexDigit(HEX_DIGITS[d]) == d
    ensures IsHex(UPPER_HEX_DIGITS[d]) && HexDigit(UPPER_HEX_DIGITS[d]) == d
  {
  }

  /** strtoul in base 16 on a text, in 64 bits: blanks, a sign, and hex digits as far as they go. */
  function Strtoul(s: string): nat {
    if s == [] then 0
    else if s[0] in [' ', '\t', '\n', '\U{0B}', '\U{0C}', '\r'] then Strtoul(s[1..])
    else if s[0] == '-' then (0x1_0000_0000_0000_0000 - HexNumber(s[1..], 0)) % 0x1_0000_0000_0000_0000
    else if s[0] == '+' then HexNumber(s[1..], 0)
    else HexNumber(s, 0)
  }

  function HexNumber(s: string, n: nat): nat {
    if s == [] then n
    else if '0' <= s[0] <= '9' then HexNumber(s[1..], 16 * n + (s[0] - '0') as nat)
    else if 'a' <= s[0] <= 'f' then HexNumber(s[1..], 16 * n + 10 + (s[0] - 'a') as nat)
    else if 'A' <= s[0] <= 'F' then HexNumber(s[1..], 16 * n + 10 + (s[0] - 'A') as nat)
    else n
  }

  /** Whatever stands behind \x, the byte read is what strtoul makes of it, cut to eight bits. */
  lemma EscapeIsStrtoul(a: char, b: char)
    ensures Tokenize(['"', '\\', 'x', a, b, '"']) == Some([Str([(Strtoul([a, b]) % 256) as char])])
  {
    BadHexRead(a, b);
    assert [a, b][1..] == [b] && [b][1..] == [];
    assert HexByte(a, b) == (Strtoul([a, b]) % 256) as char by {
      HexByteIs(a, b);
    }
  }

  lemma HexByteIs(a: char, b: char)
    ensures HexByte(a, b) == (Strtoul([a, b]) % 256) as char
  {
    StrtoulTwo(a, b);
    hide Strtoul, HexNumber;
  }

  lemma StrtoulTwo(a: char, b: char)
    ensures var digit := if IsHex(b) then HexDigit(b) else 0;
            Strtoul([a, b]) ==
            if IsHex(a) then (if IsHex(b) then 16 * HexDigit(a) + digit else HexDigit(a))
            else if IsSpace(a) || a == '+' then digit
            else if a == '-' then (0x1_0000_0000_0000_0000 - digit) % 0x1_0000_0000_0000_0000
            else 0
  {
    assert [a, b][1..] == [b];
    HexOne(b, 0);
    if IsHex(a) {
      HexOne(b, HexDigit(a));
      assert HexNumber([a, b], 0) == HexNumber([b], HexDigit(a));
    } else if IsSpace(a) {
      StrtoulOne(b);
      hide HexNumber;
    }
  }

  lemma StrtoulOne(b: char)
    ensures Strtoul([b]) == if IsHex(b) then HexDigit(b) else 0
  {
    HexOne(b, 0);
    assert [b][1..] == [];
  }

  lemma HexOne(b: char, n: nat)
    ensures HexNumber([b], n) == if IsHex(b) then 16 * n + HexDigit(b) else n
  {
    assert [b][1..] == [];
  }

  // ---------- every byte string can be written ----------

  /** Quotes and backslashes need an escape; there is no escape for the backslash but hex. */
  function Spell(s: string): (chs: seq<Ch>)
    ensures forall ch :: ch in chs ==> WfCh(ch)
    ensures Bytes(chs) == s
  {
    if s == [] then []
    else
      var ch := if s[0] == '"' then Named('"') else if s[0] == '\\' then Hex('5', 'c') else Raw(s[0]);
      var r := [ch] + Spell(s[1..]);
      assert r[1..] == Spell(s[1..]);
      r
  }
}
