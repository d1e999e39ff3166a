/** The character machine of the scanner, as a step function over plain text. */
module Lexer {
  import opened Options

  datatype Token =
    | Ident(name: string)
    | Equals
    | Str(text: string)
    | SOpen
    | SClose
    | Comma
    | BOpen
    | BClose

  datatype State =
    | Start
    | CommStart
    | InOneline
    | InMultiline
    | MultilineEnd
    | InIdentifier
    | InStr
    | InEsc
    | HexFirst
    | HexSecond
    | Invalid

  predicate IsAlpha(c: char) { 'a' <= c <= 'z' || 'A' <= c <= 'Z' }

  predicate IsDigit(c: char) { '0' <= c <= '9' }

  predicate IsIdentChar(c: char) { IsAlpha(c) || IsDigit(c) || c == '-' || c == '_' }

  predicate IsHex(c: char) { IsDigit(c) || 'a' <= c <= 'f' || 'A' <= c <= 'F' }

  predicate IsBlank(c: char) { c == ' ' || c == '\t' || c == '\r' || c == '\n' }

  /** isspace() in the C locale, as strtoul skips it. */
  predicate IsSpace(c: char) { IsBlank(c) || c == '\U{0B}' || c == '\U{0C}' }

  function HexDigit(c: char): nat
    requires IsHex(c)
  {
    if IsDigit(c) then (c - '0') as nat
    else if 'a' <= c <= 'f' then (c - 'a') as nat + 10
    else (c - 'A') as nat + 10
  }

  /** strtoul(hex, NULL, 16) on two characters, cut to a byte. Anything but two hex digits is
      read the way strtoul reads it: as many digits as there are, after a blank or a sign. */
  function HexByte(a: char, b: char): char {
    if IsHex(a) && IsHex(b) then (HexDigit(a) * 16 + HexDigit(b)) as char
    else if IsHex(a) then HexDigit(a) as char
    else if (IsSpace(a) || a == '+') && IsHex(b) then HexDigit(b) as char
    else if a == '-' && IsHex(b) then ((256 - HexDigit(b)) % 256) as char
    else '\0'
  }

  /** The machine: its state, the text of the prepared token and the first hex character. */
  datatype Fsm = Fsm(state: State, text: string, hex: char)

  /** A step ends at most one token and may leave the character unread. */
  datatype Step = Step(next: Fsm, token: seq<Token>, consume: bool)

  const Init := Fsm(Start, "", '\0')

  function StepStart(f: Fsm, c: char): Step {
    if IsBlank(c) then Step(f, [], true)
    else if c == '=' then Step(f, [Equals], true)
    else if c == '[' then Step(f, [SOpen], true)
    else if c == ']' then Step(f, [SClose], true)
    else if c == '{' then Step(f, [BOpen], true)
    else if c == '}' then Step(f, [BClose], true)
    else if c == ',' then Step(f, [Comma], true)
    else if c == '/' then Step(f.(state := CommStart), [], true)
    else if c == '"' then Step(f.(state := InStr, text := ""), [], true)
    else if IsAlpha(c) then Step(f.(state := InIdentifier, text := [c]), [], true)
    else Step(f.(state := Invalid), [], true)
  }

  function StepEsc(f: Fsm, c: char): Step {
    var g := f.(state := InStr);
    if c == '"' then Step(g.(text := f.text + ['"']), [], true)
    else if c == 'n' then Step(g.(text := f.text + ['\n']), [], true)
    else if c == 't' then Step(g.(text := f.text + ['\t']), [], true)
    else if c == 'r' then Step(g.(text := f.text + ['\r']), [], true)
    else if c == '0' then Step(g.(text := f.text + ['\0']), [], true)
    else if c == 'x' then Step(f.(state := HexFirst), [], true)
    else Step(f.(state := Invalid), [], true)
  }

  function StepOf(f: Fsm, c: char): Step {
    match f.state
    case Start => StepStart(f, c)
    case CommStart =>
      Step(f.(state := if c == '/' then InOneline else if c == '*' then InMultiline else Invalid), [], true)
    case InOneline => Step(if c == '\n' then f.(state := Start) else f, [], true)
    case InMultiline => Step(if c == '*' then f.(state := MultilineEnd) else f, [], true)
    case MultilineEnd =>
      Step(if c == '/' then f.(state := Start) else if c != '*' then f.(state := InMultiline) else f, [], true)
    case InIdentifier =>
      if IsIdentChar(c) then Step(f.(text := f.text + [c]), [], true)
      else Step(f.(state := Start), [Ident(f.text)], false)
    case InStr =>
      if c == '"' then Step(f.(state := Start), [Str(f.text)], true)
      else if c == '\\' then Step(f.(state := InEsc), [], true)
      else Step(f.(text := f.text + [c]), [], true)
    case InEsc => StepEsc(f, c)
    // a character that is no hex digit sets the invalid state, which is overwritten at once
    case HexFirst => Step(f.(state := HexSecond, hex := c), [], true)
    case HexSecond => Step(f.(state := InStr, text := f.text + [HexByte(f.hex, c)]), [], true)
    case Invalid => Step(f, [], true)
  }

  /** The next token: Got with the text behind it, End at the end of the text, or Fail. */
  datatype Scanned = Got(token: Token, rest: string) | End | Fail

  function Scan(f: Fsm, input: string): (r: Scanned)
    ensures r.Got? ==> |r.rest| < |input| || (f.state.InIdentifier? && |r.rest| <= |input|)
    decreases |input|
  {
    if input == [] then (if f.state.Start? then End else Fail)
    else
      var s := StepOf(f, input[0]);
      if s.token != [] then Got(s.token[0], if s.consume then input[1..] else input)
      else if s.next.state.Invalid? then Fail
      else Scan(s.next, input[1..])
  }

  /** A step that ends a token is back in the start state; one that does not has consumed. */
  lemma ScanStep(f: Fsm, input: string)
    requires input != []
    ensures var s := StepOf(f, input[0]);
            if s.token != [] then
              s.next.state == Start && Scan(f, input) == Got(s.token[0], if s.consume then input[1..] else input)
            else
              s.consume && Scan(f, input) == if s.next.state.Invalid? then Fail else Scan(s.next, input[1..])
  {
  }

  /** The tokens of a text up to its end, or up to the first that cannot be read. */
  datatype Stream = Stream(toks: seq<Token>, whole: bool) {
    /** The tokens handed out. The scanner reads one token ahead, so that behind an unreadable
        token the one in front of it is not handed out either. */
    function Used(): seq<Token> {
      if whole || toks == [] then toks else toks[..|toks| - 1]
    }

    /** The stream behind a token in front of it. */
    function After(t: Token): Stream {
      Stream([t] + toks, whole)
    }
  }

  function ReadAll(input: string): Stream
    decreases |input|
  {
    match Scan(Init, input)
    case End => Stream([], true)
    case Fail => Stream([], false)
    case Got(t, rest) => ReadAll(rest).After(t)
  }

  /** All tokens of a text, or None when a token cannot be read. */
  function Tokenize(input: string): Option<seq<Token>> {
    var s := ReadAll(input);
    if s.whole then Some(s.toks) else None
  }

  predicate IdentText(s: string) {
    s != [] && IsAlpha(s[0]) && forall k :: 0 <= k < |s| ==> IsIdentChar(s[k])
  }

  /** Every identifier the scanner produces is a letter followed by letters, digits, - and _. */
  lemma {:induction false} ScannedIdent(f: Fsm, input: string)
    requires f.state.InIdentifier? ==> IdentText(f.text)
    ensures Scan(f, input).Got? && Scan(f, input).token.Ident? ==> IdentText(Scan(f, input).token.name)
    decreases |input|
  {
    if input != [] {
      var s := StepOf(f, input[0]);
      if s.token == [] && !s.next.state.Invalid? {
        ScannedIdent(s.next, input[1..]);
      }
    }
  }

  lemma {:induction false} TokenizedIdents(input: string, k: nat)
    requires Tokenize(input).Some? && k < |Tokenize(input).value| && Tokenize(input).value[k].Ident?
    ensures IdentText(Tokenize(input).value[k].name)
    decreases k
  {
    ScannedIdent(Init, input);
    if k > 0 {
      TokenizedIdents(Scan(Init, input).rest, k - 1);
    }
  }

  /** Bad hex digits are accepted: "\xzz" reads as a NUL byte and "\x4z" as the byte 4. */
  lemma BadHexAccepted()
    ensures Tokenize("\"\\xzz\"") == Some([Str("\0")])
    ensures Tokenize("\"\\x4z\"") == Some([Str([4 as char])])
  {
    BadHexRead('z', 'z');
    BadHexRead('4', 'z');
  }

  /** In general: any two characters behind \x, closing the string or not, are read as one byte. */
  lemma BadHexRead(a: char, b: char)
    ensures Tokenize(['"', '\\', 'x', a, b, '"']) == Some([Str([HexByte(a, b)])])
  {
    var i := ['"', '\\', 'x', a, b, '"'];
    assert i[1..][1..][1..][1..][1..] == ['"'];
    var f := Fsm(InStr, "", '\0');
    assert [b, '"'][1..] == ['"'] && "" + [HexByte(a, b)] == [HexByte(a, b)];
    assert Scan(Init, i) == Scan(f, i[1..]);
    assert Scan(f, i[1..]) == Scan(f.(state := InEsc), i[1..][1..]);
    assert Scan(f.(state := InEsc), i[1..][1..]) == Scan(f.(state := HexFirst), i[1..][1..][1..]);
    assert Scan(f.(state := HexFirst), i[1..][1..][1..]) == Scan(f.(state := HexSecond, hex := a), [b, '"']);
    assert Scan(f.(state := HexSecond, hex := a), [b, '"']) == Scan(Fsm(InStr, [HexByte(a, b)], a), ['"']);
    assert Scan(Init, i) == Got(Str([HexByte(a, b)]), []);
    assert Tokenize([]) == Some([]);
    assert [Str([HexByte(a, b)])] + [] == [Str([HexByte(a, b)])];
  }
}
