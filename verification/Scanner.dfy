/** The scanner object: the character machine driven by the refill reader, one prepared token
    ahead of its caller. */
module Scanners {
  import opened Lexer
  import opened LStrings
  import opened Readers

  datatype Kind = NullToken | IdentK | EqualsK | StrK | SOpenK | SCloseK | CommaK | BOpenK | BCloseK

  function TokenOf(kind: Kind, text: string): Token
    requires kind != NullToken
  {
    match kind
    case IdentK => Ident(text)
    case StrK => Str(text)
    case EqualsK => Equals
    case SOpenK => SOpen
    case SCloseK => SClose
    case CommaK => Comma
    case BOpenK => BOpen
    case BCloseK => BClose
  }

  /** The states in which the text of the prepared token is being collected. */
  predicate Collecting(s: State) {
    s.InIdentifier? || s.InStr? || s.InEsc? || s.HexFirst? || s.HexSecond?
  }

  /** The variables of the source stand for the machine f. */
  predicate Agrees(f: Fsm, state: State, text: string, hex: char) {
    f.state == state && (Collecting(state) ==> f.text == text) && (state.HexSecond? ==> f.hex == hex)
  }

  class Scanner {
    const reader: Reader
    const text: LString
    var kind: Kind

    ghost predicate Valid()
      reads this, reader, text
    {
      reader.Valid() && text.Valid() && text.str != reader.buffer
    }

    ghost function Rest(): string
      requires Valid()
      reads this, reader, reader.buffer, text
    {
      reader.Rest()
    }

    /** The prepared token and the stream behind it. */
    ghost function Ahead(): Stream
      requires Valid()
      reads this, reader, reader.buffer, text, text.str
    {
      if kind == NullToken then Stream([], true) else ReadAll(Rest()).After(TokenOf(kind, text.Content()))
    }

    constructor (fd: seq<string>)
      requires Readable(fd)
      ensures Valid() && fresh(reader) && fresh(reader.buffer) && fresh(text) && fresh(text.str)
      ensures Rest() == Delivered(fd)
    {
      reader := new Reader(fd);
      text := new LString();
      kind := NullToken;
    }

    /** The switch over the start state. */
    method SwitchStart(c: char) returns (state: State)
      requires Valid() && kind == NullToken
      modifies this`kind, text, text.str
      ensures Valid() && (text.str == old(text.str) || fresh(text.str))
      ensures forall f: Fsm :: f.state == Start ==>
                var s := StepOf(f, c);
                && s.consume && Agrees(s.next, state, text.Content(), '\0')
                && s.token == (if kind == NullToken then [] else [TokenOf(kind, text.Content())])
    {
      state := Start;
      if IsBlank(c) {
      } else if c == '=' {
        kind := EqualsK;
      } else if c == '[' {
        kind := SOpenK;
      } else if c == ']' {
        kind := SCloseK;
      } else if c == '{' {
        kind := BOpenK;
      } else if c == '}' {
        kind := BCloseK;
      } else if c == ',' {
        kind := CommaK;
      } else if c == '/' {
        state := CommStart;
      } else if c == '"' {
        state := InStr;
        text.Trunc(0);
      } else if IsAlpha(c) {
        text.Trunc(0);
        text.CatChar(c);
        state := InIdentifier;
        assert [] + [c] == [c];
      } else {
        state := Invalid;
      }
    }

    /** The switch over the escape state. */
    method SwitchEsc(c: char) returns (state: State)
      requires Valid() && kind == NullToken
      modifies text, text.str
      ensures Valid() && (text.str == old(text.str) || fresh(text.str))
      ensures forall f: Fsm :: f.state == InEsc && f.text == old(text.Content()) ==>
                var s := StepOf(f, c);
                s.consume && Agrees(s.next, state, text.Content(), '\0') && s.token == []
    {
      state := InStr;
      if c == '"' {
        text.CatChar('"');
      } else if c == 'n' {
        text.CatChar('\n');
      } else if c == 't' {
        text.CatChar('\t');
      } else if c == 'r' {
        text.CatChar('\r');
      } else if c == '0' {
        text.CatChar('\0');
      } else if c == 'x' {
        state := HexFirst;
      } else {
        state := Invalid;
      }
    }

    /** The switch of the machine on the peeked character. */
    method Switch(from: State, hexFrom: char, c: char, ghost f: Fsm)
      returns (state: State, hex: char, consume: bool)
      requires Valid() && kind == NullToken && from != Invalid
      requires Agrees(f, from, text.Content(), hexFrom)
      modifies this`kind, text, text.str
      ensures Valid() && (text.str == old(text.str) || fresh(text.str))
      ensures var s := StepOf(f, c);
              && consume == s.consume && Agrees(s.next, state, text.Content(), hex)
              && s.token == (if kind == NullToken then [] else [TokenOf(kind, text.Content())])
    {
      state, hex, consume := from, hexFrom, true;
      match from {
        case Start =>
          state := SwitchStart(c);
        case CommStart =>
          if c == '/' {
            state := InOneline;
          } else if c == '*' {
            state := InMultiline;
          } else {
            state := Invalid;
          }
        case InOneline =>
          if c == '\n' {
            state := Start;
          }
        case InMultiline =>
          if c == '*' {
            state := MultilineEnd;
          }
        case MultilineEnd =>
          if c == '/' {
            state := Start;
          } else if c != '*' {
            state := InMultiline;
          }
        case InIdentifier =>
          if IsIdentChar(c) {
            text.CatChar(c);
          } else {
            kind := IdentK;
            consume := false;
            state := Start;
          }
        case InStr =>
          if c == '"' {
            kind := StrK;
            state := Start;
          } else if c == '\\' {
            state := InEsc;
          } else {
            text.CatChar(c);
          }
        case InEsc =>
          state := SwitchEsc(c);
        case HexFirst =>
          if !IsHex(c) {
            state := Invalid;
          }
          hex := c;
          state := HexSecond;
        case HexSecond =>
          if !IsHex(c) {
            state := Invalid;
          }
          text.CatChar(HexByte(hex, c));
          state := InStr;
      }
    }

    /** One round of the loop, on a text that is not at its end. */
    method Advance(from: State, hexFrom: char, ghost f: Fsm) returns (state: State, hex: char)
      requires Valid() && kind == NullToken && from != Invalid && Rest() != []
      requires Agrees(f, from, text.Content(), hexFrom)
      modifies this`kind, reader, reader.buffer, text, text.str
      ensures Valid() && (text.str == old(text.str) || fresh(text.str))
      ensures var s := StepOf(f, old(Rest())[0]);
              && Agrees(s.next, state, text.Content(), hex)
              && s.token == (if kind == NullToken then [] else [TokenOf(kind, text.Content())])
              && Rest() == if s.consume then old(Rest())[1..] else old(Rest())
    {
      var _, c := reader.CharPeek();
      var consume;
      state, hex, consume := Switch(from, hexFrom, c, f);
      if consume {
        var _, _ := reader.CharRead();
      }
    }

    /** lcfg_scanner_token_read: prepare the next token. */
    method TokenRead() returns (ok: bool)
      requires Valid()
      modifies this`kind, reader, reader.buffer, text, text.str
      ensures Valid() && (text.str == old(text.str) || fresh(text.str))
      ensures match Scan(Init, old(Rest()))
              case Got(t, rest) => ok && kind != NullToken && TokenOf(kind, text.Content()) == t && Rest() == rest
              case End => ok && kind == NullToken && Rest() == []
              case Fail => !ok
    {
      var state := Start;
      var hex := '\0';
      ghost var f := Init;
      kind := NullToken;
      while true
        invariant Valid() && (text.str == old(text.str) || fresh(text.str))
        invariant kind == NullToken && state != Invalid
        invariant Agrees(f, state, text.Content(), hex)
        invariant Scan(Init, old(Rest())) == Scan(f, Rest())
        decreases |Rest()|
      {
        var end := reader.CharEof();
        if end {
          break;
        }
        ghost var before := Rest();
        state, hex := Advance(state, hex, f);
        ScanStep(f, before);
        f := StepOf(f, before[0]).next;
        if kind != NullToken || state == Invalid {
          break;
        }
      }
      ok := state == Start;
    }

    /** lcfg_scanner_init and lcfg_scanner_next_token: hand out the prepared token and prepare
        the one after it; an unreadable next token fails this call already. */
    method NextToken() returns (ok: bool, t: Token)
      requires Valid() && kind != NullToken
      modifies this`kind, reader, reader.buffer, text, text.str
      ensures Valid() && (text.str == old(text.str) || fresh(text.str))
      ensures t == old(TokenOf(kind, text.Content()))
      ensures !ok ==> old(Ahead()) == Stream([t], false)
      ensures ok ==> old(Ahead()) == Ahead().After(t) && (Ahead().toks != [] || Ahead().whole)
      ensures ok ==> kind == NullToken || |Rest()| < old(|Rest()|)
    {
      var copy := text.Copy();
      t := TokenOf(kind, copy);
      ok := TokenRead();
    }

    method Prepare() returns (ok: bool)
      requires Valid()
      modifies this`kind, reader, reader.buffer, text, text.str
      ensures Valid() && (text.str == old(text.str) || fresh(text.str))
      ensures !ok ==> old(ReadAll(Rest())) == Stream([], false)
      ensures ok ==> Ahead() == old(ReadAll(Rest()))
    {
      ok := TokenRead();
    }
  }
}
