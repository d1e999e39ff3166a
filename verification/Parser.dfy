/** The parser as it runs: a doubling array for the state stack, the string buffer for the path
    and the scanner for the tokens, proved against the automaton of Pda.dfy. */
module Parsers {
  import opened Text
  import opened Lexer
  import opened LStrings
  import opened Readers
  import opened Scanners
  import opened Grammar
  import opened Pda
  import opened Strays
  import opened Loading

  /** The stack an array segment stands for. */
  ghost function StackOf(a: seq<Elem>): Stack
    requires a != []
  {
    if |a| == 1 then Bottom(a[0]) else Push(a[|a| - 1], StackOf(a[..|a| - 1]))
  }

  lemma StackOfSnoc(a: seq<Elem>, e: Elem)
    requires a != []
    ensures StackOf(a + [e]) == Push(e, StackOf(a))
  {
    assert (a + [e])[..|a|] == a;
  }

  lemma StackOfTop(a: seq<Elem>)
    requires a != []
    ensures StackOf(a).top == a[|a| - 1] && (StackOf(a).Bottom? <==> |a| == 1)
  {
  }

  lemma InsideNotBottom(a: seq<Elem>)
    requires a != [] && Proper(StackOf(a)) && a[|a| - 1].s !in {TopLevel, Bad}
    ensures |a| > 1
  {
  }

  /** The local variables of lcfg_parser_parse, and the values of the parser. */
  class Machine {
    var stack: array<Elem>
    var ssi: nat
    const path: LString
    var values: Pairs

    ghost predicate Valid()
      reads this, stack, path
    {
      ssi < stack.Length && path.Valid() && Proper(StackOf(stack[..ssi + 1]))
    }

    ghost function State(): Config
      requires Valid()
      reads this, stack, path, path.str
    {
      Config(StackOf(stack[..ssi + 1]), path.Content(), values)
    }

    constructor ()
      ensures Valid() && State() == Initial && values == []
      ensures fresh(path) && fresh(path.str) && fresh(stack)
    {
      path := new LString();
      stack := new Elem[8](_ => Elem(TopLevel, 0));
      ssi := 0;
      values := [];
      new;
      assert stack[..1] == [Elem(TopLevel, 0)];
    }

    method GrowStack()
      requires Valid()
      modifies this`stack
      ensures Valid() && (stack == old(stack) || fresh(stack))
      ensures ssi + 1 < stack.Length && stack[..ssi + 1] == old(stack[..ssi + 1])
    {
      if ssi + 1 == stack.Length {
        var bigger := new Elem[stack.Length * 2](_ => Elem(TopLevel, 0));
        forall k | 0 <= k < stack.Length {
          bigger[k] := stack[k];
        }
        assert bigger[..ssi + 1] == stack[..ssi + 1];
        stack := bigger;
        assert stack[..ssi + 1] == old(stack[..ssi + 1]);
      }
    }

    /** STATE_STACK_PUSH. */
    method PushState(s: PState)
      requires Valid() && s != TopLevel && stack[ssi].s != Bad
      modifies this`stack, this`ssi, stack
      ensures Valid() && (stack == old(stack) || fresh(stack))
      ensures State() == old(State()).(stack := Push(Elem(s, 0), old(State()).stack))
      ensures ssi == old(ssi) + 1
    {
      GrowStack();
      ghost var below := stack[..ssi + 1];
      ssi := ssi + 1;
      stack[ssi] := Elem(s, 0);
      assert stack[..ssi + 1] == below + [Elem(s, 0)];
      StackOfSnoc(below, Elem(s, 0));
    }

    method SetTop(e: Elem)
      requires Valid() && stack[ssi].s != Bad && (e.s == TopLevel <==> stack[ssi].s == TopLevel)
      requires ssi == 0 ==> e.s in {TopLevel, Bad}
      modifies stack
      ensures Valid()
      ensures State() == old(State()).(stack := old(State()).stack.(top := e))
    {
      ghost var before := stack[..ssi + 1];
      stack[ssi] := e;
      assert stack[..ssi + 1] == before[ssi := e];
      assert stack[..ssi + 1][..ssi] == before[..ssi];
    }

    /** The top of the stack becomes the invalid state. */
    method SetInvalid()
      requires Valid() && stack[ssi].s != Bad
      modifies stack
      ensures Valid()
      ensures State() == old(State()).Fail()
    {
      ghost var before := stack[..ssi + 1];
      stack[ssi] := Elem(Bad, stack[ssi].counter);
      assert stack[..ssi + 1] == before[ssi := stack[ssi]];
      assert stack[..ssi + 1][..ssi] == before[..ssi];
    }

    /** STATE_STACK_POP and PATH_POP. */
    method PopBoth()
      requires Valid() && stack[ssi].s !in {TopLevel, Bad}
      modifies this`ssi, path`size
      ensures Valid()
      ensures State() == old(State()).Popped().(path := Pop(old(State()).path))
    {
      assert ssi > 0;
      assert stack[..ssi + 1][..ssi] == stack[..ssi];
      ssi := ssi - 1;
      path.PopLast();
    }

    method AddValue(text: string)
      requires Valid()
      modifies this`values
      ensures Valid()
      ensures State() == old(State()).(out := old(State()).out + [(old(State()).path, text)])
    {
      var key := path.Copy();
      values := values + [(key, text)];
    }

    method UseDoc(t: Token)
      requires Valid() && stack[ssi].s in {TopLevel, InMap}
      modifies this`stack, this`ssi, stack, path, path.str
      ensures Valid() && (stack == old(stack) || fresh(stack)) && (path.str == old(path.str) || fresh(path.str))
      ensures State() == StepDoc(old(State()), t)
    {
      if t.Ident? {
        path.PushKey(t.name);
        PushState(ExpEquals);
      } else if stack[ssi].s == InMap && t == BClose {
        PopBoth();
      } else {
        SetInvalid();
      }
    }

    method UseValue(t: Token)
      requires Valid() && stack[ssi].s == ExpValue
      modifies this`ssi, this`values, stack, path`size
      ensures Valid()
      ensures State() == StepValue(old(State()), t)
    {
      if t.Str? {
        AddValue(t.text);
        PopBoth();
      } else if t == SOpen {
        SetTop(Elem(InList, stack[ssi].counter));
      } else if t == BOpen {
        SetTop(Elem(InMap, stack[ssi].counter));
      } else {
        SetInvalid();
      }
    }

    /** A list or a map opens as the next item of the list on top. */
    method OpenItem(s: PState) returns (stray: bool)
      requires Valid() && stack[ssi].s == InList && (s == InList || s == InMap)
      modifies this`stack, this`ssi, stack, path, path.str
      ensures Valid() && (stack == old(stack) || fresh(stack)) && (path.str == old(path.str) || fresh(path.str))
      ensures stray <==> old(State()).path == [] && LeadingTen(old(stack[ssi].counter))
      ensures !stray ==> State() == Config(Push(Elem(s, 0), Counted(old(State()).stack)),
                                           PushInt(old(State()).path, old(stack[ssi].counter)), old(values))
    {
      hide PushInt, Pop, Proper, LeadingTen;
      InsideNotBottom(stack[..ssi + 1]);
      stray := path.PushIndex(stack[ssi].counter);
      if stray {
        return;
      }
      SetTop(Elem(InList, stack[ssi].counter + 1));
      PushState(s);
    }

    /** A string is the next item of the list on top. */
    method AddItem(text: string) returns (stray: bool)
      requires Valid() && stack[ssi].s == InList
      modifies this`values, stack, path, path.str
      ensures Valid() && (path.str == old(path.str) || fresh(path.str))
      ensures stray <==> old(State()).path == [] && LeadingTen(old(stack[ssi].counter))
      ensures !stray ==> var p := PushInt(old(State()).path, old(stack[ssi].counter));
                         State() == Config(Counted(old(State()).stack), Pop(p), old(values) + [(p, text)])
    {
      hide PushInt, Pop, Proper, LeadingTen;
      InsideNotBottom(stack[..ssi + 1]);
      stray := path.PushIndex(stack[ssi].counter);
      if stray {
        return;
      }
      AddValue(text);
      path.PopLast();
      SetTop(Elem(InList, stack[ssi].counter + 1));
    }

    /** The list case; it ends where an index push has left the buffer. */
    method UseList(t: Token) returns (stray: bool)
      requires Valid() && stack[ssi].s == InList
      modifies this`stack, this`ssi, this`values, stack, path, path.str
      ensures Valid() && (stack == old(stack) || fresh(stack)) && (path.str == old(path.str) || fresh(path.str))
      ensures stray <==> StrayAt(old(State()), t)
      ensures !stray ==> State() == StepList(old(State()), t)
    {
      hide PushInt, Pop, Proper, LeadingTen;
      InsideNotBottom(stack[..ssi + 1]);
      stray := false;
      if t == Comma {
      } else if t.Str? {
        stray := AddItem(t.text);
      } else if t == SOpen {
        stray := OpenItem(InList);
      } else if t == BOpen {
        stray := OpenItem(InMap);
      } else if t == SClose {
        PopBoth();
      } else {
        SetInvalid();
      }
    }

    /** The switch over the state on top of the stack. */
    method Use(t: Token) returns (stray: bool)
      requires Valid() && stack[ssi].s != Bad
      modifies this`stack, this`ssi, this`values, stack, path, path.str
      ensures Valid() && (stack == old(stack) || fresh(stack)) && (path.str == old(path.str) || fresh(path.str))
      ensures stray <==> StrayAt(old(State()), t)
      ensures !stray ==> State() == StepP(old(State()), t)
    {
      stray := false;
      match stack[ssi].s {
        case TopLevel => UseDoc(t);
        case InMap => UseDoc(t);
        case ExpEquals =>
          if t == Equals {
            SetTop(Elem(ExpValue, stack[ssi].counter));
          } else {
            SetInvalid();
          }
        case ExpValue => UseValue(t);
        case InList => stray := UseList(t);
      }
    }
  }

  lemma OutcomeStep(c: Config, t: Token, after: Stream)
    requires !c.IsBad() && (after.toks != [] || after.whole)
    ensures StrayAt(c, t) ==> Outcome(after.After(t), c) == OutOfBuffer
    ensures !StrayAt(c, t) ==> Outcome(after.After(t), c) == Outcome(after, StepP(c, t))
  {
    assert after.After(t).Used() == [t] + after.Used();
    StraysCons(c, t, after.Used());
    RunCons(c, t, after.toks);
  }

  /** A token that cannot be read is refused, with the one in front of it. */
  lemma OutcomeFails(c: Config, toks: seq<Token>)
    requires |toks| <= 1
    ensures Outcome(Stream(toks, false), c) == Refused
  {
  }

  lemma OutcomeEnd(c: Config, s: Stream)
    requires c.IsBad() || s == Stream([], true)
    ensures Outcome(s, c) == if c.Accepting() then Values(c.out) else Refused
  {
    if c.IsBad() { RunBad(c, s.toks); }
  }

  lemma LoadIs(src: string)
    ensures Load(src) == Outcome(ReadAll(src), Initial)
  {
  }

  ghost predicate Apart(scanner: Scanner, m: Machine)
    reads scanner, scanner.reader, scanner.text, m, m.stack, m.path
  {
    && scanner.Valid() && m.Valid()
    && m.path != scanner.text && m.path.str != scanner.text.str && m.path.str != scanner.reader.buffer
  }

  ghost function Left(scanner: Scanner): nat
    requires scanner.Valid()
    reads scanner, scanner.reader, scanner.reader.buffer, scanner.text
  {
    if scanner.kind == NullToken then 0 else 1 + |scanner.Rest()|
  }

  /** One round of the loop: a token is taken from the scanner and used. */
  method Round(scanner: Scanner, m: Machine) returns (ok: bool, stray: bool)
    requires Apart(scanner, m) && scanner.kind != NullToken && m.stack[m.ssi].s != Bad
    modifies scanner`kind, scanner.reader, scanner.reader.buffer, scanner.text, scanner.text.str
    modifies m`stack, m`ssi, m`values, m.stack, m.path, m.path.str
    ensures Apart(scanner, m)
    ensures scanner.text.str == old(scanner.text.str) || fresh(scanner.text.str)
    ensures m.stack == old(m.stack) || fresh(m.stack)
    ensures m.path.str == old(m.path.str) || fresh(m.path.str)
    ensures !ok ==> old(Outcome(scanner.Ahead(), m.State())) == Refused
    ensures ok && stray ==> old(Outcome(scanner.Ahead(), m.State())) == OutOfBuffer
    ensures ok && !stray ==> Outcome(scanner.Ahead(), m.State()) == old(Outcome(scanner.Ahead(), m.State()))
    ensures ok ==> Left(scanner) < old(Left(scanner))
  {
    hide StepP, ReadAll, StackOf, Proper, Run, StrayAt, LeavesBuffer;
    ghost var c := m.State();
    StackOfTop(m.stack[..m.ssi + 1]);
    var t;
    stray := false;
    ok, t := scanner.NextToken();
    if ok {
      stray := m.Use(t);
      OutcomeStep(c, t, scanner.Ahead());
    } else {
      OutcomeFails(c, [t]);
    }
  }

  /** lcfg_parser_parse, on a descriptor that returns the given blocks: what the delivered text
      loads as. */
  method Parse(fd: seq<string>) returns (r: Loaded)
    requires Readable(fd)
    ensures r == Load(Delivered(fd))
  {
    hide StepP, ReadAll, StackOf, Proper, Delivered, Run, LeavesBuffer, Load, Outcome, Readable;
    var scanner := new Scanner(fd);
    var m := new Machine();
    var ok := scanner.Prepare();
    if !ok {
      OutcomeFails(Initial, []);
      LoadIs(Delivered(fd));
      return Refused;
    }
    LoadIs(Delivered(fd));
    assert Load(Delivered(fd)) == Outcome(scanner.Ahead(), m.State());
    while scanner.kind != NullToken && m.stack[m.ssi].s != Bad
      invariant Apart(scanner, m)
      invariant fresh({scanner, scanner.reader, scanner.reader.buffer, scanner.text, scanner.text.str})
      invariant fresh({m, m.stack, m.path, m.path.str})
      invariant Load(Delivered(fd)) == Outcome(scanner.Ahead(), m.State())
      decreases Left(scanner)
    {
      var stray;
      ok, stray := Round(scanner, m);
      if !ok {
        return Refused;
      }
      if stray {
        return OutOfBuffer;
      }
    }
    StackOfTop(m.stack[..m.ssi + 1]);
    OutcomeEnd(m.State(), scanner.Ahead());
    if m.stack[m.ssi].s == TopLevel && m.ssi == 0 {
      return Values(m.values);
    }
    return Refused;
  }
}
