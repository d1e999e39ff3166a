/** The pushdown automaton of the parser: its step function, the discipline of its path, and
    its agreement with the recursive grammar. */
module Pda {
  import opened Text
  import opened Lexer
  import opened Grammar

  datatype PState = TopLevel | ExpEquals | ExpValue | InList | InMap | Bad

  datatype Elem = Elem(s: PState, counter: nat)

  /** The state stack; it never runs empty. */
  datatype Stack = Bottom(top: Elem) | Push(top: Elem, below: Stack)

  function Height(st: Stack): (h: nat)
    ensures h >= 1
  {
    if st.Bottom? then 1 else 1 + Height(st.below)
  }

  /** The shape of every reachable stack: only the first state is the top level, so a closing
      token never pops it. */
  predicate Proper(st: Stack) {
    match st
    case Bottom(e) => e.s in {TopLevel, Bad}
    case Push(e, below) => e.s != TopLevel && below.top.s != Bad && Proper(below)
  }

  predicate CountersAtMostTen(st: Stack) {
    st.top.counter <= 10 && (st.Push? ==> CountersAtMostTen(st.below))
  }

  /** The state stack, the dotted path and the values added so far. */
  datatype Config = Config(stack: Stack, path: string, out: Pairs) {
    function Fail(): Config {
      this.(stack := stack.(top := stack.top.(s := Bad)))
    }

    function Popped(): Config {
      if stack.Push? then this.(stack := stack.below) else Fail()
    }

    predicate IsBad() { stack.top.s == Bad }

    predicate Accepting() {
      stack.Bottom? && stack.top.s == TopLevel
    }
  }

  const Initial := Config(Bottom(Elem(TopLevel, 0)), "", [])

  function Counted(st: Stack): Stack {
    st.(top := st.top.(counter := st.top.counter + 1))
  }

  function StepDoc(c: Config, t: Token): Config {
    if t.Ident? then Config(Push(Elem(ExpEquals, 0), c.stack), PushStr(c.path, t.name), c.out)
    else if c.stack.top.s == InMap && t == BClose then c.Popped().(path := Pop(c.path))
    else c.Fail()
  }

  function StepValue(c: Config, t: Token): Config {
    match t
    case Str(text) => c.Popped().(path := Pop(c.path), out := c.out + [(c.path, text)])
    case SOpen => c.(stack := c.stack.(top := c.stack.top.(s := InList)))
    case BOpen => c.(stack := c.stack.(top := c.stack.top.(s := InMap)))
    case _ => c.Fail()
  }

  function StepList(c: Config, t: Token): Config {
    var p := PushInt(c.path, c.stack.top.counter);
    match t
    case Comma => c
    case Str(text) => Config(Counted(c.stack), Pop(p), c.out + [(p, text)])
    case SOpen => Config(Push(Elem(InList, 0), Counted(c.stack)), p, c.out)
    case BOpen => Config(Push(Elem(InMap, 0), Counted(c.stack)), p, c.out)
    case SClose => c.Popped().(path := Pop(c.path))
    case _ => c.Fail()
  }

  function StepP(c: Config, t: Token): Config {
    match c.stack.top.s
    case TopLevel => StepDoc(c, t)
    case InMap => StepDoc(c, t)
    case ExpEquals =>
      if t == Equals then c.(stack := c.stack.(top := c.stack.top.(s := ExpValue))) else c.Fail()
    case ExpValue => StepValue(c, t)
    case InList => StepList(c, t)
    case Bad => c
  }

  /** The automaton stops at the first token it cannot use. */
  function Run(c: Config, toks: seq<Token>): Config
    decreases |toks|
  {
    if toks == [] || c.IsBad() then c else Run(StepP(c, toks[0]), toks[1..])
  }

  lemma RunCons(c: Config, t: Token, rest: seq<Token>)
    requires !c.IsBad()
    ensures Run(c, [t] + rest) == Run(StepP(c, t), rest)
  {
    assert ([t] + rest)[1..] == rest;
  }

  lemma RunBad(c: Config, toks: seq<Token>)
    requires c.IsBad()
    ensures !Run(c, toks).Accepting()
  {
  }

  // ---------- the path discipline ----------

  /** The open components, kept beside the run: one for each push, popped by the closings. */
  function Track(c: Config, comps: seq<string>, t: Token): seq<string> {
    var s := c.stack.top.s;
    var closes := (s == InMap && t == BClose) || (s == ExpValue && t.Str?) || (s == InList && t == SClose);
    if s in {TopLevel, InMap} && t.Ident? then comps + [t.name]
    else if s == InList && (t == SOpen || t == BOpen) then comps + [Digits(c.stack.top.counter)]
    else if closes && comps != [] then comps[..|comps| - 1]
    else comps
  }

  /** One open component for each state above the first; all of them identifiers or indexes. */
  ghost predicate Tracks(c: Config, comps: seq<string>) {
    Proper(c.stack) && |comps| == Height(c.stack) - 1 && forall k :: k in comps ==> Component(k)
  }

  /** In this configuration and all later ones the path is the dot-join of the open components. */
  ghost predicate Disciplined(c: Config, comps: seq<string>, toks: seq<Token>)
    decreases |toks|
  {
    c.IsBad() ||
    (c.path == Join(comps) &&
     (toks == [] || Disciplined(StepP(c, toks[0]), Track(c, comps, toks[0]), toks[1..])))
  }

  /** In this configuration and all later ones no list has taken an eleventh item. */
  ghost predicate AtMostTen(c: Config, toks: seq<Token>)
    decreases |toks|
  {
    c.IsBad() ||
    (CountersAtMostTen(c.stack) && (toks == [] || AtMostTen(StepP(c, toks[0]), toks[1..])))
  }

  ghost predicate GoodIdents(toks: seq<Token>) {
    forall t :: t in toks && t.Ident? ==> Component(t.name)
  }

  lemma TrackStep(c: Config, comps: seq<string>, t: Token)
    requires !c.IsBad() && Tracks(c, comps)
    requires t.Ident? ==> Component(t.name)
    ensures StepP(c, t).IsBad() || Tracks(StepP(c, t), Track(c, comps, t))
  {
    CountedShape(c.stack);
  }

  lemma CountedShape(st: Stack)
    ensures Height(Counted(st)) == Height(st)
    ensures Proper(Counted(st)) == Proper(st)
    ensures CountersAtMostTen(st) ==> (CountersAtMostTen(Counted(st)) <==> st.top.counter < 10)
  {
  }

  /** As long as no list takes an eleventh item, a step keeps the path the join of the open
      components; the step that takes one does not. */
  lemma PathStep(c: Config, comps: seq<string>, t: Token)
    requires !c.IsBad() && Tracks(c, comps) && c.path == Join(comps)
    requires t.Ident? ==> Component(t.name)
    requires CountersAtMostTen(c.stack) && !StepP(c, t).IsBad()
    ensures StepP(c, t).path == Join(Track(c, comps, t)) <==> CountersAtMostTen(StepP(c, t).stack)
  {
    hide PushInt, PushStr, Pop, Join;
    if c.stack.top.s in {TopLevel, InMap} && t.Ident? {
      JoinSnoc(comps, t.name);
    } else if c.stack.top.s == InList && t != Comma && t != SClose {
      ItemPathStep(c, comps, t);
    } else if comps != [] {
      var k := comps[|comps| - 1];
      assert k in comps && comps == comps[..|comps| - 1] + [k];
      JoinSnoc(comps[..|comps| - 1], k);
      PopPush(Join(comps[..|comps| - 1]), k);
    }
  }

  lemma ItemPathStep(c: Config, comps: seq<string>, t: Token)
    requires c.stack.top.s == InList && Tracks(c, comps) && c.path == Join(comps)
    requires t.Str? || t == SOpen || t == BOpen
    requires CountersAtMostTen(c.stack)
    ensures StepP(c, t).path == Join(Track(c, comps, t)) <==> CountersAtMostTen(StepP(c, t).stack)
  {
    hide PushInt, PushStr, Pop, Join;
    CountedShape(c.stack);
    ItemPath(c.path, comps, c.stack.top.counter);
  }

  /** The index push against the true path, and the pop behind it. */
  lemma ItemPath(path: string, comps: seq<string>, n: nat)
    requires n <= 10 && comps != [] && path == Join(comps) && forall k :: k in comps ==> Component(k)
    ensures PushInt(path, n) == Join(comps + [Digits(n)]) <==> n < 10
    ensures Pop(PushInt(path, n)) == Join(comps) <==> n < 10
  {
    LeadingTenSmall(n);
    PopPushInt(path, n);
    PushIntLength(path, n);
    JoinSnoc(comps, Digits(n));
    JoinNonEmpty(comps);
  }

  /** On every token sequence: the path is the join of the open components all along the run
      if and only if no list takes an eleventh item. */
  lemma {:induction false} PathDiscipline(c: Config, comps: seq<string>, toks: seq<Token>)
    requires Tracks(c, comps) && GoodIdents(toks)
    requires c.path == Join(comps) && CountersAtMostTen(c.stack)
    ensures Disciplined(c, comps, toks) <==> AtMostTen(c, toks)
    decreases |toks|
  {
    if !c.IsBad() && toks != [] {
      var d, t := StepP(c, toks[0]), toks[0];
      assert t in toks && GoodIdents(toks[1..]);
      if !d.IsBad() {
        TrackStep(c, comps, t);
        PathStep(c, comps, t);
        if d.path == Join(Track(c, comps, t)) {
          PathDiscipline(d, Track(c, comps, t), toks[1..]);
        }
      }
    }
  }

  /** The components open after a run. */
  function TrackRun(c: Config, comps: seq<string>, toks: seq<Token>): seq<string>
    decreases |toks|
  {
    if toks == [] || c.IsBad() then comps
    else TrackRun(StepP(c, toks[0]), Track(c, comps, toks[0]), toks[1..])
  }

  /** The number of open components is the stack index in every reachable valid configuration,
      whatever the lists do. */
  lemma {:induction false} OneComponentPerState(c: Config, comps: seq<string>, toks: seq<Token>)
    requires Tracks(c, comps) && GoodIdents(toks)
    ensures Run(c, toks).IsBad() || Tracks(Run(c, toks), TrackRun(c, comps, toks))
    decreases |toks|
  {
    if !c.IsBad() && toks != [] {
      assert toks[0] in toks && GoodIdents(toks[1..]);
      TrackStep(c, comps, toks[0]);
      if !StepP(c, toks[0]).IsBad() {
        OneComponentPerState(StepP(c, toks[0]), Track(c, comps, toks[0]), toks[1..]);
      }
    }
  }

  // ---------- completeness: the automaton reads every tree ----------

  /** A value behind an equals sign. */
  lemma {:induction false} RunStmtValue(v: Value, base: Stack, path: string, out: Pairs, rest: seq<Token>)
    ensures var e := EmitV(v, path);
            Run(Config(Push(Elem(ExpValue, 0), base), path, out), TokensV(v) + rest)
            == Run(Config(base, e.path, out + e.out), rest)
    decreases v, 1
  {
    var c := Config(Push(Elem(ExpValue, 0), base), path, out);
    match v {
      case VStr(t) =>
        RunCons(c, Str(t), rest);
      case VList(items) =>
        assert TokensV(v) + rest == [SOpen] + (TokensI(items) + ([SClose] + rest));
        RunCons(c, SOpen, TokensI(items) + ([SClose] + rest));
        RunListBody(items, base, path, out, rest);
      case VMap(doc) =>
        assert TokensV(v) + rest == [BOpen] + (TokensD(doc) + ([BClose] + rest));
        RunCons(c, BOpen, TokensD(doc) + ([BClose] + rest));
        RunMapBody(doc, base, path, out, rest);
    }
  }

  /** The inside of a list and its closing bracket. */
  lemma {:induction false} RunListBody(items: Items, base: Stack, path: string, out: Pairs, rest: seq<Token>)
    ensures var e := EmitI(items, path, 0);
            Run(Config(Push(Elem(InList, 0), base), path, out), TokensI(items) + ([SClose] + rest))
            == Run(Config(base, Pop(e.path), out + e.out), rest)
    decreases items, 1
  {
    var e := EmitI(items, path, 0);
    var n := RunItems(items, base, 0, path, out, [SClose] + rest);
    RunCons(Config(Push(Elem(InList, n), base), e.path, out + e.out), SClose, rest);
  }

  lemma {:induction false} RunMapBody(doc: Doc, base: Stack, path: string, out: Pairs, rest: seq<Token>)
    ensures var e := EmitD(doc, path);
            Run(Config(Push(Elem(InMap, 0), base), path, out), TokensD(doc) + ([BClose] + rest))
            == Run(Config(base, Pop(e.path), out + e.out), rest)
    decreases doc, 1
  {
    var e := EmitD(doc, path);
    RunDoc(doc, Push(Elem(InMap, 0), base), path, out, [BClose] + rest);
    RunCons(Config(Push(Elem(InMap, 0), base), e.path, out + e.out), BClose, rest);
  }

  /** A comma is ignored. */
  lemma RunComma(c: Config, rest: seq<Token>)
    requires c.stack.top.s == InList
    ensures Run(c, [Comma] + rest) == Run(c, rest)
  {
    RunCons(c, Comma, rest);
  }

  /** List items, from index i on; the counter ends at n. */
  lemma {:induction false} RunItems(items: Items, base: Stack, i: nat, path: string, out: Pairs, rest: seq<Token>)
    returns (n: nat)
    ensures var e := EmitI(items, path, i);
            Run(Config(Push(Elem(InList, i), base), path, out), TokensI(items) + rest)
            == Run(Config(Push(Elem(InList, n), base), e.path, out + e.out), rest)
    decreases items, 0
  {
    hide PushInt, StepP;
    n := i;
    match items {
      case INil =>
        assert [] + rest == rest && out + [] == out;
      case IComma(more) =>
        assert TokensI(items) + rest == [Comma] + (TokensI(more) + rest);
        RunComma(Config(Push(Elem(InList, i), base), path, out), TokensI(more) + rest);
        n := RunItems(more, base, i, path, out, rest);
      case IElem(v, more) =>
        var e := EmitV(v, PushInt(path, i));
        var r := EmitI(more, e.path, i + 1);
        assert TokensI(items) + rest == TokensV(v) + (TokensI(more) + rest);
        RunItemValue(v, base, i, path, out, TokensI(more) + rest);
        n := RunItems(more, base, i + 1, e.path, out + e.out, rest);
        assert out + e.out + r.out == out + (e.out + r.out);
    }
  }

  /** A value as a list item. */
  lemma {:induction false} RunItemValue(v: Value, base: Stack, i: nat, path: string, out: Pairs, rest: seq<Token>)
    ensures var e := EmitV(v, PushInt(path, i));
            Run(Config(Push(Elem(InList, i), base), path, out), TokensV(v) + rest)
            == Run(Config(Push(Elem(InList, i + 1), base), e.path, out + e.out), rest)
    decreases v, 1
  {
    var c := Config(Push(Elem(InList, i), base), path, out);
    hide PushInt;
    var base1 := Push(Elem(InList, i + 1), base);
    match v {
      case VStr(t) =>
        RunCons(c, Str(t), rest);
      case VList(items) =>
        assert TokensV(v) + rest == [SOpen] + (TokensI(items) + ([SClose] + rest));
        RunCons(c, SOpen, TokensI(items) + ([SClose] + rest));
        RunListBody(items, base1, PushInt(path, i), out, rest);
      case VMap(doc) =>
        assert TokensV(v) + rest == [BOpen] + (TokensD(doc) + ([BClose] + rest));
        RunCons(c, BOpen, TokensD(doc) + ([BClose] + rest));
        RunMapBody(doc, base1, PushInt(path, i), out, rest);
    }
  }

  /** A key and its equals sign. */
  lemma RunKey(stack: Stack, path: string, out: Pairs, k: string, tail: seq<Token>)
    requires stack.top.s in {TopLevel, InMap}
    ensures Run(Config(stack, path, out), [Ident(k)] + ([Equals] + tail))
            == Run(Config(Push(Elem(ExpValue, 0), stack), PushStr(path, k), out), tail)
  {
    RunCons(Config(stack, path, out), Ident(k), [Equals] + tail);
    RunCons(Config(Push(Elem(ExpEquals, 0), stack), PushStr(path, k), out), Equals, tail);
  }

  /** Statements at the top level or in a map. */
  lemma {:induction false} RunDoc(doc: Doc, stack: Stack, path: string, out: Pairs, rest: seq<Token>)
    requires stack.top.s in {TopLevel, InMap}
    ensures var e := EmitD(doc, path);
            Run(Config(stack, path, out), TokensD(doc) + rest) == Run(Config(stack, e.path, out + e.out), rest)
    decreases doc, 0
  {
    match doc {
      case DNil =>
        assert [] + rest == rest && out + [] == out;
      case DCons(k, v, more) =>
        var e := EmitV(v, PushStr(path, k));
        var r := EmitD(more, e.path);
        var tail := TokensV(v) + (TokensD(more) + rest);
        assert TokensD(doc) + rest == [Ident(k)] + ([Equals] + tail);
        RunKey(stack, path, out, k, tail);
        RunStmtValue(v, stack, PushStr(path, k), out, TokensD(more) + rest);
        RunDoc(more, stack, e.path, out + e.out, rest);
        assert out + e.out + r.out == out + (e.out + r.out);
    }
  }

  // ---------- soundness: what the automaton accepts is a tree ----------

  /** From inside a list, an accepted run reads items and a closing bracket first. */
  lemma {:induction false} SplitItems(base: Stack, i: nat, path: string, out: Pairs, toks: seq<Token>)
    returns (items: Items, rest: seq<Token>)
    requires Run(Config(Push(Elem(InList, i), base), path, out), toks).Accepting()
    ensures toks == TokensI(items) + ([SClose] + rest)
    decreases |toks|, 2
  {
    assert toks != [];
    var t, more := toks[0], toks[1..];
    assert toks == [t] + more;
    if t == Comma {
      items, rest := SplitItems(base, i, path, out, more);
      items := IComma(items);
    } else if t == SClose {
      items, rest := INil, more;
    } else {
      var v, r := SplitItemValue(base, i, path, out, toks);
      var e := EmitV(v, PushInt(path, i));
      items, rest := SplitItems(base, i + 1, e.path, out + e.out, r);
      JoinItem(v, items, rest);
      items := IElem(v, items);
    }
  }

  lemma JoinItem(v: Value, items: Items, rest: seq<Token>)
    ensures TokensI(IElem(v, items)) + ([SClose] + rest) == TokensV(v) + (TokensI(items) + ([SClose] + rest))
  {
  }

  lemma {:induction false} SplitItemValue(base: Stack, i: nat, path: string, out: Pairs, toks: seq<Token>)
    returns (v: Value, rest: seq<Token>)
    requires toks != [] && toks[0] != Comma && toks[0] != SClose
    requires Run(Config(Push(Elem(InList, i), base), path, out), toks).Accepting()
    ensures toks == TokensV(v) + rest && |rest| < |toks|
    ensures var e := EmitV(v, PushInt(path, i));
            Run(Config(Push(Elem(InList, i + 1), base), e.path, out + e.out), rest).Accepting()
    decreases |toks|, 1
  {
    var c := Config(Push(Elem(InList, i), base), path, out);
    v, rest := SplitBody(Push(Elem(InList, i + 1), base), PushInt(path, i), out, toks, StepP(c, toks[0]));
    RunItemValue(v, base, i, path, out, rest);
  }

  /** The opening token of a value has been read; base is the stack without the value. */
  lemma {:induction false} SplitBody(base: Stack, path: string, out: Pairs, toks: seq<Token>, c: Config)
    returns (v: Value, rest: seq<Token>)
    requires toks != [] && Run(c, toks[1..]).Accepting()
    requires toks[0].Str?
             || (toks[0] == SOpen && c == Config(Push(Elem(InList, 0), base), path, out))
             || (toks[0] == BOpen && c == Config(Push(Elem(InMap, 0), base), path, out))
    ensures toks == TokensV(v) + rest && |rest| < |toks|
    decreases |toks|, 0
  {
    var t, more := toks[0], toks[1..];
    assert toks == [t] + more;
    if t.Str? {
      v, rest := VStr(t.text), more;
    } else if t == SOpen {
      var items, r := SplitItems(base, 0, path, out, more);
      v, rest := VList(items), r;
      assert toks == [SOpen] + TokensI(items) + [SClose] + rest;
    } else {
      var doc, r := SplitMap(base, path, out, more);
      v, rest := VMap(doc), r;
      assert toks == [BOpen] + TokensD(doc) + [BClose] + rest;
    }
  }

  /** From a statement position, an accepted run that starts with a key reads a statement. */
  lemma {:induction false} SplitStmt(stack: Stack, path: string, out: Pairs, toks: seq<Token>)
    returns (v: Value, rest: seq<Token>)
    requires stack.top.s in {TopLevel, InMap} && toks != [] && toks[0].Ident?
    requires Run(Config(stack, path, out), toks).Accepting()
    ensures toks == [toks[0], Equals] + TokensV(v) + rest && |rest| < |toks|
    ensures var e := EmitV(v, PushStr(path, toks[0].name));
            Run(Config(stack, e.path, out + e.out), rest).Accepting()
    decreases |toks|, 1
  {
    hide PushStr;
    var p := PushStr(path, toks[0].name);
    var c1 := Config(Push(Elem(ExpEquals, 0), stack), p, out);
    var t1 := toks[1..];
    assert Run(c1, t1).Accepting() && t1 != [];
    if t1[0] != Equals { RunBad(StepP(c1, t1[0]), t1[1..]); }
    var c2 := Config(Push(Elem(ExpValue, 0), stack), p, out);
    var t2 := t1[1..];
    assert Run(c2, t2).Accepting() && t2 != [];
    v, rest := SplitBody(stack, p, out, t2, StepP(c2, t2[0]));
    RunStmtValue(v, stack, p, out, rest);
    assert toks == [toks[0], Equals] + t2;
  }

  lemma {:induction false} SplitMap(base: Stack, path: string, out: Pairs, toks: seq<Token>)
    returns (doc: Doc, rest: seq<Token>)
    requires Run(Config(Push(Elem(InMap, 0), base), path, out), toks).Accepting()
    ensures toks == TokensD(doc) + ([BClose] + rest)
    decreases |toks|, 2
  {
    assert toks != [] && toks == [toks[0]] + toks[1..];
    if toks[0] == BClose {
      doc, rest := DNil, toks[1..];
    } else {
      if !toks[0].Ident? { RunBad(Config(Push(Elem(Bad, 0), base), path, out), toks[1..]); }
      var v, r := SplitStmt(Push(Elem(InMap, 0), base), path, out, toks);
      var e := EmitV(v, PushStr(path, toks[0].name));
      doc, rest := SplitMap(base, e.path, out + e.out, r);
      assert toks == [toks[0], Equals] + TokensV(v) + (TokensD(doc) + ([BClose] + rest));
      doc := DCons(toks[0].name, v, doc);
    }
  }

  lemma {:induction false} SplitTop(path: string, out: Pairs, toks: seq<Token>) returns (doc: Doc)
    requires Run(Config(Initial.stack, path, out), toks).Accepting()
    ensures toks == TokensD(doc)
    decreases |toks|
  {
    if toks == [] {
      doc := DNil;
    } else {
      if !toks[0].Ident? { RunBad(Config(Bottom(Elem(Bad, 0)), path, out), toks[1..]); }
      var v, r := SplitStmt(Initial.stack, path, out, toks);
      var e := EmitV(v, PushStr(path, toks[0].name));
      doc := SplitTop(e.path, out + e.out, r);
      doc := DCons(toks[0].name, v, doc);
    }
  }

  /** The automaton accepts exactly the token sequences of the grammar. */
  lemma AcceptsIsGrammar(toks: seq<Token>)
    ensures Run(Initial, toks).Accepting() <==> exists doc :: TokensD(doc) == toks
  {
    if Run(Initial, toks).Accepting() {
      var doc := SplitTop("", [], toks);
    }
    forall doc | TokensD(doc) == toks
      ensures Run(Initial, toks).Accepting()
    {
      AcceptedOutput(doc);
    }
  }

  /** On the tokens of a tree the automaton accepts and adds the emitted pairs of the tree. */
  lemma AcceptedOutput(doc: Doc)
    ensures Run(Initial, TokensD(doc)) == Config(Initial.stack, EmitD(doc, "").path, EmitD(doc, "").out)
  {
    RunDoc(doc, Initial.stack, "", [], []);
    assert TokensD(doc) + [] == TokensD(doc) && [] + EmitD(doc, "").out == EmitD(doc, "").out;
  }
}
