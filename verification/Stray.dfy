/** The index push on an empty path. With one digit too few reserved its first digit goes to the
    position before the text, and as that position is unsigned, on an empty text it is 2^32 - 1:
    outside the buffer. This module says which documents bring the parser there. */
module Strays {
  import opened Text
  import opened Lexer
  import opened Grammar
  import opened Pda

  // ---------- the components of the path ----------

  /** The path is the dot-join of n components. */
  ghost predicate Dotted(path: string, n: nat) {
    exists comps :: |comps| == n && (forall k :: k in comps ==> Component(k)) && path == Join(comps)
  }

  /** The number of components behind an index push: a leading ten is glued to the last one. */
  function Into(n: nat, i: nat): (m: nat)
    ensures m > 0
  {
    if LeadingTen(i) && n > 0 then n else n + 1
  }

  /** The number of components behind a pop. */
  function Up(n: nat): nat {
    if n == 0 then 0 else n - 1
  }

  lemma DottedEmpty(path: string, n: nat)
    requires Dotted(path, n)
    ensures path == [] <==> n == 0
  {
    var comps :| |comps| == n && (forall k :: k in comps ==> Component(k)) && path == Join(comps);
    if n > 0 { JoinNonEmpty(comps); }
  }

  lemma DottedJoin(comps: seq<string>)
    requires forall k :: k in comps ==> Component(k)
    ensures Dotted(Join(comps), |comps|)
  {
  }

  lemma DottedPush(path: string, n: nat, key: string)
    requires Dotted(path, n) && Component(key)
    ensures Dotted(PushStr(path, key), n + 1)
  {
    var comps :| |comps| == n && (forall k :: k in comps ==> Component(k)) && path == Join(comps);
    JoinSnoc(comps, key);
    DottedJoin(comps + [key]);
  }

  lemma DottedPop(path: string, n: nat)
    requires Dotted(path, n)
    ensures Dotted(Pop(path), Up(n))
  {
    var comps :| |comps| == n && (forall k :: k in comps ==> Component(k)) && path == Join(comps);
    PopJoin(comps);
    hide Dotted, Join, Pop;
    DottedJoin(if n == 0 then comps else comps[..n - 1]);
  }

  lemma PopJoin(comps: seq<string>)
    requires forall k :: k in comps ==> Component(k)
    ensures Pop(Join(comps)) == Join(if comps == [] then comps else comps[..|comps| - 1])
  {
    hide PushStr, Join, Pop;
    if comps != [] {
      var init, last := comps[..|comps| - 1], comps[|comps| - 1];
      assert last in comps && comps == init + [last];
      JoinSnoc(init, last);
      PopPush(Join(init), last);
    } else {
      PopNothing();
    }
  }

  lemma PopNothing()
    ensures Pop(Join([])) == Join([])
  {
  }

  lemma DottedIndex(path: string, n: nat, i: nat)
    requires Dotted(path, n)
    ensures Dotted(PushInt(path, i), Into(n, i))
  {
    if !LeadingTen(i) {
      PopPushInt(path, i);
      DottedPush(path, n, Digits(i));
    } else {
      var comps :| |comps| == n && (forall k :: k in comps ==> Component(k)) && path == Join(comps);
      hide Dotted, Join, LeadingTen;
      if n > 0 {
        GluedDigits(comps, i);
      } else {
        BareDigits(comps, i);
      }
    }
  }

  /** A leading ten behind components: its digits are glued to the last of them. */
  lemma GluedDigits(comps: seq<string>, i: nat)
    requires comps != [] && (forall k :: k in comps ==> Component(k)) && LeadingTen(i)
    ensures Dotted(PushInt(Join(comps), i), |comps|)
  {
    hide *;
    var init, last := comps[..|comps| - 1], comps[|comps| - 1];
    assert comps == init + [last] && last in comps;
    JoinNonEmpty(comps);
    PushTen(Join(comps), i);
    GluedLast(init, last, Digits(i));
  }

  lemma GluedLast(init: seq<string>, last: string, more: string)
    requires (forall k :: k in init ==> Component(k)) && Component(last) && '.' !in more
    ensures Dotted(Join(init + [last]) + more, |init| + 1)
  {
    hide Dotted, Join, PushStr;
    JoinSnoc(init, last);
    JoinSnoc(init, last + more);
    PushMore(Join(init), last, more);
    DottedJoin(init + [last + more]);
  }

  lemma PushTen(path: string, i: nat)
    requires path != [] && LeadingTen(i)
    ensures PushInt(path, i) == path + Digits(i)
  {
    assert WithDot(path)[..|path|] == path;
  }

  lemma PushMore(front: string, key: string, more: string)
    ensures PushStr(front, key + more) == PushStr(front, key) + more
  {
  }

  /** With no component the digits but the first are all there is. */
  lemma BareDigits(comps: seq<string>, i: nat)
    requires comps == [] && LeadingTen(i)
    ensures Dotted(PushInt(Join(comps), i), 1)
  {
    assert i >= 10 && |Digits(i / 10)| >= 1;
    var name := Digits(i)[1..];
    assert |Digits(i)| >= 2;
    JoinSnoc(comps, name);
    assert comps + [name] == [name];
    DottedJoin([name]);
  }

  // ---------- documents that reach it ----------

  /** The components left of n once a value is read. */
  function LeftV(v: Value, n: nat): nat {
    match v
    case VStr(_) => Up(n)
    case VList(items) => Up(LeftI(items, n, 0))
    case VMap(doc) => Up(LeftD(doc, n))
  }

  function LeftI(items: Items, n: nat, i: nat): nat {
    match items
    case INil => n
    case IComma(rest) => LeftI(rest, n, i)
    case IElem(v, rest) => LeftI(rest, LeftV(v, Into(n, i)), i + 1)
  }

  function LeftD(doc: Doc, n: nat): nat {
    match doc
    case DNil => n
    case DCons(_, v, rest) => LeftD(rest, LeftV(v, n + 1))
  }

  /** An item whose index has a leading ten is met when no component is left. */
  predicate StrayV(v: Value, n: nat) {
    match v
    case VStr(_) => false
    case VList(items) => StrayI(items, n, 0)
    case VMap(doc) => StrayD(doc, n)
  }

  predicate StrayI(items: Items, n: nat, i: nat) {
    match items
    case INil => false
    case IComma(rest) => StrayI(rest, n, i)
    case IElem(v, rest) =>
      (n == 0 && LeadingTen(i)) || StrayV(v, Into(n, i)) || StrayI(rest, LeftV(v, Into(n, i)), i + 1)
  }

  predicate StrayD(doc: Doc, n: nat) {
    match doc
    case DNil => false
    case DCons(_, v, rest) => StrayV(v, n + 1) || StrayD(rest, LeftV(v, n + 1))
  }

  predicate Stray(doc: Doc) {
    StrayD(doc, 0)
  }

  /** The path left behind has the components that are left. */
  lemma {:induction false} LeftDottedV(v: Value, path: string, n: nat)
    requires KeysV(v) && Dotted(path, n)
    ensures Dotted(EmitV(v, path).path, LeftV(v, n))
  {
    hide Dotted, Pop;
    match v
    case VStr(_) => DottedPop(path, n);
    case VList(items) =>
      LeftDottedI(items, path, n, 0);
      DottedPop(EmitI(items, path, 0).path, LeftI(items, n, 0));
    case VMap(doc) =>
      LeftDottedD(doc, path, n);
      DottedPop(EmitD(doc, path).path, LeftD(doc, n));
  }

  lemma {:induction false} LeftDottedI(items: Items, path: string, n: nat, i: nat)
    requires KeysI(items) && Dotted(path, n)
    ensures Dotted(EmitI(items, path, i).path, LeftI(items, n, i))
  {
    hide Dotted, Pop, PushInt;
    match items
    case INil =>
    case IComma(rest) => LeftDottedI(rest, path, n, i);
    case IElem(v, rest) =>
      DottedIndex(path, n, i);
      LeftDottedV(v, PushInt(path, i), Into(n, i));
      LeftDottedI(rest, EmitV(v, PushInt(path, i)).path, LeftV(v, Into(n, i)), i + 1);
  }

  lemma {:induction false} LeftDottedD(doc: Doc, path: string, n: nat)
    requires KeysD(doc) && Dotted(path, n)
    ensures Dotted(EmitD(doc, path).path, LeftD(doc, n))
  {
    hide Dotted, Pop, PushStr;
    match doc
    case DNil =>
    case DCons(k, v, rest) =>
      DottedPush(path, n, k);
      LeftDottedV(v, PushStr(path, k), n + 1);
      LeftDottedD(rest, EmitV(v, PushStr(path, k)).path, LeftV(v, n + 1));
  }

  /** Every emitted key is a dot-join of components, whatever the list indexes do to the path. */
  ghost predicate KeysDotted(out: Pairs) {
    forall k :: 0 <= k < |out| ==> Named(out[k].0)
  }

  ghost predicate Named(key: string) {
    exists n: nat :: n > 0 && Dotted(key, n)
  }

  lemma KeysDottedConcat(a: Pairs, b: Pairs)
    requires KeysDotted(a) && KeysDotted(b)
    ensures KeysDotted(a + b)
  {
    hide Named;
  }

  lemma {:induction false} EmittedDottedV(v: Value, path: string, n: nat)
    requires KeysV(v) && Dotted(path, n) && n > 0
    ensures KeysDotted(EmitV(v, path).out)
  {
    hide Dotted;
    match v
    case VStr(_) => assert Named(path);
    case VList(items) => EmittedDottedI(items, path, n, 0);
    case VMap(doc) => EmittedDottedD(doc, path, n);
  }

  lemma {:induction false} EmittedDottedI(items: Items, path: string, n: nat, i: nat)
    requires KeysI(items) && Dotted(path, n)
    ensures KeysDotted(EmitI(items, path, i).out)
  {
    hide Dotted;
    match items
    case INil =>
    case IComma(rest) => EmittedDottedI(rest, path, n, i);
    case IElem(v, rest) =>
      DottedIndex(path, n, i);
      EmittedDottedV(v, PushInt(path, i), Into(n, i));
      LeftDottedV(v, PushInt(path, i), Into(n, i));
      var e := EmitV(v, PushInt(path, i));
      EmittedDottedI(rest, e.path, LeftV(v, Into(n, i)), i + 1);
      KeysDottedConcat(e.out, EmitI(rest, e.path, i + 1).out);
  }

  lemma {:induction false} EmittedDottedD(doc: Doc, path: string, n: nat)
    requires KeysD(doc) && Dotted(path, n)
    ensures KeysDotted(EmitD(doc, path).out)
  {
    hide Dotted;
    match doc
    case DNil =>
    case DCons(k, v, rest) =>
      DottedPush(path, n, k);
      EmittedDottedV(v, PushStr(path, k), n + 1);
      LeftDottedV(v, PushStr(path, k), n + 1);
      var e := EmitV(v, PushStr(path, k));
      EmittedDottedD(rest, e.path, LeftV(v, n + 1));
      KeysDottedConcat(e.out, EmitD(rest, e.path).out);
  }

  // ---------- the automaton reaches it on exactly these documents ----------

  /** The token opens a list item whose index push leaves the buffer. */
  predicate StrayAt(c: Config, t: Token) {
    c.stack.top.s == InList && (t.Str? || t == SOpen || t == BOpen)
    && c.path == [] && LeadingTen(c.stack.top.counter)
  }

  /** Some token of the run does. */
  predicate LeavesBuffer(c: Config, toks: seq<Token>)
    decreases |toks|
  {
    toks != [] && !c.IsBad() && (StrayAt(c, toks[0]) || LeavesBuffer(StepP(c, toks[0]), toks[1..]))
  }

  lemma StraysCons(c: Config, t: Token, rest: seq<Token>)
    requires !c.IsBad()
    ensures LeavesBuffer(c, [t] + rest) <==> StrayAt(c, t) || LeavesBuffer(StepP(c, t), rest)
  {
    assert ([t] + rest)[1..] == rest;
  }

  /** A value behind an equals sign. */
  lemma {:induction false} StrayValue(v: Value, base: Stack, path: string, n: nat, out: Pairs, rest: seq<Token>)
    requires KeysV(v) && Dotted(path, n)
    ensures var e := EmitV(v, path);
            LeavesBuffer(Config(Push(Elem(ExpValue, 0), base), path, out), TokensV(v) + rest)
            <==> StrayV(v, n) || LeavesBuffer(Config(base, e.path, out + e.out), rest)
    decreases v, 1
  {
    hide Dotted;
    var c := Config(Push(Elem(ExpValue, 0), base), path, out);
    match v {
      case VStr(t) =>
        StraysCons(c, Str(t), rest);
      case VList(items) =>
        assert TokensV(v) + rest == [SOpen] + (TokensI(items) + ([SClose] + rest));
        StraysCons(c, SOpen, TokensI(items) + ([SClose] + rest));
        StrayListBody(items, base, path, n, out, rest);
      case VMap(doc) =>
        assert TokensV(v) + rest == [BOpen] + (TokensD(doc) + ([BClose] + rest));
        StraysCons(c, BOpen, TokensD(doc) + ([BClose] + rest));
        StrayMapBody(doc, base, path, n, out, rest);
    }
  }

  lemma {:induction false} StrayListBody(items: Items, base: Stack, path: string, n: nat, out: Pairs, rest: seq<Token>)
    requires KeysI(items) && Dotted(path, n)
    ensures var e := EmitI(items, path, 0);
            LeavesBuffer(Config(Push(Elem(InList, 0), base), path, out), TokensI(items) + ([SClose] + rest))
            <==> StrayI(items, n, 0) || LeavesBuffer(Config(base, Pop(e.path), out + e.out), rest)
    decreases items, 1
  {
    hide Dotted, Pop, LeavesBuffer, StrayI;
    var e := EmitI(items, path, 0);
    var counter := StrayItems(items, base, 0, path, n, out, [SClose] + rest);
    StraysCons(Config(Push(Elem(InList, counter), base), e.path, out + e.out), SClose, rest);
  }

  lemma {:induction false} StrayMapBody(doc: Doc, base: Stack, path: string, n: nat, out: Pairs, rest: seq<Token>)
    requires KeysD(doc) && Dotted(path, n)
    ensures var e := EmitD(doc, path);
            LeavesBuffer(Config(Push(Elem(InMap, 0), base), path, out), TokensD(doc) + ([BClose] + rest))
            <==> StrayD(doc, n) || LeavesBuffer(Config(base, Pop(e.path), out + e.out), rest)
    decreases doc, 1
  {
    hide Dotted, Pop, LeavesBuffer, StrayD;
    var e := EmitD(doc, path);
    StrayStmts(doc, Push(Elem(InMap, 0), base), path, n, out, [BClose] + rest);
    StraysCons(Config(Push(Elem(InMap, 0), base), e.path, out + e.out), BClose, rest);
  }

  /** List items, from index i on; the counter ends at m. */
  lemma {:induction false} StrayItems(items: Items, base: Stack, i: nat, path: string, n: nat, out: Pairs,
                                      rest: seq<Token>) returns (m: nat)
    requires KeysI(items) && Dotted(path, n)
    ensures var e := EmitI(items, path, i);
            LeavesBuffer(Config(Push(Elem(InList, i), base), path, out), TokensI(items) + rest)
            <==> StrayI(items, n, i) || LeavesBuffer(Config(Push(Elem(InList, m), base), e.path, out + e.out), rest)
    decreases items, 0
  {
    hide Dotted, PushInt, LeavesBuffer;
    m := i;
    match items {
      case INil =>
        assert [] + rest == rest && out + [] == out;
      case IComma(more) =>
        assert TokensI(items) + rest == [Comma] + (TokensI(more) + rest);
        StraysCons(Config(Push(Elem(InList, i), base), path, out), Comma, TokensI(more) + rest);
        m := StrayItems(more, base, i, path, n, out, rest);
      case IElem(v, more) =>
        var e := EmitV(v, PushInt(path, i));
        var r := EmitI(more, e.path, i + 1);
        assert TokensI(items) + rest == TokensV(v) + (TokensI(more) + rest);
        DottedIndex(path, n, i);
        LeftDottedV(v, PushInt(path, i), Into(n, i));
        StrayItemValue(v, base, i, path, n, out, TokensI(more) + rest);
        m := StrayItems(more, base, i + 1, e.path, LeftV(v, Into(n, i)), out + e.out, rest);
        assert out + e.out + r.out == out + (e.out + r.out);
    }
  }

  /** A value as a list item. */
  lemma {:induction false} StrayItemValue(v: Value, base: Stack, i: nat, path: string, n: nat, out: Pairs,
                                          rest: seq<Token>)
    requires KeysV(v) && Dotted(path, n)
    ensures var e := EmitV(v, PushInt(path, i));
            LeavesBuffer(Config(Push(Elem(InList, i), base), path, out), TokensV(v) + rest)
            <==> (n == 0 && LeadingTen(i)) || StrayV(v, Into(n, i))
                 || LeavesBuffer(Config(Push(Elem(InList, i + 1), base), e.path, out + e.out), rest)
    decreases v, 1
  {
    var c := Config(Push(Elem(InList, i), base), path, out);
    hide Dotted, PushInt, LeavesBuffer;
    DottedEmpty(path, n);
    DottedIndex(path, n, i);
    var base1 := Push(Elem(InList, i + 1), base);
    match v {
      case VStr(t) =>
        StraysCons(c, Str(t), rest);
      case VList(items) =>
        assert TokensV(v) + rest == [SOpen] + (TokensI(items) + ([SClose] + rest));
        StraysCons(c, SOpen, TokensI(items) + ([SClose] + rest));
        StrayListBody(items, base1, PushInt(path, i), Into(n, i), out, rest);
      case VMap(doc) =>
        assert TokensV(v) + rest == [BOpen] + (TokensD(doc) + ([BClose] + rest));
        StraysCons(c, BOpen, TokensD(doc) + ([BClose] + rest));
        StrayMapBody(doc, base1, PushInt(path, i), Into(n, i), out, rest);
    }
  }

  /** Statements at the top level or in a map. */
  lemma {:induction false} StrayStmts(doc: Doc, stack: Stack, path: string, n: nat, out: Pairs, rest: seq<Token>)
    requires stack.top.s in {TopLevel, InMap} && KeysD(doc) && Dotted(path, n)
    ensures var e := EmitD(doc, path);
            LeavesBuffer(Config(stack, path, out), TokensD(doc) + rest)
            <==> StrayD(doc, n) || LeavesBuffer(Config(stack, e.path, out + e.out), rest)
    decreases doc, 0
  {
    hide Dotted, PushStr, LeavesBuffer;
    match doc {
      case DNil =>
        assert [] + rest == rest && out + [] == out;
      case DCons(k, v, more) =>
        var p := PushStr(path, k);
        var e := EmitV(v, p);
        var r := EmitD(more, e.path);
        var tail := TokensV(v) + (TokensD(more) + rest);
        assert TokensD(doc) + rest == [Ident(k)] + ([Equals] + tail);
        StraysCons(Config(stack, path, out), Ident(k), [Equals] + tail);
        StraysCons(Config(Push(Elem(ExpEquals, 0), stack), p, out), Equals, tail);
        DottedPush(path, n, k);
        LeftDottedV(v, p, n + 1);
        StrayValue(v, stack, p, n + 1, out, TokensD(more) + rest);
        StrayStmts(more, stack, e.path, LeftV(v, n + 1), out + e.out, rest);
        assert out + e.out + r.out == out + (e.out + r.out);
    }
  }

  /** The parser leaves its buffer on the tokens of a document if and only if the document has
      an item with a leading ten that meets no component. */
  lemma StrayExact(doc: Doc)
    requires KeysD(doc)
    ensures LeavesBuffer(Initial, TokensD(doc)) <==> Stray(doc)
  {
    var none: seq<string> := [];
    assert |none| == 0 && "" == Join(none);
    StrayStmts(doc, Initial.stack, "", 0, [], []);
    assert TokensD(doc) + [] == TokensD(doc);
  }

  // ---------- short lists never do ----------

  lemma {:induction false} ShortNoStrayV(v: Value, n: nat)
    requires ShortV(v)
    ensures !StrayV(v, n)
  {
    match v
    case VStr(_) =>
    case VList(items) => ShortNoStrayI(items, n, 0);
    case VMap(doc) => ShortNoStrayD(doc, n);
  }

  lemma {:induction false} ShortNoStrayI(items: Items, n: nat, i: nat)
    requires ShortI(items, i)
    ensures !StrayI(items, n, i)
  {
    match items
    case INil =>
    case IComma(rest) => ShortNoStrayI(rest, n, i);
    case IElem(v, rest) =>
      ShortNoStrayV(v, Into(n, i));
      ShortNoStrayI(rest, LeftV(v, Into(n, i)), i + 1);
  }

  /** With at most ten items in every list no index has a leading ten. */
  lemma {:induction false} ShortNoStrayD(doc: Doc, n: nat)
    requires ShortD(doc)
    ensures !StrayD(doc, n)
  {
    match doc
    case DNil =>
    case DCons(_, v, rest) =>
      ShortNoStrayV(v, n + 1);
      ShortNoStrayD(rest, LeftV(v, n + 1));
  }
}
