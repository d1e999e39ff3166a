/** Loading a configuration text: scanning, parsing and the list of values, for any text and
    for texts written from a tree. */
module Loading {
  import opened Options
  import opened Text
  import opened Lexer
  import opened Lexemes
  import opened Grammar
  import opened Pda
  import opened Strays

  /** A text is accepted with its values, refused, or makes the parser write outside of its
      path buffer, which ends the model of a load. */
  datatype Loaded = Values(pairs: Pairs) | Refused | OutOfBuffer

  /** What the tokens ahead come to from a configuration. */
  function Outcome(s: Stream, c: Config): Loaded {
    var d := Run(c, s.toks);
    if LeavesBuffer(c, s.Used()) then OutOfBuffer
    else if s.whole && d.Accepting() then Values(d.out)
    else Refused
  }

  function Load(src: string): Loaded {
    Outcome(ReadAll(src), Initial)
  }

  lemma IdentTextIsComponent(s: string)
    requires IdentText(s)
    ensures Component(s)
  {
    assert forall k :: 0 <= k < |s| ==> IsIdentChar(s[k]) && s[k] != '.';
  }

  lemma {:induction false} KeysOfTokensV(v: Value)
    requires GoodIdents(TokensV(v))
    ensures KeysV(v)
  {
    match v
    case VStr(_) =>
    case VList(items) =>
      assert forall t :: t in TokensI(items) ==> t in TokensV(v);
      KeysOfTokensI(items);
    case VMap(doc) =>
      assert forall t :: t in TokensD(doc) ==> t in TokensV(v);
      KeysOfTokensD(doc);
  }

  lemma {:induction false} KeysOfTokensI(items: Items)
    requires GoodIdents(TokensI(items))
    ensures KeysI(items)
  {
    match items
    case INil =>
    case IComma(rest) =>
      assert forall t :: t in TokensI(rest) ==> t in TokensI(items);
      KeysOfTokensI(rest);
    case IElem(v, rest) =>
      assert forall t :: t in TokensV(v) || t in TokensI(rest) ==> t in TokensI(items);
      KeysOfTokensV(v);
      KeysOfTokensI(rest);
  }

  lemma {:induction false} KeysOfTokensD(doc: Doc)
    requires GoodIdents(TokensD(doc))
    ensures KeysD(doc)
  {
    match doc
    case DNil =>
    case DCons(k, v, rest) =>
      assert TokensD(doc)[0] == Ident(k) && TokensD(doc)[0] in TokensD(doc);
      assert forall t :: t in TokensV(v) || t in TokensD(rest) ==> t in TokensD(doc);
      KeysOfTokensV(v);
      KeysOfTokensD(rest);
  }

  lemma IdentsGood(src: string)
    requires Tokenize(src).Some?
    ensures GoodIdents(Tokenize(src).value)
  {
    var toks := Tokenize(src).value;
    forall t | t in toks && t.Ident?
      ensures Component(t.name)
    {
      var k :| 0 <= k < |toks| && toks[k] == t;
      TokenizedIdents(src, k);
      IdentTextIsComponent(t.name);
    }
  }

  /** What the tokens of a tree load as: the values it emits, unless an index push leaves the
      buffer. They are its flattening exactly when no string stands in or behind an eleventh
      list item and none does. */
  lemma LoadOfDoc(src: string, doc: Doc)
    requires Tokenize(src) == Some(TokensD(doc))
    ensures KeysD(doc)
    ensures Load(src) == if Stray(doc) then OutOfBuffer else Values(EmitD(doc, "").out)
    ensures Load(src) == Values(FlatD(doc, "")) <==> Clean(doc) && !Stray(doc)
  {
    IdentsGood(src);
    KeysOfTokensD(doc);
    AcceptedOutput(doc);
    EmittedIsFlat(doc);
    StrayExact(doc);
  }

  /** A text is loaded exactly when its tokens are those of a tree none of whose index pushes
      leaves the buffer; its values are then those of LoadOfDoc. */
  lemma LoadIsFlattening(src: string)
    ensures Load(src).Values? <==> exists doc :: Tokenize(src) == Some(TokensD(doc)) && !Stray(doc)
    ensures forall doc :: Tokenize(src) == Some(TokensD(doc)) ==>
              && Load(src) == (if Stray(doc) then OutOfBuffer else Values(EmitD(doc, "").out))
              && (Load(src) == Values(FlatD(doc, "")) <==> Clean(doc) && !Stray(doc))
  {
    forall doc | Tokenize(src) == Some(TokensD(doc))
      ensures Load(src) == if Stray(doc) then OutOfBuffer else Values(EmitD(doc, "").out)
      ensures Load(src) == Values(FlatD(doc, "")) <==> Clean(doc) && !Stray(doc)
    {
      LoadOfDoc(src, doc);
    }
    if Load(src).Values? {
      AcceptsIsGrammar(ReadAll(src).toks);
    }
  }

  // ---------- writing a tree and loading it back ----------

  lemma {:induction false} DocTokensShapeV(v: Value)
    ensures TokensV(v) != [] && KeysThenEquals(TokensV(v))
  {
    match v
    case VStr(_) =>
    case VList(items) => DocTokensShapeI(items);
    case VMap(doc) => DocTokensShapeD(doc);
  }

  lemma {:induction false} DocTokensShapeI(items: Items)
    ensures KeysThenEquals(TokensI(items))
  {
    match items
    case INil =>
    case IComma(rest) => DocTokensShapeI(rest);
    case IElem(v, rest) => DocTokensShapeV(v); DocTokensShapeI(rest);
  }

  lemma {:induction false} DocTokensShapeD(doc: Doc)
    ensures KeysThenEquals(TokensD(doc))
  {
    match doc
    case DNil =>
    case DCons(k, v, rest) => DocTokensShapeV(v); DocTokensShapeD(rest);
  }

  /** Any text that writes the tokens of a tree, with any gaps and any spelling of its strings,
      loads as the values the tree emits: as its flattening, exactly for the clean trees. */
  lemma WriteThenLoad(doc: Doc, ps: seq<Piece>)
    requires WfPieces(ps) && Meaning(ps) == TokensD(doc)
    ensures Load(Write(ps)) == if Stray(doc) then OutOfBuffer else Values(EmitD(doc, "").out)
    ensures Load(Write(ps)) == Values(FlatD(doc, "")) <==> Clean(doc) && !Stray(doc)
  {
    DocTokensShapeD(doc);
    TokenizeWritten(ps);
    LoadOfDoc(Write(ps), doc);
  }

  // a printer: every tree with identifier keys can be written, whatever bytes its strings hold

  predicate NamedV(v: Value) {
    match v
    case VStr(_) => true
    case VList(items) => NamedI(items)
    case VMap(doc) => NamedD(doc)
  }

  predicate NamedI(items: Items) {
    match items
    case INil => true
    case IComma(rest) => NamedI(rest)
    case IElem(v, rest) => NamedV(v) && NamedI(rest)
  }

  predicate NamedD(doc: Doc) {
    match doc
    case DNil => true
    case DCons(k, v, rest) => IdentText(k) && NamedV(v) && NamedD(rest)
  }

  function PrintToken(t: Token): Piece {
    match t
    case Ident(n) => Name(n)
    case Str(s) => Quoted(Spell(s))
    case _ => Mark(t)
  }

  /** One token after the other, each followed by the same gap. */
  function PrintTokens(toks: seq<Token>, gap: seq<Piece>): seq<Piece> {
    if toks == [] then [] else [PrintToken(toks[0])] + gap + PrintTokens(toks[1..], gap)
  }

  lemma {:induction false} MeaningConcat(a: seq<Piece>, b: seq<Piece>)
    ensures Meaning(a + b) == Meaning(a) + Meaning(b)
  {
    if a == [] {
      assert a + b == b;
    } else {
      assert (a + b)[1..] == a[1..] + b;
      MeaningConcat(a[1..], b);
    }
  }

  lemma {:induction false} PrintedMeaning(toks: seq<Token>, gap: seq<Piece>)
    requires WfPieces(gap) && Meaning(gap) == []
    requires forall t :: t in toks && t.Ident? ==> IdentText(t.name)
    ensures WfPieces(PrintTokens(toks, gap)) && Meaning(PrintTokens(toks, gap)) == toks
  {
    if toks != [] {
      assert toks[0] in toks;
      PrintedMeaning(toks[1..], gap);
      MeaningConcat([PrintToken(toks[0])] + gap, PrintTokens(toks[1..], gap));
      MeaningConcat([PrintToken(toks[0])], gap);
      assert [PrintToken(toks[0])][1..] == [];
      assert Meaning([PrintToken(toks[0])]) == [toks[0]];
    }
  }

  lemma {:induction false} NamedTokensV(v: Value)
    requires NamedV(v)
    ensures forall t :: t in TokensV(v) && t.Ident? ==> IdentText(t.name)
  {
    match v
    case VStr(_) =>
    case VList(items) => NamedTokensI(items);
    case VMap(doc) => NamedTokensD(doc);
  }

  lemma {:induction false} NamedTokensI(items: Items)
    requires NamedI(items)
    ensures forall t :: t in TokensI(items) && t.Ident? ==> IdentText(t.name)
  {
    match items
    case INil =>
    case IComma(rest) => NamedTokensI(rest);
    case IElem(v, rest) => NamedTokensV(v); NamedTokensI(rest);
  }

  lemma {:induction false} NamedTokensD(doc: Doc)
    requires NamedD(doc)
    ensures forall t :: t in TokensD(doc) && t.Ident? ==> IdentText(t.name)
  {
    match doc
    case DNil =>
    case DCons(k, v, rest) => NamedTokensV(v); NamedTokensD(rest);
  }

  /** Printing a tree with short lists and loading the text returns its flattening. */
  lemma PrintThenLoad(doc: Doc, gap: seq<Piece>)
    requires NamedD(doc) && ShortD(doc)
    requires WfPieces(gap) && Meaning(gap) == []
    ensures Load(Write(PrintTokens(TokensD(doc), gap))) == Values(FlatD(doc, ""))
  {
    NamedTokensD(doc);
    PrintedMeaning(TokensD(doc), gap);
    WriteThenLoad(doc, PrintTokens(TokensD(doc), gap));
    ShortIsClean(doc);
    ShortNoStrayD(doc, 0);
  }

  // ---------- lists of strings, and the bound of ten items ----------

  function ListOf(texts: seq<string>): Items {
    if texts == [] then INil else IElem(VStr(texts[0]), ListOf(texts[1..]))
  }

  lemma {:induction false} ListClean(texts: seq<string>, i: nat)
    requires i <= 10
    ensures CleanI(ListOf(texts), false, i) <==> i + |texts| <= 10
    decreases |texts|
  {
    if texts != [] && i < 10 { ListClean(texts[1..], i + 1); }
  }

  lemma {:induction false} ListNamed(texts: seq<string>)
    ensures NamedI(ListOf(texts))
  {
    if texts != [] { ListNamed(texts[1..]); }
  }

  /** Behind the eleventh string of a list no component is left, until index 100 comes. */
  lemma {:induction false} ListStrayLate(texts: seq<string>, i: nat)
    requires 11 <= i <= 100
    ensures StrayI(ListOf(texts), 0, i) <==> i + |texts| > 100
    decreases |texts|
  {
    assert LeadingTen(i) <==> i == 100 by {
      LeadingTenSmall(i / 10);
    }
    if texts != [] && i < 100 { ListStrayLate(texts[1..], i + 1); }
  }

  lemma {:induction false} ListStray(texts: seq<string>, i: nat)
    requires i <= 10
    ensures StrayI(ListOf(texts), 1, i) <==> i + |texts| > 100
    decreases |texts|
  {
    LeadingTenSmall(i);
    if texts != [] && i < 10 {
      ListStray(texts[1..], i + 1);
    } else if texts != [] {
      ListStrayLate(texts[1..], i + 1);
    }
  }

  lemma {:induction false} ListFlat(texts: seq<string>, path: string, i: nat)
    ensures |FlatI(ListOf(texts), path, i)| == |texts|
    ensures forall k :: 0 <= k < |texts| ==>
              FlatI(ListOf(texts), path, i)[k] == (PushStr(path, Digits(i + k)), texts[k])
    decreases |texts|
  {
    hide PushStr, Digits;
    if texts != [] {
      var more := texts[1..];
      ListFlat(more, path, i + 1);
      assert FlatI(ListOf(texts), path, i) == [(PushStr(path, Digits(i)), texts[0])] + FlatI(ListOf(more), path, i + 1);
      forall k | 0 <= k < |texts|
        ensures FlatI(ListOf(texts), path, i)[k] == (PushStr(path, Digits(i + k)), texts[k])
      {
        if k > 0 { assert more[k - 1] == texts[k] && i + 1 + (k - 1) == i + k; }
      }
    }
  }

  /** Value k comes out under the key, a dot and a decimal text that reads as k. */
  ghost predicate KeyedByIndex(out: Pairs, key: string, texts: seq<string>) {
    |out| == |texts| && forall k :: 0 <= k < |texts| ==> out[k].1 == texts[k] && IndexedKey(out[k].0, key, k)
  }

  ghost predicate IndexedKey(name: string, key: string, k: nat) {
    exists t :: DecimalOf(t, k) && name == key + "." + t
  }

  lemma ListKeyed(key: string, texts: seq<string>)
    requires key != ""
    ensures KeyedByIndex(FlatD(DCons(key, VList(ListOf(texts)), DNil), ""), key, texts)
  {
    var out := FlatD(DCons(key, VList(ListOf(texts)), DNil), "");
    assert PushStr("", key) == key;
    assert FlatV(VList(ListOf(texts)), key) == FlatI(ListOf(texts), key, 0) && FlatD(DNil, "") == [];
    assert out == FlatI(ListOf(texts), key, 0) + [];
    ListFlat(texts, key, 0);
    forall k | 0 <= k < |texts|
      ensures out[k].1 == texts[k] && IndexedKey(out[k].0, key, k)
    {
      DigitsDecimal(k);
      assert out[k].0 == key + "." + Digits(k);
    }
  }

  /** A list of strings is loaded as its flattening up to ten items and never beyond: string k then
      comes out under the key of the list, a dot and k in decimal. From 101 items on it makes the
      parser leave its buffer. */
  lemma StringListBound(key: string, texts: seq<string>, gap: seq<Piece>)
    requires IdentText(key) && WfPieces(gap) && Meaning(gap) == []
    ensures var doc := DCons(key, VList(ListOf(texts)), DNil);
            var loaded := Load(Write(PrintTokens(TokensD(doc), gap)));
            && (loaded == Values(FlatD(doc, "")) <==> |texts| <= 10)
            && (|texts| <= 10 ==> loaded.Values? && KeyedByIndex(loaded.pairs, key, texts))
            && (loaded == OutOfBuffer <==> |texts| > 100)
  {
    ListDoc(key, texts);
    hide *;
    var doc := DCons(key, VList(ListOf(texts)), DNil);
    ListKeyed(key, texts);
    NamedTokensD(doc);
    PrintedMeaning(TokensD(doc), gap);
    WriteThenLoad(doc, PrintTokens(TokensD(doc), gap));
  }

  lemma ListDoc(key: string, texts: seq<string>)
    requires IdentText(key)
    ensures var doc := DCons(key, VList(ListOf(texts)), DNil);
            key != "" && NamedD(doc) && (Clean(doc) <==> |texts| <= 10) && (Stray(doc) <==> |texts| > 100)
  {
    ListClean(texts, 0);
    ListNamed(texts);
    ListStray(texts, 0);
    hide StrayI, CleanI, NamedI, ListOf, LeadingTen;
    assert StrayD(DCons(key, VList(ListOf(texts)), DNil), 0) == StrayI(ListOf(texts), 1, 0);
  }

  /** The eleventh item of a list comes out under a key without the last dot. */
  lemma EleventhKey(path: string, text: string)
    requires path != []
    ensures EmitI(IElem(VStr(text), INil), path, 10).out == [(path + "10", text)]
    ensures FlatI(IElem(VStr(text), INil), path, 10) == [(path + ".10", text)]
  {
    assert Digits(1) == "1" && Digits(10) == "1" + [DigitChar(0)];
    assert Digits(10) == "10";
    assert path + "." + "10" == path + ".10";
    assert (path + ".")[..|path|] == path;
  }
}
