/** Configuration documents as trees: the tokens they are written with, the flat list of
    (path, value) pairs they mean, and the list the parser's path arithmetic emits. */
module Grammar {
  import opened Text
  import opened Lexer

  /** A value is a string, a list whose items are mixed with ignored commas, or a map. */
  datatype Value = VStr(text: string) | VList(items: Items) | VMap(doc: Doc)
  datatype Items = INil | IComma(rest: Items) | IElem(value: Value, rest: Items)
  datatype Doc = DNil | DCons(key: string, value: Value, rest: Doc)

  // ---------- the tokens of a tree ----------

  function TokensV(v: Value): seq<Token> {
    match v
    case VStr(t) => [Str(t)]
    case VList(items) => [SOpen] + TokensI(items) + [SClose]
    case VMap(doc) => [BOpen] + TokensD(doc) + [BClose]
  }

  function TokensI(items: Items): seq<Token> {
    match items
    case INil => []
    case IComma(rest) => [Comma] + TokensI(rest)
    case IElem(v, rest) => TokensV(v) + TokensI(rest)
  }

  function TokensD(doc: Doc): seq<Token> {
    match doc
    case DNil => []
    case DCons(k, v, rest) => [Ident(k), Equals] + TokensV(v) + TokensD(rest)
  }

  // ---------- the flattening a reader of the file expects ----------

  type Pairs = seq<(string, string)>

  function FlatV(v: Value, path: string): Pairs {
    match v
    case VStr(t) => [(path, t)]
    case VList(items) => FlatI(items, path, 0)
    case VMap(doc) => FlatD(doc, path)
  }

  function FlatI(items: Items, path: string, i: nat): Pairs {
    match items
    case INil => []
    case IComma(rest) => FlatI(rest, path, i)
    case IElem(v, rest) => FlatV(v, PushStr(path, Digits(i))) + FlatI(rest, path, i + 1)
  }

  function FlatD(doc: Doc, path: string): Pairs {
    match doc
    case DNil => []
    case DCons(k, v, rest) => FlatV(v, PushStr(path, k)) + FlatD(rest, path)
  }

  // ---------- the list the path arithmetic of the parser produces ----------

  /** The emitted pairs and the path left behind. */
  datatype Emitted = Emitted(out: Pairs, path: string)

  /** The path of the value is already pushed; the value pops it. */
  function EmitV(v: Value, path: string): Emitted {
    match v
    case VStr(t) => Emitted([(path, t)], Pop(path))
    case VList(items) => var e := EmitI(items, path, 0); Emitted(e.out, Pop(e.path))
    case VMap(doc) => var e := EmitD(doc, path); Emitted(e.out, Pop(e.path))
  }

  function EmitI(items: Items, path: string, i: nat): Emitted {
    match items
    case INil => Emitted([], path)
    case IComma(rest) => EmitI(rest, path, i)
    case IElem(v, rest) =>
      var e := EmitV(v, PushInt(path, i));
      var r := EmitI(rest, e.path, i + 1);
      Emitted(e.out + r.out, r.path)
  }

  function EmitD(doc: Doc, path: string): Emitted {
    match doc
    case DNil => Emitted([], path)
    case DCons(k, v, rest) =>
      var e := EmitV(v, PushStr(path, k));
      var r := EmitD(rest, e.path);
      Emitted(e.out + r.out, r.path)
  }

  // ---------- well-formed keys ----------

  predicate KeysV(v: Value) {
    match v
    case VStr(_) => true
    case VList(items) => KeysI(items)
    case VMap(doc) => KeysD(doc)
  }

  predicate KeysI(items: Items) {
    match items
    case INil => true
    case IComma(rest) => KeysI(rest)
    case IElem(v, rest) => KeysV(v) && KeysI(rest)
  }

  /** Every key of the document is a path component: not empty and without a dot. */
  predicate KeysD(doc: Doc) {
    match doc
    case DNil => true
    case DCons(k, v, rest) => Component(k) && KeysV(v) && KeysD(rest)
  }

  // ---------- when the emitted list is the flattening ----------

  /** Whether an eleventh list item has been met once v is read; met says so before v. */
  predicate MetV(v: Value, met: bool) {
    match v
    case VStr(_) => met
    case VList(items) => MetI(items, met, 0)
    case VMap(doc) => MetD(doc, met)
  }

  predicate MetI(items: Items, met: bool, i: nat) {
    match items
    case INil => met
    case IComma(rest) => MetI(rest, met, i)
    case IElem(v, rest) => MetI(rest, MetV(v, met || i >= 10), i + 1)
  }

  predicate MetD(doc: Doc, met: bool) {
    match doc
    case DNil => met
    case DCons(_, v, rest) => MetD(rest, MetV(v, met))
  }

  /** No string stands in or behind an eleventh list item. */
  predicate CleanV(v: Value, met: bool) {
    match v
    case VStr(_) => !met
    case VList(items) => CleanI(items, met, 0)
    case VMap(doc) => CleanD(doc, met)
  }

  predicate CleanI(items: Items, met: bool, i: nat) {
    match items
    case INil => true
    case IComma(rest) => CleanI(rest, met, i)
    case IElem(v, rest) =>
      CleanV(v, met || i >= 10) && CleanI(rest, MetV(v, met || i >= 10), i + 1)
  }

  predicate CleanD(doc: Doc, met: bool) {
    match doc
    case DNil => true
    case DCons(_, v, rest) => CleanV(v, met) && CleanD(rest, MetV(v, met))
  }

  /** Statement by statement of the top level: no string in or behind an eleventh list item. */
  predicate Clean(doc: Doc) {
    match doc
    case DNil => true
    case DCons(_, v, rest) => CleanV(v, false) && Clean(rest)
  }

  /** No list of the document has more than ten items. */
  predicate ShortV(v: Value) {
    match v
    case VStr(_) => true
    case VList(items) => ShortI(items, 0)
    case VMap(doc) => ShortD(doc)
  }

  predicate ShortI(items: Items, i: nat) {
    match items
    case INil => true
    case IComma(rest) => ShortI(rest, i)
    case IElem(v, rest) => i < 10 && ShortV(v) && ShortI(rest, i + 1)
  }

  predicate ShortD(doc: Doc) {
    match doc
    case DNil => true
    case DCons(_, v, rest) => ShortV(v) && ShortD(rest)
  }

  // ---------- where the path goes ----------

  lemma LeadingTenSmall(i: nat)
    requires i <= 10
    ensures LeadingTen(i) <==> i == 10
  {
  }

  /** Whatever is read, the path left behind is a prefix of the one before the push. */
  lemma {:induction false} PathShrinksV(v: Value, path: string)
    requires KeysV(v)
    ensures EmitV(v, path).path <= Pop(path)
  {
    match v
    case VStr(_) =>
    case VList(items) =>
      PathShrinksI(items, path, 0);
      PopMonotone(EmitI(items, path, 0).path, path);
    case VMap(doc) =>
      PathShrinksD(doc, path);
      PopMonotone(EmitD(doc, path).path, path);
  }

  lemma {:induction false} PathShrinksI(items: Items, path: string, i: nat)
    requires KeysI(items)
    ensures EmitI(items, path, i).path <= path
  {
    hide PushInt, PushStr, Pop;
    match items
    case INil =>
    case IComma(rest) => PathShrinksI(rest, path, i);
    case IElem(v, rest) =>
      PathShrinksV(v, PushInt(path, i));
      PopPushInt(path, i);
      PathShrinksI(rest, EmitV(v, PushInt(path, i)).path, i + 1);
  }

  lemma {:induction false} PathShrinksD(doc: Doc, path: string)
    requires KeysD(doc)
    ensures EmitD(doc, path).path <= path
  {
    match doc
    case DNil =>
    case DCons(k, v, rest) =>
      PathShrinksV(v, PushStr(path, k));
      PopPush(path, k);
      PathShrinksD(rest, EmitV(v, PushStr(path, k)).path);
  }

  /** With no eleventh item before or inside, every push is undone; the first eleventh item
      costs the path one component more. */
  lemma {:induction false} PathExactV(v: Value, path: string)
    requires KeysV(v) && path != []
    ensures !MetV(v, false) ==> EmitV(v, path).path == Pop(path)
    ensures MetV(v, false) ==> EmitV(v, path).path <= Pop(Pop(path))
  {
    match v
    case VStr(_) =>
    case VList(items) =>
      PathExactI(items, path, 0);
      if MetV(v, false) { PopMonotone(EmitI(items, path, 0).path, Pop(path)); }
    case VMap(doc) =>
      PathExactD(doc, path);
      if MetV(v, false) { PopMonotone(EmitD(doc, path).path, Pop(path)); }
  }

  lemma {:induction false} MetStaysV(v: Value)
    ensures MetV(v, true)
  {
    match v
    case VStr(_) =>
    case VList(items) => MetStaysI(items, 0);
    case VMap(doc) => MetStaysD(doc);
  }

  lemma {:induction false} MetStaysI(items: Items, i: nat)
    ensures MetI(items, true, i)
  {
    match items
    case INil =>
    case IComma(rest) => MetStaysI(rest, i);
    case IElem(v, rest) => MetStaysV(v); MetStaysI(rest, i + 1);
  }

  lemma {:induction false} MetStaysD(doc: Doc)
    ensures MetD(doc, true)
  {
    match doc
    case DNil =>
    case DCons(_, v, rest) => MetStaysV(v); MetStaysD(rest);
  }

  lemma {:induction false} PathExactI(items: Items, path: string, i: nat)
    requires KeysI(items) && path != [] && i <= 10
    ensures !MetI(items, false, i) ==> EmitI(items, path, i).path == path
    ensures MetI(items, false, i) ==> EmitI(items, path, i).path <= Pop(path)
  {
    hide PushInt, PushStr, Pop;
    match items
    case INil =>
    case IComma(rest) => PathExactI(rest, path, i);
    case IElem(v, rest) =>
      LeadingTenSmall(i);
      PopPushInt(path, i);
      var e := EmitV(v, PushInt(path, i));
      if i == 10 {
        MetStaysV(v);
        MetStaysI(rest, i + 1);
        PathShrinksV(v, PushInt(path, i));
        PathShrinksI(rest, e.path, i + 1);
      } else {
        PathExactV(v, PushInt(path, i));
        if MetV(v, false) {
          MetStaysI(rest, i + 1);
          PathShrinksI(rest, e.path, i + 1);
        } else {
          PathExactI(rest, path, i + 1);
        }
      }
  }

  lemma {:induction false} PathExactD(doc: Doc, path: string)
    requires KeysD(doc) && path != []
    ensures !MetD(doc, false) ==> EmitD(doc, path).path == path
    ensures MetD(doc, false) ==> EmitD(doc, path).path <= Pop(path)
  {
    hide PushInt, PushStr, Pop;
    match doc
    case DNil =>
    case DCons(k, v, rest) =>
      PopPush(path, k);
      PathExactV(v, PushStr(path, k));
      if MetV(v, false) {
        MetStaysD(rest);
        PathShrinksD(rest, EmitV(v, PushStr(path, k)).path);
      } else {
        PathExactD(rest, path);
      }
  }

  // ---------- clean documents are flattened ----------

  /** Behind an eleventh item there is nothing to emit. */
  lemma {:induction false} SilentV(v: Value, p: string, q: string)
    requires CleanV(v, true)
    ensures EmitV(v, p).out == [] && FlatV(v, q) == []
  {
    match v
    case VList(items) => SilentI(items, p, q, 0);
    case VMap(doc) => SilentD(doc, p, q);
  }

  lemma {:induction false} SilentI(items: Items, p: string, q: string, i: nat)
    requires CleanI(items, true, i)
    ensures EmitI(items, p, i).out == [] && FlatI(items, q, i) == []
  {
    match items
    case INil =>
    case IComma(rest) => SilentI(rest, p, q, i);
    case IElem(v, rest) =>
      MetStaysV(v);
      SilentV(v, PushInt(p, i), PushStr(q, Digits(i)));
      SilentI(rest, EmitV(v, PushInt(p, i)).path, q, i + 1);
  }

  lemma {:induction false} SilentD(doc: Doc, p: string, q: string)
    requires CleanD(doc, true)
    ensures EmitD(doc, p).out == [] && FlatD(doc, q) == []
  {
    match doc
    case DNil =>
    case DCons(k, v, rest) =>
      MetStaysV(v);
      SilentV(v, PushStr(p, k), PushStr(q, k));
      SilentD(rest, EmitV(v, PushStr(p, k)).path, q);
  }

  lemma {:induction false} CleanFlatV(v: Value, path: string)
    requires KeysV(v) && path != [] && CleanV(v, false)
    ensures EmitV(v, path).out == FlatV(v, path)
  {
    match v
    case VStr(_) =>
    case VList(items) => CleanFlatI(items, path, 0);
    case VMap(doc) => CleanFlatD(doc, path);
  }

  lemma {:induction false} CleanFlatI(items: Items, path: string, i: nat)
    requires KeysI(items) && path != [] && i <= 10 && CleanI(items, false, i)
    ensures EmitI(items, path, i).out == FlatI(items, path, i)
  {
    hide PushInt, PushStr, Pop;
    match items
    case INil =>
    case IComma(rest) => CleanFlatI(rest, path, i);
    case IElem(v, rest) =>
      LeadingTenSmall(i);
      PopPushInt(path, i);
      var e := EmitV(v, PushInt(path, i));
      if i == 10 {
        MetStaysV(v);
        SilentV(v, PushInt(path, i), PushStr(path, Digits(i)));
        SilentI(rest, e.path, path, i + 1);
      } else {
        CleanFlatV(v, PushInt(path, i));
        PathExactV(v, PushInt(path, i));
        if MetV(v, false) {
          SilentI(rest, e.path, path, i + 1);
        } else {
          CleanFlatI(rest, path, i + 1);
        }
      }
  }

  lemma {:induction false} CleanFlatD(doc: Doc, path: string)
    requires KeysD(doc) && path != [] && CleanD(doc, false)
    ensures EmitD(doc, path).out == FlatD(doc, path)
  {
    hide PushInt, PushStr, Pop;
    match doc
    case DNil =>
    case DCons(k, v, rest) =>
      PopPush(path, k);
      CleanFlatV(v, PushStr(path, k));
      PathExactV(v, PushStr(path, k));
      if MetV(v, false) {
        SilentD(rest, EmitV(v, PushStr(path, k)).path, path);
      } else {
        CleanFlatD(rest, path);
      }
  }

  // ---------- unclean documents are not: their paths are too short ----------

  /** The total length of the emitted paths. */
  function KeyBytes(out: Pairs): nat {
    if out == [] then 0 else |out[0].0| + KeyBytes(out[1..])
  }

  lemma {:induction false} KeyBytesConcat(a: Pairs, b: Pairs)
    ensures KeyBytes(a + b) == KeyBytes(a) + KeyBytes(b)
  {
    if a == [] {
      assert a + b == b;
    } else {
      assert (a + b)[1..] == a[1..] + b;
      KeyBytesConcat(a[1..], b);
    }
  }

  /** p is the path as written, q the true one: equal until an eleventh item is met, shorter
      from then on. */
  predicate Behind(p: string, q: string, met: bool) {
    q != [] && |p| <= |q| && (if met then |p| < |q| else p == q)
  }

  lemma {:induction false} ShortfallV(v: Value, p: string, q: string, met: bool)
    requires KeysV(v) && Behind(p, q, met)
    ensures KeyBytes(EmitV(v, p).out) <= KeyBytes(FlatV(v, q))
    ensures !CleanV(v, met) ==> KeyBytes(EmitV(v, p).out) < KeyBytes(FlatV(v, q))
  {
    match v
    case VStr(_) =>
    case VList(items) => ShortfallI(items, p, q, met, 0);
    case VMap(doc) => ShortfallD(doc, p, q, met);
  }

  lemma {:induction false} ShortfallI(items: Items, p: string, q: string, met: bool, i: nat)
    requires KeysI(items) && Behind(p, q, met) && (met || i <= 10)
    ensures KeyBytes(EmitI(items, p, i).out) <= KeyBytes(FlatI(items, q, i))
    ensures !CleanI(items, met, i) ==> KeyBytes(EmitI(items, p, i).out) < KeyBytes(FlatI(items, q, i))
  {
    match items
    case INil =>
    case IComma(rest) => ShortfallI(rest, p, q, met, i);
    case IElem(v, rest) =>
      var pv, qv, met1 := PushInt(p, i), PushStr(q, Digits(i)), met || i >= 10;
      var e := EmitV(v, pv);
      BehindItem(p, q, met, i);
      ShortfallV(v, pv, qv, met1);
      BehindAfterItem(v, p, q, met, i);
      ShortfallI(rest, e.path, q, MetV(v, met1), i + 1);
      KeyBytesConcat(e.out, EmitI(rest, e.path, i + 1).out);
      KeyBytesConcat(FlatV(v, qv), FlatI(rest, q, i + 1));
  }

  lemma BehindItem(p: string, q: string, met: bool, i: nat)
    requires Behind(p, q, met) && (met || i <= 10)
    ensures Behind(PushInt(p, i), PushStr(q, Digits(i)), met || i >= 10)
  {
    PushIntLength(p, i);
    PopPushInt(p, i);
    if i <= 10 { LeadingTenSmall(i); }
  }

  lemma BehindAfterItem(v: Value, p: string, q: string, met: bool, i: nat)
    requires KeysV(v) && Behind(p, q, met) && (met || i <= 10)
    ensures Behind(EmitV(v, PushInt(p, i)).path, q, MetV(v, met || i >= 10))
    ensures MetV(v, met || i >= 10) || i + 1 <= 10
  {
    var pv := PushInt(p, i);
    PopPushInt(p, i);
    if i <= 10 { LeadingTenSmall(i); }
    PathShrinksV(v, pv);
    if met || i >= 10 { MetStaysV(v); } else { PathExactV(v, pv); }
  }

  lemma {:induction false} ShortfallD(doc: Doc, p: string, q: string, met: bool)
    requires KeysD(doc) && Behind(p, q, met)
    ensures KeyBytes(EmitD(doc, p).out) <= KeyBytes(FlatD(doc, q))
    ensures !CleanD(doc, met) ==> KeyBytes(EmitD(doc, p).out) < KeyBytes(FlatD(doc, q))
  {
    match doc
    case DNil =>
    case DCons(k, v, rest) =>
      var pv, qv := PushStr(p, k), PushStr(q, k);
      var e := EmitV(v, pv);
      PopPush(p, k);
      ShortfallV(v, pv, qv, met);
      PathShrinksV(v, pv);
      if met { MetStaysV(v); } else { PathExactV(v, pv); }
      ShortfallD(rest, e.path, q, MetV(v, met));
      KeyBytesConcat(e.out, EmitD(rest, e.path).out);
      KeyBytesConcat(FlatV(v, qv), FlatD(rest, q));
  }

  /** The emitted list is the flattening exactly for the clean documents, and the path is
      empty again after every statement of the top level. */
  lemma {:induction false} EmittedIsFlat(doc: Doc)
    requires KeysD(doc)
    ensures EmitD(doc, []).out == FlatD(doc, []) <==> Clean(doc)
    ensures KeyBytes(EmitD(doc, []).out) <= KeyBytes(FlatD(doc, []))
    ensures !Clean(doc) ==> KeyBytes(EmitD(doc, []).out) < KeyBytes(FlatD(doc, []))
    ensures EmitD(doc, []).path == []
  {
    match doc
    case DNil =>
    case DCons(k, v, rest) =>
      assert [] + k == k;
      PopPush([], k);
      PathShrinksV(v, k);
      EmittedIsFlat(rest);
      ShortfallV(v, k, k, false);
      KeyBytesConcat(EmitV(v, k).out, EmitD(rest, []).out);
      KeyBytesConcat(FlatV(v, k), FlatD(rest, []));
      if CleanV(v, false) { CleanFlatV(v, k); }
  }

  /** In particular, whenever no list has more than ten items. */
  lemma {:induction false} ShortIsClean(doc: Doc)
    requires ShortD(doc)
    ensures Clean(doc)
  {
    match doc
    case DNil =>
    case DCons(_, v, rest) =>
      ShortCleanV(v);
      ShortIsClean(rest);
  }

  lemma {:induction false} ShortCleanV(v: Value)
    requires ShortV(v)
    ensures CleanV(v, false) && !MetV(v, false)
  {
    match v
    case VStr(_) =>
    case VList(items) => ShortCleanI(items, 0);
    case VMap(doc) => ShortCleanD(doc);
  }

  lemma {:induction false} ShortCleanI(items: Items, i: nat)
    requires ShortI(items, i)
    ensures CleanI(items, false, i) && !MetI(items, false, i)
  {
    match items
    case INil =>
    case IComma(rest) => ShortCleanI(rest, i);
    case IElem(v, rest) => ShortCleanV(v); ShortCleanI(rest, i + 1);
  }

  lemma {:induction false} ShortCleanD(doc: Doc)
    requires ShortD(doc)
    ensures CleanD(doc, false) && !MetD(doc, false)
  {
    match doc
    case DNil =>
    case DCons(_, v, rest) => ShortCleanV(v); ShortCleanD(rest);
  }
}
