/** The index tree in memory: nodes linked by next and elements, changed in place by insertion
    and built from a flat value list whose keys are split at their dots. */
module TreeIndex {
  import opened Options
  import opened Text
  import opened Lexer
  import opened Grammar
  import opened Trees
  import opened Strays
  import opened Loading

  ghost function NodesOf(n: TreeNode?): Nodes
    reads n
  {
    if n == null then Nil else n.model
  }

  ghost function ReprOf(n: TreeNode?): set<TreeNode>
    reads n
  {
    if n == null then {} else n.repr
  }

  class TreeNode {
    const isString: bool
    const key: string
    const data: string
    var elements: TreeNode?
    var next: TreeNode?
    ghost var repr: set<TreeNode>
    ghost var model: Nodes

    ghost predicate Valid()
      reads this, repr
    {
      && this in repr
      && (next != null ==> next in repr && next.repr <= repr && this !in next.repr && next.Valid())
      && (elements != null ==> elements in repr && elements.repr <= repr && this !in elements.repr && elements.Valid())
      && ReprOf(next) !! ReprOf(elements)
      && (isString ==> elements == null)
      && model == if isString then Leaf(key, data, NodesOf(next)) else Inner(key, NodesOf(elements), NodesOf(next))
    }

    constructor (isString: bool, key: string, data: string, elements: TreeNode?, next: TreeNode?)
      requires next != null ==> next.Valid()
      requires elements != null ==> elements.Valid() && !isString
      requires ReprOf(next) !! ReprOf(elements)
      ensures Valid() && this.repr == {this} + ReprOf(elements) + ReprOf(next)
      ensures this.model == if isString then Leaf(key, data, NodesOf(next))
              else Inner(key, NodesOf(elements), NodesOf(next))
    {
      this.isString, this.key, this.data := isString, key, data;
      this.elements, this.next := elements, next;
      repr := {this} + ReprOf(elements) + ReprOf(next);
      model := if isString then Leaf(key, data, NodesOf(next)) else Inner(key, NodesOf(elements), NodesOf(next));
    }
  }

  /** The search loop: the first sibling with the key. */
  method FindSibling(head: TreeNode?, key: string) returns (n: TreeNode?)
    requires head != null ==> head.Valid()
    ensures n == null <==> !HasKey(NodesOf(head), key)
    ensures n != null ==> n.key == key
  {
    n := head;
    while n != null && n.key != key
      invariant n != null ==> n.Valid()
      invariant HasKey(NodesOf(head), key) <==> HasKey(NodesOf(n), key)
      decreases ReprOf(n)
    {
      n := n.next;
    }
  }

  /** lcfgx_tree_insert into the element list that starts at head; ok is false where the source
      would take a string node for a map. */
  method InsertList(head: TreeNode?, p: Path, data: string) returns (ok: bool, first: TreeNode?)
    requires head != null ==> head.Valid()
    requires p != []
    modifies ReprOf(head)
    ensures ok <==> Insert(p, data, old(NodesOf(head))).Some?
    ensures ok ==> first != null && first.Valid() && fresh(first.repr - old(ReprOf(head)))
    ensures ok ==> Some(first.model) == Insert(p, data, old(NodesOf(head)))
    decreases |p|, 1
  {
    var n := FindSibling(head, p[0]);
    if n == null {
      if |p| == 1 {
        first := new TreeNode(true, p[0], data, null, head);
        ok := true;
      } else {
        var sub;
        ok, sub := InsertList(null, p[1..], data);
        first := head;
        if ok {
          first := new TreeNode(false, p[0], "", sub, head);
        }
      }
    } else {
      first := head;
      ok := InsertBelow(head, p, data);
    }
  }

  /** The same below the sibling that has the key; the walk to it is the search loop again,
      taken recursively so that every sibling passed learns of its new nodes. */
  method InsertBelow(h: TreeNode, p: Path, data: string) returns (ok: bool)
    requires h.Valid() && p != [] && HasKey(h.model, p[0])
    modifies h.repr
    ensures ok <==> InsertAt(p, data, old(h.model)).Some?
    ensures ok ==> h.Valid() && fresh(h.repr - old(h.repr))
    ensures ok ==> Some(h.model) == InsertAt(p, data, old(h.model))
    decreases |p|, 0, h.repr
  {
    if h.key != p[0] {
      ok := InsertBelow(h.next, p, data);
      if ok {
        h.repr := h.repr + h.next.repr;
        h.model := h.model.(next := h.next.model);
      }
    } else if |p| == 1 {
      ok := true;
    } else if h.isString {
      ok := false;
    } else {
      var sub;
      ok, sub := InsertList(h.elements, p[1..], data);
      if ok {
        h.elements := sub;
        h.repr := h.repr + sub.repr;
        h.model := h.model.(elements := sub.model);
      }
    }
  }

  // ---------- keys and their components ----------

  /** The maximal runs without a dot: what strtok_r finds. */
  function Split(s: string): seq<string> {
    if s == [] then []
    else
      var d := RFind(s, '.');
      var front := if d == -1 then [] else Split(s[..d]);
      if d == |s| - 1 then front else front + [s[d + 1..]]
  }

  lemma SplitPush(front: string, key: string)
    requires Component(key)
    ensures Split(PushStr(front, key)) == (if front == [] then [] else Split(front)) + [key]
  {
    var s := PushStr(front, key);
    if front == [] {
      RFindIs(s, '.', -1);
      assert s[0..] == key;
    } else {
      RFindIs(s, '.', |front|);
      assert s[..|front|] == front && s[|front| + 1..] == key;
    }
  }

  lemma {:induction false} SplitJoin(comps: seq<string>)
    requires forall c :: c in comps ==> Component(c)
    ensures Split(Join(comps)) == comps
  {
    hide Split, PushStr;
    if comps == [] {
      SplitEmpty();
    } else {
      var init, last := comps[..|comps| - 1], comps[|comps| - 1];
      assert last in comps && comps == init + [last];
      SplitJoin(init);
      JoinSnoc(init, last);
      SplitPush(Join(init), last);
      if init != [] { JoinNonEmpty(init); }
    }
  }

  lemma SplitEmpty()
    ensures Split([]) == []
  {
  }

  lemma SplitDot(key: string, i: nat)
    requires i < |key| && key[i] == '.'
    ensures Split(key[..i + 1]) == Split(key[..i])
  {
    RFindIs(key[..i + 1], '.', i);
    assert key[..i + 1][..i] == key[..i];
  }

  lemma SplitRun(key: string, i: nat, j: nat)
    requires i < j <= |key| && (i == 0 || key[i - 1] == '.')
    requires forall k :: i <= k < j ==> key[k] != '.'
    ensures Split(key[..j]) == Split(key[..i]) + [key[i..j]]
  {
    var s := key[..j];
    RFindIs(s, '.', i - 1);
    assert s[i..] == key[i..j];
    if i > 0 {
      SplitDot(key, i - 1);
      assert s[..i - 1] == key[..i - 1];
    }
  }

  /** The strtok_r loop of lcfgx_tree_visitor. */
  method Components(key: string) returns (pathv: seq<string>)
    ensures pathv == Split(key)
  {
    hide Split;
    SplitEmpty();
    assert key[..0] == [];
    pathv := [];
    var i := 0;
    while i < |key|
      invariant 0 <= i <= |key|
      invariant pathv == Split(key[..i])
      invariant i == 0 || i == |key| || key[i] == '.' || key[i - 1] == '.'
    {
      if key[i] == '.' {
        SplitDot(key, i);
        i := i + 1;
      } else {
        var j := i;
        while j < |key| && key[j] != '.'
          invariant i <= j <= |key|
          invariant forall k :: i <= k < j ==> key[k] != '.'
        {
          j := j + 1;
        }
        SplitRun(key, i, j);
        pathv := pathv + [key[i..j]];
        i := j;
      }
    }
    assert key[..i] == key;
  }

  /** Keys as the parser makes them: components joined by dots. */
  ghost predicate DottedKey(key: string) {
    Split(key) != [] && Join(Split(key)) == key
  }

  ghost predicate AllDotted(pairs: Pairs) {
    forall k :: 0 <= k < |pairs| ==> DottedKey(pairs[k].0)
  }

  /** Every key has a component, so that a node can be named after it. */
  ghost predicate AllNamed(pairs: Pairs) {
    forall k :: 0 <= k < |pairs| ==> Split(pairs[k].0) != []
  }

  function EntriesOf(pairs: Pairs): (es: seq<Entry>)
    ensures AllNamed(pairs) ==> Paths(es)
    ensures |es| == |pairs|
    ensures forall k :: 0 <= k < |es| ==> es[k] == Entry(Split(pairs[k].0), pairs[k].1)
  {
    seq(|pairs|, k requires 0 <= k < |pairs| => Entry(Split(pairs[k].0), pairs[k].1))
  }

  /** The value of the first pair with the key. */
  function ValueOf(pairs: Pairs, key: string): Option<string> {
    if pairs == [] then None
    else if pairs[0].0 == key then Some(pairs[0].1)
    else ValueOf(pairs[1..], key)
  }

  /** lcfg_parser_get: the linear search over the values, for any key. */
  method Get(pairs: Pairs, key: string) returns (r: Option<string>)
    ensures r == ValueOf(pairs, key)
  {
    assert pairs[0..] == pairs;
    for i := 0 to |pairs|
      invariant ValueOf(pairs, key) == ValueOf(pairs[i..], key)
    {
      assert pairs[i..][1..] == pairs[i + 1..];
      if pairs[i].0 == key {
        return Some(pairs[i].1);
      }
    }
    r := None;
  }

  /** On dotted keys the search by key is the search by components. */
  lemma {:induction false} ValueIsLinear(pairs: Pairs, key: string)
    requires DottedKey(key) && AllDotted(pairs)
    ensures ValueOf(pairs, key) == Linear(EntriesOf(pairs), Split(key))
  {
    if pairs != [] {
      ValueIsLinear(pairs[1..], key);
      LinearFirst(pairs, Split(key));
      assert DottedKey(pairs[0].0);
    }
  }

  lemma {:induction false} LinearFirst(pairs: Pairs, p: Path)
    requires pairs != []
    ensures Linear(EntriesOf(pairs), p) ==
            if Split(pairs[0].0) == p then Some(pairs[0].1) else Linear(EntriesOf(pairs[1..]), p)
  {
    LinearSnoc(pairs, |pairs| - 1, p);
    assert pairs[..|pairs|] == pairs;
    if |pairs| > 1 {
      var init := pairs[..|pairs| - 1];
      LinearFirst(init, p);
      LinearSnoc(pairs[1..], |pairs| - 2, p);
      assert pairs[1..][..|pairs| - 1] == pairs[1..] && pairs[1..][..|pairs| - 2] == init[1..];
    } else {
      assert pairs[..0] == [] && pairs[1..] == [];
    }
  }

  lemma LinearSnoc(pairs: Pairs, i: nat, p: Path)
    requires i < |pairs|
    ensures Linear(EntriesOf(pairs[..i + 1]), p) ==
            match Linear(EntriesOf(pairs[..i]), p)
            case Some(d) => Some(d)
            case None => if Split(pairs[i].0) == p then Some(pairs[i].1) else None
  {
    assert EntriesOf(pairs[..i + 1])[..i] == EntriesOf(pairs[..i]);
  }

  /** lcfgx_tree_new: visit every value in order. */
  method NewTree(pairs: Pairs) returns (ok: bool, root: TreeNode?)
    requires AllNamed(pairs)
    ensures ok <==> Build(EntriesOf(pairs)).Some?
    ensures ok ==> (root != null ==> root.Valid() && fresh(root.repr)) && Some(NodesOf(root)) == Build(EntriesOf(pairs))
  {
    hide Split, Build, Insert, RFind;
    assert pairs[..0] == [] && Build(EntriesOf([])) == Some(Nil) by { BuildNone(); }
    root := null;
    ok := true;
    for i := 0 to |pairs|
      invariant root != null ==> root.Valid() && fresh(root.repr)
      invariant AllNamed(pairs[..i]) && ok && Some(NodesOf(root)) == Build(EntriesOf(pairs[..i]))
    {
      var pathv := Components(pairs[i].0);
      BuildSnoc(pairs, i);
      ok, root := InsertList(root, pathv, pairs[i].1);
      if !ok {
        BuildFails(pairs, i + 1);
        return;
      }
    }
    assert pairs[..|pairs|] == pairs;
  }

  lemma BuildNone()
    ensures Build(EntriesOf([])) == Some(Nil)
  {
  }

  lemma BuildSnoc(pairs: Pairs, i: nat)
    requires i < |pairs| && AllNamed(pairs)
    ensures AllNamed(pairs[..i]) && AllNamed(pairs[..i + 1])
    ensures Build(EntriesOf(pairs[..i + 1])) ==
            match Build(EntriesOf(pairs[..i]))
            case None => None
            case Some(ns) => Insert(Split(pairs[i].0), pairs[i].1, ns)
  {
    assert EntriesOf(pairs[..i + 1])[..i] == EntriesOf(pairs[..i]);
  }

  lemma {:induction false} BuildFails(pairs: Pairs, i: nat)
    requires i <= |pairs| && AllNamed(pairs)
    requires AllNamed(pairs[..i]) && Build(EntriesOf(pairs[..i])) == None
    ensures Build(EntriesOf(pairs)) == None
    decreases |pairs| - i
  {
    if i < |pairs| {
      BuildSnoc(pairs, i);
      BuildFails(pairs, i + 1);
    } else {
      assert pairs[..i] == pairs;
    }
  }

  // ---------- the values of a document ----------

  lemma JoinIsDotted(comps: seq<string>)
    requires comps != [] && forall c :: c in comps ==> Component(c)
    ensures DottedKey(Join(comps))
  {
    SplitJoin(comps);
  }

  lemma {:induction false} FlatDottedV(v: Value, comps: seq<string>)
    requires KeysV(v) && comps != [] && forall c :: c in comps ==> Component(c)
    ensures AllDotted(FlatV(v, Join(comps)))
  {
    match v
    case VStr(_) => JoinIsDotted(comps);
    case VList(items) => FlatDottedI(items, comps, 0);
    case VMap(doc) => FlatDottedD(doc, comps);
  }

  lemma {:induction false} FlatDottedI(items: Items, comps: seq<string>, i: nat)
    requires KeysI(items) && comps != [] && forall c :: c in comps ==> Component(c)
    ensures AllDotted(FlatI(items, Join(comps), i))
  {
    match items
    case INil =>
    case IComma(rest) => FlatDottedI(rest, comps, i);
    case IElem(v, rest) =>
      JoinSnoc(comps, Digits(i));
      FlatDottedV(v, comps + [Digits(i)]);
      FlatDottedI(rest, comps, i + 1);
  }

  /** Every key of a flattened document can be split and joined back, as the tree needs. */
  lemma {:induction false} FlatDottedD(doc: Doc, comps: seq<string>)
    requires KeysD(doc) && forall c :: c in comps ==> Component(c)
    ensures AllDotted(FlatD(doc, Join(comps)))
  {
    match doc
    case DNil =>
    case DCons(k, v, rest) =>
      JoinSnoc(comps, k);
      FlatDottedV(v, comps + [k]);
      FlatDottedD(rest, comps);
  }

  // ---------- the tree of a text that loads ----------

  /** The tree answers every dotted key as the linear search does. */
  ghost predicate TreeAnswers(pairs: Pairs)
    requires AllNamed(pairs)
  {
    var built := Build(EntriesOf(pairs));
    && built.Some?
    && forall key :: DottedKey(key) ==> Lookup(built.value, Split(key)) == ValueOf(pairs, key)
  }

  /** No key with a dot behind it begins another. */
  ghost predicate KeysFree(pairs: Pairs) {
    forall i, j :: 0 <= i < |pairs| && 0 <= j < |pairs| ==> !(pairs[i].0 + "." <= pairs[j].0)
  }

  lemma {:induction false} SplitConcat(a: string, r: string)
    ensures Split(a + "." + r) == Split(a) + Split(r)
    decreases |r|
  {
    hide Split;
    var s := a + "." + r;
    var d := RFind(r, '.');
    SplitLast(s);
    SplitLast(r);
    RFindIs(s, '.', |a| + 1 + d);
    if d == -1 {
      assert s[..|a|] == a && s[|a| + 1..] == r && r[0..] == r;
    } else {
      assert s[..|a| + 1 + d] == a + "." + r[..d] && s[|a| + 1 + d + 1..] == r[d + 1..];
      SplitConcat(a, r[..d]);
    }
  }

  /** The components in front of the last dot, and the one behind it. */
  lemma SplitLast(s: string)
    ensures var d := RFind(s, '.');
            && Split(s) == (if d == -1 then [] else Split(s[..d])) + (if d == |s| - 1 then [] else [s[d + 1..]])
  {
  }

  lemma {:induction false} JoinMore(xs: seq<string>, ys: seq<string>)
    requires xs != [] && ys != [] && forall c :: c in xs ==> Component(c)
    ensures Join(xs) + "." <= Join(xs + ys)
    decreases |ys|
  {
    var init, last := ys[..|ys| - 1], ys[|ys| - 1];
    assert xs + ys == (xs + init) + [last];
    JoinSnoc(xs + init, last);
    JoinNonEmpty(xs);
    if init == [] {
      assert xs + init == xs;
    } else {
      JoinMore(xs, init);
    }
  }

  /** On dotted keys, components before components is text before a dot. */
  lemma KeyPrefix(a: string, b: string)
    requires DottedKey(a) && DottedKey(b)
    ensures ProperPrefix(Split(a), Split(b)) <==> a + "." <= b
  {
    var xs := Split(a);
    SplitComponents(a);
    hide Split, Join, Component;
    if ProperPrefix(xs, Split(b)) {
      var ys := Split(b)[|xs|..];
      assert Split(b) == xs + ys;
      JoinMore(xs, ys);
    }
    if a + "." <= b {
      var r := b[|a| + 1..];
      assert b == a + "." + r;
      SplitConcat(a, r);
      assert Split(b) != xs;
      assert |Split(r)| == 0 ==> xs + Split(r) == xs;
    }
  }

  lemma {:induction false} SplitComponents(s: string)
    ensures forall c :: c in Split(s) ==> Component(c)
    decreases |s|
  {
    if s != [] {
      var d := RFind(s, '.');
      if d != -1 { SplitComponents(s[..d]); }
    }
  }

  lemma {:induction false} ValueFound(pairs: Pairs, i: nat)
    requires i < |pairs|
    ensures ValueOf(pairs, pairs[i].0).Some?
  {
    if i > 0 && pairs[0].0 != pairs[i].0 {
      assert pairs[1..][i - 1] == pairs[i];
      ValueFound(pairs[1..], i - 1);
    }
  }

  lemma KeysFreeEntries(pairs: Pairs)
    requires AllDotted(pairs)
    ensures KeysFree(pairs) <==> PrefixFree(EntriesOf(pairs))
  {
    hide DottedKey;
    var es := EntriesOf(pairs);
    forall i, j | 0 <= i < |pairs| && 0 <= j < |pairs|
      ensures ProperPrefix(es[i].path, es[j].path) <==> pairs[i].0 + "." <= pairs[j].0
    {
      KeyPrefix(pairs[i].0, pairs[j].0);
    }
    if !KeysFree(pairs) {
      var i, j :| 0 <= i < |pairs| && 0 <= j < |pairs| && pairs[i].0 + "." <= pairs[j].0;
      assert es[i] in es && es[j] in es && ProperPrefix(es[i].path, es[j].path);
    }
  }

  lemma TreeAnswersExact(pairs: Pairs)
    requires AllDotted(pairs) && AllNamed(pairs)
    ensures TreeAnswers(pairs) <==> KeysFree(pairs)
  {
    KeysFreeEntries(pairs);
    if KeysFree(pairs) {
      TreeIsLinear(EntriesOf(pairs));
      hide DottedKey, Split, RFind;
      forall key | DottedKey(key)
        ensures Lookup(Build(EntriesOf(pairs)).value, Split(key)) == ValueOf(pairs, key)
      {
        ValueIsLinear(pairs, key);
      }
    } else if TreeAnswers(pairs) {
      var i, j :| 0 <= i < |pairs| && 0 <= j < |pairs| && pairs[i].0 + "." <= pairs[j].0;
      ClashMisses(pairs, i, j);
    }
  }

  lemma ClashMisses(pairs: Pairs, i: nat, j: nat)
    requires AllDotted(pairs) && AllNamed(pairs)
    requires i < |pairs| && j < |pairs| && pairs[i].0 + "." <= pairs[j].0
    ensures !TreeAnswers(pairs)
  {
    var a, b := pairs[i].0, pairs[j].0;
    ValueFound(pairs, i);
    ValueFound(pairs, j);
    KeyPrefix(a, b);
    assert DottedKey(a) && DottedKey(b);
    if TreeAnswers(pairs) {
      hide Split, RFind, ValueOf, Build;
      NothingBelowValue(Build(EntriesOf(pairs)).value, Split(a), Split(b));
    }
  }

  lemma NamedIsDotted(key: string)
    requires Named(key)
    ensures DottedKey(key)
  {
    var n: nat :| n > 0 && Dotted(key, n);
    var comps :| |comps| == n && (forall k :: k in comps ==> Component(k)) && key == Join(comps);
    SplitJoin(comps);
  }

  /** Every text that loads has keys that can be split and joined back, clean or not, so that
      its tree is asked for; the tree is built and answers every key as the linear search does
      if and only if no key with a dot behind it begins another. */
  lemma LoadedTree(src: string)
    requires Load(src).Values?
    ensures var pairs := Load(src).pairs;
            AllDotted(pairs) && AllNamed(pairs) && (TreeAnswers(pairs) <==> KeysFree(pairs))
  {
    var pairs := Load(src).pairs;
    LoadIsFlattening(src);
    var doc :| Tokenize(src) == Some(TokensD(doc)) && !Stray(doc);
    LoadOfDoc(src, doc);
    DottedJoin([]);
    EmittedDottedD(doc, "", 0);
    forall k | 0 <= k < |pairs| ensures DottedKey(pairs[k].0) {
      NamedIsDotted(pairs[k].0);
    }
    TreeAnswersExact(pairs);
  }

  /** A map beside a string of the same name is a document the tree cannot index: the keys a
      and a.b. */
  lemma StringAndMapClash()
    ensures var doc := DCons("a", VStr("1"), DCons("a", VMap(DCons("b", VStr("2"), DNil)), DNil));
            FlatD(doc, "") == [("a", "1"), ("a.b", "2")]
    ensures Build([Entry(["a"], "1"), Entry(["a", "b"], "2")]) == None
    ensures Build([Entry(["a", "b"], "2"), Entry(["a"], "1")]).Some?
    ensures !Agrees([Entry(["a", "b"], "2"), Entry(["a"], "1")])
  {
    assert PushStr("", "a") == "a" && PushStr("a", "b") == "a.b";
    var e, f := Entry(["a"], "1"), Entry(["a", "b"], "2");
    assert ProperPrefix(e.path, f.path);
    AgreesFree([f, e], e, f);
    assert [e, f][..1] == [e] && [e][..0] == [];
    assert [f, e][..1] == [f] && [f][..0] == [];
    assert ["a", "b"][1..] == ["b"];
  }
}
