/** The index tree over the flat value list: insertion by path components, and its agreement
    with the linear first-match lookup. */
module Trees {
  import opened Options

  /** A sibling list; inner nodes hold their own sibling list. */
  datatype Nodes = Nil | Leaf(key: string, data: string, next: Nodes) | Inner(key: string, elements: Nodes, next: Nodes)

  type Path = seq<string>

  datatype Entry = Entry(path: Path, data: string)

  // ---------- insertion ----------

  /** lcfgx_tree_insert on a sibling list: the first sibling with the key decides, a missing one
      is put in front. None where the source would follow the element list of a string node. */
  function Insert(p: Path, data: string, ns: Nodes): Option<Nodes>
    requires p != []
    decreases |p|, 0
  {
    if !HasKey(ns, p[0]) then
      if |p| == 1 then Some(Leaf(p[0], data, ns))
      else
        match Insert(p[1..], data, Nil)
        case None => None
        case Some(sub) => Some(Inner(p[0], sub, ns))
    else InsertAt(p, data, ns)
  }

  /** Insertion at the sibling that has the first component as its key. */
  function InsertAt(p: Path, data: string, ns: Nodes): Option<Nodes>
    requires p != [] && HasKey(ns, p[0])
    decreases |p|, 0, ns
  {
    if ns.key == p[0] then
      if |p| == 1 then Some(ns)
      else if ns.Leaf? then None
      else
        match Insert(p[1..], data, ns.elements)
        case None => None
        case Some(sub) => Some(ns.(elements := sub))
    else
      match InsertAt(p, data, ns.next)
      case None => None
      case Some(rest) => Some(ns.(next := rest))
  }

  predicate HasKey(ns: Nodes, key: string) {
    !ns.Nil? && (ns.key == key || HasKey(ns.next, key))
  }

  /** What stands at a path: nothing, a string or an inner node. */
  datatype Kind = Absent | Value(data: string) | Branch

  /** Walking down from the first sibling with each component. */
  function At(ns: Nodes, p: Path): Kind
    requires p != []
    decreases |p|, ns
  {
    if ns.Nil? then Absent
    else if ns.key == p[0] then
      if |p| == 1 then (if ns.Leaf? then Value(ns.data) else Branch)
      else if ns.Leaf? then Absent else At(ns.elements, p[1..])
    else At(ns.next, p)
  }

  predicate ProperPrefix(p: Path, q: Path) {
    p <= q && p != q
  }

  /** The insertion goes through exactly when no string stands on the way. */
  ghost predicate WayFree(ns: Nodes, q: Path) {
    forall p :: p != [] && ProperPrefix(p, q) ==> !At(ns, p).Value?
  }

  lemma AtMissing(ns: Nodes, p: Path)
    requires p != [] && !HasKey(ns, p[0])
    ensures At(ns, p) == Absent
  {
  }

  /** The kind at p after inserting q. */
  function AfterInsert(was: Kind, p: Path, q: Path, data: string): Kind {
    if was != Absent || !(p <= q) then was else if p == q then Value(data) else Branch
  }

  lemma {:induction false} InsertAtPath(q: Path, data: string, ns: Nodes, p: Path)
    requires q != [] && p != []
    ensures Insert(q, data, ns).Some? ==> At(Insert(q, data, ns).value, p) == AfterInsert(At(ns, p), p, q, data)
    decreases |q|, 0
  {
    if !HasKey(ns, q[0]) {
      AtMissing(ns, q);
      if p[0] == q[0] { AtMissing(ns, p); }
      if |q| > 1 && |p| > 1 { InsertAtPath(q[1..], data, Nil, p[1..]); }
      PrefixTail(p, q);
    } else {
      InsertAtPathAt(q, data, ns, p);
    }
  }

  lemma PrefixTail(p: Path, q: Path)
    requires p != [] && q != []
    ensures p <= q <==> p[0] == q[0] && p[1..] <= q[1..]
    ensures p == q <==> p[0] == q[0] && p[1..] == q[1..]
  {
    assert p == [p[0]] + p[1..] && q == [q[0]] + q[1..];
  }

  lemma {:induction false} InsertAtPathAt(q: Path, data: string, ns: Nodes, p: Path)
    requires q != [] && p != [] && HasKey(ns, q[0])
    ensures InsertAt(q, data, ns).Some? ==> At(InsertAt(q, data, ns).value, p) == AfterInsert(At(ns, p), p, q, data)
    decreases |q|, 0, ns
  {
    PrefixTail(p, q);
    if ns.key == q[0] {
      if |q| > 1 && |p| > 1 && ns.Inner? { InsertAtPath(q[1..], data, ns.elements, p[1..]); }
    } else {
      InsertAtPathAt(q, data, ns.next, p);
    }
  }

  lemma {:induction false} InsertFits(q: Path, data: string, ns: Nodes)
    requires q != []
    ensures Insert(q, data, ns).Some? <==> WayFree(ns, q)
    decreases |q|, 0
  {
    if !HasKey(ns, q[0]) {
      forall p | p != [] && ProperPrefix(p, q)
        ensures !At(ns, p).Value?
      {
        AtMissing(ns, p);
      }
      if |q| > 1 {
        InsertFits(q[1..], data, Nil);
        assert WayFree(Nil, q[1..]);
      }
    } else {
      InsertFitsAt(q, data, ns);
    }
  }

  lemma {:induction false} InsertFitsAt(q: Path, data: string, ns: Nodes)
    requires q != [] && HasKey(ns, q[0])
    ensures InsertAt(q, data, ns).Some? <==> WayFree(ns, q)
    decreases |q|, 0, ns
  {
    if ns.key != q[0] {
      InsertFitsAt(q, data, ns.next);
      forall p | p != [] && ProperPrefix(p, q)
        ensures At(ns, p) == At(ns.next, p)
      {
        PrefixTail(p, q);
      }
    } else if |q| > 1 {
      if ns.Leaf? {
        var p := [q[0]];
        assert ProperPrefix(p, q) && At(ns, p).Value?;
      } else {
        InsertFits(q[1..], data, ns.elements);
        WayBelow(ns, q);
      }
    }
  }

  /** The way to q is free below the first node exactly when it is free in its elements. */
  lemma WayBelow(ns: Nodes, q: Path)
    requires ns.Inner? && |q| > 1 && ns.key == q[0]
    ensures WayFree(ns, q) <==> WayFree(ns.elements, q[1..])
  {
    if WayFree(ns, q) {
      forall p | p != [] && ProperPrefix(p, q[1..])
        ensures !At(ns.elements, p).Value?
      {
        var p' := [q[0]] + p;
        assert p'[1..] == p;
        PrefixTail(p', q);
        assert ProperPrefix(p', q);
        assert At(ns, p') == At(ns.elements, p);
      }
    }
    if WayFree(ns.elements, q[1..]) {
      forall p | p != [] && ProperPrefix(p, q)
        ensures !At(ns, p).Value?
      {
        PrefixTail(p, q);
        if |p| > 1 { assert ProperPrefix(p[1..], q[1..]); }
      }
    }
  }

  // ---------- sibling keys stay distinct ----------

  predicate DistinctKeys(ns: Nodes) {
    ns.Nil? || (!HasKey(ns.next, ns.key) && DistinctKeys(ns.next) && (ns.Inner? ==> DistinctKeys(ns.elements)))
  }

  lemma {:induction false} InsertKeepsDistinct(p: Path, data: string, ns: Nodes)
    requires p != [] && DistinctKeys(ns)
    ensures Insert(p, data, ns).Some? ==> DistinctKeys(Insert(p, data, ns).value)
    decreases |p|, 0
  {
    if HasKey(ns, p[0]) {
      InsertAtKeepsDistinct(p, data, ns);
    } else if |p| > 1 {
      InsertKeepsDistinct(p[1..], data, Nil);
    }
  }

  lemma {:induction false} InsertAtKeepsDistinct(p: Path, data: string, ns: Nodes)
    requires p != [] && HasKey(ns, p[0]) && DistinctKeys(ns)
    ensures InsertAt(p, data, ns).Some? ==>
              DistinctKeys(InsertAt(p, data, ns).value) &&
              forall k :: HasKey(InsertAt(p, data, ns).value, k) <==> HasKey(ns, k)
    decreases |p|, 0, ns
  {
    if ns.key == p[0] {
      if |p| > 1 && ns.Inner? { InsertKeepsDistinct(p[1..], data, ns.elements); }
    } else {
      InsertAtKeepsDistinct(p, data, ns.next);
    }
  }

  // ---------- building from a list of entries ----------

  /** lcfgx_tree_new: all entries in order; None as soon as a string node is taken for a map. */
  function Build(es: seq<Entry>): Option<Nodes>
    requires forall e :: e in es ==> e.path != []
  {
    if es == [] then Some(Nil)
    else
      match Build(es[..|es| - 1])
      case None => None
      case Some(ns) =>
        assert es[|es| - 1] in es;
        Insert(es[|es| - 1].path, es[|es| - 1].data, ns)
  }

  /** lcfg_parser_get: the data of the first entry with the path. */
  function Linear(es: seq<Entry>, p: Path): Option<string> {
    if es == [] then None
    else
      match Linear(es[..|es| - 1], p)
      case Some(d) => Some(d)
      case None => if es[|es| - 1].path == p then Some(es[|es| - 1].data) else None
  }

  /** Looking the path up in the tree. */
  function Lookup(ns: Nodes, p: Path): Option<string>
    requires p != []
  {
    match At(ns, p)
    case Value(d) => Some(d)
    case _ => None
  }

  /** No entry's path is a proper prefix of another's. */
  ghost predicate PrefixFree(es: seq<Entry>) {
    forall e, f :: e in es && f in es ==> !ProperPrefix(e.path, f.path)
  }

  ghost predicate Paths(es: seq<Entry>) {
    forall e :: e in es ==> e.path != []
  }

  /** The tree answers every lookup as the linear search does. */
  ghost predicate Agrees(es: seq<Entry>)
    requires Paths(es)
  {
    Build(es).Some? && forall p :: p != [] ==> Lookup(Build(es).value, p) == Linear(es, p)
  }

  lemma LinearFound(es: seq<Entry>, p: Path)
    ensures Linear(es, p).Some? <==> exists e :: e in es && e.path == p
  {
    if es != [] {
      var init, last := es[..|es| - 1], es[|es| - 1];
      assert es == init + [last];
      LinearFound(init, p);
    }
  }

  /** A branch stands exactly where a longer entry passes and no entry of that path came first. */
  lemma {:induction false} TreeShape(es: seq<Entry>, p: Path)
    requires Paths(es) && Build(es).Some? && p != []
    ensures At(Build(es).value, p).Branch? ==> exists e :: e in es && ProperPrefix(p, e.path)
    ensures At(Build(es).value, p).Value? ==> exists e :: e in es && e.path == p
    ensures At(Build(es).value, p) == Absent ==> forall e :: e in es ==> !(p <= e.path)
  {
    if es != [] {
      var init, last := es[..|es| - 1], es[|es| - 1];
      assert es == init + [last];
      TreeShape(init, p);
      InsertAtPath(last.path, last.data, Build(init).value, p);
      assert last in es;
    }
  }

  /** On prefix-free entries the tree is built and agrees with the linear search. */
  lemma {:induction false} FreeAgrees(es: seq<Entry>)
    requires Paths(es) && PrefixFree(es)
    ensures Agrees(es)
  {
    if es == [] {
    } else {
      var init, last := es[..|es| - 1], es[|es| - 1];
      assert es == init + [last] && last in es;
      FreeAgrees(init);
      var ns := Build(init).value;
      forall p | p != [] && ProperPrefix(p, last.path)
        ensures !At(ns, p).Value?
      {
        TreeShape(init, p);
      }
      InsertFits(last.path, last.data, ns);
      forall p | p != []
        ensures Lookup(Build(es).value, p) == Linear(es, p)
      {
        InsertAtPath(last.path, last.data, ns, p);
        TreeShape(init, p);
        LinearFound(init, p);
      }
    }
  }

  /** One proper prefix among the entries and the tree fails or misses a key. */
  lemma {:induction false} AgreesFree(es: seq<Entry>, e: Entry, f: Entry)
    requires Paths(es) && e in es && f in es && ProperPrefix(e.path, f.path)
    ensures !Agrees(es)
  {
    if Agrees(es) {
      var ns := Build(es).value;
      LinearFound(es, e.path);
      LinearFound(es, f.path);
      assert Lookup(ns, e.path).Some? && Lookup(ns, f.path).Some?;
      NothingBelowValue(ns, e.path, f.path);
    }
  }

  lemma {:induction false} NothingBelowValue(ns: Nodes, p: Path, q: Path)
    requires p != [] && ProperPrefix(p, q) && At(ns, p).Value?
    ensures At(ns, q) == Absent
    decreases |p|, ns
  {
    PrefixTail(p, q);
    if ns.key == p[0] {
      if |p| > 1 { NothingBelowValue(ns.elements, p[1..], q[1..]); }
    } else {
      NothingBelowValue(ns.next, p, q);
    }
  }

  /** The tree can be built and answers every lookup like the linear search if and only if no
      key is a proper dotted prefix of another; duplicates are no obstacle. */
  lemma TreeIsLinear(es: seq<Entry>)
    requires Paths(es)
    ensures Agrees(es) <==> PrefixFree(es)
  {
    if PrefixFree(es) {
      FreeAgrees(es);
    } else {
      var e, f :| e in es && f in es && ProperPrefix(e.path, f.path);
      AgreesFree(es, e, f);
    }
  }

  lemma {:induction false} BuiltDistinct(es: seq<Entry>)
    requires Paths(es)
    ensures Build(es).Some? ==> DistinctKeys(Build(es).value)
  {
    if es != [] {
      var init, last := es[..|es| - 1], es[|es| - 1];
      assert last in es && forall e :: e in init ==> e in es;
      BuiltDistinct(init);
      if Build(init).Some? { InsertKeepsDistinct(last.path, last.data, Build(init).value); }
    }
  }
}
