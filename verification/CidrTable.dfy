/** The table of prefix sizes in use: thirty bytes in descending order, zeros behind. */
module CidrTable {

  const TABLE_SIZE: nat := 30

  /** add_cidr_size: the size is carried along, changing places with every smaller one. */
  function Add(t: seq<nat>, size: nat): seq<nat> {
    if t == [] then []
    else if t[0] == 0 then [size] + t[1..]
    else if t[0] < size then [size] + Add(t[1..], t[0])
    else [t[0]] + Add(t[1..], size)
  }

  /** The loop of del_cidr_size: a size that is met is overwritten by its neighbour, which is then
      met in turn. */
  function Shift(t: seq<nat>, size: nat): seq<nat> {
    if |t| <= 1 || t[0] == 0 then t
    else if t[0] == size then [t[1]] + Shift(t[1..], t[1])
    else [t[0]] + Shift(t[1..], size)
  }

  /** del_cidr_size: the last entry is cleared in any case. */
  function Del(t: seq<nat>, size: nat): seq<nat>
    requires t != []
    ensures |Del(t, size)| == |t|
  {
    ShiftLength(t, size);
    Shift(t, size)[|t| - 1 := 0]
  }

  lemma {:induction false} ShiftLength(t: seq<nat>, size: nat)
    ensures |Shift(t, size)| == |t|
  {
    if |t| > 1 && t[0] != 0 {
      ShiftLength(t[1..], if t[0] == size then t[1] else size);
    }
  }

  method AddSize(cidr: array<nat>, size: nat)
    requires cidr.Length == TABLE_SIZE
    modifies cidr
    ensures cidr[..] == Add(old(cidr[..]), size)
  {
    hide Add;
    ghost var t := cidr[..];
    var carried, i := size, 0;
    assert [] + Add(t[0..], size) == Add(t, size) by { assert t[0..] == t; }
    while i < TABLE_SIZE && cidr[i] != 0
      invariant 0 <= i <= TABLE_SIZE && cidr[i..] == t[i..]
      invariant cidr[..i] + Add(t[i..], carried) == Add(t, size)
    {
      assert cidr[i..][0] == cidr[i];
      AddStep(cidr[..i], t, i, carried);
      ghost var done := cidr[..i];
      if cidr[i] < carried {
        var next := cidr[i];
        cidr[i] := carried;
        carried := next;
      }
      i := i + 1;
      assert cidr[..i] == done + [cidr[i - 1]];
      assert cidr[i..] == t[i..];
    }
    ghost var last := cidr[..];
    assert last[i..] == t[i..] && last[..i] == cidr[..i];
    AddEnd(last, t, i, carried);
    if i < TABLE_SIZE {
      cidr[i] := carried;
      assert cidr[..] == last[i := carried];
    }
  }

  lemma AddStep(done: seq<nat>, t: seq<nat>, i: nat, carried: nat)
    requires i < |t| && t[i] != 0
    ensures done + Add(t[i..], carried) ==
            if t[i] < carried then (done + [carried]) + Add(t[i + 1..], t[i])
              else (done + [t[i]]) + Add(t[i + 1..], carried)
  {
    assert t[i..][0] == t[i] && t[i..][1..] == t[i + 1..];
  }

  lemma AddEnd(last: seq<nat>, t: seq<nat>, i: nat, carried: nat)
    requires i <= |t| == |last| && last[i..] == t[i..] && (i < |t| ==> last[i] == 0)
    ensures last[..i] + Add(t[i..], carried) == if i == |t| then last else last[i := carried]
  {
    if i < |t| {
      assert t[i..][0] == last[i..][0] == 0 && t[i..][1..] == last[i..][1..];
      assert last[i := carried] == last[..i] + ([carried] + last[i..][1..]);
    } else {
      assert t[i..] == [] && last[..i] + [] == last;
    }
  }

  method DelSize(cidr: array<nat>, size: nat)
    requires cidr.Length == TABLE_SIZE
    modifies cidr
    ensures cidr[..] == Del(old(cidr[..]), size)
  {
    hide Shift;
    ghost var t := cidr[..];
    var wanted, i := size, 0;
    assert [] + Shift(t[0..], size) == Shift(t, size) by { assert t[0..] == t; }
    while i < TABLE_SIZE - 1 && cidr[i] != 0
      invariant 0 <= i < TABLE_SIZE && cidr[i..] == t[i..]
      invariant cidr[..i] + Shift(t[i..], wanted) == Shift(t, size)
    {
      assert cidr[i..][0] == cidr[i] && cidr[i..][1] == cidr[i + 1];
      ShiftStep(cidr[..i], t, i, wanted);
      ghost var done := cidr[..i];
      if cidr[i] == wanted {
        wanted := cidr[i + 1];
        cidr[i] := wanted;
      }
      i := i + 1;
      assert cidr[..i] == done + [cidr[i - 1]];
      assert cidr[i..] == t[i..];
    }
    assert cidr[i..][0] == cidr[i];
    ShiftEnd(t, i, wanted);
    assert cidr[..] == cidr[..i] + cidr[i..];
    cidr[TABLE_SIZE - 1] := 0;
  }

  lemma ShiftStep(done: seq<nat>, t: seq<nat>, i: nat, wanted: nat)
    requires i + 1 < |t| && t[i] != 0
    ensures done + Shift(t[i..], wanted) ==
            if t[i] == wanted then (done + [t[i + 1]]) + Shift(t[i + 1..], t[i + 1])
            else (done + [t[i]]) + Shift(t[i + 1..], wanted)
  {
    assert t[i..][0] == t[i] && t[i..][1] == t[i + 1] && t[i..][1..] == t[i + 1..];
  }

  lemma ShiftEnd(t: seq<nat>, i: nat, wanted: nat)
    requires i < |t| && (i == |t| - 1 || t[i] == 0)
    ensures Shift(t[i..], wanted) == t[i..]
  {
    assert t[i..][0] == t[i];
  }

  // ---------- what the loops do to a table ----------

  ghost predicate Descending(t: seq<nat>) {
    forall i, j :: 0 <= i < j < |t| ==> t[i] >= t[j]
  }

  /** No size twice. */
  ghost predicate Strict(t: seq<nat>) {
    forall i, j :: 0 <= i < j < |t| && t[i] != 0 ==> t[i] > t[j]
  }

  /** How many entries are at least size. */
  function Place(t: seq<nat>, size: nat): (p: nat)
    ensures p <= |t|
    ensures p < |t| ==> t[p] < size
    ensures forall i :: 0 <= i < p ==> t[i] >= size
  {
    if t == [] || t[0] < size then 0 else 1 + Place(t[1..], size)
  }

  /** The first entry of a size, or the length. */
  function Index(t: seq<nat>, size: nat): (k: nat)
    ensures k <= |t|
    ensures k < |t| ==> t[k] == size
    ensures forall i :: 0 <= i < k ==> t[i] != size
  {
    if t == [] || t[0] == size then 0 else 1 + Index(t[1..], size)
  }

  /** Nothing in front of it is smaller: the size goes first and the last entry drops out. */
  lemma {:induction false} AddFirst(t: seq<nat>, size: nat)
    requires Descending(t) && t != [] && size >= t[0] && size > 0
    ensures Add(t, size) == [size] + t[..|t| - 1]
  {
    if t[0] == 0 {
      assert forall i :: 0 <= i < |t| ==> t[i] == 0;
      assert t[1..] == t[..|t| - 1];
    } else if |t| > 1 {
      var carried := if t[0] < size then t[0] else size;
      AddFirst(t[1..], carried);
      assert [t[0]] + t[1..][..|t| - 2] == t[..|t| - 1];
    } else {
      assert Add(t[1..], if t[0] < size then t[0] else size) == [];
    }
  }

  /** A size goes behind all that are at least as large, and the last entry drops out. */
  lemma {:induction false} AddIs(t: seq<nat>, size: nat)
    requires Descending(t) && size > 0
    ensures var p := Place(t, size);
            Add(t, size) == if p == |t| then t else t[..p] + [size] + t[p..|t| - 1]
  {
    if t != [] {
      if t[0] < size {
        AddFirst(t, size);
        assert Place(t, size) == 0;
      } else {
        AddIs(t[1..], size);
        AddKept(t, size);
        hide Place, Add, Descending;
      }
    }
  }

  lemma AddKept(t: seq<nat>, size: nat)
    requires t != [] && t[0] >= size > 0
    ensures Add(t, size) == [t[0]] + Add(t[1..], size)
    ensures Place(t, size) == 1 + Place(t[1..], size)
    ensures var p := Place(t[1..], size);
            if p == |t| - 1 then [t[0]] + t[1..] == t
            else [t[0]] + (t[1..][..p] + [size] + t[1..][p..|t| - 2]) == t[..p + 1] + [size] + t[p + 1..|t| - 1]
  {
    PlaceNext(t, size);
    AddNext(t, size);
    hide Place, Add;
    var p := Place(t[1..], size);
    if p < |t| - 1 { Middle(t, p, size); }
  }

  lemma AddNext(t: seq<nat>, size: nat)
    requires t != [] && t[0] >= size > 0
    ensures Add(t, size) == [t[0]] + Add(t[1..], size)
  {
  }

  lemma Middle(t: seq<nat>, p: nat, size: nat)
    requires p + 1 < |t|
    ensures [t[0]] + (t[1..][..p] + [size] + t[1..][p..|t| - 2]) == t[..p + 1] + [size] + t[p + 1..|t| - 1]
  {
    TailPart(t, p, |t| - 1);
  }

  lemma PlaceNext(t: seq<nat>, size: nat)
    requires t != [] && t[0] >= size
    ensures Place(t, size) == 1 + Place(t[1..], size)
  {
  }

  lemma TailPart(t: seq<nat>, p: nat, m: nat)
    requires p < m < |t| + 1
    ensures t[1..][p..m - 1] == t[p + 1..m] && [t[0]] + t[1..][..p] == t[..p + 1]
  {
  }

  /** A first entry that is met: all entries move up, the last one stays where it was as well. */
  lemma {:induction false} ShiftFirst(t: seq<nat>)
    requires Descending(t) && t != [] && t[0] > 0
    ensures Shift(t, t[0]) == t[1..] + [t[|t| - 1]]
  {
    if |t| > 1 {
      if t[1] == 0 {
        assert forall i :: 1 <= i < |t| ==> t[i] == 0;
        assert [t[1]] + t[1..] == t[1..] + [t[|t| - 1]];
      } else {
        ShiftFirst(t[1..]);
      }
    }
  }

  lemma {:induction false} ShiftIs(t: seq<nat>, size: nat)
    requires Descending(t) && size > 0
    ensures var k := Index(t, size);
            Shift(t, size) == if k == |t| then t else t[..k] + t[k + 1..] + [t[|t| - 1]]
  {
    if t != [] {
      if t[0] == size {
        ShiftFirst(t);
        assert Index(t, size) == 0 && t[..0] == [];
      } else if t[0] == 0 {
        assert forall i :: 0 <= i < |t| ==> t[i] == 0;
        assert Index(t, size) == |t|;
      } else {
        ShiftIs(t[1..], size);
        ShiftKept(t, size);
        hide Index, Shift, Descending;
      }
    }
  }

  lemma ShiftKept(t: seq<nat>, size: nat)
    requires t != [] && t[0] != size && t[0] != 0
    ensures Shift(t, size) == [t[0]] + Shift(t[1..], size)
    ensures Index(t, size) == 1 + Index(t[1..], size)
    ensures var k := Index(t[1..], size);
            if k == |t| - 1 then [t[0]] + t[1..] == t
            else [t[0]] + (t[1..][..k] + t[1..][k + 1..] + [t[|t| - 1]]) == t[..k + 1] + t[k + 2..] + [t[|t| - 1]]
  {
    ShiftNext(t, size);
    IndexNext(t, size);
    hide Index, Shift;
    var k := Index(t[1..], size);
    if k < |t| - 1 { Parts(t, k); }
  }

  lemma ShiftNext(t: seq<nat>, size: nat)
    requires t != [] && t[0] != size && t[0] != 0
    ensures Shift(t, size) == [t[0]] + Shift(t[1..], size)
  {
    if |t| == 1 { assert [t[0]] + t[1..] == t; }
  }

  lemma Parts(t: seq<nat>, k: nat)
    requires k + 1 < |t|
    ensures [t[0]] + (t[1..][..k] + t[1..][k + 1..] + [t[|t| - 1]]) == t[..k + 1] + t[k + 2..] + [t[|t| - 1]]
  {
    TailPart(t, k, |t|);
    assert t[1..][k + 1..] == t[k + 2..];
  }

  lemma IndexNext(t: seq<nat>, size: nat)
    requires t != [] && t[0] != size
    ensures Index(t, size) == 1 + Index(t[1..], size)
  {
  }

  /** The size at place p, the last entry dropped. */
  function Inserted(t: seq<nat>, p: nat, size: nat): seq<nat>
    requires p < |t|
  {
    t[..p] + [size] + t[p..|t| - 1]
  }

  lemma InsertedAt(t: seq<nat>, p: nat, size: nat)
    requires p < |t|
    ensures |Inserted(t, p, size)| == |t|
    ensures forall i {:trigger Inserted(t, p, size)[i]} :: 0 <= i < |t| ==>
              Inserted(t, p, size)[i] == if i < p then t[i] else if i == p then size else t[i - 1]
  {
  }

  /** Entry k taken out, a zero at the end. */
  function Removed(t: seq<nat>, k: nat): seq<nat>
    requires k < |t|
  {
    t[..k] + t[k + 1..] + [0]
  }

  lemma RemovedAt(t: seq<nat>, k: nat)
    requires k < |t|
    ensures |Removed(t, k)| == |t|
    ensures forall i {:trigger Removed(t, k)[i]} :: 0 <= i < |t| ==>
              Removed(t, k)[i] == if i < k then t[i] else if i < |t| - 1 then t[i + 1] else 0
  {
  }

  lemma AddInserts(t: seq<nat>, size: nat)
    requires Descending(t) && size > 0
    ensures Add(t, size) == if Place(t, size) == |t| then t else Inserted(t, Place(t, size), size)
  {
    AddIs(t, size);
  }

  /** Deleting takes the first entry of the size out; without one only the last entry is cleared. */
  lemma DelIs(t: seq<nat>, size: nat)
    requires Descending(t) && size > 0 && t != []
    ensures Del(t, size) == if Index(t, size) == |t| then t[|t| - 1 := 0] else Removed(t, Index(t, size))
  {
    ShiftIs(t, size);
    hide Shift, Index, Descending;
    var k := Index(t, size);
    if k < |t| {
      EndCleared(t, k);
    }
  }

  lemma EndCleared(t: seq<nat>, k: nat)
    requires k < |t|
    ensures (t[..k] + t[k + 1..] + [t[|t| - 1]])[|t| - 1 := 0] == Removed(t, k)
  {
    var front := t[..k] + t[k + 1..];
    assert |front| == |t| - 1;
  }

  // ---------- order, contents, and undoing ----------

  function Last(t: seq<nat>): nat
    requires t != []
  {
    t[|t| - 1]
  }

  /** What no longer fits. */
  function Dropped(t: seq<nat>, size: nat): nat
    requires t != []
  {
    if size <= Last(t) then size else Last(t)
  }

  /** Adding keeps the order and exchanges the smaller of the size and the last entry for the size. */
  lemma AddKeeps(t: seq<nat>, size: nat)
    requires Descending(t) && t != [] && size > 0
    ensures |Add(t, size)| == |t| && Descending(Add(t, size))
    ensures multiset(Add(t, size)) + multiset{Dropped(t, size)} == multiset(t) + multiset{size}
  {
    AddInserts(t, size);
    hide Add, Inserted;
    var p := Place(t, size);
    if p < |t| {
      InsertedOrder(t, p, size);
      InsertedContents(t, p, size);
      hide Descending;
      LastSmaller(t, p, size);
    }
  }

  /** The size fits between what is at least as large and what is smaller. */
  lemma InsertedOrder(t: seq<nat>, p: nat, size: nat)
    requires Descending(t) && p < |t| && (forall i :: 0 <= i < p ==> t[i] >= size) && t[p] < size
    ensures |Inserted(t, p, size)| == |t| && Descending(Inserted(t, p, size))
  {
    InsertedAt(t, p, size);
    hide Inserted;
  }

  lemma LastSmaller(t: seq<nat>, p: nat, size: nat)
    requires Descending(t) && p < |t| && t[p] < size
    ensures Last(t) < size
  {
    assert p == |t| - 1 || t[p] >= t[|t| - 1];
  }

  lemma InsertedContents(t: seq<nat>, p: nat, size: nat)
    requires p < |t|
    ensures multiset(Inserted(t, p, size)) + multiset{Last(t)} == multiset(t) + multiset{size}
  {
    assert t == t[..p] + (t[p..|t| - 1] + [Last(t)]);
    assert multiset(t) == multiset(t[..p]) + (multiset(t[p..|t| - 1]) + multiset{Last(t)});
  }

  /** No size comes twice exactly when the size was not there, or was the last entry of a full table. */
  lemma AddStrict(t: seq<nat>, size: nat)
    requires Descending(t) && Strict(t) && t != [] && size > 0
    ensures Strict(Add(t, size)) <==> size !in t || size == Last(t)
  {
    AddInserts(t, size);
    hide Add, Inserted, Index, Place;
    var p := Place(t, size);
    if p < |t| {
      LastSmaller(t, p, size);
      if size in t {
        SizeTwice(t, p, size);
      } else {
        StrictInsert(t, p, size);
      }
    } else {
      LastSame(t, size);
    }
  }

  lemma LastSame(t: seq<nat>, size: nat)
    requires Descending(t) && t != [] && forall i :: 0 <= i < |t| ==> t[i] >= size
    ensures size in t ==> size == Last(t)
  {
    if size in t {
      var k :| 0 <= k < |t| && t[k] == size;
    }
  }

  lemma SizeTwice(t: seq<nat>, p: nat, size: nat)
    requires Descending(t) && p < |t| && t[p] < size && size in t && size > 0
    ensures !Strict(Inserted(t, p, size))
  {
    InsertedAt(t, p, size);
    hide Inserted;
    var k :| 0 <= k < |t| && t[k] == size;
    assert k < p;
    assert Inserted(t, p, size)[k] == Inserted(t, p, size)[p] == size;
  }

  lemma StrictInsert(t: seq<nat>, p: nat, size: nat)
    requires Descending(t) && Strict(t) && p < |t| && size !in t && size > 0
    requires (forall i :: 0 <= i < p ==> t[i] >= size) && t[p] < size
    ensures Strict(Inserted(t, p, size))
  {
    InsertedAt(t, p, size);
    hide Inserted;
    assert forall i :: 0 <= i < p ==> t[i] != size;
    assert forall i :: p <= i < |t| ==> t[i] < size;
    hide Descending;
  }

  /** Deleting keeps the order and the difference of sizes; the size leaves once, for a zero. */
  lemma DelKeeps(t: seq<nat>, size: nat)
    requires Descending(t) && t != [] && size > 0
    ensures Descending(Del(t, size)) && (Strict(t) ==> Strict(Del(t, size)))
    ensures if size in t then multiset(Del(t, size)) + multiset{size} == multiset(t) + multiset{0}
            else Del(t, size) == t[|t| - 1 := 0]
  {
    DelIs(t, size);
    hide Del, Removed;
    var k := Index(t, size);
    hide Index;
    if k < |t| {
      RemovedOrder(t, k);
      RemovedContents(t, k);
      hide Descending, Strict;
    }
  }

  lemma RemovedOrder(t: seq<nat>, k: nat)
    requires Descending(t) && k < |t|
    ensures Descending(Removed(t, k)) && (Strict(t) ==> Strict(Removed(t, k)))
  {
    RemovedAt(t, k);
    hide Removed;
  }

  lemma RemovedContents(t: seq<nat>, k: nat)
    requires k < |t|
    ensures multiset(Removed(t, k)) + multiset{t[k]} == multiset(t) + multiset{0}
  {
    assert t == t[..k] + ([t[k]] + t[k + 1..]);
    assert multiset(t) == multiset(t[..k]) + (multiset{t[k]} + multiset(t[k + 1..]));
  }

  /** Deleting undoes adding exactly when the table was not full. */
  lemma AddThenDel(t: seq<nat>, size: nat)
    requires Descending(t) && t != [] && size > 0
    ensures |Add(t, size)| == |t| && (Del(Add(t, size), size) == t <==> Last(t) == 0)
  {
    AddKeeps(t, size);
    AddInserts(t, size);
    var added := Add(t, size);
    DelIs(added, size);
    hide Add, Del, Removed, Inserted;
    var k := Index(added, size);
    if k < |t| { RemovedAt(added, k); }
    if Last(t) == 0 {
      AddedDeleted(t, Place(t, size), size);
    } else {
      assert Last(Del(added, size)) == 0;
    }
  }

  /** Among equal entries it does not matter which one goes. */
  lemma AddedDeleted(t: seq<nat>, p: nat, size: nat)
    requires Descending(t) && t != [] && Last(t) == 0 && size > 0 && p == Place(t, size) < |t|
    ensures var added := Inserted(t, p, size);
            Index(added, size) < |t| == |added| && Removed(added, Index(added, size)) == t
  {
    InsertedAt(t, p, size);
    hide Inserted, Removed;
    var added := Inserted(t, p, size);
    var k := Index(added, size);
    assert added[p] == size;
    assert k <= p;
    RemovedAt(added, k);
    forall i | 0 <= i < |t|
      ensures Removed(added, k)[i] == t[i]
    {
      if k <= i < p {
        assert t[k] >= t[i] >= size && added[k] == t[k];
      }
    }
  }

  /** Adding undoes deleting exactly when the size was there. */
  lemma DelThenAdd(t: seq<nat>, size: nat)
    requires Descending(t) && t != [] && size > 0
    ensures Add(Del(t, size), size) == t <==> size in t
  {
    DelKeeps(t, size);
    DelIs(t, size);
    var less := Del(t, size);
    AddInserts(less, size);
    hide Add, Del, Inserted, Removed;
    if size in t {
      DeletedAdded(t, size);
    } else {
      var p := Place(less, size);
      assert Last(less) == 0;
      InsertedAt(less, p, size);
      assert Inserted(less, p, size)[p] == size;
    }
  }

  lemma DeletedAdded(t: seq<nat>, size: nat)
    requires Descending(t) && size > 0 && Index(t, size) < |t|
    ensures var less := Removed(t, Index(t, size));
            |less| == |t| && Place(less, size) < |t| && Inserted(less, Place(less, size), size) == t
  {
    var k := Index(t, size);
    RemovedAt(t, k);
    var less := Removed(t, k);
    PlaceBehind(t, less, k, size);
    var p := Place(less, size);
    InsertedAt(less, p, size);
    hide Inserted, Removed, Place, Index, Descending;
    forall i | 0 <= i < |t|
      ensures Inserted(less, p, size)[i] == t[i]
    {
      BackAt(t, less, k, p, size, i);
    }
  }

  lemma PlaceBehind(t: seq<nat>, less: seq<nat>, k: nat, size: nat)
    requires Descending(t) && |less| == |t| && k < |t| && t[k] == size > 0
    requires forall j {:trigger less[j]} :: 0 <= j < |t| ==>
               less[j] == if j < k then t[j] else if j < |t| - 1 then t[j + 1] else 0
    ensures k <= Place(less, size) < |t|
  {
    var p, last := Place(less, size), |t| - 1;
    assert less[last] == 0;
    forall j | 0 <= j < k ensures less[j] >= size {
      assert t[j] >= t[k];
    }
  }

  /** Between the old place and the new one all entries are the size. */
  lemma BackAt(t: seq<nat>, less: seq<nat>, k: nat, p: nat, size: nat, i: nat)
    requires Descending(t) && |less| == |t| && k <= p < |t| && i < |t| && t[k] == size
    requires forall j {:trigger less[j]} :: 0 <= j < |t| ==>
               less[j] == if j < k then t[j] else if j < |t| - 1 then t[j + 1] else 0
    requires forall j :: 0 <= j < p ==> less[j] >= size
    ensures t[i] == if i < p then less[i] else if i == p then size else less[i - 1]
  {
    if k < i <= p {
      assert less[i - 1] == t[i] >= size;
    }
    if k <= i < p {
      assert less[i] == t[i + 1] >= size;
    }
  }
}
