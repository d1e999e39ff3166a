/** Reference counts, ifb numbers and the mask agree over whole runs of virtual servers going up
    and down, as long as names are told apart and the mask has room. */
module InterfaceCounts {
  import opened Counting
  import opened Options
  import opened Interfaces

  // ---------- counts, numbers and the mask ----------

  ghost predicate DevsDiffer(list: seq<Iface>) {
    forall i, j :: 0 <= i < j < |list| ==> list[i].dev != list[j].dev
  }

  ghost predicate IfbsDiffer(list: seq<Iface>) {
    forall i, j :: 0 <= i < j < |list| ==> list[i].ifb != list[j].ifb
  }

  /** Each interface counts the initialised virtual servers that use it, and no other is in use. */
  ghost predicate Counts(list: seq<Iface>, users: multiset<string>) {
    && (forall i :: i in list ==> i.hit == users[i.dev] && users[i.dev] > 0)
    && (forall u :: u in users ==> InUse(list, u))
  }

  predicate InUse(list: seq<Iface>, dev: string) {
    exists i :: i in list && i.dev == dev
  }

  /** The mask is exactly the numbers held. */
  ghost predicate MaskExact(s: Shaped) {
    && (forall i :: i in s.list ==> i.ifb in s.reserved && i.ifb < SAFE_IFBS)
    && (forall n :: n in s.reserved ==> exists i :: i in s.list && i.ifb == n)
  }

  ghost predicate Inv(s: Shaped, users: multiset<string>) {
    DevsDiffer(s.list) && IfbsDiffer(s.list) && Counts(s.list, users) && MaskExact(s)
  }

  lemma CountAt(s: Shaped, users: multiset<string>, k: nat)
    requires Inv(s, users) && k < |s.list|
    ensures s.list[k].hit == users[s.list[k].dev] > 0 && s.list[k].ifb in s.reserved && s.list[k].ifb < SAFE_IFBS
  {
    assert s.list[k] in s.list;
  }

  // ---------- a server goes up ----------

  /** The name hits its own interface first, or none while numbers below 31 are left. */
  predicate AppendSafe(s: Shaped, name: string) {
    var k := First(s.list, name);
    if k < |s.list| then s.list[k].dev == name else |s.list| < SAFE_IFBS
  }

  function IfbsOf(list: seq<Iface>): set<nat> {
    set i | i in list :: i.ifb
  }

  lemma {:induction false} IfbCount(list: seq<Iface>)
    requires IfbsDiffer(list)
    ensures |IfbsOf(list)| == |list|
  {
    if list == [] {
      assert IfbsOf(list) == {};
    } else {
      IfbsCons(list);
      IfbCount(list[1..]);
    }
  }

  lemma IfbsCons(list: seq<Iface>)
    requires IfbsDiffer(list) && list != []
    ensures IfbsDiffer(list[1..])
    ensures IfbsOf(list) == {list[0].ifb} + IfbsOf(list[1..]) && list[0].ifb !in IfbsOf(list[1..])
  {
    assert forall j :: 0 <= j < |list| - 1 ==> list[1..][j] == list[j + 1];
    assert list == [list[0]] + list[1..] && list[0] in list;
    forall i | i in list[1..] ensures i.ifb != list[0].ifb {
      var j :| 0 <= j < |list[1..]| && list[1..][j] == i;
    }
    hide IfbsDiffer;
    assert IfbsOf(list) == {list[0].ifb} + IfbsOf(list[1..]);
  }

  lemma MaskIs(s: Shaped, users: multiset<string>)
    requires Inv(s, users)
    ensures s.reserved == IfbsOf(s.list) && |s.reserved| == |s.list| <= SAFE_IFBS
    ensures |s.list| == SAFE_IFBS ==> s.reserved == Numbers(SAFE_IFBS)
  {
    hide DevsDiffer, Counts, Numbers;
    IfbCount(s.list);
    hide IfbsDiffer;
    assert s.reserved == IfbsOf(s.list);
    assert s.reserved <= Numbers(SAFE_IFBS);
    SubsetFull(s.reserved, Numbers(SAFE_IFBS));
  }

  /** With a number below 31 free, the first such number is taken, alone. */
  lemma {:induction false} ReserveFree(reserved: set<nat>, i: nat, free: nat)
    requires i <= free < SAFE_IFBS && free !in reserved
    ensures exists n :: i <= n < SAFE_IFBS && n !in reserved && ReserveFrom(reserved, i) == (Some(n), reserved + {n})
    decreases MAX_IFB - i
  {
    assert MaskOf(i) == {i};
    if MaskOf(i) !! reserved {
      assert i !in reserved && ReserveFrom(reserved, i) == (Some(i), reserved + {i});
    } else {
      assert i in reserved;
      ReserveFree(reserved, i + 1, free);
    }
  }

  /** With the first 31 numbers taken, number 31 comes next and takes all bits up to 63. */
  lemma {:induction false} ReserveFull(reserved: set<nat>, i: nat)
    requires i <= SAFE_IFBS && reserved == Numbers(SAFE_IFBS)
    ensures ReserveFrom(reserved, i) == (Some(SAFE_IFBS), reserved + MaskOf(SAFE_IFBS))
    decreases MAX_IFB - i
  {
    hide Numbers;
    if i < SAFE_IFBS {
      assert MaskOf(i) == {i} && i in reserved;
      hide MaskOf;
      ReserveFull(reserved, i + 1);
    } else {
      assert MaskOf(SAFE_IFBS) !! reserved;
    }
  }

  lemma HitAppended(s: Shaped, users: multiset<string>, name: string, k: nat)
    requires Inv(s, users) && k < |s.list| && k == First(s.list, name) && s.list[k].dev == name
    ensures Inv(Append(s, name), users + multiset{name})
  {
    var list := Append(s, name).list;
    SameIfbs(s, list);
    CountAt(s, users, k);
    CountSet(s.list, users, k, s.list[k].hit + 1, users + multiset{name});
  }

  /** Changing counts only leaves numbers and mask in agreement. */
  lemma SameIfbs(s: Shaped, list: seq<Iface>)
    requires |list| == |s.list|
    requires forall i :: 0 <= i < |list| ==> list[i].dev == s.list[i].dev && list[i].ifb == s.list[i].ifb
    ensures DevsDiffer(s.list) ==> DevsDiffer(list)
    ensures IfbsDiffer(s.list) ==> IfbsDiffer(list)
    ensures MaskExact(s) ==> MaskExact(s.(list := list))
  {
    if MaskExact(s) {
      forall i | i in list ensures i.ifb in s.reserved && i.ifb < SAFE_IFBS {
        var j :| 0 <= j < |list| && list[j] == i;
        assert s.list[j] in s.list;
      }
      forall n | n in s.reserved ensures exists i :: i in list && i.ifb == n {
        var i :| i in s.list && i.ifb == n;
        var j :| 0 <= j < |s.list| && s.list[j] == i;
        assert list[j] in list;
      }
    }
  }

  /** One interface gets the count that its users have afterwards. */
  lemma CountSet(list: seq<Iface>, users: multiset<string>, k: nat, hit: int, after: multiset<string>)
    requires DevsDiffer(list) && Counts(list, users) && k < |list| && after[list[k].dev] == hit > 0
    requires forall u :: u != list[k].dev ==> after[u] == users[u]
    ensures Counts(list[k := list[k].(hit := hit)], after)
  {
    var changed := list[k := list[k].(hit := hit)];
    forall i | i in changed
      ensures i.hit == after[i.dev] && after[i.dev] > 0
    {
      var j :| 0 <= j < |changed| && changed[j] == i;
      assert list[j] in list && (j != k ==> list[j].dev != list[k].dev);
    }
    hide DevsDiffer;
    forall u | u in after
      ensures InUse(changed, u)
    {
      if u == list[k].dev { assert changed[k] in changed; } else { InUseSame(list, changed, u); }
    }
  }

  lemma InUseSame(a: seq<Iface>, b: seq<Iface>, u: string)
    requires |a| == |b| && InUse(a, u) && forall i :: 0 <= i < |a| ==> a[i].dev == b[i].dev
    ensures InUse(b, u)
  {
    var i :| i in a && i.dev == u;
    var j :| 0 <= j < |a| && a[j] == i;
    assert b[j] in b;
  }

  lemma NewAppended(s: Shaped, users: multiset<string>, name: string)
    requires Inv(s, users) && First(s.list, name) == |s.list| < SAFE_IFBS
    ensures Inv(Append(s, name), users + multiset{name})
  {
    MaskIs(s, users);
    var free := FreeNumber(s.reserved);
    ReserveFree(s.reserved, 0, free);
    var n :| 0 <= n < SAFE_IFBS && n !in s.reserved && ReserveFrom(s.reserved, 0) == (Some(n), s.reserved + {n});
    NoUser(s, users, name);
    Extended(s, users, name, n);
  }

  lemma FreeNumber(reserved: set<nat>) returns (n: nat)
    requires |reserved| < SAFE_IFBS
    ensures n < SAFE_IFBS && n !in reserved
  {
    if Numbers(SAFE_IFBS) <= reserved {
      SubsetCount(Numbers(SAFE_IFBS), reserved);
    }
    n :| n in Numbers(SAFE_IFBS) && n !in reserved;
  }

  /** A name that hits no interface has no user. */
  lemma NoUser(s: Shaped, users: multiset<string>, name: string)
    requires Inv(s, users) && First(s.list, name) == |s.list|
    ensures name !in users && forall i :: i in s.list ==> i.dev != name
  {
    forall i | i in s.list ensures i.dev != name {
      var j :| 0 <= j < |s.list| && s.list[j] == i;
      assert !Hits(s.list[j], name);
    }
    assert !InUse(s.list, name);
  }

  lemma Extended(s: Shaped, users: multiset<string>, name: string, n: nat)
    requires Inv(s, users) && n < SAFE_IFBS && n !in s.reserved
    requires name !in users && forall i :: i in s.list ==> i.dev != name
    ensures Inv(Shaped(s.list + [Iface(name, n, 1)], s.reserved + {n}), users + multiset{name})
  {
    var list, mask := s.list + [Iface(name, n, 1)], s.reserved + {n};
    ExtendedCounts(s.list, users, name, n);
    ExtendedMask(s, name, n);
    forall i | 0 <= i < |s.list| ensures s.list[i].ifb != n && s.list[i].dev != name {
      hide Counts, MaskExact, DevsDiffer, IfbsDiffer;
      CountAt(s, users, i);
      assert s.list[i] in s.list;
    }
    hide Counts, MaskExact;
    ExtendedDiffer(s.list, Iface(name, n, 1));
  }

  lemma ExtendedDiffer(list: seq<Iface>, added: Iface)
    requires DevsDiffer(list) && IfbsDiffer(list)
    requires forall i :: 0 <= i < |list| ==> list[i].ifb != added.ifb && list[i].dev != added.dev
    ensures DevsDiffer(list + [added]) && IfbsDiffer(list + [added])
  {
  }

  lemma ExtendedMask(s: Shaped, name: string, n: nat)
    requires MaskExact(s) && n < SAFE_IFBS
    ensures MaskExact(Shaped(s.list + [Iface(name, n, 1)], s.reserved + {n}))
  {
    var list := s.list + [Iface(name, n, 1)];
    assert Iface(name, n, 1) in list;
    forall b | b in s.reserved + {n} ensures exists i :: i in list && i.ifb == b {
      if b != n {
        var i :| i in s.list && i.ifb == b;
        assert i in list;
      }
    }
  }

  lemma ExtendedCounts(list: seq<Iface>, users: multiset<string>, name: string, n: nat)
    requires Counts(list, users) && name !in users && forall i :: i in list ==> i.dev != name
    ensures Counts(list + [Iface(name, n, 1)], users + multiset{name})
  {
    var more, after := list + [Iface(name, n, 1)], users + multiset{name};
    assert Iface(name, n, 1) in more;
    forall u | u in after ensures InUse(more, u) {
      if u != name {
        var i :| i in list && i.dev == u;
        assert i in more;
      }
    }
  }

  /** Counting up keeps everything in agreement exactly when the first interface hit is the one
      named, or none is hit and fewer than 31 are in use. */
  lemma AppendExact(s: Shaped, users: multiset<string>, name: string)
    requires Inv(s, users)
    ensures Inv(Append(s, name), users + multiset{name}) <==> AppendSafe(s, name)
  {
    hide Inv;
    var k := First(s.list, name);
    if k < |s.list| {
      if s.list[k].dev == name {
        HitAppended(s, users, name, k);
      } else {
        WrongHit(s, users, name, k);
      }
    } else if |s.list| < SAFE_IFBS {
      NewAppended(s, users, name);
    } else {
      MaskOverrun(s, users, name);
    }
  }

  lemma WrongHit(s: Shaped, users: multiset<string>, name: string, k: nat)
    requires Inv(s, users) && k == First(s.list, name) < |s.list| && s.list[k].dev != name
    ensures !Inv(Append(s, name), users + multiset{name})
  {
    CountAt(s, users, k);
    var list := Append(s, name).list;
    assert list[k] in list && list[k].hit == users[s.list[k].dev] + 1;
    assert (users + multiset{name})[s.list[k].dev] == users[s.list[k].dev];
  }

  /** The 32nd interface reserves bits that nobody holds; they stay reserved when it goes. */
  lemma MaskOverrun(s: Shaped, users: multiset<string>, name: string)
    requires Inv(s, users) && First(s.list, name) == |s.list| >= SAFE_IFBS
    ensures Append(s, name) == Shaped(s.list + [Iface(name, SAFE_IFBS, 1)], s.reserved + MaskOf(SAFE_IFBS))
    ensures 32 in Append(s, name).reserved && forall i :: i in Append(s, name).list ==> i.ifb != 32
    ensures !Inv(Append(s, name), users + multiset{name})
  {
    hide Append, Inv, MaskOf, First;
    OverrunState(s, users, name);
    SignBits();
    forall i | i in Append(s, name).list ensures i.ifb != 32 {
      if i in s.list { CountIn(s, users, i); }
    }
    Unheld(Append(s, name), users + multiset{name}, 32);
  }

  lemma SignBits()
    ensures 32 in MaskOf(SAFE_IFBS)
  {
    assert SignFilled(32);
  }

  lemma CountIn(s: Shaped, users: multiset<string>, i: Iface)
    requires Inv(s, users) && i in s.list
    ensures i.ifb < SAFE_IFBS
  {
  }

  lemma Unheld(s: Shaped, users: multiset<string>, n: nat)
    requires n in s.reserved && forall i :: i in s.list ==> i.ifb != n
    ensures !Inv(s, users)
  {
  }

  lemma OverrunState(s: Shaped, users: multiset<string>, name: string)
    requires Inv(s, users) && First(s.list, name) == |s.list| >= SAFE_IFBS
    ensures Append(s, name) == Shaped(s.list + [Iface(name, SAFE_IFBS, 1)], s.reserved + MaskOf(SAFE_IFBS))
  {
    MaskIs(s, users);
    hide Numbers, Inv, MaskOf, Hits;
    ReserveFull(s.reserved, 0);
  }

  // ---------- a server goes down ----------

  /** The first interface hit is the one named, and the count stops there: it reaches zero or
      nothing behind it is hit. */
  predicate RemoveSafe(s: Shaped, name: string) {
    var k := First(s.list, name);
    && k < |s.list| && s.list[k].dev == name
    && (s.list[k].hit <= 1 || First(s.list[k + 1..], name) == |s.list| - k - 1)
  }

  /** The list after a removal, place by place. */
  lemma RemoveIs(s: Shaped, name: string)
    ensures var p, list := Freed(s.list, name), Remove(s, name).list;
            && |list| == (if p < |s.list| then |s.list| - 1 else |s.list|)
            && (forall i :: 0 <= i < p ==> list[i] == Counted(s.list[i], name))
            && (forall i :: p <= i < |list| ==> list[i] == s.list[i + 1])
  {
    hide Counted, Freed;
  }

  /** No interface but the one named is counted down. */
  ghost predicate OnlyNamed(list: seq<Iface>, name: string) {
    forall j :: 0 <= j < |list| && j <= Freed(list, name) && Hits(list[j], name) ==> list[j].dev == name
  }

  lemma SafeOnly(s: Shaped, users: multiset<string>, name: string)
    requires Inv(s, users) && name in users
    ensures RemoveSafe(s, name) <==> OnlyNamed(s.list, name)
  {
    hide Hits, Inv, First, Freed;
    var k := First(s.list, name);
    var e := UserIndex(s, users, name);
    NoneBehind(s.list, name, k);
    if RemoveSafe(s, name) {
      SafeNamed(s, name);
    } else if s.list[k].dev == name {
      var m := k + 1 + First(s.list[k + 1..], name);
      OneNamed(s, users, k, m);
      FreedBehind(s.list, name, k);
    } else {
      assert k <= Freed(s.list, name);
    }
  }

  lemma SafeNamed(s: Shaped, name: string)
    requires RemoveSafe(s, name)
    ensures OnlyNamed(s.list, name)
  {
    hide Hits, Freed, First;
    NoneBehind(s.list, name, First(s.list, name));
  }

  lemma OneNamed(s: Shaped, users: multiset<string>, k: nat, m: nat)
    requires Inv(s, users) && k < m < |s.list|
    ensures s.list[m].dev != s.list[k].dev
  {
    hide Counts, MaskExact, IfbsDiffer;
  }

  lemma NoneBehind(list: seq<Iface>, name: string, k: nat)
    requires k < |list|
    ensures First(list[k + 1..], name) == |list| - k - 1 ==> forall j :: k < j < |list| ==> !Hits(list[j], name)
  {
    if First(list[k + 1..], name) == |list| - k - 1 {
      forall j | k < j < |list| ensures !Hits(list[j], name) {
        assert list[k + 1..][j - k - 1] == list[j];
      }
    }
  }

  /** An interface that stays in use does not end the walk: the next one hit is counted too. */
  lemma FreedBehind(list: seq<Iface>, name: string, k: nat)
    requires k == First(list, name) < |list| && list[k].hit > 1
    ensures Freed(list, name) >= k + 1 + First(list[k + 1..], name)
    ensures First(list[k + 1..], name) < |list| - k - 1 ==> Hits(list[k + 1 + First(list[k + 1..], name)], name)
  {
    var p := Freed(list, name);
    if p < |list| {
      assert p > k && list[k + 1..][p - k - 1] == list[p];
    }
  }

  lemma UserIndex(s: Shaped, users: multiset<string>, name: string) returns (e: nat)
    requires Inv(s, users) && name in users
    ensures e < |s.list| && s.list[e].dev == name && Hits(s.list[e], name) && First(s.list, name) <= e
  {
    assert InUse(s.list, name);
    var i :| i in s.list && i.dev == name;
    e :| 0 <= e < |s.list| && s.list[e] == i;
  }

  /** Deleting the interface of the last user of a name. */
  lemma DeletedInv(s: Shaped, users: multiset<string>, name: string, e: nat)
    requires Inv(s, users) && e < |s.list| && s.list[e].dev == name && users[name] == 1
    ensures Inv(Shaped(s.list[..e] + s.list[e + 1..], s.reserved - {s.list[e].ifb}), users - multiset{name})
  {
    hide DevsDiffer, IfbsDiffer, Counts, MaskExact;
    DeletedAt(s.list, e);
    DeletedDiffer(s.list, e);
    DeletedCounts(s.list, users, name, e, s.list[..e] + s.list[e + 1..]);
    DeletedMask(s, e, s.list[..e] + s.list[e + 1..]);
  }

  lemma DeletedAt(list: seq<Iface>, e: nat)
    requires e < |list|
    ensures var after := list[..e] + list[e + 1..];
            |after| == |list| - 1 && forall i :: 0 <= i < |after| ==> after[i] == list[if i < e then i else i + 1]
  {
  }

  lemma DeletedDiffer(list: seq<Iface>, e: nat)
    requires e < |list|
    ensures DevsDiffer(list) ==> DevsDiffer(list[..e] + list[e + 1..])
    ensures IfbsDiffer(list) ==> IfbsDiffer(list[..e] + list[e + 1..])
  {
    var after := list[..e] + list[e + 1..];
    assert forall i :: 0 <= i < |after| ==> after[i] == list[if i < e then i else i + 1];
  }

  lemma DeletedCounts(list: seq<Iface>, users: multiset<string>, name: string, e: nat, after: seq<Iface>)
    requires DevsDiffer(list) && Counts(list, users) && e < |list| && list[e].dev == name && users[name] == 1
    requires |after| == |list| - 1 && forall i :: 0 <= i < |after| ==> after[i] == list[if i < e then i else i + 1]
    ensures Counts(after, users - multiset{name})
  {
    forall i | i in after ensures i in list && i.dev != name {
      var j :| 0 <= j < |after| && after[j] == i;
      assert list[if j < e then j else j + 1] == i;
    }
    hide DevsDiffer;
    forall u | u in users - multiset{name} ensures InUse(after, u) {
      var i :| i in list && i.dev == u;
      var j :| 0 <= j < |list| && list[j] == i;
      assert after[if j < e then j else j - 1] == i;
    }
  }

  lemma DeletedMask(s: Shaped, e: nat, after: seq<Iface>)
    requires IfbsDiffer(s.list) && MaskExact(s) && e < |s.list|
    requires |after| == |s.list| - 1 && forall i :: 0 <= i < |after| ==> after[i] == s.list[if i < e then i else i + 1]
    ensures MaskExact(Shaped(after, s.reserved - {s.list[e].ifb}))
  {
    forall i | i in after ensures i in s.list && i.ifb != s.list[e].ifb {
      var j :| 0 <= j < |after| && after[j] == i;
      assert s.list[if j < e then j else j + 1] == i;
    }
    hide IfbsDiffer;
    forall n | n in s.reserved - {s.list[e].ifb} ensures exists i :: i in after && i.ifb == n {
      var i :| i in s.list && i.ifb == n;
      var j :| 0 <= j < |s.list| && s.list[j] == i;
      assert after[if j < e then j else j - 1] == i;
    }
  }

  /** The removal, when only the named interface is counted. */
  lemma NamedOnly(s: Shaped, name: string, e: nat)
    requires OnlyNamed(s.list, name) && DevsDiffer(s.list) && e < |s.list| && s.list[e].dev == name
    ensures Remove(s, name) ==
            if s.list[e].hit <= 1 then Shaped(s.list[..e] + s.list[e + 1..], s.reserved - {s.list[e].ifb})
            else s.(list := s.list[e := s.list[e].(hit := s.list[e].hit - 1)])
  {
    var list, p := s.list, Freed(s.list, name);
    assert Hits(list[e], name);
    forall j | 0 <= j < |list| && j <= p && Hits(list[j], name) ensures j == e {
      assert list[j].dev == name;
    }
    hide Freed, OnlyNamed, DevsDiffer;
    if list[e].hit <= 1 {
      assert p == e;
      assert CountDown(list[..p], name) == list[..e];
    } else {
      assert p == |list|;
      assert CountDown(list, name) == list[e := list[e].(hit := list[e].hit - 1)];
    }
  }

  lemma NamedRemoved(s: Shaped, users: multiset<string>, name: string)
    requires Inv(s, users) && name in users && OnlyNamed(s.list, name)
    ensures Inv(Remove(s, name), users - multiset{name})
  {
    hide OnlyNamed, Remove, Counts, MaskExact, IfbsDiffer;
    var e := UserIndex(s, users, name);
    CountAt(s, users, e);
    NamedOnly(s, name, e);
    hide DevsDiffer;
    if s.list[e].hit <= 1 {
      DeletedInv(s, users, name, e);
    } else {
      SameIfbs(s, s.list[e := s.list[e].(hit := s.list[e].hit - 1)]);
      CountSet(s.list, users, e, s.list[e].hit - 1, users - multiset{name});
    }
  }

  /** Counting another interface down breaks the agreement. */
  lemma OtherCounted(s: Shaped, users: multiset<string>, name: string, j: nat)
    requires Inv(s, users) && j < |s.list| && j <= Freed(s.list, name) && Hits(s.list[j], name) && s.list[j].dev != name
    ensures !Inv(Remove(s, name), users - multiset{name})
  {
    RemoveIs(s, name);
    CountAt(s, users, j);
    hide Remove, Freed, Hits;
    var p, list := Freed(s.list, name), Remove(s, name).list;
    if j < p {
      assert list[j] == Counted(s.list[j], name);
      MissCounted(list, users - multiset{name}, j);
    } else {
      OtherFreed(s.list, list, j);
      MissFreed(list, users - multiset{name}, s.list[j].dev);
    }
  }

  lemma MissCounted(list: seq<Iface>, users: multiset<string>, j: nat)
    requires j < |list| && list[j].hit != users[list[j].dev]
    ensures !Counts(list, users)
  {
    assert list[j] in list;
  }

  lemma MissFreed(list: seq<Iface>, users: multiset<string>, dev: string)
    requires dev in users && !InUse(list, dev)
    ensures !Counts(list, users)
  {
  }

  lemma OtherFreed(list: seq<Iface>, after: seq<Iface>, p: nat)
    requires DevsDiffer(list) && p < |list| && |after| == |list| - 1
    requires forall i :: 0 <= i < |after| ==> after[i].dev == list[if i < p then i else i + 1].dev
    ensures !InUse(after, list[p].dev)
  {
    forall i | i in after ensures i.dev != list[p].dev {
      var k :| 0 <= k < |after| && after[k] == i;
      assert i.dev == list[if k < p then k else k + 1].dev;
    }
  }

  /** Counting down keeps everything in agreement exactly when the named interface is hit first and
      no other is counted with it. */
  lemma RemoveExact(s: Shaped, users: multiset<string>, name: string)
    requires Inv(s, users) && name in users
    ensures Inv(Remove(s, name), users - multiset{name}) <==> RemoveSafe(s, name)
  {
    hide Inv, Remove, RemoveSafe, Hits, Freed;
    SafeOnly(s, users, name);
    if OnlyNamed(s.list, name) {
      NamedRemoved(s, users, name);
    } else {
      var j :| 0 <= j < |s.list| && j <= Freed(s.list, name) && Hits(s.list[j], name) && s.list[j].dev != name;
      OtherCounted(s, users, name, j);
    }
  }

  // ---------- the same, said on the names ----------

  predicate Begins(name: string, dev: string) {
    |name| <= |dev| && forall c :: 0 <= c < |name| ==> dev[c] == name[c]
  }

  /** Interface k is the first whose name begins with the one searched. */
  predicate FirstBegun(list: seq<Iface>, name: string, k: int) {
    && 0 <= k < |list| && Begins(name, list[k].dev)
    && forall i :: 0 <= i < k ==> !Begins(name, list[i].dev)
  }

  predicate NoneBegun(list: seq<Iface>, name: string) {
    forall i :: 0 <= i < |list| ==> !Begins(name, list[i].dev)
  }

  lemma HitsBegin(i: Iface, name: string)
    ensures Hits(i, name) <==> Begins(name, i.dev)
  {
    if Begins(name, i.dev) { assert i.dev[..|name|] == name; }
  }

  lemma FirstIsBegun(list: seq<Iface>, name: string)
    ensures First(list, name) == |list| <==> NoneBegun(list, name)
    ensures forall k :: FirstBegun(list, name, k) <==> k == First(list, name) < |list|
  {
    hide Hits, Begins;
    forall i | 0 <= i < |list| ensures Hits(list[i], name) <==> Begins(name, list[i].dev) {
      HitsBegin(list[i], name);
    }
  }

  /** A server that goes up keeps counts, numbers and mask in agreement if and only if its interface
      is the first whose name begins with its own, or none does and fewer than 31 are in use. */
  lemma UpExact(s: Shaped, users: multiset<string>, name: string)
    requires Inv(s, users)
    ensures Inv(Append(s, name), users + multiset{name}) <==>
            || (exists k :: FirstBegun(s.list, name, k) && s.list[k].dev == name)
            || (NoneBegun(s.list, name) && |s.list| < 31)
  {
    hide Inv, Append, First, FirstBegun, NoneBegun;
    FirstIsBegun(s.list, name);
    AppendExact(s, users, name);
  }

  /** One that goes down does if and only if its interface is the first whose name begins with its
      own, and it was the last server there or no interface behind begins with its name too. */
  lemma DownExact(s: Shaped, users: multiset<string>, name: string)
    requires Inv(s, users) && name in users
    ensures Inv(Remove(s, name), users - multiset{name}) <==>
            exists k :: && FirstBegun(s.list, name, k) && s.list[k].dev == name
                        && (users[name] == 1 || NoneBegun(s.list[k + 1..], name))
  {
    var k := First(s.list, name);
    if k < |s.list| { CountAt(s, users, k); }
    hide Inv, Remove, First, FirstBegun, NoneBegun;
    FirstIsBegun(s.list, name);
    if k < |s.list| { FirstIsBegun(s.list[k + 1..], name); }
    RemoveExact(s, users, name);
  }

  // ---------- runs ----------

  /** Virtual servers going up and down; InterfaceReloads.dfy derives these steps from reloads. */
  datatype Step = Up(dev: string) | Down(dev: string)

  function Apply(s: Shaped, step: Step): Shaped {
    match step
    case Up(dev) => Append(s, dev)
    case Down(dev) => Remove(s, dev)
  }

  function UsersAfter(users: multiset<string>, step: Step): multiset<string> {
    match step
    case Up(dev) => users + multiset{dev}
    case Down(dev) => users - multiset{dev}
  }

  function Run(s: Shaped, steps: seq<Step>): Shaped
    decreases |steps|
  {
    if steps == [] then s else Run(Apply(s, steps[0]), steps[1..])
  }

  function UsersOf(users: multiset<string>, steps: seq<Step>): multiset<string>
    decreases |steps|
  {
    if steps == [] then users else UsersOf(UsersAfter(users, steps[0]), steps[1..])
  }

  /** Only names in use go down. */
  ghost predicate RunOk(users: multiset<string>, steps: seq<Step>)
    decreases |steps|
  {
    steps == [] || ((steps[0].Down? ==> steps[0].dev in users) && RunOk(UsersAfter(users, steps[0]), steps[1..]))
  }

  /** At most 31 names, none a prefix of another. */
  ghost predicate Apart(names: set<string>) {
    |names| <= SAFE_IFBS && forall a, b :: a in names && b in names && a <= b ==> a == b
  }

  function Devs(list: seq<Iface>): set<string> {
    set i | i in list :: i.dev
  }

  lemma {:induction false} DevCount(list: seq<Iface>)
    requires DevsDiffer(list)
    ensures |Devs(list)| == |list|
  {
    if list == [] {
      assert Devs(list) == {};
    } else {
      DevsCons(list);
      DevCount(list[1..]);
    }
  }

  lemma DevsCons(list: seq<Iface>)
    requires DevsDiffer(list) && list != []
    ensures DevsDiffer(list[1..])
    ensures Devs(list) == {list[0].dev} + Devs(list[1..]) && list[0].dev !in Devs(list[1..])
  {
    assert forall j :: 0 <= j < |list| - 1 ==> list[1..][j] == list[j + 1];
    assert list == [list[0]] + list[1..] && list[0] in list;
    forall i | i in list[1..] ensures i.dev != list[0].dev {
      var j :| 0 <= j < |list[1..]| && list[1..][j] == i;
    }
    hide DevsDiffer;
    assert Devs(list) == {list[0].dev} + Devs(list[1..]);
  }

  lemma ApartHits(s: Shaped, users: multiset<string>, names: set<string>, name: string, j: nat)
    requires Inv(s, users) && Apart(names) && name in names && (forall u :: u in users ==> u in names)
    requires j < |s.list| && Hits(s.list[j], name)
    ensures s.list[j].dev == name
  {
    CountAt(s, users, j);
  }

  /** With names told apart, every step is safe. */
  lemma ApartSafe(s: Shaped, users: multiset<string>, names: set<string>, name: string)
    requires Inv(s, users) && Apart(names) && name in names && forall u :: u in users ==> u in names
    ensures AppendSafe(s, name)
    ensures name in users ==> RemoveSafe(s, name)
  {
    hide Inv, Apart, Hits, RemoveSafe;
    forall j | 0 <= j < |s.list| && Hits(s.list[j], name) ensures s.list[j].dev == name {
      ApartHits(s, users, names, name, j);
    }
    if First(s.list, name) == |s.list| {
      FewerNames(s, users, names, name);
    }
    if name in users {
      SafeOnly(s, users, name);
    }
  }

  lemma FewerNames(s: Shaped, users: multiset<string>, names: set<string>, name: string)
    requires Inv(s, users) && Apart(names) && name in names && First(s.list, name) == |s.list|
    requires forall u :: u in users ==> u in names
    ensures |s.list| < SAFE_IFBS
  {
    NoUser(s, users, name);
    DevCount(s.list);
    hide DevsDiffer, IfbsDiffer, MaskExact;
    assert Devs(s.list) <= names - {name};
    SubsetCount(Devs(s.list), names - {name});
    assert |names - {name}| == |names| - 1;
  }

  /** Over every run: each count is the number of virtual servers on the interface, no two
      interfaces share an ifb, and the mask holds exactly the numbers in use. */
  lemma {:induction false} RunKeeps(s: Shaped, users: multiset<string>, names: set<string>, steps: seq<Step>)
    requires Inv(s, users) && Apart(names) && RunOk(users, steps)
    requires (forall u :: u in users ==> u in names) && forall step :: step in steps ==> step.dev in names
    ensures Inv(Run(s, steps), UsersOf(users, steps))
    decreases |steps|
  {
    hide Inv, Apart, Append, Remove;
    if steps != [] {
      var step := steps[0];
      assert step in steps && forall t :: t in steps[1..] ==> t in steps;
      ApartSafe(s, users, names, step.dev);
      match step {
        case Up(dev) => AppendExact(s, users, dev);
        case Down(dev) => RemoveExact(s, users, dev);
      }
      RunKeeps(Apply(s, step), UsersAfter(users, step), names, steps[1..]);
    }
  }

  lemma EmptyInv()
    ensures Inv(Shaped([], {}), multiset{})
  {
  }

  /** And a virtual server that is up gets its own interface back. */
  lemma GetOwn(s: Shaped, users: multiset<string>, names: set<string>, name: string)
    requires Inv(s, users) && Apart(names) && (forall u :: u in users ==> u in names) && name in users
    ensures First(s.list, name) < |s.list| && s.list[First(s.list, name)].dev == name
  {
    var e := UserIndex(s, users, name);
    ApartHits(s, users, names, name, First(s.list, name));
  }
}
