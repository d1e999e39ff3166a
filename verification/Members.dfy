/** The member list of a virtual server, searched, inserted into and deleted from in place. */
module MemberLists {
  import opened Sessions

  const SIGN_BIT: nat := 0x8000_0000

  datatype Node = Node(id: nat, data: Member)

  /** The first node with an id, or the length of the list. */
  function Find(list: seq<Node>, id: nat): (k: nat)
    ensures k <= |list|
    ensures k < |list| ==> list[k].id == id
    ensures forall i :: 0 <= i < k ==> list[i].id != id
  {
    if list == [] || list[0].id == id then 0 else 1 + Find(list[1..], id)
  }

  /** idcmp: the difference of the ids, in 32 bits read as signed. */
  function IdCmp(a: nat, b: nat): int {
    var d := (a - b) % IP_SPACE;
    if d < SIGN_BIT then d else d - IP_SPACE
  }

  /** g_list_insert_sorted: in front of the first node that does not compare less. */
  function InsertPos(list: seq<Node>, id: nat): (k: nat)
    ensures k <= |list|
    ensures forall i :: 0 <= i < k ==> IdCmp(id, list[i].id) > 0
    ensures k < |list| ==> IdCmp(id, list[k].id) <= 0
  {
    if list == [] || IdCmp(id, list[0].id) <= 0 then 0 else 1 + InsertPos(list[1..], id)
  }

  /** The node of id gets data; a new node is placed while its id is still 0. */
  function Put(list: seq<Node>, id: nat, data: Member): seq<Node> {
    var k := Find(list, id);
    if k < |list| then list[k := Node(id, data)]
    else
      var p := InsertPos(list, 0);
      list[..p] + [Node(id, data)] + list[p..]
  }

  /** 32-bit indexes, as the source has them. */
  ghost predicate Words(list: seq<Node>) {
    forall n :: n in list ==> n.id < IP_SPACE
  }

  /** A new member goes to the front exactly when the list is empty or its first index is at most
      2^31; then members stand in the reverse order of their arrival. */
  lemma NewestFirst(list: seq<Node>, id: nat, data: Member)
    requires Find(list, id) == |list| && Words(list)
    ensures Put(list, id, data) == [Node(id, data)] + list <==> list == [] || list[0].id <= SIGN_BIT
  {
    if list != [] {
      assert list[0] in list;
      CmpOfZero(list[0].id);
      if list[0].id > SIGN_BIT { assert Put(list, id, data)[0] == list[0]; }
    }
  }

  ghost predicate Ascending(list: seq<Node>) {
    forall i, j :: 0 <= i < j < |list| ==> list[i].id < list[j].id
  }

  /** So a sorted list stays sorted exactly when the new index is below the first one, or, behind
      indexes that are all above 2^31, above the last one. */
  lemma PutSorted(list: seq<Node>, id: nat, data: Member)
    requires Find(list, id) == |list| && Words(list) && Ascending(list)
    ensures Ascending(Put(list, id, data)) <==>
            list == [] || if list[0].id <= SIGN_BIT then id < list[0].id else list[|list| - 1].id < id
  {
    var node := Node(id, data);
    if list != [] {
      NewestFirst(list, id, data);
      var r := Put(list, id, data);
      if list[0].id <= SIGN_BIT {
        FrontSorted(list, node);
      } else {
        PutLast(list, id, data);
        LastSorted(list, node);
      }
    }
  }

  lemma FrontSorted(list: seq<Node>, node: Node)
    requires Ascending(list) && list != []
    ensures Ascending([node] + list) <==> node.id < list[0].id
  {
    var r := [node] + list;
    assert r[0] == node && r[1] == list[0];
    assert forall i {:trigger r[i]} :: 1 <= i < |r| ==> r[i] == list[i - 1];
  }

  lemma LastSorted(list: seq<Node>, node: Node)
    requires Ascending(list) && list != []
    ensures Ascending(list + [node]) <==> list[|list| - 1].id < node.id
  {
    var r := list + [node];
    assert r[|list|] == node && r[|list| - 1] == list[|list| - 1];
  }

  lemma PutLast(list: seq<Node>, id: nat, data: Member)
    requires Find(list, id) == |list| && Words(list) && Ascending(list) && list != [] && list[0].id > SIGN_BIT
    ensures Put(list, id, data) == list + [Node(id, data)]
  {
    var p := InsertPos(list, 0);
    if p < |list| {
      assert list[p] in list;
      CmpOfZero(list[p].id);
    }
    assert list[..p] + [Node(id, data)] + list[p..] == list + [Node(id, data)];
  }

  lemma CmpOfZero(id: nat)
    requires id < IP_SPACE
    ensures IdCmp(0, id) <= 0 <==> id <= SIGN_BIT
  {
    if id > 0 { assert (0 - id) % IP_SPACE == IP_SPACE - id; }
  }

  function Remove(list: seq<Node>, id: nat): seq<Node> {
    var k := Find(list, id);
    if k < |list| then list[..k] + list[k + 1..] else list
  }

  ghost predicate Unique(list: seq<Node>) {
    forall i, j :: 0 <= i < j < |list| ==> list[i].id != list[j].id
  }

  /** The list holds exactly the members of its virtual server. */
  ghost predicate Agrees(list: seq<Node>, vid: int, members: map<Sid, Member>) {
    && Unique(list)
    && (forall i :: 0 <= i < |list| ==> MemberIs(members, Sid(vid, list[i].id), list[i].data))
    && (forall id: nat :: Sid(vid, id) in members ==> Find(list, id) < |list|)
  }

  predicate MemberIs(members: map<Sid, Member>, s: Sid, m: Member) {
    s in members && members[s] == m
  }

  lemma FindOnly(list: seq<Node>, k: nat)
    requires Unique(list) && k < |list|
    ensures Find(list, list[k].id) == k
  {
  }

  lemma FindSome(list: seq<Node>, id: nat, k: nat)
    requires k < |list| && list[k].id == id
    ensures Find(list, id) <= k
  {
  }

  /** A lookup in the list is a lookup among the members. */
  lemma FindIsMember(list: seq<Node>, vid: int, members: map<Sid, Member>, id: nat)
    requires Agrees(list, vid, members)
    ensures Find(list, id) < |list| <==> Sid(vid, id) in members
    ensures Find(list, id) < |list| ==> members[Sid(vid, id)] == list[Find(list, id)].data
  {
    if Find(list, id) < |list| {
      assert MemberIs(members, Sid(vid, list[Find(list, id)].id), list[Find(list, id)].data);
    }
  }

  lemma PutAgrees(list: seq<Node>, vid: int, members: map<Sid, Member>, id: nat, data: Member)
    requires Agrees(list, vid, members)
    ensures Agrees(Put(list, id, data), vid, members[Sid(vid, id) := data])
  {
    hide Agrees, Find, InsertPos;
    var k, p := Find(list, id), InsertPos(list, 0);
    if k < |list| {
      ReplaceAgrees(list, vid, members, k, data);
    } else {
      InsertAgrees(list, vid, members, p, id, data);
    }
  }

  lemma ReplaceAgrees(list: seq<Node>, vid: int, members: map<Sid, Member>, k: nat, data: Member)
    requires Agrees(list, vid, members) && k < |list|
    ensures Agrees(list[k := Node(list[k].id, data)], vid, members[Sid(vid, list[k].id) := data])
  {
    var id := list[k].id;
    var r, after := list[k := Node(id, data)], members[Sid(vid, id) := data];
    forall i | 0 <= i < |r| ensures MemberIs(after, Sid(vid, r[i].id), r[i].data) {
      assert MemberIs(members, Sid(vid, list[i].id), list[i].data);
    }
    hide Find;
    forall d: nat | Sid(vid, d) in after ensures Find(r, d) < |r| {
      var j := if d == id then k else Find(list, d);
      FindSome(r, d, j);
    }
  }

  lemma InsertAgrees(list: seq<Node>, vid: int, members: map<Sid, Member>, p: nat, id: nat, data: Member)
    requires Agrees(list, vid, members) && Find(list, id) == |list| && p <= |list|
    ensures Agrees(list[..p] + [Node(id, data)] + list[p..], vid, members[Sid(vid, id) := data])
  {
    hide Find, Unique;
    var r, after := list[..p] + [Node(id, data)] + list[p..], members[Sid(vid, id) := data];
    InsertUnique(list, p, id, data);
    forall i | 0 <= i < |r| ensures MemberIs(after, Sid(vid, r[i].id), r[i].data) {
      if i != p {
        var j := if i < p then i else i - 1;
        assert r[i] == list[j] && MemberIs(members, Sid(vid, list[j].id), list[j].data);
      }
    }
    forall d: nat | Sid(vid, d) in after ensures Find(r, d) < |r| {
      InsertFinds(list, p, id, data, d);
    }
  }

  lemma InsertUnique(list: seq<Node>, p: nat, id: nat, data: Member)
    requires Unique(list) && Find(list, id) == |list| && p <= |list|
    ensures Unique(list[..p] + [Node(id, data)] + list[p..])
  {
    hide Find;
    var r := list[..p] + [Node(id, data)] + list[p..];
    assert forall i :: 0 <= i < |r| ==> r[i] == if i < p then list[i] else if i == p then Node(id, data)
           else list[i - 1];
  }

  lemma InsertFinds(list: seq<Node>, p: nat, id: nat, data: Member, d: nat)
    requires p <= |list| && (d == id || Find(list, d) < |list|)
    ensures Find(list[..p] + [Node(id, data)] + list[p..], d) <= |list|
  {
    hide Find;
    var r, j := list[..p] + [Node(id, data)] + list[p..], Find(list, d);
    var k := if d == id then p else if j < p then j else j + 1;
    assert r[k].id == d;
    FindSome(r, d, k);
  }

  lemma RemoveAgrees(list: seq<Node>, vid: int, members: map<Sid, Member>, id: nat)
    requires Agrees(list, vid, members)
    ensures Agrees(Remove(list, id), vid, members - {Sid(vid, id)})
  {
    hide Find, Unique;
    var k, r := Find(list, id), Remove(list, id);
    var after := members - {Sid(vid, id)};
    if k < |list| {
      RemovedUnique(list, k);
      forall i | 0 <= i < |r| ensures MemberIs(after, Sid(vid, r[i].id), r[i].data) {
        var j := if i < k then i else i + 1;
        assert r[i] == list[j] && MemberIs(members, Sid(vid, list[j].id), list[j].data);
        OtherId(list, k, j);
      }
      forall d: nat | Sid(vid, d) in after ensures Find(r, d) < |r| {
        RemovedFinds(list, k, d);
      }
    } else {
      assert Sid(vid, id) !in members;
      assert after == members;
    }
  }

  lemma OtherId(list: seq<Node>, k: nat, j: nat)
    requires Unique(list) && k < |list| && j < |list| && j != k
    ensures list[j].id != list[k].id
  {
  }

  lemma RemovedUnique(list: seq<Node>, k: nat)
    requires Unique(list) && k < |list|
    ensures Unique(list[..k] + list[k + 1..])
  {
    var r := list[..k] + list[k + 1..];
    assert forall i {:trigger r[i]} :: 0 <= i < |r| ==> r[i] == if i < k then list[i] else list[i + 1];
  }

  lemma RemovedFinds(list: seq<Node>, k: nat, d: nat)
    requires k < |list| && d != list[k].id && Find(list, d) < |list|
    ensures Find(list[..k] + list[k + 1..], d) < |list| - 1
  {
    hide Find;
    var r, j := list[..k] + list[k + 1..], Find(list, d);
    var i := if j < k then j else j - 1;
    assert r[i] == list[j];
    FindSome(r, d, i);
  }

  /** A change to one virtual server leaves the lists of the others right. */
  lemma OthersAgree(list: seq<Node>, vid: int, members: map<Sid, Member>, after: map<Sid, Member>, other: int)
    requires Agrees(list, vid, members) && vid != other
    requires forall s: Sid :: s.vid != other ==>
               (s in members <==> s in after) && (s in members ==> members[s] == after[s])
    ensures Agrees(list, vid, after)
  {
    forall i | 0 <= i < |list| ensures MemberIs(after, Sid(vid, list[i].id), list[i].data) {
      assert MemberIs(members, Sid(vid, list[i].id), list[i].data);
    }
  }
}
