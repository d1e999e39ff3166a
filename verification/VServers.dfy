/** The list of virtual servers and its reload: files are matched to live servers, the flag loop
    brings every server up, and those no file mentions are removed. */
module VServers {
  import opened Options

  datatype Flag = Absent | Init | Reload | Reset | Done

  /** A configuration file: the fields that decide a reload, and the rest. */
  datatype Conf = Conf(id: int, name: string, clients: string, dev: string, rest: string)

  /** sessions holds the indexes of the members in memory. */
  datatype Server = Server(conf: Conf, flag: Flag, dummy: Option<Conf>, sessions: set<nat>)

  /** The rows of the session table: server id and index. */
  type Table = set<(int, nat)>

  const NAME_LENGTH: nat := 32
  const CLIENTS_LENGTH: nat := 18

  // ---------- loading the files ----------

  /** What strncmp sees of a string. */
  function Head(s: string, n: nat): string {
    if |s| <= n then s else s[..n]
  }

  predicate SameServer(f: Conf, c: Conf) {
    Head(f.name, NAME_LENGTH) == Head(c.name, NAME_LENGTH)
      && Head(f.clients, CLIENTS_LENGTH) == Head(c.clients, CLIENTS_LENGTH)
  }

  predicate Matches(c: Conf, f: Conf) {
    c.id == f.id || c.name == f.name
  }

  /** vserver_exists: the first server with the id or the name, or the length of the list. */
  function Match(list: seq<Server>, f: Conf): (k: nat)
    ensures k <= |list|
    ensures k < |list| ==> Matches(list[k].conf, f)
    ensures forall i :: 0 <= i < k ==> !Matches(list[i].conf, f)
  {
    if list == [] || Matches(list[0].conf, f) then 0 else 1 + Match(list[1..], f)
  }

  function Mark(v: Server, f: Conf): Server {
    v.(dummy := Some(f), flag := if SameServer(f, v.conf) then Reload else Reset)
  }

  function Register(list: seq<Server>, f: Conf): seq<Server> {
    var k := Match(list, f);
    if k < |list| then list[k := Mark(list[k], f)] else list + [Server(f, Init, None, {})]
  }

  /** get_vservers_config, the files in directory order. */
  function RegisterAll(list: seq<Server>, files: seq<Conf>): seq<Server>
    decreases |files|
  {
    if files == [] then list else Register(RegisterAll(list, files[..|files| - 1]), files[|files| - 1])
  }

  // ---------- the tasks of a server ----------

  function Rows(t: Table, id: int): set<nat> {
    set r | r in t && r.0 == id :: r.1
  }

  function RowsOf(id: int, sessions: set<nat>): Table {
    set i | i in sessions :: (id, i)
  }

  /** rh_task_cleanup: unless the server is reloaded, all its sessions are stopped;
      SessionAbstract.CleanupAbstracts derives it from the session stores. */
  function Cleanup(v: Server, t: Table): (Server, Table) {
    if v.flag == Reload then (v, t) else (v.(sessions := {}), t - RowsOf(v.conf.id, v.sessions))
  }

  /** rh_task_init: unless the server is reloaded, its sessions are restored from the table;
      SessionAbstract.SetupAbstracts derives it from the replay of the rows. */
  function Setup(v: Server, t: Table): Server {
    if v.flag == Reload then v else v.(sessions := Rows(t, v.conf.id))
  }

  function Adopt(v: Server): Server {
    if v.dummy.Some? then v.(conf := v.dummy.value) else v
  }

  /** vserver_reload: the server and the table after its flag loop. */
  function Bring(v: Server, t: Table): (Server, Table) {
    match v.flag
    case Done => (v.(flag := Absent), t)
    case Init => (Setup(v, t).(flag := Done), t)
    case Reload => (Adopt(v).(flag := Done), t)
    case Reset =>
      var (v1, t1) := Cleanup(v, t);
      (Setup(Adopt(v1).(dummy := None, flag := Init), t1).(flag := Done), t1)
    case Absent => (v.(flag := Done), t)
  }

  /** walk_through_vserver with vserver_reload. */
  function Walk(list: seq<Server>, t: Table): (seq<Server>, Table)
    decreases |list|
  {
    if list == [] then ([], t)
    else
      var (front, t1) := Walk(list[..|list| - 1], t);
      var (v, t2) := Bring(list[|list| - 1], t1);
      (front + [v], t2)
  }

  // ---------- removing unused servers ----------

  /** The first server with an id, or the length of the list. */
  function ById(list: seq<Server>, id: int): (k: nat)
    ensures k <= |list|
    ensures k < |list| ==> list[k].conf.id == id
    ensures forall i :: 0 <= i < k ==> list[i].conf.id != id
  {
    if list == [] || list[0].conf.id == id then 0 else 1 + ById(list[1..], id)
  }

  /** Some server behind the front, marked absent, has the id. */
  predicate AbsentHas(list: seq<Server>, id: int) {
    exists v :: v in list && v.flag == Absent && v.conf.id == id
  }

  /** The servers that are neither absent nor in front of an absent one with the same id. */
  function Kept(list: seq<Server>): seq<Server> {
    if list == [] then []
    else
      (if list[0].flag == Absent || AbsentHas(list[1..], list[0].conf.id) then [] else [list[0]]) + Kept(list[1..])
  }

  /** The rows of the absent servers. */
  function Unused(list: seq<Server>): Table {
    if list == [] then {}
    else (if list[0].flag == Absent then RowsOf(list[0].conf.id, list[0].sessions) else {}) + Unused(list[1..])
  }

  lemma {:induction false} UnusedSplit(a: seq<Server>, b: seq<Server>)
    ensures Unused(a + b) == Unused(a) + Unused(b)
  {
    if a == [] {
      assert a + b == b;
    } else {
      UnusedSplit(a[1..], b);
      assert (a + b)[1..] == a[1..] + b;
    }
  }

  lemma HasSplit(a: seq<Server>, b: seq<Server>, id: int)
    ensures AbsentHas(a + b, id) <==> AbsentHas(a, id) || AbsentHas(b, id)
  {
  }

  /** Leaving out a server that is not kept, with no twin in front of an absent one, changes nothing. */
  lemma {:induction false} KeptDrop(list: seq<Server>, r: nat)
    requires r < |list| && (list[r].flag == Absent || AbsentHas(list[r + 1..], list[r].conf.id))
    requires list[r].flag == Absent ==> forall i :: 0 <= i < r ==> list[i].conf.id != list[r].conf.id
    ensures Kept(list[..r] + list[r + 1..]) == Kept(list)
  {
    var rest := list[..r] + list[r + 1..];
    if r == 0 {
      assert rest == list[1..];
    } else {
      assert list[1..][r - 1] == list[r] && list[1..][r..] == list[r + 1..];
      assert forall i :: 0 <= i < r - 1 ==> list[1..][i] == list[i + 1];
      KeptDrop(list[1..], r - 1);
      assert rest[0] == list[0] && rest[1..] == list[1..][..r - 1] + list[1..][r..];
      HasDrop(list[1..], r - 1, list[0].conf.id);
    }
  }

  lemma HasDrop(list: seq<Server>, r: nat, id: int)
    requires r < |list| && (list[r].flag == Absent ==> list[r].conf.id != id)
    ensures AbsentHas(list[..r] + list[r + 1..], id) <==> AbsentHas(list, id)
  {
    assert list == list[..r] + ([list[r]] + list[r + 1..]);
    HasSplit(list[..r], [list[r]] + list[r + 1..], id);
    HasSplit([list[r]], list[r + 1..], id);
    HasSplit(list[..r], list[r + 1..], id);
  }

  lemma {:induction false} KeptClean(list: seq<Server>, k: nat, v: Server)
    requires k < |list| && list[k].flag == Absent && v.flag == Absent && v.conf == list[k].conf
    ensures Kept(list[k := v]) == Kept(list)
  {
    var after := list[k := v];
    if k == 0 {
      assert after[1..] == list[1..];
    } else {
      assert after[1..] == list[1..][k - 1 := v] && list[1..][k - 1] == list[k];
      KeptClean(list[1..], k - 1, v);
      HasClean(list[1..], k - 1, v, list[0].conf.id);
    }
  }

  lemma HasClean(list: seq<Server>, k: nat, v: Server, id: int)
    requires k < |list| && list[k].flag == Absent && v.flag == Absent && v.conf == list[k].conf
    ensures AbsentHas(list[k := v], id) <==> AbsentHas(list, id)
  {
    var after := list[k := v];
    assert list == list[..k] + ([list[k]] + list[k + 1..]) && after == list[..k] + ([v] + list[k + 1..]);
    HasSplit(list[..k], [list[k]] + list[k + 1..], id);
    HasSplit(list[..k], [v] + list[k + 1..], id);
    HasSplit([list[k]], list[k + 1..], id);
    HasSplit([v], list[k + 1..], id);
  }

  lemma {:induction false} KeptAll(list: seq<Server>)
    requires forall v :: v in list ==> v.flag != Absent
    ensures Kept(list) == list && Unused(list) == {}
  {
    if list != [] {
      assert list[0] in list && forall v :: v in list[1..] ==> v in list;
      KeptAll(list[1..]);
      assert !AbsentHas(list[1..], list[0].conf.id);
    }
  }

  /** One round of the removal: the absent server k is cleaned up, and the first server with its
      id leaves the list. */
  lemma SweepStep(list: seq<Server>, t: Table, k: nat)
    requires k < |list| && list[k].flag == Absent && forall i :: 0 <= i < k ==> list[i].flag != Absent
    ensures var (v, t1) := Cleanup(list[k], t);
            var l1 := list[k := v];
            var r := ById(l1, v.conf.id);
            && r < |list| && Kept(l1[..r] + l1[r + 1..]) == Kept(list)
            && t1 - Unused(l1[..r] + l1[r + 1..]) == t - Unused(list)
  {
    hide Kept, Unused, ById, AbsentHas;
    var (v, t1) := Cleanup(list[k], t);
    var l1 := list[k := v];
    var r := ById(l1, v.conf.id);
    KeptClean(list, k, v);
    FirstById(l1, v.conf.id, k);
    if r < k {
      HasAt(l1[r + 1..], k - r - 1);
    }
    KeptDrop(l1, r);
    UnusedStep(list, k, v, r);
  }

  lemma FirstById(list: seq<Server>, id: int, k: nat)
    requires k < |list| && list[k].conf.id == id
    ensures ById(list, id) <= k
  {
  }

  lemma HasAt(list: seq<Server>, k: nat)
    requires k < |list| && list[k].flag == Absent
    ensures AbsentHas(list, list[k].conf.id)
  {
  }

  lemma UnusedStep(list: seq<Server>, k: nat, v: Server, r: nat)
    requires r <= k < |list| && list[k].flag == Absent && (r < k ==> list[r].flag != Absent)
    requires v == list[k].(sessions := {})
    ensures var l1 := list[k := v];
            Unused(list) == RowsOf(list[k].conf.id, list[k].sessions) + Unused(l1[..r] + l1[r + 1..])
  {
    hide Unused, RowsOf;
    var l1 := list[k := v];
    assert list == list[..k] + ([list[k]] + list[k + 1..]);
    UnusedAround(list[..k], list[k], list[k + 1..]);
    if r == k {
      assert l1[..r] + l1[r + 1..] == list[..k] + list[k + 1..];
      UnusedSplit(list[..k], list[k + 1..]);
    } else {
      UnusedPassed(list, k, v, r);
    }
  }

  /** A cleaned absent server leaves no rows behind, and the server in front of it never had any. */
  lemma UnusedPassed(list: seq<Server>, k: nat, v: Server, r: nat)
    requires r < k < |list| && list[r].flag != Absent && v.flag == Absent && v.sessions == {}
    ensures var l1 := list[k := v];
            Unused(l1[..r] + l1[r + 1..]) == Unused(list[..k]) + Unused(list[k + 1..])
  {
    hide Unused;
    var l1 := list[k := v];
    var front := list[..r] + list[r + 1..k];
    assert list[..k] == list[..r] + ([list[r]] + list[r + 1..k]);
    assert l1[..r] + l1[r + 1..] == front + ([v] + list[k + 1..]);
    UnusedAround(list[..r], list[r], list[r + 1..k]);
    UnusedAround(front, v, list[k + 1..]);
    UnusedSplit(list[..r], list[r + 1..k]);
    assert RowsOf(v.conf.id, v.sessions) == {};
  }

  lemma UnusedAround(a: seq<Server>, v: Server, b: seq<Server>)
    ensures Unused(a + ([v] + b)) == Unused(a) + (if v.flag == Absent then RowsOf(v.conf.id, v.sessions) else {})
            + Unused(b)
  {
    UnusedSplit(a, [v] + b);
    UnusedSplit([v], b);
    assert Unused([v]) == if v.flag == Absent then RowsOf(v.conf.id, v.sessions) else {} by {
      assert Unused([v][1..]) == {};
    }
  }

  // ---------- the running server ----------

  /** One reload, as a function of the list and the table. */
  function ReloadAll(list: seq<Server>, t: Table, files: seq<Conf>): (seq<Server>, Table) {
    var (l, t1) := Walk(RegisterAll(list, files), t);
    (Kept(l), t1 - Unused(l))
  }

  /** The files that could be read. */
  function Readable(files: seq<Option<Conf>>): seq<Conf>
    decreases |files|
  {
    if files == [] then []
    else
      var f := files[|files| - 1];
      Readable(files[..|files| - 1]) + if f == None then [] else [f.value]
  }

  lemma RegisterMore(list: seq<Server>, files: seq<Conf>, file: Option<Conf>)
    ensures RegisterAll(list, files + if file == None then [] else [file.value]) ==
            if file == None then RegisterAll(list, files) else Register(RegisterAll(list, files), file.value)
  {
    if file == None {
      assert files + [] == files;
    } else {
      assert (files + [file.value])[..|files|] == files;
    }
  }

  class MainServer {
    var list: seq<Server>
    var table: Table

    constructor (table: Table)
      ensures list == [] && this.table == table
    {
      list, this.table := [], table;
    }

    /** vserver_exists. */
    method Exists(f: Conf) returns (k: nat)
      ensures k == Match(list, f)
    {
      k := 0;
      while k < |list|
        invariant k <= |list| && Match(list, f) == k + Match(list[k..], f)
      {
        assert list[k..][1..] == list[k + 1..];
        if list[k].conf.id == f.id {
          return;
        }
        if list[k].conf.name == f.name {
          return;
        }
        k := k + 1;
      }
    }

    /** register_vserver. */
    method RegisterFile(file: Option<Conf>)
      modifies `list
      ensures list == if file == None then old(list) else Register(old(list), file.value)
    {
      if file == None {
        return;
      }
      var f := file.value;
      var k := Exists(f);
      if k < |list| {
        list := list[k := list[k].(dummy := Some(f))];
        if Head(f.name, NAME_LENGTH) != Head(list[k].conf.name, NAME_LENGTH) ||
           Head(f.clients, CLIENTS_LENGTH) != Head(list[k].conf.clients, CLIENTS_LENGTH) {
          list := list[k := list[k].(flag := Reset)];
        } else {
          list := list[k := list[k].(flag := Reload)];
        }
        return;
      }
      list := list + [Server(f, Init, None, {})];
    }

    /** get_vservers_config. */
    method LoadFiles(files: seq<Option<Conf>>)
      modifies `list
      ensures list == RegisterAll(old(list), Readable(files))
    {
      hide Register;
      var i := 0;
      while i < |files|
        invariant 0 <= i <= |files| && list == RegisterAll(old(list), Readable(files[..i]))
      {
        assert files[..i + 1][..i] == files[..i];
        RegisterMore(old(list), Readable(files[..i]), files[i]);
        RegisterFile(files[i]);
        i := i + 1;
      }
      assert files[..i] == files;
    }

    /** vserver_reload: the flag goes from RESET over INIT, or from RELOAD, to DONE. */
    method BringUp(k: nat)
      requires k < |list|
      modifies this
      ensures list == old(list)[k := Bring(old(list[k]), old(table)).0]
      ensures table == Bring(old(list[k]), old(table)).1
    {
      if list[k].flag == Done {
        list := list[k := list[k].(flag := Absent)];
        return;
      }
      ghost var first := list[k];
      while list[k].flag != Done
        invariant |list| == |old(list)| && list == old(list)[k := list[k]]
        invariant (list[k] == first && table == old(table)) ||
                  (list[k].flag == Done && (list[k], table) == Bring(first, old(table))) ||
                  (first.flag == Reset && list[k].flag == Init
                    && Bring(first, old(table)) == (Setup(list[k], table).(flag := Done), table))
        decreases Rank(list[k].flag)
      {
        var v := list[k];
        if v.flag == Init {
          list := list[k := Setup(v, table)];
          list := list[k := list[k].(flag := Done)];
        } else if v.flag == Reload {
          var (v1, t1) := Cleanup(v, table);
          v, table := v1, t1;
          if v.dummy != None {
            v := v.(conf := v.dummy.value);
          }
          v := v.(flag := Reload);
          list := list[k := Setup(v, table)];
          list := list[k := list[k].(flag := Done)];
        } else if v.flag == Reset {
          var (v1, t1) := Cleanup(v, table);
          v, table := v1, t1;
          if v.dummy != None {
            v := v.(conf := v.dummy.value, dummy := None);
          }
          list := list[k := v.(flag := Init)];
        } else {
          list := list[k := list[k].(flag := Done)];
        }
      }
    }

    /** walk_through_vserver with vserver_reload. */
    method WalkAll()
      modifies this
      ensures (list, table) == Walk(old(list), old(table))
    {
      hide Bring;
      var i := 0;
      while i < |list|
        invariant 0 <= i <= |list| == |old(list)|
        invariant (list[..i], table) == Walk(old(list)[..i], old(table)) && list[i..] == old(list)[i..]
      {
        assert old(list)[..i + 1][..i] == old(list)[..i] && list[i..][0] == old(list)[i..][0];
        ghost var front, rest := list[..i], list[i..];
        BringUp(i);
        assert list[..i + 1] == front + [list[i]] && list[i + 1..] == rest[1..];
        i := i + 1;
      }
      assert old(list)[..i] == old(list) && list[..i] == list;
    }

    /** unregister_vserver: the first server with the id leaves. */
    method Unregister(id: int)
      modifies `list
      ensures var k := ById(old(list), id);
              list == if k < |old(list)| then old(list)[..k] + old(list)[k + 1..] else old(list)
    {
      var k := 0;
      while k < |list|
        invariant k <= |list| && list == old(list) && ById(list, id) == k + ById(list[k..], id)
      {
        assert list[k..][1..] == list[k + 1..];
        if list[k].conf.id == id {
          list := list[..k] + list[k + 1..];
          break;
        }
        k := k + 1;
      }
    }

    /** vserver_unused_cleanup: the walk starts over after each removal. */
    method UnusedCleanup()
      modifies this
      ensures list == Kept(old(list)) && table == old(table) - Unused(old(list))
    {
      hide Kept, Unused, ById, AbsentHas;
      var runner := 0;
      while runner < |list|
        invariant 0 <= runner <= |list| && forall i :: 0 <= i < runner ==> list[i].flag != Absent
        invariant Kept(list) == Kept(old(list)) && table - Unused(list) == old(table) - Unused(old(list))
        decreases |list|, |list| - runner
      {
        if list[runner].flag == Absent {
          SweepStep(list, table, runner);
          var (v, t) := Cleanup(list[runner], table);
          list, table := list[runner := v], t;
          Unregister(v.conf.id);
          runner := 0;
        } else {
          runner := runner + 1;
        }
      }
      KeptAll(list);
    }

    /** rh_reload. */
    method ReloadFiles(files: seq<Option<Conf>>)
      modifies this
      ensures (list, table) == ReloadAll(old(list), old(table), Readable(files))
    {
      LoadFiles(files);
      WalkAll();
      UnusedCleanup();
    }
  }

  function Rank(f: Flag): nat {
    match f
    case Reset => 2
    case Done => 0
    case _ => 1
  }
}
