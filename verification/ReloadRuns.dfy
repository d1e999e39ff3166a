/** Sessions across reloads: who keeps them, who loses them, and exactly when memory and table stay
    in step, over whole runs. */
module ReloadRuns {
  import opened Options
  import opened VServers
  import opened Reloads

  lemma RowsMinus(t: Table, id: int, sessions: set<nat>, x: int)
    ensures Rows(t - RowsOf(id, sessions), x) == if x == id then Rows(t, x) - sessions else Rows(t, x)
  {
    var after := t - RowsOf(id, sessions);
    forall i: nat
      ensures i in Rows(after, x) <==> i in Rows(t, x) && !(x == id && i in sessions)
    {
      RowIn(after, x, i);
      RowIn(t, x, i);
    }
  }

  lemma RowIn(t: Table, id: int, i: nat)
    ensures i in Rows(t, id) <==> (id, i) in t
  {
    if (id, i) in t {
      var r := (id, i);
      assert r.1 in Rows(t, id);
    }
  }

  // ---------- the walk ----------

  ghost predicate IdsDiffer(list: seq<Server>) {
    forall i, j :: 0 <= i < j < |list| ==> list[i].conf.id != list[j].conf.id
  }

  /** No server in front of a reset one holds the id that it gets. */
  ghost predicate HoldersBehind(list: seq<Server>) {
    forall j, k :: 0 <= j < k < |list| && list[k].flag == Reset ==> list[j].conf.id != ConfAfter(list[k]).id
  }

  /** Before the walk, every server but the new ones has its rows in memory. */
  ghost predicate InSync(list: seq<Server>, t: Table) {
    forall v :: v in list ==> v.flag != Absent && (v.flag != Init ==> v.sessions == Rows(t, v.conf.id))
  }

  predicate ResetHas(list: seq<Server>, id: int) {
    exists v :: v in list && v.flag == Reset && v.conf.id == id
  }

  /** The sessions of a server after the walk. */
  function SessionsAfter(v: Server, t: Table): set<nat> {
    match v.flag
    case Init => Rows(t, v.conf.id)
    case Reset => if ConfAfter(v).id == v.conf.id then {} else Rows(t, ConfAfter(v).id)
    case _ => v.sessions
  }

  lemma BringSessions(v: Server, t: Table, t1: Table)
    requires v.flag != Absent && (v.flag != Init ==> v.sessions == Rows(t, v.conf.id))
    requires Rows(t1, v.conf.id) == Rows(t, v.conf.id)
    requires v.flag == Reset ==> Rows(t1, ConfAfter(v).id) == Rows(t, ConfAfter(v).id)
    ensures Bring(v, t1).0.sessions == SessionsAfter(v, t)
    ensures forall x :: Rows(Bring(v, t1).1, x) == if v.flag == Reset && v.conf.id == x then {} else Rows(t1, x)
  {
    hide Rows, RowsOf;
    if v.flag == Reset {
      forall x
        ensures Rows(Bring(v, t1).1, x) == if v.conf.id == x then {} else Rows(t1, x)
      {
        RowsMinus(t1, v.conf.id, v.sessions, x);
      }
      RowsMinus(t1, v.conf.id, v.sessions, v.conf.id);
      RowsMinus(t1, v.conf.id, v.sessions, ConfAfter(v).id);
    }
  }

  lemma {:induction false} WalkSessions(list: seq<Server>, t: Table)
    requires IdsDiffer(list) && HoldersBehind(list) && InSync(list, t)
    ensures |Walk(list, t).0| == |list|
    ensures forall k :: 0 <= k < |list| ==> Walk(list, t).0[k].sessions == SessionsAfter(list[k], t)
    ensures forall x :: Rows(Walk(list, t).1, x) == if ResetHas(list, x) then {} else Rows(t, x)
    decreases |list|
  {
    hide Rows, Bring, SessionsAfter, ConfAfter;
    if list != [] {
      var init, v := list[..|list| - 1], list[|list| - 1];
      assert forall u :: u in init ==> u in list;
      WalkSessions(init, t);
      var t1 := Walk(init, t).1;
      assert !ResetHas(init, v.conf.id);
      assert v.flag == Reset ==> !ResetHas(init, ConfAfter(v).id);
      BringSessions(v, t, t1);
      forall x
        ensures ResetHas(list, x) <==> ResetHas(init, x) || (v.flag == Reset && v.conf.id == x)
      {
        assert list == init + [v];
      }
    }
  }

  // ---------- the removal ----------

  lemma {:induction false} UnusedIn(list: seq<Server>, r: (int, nat))
    ensures r in Unused(list) <==> exists v :: v in list && v.flag == Absent && r.0 == v.conf.id && r.1 in v.sessions
  {
    if list != [] {
      UnusedIn(list[1..], r);
      assert list == [list[0]] + list[1..];
    }
  }

  /** Removing the rows of the absent servers empties their ids and no others. */
  lemma UnusedRows(list: seq<Server>, t: Table, x: int)
    requires forall v :: v in list && v.flag == Absent ==> v.sessions == Rows(t, v.conf.id)
    ensures Rows(t - Unused(list), x) == if AbsentHas(list, x) then {} else Rows(t, x)
  {
    hide Rows, Unused;
    forall i: nat
      ensures i in Rows(t - Unused(list), x) <==> i in Rows(t, x) && !AbsentHas(list, x)
    {
      RowIn(t - Unused(list), x, i);
      RowIn(t, x, i);
      UnusedIn(list, (x, i));
      if AbsentHas(list, x) {
        var v :| v in list && v.flag == Absent && v.conf.id == x;
        assert i in Rows(t, x) ==> i in v.sessions;
      }
    }
  }

  // ---------- the loaded list ----------

  /** Brought up, no id or name shared, and memory in step with the table. */
  ghost predicate Settled(list: seq<Server>, t: Table) {
    Live(list) && forall v :: v in list ==> v.sessions == Rows(t, v.conf.id)
  }

  /** Server k after the files are loaded. */
  lemma LoadedLive(live: seq<Server>, files: seq<Conf>, k: nat)
    requires Apart(files) && k < |live|
    ensures var list := RegisterAll(live, files);
            && |list| == |live| + |News(live, files)|
            && list[k] == match LastFor(live, files, k)
                          case None => live[k]
                          case Some(f) => Mark(live[k], f)
  {
    hide LastFor, News, Apart, Mark;
    Loaded(live, files);
  }

  lemma LoadedNew(live: seq<Server>, files: seq<Conf>, k: nat)
    requires Apart(files) && |live| <= k < |RegisterAll(live, files)|
    ensures var v := RegisterAll(live, files)[k];
            v.flag == Init && v.conf in files && Match(live, v.conf) == |live| && ConfAfter(v) == v.conf
    ensures |RegisterAll(live, files)| == |live| + |News(live, files)|
    ensures RegisterAll(live, files)[k] == News(live, files)[k - |live|]
  {
    hide LastFor, News, Apart, Match;
    Loaded(live, files);
    var v := News(live, files)[k - |live|];
    assert v in News(live, files);
    NewsAt(live, files, v);
  }

  lemma {:induction false} NewsIdsDiffer(live: seq<Server>, files: seq<Conf>)
    requires Apart(files)
    ensures IdsDiffer(News(live, files))
    decreases |files|
  {
    if files != [] {
      var init, f := files[..|files| - 1], files[|files| - 1];
      NewsIdsDiffer(live, init);
      forall v | v in News(live, init)
        ensures v.conf.id != f.id
      {
        NewsAt(live, init, v);
        var i :| 0 <= i < |init| && init[i] == v.conf;
        assert !Matches(files[i], f);
      }
    }
  }

  /** One server of the loaded list. */
  lemma LoadedAt(live: seq<Server>, files: seq<Conf>, t: Table, k: nat)
    requires Settled(live, t) && Apart(files) && k < |RegisterAll(live, files)|
    ensures var v := RegisterAll(live, files)[k];
            v.flag != Absent && (v.flag != Init ==> v.sessions == Rows(t, v.conf.id))
    ensures k < |live| ==> RegisterAll(live, files)[k].conf == live[k].conf
    ensures RegisterAll(live, files)[k].flag == Reset ==>
              && k < |live| && Match(live, ConfAfter(RegisterAll(live, files)[k])) == k
  {
    hide Rows, LastFor, Match, Apart, RegisterAll;
    if k < |live| {
      LoadedLive(live, files, k);
      assert live[k] in live;
      LastForIn(live, files, k);
    } else {
      LoadedNew(live, files, k);
    }
  }

  lemma LoadedIdsDiffer(live: seq<Server>, files: seq<Conf>, t: Table, i: nat, j: nat)
    requires Settled(live, t) && Apart(files) && i < j < |RegisterAll(live, files)|
    ensures RegisterAll(live, files)[i].conf.id != RegisterAll(live, files)[j].conf.id
  {
    hide Rows, LastFor, Apart, RegisterAll, News, ConfAfter, Match;
    var list := RegisterAll(live, files);
    LoadedAt(live, files, t, i);
    LoadedAt(live, files, t, j);
    if j >= |live| {
      LoadedNew(live, files, j);
      if i < |live| {
        NoMatch(live, list[j].conf, i);
      } else {
        LoadedNew(live, files, i);
        NewsIdsDiffer(live, files);
      }
    }
  }

  lemma NoMatch(live: seq<Server>, f: Conf, i: nat)
    requires i < Match(live, f)
    ensures live[i].conf.id != f.id && live[i].conf.name != f.name
  {
    assert !Matches(live[i].conf, f);
  }

  lemma LoadedReady(live: seq<Server>, files: seq<Conf>, t: Table)
    requires Settled(live, t) && Apart(files)
    ensures IdsDiffer(RegisterAll(live, files)) && HoldersBehind(RegisterAll(live, files))
            && InSync(RegisterAll(live, files), t)
  {
    hide Rows, Apart, RegisterAll, Settled, ConfAfter, Match;
    var list := RegisterAll(live, files);
    forall i, j | 0 <= i < j < |list|
      ensures list[i].conf.id != list[j].conf.id
    {
      LoadedIdsDiffer(live, files, t, i, j);
    }
    forall j, k | 0 <= j < k < |list| && list[k].flag == Reset
      ensures list[j].conf.id != ConfAfter(list[k]).id
    {
      LoadedAt(live, files, t, k);
      LoadedAt(live, files, t, j);
      NoMatch(live, ConfAfter(list[k]), j);
    }
    forall v | v in list
      ensures v.flag != Absent && (v.flag != Init ==> v.sessions == Rows(t, v.conf.id))
    {
      var k :| 0 <= k < |list| && list[k] == v;
      LoadedAt(live, files, t, k);
    }
  }

  // ---------- the rows that a reload leaves ----------

  /** The live server of this id goes away or is reset: no file that comes to it has its name and
      clients. */
  ghost predicate Ends(live: seq<Server>, files: seq<Conf>, id: int) {
    exists k :: 0 <= k < |live| && live[k].conf.id == id && Lost(live, files, k)
  }

  ghost predicate Lost(live: seq<Server>, files: seq<Conf>, k: nat)
    requires k < |live|
  {
    forall f :: f in files && Match(live, f) == k ==> !SameServer(f, live[k].conf)
  }

  ghost function RowsLeft(live: seq<Server>, t: Table, files: seq<Conf>, id: int): set<nat> {
    if Ends(live, files, id) then {} else Rows(t, id)
  }

  lemma OneFile(live: seq<Server>, files: seq<Conf>, f: Conf, g: Conf)
    requires OneEach(live, files) && f in files && g in files && Match(live, f) == Match(live, g) < |live|
    ensures f == g
  {
    var i :| 0 <= i < |files| && files[i] == f;
    var j :| 0 <= j < |files| && files[j] == g;
  }

  /** The ids whose rows a reload removes: of absent servers and of those that were reset. */
  lemma EndsIs(live: seq<Server>, files: seq<Conf>, t: Table, id: int)
    requires Settled(live, t) && Apart(files) && OneEach(live, files)
    ensures var list := RegisterAll(live, files);
            Ends(live, files, id) <==> AbsentHas(Walk(list, t).0, id) || ResetHas(list, id)
  {
    hide Rows, Apart, RegisterAll, Walk, LastFor, Match, WalkedAs, News, Settled, SameServer, OneEach;
    var list := RegisterAll(live, files);
    var after := Walk(list, t).0;
    SettledLive(live, t);
    Walked(live, files, t);
    if Ends(live, files, id) {
      var k :| 0 <= k < |live| && live[k].conf.id == id && Lost(live, files, k);
      LoadedLive(live, files, k);
      LastForIn(live, files, k);
      match LastFor(live, files, k)
      case None =>
        LiveServer(live, files, after, k);
        assert after[k] in after;
      case Some(f) =>
        assert list[k] in list;
    }
    if AbsentHas(after, id) {
      var v :| v in after && v.flag == Absent && v.conf.id == id;
      var k :| 0 <= k < |after| && after[k] == v;
      AbsentLost(live, files, after, k);
    }
    if ResetHas(list, id) {
      var v :| v in list && v.flag == Reset && v.conf.id == id;
      var k :| 0 <= k < |list| && list[k] == v;
      ResetLost(live, files, t, k);
    }
  }

  lemma SettledLive(live: seq<Server>, t: Table)
    requires Settled(live, t)
    ensures Live(live)
  {
  }

  lemma AbsentLost(live: seq<Server>, files: seq<Conf>, after: seq<Server>, k: nat)
    requires WalkedAs(live, files, after) && k < |after| && after[k].flag == Absent
    ensures k < |live| && after[k].conf == live[k].conf && Lost(live, files, k) && LastFor(live, files, k) == None
  {
    hide Match, LastFor, News, SameServer;
    assert k < |live| && LiveWalked(live, files, after, k);
    LastForIn(live, files, k);
  }

  lemma ResetLost(live: seq<Server>, files: seq<Conf>, t: Table, k: nat)
    requires Settled(live, t) && OneEach(live, files) && Apart(files)
    requires k < |RegisterAll(live, files)| && RegisterAll(live, files)[k].flag == Reset
    ensures k < |live| && RegisterAll(live, files)[k].conf == live[k].conf && Lost(live, files, k)
  {
    hide Match, LastFor, News, RegisterAll, Rows, SameServer, Apart, OneEach;
    if k < |live| {
      LoadedLive(live, files, k);
      assert live[k] in live;
      LastForIn(live, files, k);
      var g := LastFor(live, files, k).value;
      forall f | f in files && Match(live, f) == k
        ensures f == g
      {
        OneFile(live, files, f, g);
      }
    } else {
      LoadedNew(live, files, k);
    }
  }

  // ---------- when memory and table stay in step ----------

  /** What the server of a file has in memory after a reload. */
  function SessionsOfFile(live: seq<Server>, t: Table, f: Conf): set<nat> {
    var m := Match(live, f);
    if m == |live| then Rows(t, f.id)
    else if SameServer(f, live[m].conf) then live[m].sessions
    else if f.id == live[m].conf.id then {}
    else Rows(t, f.id)
  }

  /** A file that changes the id of its server: if the server keeps its sessions, they are the rows
      left under the new id; if it is reset, the rows it found under the new id stay. */
  ghost predicate FileInStep(live: seq<Server>, t: Table, files: seq<Conf>, f: Conf) {
    var m := Match(live, f);
    m < |live| && f.id != live[m].conf.id ==>
      if SameServer(f, live[m].conf) then live[m].sessions == RowsLeft(live, t, files, f.id)
      else Ends(live, files, f.id) ==> Rows(t, f.id) == {}
  }

  ghost predicate InStep(live: seq<Server>, t: Table, files: seq<Conf>) {
    forall f :: f in files ==> FileInStep(live, t, files, f)
  }

  lemma FileStep(live: seq<Server>, t: Table, files: seq<Conf>, f: Conf)
    requires Settled(live, t) && OneEach(live, files) && f in files
    ensures SessionsOfFile(live, t, f) == RowsLeft(live, t, files, f.id) <==> FileInStep(live, t, files, f)
  {
    hide Rows, SameServer, Match, OneEach;
    var m := Match(live, f);
    if m == |live| {
      forall i | 0 <= i < |live| ensures live[i].conf.id != f.id {
        NoMatch(live, f, i);
      }
    } else if f.id == live[m].conf.id {
      assert live[m] in live;
      forall g | g in files && Match(live, g) == m ensures g == f {
        OneFile(live, files, f, g);
      }
      assert Lost(live, files, m) <==> !SameServer(f, live[m].conf);
      OnlyId(live, t, m);
    }
  }

  lemma OnlyId(live: seq<Server>, t: Table, m: nat)
    requires Settled(live, t) && m < |live|
    ensures forall k :: 0 <= k < |live| && live[k].conf.id == live[m].conf.id ==> k == m
  {
    hide Rows;
    forall i, j | 0 <= i < j < |live| ensures live[i].conf.id != live[j].conf.id {
      assert !Matches(live[i].conf, live[j].conf);
    }
  }

  /** The walk leaves every server that is present with the sessions of its file. */
  lemma AfterSessions(live: seq<Server>, t: Table, files: seq<Conf>, i: nat)
    requires Settled(live, t) && Apart(files) && i < |Walk(RegisterAll(live, files), t).0|
    ensures var v := Walk(RegisterAll(live, files), t).0[i];
            v.flag != Absent ==> v.sessions == SessionsOfFile(live, t, v.conf)
  {
    hide Rows, SameServer, Apart, RegisterAll, Walk, Settled, Match, LastFor, WalkedAs, News;
    var list := RegisterAll(live, files);
    var after := Walk(list, t).0;
    SettledLive(live, t);
    LoadedReady(live, files, t);
    WalkSessions(list, t);
    Walked(live, files, t);
    if after[i].flag != Absent {
      PresentAt(live, files, after, i);
      WalkAt(list, t, i);
      if i < |live| {
        LoadedLive(live, files, i);
      } else {
        LoadedNew(live, files, i);
      }
    }
  }

  /** An absent server still has its rows when the walk is over. */
  lemma AbsentSessions(live: seq<Server>, t: Table, files: seq<Conf>, i: nat)
    requires Settled(live, t) && Apart(files) && i < |Walk(RegisterAll(live, files), t).0|
    ensures var (after, t2) := Walk(RegisterAll(live, files), t);
            after[i].flag == Absent ==> after[i].sessions == Rows(t2, after[i].conf.id)
  {
    hide Rows, SameServer, Apart, RegisterAll, Walk, Settled, Match, LastFor, WalkedAs, News, ConfAfter;
    var list := RegisterAll(live, files);
    var (after, t2) := Walk(list, t);
    SettledLive(live, t);
    LoadedReady(live, files, t);
    WalkSessions(list, t);
    Walked(live, files, t);
    if after[i].flag == Absent {
      AbsentLost(live, files, after, i);
      WalkAt(list, t, i);
      LoadedLive(live, files, i);
      LoadedAt(live, files, t, i);
      OnlyReset(list, i);
    }
  }

  lemma OnlyReset(list: seq<Server>, i: nat)
    requires IdsDiffer(list) && i < |list| && list[i].flag != Reset
    ensures !ResetHas(list, list[i].conf.id)
  {
    forall v | v in list && v.flag == Reset ensures v.conf.id != list[i].conf.id {
      var j :| 0 <= j < |list| && list[j] == v;
      assert i < j || j < i;
    }
  }

  /** The rows after a reload. */
  lemma ReloadRows(live: seq<Server>, t: Table, files: seq<Conf>, id: int)
    requires Settled(live, t) && Apart(files) && OneEach(live, files)
    ensures Rows(ReloadAll(live, t, files).1, id) == RowsLeft(live, t, files, id)
  {
    hide Rows, Apart, RegisterAll, Walk, Settled, Unused, Kept, Ends, AbsentHas, ResetHas, OneEach;
    var list := RegisterAll(live, files);
    var (after, t2) := Walk(list, t);
    LoadedReady(live, files, t);
    WalkSessions(list, t);
    forall v | v in after && v.flag == Absent
      ensures v.sessions == Rows(t2, v.conf.id)
    {
      var i :| 0 <= i < |after| && after[i] == v;
      AbsentSessions(live, t, files, i);
    }
    UnusedRows(after, t2, id);
    EndsIs(live, files, t, id);
  }

  /** The server that a file has after a reload. */
  lemma ServerOf(live: seq<Server>, t: Table, files: seq<Conf>, w: Server)
    requires Settled(live, t) && Apart(files) && w in ReloadAll(live, t, files).0
    ensures w.sessions == SessionsOfFile(live, t, w.conf)
  {
    hide Rows, Apart, RegisterAll, Walk, Settled, Unused, Kept, SessionsOfFile, AbsentHas;
    var after := Walk(RegisterAll(live, files), t).0;
    var i := KeptFrom(after, w);
    AfterSessions(live, t, files, i);
  }

  /** Under the exact condition for one server per file: memory and table are in step after a reload
      if and only if every file that changes the id of its server meets its condition; and exactly
      the rows of removed and reset servers are gone. */
  lemma ReloadInStep(live: seq<Server>, t: Table, files: seq<Conf>)
    requires Settled(live, t) && Apart(files) && OneEach(live, files) && NoStaleId(live, files)
    ensures var (l, t1) := ReloadAll(live, t, files);
            && OnePerFile(l, files)
            && (forall id :: Rows(t1, id) == RowsLeft(live, t, files, id))
            && (Settled(l, t1) <==> InStep(live, t, files))
  {
    hide Rows, Apart, Settled, ReloadAll, SessionsOfFile, FileInStep, RowsLeft, OneEach, NoStaleId, OnePerFile;
    var (l, t1) := ReloadAll(live, t, files);
    SettledLive(live, t);
    ReloadExact(live, files, t);
    forall id ensures Rows(t1, id) == RowsLeft(live, t, files, id) {
      ReloadRows(live, t, files, id);
    }
    PerFile(l, files);
    SettledIs(l, t1, files);
    forall w | w in l
      ensures w.sessions == Rows(t1, w.conf.id) <==> FileInStep(live, t, files, w.conf)
    {
      ServerOf(live, t, files, w);
      FileStep(live, t, files, w.conf);
    }
    forall f | f in files ensures HasConf(l, f) {
    }
  }

  lemma PerFile(l: seq<Server>, files: seq<Conf>)
    requires OnePerFile(l, files)
    ensures forall w :: w in l ==> w.conf in files
    ensures forall f :: f in files ==> HasConf(l, f)
  {
  }

  lemma SettledIs(l: seq<Server>, t: Table, files: seq<Conf>)
    requires OnePerFile(l, files) && Apart(files)
    ensures Settled(l, t) <==> forall w :: w in l ==> w.sessions == Rows(t, w.conf.id)
  {
    hide Rows, Apart;
    forall i, j | 0 <= i < j < |l|
      ensures !Matches(l[i].conf, l[j].conf)
    {
      assert l[i] in l && l[j] in l;
      FilesApart(files, l[i].conf, l[j].conf);
    }
  }

  lemma FilesApart(files: seq<Conf>, f: Conf, g: Conf)
    requires Apart(files) && f in files && g in files && f != g
    ensures !Matches(f, g)
  {
    var i :| 0 <= i < |files| && files[i] == f;
    var j :| 0 <= j < |files| && files[j] == g;
    if i < j { assert !Matches(files[i], files[j]); } else { assert !Matches(files[j], files[i]); }
  }

  /** What the server of each file has in memory: a reloaded server keeps its sessions, a reset one
      starts with the rows of its id, which are none if the id stayed. */
  lemma ReloadSessions(live: seq<Server>, t: Table, files: seq<Conf>, f: Conf)
    requires Settled(live, t) && Apart(files) && OneEach(live, files) && NoStaleId(live, files) && f in files
    ensures var l := ReloadAll(live, t, files).0;
            exists w :: w in l && w.conf == f && w.sessions == SessionsOfFile(live, t, f)
  {
    hide Apart, ReloadAll, Rows, Settled, SessionsOfFile, OneEach, NoStaleId, OnePerFile;
    var l := ReloadAll(live, t, files).0;
    SettledLive(live, t);
    ReloadExact(live, files, t);
    PerFile(l, files);
    assert HasConf(l, f);
    var w :| w in l && w.conf == f;
    ServerOf(live, t, files, w);
  }

  /** If the new ids are held by no server and have no rows, the condition is that no server keeps
      sessions under a new id. */
  lemma RenumberExact(live: seq<Server>, t: Table, files: seq<Conf>)
    requires Settled(live, t) && Apart(files) && OneEach(live, files) && NoStaleId(live, files)
    requires forall f :: f in files && Renumbered(live, f) ==>
               Rows(t, f.id) == {} && forall v :: v in live ==> v.conf.id != f.id
    ensures var (l, t1) := ReloadAll(live, t, files);
            Settled(l, t1) <==>
            forall f :: f in files && Renumbered(live, f) && SameServer(f, live[Match(live, f)].conf) ==>
              live[Match(live, f)].sessions == {}
  {
    hide Apart, ReloadAll, Rows, Settled, OneEach, NoStaleId, OnePerFile, Match, SameServer, Ends;
    ReloadInStep(live, t, files);
    forall f | f in files
      ensures FileInStep(live, t, files, f) <==>
              (Renumbered(live, f) && SameServer(f, live[Match(live, f)].conf) ==> live[Match(live, f)].sessions == {})
    {
    }
  }

  /** The file comes to a live server and changes its id. */
  predicate Renumbered(live: seq<Server>, f: Conf) {
    Match(live, f) < |live| && f.id != live[Match(live, f)].conf.id
  }

  // ---------- files that leave ids alone ----------

  /** A file that has the name of a live server has its id. */
  ghost predicate IdsStay(live: seq<Server>, files: seq<Conf>) {
    forall v, f :: v in live && f in files && v.conf.name == f.name ==> v.conf.id == f.id
  }

  /** Then a file comes to the server of its id. */
  lemma MatchById(live: seq<Server>, files: seq<Conf>, f: Conf, k: nat)
    requires Live(live) && IdsStay(live, files) && f in files && k < |live|
    ensures live[k].conf.id == f.id <==> Match(live, f) == k
  {
    var m := Match(live, f);
    assert live[k] in live;
    if m < |live| {
      assert live[m] in live && live[m].conf.id == f.id;
      if m < k { assert !Matches(live[m].conf, live[k].conf); }
    }
  }

  /** Such files meet all conditions. */
  lemma IdsStayClean(live: seq<Server>, t: Table, files: seq<Conf>)
    requires Settled(live, t) && Apart(files) && IdsStay(live, files)
    ensures OneEach(live, files) && NoStaleId(live, files) && InStep(live, t, files)
  {
    hide Match, IdsStay, Live, Claimed, Apart, Rows;
    forall i, j | 0 <= i < j < |files| && Match(live, files[i]) == Match(live, files[j])
      ensures Match(live, files[j]) == |live|
    {
      var m := Match(live, files[j]);
      if m < |live| {
        MatchById(live, files, files[i], m);
        MatchById(live, files, files[j], m);
        IdsApart(files, i, j);
      }
    }
    forall k, f | 0 <= k < |live| && f in files && live[k].conf.id == f.id
      ensures Claimed(live, files, k)
    {
      MatchById(live, files, f, k);
      ClaimedBy(live, files, f);
    }
    forall f | f in files ensures FileInStep(live, t, files, f) {
      if Match(live, f) < |live| { MatchById(live, files, f, Match(live, f)); }
    }
  }

  lemma IdsApart(files: seq<Conf>, i: nat, j: nat)
    requires Apart(files) && i < j < |files|
    ensures files[i].id != files[j].id
  {
    assert !Matches(files[i], files[j]);
  }

  lemma ClaimedBy(live: seq<Server>, files: seq<Conf>, f: Conf)
    requires f in files
    ensures Claimed(live, files, Match(live, f))
  {
  }

  /** So a reload under files that leave ids alone ends with one server per file and memory in step
      with the table. */
  lemma ReloadSettles(live: seq<Server>, t: Table, files: seq<Conf>)
    requires Settled(live, t) && Apart(files) && IdsStay(live, files)
    ensures var (l, t1) := ReloadAll(live, t, files);
            && OnePerFile(l, files) && Settled(l, t1)
            && forall id :: Rows(t1, id) == RowsLeft(live, t, files, id)
  {
    hide Rows, Apart, IdsStay, Settled, ReloadAll, OnePerFile, RowsLeft, OneEach, NoStaleId, InStep;
    IdsStayClean(live, t, files);
    ReloadInStep(live, t, files);
  }

  /** When a file keeps the name and clients of a live server but changes its id, the sessions
      stay in memory under the new id while their rows stay under the old one. */
  lemma IdChangeOrphans()
    ensures var v := Server(Conf(1, "lan", "10.0.0.0/24", "eth0", ""), Done, None, {7});
            var f := Conf(2, "lan", "10.0.0.0/24", "eth0", "");
            var (l, t) := ReloadAll([v], {(1, 7)}, [f]);
            && Settled([v], {(1, 7)}) && Apart([f]) && OnePerFile(l, [f])
            && !Settled(l, t) && l == [v.(conf := f, dummy := Some(f))] && t == {(1, 7)}
  {
    var v := Server(Conf(1, "lan", "10.0.0.0/24", "eth0", ""), Done, None, {7});
    var f := Conf(2, "lan", "10.0.0.0/24", "eth0", "");
    var w := v.(conf := f, dummy := Some(f));
    assert Settled([v], {(1, 7)}) by {
      assert Rows({(1, 7)}, 1) == {7} by { RowIn({(1, 7)}, 1, 7); }
    }
    assert Match([v], f) == 0 && [f][..0] == [];
    assert RegisterAll([v], [f]) == [v.(dummy := Some(f), flag := Reload)];
    WalkOne(v.(dummy := Some(f), flag := Reload), {(1, 7)});
    KeptAll([w]);
    assert HasConf([w], f) by { assert w in [w]; }
    RowIn({(1, 7)}, 2, 7);
    assert w in [w] && 7 in w.sessions;
  }

  lemma WalkOne(v: Server, t: Table)
    ensures Walk([v], t) == ([Bring(v, t).0], Bring(v, t).1)
  {
    hide Bring;
    var list := [v];
    assert list[..|list| - 1] == [] && Walk(list[..|list| - 1], t) == ([], t);
    assert [] + [Bring(v, t).0] == [Bring(v, t).0];
  }

  // ---------- runs ----------

  datatype Step = Reloading(files: seq<Conf>) | Login(id: int, session: nat) | Logout(id: int, session: nat)

  /** Logging in or out changes the server of the id and the table alike. */
  function Apply(list: seq<Server>, t: Table, step: Step): (seq<Server>, Table) {
    match step
    case Reloading(files) => ReloadAll(list, t, files)
    case Login(id, i) =>
      var k := ById(list, id);
      if k == |list| then (list, t) else (list[k := list[k].(sessions := list[k].sessions + {i})], t + {(id, i)})
    case Logout(id, i) =>
      var k := ById(list, id);
      if k == |list| then (list, t) else (list[k := list[k].(sessions := list[k].sessions - {i})], t - {(id, i)})
  }

  ghost predicate ReloadOk(list: seq<Server>, t: Table, files: seq<Conf>) {
    Apart(files) && OneEach(list, files) && NoStaleId(list, files) && InStep(list, t, files)
  }

  function Run(list: seq<Server>, t: Table, steps: seq<Step>): (seq<Server>, Table)
    decreases |steps|
  {
    if steps == [] then (list, t)
    else
      var (l, t1) := Apply(list, t, steps[0]);
      Run(l, t1, steps[1..])
  }

  /** At every reload the files have distinct ids and names and meet the exact conditions for one
      server per file and for memory in step with the table; files that leave ids alone do. */
  ghost predicate RunOk(list: seq<Server>, t: Table, steps: seq<Step>)
    decreases |steps|
  {
    steps == [] ||
    ((steps[0].Reloading? ==> ReloadOk(list, t, steps[0].files)) &&
     var (l, t1) := Apply(list, t, steps[0]);
     RunOk(l, t1, steps[1..]))
  }

  lemma LoginKeeps(list: seq<Server>, t: Table, id: int, i: nat, on: bool)
    requires Settled(list, t)
    ensures var (l, t1) := Apply(list, t, if on then Login(id, i) else Logout(id, i));
            Settled(l, t1)
  {
    hide Rows, ById;
    var (l, t1) := Apply(list, t, if on then Login(id, i) else Logout(id, i));
    var k := ById(list, id);
    if k < |list| {
      forall j | 0 <= j < |list|
        ensures l[j].sessions == Rows(t1, l[j].conf.id)
      {
        assert list[j] in list;
        forall x: nat
          ensures x in l[j].sessions <==> x in Rows(t1, l[j].conf.id)
        {
          RowIn(t1, l[j].conf.id, x);
          RowIn(t, l[j].conf.id, x);
        }
      }
      forall v | v in l ensures v.flag == Done && v.sessions == Rows(t1, v.conf.id) {
        var j :| 0 <= j < |l| && l[j] == v;
        assert list[j] in list;
      }
    }
  }

  /** Over every run from the start of the daemon, in which the first load is a reload of no
      servers: memory and table stay in step and every reload ends with one server per file. */
  lemma {:induction false} RunSettled(list: seq<Server>, t: Table, steps: seq<Step>)
    requires Settled(list, t) && RunOk(list, t, steps)
    ensures Settled(Run(list, t, steps).0, Run(list, t, steps).1)
    ensures steps != [] && steps[|steps| - 1].Reloading? ==> OnePerFile(Run(list, t, steps).0, steps[|steps| - 1].files)
    decreases |steps|
  {
    hide Settled, Apply, OnePerFile, ReloadOk;
    if steps != [] {
      var (l, t1) := Apply(list, t, steps[0]);
      StepKeeps(list, t, steps[0]);
      RunSettled(l, t1, steps[1..]);
      if |steps| == 1 { assert steps[1..] == []; } else { assert steps[1..][|steps| - 2] == steps[|steps| - 1]; }
    }
  }

  lemma StepKeeps(list: seq<Server>, t: Table, step: Step)
    requires Settled(list, t) && (step.Reloading? ==> ReloadOk(list, t, step.files))
    ensures var (l, t1) := Apply(list, t, step);
            Settled(l, t1) && (step.Reloading? ==> OnePerFile(l, step.files))
  {
    hide Settled, OnePerFile, Apart, OneEach, NoStaleId, InStep, ReloadAll, Rows;
    match step
    case Reloading(files) => ReloadInStep(list, t, files);
    case Login(id, i) => LoginKeeps(list, t, id, i, true);
    case Logout(id, i) => LoginKeeps(list, t, id, i, false);
  }
}
