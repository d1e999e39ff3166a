/** Whole runs of reloads seen from the interfaces: which interfaces go up and down while virtual
    servers are brought up, reset and removed, and that the users counted in InterfaceCounts.dfy
    are the interfaces of the servers in the list. */
module InterfaceReloads {
  import opened VServers
  import opened Reloads
  import opened Interfaces
  import Counts = InterfaceCounts
  import Runs = ReloadRuns

  type Users = multiset<string>
  type Moves = seq<Counts.Step>

  // ---------- the interfaces that a reload moves ----------

  /** The bandwidth task of a server in the flag loop: up when it is initialised, down and up again
      when it is reset, nothing when it is reloaded. */
  function BringMoves(v: Server): Moves {
    match v.flag
    case Init => [Counts.Up(v.conf.dev)]
    case Reset => [Counts.Down(v.conf.dev), Counts.Up(ConfAfter(v).dev)]
    case _ => []
  }

  function WalkMoves(list: seq<Server>): Moves
    decreases |list|
  {
    if list == [] then [] else WalkMoves(list[..|list| - 1]) + BringMoves(list[|list| - 1])
  }

  /** Absent servers are cleaned up before they leave the list. */
  function SweepMoves(list: seq<Server>): Moves {
    if list == [] then []
    else (if list[0].flag == Absent then [Counts.Down(list[0].conf.dev)] else []) + SweepMoves(list[1..])
  }

  function ReloadMoves(live: seq<Server>, t: Table, files: seq<Conf>): Moves {
    var list := RegisterAll(live, files);
    WalkMoves(list) + SweepMoves(Walk(list, t).0)
  }

  // ---------- the interfaces of a list ----------

  /** The interfaces of the servers that are up: all but those not initialised yet. */
  function UpDevs(list: seq<Server>): Users
    decreases |list|
  {
    if list == [] then multiset{}
    else UpDevs(list[..|list| - 1]) + DevIf(list[|list| - 1], list[|list| - 1].flag != Init)
  }

  function DevIf(v: Server, up: bool): Users {
    if up then multiset{v.conf.dev} else multiset{}
  }

  /** The interfaces of the servers that no removal awaits. */
  function PresentDevs(list: seq<Server>): Users {
    if list == [] then multiset{} else DevIf(list[0], list[0].flag != Absent) + PresentDevs(list[1..])
  }

  lemma {:induction false} UpDevsFirst(list: seq<Server>)
    requires list != []
    ensures UpDevs(list) == DevIf(list[0], list[0].flag != Init) + UpDevs(list[1..])
    decreases |list|
  {
    hide DevIf;
    if |list| > 1 {
      var init, more := list[..|list| - 1], list[1..];
      UpDevsFirst(init);
      assert init[1..] == more[..|more| - 1] && init[0] == list[0] && more[|more| - 1] == list[|list| - 1];
    } else {
      assert list[..0] == [] && list[1..] == [];
    }
  }

  // ---------- moves in sequence ----------

  lemma {:induction false} MovesSplit(users: Users, a: Moves, b: Moves)
    ensures Counts.UsersOf(users, a + b) == Counts.UsersOf(Counts.UsersOf(users, a), b)
    ensures Counts.RunOk(users, a + b) <==> Counts.RunOk(users, a) && Counts.RunOk(Counts.UsersOf(users, a), b)
    decreases |a|
  {
    if a == [] {
      assert a + b == b;
    } else {
      assert (a + b)[1..] == a[1..] + b;
      MovesSplit(Counts.UsersAfter(users, a[0]), a[1..], b);
    }
  }

  /** The moves can be made on the users before and leave the users after. */
  ghost predicate Leads(before: Users, moves: Moves, after: Users) {
    Counts.RunOk(before, moves) && Counts.UsersOf(before, moves) == after
  }

  lemma LeadsOn(before: Users, a: Moves, mid: Users, b: Moves, after: Users)
    requires Leads(before, a, mid) && Leads(mid, b, after)
    ensures Leads(before, a + b, after)
  {
    MovesSplit(before, a, b);
  }

  // ---------- one reload ----------

  /** A reloaded server keeps its interface. */
  predicate DevKept(v: Server) {
    v.flag == Reload ==> ConfAfter(v).dev == v.conf.dev
  }

  lemma BringLeads(v: Server, t: Table, rest: Users)
    requires DevKept(v)
    ensures Leads(DevIf(v, v.flag != Init) + rest, BringMoves(v), DevIf(Bring(v, t).0, true) + rest)
  {
    BringConf(v, t);
    hide Leads, Bring;
    var own, next := multiset{v.conf.dev}, multiset{ConfAfter(v).dev};
    match v.flag
    case Init =>
      LeadsUp(rest, v.conf.dev);
      assert multiset{} + rest == rest && rest + own == own + rest;
    case Reset =>
      assert own + rest - own == rest;
      LeadsDown(own + rest, v.conf.dev);
      LeadsUp(rest, ConfAfter(v).dev);
      LeadsOn(own + rest, [Counts.Down(v.conf.dev)], rest, [Counts.Up(ConfAfter(v).dev)], rest + next);
      assert rest + next == next + rest;
      assert BringMoves(v) == [Counts.Down(v.conf.dev)] + [Counts.Up(ConfAfter(v).dev)];
    case _ =>
      LeadsNone(own + rest);
  }

  lemma BringConf(v: Server, t: Table)
    ensures Bring(v, t).0.conf == ConfAfter(v)
  {
  }

  lemma LeadsUp(users: Users, dev: string)
    ensures Leads(users, [Counts.Up(dev)], users + multiset{dev})
  {
    assert [Counts.Up(dev)][1..] == [];
  }

  lemma LeadsDown(users: Users, dev: string)
    requires dev in users
    ensures Leads(users, [Counts.Down(dev)], users - multiset{dev})
  {
    assert [Counts.Down(dev)][1..] == [];
  }

  /** Through the walk: afterwards every server of the list is up. */
  lemma {:induction false} WalkLeads(list: seq<Server>, t: Table, rest: Users)
    requires forall v :: v in list ==> DevKept(v)
    ensures Leads(UpDevs(list) + rest, WalkMoves(list), UpDevs(Walk(list, t).0) + rest)
    ensures forall v :: v in Walk(list, t).0 ==> v.flag != Init
    decreases |list|
  {
    hide Leads, Bring, BringMoves, DevKept, DevIf;
    if list == [] {
      LeadsNone(rest);
      assert UpDevs(list) + rest == rest;
    } else {
      var init, v := list[..|list| - 1], list[|list| - 1];
      var (front, t1) := Walk(init, t);
      var w := Bring(v, t1).0;
      var own := DevIf(v, v.flag != Init);
      WalkLeads(init, t, own + rest);
      BringLeads(v, t1, UpDevs(front) + rest);
      BringUp(v, t1);
      assert Walk(list, t).0 == front + [w] && (front + [w])[..|front|] == front;
      assert UpDevs(list) + rest == UpDevs(init) + (own + rest);
      assert UpDevs(front) + (own + rest) == own + (UpDevs(front) + rest);
      assert UpDevs(front + [w]) + rest == DevIf(w, true) + (UpDevs(front) + rest);
      LeadsOn(UpDevs(list) + rest, WalkMoves(init), UpDevs(front) + (own + rest),
              BringMoves(v), UpDevs(front + [w]) + rest);
    }
  }

  lemma LeadsNone(users: Users)
    ensures Leads(users, [], users)
  {
  }

  lemma BringUp(v: Server, t: Table)
    ensures Bring(v, t).0.flag != Init
  {
  }

  /** Through the removal: the absent servers go down. */
  lemma {:induction false} SweepLeads(list: seq<Server>, rest: Users)
    requires forall v :: v in list ==> v.flag != Init
    ensures Leads(UpDevs(list) + rest, SweepMoves(list), PresentDevs(list) + rest)
  {
    hide Leads, UpDevs;
    if list == [] {
      UpNone();
      LeadsNone(rest);
      assert multiset{} + rest == rest;
    } else {
      var v, more := list[0], list[1..];
      var own := multiset{v.conf.dev};
      assert v in list;
      UpDevsFirst(list);
      if v.flag == Absent {
        var users, fewer := UpDevs(list) + rest, UpDevs(more) + rest;
        assert users == own + fewer && users - own == fewer;
        LeadsDown(users, v.conf.dev);
        SweepLeads(more, rest);
        LeadsOn(users, [Counts.Down(v.conf.dev)], fewer, SweepMoves(more), PresentDevs(more) + rest);
        assert multiset{} + PresentDevs(more) == PresentDevs(more);
      } else {
        SweepLeads(more, own + rest);
        Shift(own, UpDevs(more), rest);
        Shift(own, PresentDevs(more), rest);
        assert [] + SweepMoves(more) == SweepMoves(more);
      }
    }
  }

  lemma Shift(a: Users, b: Users, c: Users)
    ensures (a + b) + c == b + (a + c)
  {
  }

  lemma UpNone()
    ensures UpDevs([]) == multiset{}
  {
  }

  /** Where no absent server stands behind one of its id, exactly the present ones are kept. */
  lemma {:induction false} KeptPresent(list: seq<Server>)
    requires forall i :: 0 <= i < |list| && list[i].flag != Absent ==> !AbsentHas(list[i + 1..], list[i].conf.id)
    requires forall v :: v in list ==> v.flag != Init
    ensures UpDevs(Kept(list)) == PresentDevs(list)
  {
    hide AbsentHas;
    if list != [] {
      var more := list[1..];
      forall i | 0 <= i < |more| && more[i].flag != Absent
        ensures !AbsentHas(more[i + 1..], more[i].conf.id)
      {
        assert more[i] == list[i + 1] && more[i + 1..] == list[i + 2..];
      }
      KeptPresent(more);
      assert list[0] in list;
      if list[0].flag != Absent {
        assert Kept(list) == [list[0]] + Kept(more);
        assert Kept(list)[0] == list[0] && Kept(list)[1..] == Kept(more);
        UpDevsFirst(Kept(list));
      } else {
        assert Kept(list) == [] + Kept(more) == Kept(more);
      }
    }
  }

  /** A file that keeps name and clients of its server keeps its interface. */
  ghost predicate DevsStay(live: seq<Server>, files: seq<Conf>) {
    forall f :: f in files && Match(live, f) < |live| && SameServer(f, live[Match(live, f)].conf) ==>
      f.dev == live[Match(live, f)].conf.dev
  }

  /** Loading the files moves no interface. */
  lemma LoadedUp(live: seq<Server>, files: seq<Conf>)
    requires Live(live) && Apart(files) && DevsStay(live, files)
    ensures UpDevs(RegisterAll(live, files)) == UpDevs(live)
    ensures forall v :: v in RegisterAll(live, files) ==> DevKept(v)
  {
    hide Apart, Match, SameServer;
    Loaded(live, files);
    var marked, news := Marked(live, files), News(live, files);
    forall k | 0 <= k < |live|
      ensures marked[k].conf == live[k].conf && marked[k].flag != Init && live[k].flag != Init && DevKept(marked[k])
    {
      assert live[k] in live;
      LastForIn(live, files, k);
    }
    forall v | v in news ensures v.flag == Init {
      NewsAt(live, files, v);
    }
    UpDevsSame(live, marked);
    UpDevsNews(marked, news);
    forall v | v in marked + news ensures DevKept(v) {
      if v in marked {
        var k :| 0 <= k < |marked| && marked[k] == v;
      }
    }
  }

  lemma {:induction false} UpDevsSame(a: seq<Server>, b: seq<Server>)
    requires |a| == |b|
    requires forall k :: 0 <= k < |a| ==> a[k].conf == b[k].conf && a[k].flag != Init && b[k].flag != Init
    ensures UpDevs(a) == UpDevs(b)
    decreases |a|
  {
    if a != [] { UpDevsSame(a[..|a| - 1], b[..|b| - 1]); }
  }

  lemma {:induction false} UpDevsNews(a: seq<Server>, news: seq<Server>)
    requires forall v :: v in news ==> v.flag == Init
    ensures UpDevs(a + news) == UpDevs(a)
    decreases |news|
  {
    if news == [] {
      assert a + news == a;
    } else {
      var init, v := news[..|news| - 1], news[|news| - 1];
      assert v in news && (a + news)[..|a + news| - 1] == a + init && (a + news)[|a + news| - 1] == v;
      UpDevsNews(a, init);
    }
  }

  /** A reload under the exact conditions for one server per file, which leaves the interfaces of
      reloaded servers alone, moves the interfaces from those of the servers before to those of the
      servers after, and takes down none that is not up. */
  lemma ReloadLeads(live: seq<Server>, t: Table, files: seq<Conf>)
    requires Live(live) && Apart(files) && OneEach(live, files) && NoStaleId(live, files) && DevsStay(live, files)
    ensures Leads(UpDevs(live), ReloadMoves(live, t, files), UpDevs(ReloadAll(live, t, files).0))
  {
    hide Live, Apart, OneEach, NoStaleId, DevsStay, Leads, Walk, RegisterAll, WalkedAs, AbsentHas, Kept;
    var list := RegisterAll(live, files);
    var after := Walk(list, t).0;
    LoadedUp(live, files);
    Walked(live, files, t);
    WalkLeads(list, t, multiset{});
    SweepLeads(after, multiset{});
    forall i | 0 <= i < |after| && after[i].flag != Absent
      ensures !AbsentHas(after[i + 1..], after[i].conf.id)
    {
      PresentAt(live, files, after, i);
      NoneBehind(live, files, after, i);
    }
    KeptPresent(after);
    assert UpDevs(list) + multiset{} == UpDevs(live);
    assert UpDevs(after) + multiset{} == UpDevs(after);
    assert PresentDevs(after) + multiset{} == PresentDevs(after);
    LeadsOn(UpDevs(live), WalkMoves(list), UpDevs(after), SweepMoves(after), PresentDevs(after));
  }

  lemma NoneBehind(live: seq<Server>, files: seq<Conf>, after: seq<Server>, i: nat)
    requires WalkedAs(live, files, after) && NoStaleId(live, files) && i < |after| && after[i].conf in files
    ensures !AbsentHas(after[i + 1..], after[i].conf.id)
  {
    hide WalkedAs, NoStaleId;
    forall v | v in after[i + 1..] && v.flag == Absent
      ensures v.conf.id != after[i].conf.id
    {
      var j :| 0 <= j < |after[i + 1..]| && after[i + 1..][j] == v;
      assert after[i + 1 + j] == v;
      StaleIds(live, files, after, i + 1 + j, after[i].conf);
    }
  }

  // ---------- whole runs ----------

  /** The moves of a run: sessions move no interface. */
  function RunMoves(list: seq<Server>, t: Table, steps: seq<Runs.Step>): Moves
    decreases |steps|
  {
    if steps == [] then []
    else
      var (l, t1) := Runs.Apply(list, t, steps[0]);
      (if steps[0].Reloading? then ReloadMoves(list, t, steps[0].files) else []) + RunMoves(l, t1, steps[1..])
  }

  /** No reload of the run changes the interface of a server it keeps up. */
  ghost predicate DevsStayOn(list: seq<Server>, t: Table, steps: seq<Runs.Step>)
    decreases |steps|
  {
    steps == [] ||
    ((steps[0].Reloading? ==> DevsStay(list, steps[0].files)) &&
     var (l, t1) := Runs.Apply(list, t, steps[0]);
     DevsStayOn(l, t1, steps[1..]))
  }

  /** Over every run of reloads, logins and logouts the interfaces move from those of the servers
      at the start to those of the servers at the end. */
  lemma {:induction false} RunLeads(list: seq<Server>, t: Table, steps: seq<Runs.Step>)
    requires Runs.Settled(list, t) && Runs.RunOk(list, t, steps) && DevsStayOn(list, t, steps)
    ensures Leads(UpDevs(list), RunMoves(list, t, steps), UpDevs(Runs.Run(list, t, steps).0))
    decreases |steps|
  {
    hide Leads, Runs.Settled, Runs.Apply, Runs.ReloadOk, DevsStay;
    if steps == [] {
      LeadsNone(UpDevs(list));
    } else {
      var (l, t1) := Runs.Apply(list, t, steps[0]);
      Runs.StepKeeps(list, t, steps[0]);
      RunLeads(l, t1, steps[1..]);
      StepLeads(list, t, steps[0]);
      LeadsOn(UpDevs(list), if steps[0].Reloading? then ReloadMoves(list, t, steps[0].files) else [], UpDevs(l),
              RunMoves(l, t1, steps[1..]), UpDevs(Runs.Run(l, t1, steps[1..]).0));
    }
  }

  lemma StepLeads(list: seq<Server>, t: Table, step: Runs.Step)
    requires Runs.Settled(list, t)
    requires step.Reloading? ==> Runs.ReloadOk(list, t, step.files) && DevsStay(list, step.files)
    ensures Leads(UpDevs(list), if step.Reloading? then ReloadMoves(list, t, step.files) else [],
                  UpDevs(Runs.Apply(list, t, step).0))
  {
    hide Leads, DevsStay, ReloadMoves, ReloadAll, Apart, OneEach, NoStaleId, Runs.InStep, ById;
    Runs.SettledLive(list, t);
    match step
    case Reloading(files) =>
      ReloadLeads(list, t, files);
    case Login(_, _) =>
      SessionsMoveNone(list, t, step);
    case Logout(_, _) =>
      SessionsMoveNone(list, t, step);
  }

  lemma SessionsMoveNone(list: seq<Server>, t: Table, step: Runs.Step)
    requires Live(list) && !step.Reloading?
    ensures Leads(UpDevs(list), [], UpDevs(Runs.Apply(list, t, step).0))
  {
    hide ById;
    var l := Runs.Apply(list, t, step).0;
    forall k | 0 <= k < |list|
      ensures list[k].conf == l[k].conf && list[k].flag != Init && l[k].flag != Init
    {
      assert list[k] in list;
    }
    UpDevsSame(list, l);
  }

  /** Every interface named in the list or in a file of the run is in names. */
  ghost predicate Names(list: seq<Server>, steps: seq<Runs.Step>, names: set<string>) {
    && (forall v :: v in list ==> v.conf.dev in names)
    && forall step, f :: step in steps && step.Reloading? && f in step.files ==> f.dev in names
  }

  /** The interfaces that go up are named. */
  ghost predicate UpsIn(moves: Moves, names: set<string>) {
    forall move :: move in moves && move.Up? ==> move.dev in names
  }

  /** As only interfaces in use go down, all the others are named too. */
  lemma {:induction false} MovesIn(users: Users, moves: Moves, names: set<string>)
    requires Counts.RunOk(users, moves) && UpsIn(moves, names) && forall dev :: dev in users ==> dev in names
    ensures forall move :: move in moves ==> move.dev in names
    decreases |moves|
  {
    if moves != [] {
      assert moves == [moves[0]] + moves[1..];
      MovesIn(Counts.UsersAfter(users, moves[0]), moves[1..], names);
    }
  }

  lemma {:induction false} WalkUps(list: seq<Server>, names: set<string>)
    requires forall v :: v in list && (v.flag == Init || v.flag == Reset) ==> ConfAfter(v).dev in names
    ensures UpsIn(WalkMoves(list), names)
    decreases |list|
  {
    if list != [] {
      assert list == list[..|list| - 1] + [list[|list| - 1]];
      WalkUps(list[..|list| - 1], names);
    }
  }

  lemma {:induction false} SweepUps(list: seq<Server>, names: set<string>)
    ensures UpsIn(SweepMoves(list), names)
  {
    if list != [] { SweepUps(list[1..], names); }
  }

  /** A reload brings up interfaces of its files only. */
  lemma ReloadUps(live: seq<Server>, t: Table, files: seq<Conf>, names: set<string>)
    requires Live(live) && Apart(files) && forall f :: f in files ==> f.dev in names
    ensures UpsIn(ReloadMoves(live, t, files), names)
  {
    hide Apart, Match, SameServer;
    Loaded(live, files);
    var list := RegisterAll(live, files);
    forall v | v in list && (v.flag == Init || v.flag == Reset)
      ensures ConfAfter(v).dev in names
    {
      if v in Marked(live, files) {
        var k :| 0 <= k < |live| && Marked(live, files)[k] == v;
        assert live[k] in live;
        LastForIn(live, files, k);
      } else {
        NewsAt(live, files, v);
      }
    }
    WalkUps(list, names);
    SweepUps(Walk(list, t).0, names);
  }

  lemma {:induction false} RunUps(list: seq<Server>, t: Table, steps: seq<Runs.Step>, names: set<string>)
    requires Runs.Settled(list, t) && Runs.RunOk(list, t, steps)
    requires forall step, f :: step in steps && step.Reloading? && f in step.files ==> f.dev in names
    ensures UpsIn(RunMoves(list, t, steps), names)
    decreases |steps|
  {
    hide Runs.Settled, Runs.Apply, ReloadMoves;
    if steps != [] {
      var (l, t1) := Runs.Apply(list, t, steps[0]);
      assert steps[0] in steps && forall step :: step in steps[1..] ==> step in steps;
      Runs.SettledLive(list, t);
      Runs.StepKeeps(list, t, steps[0]);
      RunUps(l, t1, steps[1..], names);
      if steps[0].Reloading? { ReloadUps(list, t, steps[0].files, names); }
    }
  }

  lemma {:induction false} UpDevsIn(list: seq<Server>, names: set<string>)
    requires forall v :: v in list ==> v.conf.dev in names
    ensures forall dev :: dev in UpDevs(list) ==> dev in names
    decreases |list|
  {
    if list != [] {
      assert list == list[..|list| - 1] + [list[|list| - 1]];
      UpDevsIn(list[..|list| - 1], names);
    }
  }

  /** So over every such run, with at most 31 interface names none a prefix of another, the count of
      each interface is the number of virtual servers in the list that are on it, ifb numbers are
      distinct, and the mask holds exactly those in use. */
  lemma RunCounts(list: seq<Server>, t: Table, steps: seq<Runs.Step>, s: Shaped, names: set<string>)
    requires Runs.Settled(list, t) && Runs.RunOk(list, t, steps) && DevsStayOn(list, t, steps)
    requires Counts.Inv(s, UpDevs(list)) && Counts.Apart(names) && Names(list, steps, names)
    ensures Counts.Inv(Counts.Run(s, RunMoves(list, t, steps)), UpDevs(Runs.Run(list, t, steps).0))
  {
    RunLeads(list, t, steps);
    RunUps(list, t, steps, names);
    UpDevsIn(list, names);
    hide Runs.Settled, Runs.RunOk, DevsStayOn, Counts.Inv, Counts.Apart, Counts.Run, UpDevs, RunMoves, UpsIn;
    MovesIn(UpDevs(list), RunMoves(list, t, steps), names);
    Counts.RunKeeps(s, UpDevs(list), names, RunMoves(list, t, steps));
  }
}
