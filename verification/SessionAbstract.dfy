/** The session stores seen from the list of virtual servers: each server has the indexes of its
    members, the table has pairs of server and index. Starts, stops, clean-ups and replays of the
    session engine are the set operations of VServers.dfy and ReloadRuns.dfy on this view. */
module SessionAbstract {
  import opened Sessions
  import opened SessionInv
  import opened SessionRuns
  import opened SessionPoll
  import opened SessionCleanup
  import opened SessionRestart
  import opened SessionSafety
  import Servers = VServers

  /** The indexes of the members of a virtual server. */
  function SessionsOf(w: World, vid: int): set<nat> {
    Ids(w.members.Keys, vid)
  }

  function Ids(sids: set<Sid>, vid: int): set<nat> {
    set s | s in sids && s.vid == vid :: s.id
  }

  /** The table, each row as the server and index of its session. */
  function TableOf(cfg: Config, w: World): Servers.Table {
    set k | k in w.db :: (k.vid, SidAt(cfg, k.vid, k.ip).id)
  }

  function Pairs(sids: set<Sid>): Servers.Table {
    set s | s in sids :: (s.vid, s.id)
  }

  lemma IdIff(sids: set<Sid>, vid: int, id: nat)
    ensures id in Ids(sids, vid) <==> Sid(vid, id) in sids
  {
    if Sid(vid, id) in sids { assert Sid(vid, id).vid == vid; }
  }

  lemma PairIff(sids: set<Sid>, p: (int, nat))
    ensures p in Pairs(sids) <==> Sid(p.0, p.1) in sids
  {
    if Sid(p.0, p.1) in sids { assert p == (Sid(p.0, p.1).vid, Sid(p.0, p.1).id); }
  }

  /** While the stores agree, the table is the members, pair by pair. */
  lemma TableIsMembers(cfg: Config, w: World)
    requires ValidConfig(cfg) && Inv(cfg, w)
    ensures TableOf(cfg, w) == Pairs(w.members.Keys)
  {
    hide ValidConfig, Inv, SidAt, RowMatches, RowKeyOf, Pairs;
    forall p: (int, nat)
      ensures p in TableOf(cfg, w) <==> p in Pairs(w.members.Keys)
    {
      PairIff(w.members.Keys, p);
      if p in TableOf(cfg, w) {
        var k :| k in w.db && p == (k.vid, SidAt(cfg, k.vid, k.ip).id);
        MemberOfRow(cfg, w, k);
      }
      if Sid(p.0, p.1) in w.members {
        var k := MemberRow(cfg, w, Sid(p.0, p.1));
        MemberOfRow(cfg, w, k);
        assert p == (k.vid, SidAt(cfg, k.vid, k.ip).id);
      }
    }
  }

  /** So every server is in step with the table. */
  lemma StoresInStep(cfg: Config, w: World, vid: int)
    requires ValidConfig(cfg) && Inv(cfg, w)
    ensures Servers.Rows(TableOf(cfg, w), vid) == SessionsOf(w, vid)
  {
    hide ValidConfig, Inv, TableOf, Pairs, Ids;
    TableIsMembers(cfg, w);
    forall id: nat
      ensures id in Servers.Rows(TableOf(cfg, w), vid) <==> id in SessionsOf(w, vid)
    {
      PairIff(w.members.Keys, (vid, id));
      IdIff(w.members.Keys, vid, id);
      if (vid, id) in TableOf(cfg, w) { assert (vid, id).0 == vid && (vid, id).1 == id; }
    }
  }

  /** A start that is no greeting adds the session to its server and to the table. */
  lemma LoginAbstracts(cfg: Config, w: World, vid: int, ip: int, req: Req, env: Env)
    requires ValidConfig(cfg) && Inv(cfg, w) && Spans(cfg, vid, ip) && SidAt(cfg, vid, ip) !in w.members
    requires NewSession(w, vid, req) && env.now != 0
    ensures var w1, i := StartSession(cfg, w, vid, ip, req, env), SidAt(cfg, vid, ip).id;
            && TableOf(cfg, w1) == TableOf(cfg, w) + {(vid, i)}
            && forall u :: SessionsOf(w1, u) == SessionsOf(w, u) + if u == vid then {i} else {}
  {
    hide ValidConfig, Inv, SidAt, StartSession, TableOf, NewSession, Spans;
    var w1, s := StartSession(cfg, w, vid, ip, req, env), SidAt(cfg, vid, ip);
    StartSessionKeeps(cfg, w, vid, ip, req, env);
    StartedKeys(cfg, w, vid, ip, req, env);
    SidAtVid(cfg, vid, ip);
    TableIsMembers(cfg, w);
    TableIsMembers(cfg, w1);
    assert Pairs(w1.members.Keys) == Pairs(w.members.Keys) + {(s.vid, s.id)};
  }

  lemma StartedKeys(cfg: Config, w: World, vid: int, ip: int, req: Req, env: Env)
    requires ValidConfig(cfg) && Inv(cfg, w) && Spans(cfg, vid, ip) && SidAt(cfg, vid, ip) !in w.members
    requires NewSession(w, vid, req) && env.now != 0
    ensures StartSession(cfg, w, vid, ip, req, env).members.Keys == w.members.Keys + {SidAt(cfg, vid, ip)}
  {
    IndexAddr(cfg, vid, ip);
    SidAtVid(cfg, vid, ip);
    SpansKnown(cfg, vid, ip);
    var s, q := SidAt(cfg, vid, ip), req.(start := 0, clsSlot := 0);
    NewSessionSame(w, vid, req, q);
    hide ValidConfig, Addr, SidAt, Spans, Inv, StartSess, Known, NewSession, Started;
    StartKeeps(cfg, w, s, q, env);
    StartedOne(cfg, w, StartSess(cfg, w, s, q, env), s, Stamped(q, env), env);
  }

  lemma StartedOne(cfg: Config, w: World, w1: World, s: Sid, req: Req, env: Env)
    requires Started(cfg, w, w1, s, req, env)
    ensures w1.members.Keys == w.members.Keys + {s}
  {
    hide ClassGiven, SlotGiven, KeyOf, RowKeyOf, FreshMember;
  }

  /** A stop removes it from both. */
  lemma LogoutAbstracts(cfg: Config, w: World, s: Sid, removed: bool)
    requires ValidConfig(cfg) && Inv(cfg, w) && s in w.members
    ensures var w1 := StopSess(cfg, w, s, removed);
            && TableOf(cfg, w1) == TableOf(cfg, w) - {(s.vid, s.id)}
            && forall u :: SessionsOf(w1, u) == SessionsOf(w, u) - if u == s.vid then {s.id} else {}
  {
    hide ValidConfig, Inv, StopSess, TableOf, Stopped;
    var w1 := StopSess(cfg, w, s, removed);
    StopKeeps(cfg, w, s, removed);
    StoppedMembers(cfg, w, w1, s, removed);
    TableIsMembers(cfg, w);
    TableIsMembers(cfg, w1);
    assert w1.members.Keys == w.members.Keys - {s};
    SidsGone(w.members.Keys, {s});
    assert Pairs({s}) == {(s.vid, s.id)};
    assert forall u :: Ids({s}, u) == if u == s.vid then {s.id} else {};
  }

  /** Sessions that go take their indexes and pairs with them. */
  lemma SidsGone(all: set<Sid>, gone: set<Sid>)
    ensures Pairs(all - gone) == Pairs(all) - Pairs(gone)
    ensures forall u :: Ids(all - gone, u) == Ids(all, u) - Ids(gone, u)
  {
    hide Pairs, Ids;
    forall p: (int, nat)
      ensures p in Pairs(all - gone) <==> p in Pairs(all) && p !in Pairs(gone)
    {
      PairIff(all - gone, p);
      PairIff(all, p);
      PairIff(gone, p);
    }
    forall u, id: nat
      ensures id in Ids(all - gone, u) <==> id in Ids(all, u) && id !in Ids(gone, u)
    {
      IdIff(all - gone, u, id);
      IdIff(all, u, id);
      IdIff(gone, u, id);
    }
  }

  /** Stopping every member of a server is Cleanup: its sessions and their pairs go, those of the
      other servers stay. */
  lemma CleanupAbstracts(cfg: Config, w: World, v: Servers.Server, visits: seq<Visit>)
    requires ValidConfig(cfg) && Inv(cfg, w) && VisitsAll(w, v.conf.id, visits)
    requires v.sessions == SessionsOf(w, v.conf.id) && v.flag != Servers.Reload
    ensures var w1 := StopEach(cfg, w, v.conf.id, visits);
            && Inv(cfg, w1)
            && Servers.Cleanup(v, TableOf(cfg, w)) == (v.(sessions := SessionsOf(w1, v.conf.id)), TableOf(cfg, w1))
            && forall u :: u != v.conf.id ==> SessionsOf(w1, u) == SessionsOf(w, u)
  {
    hide ValidConfig, Inv, StopEach, TableOf, Without, VisitsAll, VisitedOnce, Visited, Ids, Pairs;
    var vid := v.conf.id;
    var w1, gone := StopEach(cfg, w, vid, visits), Visited(vid, visits);
    SidsMembers(w, vid, visits);
    EachStopped(cfg, w, vid, visits);
    WithoutMembers(cfg, w, w1, gone);
    TableIsMembers(cfg, w);
    TableIsMembers(cfg, w1);
    assert w1.members.Keys == w.members.Keys - gone;
    SidsGone(w.members.Keys, gone);
    ServerPairs(w, vid, visits);
    assert SessionsOf(w1, vid) == {};
  }

  /** The members visited, as indexes and as pairs. */
  lemma ServerPairs(w: World, vid: int, visits: seq<Visit>)
    requires VisitsAll(w, vid, visits)
    ensures Pairs(Visited(vid, visits)) == Servers.RowsOf(vid, SessionsOf(w, vid))
    ensures Ids(Visited(vid, visits), vid) == SessionsOf(w, vid)
    ensures forall u :: u != vid ==> Ids(Visited(vid, visits), u) == {}
  {
    hide Pairs, Ids, VisitedOnce;
    var gone := Visited(vid, visits);
    assert forall s :: s in gone ==> s.vid == vid;
    forall p: (int, nat)
      ensures p in Pairs(gone) <==> p in Servers.RowsOf(vid, SessionsOf(w, vid))
    {
      PairIff(gone, p);
      IdIff(w.members.Keys, vid, p.1);
    }
    forall id: nat
      ensures id in Ids(gone, vid) <==> id in SessionsOf(w, vid)
    {
      IdIff(gone, vid, id);
      IdIff(w.members.Keys, vid, id);
    }
    forall u | u != vid
      ensures Ids(gone, u) == {}
    {
      forall id: nat ensures id !in Ids(gone, u) {
        IdIff(gone, u, id);
      }
    }
  }

  /** Replaying the rows of a server that has no members yet is Setup: it gets the indexes of its
      rows, the table and the other servers stay. Here w is the state that the rows are from, of
      which the sessions done have been rebuilt in p. */
  lemma SetupAbstracts(cfg: Config, w: World, p: World, done: set<Sid>, v: Servers.Server, order: seq<RowKey>,
                       envs: RowKey -> Env)
    requires ValidConfig(cfg) && Inv(cfg, w) && Rebuilt(cfg, w, p, done) && v.flag != Servers.Reload
    requires forall s :: s in done ==> s.vid != v.conf.id
    requires NoRepeats(order) && forall k :: k in order <==> k in w.db && k.vid == v.conf.id
    ensures var p1 := Restore(cfg, p, w.db, order, envs);
            && Rebuilt(cfg, w, p1, done + SidsOf(cfg, order))
            && Servers.Setup(v, TableOf(cfg, p)) == v.(sessions := SessionsOf(p1, v.conf.id))
            && TableOf(cfg, p1) == TableOf(cfg, p)
            && forall u :: u != v.conf.id ==> SessionsOf(p1, u) == SessionsOf(p, u)
  {
    hide ValidConfig, Inv, Restore, NoRepeats, SidsOf, SameSessions, CoreInv, Ids, Servers.Rows, SidAt;
    var vid, sids := v.conf.id, SidsOf(cfg, order);
    var p1 := Restore(cfg, p, w.db, order, envs);
    ServerSids(cfg, w, vid, order);
    RestoreAll(cfg, w, p, done, order, envs);
    StoresInStep(cfg, w, vid);
    assert TableOf(cfg, p) == TableOf(cfg, w) == TableOf(cfg, p1);
    forall u, id: nat
      ensures id in SessionsOf(p1, u) <==> id in SessionsOf(if u == vid then w else p, u)
    {
      IdIff(p1.members.Keys, u, id);
      IdIff(p.members.Keys, u, id);
      IdIff(w.members.Keys, u, id);
    }
  }

  /** The rows of a server are of its members, all of them. */
  lemma ServerSids(cfg: Config, w: World, vid: int, order: seq<RowKey>)
    requires ValidConfig(cfg) && Inv(cfg, w) && forall k :: k in order <==> k in w.db && k.vid == vid
    ensures forall s :: s in SidsOf(cfg, order) <==> s in w.members && s.vid == vid
  {
    hide ValidConfig, Inv, SidAt, RowMatches, RowKeyOf;
    forall s
      ensures s in SidsOf(cfg, order) <==> s in w.members && s.vid == vid
    {
      if s in SidsOf(cfg, order) {
        var i :| 0 <= i < |order| && s == SidAt(cfg, order[i].vid, order[i].ip);
        assert order[i] in order;
        MemberOfRow(cfg, w, order[i]);
      }
      if s in w.members && s.vid == vid {
        var k := MemberRow(cfg, w, s);
        MemberOfRow(cfg, w, k);
        assert k in order;
        var i :| 0 <= i < |order| && order[i] == k;
      }
    }
  }
}
