/** What a reload does to each server, said on the configurations themselves: which server a file
    comes to, by id and name, and what becomes of its sessions, by the first characters of name and
    clients. */
module ReloadOutcomes {
  import opened VServers
  import opened Reloads
  import opened ReloadRuns

  /** Two texts agree as far as their first n characters go. */
  predicate AgreeTo(a: string, b: string, n: nat) {
    && (|a| == |b| || (n <= |a| && n <= |b|))
    && forall i :: 0 <= i < n && i < |a| && i < |b| ==> a[i] == b[i]
  }

  lemma HeadsAgree(a: string, b: string, n: nat)
    ensures Head(a, n) == Head(b, n) <==> AgreeTo(a, b, n)
  {
    if Head(a, n) == Head(b, n) {
      assert |Head(a, n)| == |Head(b, n)|;
      forall i | 0 <= i < n && i < |a| && i < |b| ensures a[i] == b[i] {
        assert Head(a, n)[i] == a[i] && Head(b, n)[i] == b[i];
      }
    }
  }

  /** Name and clients agree as far as the source compares them. */
  predicate SameClients(f: Conf, c: Conf) {
    AgreeTo(f.name, c.name, 32) && AgreeTo(f.clients, c.clients, 18)
  }

  lemma SameIs(f: Conf, c: Conf)
    ensures SameServer(f, c) <==> SameClients(f, c)
  {
    HeadsAgree(f.name, c.name, 32);
    HeadsAgree(f.clients, c.clients, 18);
  }

  /** Server k is the first that has the id or the name of the file. */
  predicate ComesTo(live: seq<Server>, f: Conf, k: int) {
    && 0 <= k < |live| && (live[k].conf.id == f.id || live[k].conf.name == f.name)
    && forall i :: 0 <= i < k ==> live[i].conf.id != f.id && live[i].conf.name != f.name
  }

  lemma ComesIs(live: seq<Server>, f: Conf, k: int)
    ensures ComesTo(live, f, k) <==> Match(live, f) == k && k < |live|
  {
    if ComesTo(live, f, k) { MatchIs(live, f, k); }
  }

  lemma ComesToNone(live: seq<Server>, f: Conf)
    requires forall v :: v in live ==> v.conf.id != f.id && v.conf.name != f.name
    ensures Match(live, f) == |live|
  {
    MatchIs(live, f, |live|);
  }

  /** Loading the files marks a live server: to be reloaded if and only if the last file that comes
      to it has its name and clients, to be reset if it has not, and not at all if none comes. */
  lemma LoadMarks(live: seq<Server>, files: seq<Conf>, k: nat)
    requires Live(live) && Apart(files) && k < |live|
    ensures k < |RegisterAll(live, files)|
    ensures var v := RegisterAll(live, files)[k];
            && v.conf == live[k].conf && v.sessions == live[k].sessions
            && (v.flag == Done <==> forall f :: f in files ==> !ComesTo(live, f, k))
            && (v.flag != Done ==> v.dummy.Some? && v.dummy.value in files && ComesTo(live, v.dummy.value, k))
            && (v.flag == Reload || v.flag == Reset || v.flag == Done)
            && (v.flag == Reload ==> SameClients(v.dummy.value, live[k].conf))
            && (v.flag == Reset ==> !SameClients(v.dummy.value, live[k].conf))
  {
    hide Match, SameServer, Apart, RegisterAll, LastFor, ComesTo, SameClients;
    LoadedLive(live, files, k);
    LastForIn(live, files, k);
    assert live[k] in live;
    forall f | f in files ensures ComesTo(live, f, k) <==> Match(live, f) == k {
      ComesIs(live, f, k);
    }
    match LastFor(live, files, k)
    case None =>
    case Some(f) => SameIs(f, live[k].conf);
  }

  /** The sessions in memory are those that the rows of an id name. */
  ghost predicate SessionsAre(sessions: set<nat>, t: Table, id: int) {
    forall i: nat :: i in sessions <==> (id, i) in t
  }

  ghost predicate NoRows(t: Table, id: int) {
    forall i: nat :: (id, i) !in t
  }

  lemma RowsAre(t: Table, id: int)
    ensures SessionsAre(Rows(t, id), t, id)
    ensures NoRows(t, id) <==> Rows(t, id) == {}
  {
    hide Rows;
    forall i: nat ensures i in Rows(t, id) <==> (id, i) in t {
      RowIn(t, id, i);
    }
  }

  lemma RowsWere(sessions: set<nat>, t: Table, id: int)
    ensures SessionsAre(sessions, t, id) <==> sessions == Rows(t, id)
  {
    RowsAre(t, id);
  }

  /** A live server that a file comes to keeps its sessions, in memory and in the table, if the first
      32 characters of the name and the first 18 of the clients agree. If not, all its rows are gone,
      and its sessions with them: it starts with those that the rows of a new id name, or with none. */
  ghost predicate Outcome(v: Server, t: Table, f: Conf, w: Server, t1: Table) {
    if SameClients(f, v.conf) then
      w.sessions == v.sessions && SessionsAre(v.sessions, t1, v.conf.id)
    else
      NoRows(t1, v.conf.id) && if f.id == v.conf.id then w.sessions == {} else SessionsAre(w.sessions, t, f.id)
  }

  lemma LiveOutcome(live: seq<Server>, t: Table, files: seq<Conf>, f: Conf, k: nat)
    requires Settled(live, t) && Apart(files) && OneEach(live, files) && NoStaleId(live, files)
    requires f in files && ComesTo(live, f, k)
    ensures var (l, t1) := ReloadAll(live, t, files);
            exists w :: w in l && w.conf == f && Outcome(live[k], t, f, w, t1)
  {
    hide Apart, ReloadAll, Rows, OneEach, NoStaleId, Match, SameServer, Ends, Settled, ComesTo, SameClients;
    var (l, t1) := ReloadAll(live, t, files);
    ComesIs(live, f, k);
    SameIs(f, live[k].conf);
    ReloadSessions(live, t, files, f);
    ReloadInStep(live, t, files);
    EndsAt(live, t, files, f, k);
    RowsWere(live[k].sessions, t1, live[k].conf.id);
    RowsAre(t1, live[k].conf.id);
    RowsAre(t, f.id);
    SettledAt(live, t, k);
    var w :| w in l && w.conf == f && w.sessions == SessionsOfFile(live, t, f);
    assert Outcome(live[k], t, f, w, t1);
  }

  lemma SettledAt(live: seq<Server>, t: Table, k: nat)
    requires Settled(live, t) && k < |live|
    ensures live[k].sessions == Rows(t, live[k].conf.id)
  {
    assert live[k] in live;
  }

  lemma EndsAt(live: seq<Server>, t: Table, files: seq<Conf>, f: Conf, k: nat)
    requires Settled(live, t) && OneEach(live, files) && f in files && k < |live| && Match(live, f) == k
    ensures Ends(live, files, live[k].conf.id) <==> !SameServer(f, live[k].conf)
  {
    hide Match, SameServer, Settled, OneEach;
    OnlyId(live, t, k);
    forall g | g in files && Match(live, g) == k ensures g == f {
      OneFile(live, files, f, g);
    }
    assert Lost(live, files, k) <==> !SameServer(f, live[k].conf);
  }

  /** The sessions of a server that has some outlive the reload if and only if name and clients
      agree so far. */
  lemma KeepsExact(live: seq<Server>, t: Table, files: seq<Conf>, f: Conf, k: nat)
    requires Settled(live, t) && Apart(files) && OneEach(live, files) && NoStaleId(live, files)
    requires f in files && ComesTo(live, f, k) && live[k].sessions != {}
    ensures SessionsAre(live[k].sessions, ReloadAll(live, t, files).1, live[k].conf.id) <==>
            AgreeTo(f.name, live[k].conf.name, 32) && AgreeTo(f.clients, live[k].conf.clients, 18)
  {
    hide Apart, ReloadAll, OneEach, NoStaleId, Settled, AgreeTo;
    LiveOutcome(live, t, files, f, k);
    var i :| i in live[k].sessions;
  }

  /** A live server that no file comes to is gone with its sessions and rows. */
  lemma RemovedOutcome(live: seq<Server>, t: Table, files: seq<Conf>, k: nat)
    requires Settled(live, t) && Apart(files) && OneEach(live, files) && NoStaleId(live, files)
    requires k < |live| && forall f :: f in files ==> !ComesTo(live, f, k)
    ensures var (l, t1) := ReloadAll(live, t, files);
            (forall w :: w in l ==> w.conf.id != live[k].conf.id) && NoRows(t1, live[k].conf.id)
  {
    hide Apart, ReloadAll, Rows, OneEach, Match, Settled, ComesTo, SameServer;
    var (l, t1) := ReloadAll(live, t, files);
    forall f | f in files ensures Match(live, f) != k {
      ComesIs(live, f, k);
    }
    assert Lost(live, files, k);
    ReloadInStep(live, t, files);
    RowsAre(t1, live[k].conf.id);
    PerFile(l, files);
    assert !Claimed(live, files, k);
  }

  /** The server of a file that comes to no live server has the sessions that the rows of its id
      name. */
  lemma NewOutcome(live: seq<Server>, t: Table, files: seq<Conf>, f: Conf)
    requires Settled(live, t) && Apart(files) && OneEach(live, files) && NoStaleId(live, files)
    requires f in files && forall v :: v in live ==> v.conf.id != f.id && v.conf.name != f.name
    ensures exists w :: w in ReloadAll(live, t, files).0 && w.conf == f && SessionsAre(w.sessions, t, f.id)
  {
    hide Apart, ReloadAll, Rows, OneEach, NoStaleId, Match, Settled, SameServer;
    ComesToNone(live, f);
    ReloadSessions(live, t, files, f);
    var w :| w in ReloadAll(live, t, files).0 && w.conf == f && w.sessions == SessionsOfFile(live, t, f);
    RowsAre(t, f.id);
  }
}
