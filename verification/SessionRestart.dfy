/** Recovery after a crash: members, kernel sets, service class set and slots start empty, the
    table survives, and replaying its rows through the task pipeline rebuilds the sessions. */
module SessionRestart {
  import opened Options
  import opened Tasks
  import opened Sessions
  import opened SessionInv
  import opened SessionRuns

  /** The world of a fresh process over a table. */
  function Boot(db: map<RowKey, Row>): World {
    World(map[], map[], map[], db, {0}, 0, 0)
  }

  /** The request restore_set makes of a row. */
  function RestoreReq(k: RowKey, r: Row): Req {
    Req(r.session, r.user, k.mac, r.start, r.timeout, r.down, r.up, Some(r.cls), r.clsSlot)
  }

  /** Replaying rows in the order the database returned them. */
  function Restore(cfg: Config, w: World, rows: map<RowKey, Row>, order: seq<RowKey>, envs: RowKey -> Env): World
    decreases |order|
  {
    if order == [] then w
    else
      var k := order[0];
      var w1 := if k in rows then StartSess(cfg, w, SidAt(cfg, k.vid, k.ip), RestoreReq(k, rows[k]), envs(k)) else w;
      Restore(cfg, w1, rows, order[1..], envs)
  }

  /** Everything of a session but its bandwidth slot, which is drawn anew. */
  ghost predicate SameSession(m: Member, n: Member) {
    m.(slot := 0) == n.(slot := 0)
  }

  /** The sessions in ids are the same in both worlds. */
  ghost predicate SameSessions(p: World, w: World, ids: set<Sid>) {
    forall s :: s in ids ==> s in p.members && s in w.members && SameSession(p.members[s], w.members[s])
  }

  /** p has rebuilt the sessions done of w, and those only. */
  ghost predicate Rebuilt(cfg: Config, w: World, p: World, done: set<Sid>) {
    CoreInv(cfg, p) && p.db == w.db && p.members.Keys == done && SameSessions(p, w, done)
  }

  lemma SameAt(p: World, w: World, ids: set<Sid>, s: Sid)
    requires SameSessions(p, w, ids) && s in ids
    ensures s in p.members && s in w.members && SameSession(p.members[s], w.members[s])
  {
  }

  /** The parts of the invariant, by name. */
  lemma InvParts(cfg: Config, w: World)
    requires Inv(cfg, w)
    ensures Placed(cfg, w) && MembersInKernel(cfg, w) && KernelIsMembers(cfg, w)
    ensures PairsIn(cfg, w) && SetOwned(cfg, w) && OwnersUnique(cfg, w)
    ensures MembersInDb(cfg, w) && DbIsMembers(cfg, w) && SessionIds(w) && CoreInv(cfg, w)
  {
    hide MembersInKernel, KernelIsMembers, PairsIn, SetOwned, OwnersUnique, MembersInDb, DbIsMembers, SessionIds,
      Placed;
  }

  lemma RebuiltParts(cfg: Config, w: World, p: World, done: set<Sid>)
    requires Rebuilt(cfg, w, p, done)
    ensures Placed(cfg, p) && MembersInKernel(cfg, p) && KernelIsMembers(cfg, p)
    ensures PairsIn(cfg, p) && SetOwned(cfg, p) && OwnersUnique(cfg, p) && 0 in p.flags
    ensures CoreInv(cfg, p) && p.db == w.db && p.members.Keys == done && SameSessions(p, w, done)
  {
    hide MembersInKernel, KernelIsMembers, PairsIn, SetOwned, OwnersUnique, Placed, SameSessions;
  }

  lemma SameFields(m: Member, n: Member)
    requires SameSession(m, n)
    ensures m.user == n.user && m.session == n.session && m.mac == n.mac && m.start == n.start && m.timeout == n.timeout
    ensures m.down == n.down && m.up == n.up && m.cls == n.cls && m.clsSlot == n.clsSlot && m.mapping == n.mapping
  {
    var a, b := m.(slot := 0), n.(slot := 0);
    assert a.user == b.user && a.session == b.session && a.mac == b.mac && a.start == b.start && a.timeout == b.timeout;
    assert a.down == b.down && a.up == b.up && a.cls == b.cls && a.clsSlot == b.clsSlot && a.mapping == b.mapping;
  }

  lemma FieldsSame(m: Member, n: Member)
    requires m.user == n.user && m.session == n.session && m.mac == n.mac && m.start == n.start
             && m.timeout == n.timeout
    requires m.down == n.down && m.up == n.up && m.cls == n.cls && m.clsSlot == n.clsSlot && m.mapping == n.mapping
    ensures SameSession(m, n)
  {
  }

  /** An address that a session still to be rebuilt brings is not in the set yet. */
  lemma OwnerMissing(cfg: Config, w: World, p: World, done: set<Sid>, s: Sid, a: nat)
    requires Inv(cfg, w) && Rebuilt(cfg, w, p, done) && s !in done && Owns(cfg, w, s, a)
    ensures a !in p.sc
  {
    hide Inv, Rebuilt, CoreInv, Addr, SetOwned, PairsIn, OwnersUnique, SameSession, SameSessions, Placed,
      MembersInKernel, KernelIsMembers, MembersInDb, DbIsMembers, SessionIds;
    InvParts(cfg, w);
    RebuiltParts(cfg, w, p, done);
    if a in p.sc {
      var t := OwnerOf(cfg, p, a);
      assert t in done;
      SameAt(p, w, done, t);
      SameFields(p.members[t], w.members[t]);
      OneOwner(cfg, w, s, t, a);
    }
  }

  ghost predicate GivesClassOf(c: Classing, m: Member) {
    match c
    case Unclassed => m.cls == None && m.clsSlot == 0 && m.mapping == None
    case Classed(name, slot, ip1, _) => m.cls == Some(name) && m.clsSlot == slot && m.mapping == Some(ip1)
  }

  /** The class of a row is granted again: same name, same slot, same mapped address. */
  lemma ClassRestored(cfg: Config, w: World, p: World, done: set<Sid>, s: Sid, k: RowKey, env: Env)
    requires ValidConfig(cfg) && Inv(cfg, w) && Rebuilt(cfg, w, p, done) && s in w.members && s !in done
    requires k in w.db && RowMatches(w.db[k], w.members[s]) && ServiceClass in cfg.tasks
    ensures GivesClassOf(Classify(cfg, p, Addr(cfg, s), RestoreReq(k, w.db[k]), env.draws), w.members[s])
  {
    hide Inv, Rebuilt, ValidConfig, Addr, MappedIp, PairsIn, Classify, ClassOf, Known;
    ClassFitsAt(cfg, w, s);
    NoClassName(cfg);
    var m := w.members[s];
    if m.cls.Some? {
      PairsOf(cfg, w);
      PairAt(cfg, w, s);
      OwnerMissing(cfg, w, p, done, s, Addr(cfg, s));
      OwnerMissing(cfg, w, p, done, s, m.mapping.value);
      ClassifyGrants(cfg, p, Addr(cfg, s), RestoreReq(k, w.db[k]), env.draws);
    } else {
      ClassifyUnknown(cfg, p, Addr(cfg, s), RestoreReq(k, w.db[k]), env.draws);
    }
  }

  lemma ClassifyGrants(cfg: Config, p: World, ip: nat, req: Req, draws: seq<nat>)
    requires req.cls.Some? && ClassOf(cfg.classes, req.cls.value).Some?
    requires var c := ClassOf(cfg.classes, req.cls.value).value;
             && 0 < req.clsSlot <= c.size && ip != MappedIp(c, req.clsSlot)
             && ip !in p.sc && MappedIp(c, req.clsSlot) !in p.sc
    ensures var r := Classify(cfg, p, ip, req, draws);
            && r.Classed? && r.name == req.cls.value && r.slot == req.clsSlot
            && r.ip1 == MappedIp(ClassOf(cfg.classes, req.cls.value).value, req.clsSlot)
  {
  }

  lemma ClassifyUnknown(cfg: Config, p: World, ip: nat, req: Req, draws: seq<nat>)
    requires req.cls.Some? && ClassOf(cfg.classes, req.cls.value) == None
    ensures Classify(cfg, p, ip, req, draws) == Unclassed
  {
  }

  lemma NoClassName(cfg: Config)
    requires ValidConfig(cfg)
    ensures ClassOf(cfg.classes, NO_CLASS) == None
  {
  }

  lemma ClassFitsAt(cfg: Config, w: World, s: Sid)
    requires Inv(cfg, w) && s in w.members
    ensures ClassFits(cfg, w.members[s]) && Known(cfg, s)
    ensures w.members[s].cls.Some? <==> w.members[s].mapping.Some?
  {
    hide MembersInKernel, KernelIsMembers, PairsIn, SetOwned, OwnersUnique, MembersInDb, DbIsMembers, SessionIds,
      SlotsFlagged, SlotsCounted, Known;
  }

  lemma PairsOf(cfg: Config, w: World)
    requires Inv(cfg, w)
    ensures PairsIn(cfg, w)
  {
    hide PairsIn;
    InvParts(cfg, w);
  }

  /** The replay of a row is the start of a session that is not there yet. */
  lemma RestoreStarts(cfg: Config, w: World, p: World, done: set<Sid>, k: RowKey, env: Env)
    requires ValidConfig(cfg) && Inv(cfg, w) && Rebuilt(cfg, w, p, done) && k in w.db
    requires SidAt(cfg, k.vid, k.ip) !in done
    ensures var s, req := SidAt(cfg, k.vid, k.ip), RestoreReq(k, w.db[k]);
            && s in w.members && s !in p.members && Known(cfg, s) && Stamped(req, env) == req
            && Started(cfg, p, StartSess(cfg, p, s, req, env), s, req, env)
  {
    hide ValidConfig, Addr, SidAt, Spans, Inv, CoreInv, Started, StartSess, RowMatches, Rebuilt, SameSessions, Known,
      ClassFits, KeyOf, RowKeyOf, MembersInKernel, KernelIsMembers, PairsIn, SetOwned, OwnersUnique, Placed;
    var s := SidAt(cfg, k.vid, k.ip);
    RebuiltParts(cfg, w, p, done);
    MemberOfRow(cfg, w, k);
    ClassFitsAt(cfg, w, s);
    FreeKey(cfg, p, s);
    StartEffect(cfg, p, s, RestoreReq(k, w.db[k]), env);
    RowStart(w.db[k], w.members[s]);
  }

  /** One row replayed rebuilds one more session. */
  lemma RestoreStep(cfg: Config, w: World, p: World, done: set<Sid>, k: RowKey, env: Env)
    requires ValidConfig(cfg) && Inv(cfg, w) && Rebuilt(cfg, w, p, done) && k in w.db
    requires SidAt(cfg, k.vid, k.ip) !in done
    ensures var s := SidAt(cfg, k.vid, k.ip);
            s in w.members && Rebuilt(cfg, w, StartSess(cfg, p, s, RestoreReq(k, w.db[k]), env), done + {s})
  {
    hide ValidConfig, Addr, SidAt, Spans, Inv, CoreInv, Started, StartSess, RowMatches, ClassGiven, Rebuilt,
      SameSessions, SameSession, Known, ClassFits, KeyOf, RowKeyOf, MembersInKernel, KernelIsMembers, PairsIn,
      SetOwned, OwnersUnique, Placed;
    var s := SidAt(cfg, k.vid, k.ip);
    var req := RestoreReq(k, w.db[k]);
    var p1 := StartSess(cfg, p, s, req, env);
    RestoreStarts(cfg, w, p, done, k, env);
    RebuiltParts(cfg, w, p, done);
    MemberOfRow(cfg, w, k);
    StartedKeepsCore(cfg, p, p1, s, req, env);
    StartedShape(cfg, p, p1, s, req, env);
    MemberRestored(cfg, w, p, p1, done, s, k, env);
    SameGrows(p, p1, w, done, s);
    RebuiltOf(cfg, w, p1, done + {s});
  }

  lemma SameGrows(p: World, p1: World, w: World, done: set<Sid>, s: Sid)
    requires SameSessions(p, w, done) && s in p1.members && p1.members == p.members[s := p1.members[s]]
    requires s !in done && s in w.members && SameSession(p1.members[s], w.members[s])
    ensures SameSessions(p1, w, done + {s})
  {
    hide SameSession;
  }

  lemma RebuiltOf(cfg: Config, w: World, p: World, done: set<Sid>)
    requires CoreInv(cfg, p) && p.db == w.db && p.members.Keys == done && SameSessions(p, w, done)
    ensures Rebuilt(cfg, w, p, done)
  {
    hide CoreInv, SameSessions;
  }

  lemma StartedShape(cfg: Config, p: World, p1: World, s: Sid, req: Req, env: Env)
    requires Started(cfg, p, p1, s, req, env)
    ensures s in p1.members && p1.members == p.members[s := p1.members[s]]
    ensures RowKeyOf(cfg, s, req.mac) in p.db ==> p1.db == p.db
  {
    hide ClassGiven, SlotGiven, Addr;
  }

  lemma RowStart(r: Row, m: Member)
    requires RowMatches(r, m)
    ensures r.start != 0
  {
  }

  lemma MemberOfRow(cfg: Config, w: World, k: RowKey)
    requires ValidConfig(cfg) && Inv(cfg, w) && k in w.db
    ensures var s := SidAt(cfg, k.vid, k.ip);
            && s in w.members && s.vid == k.vid && k == RowKeyOf(cfg, s, k.mac) && w.members[s].mac == k.mac
            && RowMatches(w.db[k], w.members[s])
  {
    hide Inv, CoreInv, MembersInDb, DbIsMembers, ValidConfig, Addr, SidAt, Spans, RowMatches, SessionIds, Placed,
      MembersInKernel, KernelIsMembers, PairsIn, SetOwned, OwnersUnique;
    InvParts(cfg, w);
    RowAt(cfg, w, k);
    IndexAddr(cfg, k.vid, k.ip);
    SidAtVid(cfg, k.vid, k.ip);
    RowOfMember(cfg, w, SidAt(cfg, k.vid, k.ip));
  }

  lemma MemberRestored(cfg: Config, w: World, p: World, p1: World, done: set<Sid>, s: Sid, k: RowKey, env: Env)
    requires ValidConfig(cfg) && Inv(cfg, w) && Rebuilt(cfg, w, p, done) && s in w.members && s !in done
    requires k in w.db && RowMatches(w.db[k], w.members[s]) && w.members[s].mac == k.mac
    requires Started(cfg, p, p1, s, RestoreReq(k, w.db[k]), env)
    ensures s in p1.members && SameSession(p1.members[s], w.members[s])
  {
    hide ValidConfig, Addr, Inv, Rebuilt, Classify, SlotGiven, ClassOf, MappedIp, SameSession;
    ClassFitsAt(cfg, w, s);
    if ServiceClass in cfg.tasks { ClassRestored(cfg, w, p, done, s, k, env); }
    FieldsSame(p1.members[s], w.members[s]);
  }

  /** No two rows of an order that lists every key once belong to one session. */
  ghost predicate NoRepeats(order: seq<RowKey>) {
    forall i, j :: 0 <= i < j < |order| ==> order[i] != order[j]
  }

  function SidsOf(cfg: Config, order: seq<RowKey>): set<Sid> {
    set i | 0 <= i < |order| :: SidAt(cfg, order[i].vid, order[i].ip)
  }

  lemma {:induction false} RestoreAll(cfg: Config, w: World, p: World, done: set<Sid>, order: seq<RowKey>,
      envs: RowKey -> Env)
    requires ValidConfig(cfg) && Inv(cfg, w) && Rebuilt(cfg, w, p, done)
    requires forall k :: k in order ==> k in w.db
    requires NoRepeats(order) && SidsOf(cfg, order) !! done
    ensures Rebuilt(cfg, w, Restore(cfg, p, w.db, order, envs), done + SidsOf(cfg, order))
    decreases |order|
  {
    hide ValidConfig, Addr, SidAt, Spans, Inv, Rebuilt, StartSess, SidsOf;
    SidsEmpty(cfg);
    if order == [] {
      assert done + SidsOf(cfg, order) == done;
    } else {
      var k, rest := order[0], order[1..];
      var s := SidAt(cfg, k.vid, k.ip);
      assert k in order;
      SidsTail(cfg, w, order);
      RestoreStep(cfg, w, p, done, k, envs(k));
      RestoreAll(cfg, w, StartSess(cfg, p, s, RestoreReq(k, w.db[k]), envs(k)), done + {s}, rest, envs);
      assert done + {s} + SidsOf(cfg, rest) == done + SidsOf(cfg, order);
    }
  }

  lemma SidsEmpty(cfg: Config)
    ensures SidsOf(cfg, []) == {}
  {
  }

  lemma SidsCons(cfg: Config, order: seq<RowKey>)
    requires order != []
    ensures SidsOf(cfg, order) == {SidAt(cfg, order[0].vid, order[0].ip)} + SidsOf(cfg, order[1..])
  {
    hide SidAt;
    var s := SidAt(cfg, order[0].vid, order[0].ip);
    forall t
      ensures t in SidsOf(cfg, order) <==> t == s || t in SidsOf(cfg, order[1..])
    {
      if t in SidsOf(cfg, order) {
        var i :| 0 <= i < |order| && t == SidAt(cfg, order[i].vid, order[i].ip);
        if i > 0 { assert order[1..][i - 1] == order[i]; }
      }
      if t in SidsOf(cfg, order[1..]) {
        var i :| 0 <= i < |order[1..]| && t == SidAt(cfg, order[1..][i].vid, order[1..][i].ip);
        assert order[i + 1] == order[1..][i];
      }
    }
  }

  /** The session of the first row is not one of the rows behind it. */
  ghost predicate FirstApart(cfg: Config, order: seq<RowKey>) {
    order != [] &&
    var s := SidAt(cfg, order[0].vid, order[0].ip);
    SidsOf(cfg, order) == {s} + SidsOf(cfg, order[1..]) && s !in SidsOf(cfg, order[1..])
  }

  lemma SidsTail(cfg: Config, w: World, order: seq<RowKey>)
    requires ValidConfig(cfg) && Inv(cfg, w) && order != [] && NoRepeats(order) && forall k :: k in order ==> k in w.db
    ensures FirstApart(cfg, order)
  {
    hide ValidConfig, Addr, SidAt, Spans, Inv, RowMatches, RowKeyOf, SidsOf;
    SidsCons(cfg, order);
    var s := SidAt(cfg, order[0].vid, order[0].ip);
    assert order[0] in order;
    MemberOfRow(cfg, w, order[0]);
    if s in SidsOf(cfg, order[1..]) {
      var i := SidIndex(cfg, order[1..], s);
      assert order[i + 1] in order && order[1..][i] == order[i + 1];
      MemberOfRow(cfg, w, order[i + 1]);
    }
  }

  lemma SidIndex(cfg: Config, order: seq<RowKey>, s: Sid) returns (i: nat)
    requires s in SidsOf(cfg, order)
    ensures i < |order| && s == SidAt(cfg, order[i].vid, order[i].ip)
  {
    i :| 0 <= i < |order| && s == SidAt(cfg, order[i].vid, order[i].ip);
  }

  /** Rebuilt sessions bring back the same service class set. */
  lemma SameSet(cfg: Config, w: World, p: World)
    requires Inv(cfg, w) && Rebuilt(cfg, w, p, w.members.Keys)
    ensures p.sc == w.sc
  {
    hide Inv, Rebuilt;
    forall a
      ensures a in p.sc <==> a in w.sc
      ensures a in p.sc && a in w.sc ==> p.sc[a] == w.sc[a]
    {
      SameSetAt(cfg, w, p, a);
    }
  }

  lemma SameSetAt(cfg: Config, w: World, p: World, a: nat)
    requires Inv(cfg, w) && Rebuilt(cfg, w, p, w.members.Keys)
    ensures a in p.sc <==> a in w.sc
    ensures a in p.sc && a in w.sc ==> p.sc[a] == w.sc[a]
  {
    hide Inv, Rebuilt, CoreInv, Addr, SetOwned, PairsIn, OwnersUnique, SameSession, SameSessions, Placed,
      MembersInKernel, KernelIsMembers, MembersInDb, DbIsMembers, SessionIds;
    InvParts(cfg, w);
    RebuiltParts(cfg, w, p, w.members.Keys);
    if a in p.sc {
      PairBoth(cfg, w, p, OwnerOfF(cfg, p, a));
    }
    if a in w.sc {
      PairBoth(cfg, w, p, OwnerOfF(cfg, w, a));
    }
  }

  ghost function OwnerOfF(cfg: Config, w: World, a: nat): (s: Sid)
    requires SetOwned(cfg, w) && a in w.sc
    ensures Owns(cfg, w, s, a)
  {
    var s :| Owns(cfg, w, s, a);
    s
  }

  lemma PairBoth(cfg: Config, w: World, p: World, t: Sid)
    requires PairsIn(cfg, w) && PairsIn(cfg, p) && SameSessions(p, w, w.members.Keys)
             && p.members.Keys == w.members.Keys
    requires t in w.members && (w.members[t].mapping.Some? || p.members[t].mapping.Some?)
    ensures w.members[t].mapping == p.members[t].mapping && w.members[t].mapping.Some?
    ensures PairIn(w.sc, Addr(cfg, t), w.members[t].mapping.value)
            && PairIn(p.sc, Addr(cfg, t), w.members[t].mapping.value)
  {
    hide Addr, PairsIn, SameSession, SameSessions;
    SameAt(p, w, w.members.Keys, t);
    SameFields(p.members[t], w.members[t]);
    PairAt(cfg, p, t);
    PairAt(cfg, w, t);
  }

  /** Rebuilt sessions bring back the same kernel entries, up to their time stamps. */
  lemma SameKernelAt(cfg: Config, w: World, p: World, k: KernelKey)
    requires ValidConfig(cfg) && Inv(cfg, w) && Rebuilt(cfg, w, p, w.members.Keys)
    ensures k in p.kernel <==> k in w.kernel
    ensures k in p.kernel && k in w.kernel ==> p.kernel[k].mac == w.kernel[k].mac
  {
    hide Addr, Spans, SidAt, ValidConfig, Inv, Rebuilt, CoreInv, KernelIsMembers, MembersInKernel, SameSession,
      SameSessions, SetOwned, PairsIn, OwnersUnique, Placed, MembersInDb, DbIsMembers, SessionIds;
    InvParts(cfg, w);
    RebuiltParts(cfg, w, p, w.members.Keys);
    if k in p.kernel { KernelAt(cfg, p, k); }
    if k in w.kernel { KernelAt(cfg, w, k); }
    if k in p.kernel || k in w.kernel {
      var s := SidAt(cfg, k.vid, k.ip);
      IndexAddr(cfg, k.vid, k.ip);
      SidAtVid(cfg, k.vid, k.ip);
      InKernel(cfg, w, s);
      InKernel(cfg, p, s);
      SameAt(p, w, w.members.Keys, s);
      SameFields(p.members[s], w.members[s]);
    }
  }

  ghost predicate SameKernel(w: World, p: World) {
    && (forall k :: k in p.kernel <==> k in w.kernel)
    && (forall k :: k in p.kernel && k in w.kernel ==> p.kernel[k].mac == w.kernel[k].mac)
  }

  lemma SameKernels(cfg: Config, w: World, p: World)
    requires ValidConfig(cfg) && Inv(cfg, w) && Rebuilt(cfg, w, p, w.members.Keys)
    ensures SameKernel(w, p)
  {
    hide ValidConfig, Inv, Rebuilt;
    forall k
      ensures k in p.kernel <==> k in w.kernel
      ensures k in p.kernel && k in w.kernel ==> p.kernel[k].mac == w.kernel[k].mac
    {
      SameKernelAt(cfg, w, p, k);
    }
  }

  lemma InKernel(cfg: Config, w: World, s: Sid)
    requires MembersInKernel(cfg, w) && s in w.members
    ensures KeyOf(cfg, s) in w.kernel && w.kernel[KeyOf(cfg, s)].mac == w.members[s].mac
  {
  }

  /** The same sessions at the same indexes, the same service class set and table, and the same
      kernel entries up to their time stamps. */
  ghost predicate Recovered(w: World, p: World) {
    && p.members.Keys == w.members.Keys && SameSessions(p, w, w.members.Keys)
    && p.sc == w.sc && p.db == w.db && SameKernel(w, p)
  }

  /** After a crash in any reachable state, replaying all rows in any order recovers every
      session, and the stores agree again. */
  lemma RestartRecovers(cfg: Config, w: World, order: seq<RowKey>, envs: RowKey -> Env)
    requires ValidConfig(cfg) && Inv(cfg, w)
    requires NoRepeats(order) && forall k :: k in order <==> k in w.db
    ensures var p := Restore(cfg, Boot(w.db), w.db, order, envs);
            Inv(cfg, p) && Recovered(w, p)
  {
    hide Addr, Spans, SidAt, ValidConfig, Inv, Restore, CoreInv, Rebuilt, SidsOf, SameSession, NoRepeats,
      SameSessions, SameKernel, MembersInKernel, KernelIsMembers, PairsIn, SetOwned, OwnersUnique, Placed;
    BootRebuilt(cfg, w);
    AllSids(cfg, w, order);
    RestoreAll(cfg, w, Boot(w.db), {}, order, envs);
    var p := Restore(cfg, Boot(w.db), w.db, order, envs);
    assert {} + SidsOf(cfg, order) == w.members.Keys;
    RebuiltParts(cfg, w, p, w.members.Keys);
    SameSet(cfg, w, p);
    SameKernels(cfg, w, p);
    RebuiltInv(cfg, w, p);
  }

  lemma BootRebuilt(cfg: Config, w: World)
    ensures Rebuilt(cfg, w, Boot(w.db), {})
  {
    assert LiveSlots(Boot(w.db)) == {};
  }

  lemma AllSids(cfg: Config, w: World, order: seq<RowKey>)
    requires ValidConfig(cfg) && Inv(cfg, w) && forall k :: k in order <==> k in w.db
    ensures SidsOf(cfg, order) == w.members.Keys
  {
    hide ValidConfig, Addr, SidAt, Spans, Inv, RowMatches, RowKeyOf;
    forall s
      ensures s in SidsOf(cfg, order) <==> s in w.members
    {
      if s in SidsOf(cfg, order) {
        var i :| 0 <= i < |order| && s == SidAt(cfg, order[i].vid, order[i].ip);
        assert order[i] in order;
        MemberOfRow(cfg, w, order[i]);
      }
      if s in w.members {
        var k := MemberRow(cfg, w, s);
        assert k in order;
        var i :| 0 <= i < |order| && order[i] == k;
      }
    }
  }

  lemma MemberRow(cfg: Config, w: World, s: Sid) returns (k: RowKey)
    requires ValidConfig(cfg) && Inv(cfg, w) && s in w.members
    ensures k in w.db && SidAt(cfg, k.vid, k.ip) == s
  {
    hide ValidConfig, Addr, SidAt, Spans, Inv, CoreInv, RowMatches, Known, ClassFits, MembersInKernel,
      KernelIsMembers, PairsIn, SetOwned, OwnersUnique, Placed, MembersInDb, DbIsMembers, SessionIds;
    InvParts(cfg, w);
    ClassFitsAt(cfg, w, s);
    AddrIndex(cfg, s);
    RowOfMember(cfg, w, s);
    k := RowKeyOf(cfg, s, w.members[s].mac);
  }

  lemma RebuiltInv(cfg: Config, w: World, p: World)
    requires Inv(cfg, w) && Rebuilt(cfg, w, p, w.members.Keys)
    ensures Inv(cfg, p)
  {
    hide Addr, CoreInv, MembersInDb, DbIsMembers, Rebuilt, SessionIds, SameSessions, MembersInKernel, KernelIsMembers,
      PairsIn, SetOwned, OwnersUnique, Placed;
    InvParts(cfg, w);
    RebuiltParts(cfg, w, p, w.members.Keys);
    RebuiltRows(cfg, w, p);
    RebuiltDb(cfg, w, p);
    RebuiltIds(w, p);
  }

  lemma RebuiltIds(w: World, p: World)
    requires SessionIds(w) && p.members.Keys == w.members.Keys && SameSessions(p, w, w.members.Keys)
    ensures SessionIds(p)
  {
    forall s | s in p.members
      ensures s in w.members && p.members[s].session == w.members[s].session && p.members[s].user == w.members[s].user
    {
      SameAt(p, w, w.members.Keys, s);
      SameFields(p.members[s], w.members[s]);
    }
  }

  lemma RebuiltRows(cfg: Config, w: World, p: World)
    requires MembersInDb(cfg, w) && p.db == w.db
    requires p.members.Keys == w.members.Keys && SameSessions(p, w, w.members.Keys)
    ensures MembersInDb(cfg, p)
  {
    forall s | s in p.members
      ensures RowKeyOf(cfg, s, p.members[s].mac) in p.db
      ensures RowMatches(p.db[RowKeyOf(cfg, s, p.members[s].mac)], p.members[s])
    {
      hide Addr, MembersInDb, SameSession, SameSessions;
      SameAt(p, w, w.members.Keys, s);
      SameFields(p.members[s], w.members[s]);
      RowOfMember(cfg, w, s);
    }
  }

  lemma RebuiltDb(cfg: Config, w: World, p: World)
    requires DbIsMembers(cfg, w) && p.db == w.db
    requires p.members.Keys == w.members.Keys && SameSessions(p, w, w.members.Keys)
    ensures DbIsMembers(cfg, p)
  {
    forall k | k in p.db
      ensures Spans(cfg, k.vid, k.ip) && SidAt(cfg, k.vid, k.ip) in p.members
      ensures p.members[SidAt(cfg, k.vid, k.ip)].mac == k.mac
    {
      hide Addr, SidAt, Spans, DbIsMembers, SameSession, SameSessions;
      RowAt(cfg, w, k);
      var s := SidAt(cfg, k.vid, k.ip);
      SameAt(p, w, w.members.Keys, s);
      SameFields(p.members[s], w.members[s]);
    }
  }
}
