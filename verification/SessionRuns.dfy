/** Starts and stops keep the stores in agreement, whatever the run. */
module SessionRuns {
  import opened Options
  import opened Tasks
  import opened Sessions
  import opened SessionInv

  // ---------- a start keeps the invariant ----------

  // one fact about one session or key at a time

  lemma KernelAt(cfg: Config, w: World, k: KernelKey)
    requires KernelIsMembers(cfg, w) && k in w.kernel
    ensures Spans(cfg, k.vid, k.ip) && SidAt(cfg, k.vid, k.ip) in w.members
  {
  }

  lemma RowAt(cfg: Config, w: World, k: RowKey)
    requires DbIsMembers(cfg, w) && k in w.db
    ensures Spans(cfg, k.vid, k.ip) && SidAt(cfg, k.vid, k.ip) in w.members
    ensures w.members[SidAt(cfg, k.vid, k.ip)].mac == k.mac
  {
  }

  lemma RowOfMember(cfg: Config, w: World, s: Sid)
    requires MembersInDb(cfg, w) && s in w.members
    ensures RowKeyOf(cfg, s, w.members[s].mac) in w.db
    ensures RowMatches(w.db[RowKeyOf(cfg, s, w.members[s].mac)], w.members[s])
  {
  }

  lemma PairAt(cfg: Config, w: World, s: Sid)
    requires PairsIn(cfg, w) && s in w.members && w.members[s].mapping.Some?
    ensures PairIn(w.sc, Addr(cfg, s), w.members[s].mapping.value)
  {
  }

  lemma OwnerOf(cfg: Config, w: World, a: nat) returns (s: Sid)
    requires SetOwned(cfg, w) && a in w.sc
    ensures Owns(cfg, w, s, a)
  {
    s :| Owns(cfg, w, s, a);
  }

  lemma OneOwner(cfg: Config, w: World, s: Sid, t: Sid, a: nat)
    requires OwnersUnique(cfg, w) && Owns(cfg, w, s, a) && Owns(cfg, w, t, a)
    ensures s == t
  {
  }

  lemma KnownAt(cfg: Config, w: World, s: Sid)
    requires Placed(cfg, w) && s in w.members
    ensures Known(cfg, s)
  {
  }

  lemma MembersKept(cfg: Config, w: World, w1: World, s: Sid, mac: nat, now: int)
    requires ValidConfig(cfg) && Placed(cfg, w) && Known(cfg, s) && MembersInKernel(cfg, w)
    requires s in w1.members && w1.members == w.members[s := w1.members[s]] && w1.members[s].mac == mac
    requires w1.kernel == w.kernel[KeyOf(cfg, s) := KernelEntry(mac, now)]
    ensures MembersInKernel(cfg, w1)
  {
    hide ValidConfig, Addr, Placed, Known;
    forall t | t in w1.members
      ensures KeyOf(cfg, t) in w1.kernel && w1.kernel[KeyOf(cfg, t)].mac == w1.members[t].mac
    {
      if t != s && KeyOf(cfg, t) == KeyOf(cfg, s) {
        KnownAt(cfg, w, t);
        AddrInjective(cfg, s, t);
      }
    }
  }

  lemma KernelKept(cfg: Config, w: World, w1: World, s: Sid, mac: nat, now: int)
    requires ValidConfig(cfg) && Placed(cfg, w) && Known(cfg, s)
    requires MembersInKernel(cfg, w) && KernelIsMembers(cfg, w)
    requires s in w1.members && w1.members == w.members[s := w1.members[s]] && w1.members[s].mac == mac
    requires w1.kernel == w.kernel[KeyOf(cfg, s) := KernelEntry(mac, now)]
    ensures Placed(cfg, w1) && MembersInKernel(cfg, w1) && KernelIsMembers(cfg, w1)
  {
    MembersKept(cfg, w, w1, s, mac, now);
    AddrIndex(cfg, s);
    hide ValidConfig, Addr, SidAt, Spans, Known, MembersInKernel;
  }

  /** A given class fits, and brings two new addresses that belonged to nobody. */
  lemma ClassGivenFits(cfg: Config, w: World, w1: World, s: Sid, req: Req, env: Env)
    requires ValidConfig(cfg) && s in w1.members && ClassGiven(cfg, w, w1, s, req, env)
    ensures ClassFits(cfg, w1.members[s])
    ensures w1.members[s].mapping == None ==> w1.sc == w.sc
    ensures w1.members[s].mapping.Some? ==>
              var ip, ip1 := Addr(cfg, s), w1.members[s].mapping.value;
              ip !in w.sc && ip1 !in w.sc && ip != ip1 && w1.sc == w.sc[ip := ip1][ip1 := ip]
  {
    hide MappedIp, Addr;
    if req.cls.Some? { ClassOfIn(cfg.classes, req.cls.value); }
  }

  /** The pair of a new member is new, so no old address changes its owner. */
  ghost predicate NewPair(cfg: Config, w: World, w1: World, s: Sid) {
    && s !in w.members && s in w1.members && w1.members == w.members[s := w1.members[s]]
    && (w1.members[s].mapping == None ==> w1.sc == w.sc)
    && (w1.members[s].mapping.Some? ==>
          var ip, ip1 := Addr(cfg, s), w1.members[s].mapping.value;
          ip !in w.sc && ip1 !in w.sc && ip != ip1 && w1.sc == w.sc[ip := ip1][ip1 := ip])
  }

  lemma OwnsOld(cfg: Config, w: World, w1: World, s: Sid, t: Sid, a: nat)
    requires PairsIn(cfg, w) && NewPair(cfg, w, w1, s) && t != s
    ensures Owns(cfg, w1, t, a) <==> Owns(cfg, w, t, a)
    ensures Owns(cfg, w, t, a) ==> a in w.sc
  {
    hide Addr;
  }

  lemma PairsKept(cfg: Config, w: World, w1: World, s: Sid)
    requires PairsIn(cfg, w) && NewPair(cfg, w, w1, s)
    ensures PairsIn(cfg, w1)
  {
    hide Addr;
  }

  lemma SetKept(cfg: Config, w: World, w1: World, s: Sid)
    requires PairsIn(cfg, w) && SetOwned(cfg, w) && NewPair(cfg, w, w1, s)
    ensures SetOwned(cfg, w1)
  {
    hide Addr, PairsIn;
    forall a | a in w1.sc
      ensures exists t :: Owns(cfg, w1, t, a)
    {
      if a in w.sc {
        var t := OwnerOf(cfg, w, a);
        OwnsOld(cfg, w, w1, s, t, a);
      } else {
        assert Owns(cfg, w1, s, a);
      }
    }
  }

  lemma UniqueKept(cfg: Config, w: World, w1: World, s: Sid)
    requires PairsIn(cfg, w) && OwnersUnique(cfg, w) && NewPair(cfg, w, w1, s)
    ensures OwnersUnique(cfg, w1)
  {
    forall t, u, a | Owns(cfg, w1, t, a) && Owns(cfg, w1, u, a)
      ensures t == u
    {
      hide Addr, PairsIn, OwnersUnique;
      if t != s { OwnsOld(cfg, w, w1, s, t, a); }
      if u != s { OwnsOld(cfg, w, w1, s, u, a); }
      if t != s && u != s { OneOwner(cfg, w, t, u, a); }
    }
  }

  lemma LiveAdded(w: World, w1: World, s: Sid)
    requires s !in w.members && s in w1.members && w1.members == w.members[s := w1.members[s]]
    ensures LiveSlots(w1) == LiveSlots(w) + if w1.members[s].slot == 0 then {} else {w1.members[s].slot}
  {
    forall f
      ensures f in LiveSlots(w1) <==> f in LiveSlots(w) || (f == w1.members[s].slot && f != 0)
    {
      if f in LiveSlots(w) {
        var t :| t in w.members && w.members[t].slot != 0 && w.members[t].slot == f;
        assert t in w1.members && w1.members[t].slot == f;
      }
    }
  }

  lemma FlagsKept(cfg: Config, w: World, w1: World, s: Sid, req: Req, env: Env)
    requires SlotsFlagged(cfg, w) && s !in w.members && s in w1.members
    requires w1.members == w.members[s := w1.members[s]] && SlotGiven(cfg, w, w1, s, req, env)
    ensures SlotsFlagged(cfg, w1)
  {
  }

  lemma SlotKept(cfg: Config, w: World, w1: World, s: Sid, req: Req, env: Env)
    requires SlotsFlagged(cfg, w) && SlotsCounted(w) && s !in w.members && s in w1.members
    requires w1.members == w.members[s := w1.members[s]] && SlotGiven(cfg, w, w1, s, req, env)
    ensures SlotsFlagged(cfg, w1) && SlotsCounted(w1)
  {
    LiveAdded(w, w1, s);
    assert w1.members[s].slot != 0 ==> w1.members[s].slot !in LiveSlots(w);
    assert |LiveSlots(w1)| == |LiveSlots(w)| + if w1.members[s].slot == 0 then 0 else 1;
    FlagsKept(cfg, w, w1, s, req, env);
    CountKept(cfg, w, w1, s, req, env);
  }

  lemma CountKept(cfg: Config, w: World, w1: World, s: Sid, req: Req, env: Env)
    requires SlotsCounted(w) && s in w1.members && SlotGiven(cfg, w, w1, s, req, env)
    requires |LiveSlots(w1)| == |LiveSlots(w)| + if w1.members[s].slot == 0 then 0 else 1
    ensures SlotsCounted(w1)
  {
    hide LiveSlots;
  }

  lemma DbKept(cfg: Config, w: World, w1: World, s: Sid, req: Req)
    requires ValidConfig(cfg) && Placed(cfg, w) && Known(cfg, s) && s !in w.members && req.start != 0
    requires MembersInDb(cfg, w) && DbIsMembers(cfg, w)
    requires s in w1.members && w1.members == w.members[s := w1.members[s]] && FreshMember(w1.members[s], req)
    requires var r := RowKeyOf(cfg, s, req.mac);
             w1.db == if r in w.db then w.db else w.db[r := RowOf(w1.members[s], req)]
    ensures RowKeyOf(cfg, s, req.mac) !in w.db
    ensures MembersInDb(cfg, w1) && DbIsMembers(cfg, w1)
  {
    var r := RowKeyOf(cfg, s, req.mac);
    AddrIndex(cfg, s);
    assert r !in w.db by {
      if r in w.db { RowAt(cfg, w, r); }
    }
    RowsKept(cfg, w, w1, s, req);
    DbGrows(cfg, w, w1, s, req.mac);
  }

  lemma DbGrows(cfg: Config, w: World, w1: World, s: Sid, mac: nat)
    requires ValidConfig(cfg) && Known(cfg, s) && DbIsMembers(cfg, w)
    requires s in w1.members && w1.members == w.members[s := w1.members[s]] && w1.members[s].mac == mac
    requires s !in w.members && RowKeyOf(cfg, s, mac) in w1.db
    requires w1.db == w.db[RowKeyOf(cfg, s, mac) := w1.db[RowKeyOf(cfg, s, mac)]]
    ensures DbIsMembers(cfg, w1)
  {
    forall k | k in w1.db
      ensures Spans(cfg, k.vid, k.ip) && SidAt(cfg, k.vid, k.ip) in w1.members
      ensures w1.members[SidAt(cfg, k.vid, k.ip)].mac == k.mac
    {
      AddrIndex(cfg, s);
      hide ValidConfig, Addr, SidAt, Spans, DbIsMembers, Known;
      if k != RowKeyOf(cfg, s, mac) { RowAt(cfg, w, k); }
    }
  }

  lemma RowsKept(cfg: Config, w: World, w1: World, s: Sid, req: Req)
    requires ValidConfig(cfg) && Placed(cfg, w) && Known(cfg, s) && s !in w.members && req.start != 0
    requires MembersInDb(cfg, w) && RowKeyOf(cfg, s, req.mac) !in w.db
    requires s in w1.members && w1.members == w.members[s := w1.members[s]] && FreshMember(w1.members[s], req)
    requires w1.db == w.db[RowKeyOf(cfg, s, req.mac) := RowOf(w1.members[s], req)]
    ensures MembersInDb(cfg, w1)
  {
    hide ValidConfig, Addr, Placed, Known;
    var r := RowKeyOf(cfg, s, req.mac);
    assert RowMatches(w1.db[r], w1.members[s]);
    forall t | t in w1.members
      ensures RowKeyOf(cfg, t, w1.members[t].mac) in w1.db
      ensures RowMatches(w1.db[RowKeyOf(cfg, t, w1.members[t].mac)], w1.members[t])
    {
      if t != s && RowKeyOf(cfg, t, w1.members[t].mac) == r {
        KnownAt(cfg, w, t);
        AddrInjective(cfg, s, t);
      }
    }
  }

  /** A session id and user that no member of the virtual server has. */
  ghost predicate NewSession(w: World, vid: int, req: Req) {
    forall t :: t in w.members && t.vid == vid ==> w.members[t].session != req.session || w.members[t].user != req.user
  }

  lemma StartedKeepsCore(cfg: Config, w: World, w1: World, s: Sid, req: Req, env: Env)
    requires ValidConfig(cfg) && CoreInv(cfg, w) && Known(cfg, s) && s !in w.members
    requires Started(cfg, w, w1, s, req, env)
    ensures CoreInv(cfg, w1)
  {
    hide ValidConfig, Addr, SidAt, Spans, MembersInKernel, KernelIsMembers, PairsIn, SetOwned, OwnersUnique,
      SlotsFlagged, SlotsCounted, ClassGiven, SlotGiven;
    KernelKept(cfg, w, w1, s, req.mac, env.now);
    ClassGivenFits(cfg, w, w1, s, req, env);
    NewPairOf(cfg, w, w1, s);
    PairsKept(cfg, w, w1, s);
    SetKept(cfg, w, w1, s);
    UniqueKept(cfg, w, w1, s);
    SlotKept(cfg, w, w1, s, req, env);
  }

  lemma NewPairOf(cfg: Config, w: World, w1: World, s: Sid)
    requires s !in w.members && s in w1.members && w1.members == w.members[s := w1.members[s]]
    requires w1.members[s].mapping == None ==> w1.sc == w.sc
    requires w1.members[s].mapping.Some? ==>
               var ip, ip1 := Addr(cfg, s), w1.members[s].mapping.value;
               ip !in w.sc && ip1 !in w.sc && ip != ip1 && w1.sc == w.sc[ip := ip1][ip1 := ip]
    ensures NewPair(cfg, w, w1, s)
  {
  }

  lemma StartedKeeps(cfg: Config, w: World, w1: World, s: Sid, req: Req, env: Env)
    requires ValidConfig(cfg) && Inv(cfg, w) && Known(cfg, s) && s !in w.members
    requires NewSession(w, s.vid, req) && req.start != 0 && Started(cfg, w, w1, s, req, env)
    ensures Inv(cfg, w1)
  {
    hide ValidConfig, Addr, SidAt, Spans, CoreInv, MembersInDb, DbIsMembers, ClassGiven, SlotGiven, SessionIds,
      NewSession;
    StartedKeepsCore(cfg, w, w1, s, req, env);
    PlacedOf(cfg, w);
    DbKept(cfg, w, w1, s, req);
    SessionIdsKept(w, w1, s, req);
  }

  lemma SessionIdsKept(w: World, w1: World, s: Sid, req: Req)
    requires SessionIds(w) && NewSession(w, s.vid, req) && s !in w.members
    requires s in w1.members && w1.members == w.members[s := w1.members[s]] && FreshMember(w1.members[s], req)
    ensures SessionIds(w1)
  {
  }

  lemma PlacedOf(cfg: Config, w: World)
    requires CoreInv(cfg, w)
    ensures Placed(cfg, w) && MembersInKernel(cfg, w) && KernelIsMembers(cfg, w) && 0 in w.flags
  {
  }

  lemma FreeKey(cfg: Config, w: World, s: Sid)
    requires ValidConfig(cfg) && Known(cfg, s) && s !in w.members && KernelIsMembers(cfg, w)
    ensures KeyOf(cfg, s) !in w.kernel
  {
    AddrIndex(cfg, s);
  }

  /** Starting an address of the range that has no member, under a new session id. */
  lemma StartKeeps(cfg: Config, w: World, s: Sid, req: Req, env: Env)
    requires ValidConfig(cfg) && Inv(cfg, w) && Known(cfg, s) && s !in w.members
    requires NewSession(w, s.vid, req) && Stamped(req, env).start != 0
    ensures Inv(cfg, StartSess(cfg, w, s, req, env))
    ensures Started(cfg, w, StartSess(cfg, w, s, req, env), s, Stamped(req, env), env)
  {
    var w1 := StartSess(cfg, w, s, req, env);
    hide ValidConfig, Addr, CoreInv, Started, StartSess, MembersInDb, DbIsMembers, SessionIds, Known, KernelIsMembers,
      MembersInKernel, Placed, KeyOf;
    PlacedOf(cfg, w);
    FreeKey(cfg, w, s);
    StartEffect(cfg, w, s, req, env);
    StartedKeeps(cfg, w, w1, s, Stamped(req, env), env);
  }

  // ---------- a stop ----------

  /** The effect of a stop: the session leaves every store and nothing else does. */
  ghost predicate Stopped(cfg: Config, w: World, w1: World, s: Sid, removed: bool)
    requires s in w.members
  {
    var m := w.members[s];
    && w1.members == w.members - {s}
    && w1.kernel == w.kernel - {KeyOf(cfg, s)}
    && w1.db == w.db - {RowKeyOf(cfg, s, m.mac)}
    && w1.sc == (if m.mapping.Some? then w.sc - {Addr(cfg, s)} - {m.mapping.value} else w.sc)
    && SlotReturned(w, w1, m.slot, removed)
  }

  /** A slot goes back to the count when the shaping was removed, and leaks otherwise; its flag
      stays in both cases. */
  ghost predicate SlotReturned(w: World, w1: World, slot: nat, removed: bool) {
    && w1.flags == w.flags
    && w1.count == (if slot != 0 && removed && w.count > 0 then w.count - 1 else w.count)
    && w1.leaked == (if slot != 0 && !removed then w.leaked + 1 else w.leaked)
  }

  lemma StopUnrolled(cfg: Config, classing: bool, shaping: bool, w: World, s: Sid, removed: bool)
    ensures var w1 := DbsetStop(w, s);
            var w2 := if shaping then BandwidthStop(w1, s, removed) else w1;
            var w3 := if classing then ServiceClassStop(cfg, w2, s) else w2;
            StopTasks(cfg, Pipeline(classing, shaping), w, s, removed) == MemsetStop(IpsetStop(cfg, w3, s), s)
  {
    hide StopTask, StopTasks, DbsetStop, BandwidthStop, ServiceClassStop, IpsetStop, MemsetStop;
    var w1 := DbsetStop(w, s);
    var w2 := if shaping then BandwidthStop(w1, s, removed) else w1;
    var w3 := if classing then ServiceClassStop(cfg, w2, s) else w2;
    var a := [Iptables, Memset, Ipset];
    var b := a + if classing then [ServiceClass] else [];
    var c := b + if shaping then [Bandwidth] else [];
    assert Pipeline(classing, shaping) == c + [Dbset];
    StopLast(cfg, Dbset, c, w, s, removed);
    if shaping { StopLast(cfg, Bandwidth, b, w1, s, removed); } else { assert c == b; }
    if classing { StopLast(cfg, ServiceClass, a, w2, s, removed); } else { assert b == a; }
    assert a == [Iptables, Memset] + [Ipset] && [Iptables, Memset] == [Iptables] + [Memset]
           && [Iptables] == [] + [Iptables];
    StopLast(cfg, Ipset, [Iptables, Memset], w3, s, removed);
    StopLast(cfg, Memset, [Iptables], IpsetStop(cfg, w3, s), s, removed);
    StopLast(cfg, Iptables, [], MemsetStop(IpsetStop(cfg, w3, s), s), s, removed);
    StopNone(cfg, MemsetStop(IpsetStop(cfg, w3, s), s), s, removed);
  }

  lemma StopNone(cfg: Config, w: World, s: Sid, removed: bool)
    ensures StopTasks(cfg, [], w, s, removed) == w
  {
  }

  lemma StopLast(cfg: Config, t: Task, rest: seq<Task>, w: World, s: Sid, removed: bool)
    ensures StopTasks(cfg, rest + [t], w, s, removed) ==
            StopTasks(cfg, rest, StopTask(cfg, t, w, s, removed), s, removed)
    ensures StopTask(cfg, t, w, s, removed) ==
            match t
            case Iptables => w
            case Memset => MemsetStop(w, s)
            case Ipset => IpsetStop(cfg, w, s)
            case ServiceClass => ServiceClassStop(cfg, w, s)
            case Bandwidth => BandwidthStop(w, s, removed)
            case Dbset => DbsetStop(w, s)
  {
    assert (rest + [t])[..|rest|] == rest;
  }

  /** No other member of the virtual server has the session id and user of s. */
  ghost predicate SessionUnique(w: World, s: Sid)
    requires s in w.members
  {
    forall t | t in w.members && t.vid == s.vid && t != s ::
      w.members[t].session != w.members[s].session || w.members[t].user != w.members[s].user
  }

  /** The delete statement names one row. */
  lemma OneRowNamed(cfg: Config, w: World, s: Sid, k: RowKey)
    requires ValidConfig(cfg) && Placed(cfg, w) && MembersInDb(cfg, w) && DbIsMembers(cfg, w)
    requires s in w.members && SessionUnique(w, s)
    requires k in w.db
    ensures k.vid == s.vid && w.db[k].session == w.members[s].session && w.db[k].user == w.members[s].user <==>
            k == RowKeyOf(cfg, s, w.members[s].mac)
  {
    hide ValidConfig, Addr, SidAt, Spans, Placed, MembersInDb, DbIsMembers;
    RowAt(cfg, w, k);
    IndexAddr(cfg, k.vid, k.ip);
    var t := SidAt(cfg, k.vid, k.ip);
    SidAtVid(cfg, k.vid, k.ip);
    RowOfMember(cfg, w, t);
    RowOfMember(cfg, w, s);
  }

  lemma SidAtVid(cfg: Config, vid: int, ip: int)
    ensures SidAt(cfg, vid, ip).vid == vid
  {
  }

  /** The delete statement removes the row of the member and no other. */
  lemma OneRowDeleted(cfg: Config, w: World, s: Sid)
    requires ValidConfig(cfg) && Placed(cfg, w) && MembersInDb(cfg, w) && DbIsMembers(cfg, w)
    requires s in w.members && SessionUnique(w, s)
    ensures DbsetStop(w, s).db == w.db - {RowKeyOf(cfg, s, w.members[s].mac)}
  {
    hide ValidConfig, Addr, Placed, MembersInDb, DbIsMembers, SessionUnique;
    forall k | k in w.db
      ensures k.vid == s.vid && w.db[k].session == w.members[s].session && w.db[k].user == w.members[s].user <==>
              k == RowKeyOf(cfg, s, w.members[s].mac)
    {
      OneRowNamed(cfg, w, s, k);
    }
  }

  /** The pair of a member with a class is deleted, in both directions. */
  lemma PairDeleted(cfg: Config, w: World, s: Sid, classing: bool)
    requires s in w.members && (classing <==> ServiceClass in cfg.tasks)
    requires ClassFits(cfg, w.members[s]) && PairsIn(cfg, w)
    ensures var w3 := if classing then ServiceClassStop(cfg, w, s) else w;
            w3 == w.(sc := if w.members[s].mapping.Some? then w.sc - {Addr(cfg, s)} - {w.members[s].mapping.value}
              else w.sc)
  {
  }

  lemma SlotStopped(cfg: Config, w: World, s: Sid, removed: bool, shaping: bool)
    requires SlotsFlagged(cfg, w) && s in w.members && (shaping <==> Bandwidth in cfg.tasks)
    ensures var w2 := if shaping then BandwidthStop(w, s, removed) else w;
            && s in w2.members && w2.members[s].(slot := 0) == w.members[s].(slot := 0)
            && w2 == w.(members := w.members[s := w2.members[s]], flags := w2.flags, count := w2.count,
               leaked := w2.leaked)
            && SlotReturned(w, w2, w.members[s].slot, removed)
  {
    assert w.members[s := w.members[s]] == w.members;
  }

  lemma StopEffect(cfg: Config, w: World, s: Sid, removed: bool)
    requires ValidConfig(cfg) && CoreInv(cfg, w) && MembersInDb(cfg, w) && DbIsMembers(cfg, w)
    requires s in w.members && SessionUnique(w, s)
    ensures Stopped(cfg, w, StopSess(cfg, w, s, removed), s, removed)
  {
    hide StopTasks, Pipeline, ClassFits, SessionUnique, MembersInDb, DbIsMembers, MembersInKernel, KernelIsMembers,
      PairsIn, SetOwned, OwnersUnique, SlotsFlagged, SlotsCounted, ServiceClassStop, BandwidthStop, SlotReturned;
    var classing, shaping :| cfg.tasks == Pipeline(classing, shaping);
    PipelineTasks(classing, shaping);
    StopUnrolled(cfg, classing, shaping, w, s, removed);
    OneRowDeleted(cfg, w, s);
    var w1 := DbsetStop(w, s);
    SlotsSame(cfg, w, w1);
    SlotStopped(cfg, w1, s, removed, shaping);
    var w2 := if shaping then BandwidthStop(w1, s, removed) else w1;
    PairsSame(cfg, w, w2, s);
    PairDeleted(cfg, w2, s, classing);
    SlotsReturnedSame(w, w1, w2, w.members[s].slot, removed);
    assert w2.members - {s} == w.members - {s};
    var w3 := if classing then ServiceClassStop(cfg, w2, s) else w2;
    SlotsReturnedSame2(w, w2, MemsetStop(IpsetStop(cfg, w3, s), s), w.members[s].slot, removed);
  }

  lemma SlotsSame(cfg: Config, w: World, w1: World)
    requires SlotsFlagged(cfg, w) && w1 == w.(db := w1.db)
    ensures SlotsFlagged(cfg, w1)
  {
  }

  lemma SlotsReturnedSame(w: World, w1: World, w2: World, slot: nat, removed: bool)
    requires w1 == w.(db := w1.db) && SlotReturned(w1, w2, slot, removed)
    ensures SlotReturned(w, w2, slot, removed)
  {
  }

  lemma SlotsReturnedSame2(w: World, w2: World, w5: World, slot: nat, removed: bool)
    requires w5.flags == w2.flags && w5.count == w2.count && w5.leaked == w2.leaked
             && SlotReturned(w, w2, slot, removed)
    ensures SlotReturned(w, w5, slot, removed)
  {
  }

  lemma PairsSame(cfg: Config, w: World, w2: World, s: Sid)
    requires PairsIn(cfg, w) && ClassesFit(cfg, w) && s in w.members && s in w2.members
    requires w2.sc == w.sc && w2.members == w.members[s := w2.members[s]]
    requires w2.members[s].(slot := 0) == w.members[s].(slot := 0)
    ensures PairsIn(cfg, w2) && ClassFits(cfg, w2.members[s])
  {
    hide Addr;
    assert w2.members[s].(slot := 0).mapping == w.members[s].(slot := 0).mapping;
    assert ClassFits(cfg, w.members[s]);
    var m, m2 := w.members[s], w2.members[s];
    assert m2.(slot := 0).cls == m.(slot := 0).cls && m2.(slot := 0).clsSlot == m.(slot := 0).clsSlot;
  }

  // ---------- a stop keeps the invariant ----------

  lemma KernelStopped(cfg: Config, w: World, w1: World, s: Sid)
    requires ValidConfig(cfg) && Placed(cfg, w) && s in w.members
    requires MembersInKernel(cfg, w) && KernelIsMembers(cfg, w)
    requires w1.members == w.members - {s} && w1.kernel == w.kernel - {KeyOf(cfg, s)}
    ensures Placed(cfg, w1) && MembersInKernel(cfg, w1) && KernelIsMembers(cfg, w1)
  {
    MembersStopped(cfg, w, w1, s);
    KernelStoppedOnly(cfg, w, w1, s);
    hide MembersInKernel, KernelIsMembers, Known;
  }

  lemma MembersStopped(cfg: Config, w: World, w1: World, s: Sid)
    requires ValidConfig(cfg) && Placed(cfg, w) && s in w.members && MembersInKernel(cfg, w)
    requires w1.members == w.members - {s} && w1.kernel == w.kernel - {KeyOf(cfg, s)}
    ensures MembersInKernel(cfg, w1)
  {
    hide ValidConfig, Addr, Placed, Known;
    forall t | t in w1.members
      ensures KeyOf(cfg, t) in w1.kernel && w1.kernel[KeyOf(cfg, t)].mac == w1.members[t].mac
    {
      if KeyOf(cfg, t) == KeyOf(cfg, s) {
        KnownAt(cfg, w, s);
        KnownAt(cfg, w, t);
        AddrInjective(cfg, s, t);
      }
    }
  }

  lemma KernelStoppedOnly(cfg: Config, w: World, w1: World, s: Sid)
    requires ValidConfig(cfg) && KernelIsMembers(cfg, w)
    requires w1.members == w.members - {s} && w1.kernel == w.kernel - {KeyOf(cfg, s)}
    ensures KernelIsMembers(cfg, w1)
  {
    forall k | k in w1.kernel
      ensures Spans(cfg, k.vid, k.ip) && SidAt(cfg, k.vid, k.ip) in w1.members
    {
      hide ValidConfig, Addr, SidAt, Spans, KernelIsMembers;
      KernelAt(cfg, w, k);
      IndexAddr(cfg, k.vid, k.ip);
      SidAtVid(cfg, k.vid, k.ip);
    }
  }

  lemma DbStopped(cfg: Config, w: World, w1: World, s: Sid)
    requires ValidConfig(cfg) && Placed(cfg, w) && s in w.members
    requires MembersInDb(cfg, w) && DbIsMembers(cfg, w)
    requires w1.members == w.members - {s} && w1.db == w.db - {RowKeyOf(cfg, s, w.members[s].mac)}
    ensures MembersInDb(cfg, w1) && DbIsMembers(cfg, w1)
  {
    RowsStopped(cfg, w, w1, s);
    DbStoppedOnly(cfg, w, w1, s);
  }

  lemma RowsStopped(cfg: Config, w: World, w1: World, s: Sid)
    requires ValidConfig(cfg) && Placed(cfg, w) && s in w.members && MembersInDb(cfg, w)
    requires w1.members == w.members - {s} && w1.db == w.db - {RowKeyOf(cfg, s, w.members[s].mac)}
    ensures MembersInDb(cfg, w1)
  {
    hide ValidConfig, Addr, Placed, Known, RowMatches;
    forall t | t in w1.members
      ensures RowKeyOf(cfg, t, w1.members[t].mac) in w1.db
      ensures RowMatches(w1.db[RowKeyOf(cfg, t, w1.members[t].mac)], w1.members[t])
    {
      if RowKeyOf(cfg, t, w.members[t].mac) == RowKeyOf(cfg, s, w.members[s].mac) {
        KnownAt(cfg, w, s);
        KnownAt(cfg, w, t);
        AddrInjective(cfg, s, t);
      }
    }
  }

  lemma DbStoppedOnly(cfg: Config, w: World, w1: World, s: Sid)
    requires ValidConfig(cfg) && DbIsMembers(cfg, w) && s in w.members
    requires w1.members == w.members - {s} && w1.db == w.db - {RowKeyOf(cfg, s, w.members[s].mac)}
    ensures DbIsMembers(cfg, w1)
  {
    forall k | k in w1.db
      ensures Spans(cfg, k.vid, k.ip) && SidAt(cfg, k.vid, k.ip) in w1.members
      ensures w1.members[SidAt(cfg, k.vid, k.ip)].mac == k.mac
    {
      hide ValidConfig, Addr, SidAt, Spans, DbIsMembers;
      RowAt(cfg, w, k);
      IndexAddr(cfg, k.vid, k.ip);
      SidAtVid(cfg, k.vid, k.ip);
    }
  }

  /** The pair of a removed member is nobody else's. */
  ghost predicate PairGone(cfg: Config, w: World, w1: World, s: Sid) {
    && s in w.members && w1.members == w.members - {s}
    && w1.sc == (if w.members[s].mapping.Some? then w.sc - {Addr(cfg, s)} - {w.members[s].mapping.value} else w.sc)
  }

  lemma OwnsRest(cfg: Config, w: World, w1: World, s: Sid, t: Sid, a: nat)
    requires OwnersUnique(cfg, w) && PairGone(cfg, w, w1, s)
    ensures Owns(cfg, w1, t, a) <==> Owns(cfg, w, t, a) && t != s
    ensures Owns(cfg, w1, t, a) && a in w.sc ==> a in w1.sc && w1.sc[a] == w.sc[a]
  {
    hide Addr, OwnersUnique;
    if Owns(cfg, w, s, a) && Owns(cfg, w, t, a) { OneOwner(cfg, w, s, t, a); }
  }

  lemma PairsStopped(cfg: Config, w: World, w1: World, s: Sid)
    requires PairsIn(cfg, w) && OwnersUnique(cfg, w) && PairGone(cfg, w, w1, s)
    ensures PairsIn(cfg, w1)
  {
    forall t | t in w1.members && w1.members[t].mapping.Some?
      ensures PairIn(w1.sc, Addr(cfg, t), w1.members[t].mapping.value)
    {
      hide Addr, PairsIn, OwnersUnique;
      PairAt(cfg, w, t);
      OwnsRest(cfg, w, w1, s, t, Addr(cfg, t));
      OwnsRest(cfg, w, w1, s, t, w1.members[t].mapping.value);
    }
  }

  lemma SetStopped(cfg: Config, w: World, w1: World, s: Sid)
    requires SetOwned(cfg, w) && OwnersUnique(cfg, w) && PairGone(cfg, w, w1, s)
    ensures SetOwned(cfg, w1)
  {
    forall a | a in w1.sc
      ensures exists t :: Owns(cfg, w1, t, a)
    {
      hide Addr, SetOwned, OwnersUnique;
      var t := OwnerOf(cfg, w, a);
      OwnsRest(cfg, w, w1, s, t, a);
      assert t != s;
    }
  }

  lemma UniqueStopped(cfg: Config, w: World, w1: World, s: Sid)
    requires OwnersUnique(cfg, w) && PairGone(cfg, w, w1, s)
    ensures OwnersUnique(cfg, w1)
  {
    forall t, u, a | Owns(cfg, w1, t, a) && Owns(cfg, w1, u, a)
      ensures t == u
    {
      hide Addr, OwnersUnique;
      OwnsRest(cfg, w, w1, s, t, a);
      OwnsRest(cfg, w, w1, s, u, a);
      OneOwner(cfg, w, t, u, a);
    }
  }

  lemma LiveRemoved(cfg: Config, w: World, w1: World, s: Sid)
    requires SlotsFlagged(cfg, w) && s in w.members && w1.members == w.members - {s}
    ensures LiveSlots(w1) == LiveSlots(w) - {w.members[s].slot}
    ensures w.members[s].slot != 0 ==> w.members[s].slot in LiveSlots(w)
    ensures 0 !in LiveSlots(w)
  {
    forall f
      ensures f in LiveSlots(w1) <==> f in LiveSlots(w) && f != w.members[s].slot
    {
      if f in LiveSlots(w) && f != w.members[s].slot {
        var t :| t in w.members && w.members[t].slot != 0 && w.members[t].slot == f;
        assert t in w1.members && w1.members[t].slot == f;
      }
    }
  }

  lemma SlotsStopped(cfg: Config, w: World, w1: World, s: Sid, removed: bool)
    requires SlotsFlagged(cfg, w) && SlotsCounted(w) && s in w.members
    requires w1.members == w.members - {s} && SlotReturned(w, w1, w.members[s].slot, removed)
    ensures SlotsFlagged(cfg, w1) && SlotsCounted(w1)
  {
    LiveRemoved(cfg, w, w1, s);
    hide LiveSlots;
  }

  lemma StoppedKeepsStores(cfg: Config, w: World, w1: World, s: Sid, removed: bool)
    requires ValidConfig(cfg) && CoreInv(cfg, w) && MembersInDb(cfg, w) && DbIsMembers(cfg, w)
    requires s in w.members && Stopped(cfg, w, w1, s, removed)
    ensures CoreInv(cfg, w1) && MembersInDb(cfg, w1) && DbIsMembers(cfg, w1)
  {
    hide ValidConfig, Addr, SidAt, Spans, MembersInKernel, KernelIsMembers, PairsIn, SetOwned, OwnersUnique, Placed,
      SlotsFlagged, SlotsCounted, MembersInDb, DbIsMembers, SlotReturned, ClassesFit, KeyOf, RowKeyOf;
    KernelStopped(cfg, w, w1, s);
    DbStopped(cfg, w, w1, s);
    assert PairGone(cfg, w, w1, s);
    PairsStopped(cfg, w, w1, s);
    SetStopped(cfg, w, w1, s);
    UniqueStopped(cfg, w, w1, s);
    SlotsStopped(cfg, w, w1, s, removed);
    FewerMembers(cfg, w, w1, s);
  }

  lemma FewerMembers(cfg: Config, w: World, w1: World, s: Sid)
    requires w1.members == w.members - {s}
    ensures ClassesFit(cfg, w) ==> ClassesFit(cfg, w1)
    ensures SessionIds(w) ==> SessionIds(w1)
  {
    hide ClassFits;
  }

  /** Stopping a member keeps all stores in agreement. */
  lemma StopKeeps(cfg: Config, w: World, s: Sid, removed: bool)
    requires ValidConfig(cfg) && Inv(cfg, w) && s in w.members
    ensures Inv(cfg, StopSess(cfg, w, s, removed))
    ensures Stopped(cfg, w, StopSess(cfg, w, s, removed), s, removed)
  {
    hide ValidConfig, CoreInv, MembersInDb, DbIsMembers, StopSess;
    StopEffect(cfg, w, s, removed);
    StoppedKeepsStores(cfg, w, StopSess(cfg, w, s, removed), s, removed);
    FewerMembers(cfg, w, StopSess(cfg, w, s, removed), s);
  }

  /** Without the promise about session ids: the table still agrees with the members after a
      stop exactly when no other member of the virtual server shares the session id and user. */
  lemma StopExact(cfg: Config, w: World, s: Sid, removed: bool)
    requires ValidConfig(cfg) && CoreInv(cfg, w) && MembersInDb(cfg, w) && DbIsMembers(cfg, w) && s in w.members
    ensures var w1 := StopSess(cfg, w, s, removed);
            MembersInDb(cfg, w1) && DbIsMembers(cfg, w1) <==> SessionUnique(w, s)
  {
    hide ValidConfig, CoreInv, MembersInDb, DbIsMembers, StopSess;
    var w1 := StopSess(cfg, w, s, removed);
    if SessionUnique(w, s) {
      StopEffect(cfg, w, s, removed);
      StoppedKeepsStores(cfg, w, w1, s, removed);
    } else {
      var t :| t in w.members && t.vid == s.vid && t != s &&
               w.members[t].session == w.members[s].session && w.members[t].user == w.members[s].user;
      StopDeletesTwin(cfg, w, s, t, removed);
      if MembersInDb(cfg, w1) { RowOfMember(cfg, w1, t); }
    }
  }

  lemma StopDeletesTwin(cfg: Config, w: World, s: Sid, t: Sid, removed: bool)
    requires ValidConfig(cfg) && MembersInDb(cfg, w) && s in w.members && t in w.members && t != s && t.vid == s.vid
    requires w.members[t].session == w.members[s].session && w.members[t].user == w.members[s].user
    ensures var w1 := StopSess(cfg, w, s, removed);
            && t in w1.members && w1.members[t] == w.members[t]
            && RowKeyOf(cfg, t, w.members[t].mac) !in w1.db
  {
    RowOfMember(cfg, w, t);
    var classing, shaping :| cfg.tasks == Pipeline(classing, shaping);
    hide ValidConfig, StopTasks, Pipeline, MembersInDb, Addr;
    StopUnrolled(cfg, classing, shaping, w, s, removed);
  }
}
