/** What a single start or stop request does, said on the stores themselves: addresses, clocks,
    fields and members, without the tasks that bring it about. */
module SessionRequests {
  import opened Options
  import opened Tasks
  import opened Sessions
  import opened SessionInv
  import opened SessionRuns
  import opened SessionPoll
  import opened SessionRestart
  import opened SessionSafety

  // ---------- addresses ----------

  /** The address is one of the clients of the virtual server. */
  predicate ClientAt(cfg: Config, vid: int, ip: int) {
    vid in cfg.vservers && 0 <= ip - cfg.vservers[vid].first < cfg.vservers[vid].size
  }

  /** The index of a client is its distance from the first one. */
  lemma ClientIndex(cfg: Config, vid: int, ip: nat)
    requires ValidConfig(cfg) && ClientAt(cfg, vid, ip)
    ensures var s := Sid(vid, ip - cfg.vservers[vid].first);
            && SidAt(cfg, vid, ip) == s && Known(cfg, s) && Spans(cfg, vid, ip) && Addr(cfg, s) == ip
  {
    var v := cfg.vservers[vid];
    assert (ip - v.first) % IP_SPACE == ip - v.first && ip % IP_SPACE == ip;
  }

  // ---------- stop requests ----------

  /** The client at the address is online under the MAC. */
  predicate OnlineWith(cfg: Config, w: World, vid: int, ip: int, mac: nat) {
    ClientAt(cfg, vid, ip) &&
    var s := Sid(vid, ip - cfg.vservers[vid].first);
    s in w.members && w.members[s].mac == mac
  }

  /** The client is gone from every store, with its slot given back, and nothing else is. */
  ghost predicate TakenOut(w: World, w1: World, s: Sid, ip: nat, removed: bool) {
    s in w.members &&
    var m := w.members[s];
    && w1.members == w.members - {s}
    && w1.kernel == w.kernel - {KernelKey(s.vid, ip)}
    && w1.db == w.db - {RowKey(s.vid, ip, m.mac)}
    && w1.sc == (if m.mapping.Some? then w.sc - {ip} - {m.mapping.value} else w.sc)
    && w1.flags == w.flags
    && w1.count == (if m.slot != 0 && removed && w.count > 0 then w.count - 1 else w.count)
  }

  /** A stop request takes the client at its address out of every store if and only if it is online
      under the MAC of the request; any other request leaves all stores as they were. */
  lemma StopSessionExact(cfg: Config, w: World, vid: int, ip: nat, mac: nat, removed: bool)
    requires ValidConfig(cfg) && Inv(cfg, w) && ip < IP_SPACE
    ensures var w1 := StopSession(cfg, w, vid, ip, mac, removed);
            if OnlineWith(cfg, w, vid, ip, mac) then
              TakenOut(w, w1, Sid(vid, ip - cfg.vservers[vid].first), ip, removed)
            else w1 == w
  {
    hide ValidConfig, Inv, SidAt, StopSess, Known, Addr, Spans, TakenOut;
    if ClientAt(cfg, vid, ip) {
      ClientIndex(cfg, vid, ip);
      var s := Sid(vid, ip - cfg.vservers[vid].first);
      if s in w.members { StopTakesOut(cfg, w, s, removed); }
    } else if vid in cfg.vservers {
      Outside(cfg, w, vid, ip);
    }
  }

  lemma StopTakesOut(cfg: Config, w: World, s: Sid, removed: bool)
    requires ValidConfig(cfg) && Inv(cfg, w) && s in w.members
    ensures TakenOut(w, StopSess(cfg, w, s, removed), s, Addr(cfg, s), removed)
  {
    hide ValidConfig, Inv, StopSess, Addr;
    StopKeeps(cfg, w, s, removed);
  }

  lemma Outside(cfg: Config, w: World, vid: int, ip: nat)
    requires ValidConfig(cfg) && Inv(cfg, w) && ip < IP_SPACE && vid in cfg.vservers && !ClientAt(cfg, vid, ip)
    ensures SidAt(cfg, vid, ip) !in w.members
  {
    OutOfRangeIndex(cfg, vid, ip);
    hide Inv, SidAt;
    if SidAt(cfg, vid, ip) in w.members { PlacedAt(cfg, w, SidAt(cfg, vid, ip)); }
  }

  // ---------- start requests ----------

  /** The member, the kernel entry and the row that a start at a time enters for a client. */
  ghost predicate Entered(cfg: Config, w: World, w1: World, vid: int, ip: nat, req: Req, now: int)
    requires ClientAt(cfg, vid, ip)
  {
    var s := Sid(vid, ip - cfg.vservers[vid].first);
    && s in w1.members
    && var m := w1.members[s];
       && w1.members == w.members[s := m]
       && m == Member(req.user, req.session, req.mac, now, req.timeout, req.down, req.up,
                      m.slot, m.cls, m.clsSlot, m.mapping)
       && w1.kernel == w.kernel[KernelKey(vid, ip) := KernelEntry(req.mac, now)]
       && w1.db == w.db[RowKey(vid, ip, req.mac) :=
            Row(req.session, req.user, now, req.timeout, m.slot, req.down, req.up,
                if m.cls == None then "(null)" else m.cls.value, m.clsSlot)]
  }

  /** A start request for a client that is online, or for an unknown virtual server, changes nothing;
      for any other client it enters exactly one member, kernel entry and row with the fields of
      the request and the time of the start. */
  lemma StartSessionEffect(cfg: Config, w: World, vid: int, ip: nat, req: Req, env: Env)
    requires ValidConfig(cfg) && Inv(cfg, w) && (vid in cfg.vservers ==> ClientAt(cfg, vid, ip))
    ensures var w1 := StartSession(cfg, w, vid, ip, req, env);
            if vid in cfg.vservers && Sid(vid, ip - cfg.vservers[vid].first) !in w.members then
              Entered(cfg, w, w1, vid, ip, req, env.now)
            else w1 == w
  {
    if vid in cfg.vservers {
      ClientIndex(cfg, vid, ip);
      var s, q := Sid(vid, ip - cfg.vservers[vid].first), req.(start := 0, clsSlot := 0);
      if s !in w.members {
        hide ValidConfig, Inv, SidAt, Spans, Known, Addr, StartSess, Started, Entered;
        StartsNew(cfg, w, s, q, env);
        StartedEnters(cfg, w, StartSess(cfg, w, s, q, env), vid, ip, req, env);
      }
    }
  }

  /** A start from an address out of the range enters a member under the index 0xFFFFFFFF, where all
      such addresses meet, unless one is there; the kernel refuses it, so it is not let through. */
  lemma StrangerStarts(cfg: Config, w: World, vid: int, ip: nat, req: Req, env: Env)
    requires ValidConfig(cfg) && vid in cfg.vservers && ip < IP_SPACE && !ClientAt(cfg, vid, ip)
    ensures var w1, s := StartSession(cfg, w, vid, ip, req, env), Sid(vid, 0xFFFF_FFFF);
            if s in w.members then w1 == w
            else s in w1.members && w1.kernel == w.kernel && w1.members.Keys == w.members.Keys + {s}
  {
    OutOfRangeIndex(cfg, vid, ip);
    var s, q := Sid(vid, 0xFFFF_FFFF), req.(start := 0, clsSlot := 0);
    hide SidAt, StartSess;
    if s !in w.members { StrangerTasks(cfg, w, s, ip, Stamped(q, env), env); }
    assert StartSess(cfg, w, s, q, env) == StartTasks(cfg, cfg.tasks, w, s, Stamped(q, env), env) by {
      StartSessIs(cfg, w, s, q, env);
    }
  }

  lemma StartSessIs(cfg: Config, w: World, s: Sid, req: Req, env: Env)
    ensures StartSess(cfg, w, s, req, env) == StartTasks(cfg, cfg.tasks, w, s, Stamped(req, env), env)
  {
  }

  lemma StrangerTasks(cfg: Config, w: World, s: Sid, ip: nat, req: Req, env: Env)
    requires ValidConfig(cfg) && s.vid in cfg.vservers && s.id == 0xFFFF_FFFF && s !in w.members
    requires ip < IP_SPACE && !ClientAt(cfg, s.vid, ip)
    ensures var w1 := StartTasks(cfg, cfg.tasks, w, s, req, env);
            s in w1.members && w1.kernel == w.kernel && w1.members.Keys == w.members.Keys + {s}
  {
    var classing, shaping :| cfg.tasks == Pipeline(classing, shaping);
    StrangerKey(cfg, s, ip);
    hide ValidConfig, StartTasks, Pipeline, ServiceClassStart, BandwidthStart, DbsetStart, Addr, Spans;
    StartUnrolled(cfg, classing, shaping, w, s, req, env);
    var w2 := IpsetStart(cfg, MemsetStart(w, s, req), s, req, env);
    assert w2.kernel == w.kernel && w2.members.Keys == w.members.Keys + {s};
    LaterTasks(cfg, w2, s, req, env);
    var w3 := if classing then ServiceClassStart(cfg, w2, s, req, env) else w2;
    LaterTasks(cfg, w3, s, req, env);
    var w4 := if shaping then BandwidthStart(w3, s, env) else w3;
    LaterTasks(cfg, w4, s, req, env);
  }

  lemma LaterTasks(cfg: Config, w: World, s: Sid, req: Req, env: Env)
    requires s in w.members
    ensures var a, b := ServiceClassStart(cfg, w, s, req, env), BandwidthStart(w, s, env);
            var c := DbsetStart(cfg, w, s, req);
            && a.kernel == w.kernel && a.members.Keys == w.members.Keys
            && b.kernel == w.kernel && b.members.Keys == w.members.Keys
            && c.kernel == w.kernel && c.members.Keys == w.members.Keys
  {
    hide Classify, Addr, Grants;
  }

  lemma StrangerKey(cfg: Config, s: Sid, ip: nat)
    requires ValidConfig(cfg) && s.vid in cfg.vservers && s.id == 0xFFFF_FFFF
    requires ip < IP_SPACE && !ClientAt(cfg, s.vid, ip)
    ensures !Spans(cfg, s.vid, Addr(cfg, s))
  {
    var first := cfg.vservers[s.vid].first;
    if first == 0 {
      assert (first + s.id) % IP_SPACE == IP_SPACE - 1;
    } else {
      assert (first + s.id) % IP_SPACE == first - 1;
    }
  }

  lemma StartsNew(cfg: Config, w: World, s: Sid, req: Req, env: Env)
    requires ValidConfig(cfg) && Inv(cfg, w) && Known(cfg, s) && s !in w.members
    ensures Started(cfg, w, StartSess(cfg, w, s, req, env), s, Stamped(req, env), env)
    ensures RowKeyOf(cfg, s, req.mac) !in w.db
  {
    hide ValidConfig, Known, Started, StartSess, CoreInv, MembersInDb, DbIsMembers, SessionIds;
    PlacedOf(cfg, w);
    AddrIndex(cfg, s);
    FreeKey(cfg, w, s);
    if RowKeyOf(cfg, s, req.mac) in w.db { MemberOfRow(cfg, w, RowKeyOf(cfg, s, req.mac)); }
    hide Inv;
    StartEffect(cfg, w, s, req, env);
  }

  lemma StartedEnters(cfg: Config, w: World, w1: World, vid: int, ip: nat, req: Req, env: Env)
    requires ClientAt(cfg, vid, ip)
    requires var s, q := Sid(vid, ip - cfg.vservers[vid].first), req.(start := 0, clsSlot := 0);
             && Started(cfg, w, w1, s, Stamped(q, env), env) && Addr(cfg, s) == ip
             && RowKeyOf(cfg, s, req.mac) !in w.db
    ensures Entered(cfg, w, w1, vid, ip, req, env.now)
  {
    hide Addr, ClassGiven, SlotGiven;
  }

  // ---------- the class and the bandwidth slot of a start ----------

  /** The slot is no network address, and no member with a class of that name holds it. */
  predicate SlotOpen(w: World, c: Class, slot: nat) {
    slot != 0 && forall t :: t in w.members && w.members[t].cls == Some(c.name) ==> w.members[t].clsSlot != slot
  }

  /** Class j is the first of its name. */
  predicate ClassNamed(cfg: Config, name: string, j: nat) {
    && j < |cfg.classes| && cfg.classes[j].name == name
    && forall i :: 0 <= i < j ==> cfg.classes[i].name != name
  }

  /** The class looked up is the first that has the name, or the id -1. */
  lemma {:induction false} ClassOfFirst(classes: seq<Class>, name: string, j: nat)
    requires j < |classes| && (classes[j].name == name || classes[j].id == -1)
    requires forall i :: 0 <= i < j ==> classes[i].name != name && classes[i].id != -1
    ensures ClassOf(classes, name) == Some(classes[j])
  {
    if j > 0 { ClassOfFirst(classes[1..], name, j - 1); }
  }

  lemma {:induction false} ClassOfMissing(classes: seq<Class>, name: string)
    requires forall c :: c in classes ==> c.name != name && c.id != -1
    ensures ClassOf(classes, name) == None
  {
    if classes != [] {
      assert classes[0] in classes;
      ClassOfMissing(classes[1..], name);
    }
  }

  /** While the stores agree, the rows that hold a slot of a class are its members that do. */
  lemma FreeAtMembers(cfg: Config, w: World, c: Class, slot: nat)
    requires ValidConfig(cfg) && Inv(cfg, w) && c in cfg.classes
    ensures FreeAt(w.db, c, slot) <==> SlotOpen(w, c, slot)
  {
    hide ValidConfig, Inv;
    forall r | r in w.db && w.db[r].cls == c.name
      ensures !SlotOpen(w, c, w.db[r].clsSlot)
    {
      RowHolds(cfg, w, c, r);
    }
    forall t | t in w.members && w.members[t].cls == Some(c.name)
      ensures !FreeAt(w.db, c, w.members[t].clsSlot)
    {
      MemberHolds(cfg, w, c, t);
    }
  }

  lemma RowHolds(cfg: Config, w: World, c: Class, r: RowKey)
    requires ValidConfig(cfg) && Inv(cfg, w) && c in cfg.classes && r in w.db && w.db[r].cls == c.name
    ensures !SlotOpen(w, c, w.db[r].clsSlot)
  {
    hide ValidConfig, Inv, SidAt, RowKeyOf, SlotOpen;
    NamesNoClass(cfg, c);
    MemberOfRow(cfg, w, r);
    NotOpen(w, c, SidAt(cfg, r.vid, r.ip));
  }

  lemma NotOpen(w: World, c: Class, t: Sid)
    requires t in w.members && w.members[t].cls == Some(c.name)
    ensures !SlotOpen(w, c, w.members[t].clsSlot)
  {
  }

  lemma MemberHolds(cfg: Config, w: World, c: Class, t: Sid)
    requires ValidConfig(cfg) && Inv(cfg, w) && t in w.members && w.members[t].cls == Some(c.name)
    ensures !FreeAt(w.db, c, w.members[t].clsSlot)
  {
    hide ValidConfig, Inv, SidAt, RowKeyOf;
    var r := MemberRow(cfg, w, t);
    MemberOfRow(cfg, w, r);
  }

  lemma NamesNoClass(cfg: Config, c: Class)
    requires ValidConfig(cfg) && c in cfg.classes
    ensures c.name != NO_CLASS
  {
    NoClassName(cfg);
    hide ValidConfig;
    NamedClass(cfg.classes, c);
  }

  lemma {:induction false} NamedClass(classes: seq<Class>, c: Class)
    requires c in classes
    ensures ClassOf(classes, c.name).Some?
  {
    if classes[0] != c { NamedClass(classes[1..], c); }
  }

  /** Draw k is the first of the 29 that is an open slot. */
  predicate FirstOpen(w: World, c: Class, draws: seq<nat>, k: int)
    requires c.size > 0
  {
    && 0 <= k < |draws| && k < 29 && SlotOpen(w, c, draws[k] % c.size)
    && forall i :: 0 <= i < k ==> !SlotOpen(w, c, draws[i] % c.size)
  }

  lemma FirstFreeOpen(cfg: Config, w: World, c: Class, draws: seq<nat>)
    requires ValidConfig(cfg) && Inv(cfg, w) && c in cfg.classes && c.size > 0
    ensures FreeDraw(w.db, c, draws, 29) <==>
            exists k :: 0 <= k < |draws| && k < 29 && SlotOpen(w, c, draws[k] % c.size)
    ensures forall k :: FirstFreeDraw(w.db, c, draws, 29, k) <==> FirstOpen(w, c, draws, k)
  {
    hide ValidConfig, Inv, FreeAt, SlotOpen;
    forall slot: nat ensures FreeAt(w.db, c, slot) <==> SlotOpen(w, c, slot) {
      FreeAtMembers(cfg, w, c, slot);
    }
  }

  /** The class, slot and mapped address of the new member, and the set behind it. */
  ghost predicate Classified(w: World, w1: World, s: Sid, ip: nat, c: Class, draws: seq<nat>)
    requires s in w1.members && c.size > 0
  {
    var m := w1.members[s];
    && (m.cls == None || m.cls == Some(c.name))
    && (m.cls.Some? <==> exists k :: 0 <= k < |draws| && k < 29 && SlotOpen(w, c, draws[k] % c.size))
    && (m.cls.Some? ==> exists k :: FirstOpen(w, c, draws, k) && m.clsSlot == draws[k] % c.size)
    && (m.cls.Some? ==>
          m.mapping == Some(c.start + m.clsSlot) && w1.sc == w.sc[ip := c.start + m.clsSlot][c.start + m.clsSlot := ip])
    && (m.cls.None? ==> m.clsSlot == 0 && m.mapping == None && w1.sc == w.sc)
  }

  /** With separated networks a new session gets the class it asks for if and only if one of the 29
      draws is neither 0 nor the slot of a live session with a class of that name. It gets the first
      such draw, and the address that far behind the start of the network, in both directions. */
  lemma ClassStartExact(cfg: Config, w: World, vid: int, ip: nat, req: Req, env: Env, j: nat)
    requires ValidConfig(cfg) && Separated(cfg) && Inv(cfg, w) && ClientAt(cfg, vid, ip)
    requires Sid(vid, ip - cfg.vservers[vid].first) !in w.members
    requires ServiceClass in cfg.tasks && req.cls.Some? && ClassNamed(cfg, req.cls.value, j)
    ensures var w1, s := StartSession(cfg, w, vid, ip, req, env), Sid(vid, ip - cfg.vservers[vid].first);
            s in w1.members && cfg.classes[j].size > 0 && Classified(w, w1, s, ip, cfg.classes[j], env.draws)
  {
    ClientIndex(cfg, vid, ip);
    var s, q, c := Sid(vid, ip - cfg.vservers[vid].first), req.(start := 0, clsSlot := 0), cfg.classes[j];
    ClassOfFirst(cfg.classes, req.cls.value, j);
    assert c in cfg.classes;
    hide ValidConfig, Inv, SidAt, Spans, Known, Addr, StartSess, Started, Classified, Separated, ClassOf, FreeDraw;
    StartsNew(cfg, w, s, q, env);
    ClassGrantedExact(cfg, w, s, Stamped(q, env), env.draws);
    FirstFreeOpen(cfg, w, c, env.draws);
    StartedClassified(cfg, w, StartSess(cfg, w, s, q, env), s, Stamped(q, env), env, c);
  }

  lemma StartedClassified(cfg: Config, w: World, w1: World, s: Sid, req: Req, env: Env, c: Class)
    requires Started(cfg, w, w1, s, req, env) && ServiceClass in cfg.tasks && c.size > 0 && req.cls == Some(c.name)
    requires var r := Classify(cfg, w, Addr(cfg, s), req, env.draws);
             && (r.Classed? <==> FreeDraw(w.db, c, env.draws, 29))
             && (r.Classed? ==>
                   exists k :: && FirstFreeDraw(w.db, c, env.draws, 29, k)
                               && GivesSlot(w, r, Addr(cfg, s), c, env.draws[k] % c.size))
    requires FreeDraw(w.db, c, env.draws, 29) <==>
             exists k :: 0 <= k < |env.draws| && k < 29 && SlotOpen(w, c, env.draws[k] % c.size)
    requires forall k :: FirstFreeDraw(w.db, c, env.draws, 29, k) <==> FirstOpen(w, c, env.draws, k)
    ensures s in w1.members && Classified(w, w1, s, Addr(cfg, s), c, env.draws)
  {
    hide Classify, FreeDraw, Addr, SlotOpen, SlotGiven, KeyOf, RowKeyOf;
  }

  /** Without the class task, a class name, or a class of that name, a new session gets none. */
  lemma NoClassStart(cfg: Config, w: World, vid: int, ip: nat, req: Req, env: Env)
    requires ValidConfig(cfg) && Inv(cfg, w) && ClientAt(cfg, vid, ip)
    requires Sid(vid, ip - cfg.vservers[vid].first) !in w.members
    requires ServiceClass !in cfg.tasks || req.cls == None
             || forall c :: c in cfg.classes ==> c.name != req.cls.value && c.id != -1
    ensures var w1, s := StartSession(cfg, w, vid, ip, req, env), Sid(vid, ip - cfg.vservers[vid].first);
            && s in w1.members && w1.sc == w.sc
            && w1.members[s].cls == None && w1.members[s].clsSlot == 0 && w1.members[s].mapping == None
  {
    ClientIndex(cfg, vid, ip);
    var s, q := Sid(vid, ip - cfg.vservers[vid].first), req.(start := 0, clsSlot := 0);
    if req.cls.Some? && ServiceClass in cfg.tasks { ClassOfMissing(cfg.classes, req.cls.value); }
    hide ValidConfig, Inv, SidAt, Spans, Known, Addr, StartSess, ClassOf, SlotGiven, KeyOf, RowKeyOf;
    StartsNew(cfg, w, s, q, env);
  }

  /** A new session that asks for bandwidth gets the slot drawn for it, counted and flagged: 0 once
      9900 are counted, before that any slot from 1 to 9901 not flagged since the start of the
      process. All others, and those whose slot could not be set up, get none. */
  lemma SlotStartExact(cfg: Config, w: World, vid: int, ip: nat, req: Req, env: Env)
    requires ValidConfig(cfg) && Inv(cfg, w) && ClientAt(cfg, vid, ip)
    requires Sid(vid, ip - cfg.vservers[vid].first) !in w.members
    ensures var w1, s := StartSession(cfg, w, vid, ip, req, env), Sid(vid, ip - cfg.vservers[vid].first);
            && s in w1.members
            && if Bandwidth in cfg.tasks && (req.down != 0 || req.up != 0) && env.slot.Some?
                  && (if w.count >= 9900 then env.slot.value == 0
                      else 1 <= env.slot.value <= 9901 && env.slot.value !in w.flags) then
                 && w1.members[s].slot == env.slot.value
                 && w1.flags == w.flags + {env.slot.value} && w1.count == (w.count + 1) % 0x1_0000
               else w1.members[s].slot == 0 && w1.flags == w.flags && w1.count == w.count
  {
    ClientIndex(cfg, vid, ip);
    var s, q := Sid(vid, ip - cfg.vservers[vid].first), req.(start := 0, clsSlot := 0);
    hide ValidConfig, Inv, SidAt, Spans, Known, Addr, StartSess, ClassGiven, KeyOf, RowKeyOf;
    StartsNew(cfg, w, s, q, env);
  }
}
