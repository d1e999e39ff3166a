/** The stores agree: what every start and every stop keeps, in every run. */
module SessionInv {
  import opened Options
  import opened Tasks
  import opened Sessions

  // ---------- addresses ----------

  ghost predicate Known(cfg: Config, s: Sid) {
    s.vid in cfg.vservers && s.id < cfg.vservers[s.vid].size
  }

  /** Index and address determine each other inside the range. */
  lemma AddrIndex(cfg: Config, s: Sid)
    requires ValidConfig(cfg) && Known(cfg, s)
    ensures Spans(cfg, s.vid, Addr(cfg, s)) && SidAt(cfg, s.vid, Addr(cfg, s)) == s
  {
  }

  lemma IndexAddr(cfg: Config, vid: int, ip: int)
    requires ValidConfig(cfg) && Spans(cfg, vid, ip)
    ensures Known(cfg, SidAt(cfg, vid, ip)) && Addr(cfg, SidAt(cfg, vid, ip)) == ip
  {
    var v := cfg.vservers[vid];
    assert (ip - v.first) % IP_SPACE == ip - v.first;
  }

  /** Distinct sessions of one virtual server have distinct addresses. */
  lemma AddrInjective(cfg: Config, s: Sid, t: Sid)
    requires ValidConfig(cfg) && Known(cfg, s) && Known(cfg, t) && s.vid == t.vid && Addr(cfg, s) == Addr(cfg, t)
    ensures s == t
  {
    AddrIndex(cfg, s);
    AddrIndex(cfg, t);
  }

  /** An address out of the range, whichever it is, is given the one index 0xFFFFFFFF. */
  lemma OutOfRangeIndex(cfg: Config, vid: int, ip: int)
    requires ValidConfig(cfg) && vid in cfg.vservers && 0 <= ip < IP_SPACE && !Spans(cfg, vid, ip)
    ensures SidAt(cfg, vid, ip) == Sid(vid, IP_SPACE - 1) && !Known(cfg, Sid(vid, IP_SPACE - 1))
  {
    var v := cfg.vservers[vid];
    if ip >= v.first {
      assert (ip - v.first) % IP_SPACE == ip - v.first;
    } else {
      assert (ip - v.first) % IP_SPACE == ip - v.first + IP_SPACE;
    }
  }

  // ---------- the invariant ----------

  ghost predicate Placed(cfg: Config, w: World) {
    forall s :: s in w.members ==> Known(cfg, s)
  }

  /** Every member is in the kernel set, with its MAC. */
  ghost predicate MembersInKernel(cfg: Config, w: World) {
    forall s :: s in w.members ==> KeyOf(cfg, s) in w.kernel && w.kernel[KeyOf(cfg, s)].mac == w.members[s].mac
  }

  /** Nothing else is in the kernel set. */
  ghost predicate KernelIsMembers(cfg: Config, w: World) {
    forall k :: k in w.kernel ==> Spans(cfg, k.vid, k.ip) && SidAt(cfg, k.vid, k.ip) in w.members
  }

  /** A row says what its member says; the bandwidth slot of a row is never read back. */
  ghost predicate RowMatches(r: Row, m: Member) {
    && r.session == m.session && r.user == m.user && r.start == m.start && r.timeout == m.timeout
    && r.down == m.down && r.up == m.up
    && r.cls == (if m.cls == None then NO_CLASS else m.cls.value) && r.clsSlot == m.clsSlot
    && r.start != 0
  }

  /** Every member has its row. */
  ghost predicate MembersInDb(cfg: Config, w: World) {
    forall s :: s in w.members ==>
      RowKeyOf(cfg, s, w.members[s].mac) in w.db &&
      RowMatches(w.db[RowKeyOf(cfg, s, w.members[s].mac)], w.members[s])
  }

  /** Every row is the row of a member, so there is one row for each. */
  ghost predicate DbIsMembers(cfg: Config, w: World) {
    forall k :: k in w.db ==>
      Spans(cfg, k.vid, k.ip) && SidAt(cfg, k.vid, k.ip) in w.members &&
      w.members[SidAt(cfg, k.vid, k.ip)].mac == k.mac
  }

  /** A member with a class: the name, slot and mapped address fit the class. */
  ghost predicate ClassFits(cfg: Config, m: Member) {
    if m.cls == None then m.clsSlot == 0 && m.mapping == None
    else
      var c := ClassOf(cfg.classes, m.cls.value);
      && ServiceClass in cfg.tasks && c.Some? && 0 < m.clsSlot <= c.value.size
      && m.mapping == Some(MappedIp(c.value, m.clsSlot))
  }

  ghost predicate ClassesFit(cfg: Config, w: World) {
    forall s :: s in w.members ==> ClassFits(cfg, w.members[s])
  }

  /** The pair is in the set, in both directions. */
  predicate PairIn(sc: map<nat, nat>, a: nat, b: nat) {
    a != b && a in sc && b in sc && sc[a] == b && sc[b] == a
  }

  ghost predicate PairsIn(cfg: Config, w: World) {
    forall s :: s in w.members && w.members[s].mapping.Some? ==> PairIn(w.sc, Addr(cfg, s), w.members[s].mapping.value)
  }

  /** s brings the address a into the set. */
  predicate Owns(cfg: Config, w: World, s: Sid, a: nat) {
    s in w.members && w.members[s].mapping.Some? && (a == Addr(cfg, s) || a == w.members[s].mapping.value)
  }

  /** The set is made of the pairs of the classed members. */
  ghost predicate SetOwned(cfg: Config, w: World) {
    forall a :: a in w.sc ==> exists s :: Owns(cfg, w, s, a)
  }

  /** No address belongs to two of them. */
  ghost predicate OwnersUnique(cfg: Config, w: World) {
    forall s, t, a :: Owns(cfg, w, s, a) && Owns(cfg, w, t, a) ==> s == t
  }

  function LiveSlots(w: World): set<nat> {
    set s | s in w.members && w.members[s].slot != 0 :: w.members[s].slot
  }

  /** Live slots are flagged, in range and not shared. */
  ghost predicate SlotsFlagged(cfg: Config, w: World) {
    && 0 in w.flags
    && (forall f :: f in w.flags ==> f <= LAST_SLOT)
    && (forall s :: s in w.members && w.members[s].slot != 0 ==> w.members[s].slot in w.flags && Bandwidth in cfg.tasks)
    && (forall s, t | s in w.members && t in w.members && s != t ::
          w.members[s].slot == 0 || w.members[s].slot != w.members[t].slot)
  }

  /** The count is the live slots and the leaked ones, as long as the leaked ones leave room in
      the 16-bit counter. */
  ghost predicate SlotsCounted(w: World) {
    w.leaked <= 50000 ==> w.count == |LiveSlots(w)| + w.leaked && |LiveSlots(w)| <= MAX_SLOT_ID
  }

  /** The environment's promise: a session id and user are used once per virtual server. */
  ghost predicate SessionIds(w: World) {
    forall s, t | s in w.members && t in w.members && s.vid == t.vid && s != t ::
      w.members[s].session != w.members[t].session || w.members[s].user != w.members[t].user
  }

  ghost predicate ClassInv(cfg: Config, w: World) {
    ClassesFit(cfg, w) && PairsIn(cfg, w) && SetOwned(cfg, w) && OwnersUnique(cfg, w)
  }

  ghost predicate CoreInv(cfg: Config, w: World) {
    && Placed(cfg, w) && MembersInKernel(cfg, w) && KernelIsMembers(cfg, w)
    && ClassInv(cfg, w) && SlotsFlagged(cfg, w) && SlotsCounted(w)
  }

  ghost predicate Inv(cfg: Config, w: World) {
    CoreInv(cfg, w) && MembersInDb(cfg, w) && DbIsMembers(cfg, w) && SessionIds(w)
  }

  // ---------- what a start does ----------

  /** The new member, before its class and bandwidth slot. */
  ghost predicate FreshMember(m: Member, req: Req) {
    && m.user == req.user && m.session == req.session && m.mac == req.mac && m.start == req.start
    && m.timeout == req.timeout && m.down == req.down && m.up == req.up
  }

  ghost predicate ClassGiven(cfg: Config, w: World, w1: World, s: Sid, req: Req, env: Env)
    requires s in w1.members
  {
    var m := w1.members[s];
    var c := if ServiceClass in cfg.tasks then Classify(cfg, w, Addr(cfg, s), req, env.draws) else Unclassed;
    match c
    case Unclassed => m.cls == None && m.clsSlot == 0 && m.mapping == None && w1.sc == w.sc
    case Classed(name, slot, ip1, sc) =>
      m.cls == Some(name) && m.clsSlot == slot && m.mapping == Some(ip1) && w1.sc == sc
  }

  ghost predicate SlotGiven(cfg: Config, w: World, w1: World, s: Sid, req: Req, env: Env)
    requires s in w1.members
  {
    var slot := w1.members[s].slot;
    if Bandwidth in cfg.tasks && (req.down != 0 || req.up != 0) && env.slot.Some? && Grants(w, env.slot.value) then
      && slot == env.slot.value && w1.flags == w.flags + {slot} && w1.count == (w.count + 1) % SHORT_SPACE
      && w1.leaked == (if slot == 0 then w.leaked + 1 else w.leaked)
    else
      slot == 0 && w1.flags == w.flags && w1.count == w.count && w1.leaked == w.leaked
  }

  /** The effect of a start on all stores. */
  ghost predicate Started(cfg: Config, w: World, w1: World, s: Sid, req: Req, env: Env)
  {
    var k, r := KeyOf(cfg, s), RowKeyOf(cfg, s, req.mac);
    && s in w1.members && w1.members == w.members[s := w1.members[s]]
    && FreshMember(w1.members[s], req)
    && w1.kernel == w.kernel[k := KernelEntry(req.mac, env.now)]
    && ClassGiven(cfg, w, w1, s, req, env)
    && SlotGiven(cfg, w, w1, s, req, env)
    && w1.db == if r in w.db then w.db else w.db[r := RowOf(w1.members[s], req)]
  }

  /** rh_task_startsess on an address without a member moves the stores exactly so. */
  lemma StartEffect(cfg: Config, w: World, s: Sid, req: Req, env: Env)
    requires ValidConfig(cfg) && Known(cfg, s) && s !in w.members && 0 in w.flags
    requires KeyOf(cfg, s) !in w.kernel
    ensures Started(cfg, w, StartSess(cfg, w, s, req, env), s, Stamped(req, env), env)
  {
    var q := Stamped(req, env);
    var classing, shaping :| cfg.tasks == Pipeline(classing, shaping);
    hide ValidConfig, StartTasks, Pipeline;
    PipelineTasks(classing, shaping);
    StartUnrolled(cfg, classing, shaping, w, s, q, env);
    AddrIndex(cfg, s);
    UnrolledEffect(cfg, classing, shaping, w, s, q, env);
  }

  lemma UnrolledEffect(cfg: Config, classing: bool, shaping: bool, w: World, s: Sid, q: Req, env: Env)
    requires s !in w.members && 0 in w.flags && KeyOf(cfg, s) !in w.kernel
    requires Spans(cfg, s.vid, Addr(cfg, s))
    requires (classing <==> ServiceClass in cfg.tasks) && (shaping <==> Bandwidth in cfg.tasks)
    ensures var w2 := IpsetStart(cfg, MemsetStart(w, s, q), s, q, env);
            var w3 := if classing then ServiceClassStart(cfg, w2, s, q, env) else w2;
            var w4 := if shaping then BandwidthStart(w3, s, env) else w3;
            Started(cfg, w, DbsetStart(cfg, w4, s, q), s, q, env)
  {
    var w2 := IpsetStart(cfg, MemsetStart(w, s, q), s, q, env);
    ClassStep(cfg, w, w2, s, q, env, classing);
    var w3 := if classing then ServiceClassStart(cfg, w2, s, q, env) else w2;
    SlotStep(cfg, w3, s, q, env, shaping);
    var w4 := if shaping then BandwidthStart(w3, s, env) else w3;
    hide ServiceClassStart, BandwidthStart, ClassGiven, SlotGiven, ValidConfig, ClassOf, InRange;
    var w5 := DbsetStart(cfg, w4, s, q);
    GivenSame(cfg, w, w3, w4, w5, s, q, env);
  }

  /** The later tasks change neither what the class nor what the slot task gave. */
  lemma GivenSame(cfg: Config, w: World, w3: World, w4: World, w5: World, s: Sid, req: Req, env: Env)
    requires s in w3.members && s in w4.members
    requires ClassGiven(cfg, w, w3, s, req, env) && SlotGiven(cfg, w3, w4, s, req, env)
    requires w3.flags == w.flags && w3.count == w.count && w3.leaked == w.leaked
    requires w4.sc == w3.sc && w4.members[s] == w3.members[s].(slot := w4.members[s].slot)
    requires w5 == w4.(db := w5.db)
    ensures ClassGiven(cfg, w, w5, s, req, env) && SlotGiven(cfg, w, w5, s, req, env)
  {
    hide Classify;
  }

  /** The service class task on the new member. */
  lemma ClassStep(cfg: Config, w: World, w2: World, s: Sid, req: Req, env: Env, classing: bool)
    requires s in w2.members && (classing <==> ServiceClass in cfg.tasks)
    requires w2.sc == w.sc && w2.db == w.db
    requires w2.members[s].cls == None && w2.members[s].clsSlot == 0 && w2.members[s].mapping == None
    ensures var w3 := if classing then ServiceClassStart(cfg, w2, s, req, env) else w2;
            && s in w3.members && ClassGiven(cfg, w, w3, s, req, env)
            && w3 == w2.(sc := w3.sc, members := w2.members[s := w3.members[s]])
            && w3.members[s] == w2.members[s].(cls := w3.members[s].cls, clsSlot := w3.members[s].clsSlot,
               mapping := w3.members[s].mapping)
  {
    ClassifySame(cfg, w, w2, Addr(cfg, s), req, env.draws);
    assert w2.members[s := w2.members[s]] == w2.members;
  }

  lemma ClassifySame(cfg: Config, w: World, w2: World, ip: nat, req: Req, draws: seq<nat>)
    requires w2.sc == w.sc && w2.db == w.db
    ensures Classify(cfg, w2, ip, req, draws) == Classify(cfg, w, ip, req, draws)
  {
  }

  /** The bandwidth task on the new member. */
  lemma SlotStep(cfg: Config, w3: World, s: Sid, req: Req, env: Env, shaping: bool)
    requires s in w3.members && w3.members[s].slot == 0 && w3.members[s].down == req.down && w3.members[s].up == req.up
    requires (shaping <==> Bandwidth in cfg.tasks)
    ensures var w4 := if shaping then BandwidthStart(w3, s, env) else w3;
            && s in w4.members && SlotGiven(cfg, w3, w4, s, req, env)
            && w4 == w3.(members := w3.members[s := w4.members[s]], flags := w4.flags, count := w4.count,
               leaked := w4.leaked)
            && w4.members[s] == w3.members[s].(slot := w4.members[s].slot)
  {
    assert w3.members[s := w3.members[s]] == w3.members;
  }

  lemma PipelineTasks(classing: bool, shaping: bool)
    ensures ServiceClass in Pipeline(classing, shaping) <==> classing
    ensures Bandwidth in Pipeline(classing, shaping) <==> shaping
  {
  }

  lemma StartUnrolled(cfg: Config, classing: bool, shaping: bool, w: World, s: Sid, req: Req, env: Env)
    ensures var w2 := IpsetStart(cfg, MemsetStart(w, s, req), s, req, env);
            var w3 := if classing then ServiceClassStart(cfg, w2, s, req, env) else w2;
            var w4 := if shaping then BandwidthStart(w3, s, env) else w3;
            StartTasks(cfg, Pipeline(classing, shaping), w, s, req, env) == DbsetStart(cfg, w4, s, req)
  {
    hide StartTask, StartTasks, MemsetStart, IpsetStart, ServiceClassStart, BandwidthStart, DbsetStart;
    var w1 := MemsetStart(w, s, req);
    var w2 := IpsetStart(cfg, w1, s, req, env);
    var w3 := if classing then ServiceClassStart(cfg, w2, s, req, env) else w2;
    var w4 := if shaping then BandwidthStart(w3, s, env) else w3;
    var d := [Dbset];
    var b := (if shaping then [Bandwidth] else []) + d;
    var c := (if classing then [ServiceClass] else []) + b;
    assert Pipeline(classing, shaping) == [Iptables] + ([Memset] + ([Ipset] + c));
    StartFirst(cfg, Iptables, [Memset] + ([Ipset] + c), w, s, req, env);
    StartFirst(cfg, Memset, [Ipset] + c, w, s, req, env);
    StartFirst(cfg, Ipset, c, w1, s, req, env);
    if classing { StartFirst(cfg, ServiceClass, b, w2, s, req, env); } else { assert c == b; }
    if shaping { StartFirst(cfg, Bandwidth, d, w3, s, req, env); } else { assert b == d; }
    assert d == [Dbset] + [];
    StartFirst(cfg, Dbset, [], w4, s, req, env);
    StartNone(cfg, DbsetStart(cfg, w4, s, req), s, req, env);
  }

  lemma StartNone(cfg: Config, w: World, s: Sid, req: Req, env: Env)
    ensures StartTasks(cfg, [], w, s, req, env) == w
  {
  }

  lemma StartFirst(cfg: Config, t: Task, rest: seq<Task>, w: World, s: Sid, req: Req, env: Env)
    ensures StartTasks(cfg, [t] + rest, w, s, req, env) ==
            StartTasks(cfg, rest, StartTask(cfg, t, w, s, req, env), s, req, env)
    ensures StartTask(cfg, t, w, s, req, env) ==
            match t
            case Iptables => w
            case Memset => MemsetStart(w, s, req)
            case Ipset => IpsetStart(cfg, w, s, req, env)
            case ServiceClass => ServiceClassStart(cfg, w, s, req, env)
            case Bandwidth => BandwidthStart(w, s, env)
            case Dbset => DbsetStart(cfg, w, s, req)
  {
    assert ([t] + rest)[1..] == rest;
  }
}
