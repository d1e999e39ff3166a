/** Whole runs of the session engine: steps of the RPC server, polling passes and restarts. */
module SessionSafety {
  import opened Options
  import opened Tasks
  import opened Sessions
  import opened SessionInv
  import opened SessionRuns
  import Restart = SessionRestart
  import Poll = SessionPoll

  // ---------- RPC steps ----------

  /** StartSession under a new session id keeps the invariant exactly for addresses in the range
      of the virtual server; the check in the source never rejects the others. */
  lemma StartSessionExact(cfg: Config, w: World, vid: int, ip: int, req: Req, env: Env)
    requires ValidConfig(cfg) && Inv(cfg, w) && vid in cfg.vservers && 0 <= ip < IP_SPACE
    requires NewSession(w, vid, req) && env.now != 0
    ensures Inv(cfg, StartSession(cfg, w, vid, ip, req, env)) <==> Spans(cfg, vid, ip)
  {
    var s := SidAt(cfg, vid, ip);
    var q := req.(start := 0, clsSlot := 0);
    if Spans(cfg, vid, ip) {
      IndexAddr(cfg, vid, ip);
      StartSessionKeeps(cfg, w, vid, ip, req, env);
    } else {
      OutOfRangeIndex(cfg, vid, ip);
      assert s !in w.members;
      StartAddsMember(cfg, w, s, q, env);
      assert !Placed(cfg, StartSess(cfg, w, s, q, env));
    }
  }

  lemma StartAddsMember(cfg: Config, w: World, s: Sid, req: Req, env: Env)
    requires ValidConfig(cfg)
    ensures s in StartSess(cfg, w, s, req, env).members
  {
    var classing, shaping :| cfg.tasks == Pipeline(classing, shaping);
    hide ValidConfig, StartTasks, Pipeline, Classify, Addr, KeyOf;
    StartUnrolled(cfg, classing, shaping, w, s, Stamped(req, env), env);
  }

  lemma StartSessionKeeps(cfg: Config, w: World, vid: int, ip: int, req: Req, env: Env)
    requires ValidConfig(cfg) && Inv(cfg, w) && Spans(cfg, vid, ip)
    requires NewSession(w, vid, req) && env.now != 0
    ensures Inv(cfg, StartSession(cfg, w, vid, ip, req, env))
    ensures SidAt(cfg, vid, ip) in StartSession(cfg, w, vid, ip, req, env).members
  {
    IndexAddr(cfg, vid, ip);
    SidAtVid(cfg, vid, ip);
    SpansKnown(cfg, vid, ip);
    var s := SidAt(cfg, vid, ip);
    var q := req.(start := 0, clsSlot := 0);
    hide ValidConfig, Addr, SidAt, Spans, Inv, StartSess, Known, NewSession;
    if s !in w.members {
      NewSessionSame(w, vid, req, q);
      StartKeeps(cfg, w, s, q, env);
      StartAddsMember(cfg, w, s, q, env);
    }
  }

  lemma SpansKnown(cfg: Config, vid: int, ip: int)
    requires Spans(cfg, vid, ip)
    ensures vid in cfg.vservers
  {
  }

  lemma NewSessionSame(w: World, vid: int, req: Req, q: Req)
    requires NewSession(w, vid, req) && q.session == req.session && q.user == req.user
    ensures NewSession(w, vid, q)
  {
  }

  /** Stopping what was just started gives every store back. */
  lemma StartThenStop(cfg: Config, w: World, s: Sid, req: Req, env: Env, removed: bool)
    requires ValidConfig(cfg) && Inv(cfg, w) && Known(cfg, s) && s !in w.members
    requires NewSession(w, s.vid, req) && Stamped(req, env).start != 0
    ensures var w2 := StopSess(cfg, StartSess(cfg, w, s, req, env), s, removed);
            w2.members == w.members && w2.kernel == w.kernel && w2.sc == w.sc && w2.db == w.db
  {
    hide ValidConfig, Addr, Inv, StartSess, StopSess, Known, NewSession, KernelIsMembers, DbIsMembers, Placed, KeyOf,
      RowKeyOf;
    var w1 := StartSess(cfg, w, s, req, env);
    StartKeeps(cfg, w, s, req, env);
    StopKeeps(cfg, w1, s, removed);
    InvParts(cfg, w);
    FreeKey(cfg, w, s);
    RowFree(cfg, w, s, req.mac);
    Undone(cfg, w, w1, StopSess(cfg, w1, s, removed), s, Stamped(req, env), env, removed);
  }

  lemma InvParts(cfg: Config, w: World)
    requires Inv(cfg, w)
    ensures Placed(cfg, w) && KernelIsMembers(cfg, w) && DbIsMembers(cfg, w)
  {
  }

  lemma RowFree(cfg: Config, w: World, s: Sid, mac: nat)
    requires ValidConfig(cfg) && Known(cfg, s) && s !in w.members && DbIsMembers(cfg, w)
    ensures RowKeyOf(cfg, s, mac) !in w.db
  {
    AddrIndex(cfg, s);
  }

  lemma Undone(cfg: Config, w: World, w1: World, w2: World, s: Sid, req: Req, env: Env, removed: bool)
    requires s !in w.members && KeyOf(cfg, s) !in w.kernel && RowKeyOf(cfg, s, req.mac) !in w.db
    requires Started(cfg, w, w1, s, req, env) && Stopped(cfg, w1, w2, s, removed)
    ensures w2.members == w.members && w2.kernel == w.kernel && w2.sc == w.sc && w2.db == w.db
  {
    hide Addr, SlotGiven, SlotReturned, ClassOf;
  }

  // ---------- runs ----------

  datatype Step =
    | Start(vid: int, ip: int, req: Req, env: Env)
    | Stop(vid: int, ip: int, mac: nat, removed: bool)
    | Traffic(key: KernelKey, stamp: int)
    | Polling(vserver: int, visits: seq<Poll.Visit>)
    | Crash(order: seq<RowKey>, envs: RowKey -> Env)

  /** Traffic of a client renews the time stamp of its kernel entry. */
  function Touch(w: World, k: KernelKey, stamp: int): World {
    if k in w.kernel then w.(kernel := w.kernel[k := w.kernel[k].(stamp := stamp)]) else w
  }

  function Apply(cfg: Config, w: World, step: Step): World {
    match step
    case Start(vid, ip, req, env) => StartSession(cfg, w, vid, ip, req, env)
    case Stop(vid, ip, mac, removed) => StopSession(cfg, w, vid, ip, mac, removed)
    case Traffic(k, stamp) => Touch(w, k, stamp)
    case Polling(vid, visits) => Poll.Pass(cfg, w, w.kernel, vid, visits)
    case Crash(order, envs) => Restart.Restore(cfg, Restart.Boot(w.db), w.db, order, envs)
  }

  /** What the environment promises of a step: addresses in range, and new session ids and a clock
      for a start that does not only greet a member, one visit for each member of a polling pass,
      every row once after a crash. */
  ghost predicate StepOk(cfg: Config, w: World, step: Step) {
    match step
    case Start(vid, ip, req, env) =>
      vid in cfg.vservers ==>
        Spans(cfg, vid, ip) && (SidAt(cfg, vid, ip) in w.members || (NewSession(w, vid, req) && env.now != 0))
    case Polling(_, visits) => Poll.VisitedOnce(visits)
    case Crash(order, _) => Restart.NoRepeats(order) && forall k :: k in order <==> k in w.db
    case _ => true
  }

  function Run(cfg: Config, w: World, steps: seq<Step>): World
    decreases |steps|
  {
    if steps == [] then w else Run(cfg, Apply(cfg, w, steps[0]), steps[1..])
  }

  ghost predicate RunOk(cfg: Config, w: World, steps: seq<Step>)
    decreases |steps|
  {
    steps == [] || (StepOk(cfg, w, steps[0]) && RunOk(cfg, Apply(cfg, w, steps[0]), steps[1..]))
  }

  lemma EmptyInv(cfg: Config)
    ensures Inv(cfg, EmptyWorld)
  {
    assert LiveSlots(EmptyWorld) == {};
  }

  lemma TouchKeeps(cfg: Config, w: World, k: KernelKey, stamp: int)
    requires Inv(cfg, w)
    ensures Inv(cfg, Touch(w, k, stamp))
  {
    hide MembersInKernel, KernelIsMembers, Addr, ClassesFit, MembersInDb, DbIsMembers, SessionIds, SlotsFlagged,
      SlotsCounted, PairsIn, SetOwned, OwnersUnique, Placed;
    var w1 := Touch(w, k, stamp);
    TouchMembers(cfg, w, k, stamp);
    TouchKernel(cfg, w, k, stamp);
    TouchClasses(cfg, w, w1);
    TouchRest(cfg, w, w1);
    TouchDb(cfg, w, w1);
  }

  lemma TouchMembers(cfg: Config, w: World, k: KernelKey, stamp: int)
    requires MembersInKernel(cfg, w)
    ensures MembersInKernel(cfg, Touch(w, k, stamp))
  {
    hide KeyOf;
  }

  lemma TouchKernel(cfg: Config, w: World, k: KernelKey, stamp: int)
    requires KernelIsMembers(cfg, w)
    ensures KernelIsMembers(cfg, Touch(w, k, stamp))
  {
    hide Addr, Spans, SidAt;
    assert Touch(w, k, stamp).kernel.Keys == w.kernel.Keys;
  }

  lemma TouchClasses(cfg: Config, w: World, w1: World)
    requires w1.members == w.members && w1.sc == w.sc
    ensures PairsIn(cfg, w) ==> PairsIn(cfg, w1)
    ensures SetOwned(cfg, w) ==> SetOwned(cfg, w1)
    ensures OwnersUnique(cfg, w) ==> OwnersUnique(cfg, w1)
  {
    hide Addr;
    if SetOwned(cfg, w) { SetOwnedSame(cfg, w, w1); }
    if OwnersUnique(cfg, w) { OwnersSame(cfg, w, w1); }
  }

  lemma SetOwnedSame(cfg: Config, w: World, w1: World)
    requires w1.members == w.members && w1.sc == w.sc && SetOwned(cfg, w)
    ensures SetOwned(cfg, w1)
  {
    forall a | a in w1.sc
      ensures exists s :: Owns(cfg, w1, s, a)
    {
      hide Addr, SetOwned;
      var s := OwnerOf(cfg, w, a);
      assert Owns(cfg, w1, s, a);
    }
  }

  lemma OwnersSame(cfg: Config, w: World, w1: World)
    requires w1.members == w.members && OwnersUnique(cfg, w)
    ensures OwnersUnique(cfg, w1)
  {
    forall s, t, a | Owns(cfg, w1, s, a) && Owns(cfg, w1, t, a)
      ensures s == t
    {
      hide Addr, OwnersUnique;
      OneOwner(cfg, w, s, t, a);
    }
  }

  lemma TouchRest(cfg: Config, w: World, w1: World)
    requires w1 == w.(kernel := w1.kernel)
    ensures Placed(cfg, w) ==> Placed(cfg, w1)
    ensures ClassesFit(cfg, w) ==> ClassesFit(cfg, w1)
    ensures SlotsFlagged(cfg, w) && SlotsCounted(w) ==> SlotsFlagged(cfg, w1) && SlotsCounted(w1)
    ensures SessionIds(w) ==> SessionIds(w1)
  {
    hide ClassFits, Known;
    assert LiveSlots(w1) == LiveSlots(w);
  }

  lemma TouchDb(cfg: Config, w: World, w1: World)
    requires w1 == w.(kernel := w1.kernel)
    ensures MembersInDb(cfg, w) ==> MembersInDb(cfg, w1)
    ensures DbIsMembers(cfg, w) ==> DbIsMembers(cfg, w1)
  {
    hide SidAt, Spans, RowKeyOf, RowMatches;
  }

  lemma ApplyKeeps(cfg: Config, w: World, step: Step)
    requires ValidConfig(cfg) && Inv(cfg, w) && StepOk(cfg, w, step)
    ensures Inv(cfg, Apply(cfg, w, step))
  {
    hide ValidConfig, Inv, Spans, StartSess, StopSess, NewSession, SidAt;
    match step
    case Start(vid, ip, req, env) =>
      if vid in cfg.vservers && SidAt(cfg, vid, ip) !in w.members { StartSessionKeeps(cfg, w, vid, ip, req, env); }
    case Stop(vid, ip, mac, removed) =>
      var s := SidAt(cfg, vid, ip);
      if s in w.members { StopKeeps(cfg, w, s, removed); }
    case Traffic(k, stamp) => TouchKeeps(cfg, w, k, stamp);
    case Polling(vid, visits) => Poll.PassIsFilter(cfg, w, w.kernel, vid, visits);
    case Crash(order, envs) => Restart.RestartRecovers(cfg, w, order, envs);
  }

  /** In every run the stores agree: distinct members, one kernel entry and one row for each, the
      service class set their pairs, live slots flagged, distinct and counted. */
  lemma {:induction false} RunKeeps(cfg: Config, w: World, steps: seq<Step>)
    requires ValidConfig(cfg) && Inv(cfg, w) && RunOk(cfg, w, steps)
    ensures Inv(cfg, Run(cfg, w, steps))
    decreases |steps|
  {
    hide ValidConfig, Inv, StepOk, Apply;
    if steps != [] {
      ApplyKeeps(cfg, w, steps[0]);
      RunKeeps(cfg, Apply(cfg, w, steps[0]), steps[1..]);
    }
  }

  // ---------- every task finds the member ----------

  predicate LooksUp(t: Task) {
    t.ServiceClass? || t.Bandwidth? || t.Dbset?
  }

  /** In a list that registration built, every task that looks the member up runs behind the
      task that enters it on a start, and before the task that removes it on a stop. */
  lemma {:induction false} StartFinds(cfg: Config, tasks: seq<Task>, w: World, s: Sid, req: Req, env: Env, k: nat)
    requires Descending(tasks) && k < |tasks| && LooksUp(tasks[k])
    requires Memset in tasks || s in w.members
    ensures s in StartTasks(cfg, tasks[..k], w, s, req, env).members
    decreases |tasks|
  {
    if k == 0 {
      assert forall j :: 0 < j < |tasks| ==> Prio(tasks[0]) > Prio(tasks[j]);
    } else {
      var w1 := StartTask(cfg, tasks[0], w, s, req, env);
      StartTaskKeepsMember(cfg, tasks[0], w, s, req, env);
      assert Descending(tasks[1..]) && tasks[1..][k - 1] == tasks[k];
      StartFinds(cfg, tasks[1..], w1, s, req, env, k - 1);
      assert tasks[..k][1..] == tasks[1..][..k - 1];
    }
  }

  lemma StartTaskKeepsMember(cfg: Config, t: Task, w: World, s: Sid, req: Req, env: Env)
    ensures s in w.members || t == Memset ==> s in StartTask(cfg, t, w, s, req, env).members
  {
  }

  lemma {:induction false} StopFinds(cfg: Config, tasks: seq<Task>, w: World, s: Sid, removed: bool, k: nat)
    requires Descending(tasks) && k < |tasks| && LooksUp(tasks[k])
    requires s in w.members
    ensures s in StopBehind(cfg, tasks, w, s, removed, k).members
    decreases |tasks|
  {
    if k < |tasks| - 1 {
      var last := |tasks| - 1;
      var w1 := StopTask(cfg, tasks[last], w, s, removed);
      assert Prio(tasks[k]) > Prio(tasks[last]);
      StopTaskKeepsMember(cfg, tasks[last], w, s, removed);
      StopFinds(cfg, tasks[..last], w1, s, removed, k);
    }
  }

  /** The world when the walk from the back reaches position k. */
  function StopBehind(cfg: Config, tasks: seq<Task>, w: World, s: Sid, removed: bool, k: nat): World
    requires k < |tasks|
    decreases |tasks|
  {
    if k == |tasks| - 1 then w
    else StopBehind(cfg, tasks[..|tasks| - 1], StopTask(cfg, tasks[|tasks| - 1], w, s, removed), s, removed, k)
  }

  lemma StopTaskKeepsMember(cfg: Config, t: Task, w: World, s: Sid, removed: bool)
    requires s in w.members && t != Memset
    ensures s in StopTask(cfg, t, w, s, removed).members
  {
  }

  // ---------- what the class part of the invariant gives ----------

  /** The set is symmetric and maps no address to itself. */
  lemma SetSymmetric(cfg: Config, w: World, a: nat)
    requires PairsIn(cfg, w) && SetOwned(cfg, w) && a in w.sc
    ensures w.sc[a] in w.sc && w.sc[w.sc[a]] == a && w.sc[a] != a
  {
    hide Addr, PairsIn, SetOwned;
    var s := OwnerOf(cfg, w, a);
    PairAt(cfg, w, s);
  }

  /** Two live sessions of one class have different slots and different mapped addresses, and a
      mapped address lies strictly between the network and the broadcast address. */
  lemma ClassSlotsDistinct(cfg: Config, w: World, s: Sid, t: Sid)
    requires ValidConfig(cfg) && Inv(cfg, w) && s in w.members && t in w.members && s != t
    requires w.members[s].cls.Some? && w.members[t].cls == w.members[s].cls
    ensures w.members[s].clsSlot != w.members[t].clsSlot
    ensures w.members[s].mapping.Some? && w.members[t].mapping.Some?
    ensures w.members[s].mapping.value != w.members[t].mapping.value
    ensures var c := ClassOf(cfg.classes, w.members[s].cls.value);
            c.Some? && c.value.start < w.members[s].mapping.value < c.value.start + c.value.size + 1
  {
    hide KernelIsMembers, MembersInKernel, DbIsMembers, MembersInDb, SetOwned, PairsIn, SlotsFlagged, Addr,
      OwnersUnique;
    assert ClassFits(cfg, w.members[s]) && ClassFits(cfg, w.members[t]);
    var c := ClassOf(cfg.classes, w.members[s].cls.value).value;
    ClassOfIn(cfg.classes, w.members[s].cls.value);
    if w.members[s].mapping.value == w.members[t].mapping.value {
      OneOwner(cfg, w, s, t, w.members[s].mapping.value);
    }
  }

  /** Class networks are disjoint, clients live outside them, ranges of virtual servers are
      disjoint and no class has the id that matches every name. */
  ghost predicate Separated(cfg: Config) {
    && (forall c :: c in cfg.classes ==> c.id != -1)
    && (forall c, d, a: nat :: c in cfg.classes && d in cfg.classes && InNetwork(c, a) && InNetwork(d, a) ==> c == d)
    && (forall c, s :: c in cfg.classes && Known(cfg, s) ==> !InNetwork(c, Addr(cfg, s)))
    && (forall s, t :: Known(cfg, s) && Known(cfg, t) && Addr(cfg, s) == Addr(cfg, t) ==> s == t)
  }

  predicate InNetwork(c: Class, a: nat) {
    c.start < a <= c.start + c.size
  }

  lemma {:induction false} ClassOfNamed(classes: seq<Class>, name: string)
    requires forall c :: c in classes ==> c.id != -1
    ensures ClassOf(classes, name).Some? ==> ClassOf(classes, name).value.name == name
  {
    if classes != [] && classes[0].name != name {
      assert classes[0] in classes;
      ClassOfNamed(classes[1..], name);
    }
  }

  /** The slot is no network address, and no row of the class holds it. */
  ghost predicate FreeAt(db: map<RowKey, Row>, c: Class, slot: nat) {
    slot != 0 && forall r :: r in db && db[r].cls == c.name ==> db[r].clsSlot != slot
  }

  lemma FreeAtIs(db: map<RowKey, Row>, c: Class, slot: nat)
    ensures FreeAt(db, c, slot) <==> slot != 0 && !SlotTaken(db, c.name, slot)
  {
  }

  /** Some draw among the tries is a free slot of the class. */
  ghost predicate FreeDraw(db: map<RowKey, Row>, c: Class, draws: seq<nat>, tries: nat)
    requires c.size > 0
  {
    exists k :: 0 <= k < |draws| && k < tries && FreeAt(db, c, draws[k] % c.size)
  }

  /** The first draw among the tries that is a free slot. */
  ghost predicate FirstFreeDraw(db: map<RowKey, Row>, c: Class, draws: seq<nat>, tries: nat, k: int)
    requires c.size > 0
  {
    && 0 <= k < |draws| && k < tries && FreeAt(db, c, draws[k] % c.size)
    && forall i :: 0 <= i < k ==> !FreeAt(db, c, draws[i] % c.size)
  }

  /** The retry loop comes to the first draw that is a free slot, and to 0 when there is none. */
  lemma {:induction false} PickSlotExact(db: map<RowKey, Row>, c: Class, draws: seq<nat>, tries: nat)
    requires c.size > 0
    ensures PickSlot(db, c, draws, tries) != 0 <==> FreeDraw(db, c, draws, tries)
    ensures forall k :: FirstFreeDraw(db, c, draws, tries, k) ==> PickSlot(db, c, draws, tries) == draws[k] % c.size
    ensures PickSlot(db, c, draws, tries) != 0 ==> exists k :: FirstFreeDraw(db, c, draws, tries, k)
    decreases tries
  {
    if tries > 0 && draws != [] {
      var more, first, left := draws[1..], draws[0] % c.size, tries - 1;
      hide FreeAt, SlotTaken;
      FreeAtIs(db, c, first);
      PickSlotExact(db, c, more, left);
      assert forall i :: 0 <= i < |more| ==> more[i] == draws[i + 1];
      forall k | FirstFreeDraw(db, c, draws, tries, k)
        ensures PickSlot(db, c, draws, tries) == draws[k] % c.size
      {
        if k > 0 { assert draws[k] == more[k - 1] && FirstFreeDraw(db, c, more, left, k - 1); }
      }
      if FreeAt(db, c, first) {
        assert FirstFreeDraw(db, c, draws, tries, 0);
      } else if k :| FirstFreeDraw(db, c, more, left, k) {
        assert FirstFreeDraw(db, c, draws, tries, k + 1);
      }
    }
  }

  /** With separated networks a new session gets the class it asks for exactly when one of the
      29 draws is a free slot. */
  lemma ClassGrantedExact(cfg: Config, w: World, s: Sid, req: Req, draws: seq<nat>)
    requires ValidConfig(cfg) && Separated(cfg) && Inv(cfg, w) && Known(cfg, s) && s !in w.members
    requires req.cls.Some? && req.clsSlot == 0 && ClassOf(cfg.classes, req.cls.value).Some?
    ensures var c, r := ClassOf(cfg.classes, req.cls.value).value, Classify(cfg, w, Addr(cfg, s), req, draws);
            && c.size > 0 && (r.Classed? <==> FreeDraw(w.db, c, draws, 29))
            && (r.Classed? ==>
                  exists k :: && FirstFreeDraw(w.db, c, draws, 29, k)
                              && GivesSlot(w, r, Addr(cfg, s), c, draws[k] % c.size))
  {
    hide Inv, FreeDraw, ClassOf;
    var c := ClassOf(cfg.classes, req.cls.value).value;
    ClassOfIn(cfg.classes, req.cls.value);
    ClassOfNamed(cfg.classes, req.cls.value);
    assert c.size > 0 && c.name == req.cls.value;
    PickSlotExact(w.db, c, draws, SLOT_TRIES);
    var slot := PickSlot(w.db, c, draws, SLOT_TRIES);
    hide PickSlot, FirstFreeDraw;
    if slot != 0 {
      var k :| FirstFreeDraw(w.db, c, draws, SLOT_TRIES, k);
      FirstFreeDrawAt(w.db, c, draws, k);
      hide FreeAt;
      MappedInNetwork(c, slot);
      hide MappedIp, Addr, ValidConfig;
      AddressFree(cfg, w, s);
      SlotAddressFree(cfg, w, c, slot);
    }
  }

  /** The session gets the slot, and its address is mapped to the start of the network plus the slot,
      in both directions. */
  predicate GivesSlot(w: World, r: Classing, ip: nat, c: Class, slot: nat) {
    && r.Classed? && r.name == c.name && r.slot == slot && r.ip1 == c.start + slot
    && r.sc == w.sc[ip := c.start + slot][c.start + slot := ip]
  }

  lemma FirstFreeDrawAt(db: map<RowKey, Row>, c: Class, draws: seq<nat>, k: int)
    requires c.size > 0 && FirstFreeDraw(db, c, draws, SLOT_TRIES, k)
    ensures 0 <= k < |draws| && 0 < draws[k] % c.size < c.size && FreeAt(db, c, draws[k] % c.size)
  {
  }

  lemma MappedInNetwork(c: Class, slot: nat)
    requires 0 < slot <= c.size && c.start + c.size < IP_SPACE
    ensures MappedIp(c, slot) == c.start + slot && InNetwork(c, MappedIp(c, slot))
  {
  }

  /** The address of a client that is no member is not in the set. */
  lemma AddressFree(cfg: Config, w: World, s: Sid)
    requires ValidConfig(cfg) && Separated(cfg) && Inv(cfg, w) && Known(cfg, s) && s !in w.members
    ensures Addr(cfg, s) !in w.sc
  {
    hide Addr, MembersInKernel, KernelIsMembers, MembersInDb, DbIsMembers, SlotsFlagged, SetOwned, PairsIn;
    if Addr(cfg, s) in w.sc {
      var t := OwnerOf(cfg, w, Addr(cfg, s));
      MappingInNetwork(cfg, w, t);
    }
  }

  lemma MappingInNetwork(cfg: Config, w: World, t: Sid)
    requires ValidConfig(cfg) && Inv(cfg, w) && t in w.members && w.members[t].mapping.Some?
    ensures w.members[t].cls.Some? && ClassOf(cfg.classes, w.members[t].cls.value).Some?
    ensures var c := ClassOf(cfg.classes, w.members[t].cls.value).value;
            && c in cfg.classes && InNetwork(c, w.members[t].mapping.value)
            && w.members[t].mapping.value == c.start + w.members[t].clsSlot
  {
    hide Addr, MembersInKernel, KernelIsMembers, MembersInDb, DbIsMembers, SlotsFlagged, SetOwned, PairsIn,
      OwnersUnique;
    assert ClassFits(cfg, w.members[t]);
    ClassOfIn(cfg.classes, w.members[t].cls.value);
  }

  /** The mapped address of a slot that no row holds is not in the set. */
  lemma SlotAddressFree(cfg: Config, w: World, c: Class, slot: nat)
    requires ValidConfig(cfg) && Separated(cfg) && Inv(cfg, w) && c in cfg.classes && 0 < slot <= c.size
    requires FreeAt(w.db, c, slot)
    ensures MappedIp(c, slot) !in w.sc
  {
    hide Addr, Inv, MappedIp, ClassOf, FreeAt, ValidConfig, Placed, Known, SetOwned, MembersInDb, Separated;
    NetworkFits(cfg, c);
    MappedInNetwork(c, slot);
    var a := MappedIp(c, slot);
    if a in w.sc {
      InvClassParts(cfg, w);
      var t := OwnerOf(cfg, w, a);
      KnownAt(cfg, w, t);
      ClientOutside(cfg, c, t);
      MappingInNetwork(cfg, w, t);
      OneNetwork(cfg, c, ClassOf(cfg.classes, w.members[t].cls.value).value, a);
      SlotRowTaken(cfg, w, c, t);
    }
  }

  lemma NetworkFits(cfg: Config, c: Class)
    requires ValidConfig(cfg) && c in cfg.classes
    ensures 0 < c.size && c.start + c.size < IP_SPACE
  {
  }

  lemma ClientOutside(cfg: Config, c: Class, s: Sid)
    requires Separated(cfg) && c in cfg.classes && Known(cfg, s)
    ensures !InNetwork(c, Addr(cfg, s))
  {
  }

  lemma OneNetwork(cfg: Config, c: Class, d: Class, a: nat)
    requires Separated(cfg) && c in cfg.classes && d in cfg.classes && InNetwork(c, a) && InNetwork(d, a)
    ensures c == d && forall e :: e in cfg.classes ==> e.id != -1
  {
  }

  lemma InvClassParts(cfg: Config, w: World)
    requires Inv(cfg, w)
    ensures Placed(cfg, w) && SetOwned(cfg, w) && MembersInDb(cfg, w)
  {
  }

  lemma SlotRowTaken(cfg: Config, w: World, c: Class, t: Sid)
    requires MembersInDb(cfg, w) && t in w.members && w.members[t].cls.Some?
    requires ClassOf(cfg.classes, w.members[t].cls.value) == Some(c) && forall d :: d in cfg.classes ==> d.id != -1
    ensures !FreeAt(w.db, c, w.members[t].clsSlot)
  {
    ClassOfNamed(cfg.classes, w.members[t].cls.value);
    RowOfMember(cfg, w, t);
  }
}
