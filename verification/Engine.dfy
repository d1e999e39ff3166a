/** The running session engine: the tasks work on the stores in place, the pipeline walks the task
    list forwards and backwards, and every method is proved against the functions of Sessions. */
module Engine {
  import opened Options
  import opened Tasks
  import opened Sessions
  import opened MemberLists
  import opened Slots
  import opened SessionRestart
  import opened SessionPoll
  import opened Replay
  import opened SessionCleanup
  import opened SessionInv
  import Runs = SessionRuns

  const MAX_TRY: nat := 3

  /** One try at a bandwidth slot: the random numbers it sees and whether the script succeeds. */
  datatype Attempt = Attempt(draws: seq<nat>, ok: bool)

  /** _get_slot_id on a stream of random numbers. */
  function Drawn(draws: seq<nat>, flagged: set<nat>, count: nat): Option<nat> {
    if count >= MAX_SLOT_ID then Some(0) else FirstFree(draws, flagged)
  }

  /** The slot of the first try, of at most so many, that succeeds. */
  function Attempted(attempts: seq<Attempt>, tries: nat, flagged: set<nat>, count: nat): Option<nat> {
    if tries == 0 || attempts == [] then None
    else if attempts[0].ok then Drawn(attempts[0].draws, flagged, count)
    else Attempted(attempts[1..], tries - 1, flagged, count)
  }

  ghost predicate RandomDraws(attempts: seq<Attempt>) {
    forall a, r :: a in attempts && r in a.draws ==> r < RANDOM_SPACE
  }

  /** Everything outside the engine that one start depends on. */
  datatype Outside = Outside(now: int, draws: seq<nat>, attempts: seq<Attempt>)

  lemma {:induction false} AttemptedGranted(attempts: seq<Attempt>, tries: nat, w: World)
    requires RandomDraws(attempts) && 0 in w.flags
    ensures Attempted(attempts, tries, w.flags, w.count).Some? ==>
            Grants(w, Attempted(attempts, tries, w.flags, w.count).value)
  {
    if tries > 0 && attempts != [] {
      assert attempts[0] in attempts && forall a :: a in attempts[1..] ==> a in attempts;
      if w.count < MAX_SLOT_ID {
        FirstFreeGranted(attempts[0].draws, w);
      }
      AttemptedGranted(attempts[1..], tries - 1, w);
    }
  }

  /** With attempt i the first to succeed, a start is given 0 once 9900 slots are counted, before
      that the slot of its first draw that is not flagged, provided i is among the tries; and
      nothing if none of these succeeds. */
  lemma {:induction false} AttemptedExact(attempts: seq<Attempt>, i: nat, k: nat, w: World, tries: nat)
    requires i <= |attempts| && forall j :: 0 <= j < i ==> !attempts[j].ok
    requires i < |attempts| ==> attempts[i].ok
    requires i < |attempts| && w.count < 9900 ==>
               && k < |attempts[i].draws| && attempts[i].draws[k] / 216895 !in w.flags
               && forall j :: 0 <= j < k ==> attempts[i].draws[j] / 216895 in w.flags
    ensures Attempted(attempts, tries, w.flags, w.count) ==
            if i == |attempts| || tries <= i then None
            else if w.count >= 9900 then Some(0)
            else Some(attempts[i].draws[k] / 216895)
  {
    if i == 0 {
      if i < |attempts| && w.count < 9900 { FirstFreeExact(attempts[0].draws, w.flags, k); }
    } else if tries > 0 {
      assert attempts[1..][i - 1..] == attempts[i..];
      AttemptedExact(attempts[1..], i - 1, k, w, tries - 1);
    }
  }

  /** What a start in a world makes of the outside. */
  function EnvOf(out: Outside, w: World): Env {
    Env(out.now, out.draws, Attempted(out.attempts, MAX_TRY, w.flags, w.count))
  }

  ghost predicate AllAgree(lists: map<int, seq<Node>>, members: map<Sid, Member>) {
    && (forall v :: v in lists ==> Agrees(lists[v], v, members))
    && (forall s :: s in members ==> s.vid in lists)
  }

  lemma ListChanged(lists: map<int, seq<Node>>, members: map<Sid, Member>, vid: int, list: seq<Node>,
                    after: map<Sid, Member>)
    requires AllAgree(lists, members) && vid in lists && Agrees(list, vid, after)
    requires forall s: Sid :: s.vid != vid ==>
               (s in members <==> s in after) && (s in members ==> members[s] == after[s])
    ensures AllAgree(lists[vid := list], after)
  {
    hide Agrees;
    forall v | v in lists && v != vid ensures Agrees(lists[v], v, after) {
      OthersAgree(lists[v], v, members, after, vid);
    }
  }

  lemma PutChanged(lists: map<int, seq<Node>>, members: map<Sid, Member>, s: Sid, data: Member)
    requires AllAgree(lists, members) && s.vid in lists
    ensures AllAgree(lists[s.vid := Put(lists[s.vid], s.id, data)], members[s := data])
  {
    hide Agrees, Put;
    PutAgrees(lists[s.vid], s.vid, members, s.id, data);
    ListChanged(lists, members, s.vid, Put(lists[s.vid], s.id, data), members[s := data]);
  }

  lemma RemoveChanged(lists: map<int, seq<Node>>, members: map<Sid, Member>, s: Sid)
    requires AllAgree(lists, members) && s.vid in lists
    ensures AllAgree(lists[s.vid := Remove(lists[s.vid], s.id)], members - {s})
  {
    hide Agrees, Remove;
    RemoveAgrees(lists[s.vid], s.vid, members, s.id);
    ListChanged(lists, members, s.vid, Remove(lists[s.vid], s.id), members - {s});
  }

  /** The member task is second, and no task comes twice. */
  ghost predicate Shaped(tasks: seq<Task>) {
    && |tasks| >= 2 && tasks[0] == Iptables && tasks[1] == Memset
    && forall i, j :: 0 <= i < j < |tasks| ==> tasks[i] != tasks[j]
  }

  lemma ShapedAt(tasks: seq<Task>, i: nat)
    requires Shaped(tasks) && i < |tasks|
    ensures (i == 0 <==> tasks[i] == Iptables) && (i == 1 <==> tasks[i] == Memset)
    ensures tasks[i] !in tasks[..i] && tasks[..i + 1] == tasks[..i] + [tasks[i]]
  {
  }

  lemma EnvParts(out: Outside, w: World)
    ensures EnvOf(out, w).now == out.now && EnvOf(out, w).draws == out.draws
  {
  }

  lemma EnvSame(out: Outside, w: World, w1: World)
    ensures w1.flags == w.flags && w1.count == w.count ==> EnvOf(out, w1) == EnvOf(out, w)
  {
  }

  lemma TasksShaped(cfg: Config)
    requires ValidConfig(cfg)
    ensures Shaped(cfg.tasks)
  {
    var classing, shaping :| cfg.tasks == Pipeline(classing, shaping);
  }

  lemma StartSuffix(cfg: Config, tasks: seq<Task>, i: nat, w: World, s: Sid, req: Req, env: Env)
    requires i < |tasks|
    ensures StartTasks(cfg, tasks[i..], w, s, req, env) ==
            StartTasks(cfg, tasks[i + 1..], StartTask(cfg, tasks[i], w, s, req, env), s, req, env)
  {
    hide StartTask;
    assert tasks[i..][1..] == tasks[i + 1..];
  }

  lemma StopPrefix(cfg: Config, tasks: seq<Task>, i: nat, w: World, s: Sid, removed: bool)
    requires i < |tasks|
    ensures StopTasks(cfg, tasks[..i + 1], w, s, removed) ==
            StopTasks(cfg, tasks[..i], StopTask(cfg, tasks[i], w, s, removed), s, removed)
  {
    hide StopTask;
    assert tasks[..i + 1][..i] == tasks[..i];
  }

  lemma RemoveAfterPut(list: seq<Node>, id: nat, data: Member)
    requires Unique(list) && Find(list, id) < |list|
    ensures Remove(Put(list, id, data), id) == Remove(list, id)
  {
    var k := Find(list, id);
    var r := Put(list, id, data);
    hide Find;
    assert Unique(r);
    FindOnly(r, k);
    assert r[..k] == list[..k] && r[k + 1..] == list[k + 1..];
  }

  lemma RemoveTwice(list: seq<Node>, id: nat)
    requires Unique(list)
    ensures Remove(Remove(list, id), id) == Remove(list, id)
  {
    var k, r := Find(list, id), Remove(list, id);
    if k < |list| {
      assert forall i :: 0 <= i < |r| ==> r[i] == if i < k then list[i] else list[i + 1];
      assert Find(r, id) == |r|;
    }
  }

  /** The state of the daemon. The map members and the number leaked only serve the proof. */
  class Daemon {
    const cfg: Config
    const slots: SlotTable
    var lists: map<int, seq<Node>>
    var kernel: map<KernelKey, KernelEntry>
    var sc: map<nat, nat>
    var db: map<RowKey, Row>
    ghost var members: map<Sid, Member>
    ghost var leaked: nat

    ghost predicate Valid()
      reads this, slots, slots.flags
    {
      slots.Valid() && 0 in slots.Flagged() && lists.Keys == cfg.vservers.Keys && AllAgree(lists, members)
    }

    /** The stores as a value. */
    ghost function Abs(): World
      requires Valid()
      reads this, slots, slots.flags
    {
      World(members, kernel, sc, db, slots.Flagged(), slots.count, leaked)
    }

    /** A fresh process over the table that the last one left. */
    constructor (cfg: Config, db: map<RowKey, Row>)
      ensures Valid() && fresh(slots) && fresh(slots.flags) && this.cfg == cfg
      ensures Abs() == Boot(db)
    {
      this.cfg := cfg;
      slots := new SlotTable();
      lists := map v | v in cfg.vservers :: [];
      kernel, sc, this.db, members, leaked := map[], map[], db, map[], 0;
    }

    /** member_get_node_by_id. */
    method FindNode(s: Sid) returns (k: nat)
      requires Valid() && s.vid in lists
      ensures k == Find(lists[s.vid], s.id) <= |lists[s.vid]|
      ensures k < |lists[s.vid]| <==> s in members
      ensures k < |lists[s.vid]| ==> lists[s.vid][k].data == members[s]
    {
      var list := lists[s.vid];
      k := 0;
      while k < |list| && list[k].id != s.id
        invariant k <= |list| && Find(list, s.id) == k + Find(list[k..], s.id)
      {
        assert list[k..][1..] == list[k + 1..];
        k := k + 1;
      }
      hide Agrees;
      FindIsMember(list, s.vid, members, s.id);
    }

    /** Writes the record of a node that was found. */
    method SetData(s: Sid, k: nat, data: Member)
      requires Valid() && s.vid in lists && k == Find(lists[s.vid], s.id) < |lists[s.vid]|
      modifies `lists, `members
      ensures Valid() && members == old(members)[s := data]
      ensures lists == old(lists)[s.vid := Put(old(lists[s.vid]), s.id, data)]
    {
      hide AllAgree, Find, InsertPos;
      PutChanged(lists, members, s, data);
      lists := lists[s.vid := lists[s.vid][k := Node(s.id, data)]];
      members := members[s := data];
    }

    // ---------- start ----------

    /** The member task; it also sets a missing start time in the request. */
    method AddMember(s: Sid, req: Req, now: int) returns (q: Req)
      requires Valid() && s.vid in lists
      modifies `lists, `members
      ensures Valid()
      ensures q == if req.start == 0 then req.(start := now) else req
      ensures Abs() == MemsetStart(old(Abs()), s, q)
    {
      hide AllAgree, Find, InsertPos;
      var k := FindNode(s);
      var list := lists[s.vid];
      q := req;
      if q.start == 0 {
        q := q.(start := now);
      }
      var slot := if k < |list| then list[k].data.slot else 0;
      var data := Member(q.user, q.session, q.mac, q.start, q.timeout, q.down, q.up, slot, None, 0, None);
      if k < |list| {
        SetData(s, k, data);
      } else {
        var p := InsertionPoint(list);
        PutChanged(lists, members, s, data);
        lists := lists[s.vid := list[..p] + [Node(s.id, data)] + list[p..]];
        members := members[s := data];
      }
    }

    /** g_list_insert_sorted on a node whose id is still 0. */
    method InsertionPoint(list: seq<Node>) returns (p: nat)
      ensures p == InsertPos(list, 0)
    {
      p := 0;
      while p < |list| && IdCmp(0, list[p].id) > 0
        invariant p <= |list| && InsertPos(list, 0) == p + InsertPos(list[p..], 0)
      {
        assert list[p..][1..] == list[p + 1..];
        p := p + 1;
      }
    }

    /** The kernel set task: ADD fails out of the range or on an address already there. */
    method AddKernel(s: Sid, req: Req, now: int)
      requires Valid()
      modifies `kernel
      ensures Valid()
      ensures forall env: Env :: env.now == now ==> Abs() == IpsetStart(cfg, old(Abs()), s, req, env)
    {
      hide AllAgree;
      var key := KeyOf(cfg, s);
      if Spans(cfg, s.vid, key.ip) && key !in kernel {
        kernel := kernel[key := KernelEntry(req.mac, now)];
      }
    }

    /** _sc_get_slot_id: the loop counts its tries down from 30 before each one. */
    method GetClassSlot(c: Class, draws: seq<nat>) returns (slot: nat)
      ensures slot == PickSlot(db, c, draws, SLOT_TRIES)
    {
      slot := 0;
      var retry, k := 30 - 1, 0;
      while slot == 0 && retry > 0 && k < |draws| && c.size > 0
        invariant 0 <= k <= |draws| && retry >= 0
        invariant PickSlot(db, c, draws, SLOT_TRIES) == if slot == 0 then PickSlot(db, c, draws[k..], retry) else slot
        decreases |draws| - k
      {
        assert draws[k..][0] == draws[k] && draws[k..][1..] == draws[k + 1..];
        slot := draws[k] % c.size;
        if slot != 0 && SlotTaken(db, c.name, slot) {
          slot := 0;
        }
        retry, k := retry - 1, k + 1;
      }
    }

    /** Both directions are added; when the second is refused the first is taken back. */
    method AddBoth(ip: nat, ip1: nat) returns (ok: bool)
      modifies `sc
      ensures ok <==> AddPair(old(sc), ip, ip1).Some?
      ensures sc == if ok then AddPair(old(sc), ip, ip1).value else old(sc)
    {
      if ip in sc {
        return false;
      }
      sc := sc[ip := ip1];
      if ip1 in sc {
        sc := sc - {ip};
        return false;
      }
      sc := sc[ip1 := ip];
      return true;
    }

    /** The service class task. */
    method AddClass(s: Sid, req: Req, draws: seq<nat>)
      requires Valid() && s.vid in lists
      modifies `lists, `members, `sc
      ensures Valid()
      ensures forall env: Env :: env.draws == draws ==> Abs() == ServiceClassStart(cfg, old(Abs()), s, req, env)
    {
      hide AllAgree, Find, Put, PickSlot, ClassOf, Addr, MappedIp;
      if req.cls == None {
        return;
      }
      var k := FindNode(s);
      if k == |lists[s.vid]| {
        return;
      }
      var m := lists[s.vid][k].data;
      var found := ClassOf(cfg.classes, req.cls.value);
      var slot := req.clsSlot;
      var ok := false;
      if found != None {
        if slot == 0 {
          slot := GetClassSlot(found.value, draws);
        }
        if slot != 0 && slot <= found.value.size {
          ok := AddBoth(Addr(cfg, s), MappedIp(found.value, slot));
        }
      }
      if ok {
        SetData(s, k, m.(cls := req.cls, clsSlot := slot, mapping := Some(MappedIp(found.value, slot))));
      } else if m.cls != None {
        SetData(s, k, m.(cls := None, clsSlot := 0));
      } else {
        assert members[s := m] == members;
      }
    }

    /** At most three tries at a slot that the script can set up. */
    method TrySlots(attempts: seq<Attempt>) returns (slot: Option<nat>)
      requires Valid() && RandomDraws(attempts)
      ensures slot == Attempted(attempts, MAX_TRY, slots.Flagged(), slots.count)
    {
      hide Valid, FirstFree;
      assert slots.Valid() by { SlotsValid(); }
      slot := None;
      var maxTry, i := MAX_TRY, 0;
      while maxTry > 0 && i < |attempts|
        invariant 0 <= i <= |attempts| && maxTry >= 0
        invariant slot == None
        invariant Attempted(attempts, MAX_TRY, slots.Flagged(), slots.count) ==
                  Attempted(attempts[i..], maxTry, slots.Flagged(), slots.count)
        decreases |attempts| - i
      {
        assert attempts[i] in attempts && attempts[i..][0] == attempts[i] && attempts[i..][1..] == attempts[i + 1..];
        var id := slots.GetSlotId(attempts[i].draws);
        if attempts[i].ok {
          slot := id;
          break;
        }
        maxTry, i := maxTry - 1, i + 1;
      }
    }

    lemma SlotsValid()
      requires Valid()
      ensures slots.Valid() && 0 in slots.Flagged()
    {
    }

    /** The bandwidth task. */
    method AddSlot(s: Sid, attempts: seq<Attempt>)
      requires Valid() && s.vid in lists && RandomDraws(attempts)
      modifies `lists, `members, `leaked, slots`count, slots.flags
      ensures Valid()
      ensures forall env: Env :: env.slot == Attempted(attempts, MAX_TRY, old(slots.Flagged()), old(slots.count)) ==>
                Abs() == BandwidthStart(old(Abs()), s, env)
    {
      hide AllAgree, Find, Put, Attempted, RandomDraws;
      var k := FindNode(s);
      if k == |lists[s.vid]| {
        return;
      }
      var m := lists[s.vid][k].data;
      if (m.down == 0 && m.up == 0) || m.slot > 0 {
        return;
      }
      var slot := TrySlots(attempts);
      AttemptedGranted(attempts, MAX_TRY, Abs());
      if slot != None {
        slots.MarkReserved(slot.value);
        SetData(s, k, m.(slot := slot.value));
        if slot.value == 0 {
          leaked := leaked + 1;
        }
      }
    }

    /** The database task; an insert on an existing key changes nothing. */
    method AddRow(s: Sid, req: Req)
      requires Valid() && s.vid in lists
      modifies `db
      ensures Valid()
      ensures Abs() == DbsetStart(cfg, old(Abs()), s, req)
    {
      hide AllAgree, Find, Addr;
      var k := FindNode(s);
      if k == |lists[s.vid]| {
        return;
      }
      var key := RowKeyOf(cfg, s, req.mac);
      if key !in db {
        db := db[key := RowOf(lists[s.vid][k].data, req)];
      }
    }

    /** One task of the start walk. */
    method StartOne(t: Task, s: Sid, req: Req, out: Outside, ghost env: Env) returns (q: Req)
      requires Valid() && s.vid in lists && RandomDraws(out.attempts)
      requires env.now == out.now && env.draws == out.draws
      requires t == Bandwidth ==> env == EnvOf(out, Abs())
      modifies this, slots`count, slots.flags
      ensures Valid()
      ensures q == if t == Memset then Stamped(req, env) else req
      ensures Abs() == StartTask(cfg, t, old(Abs()), s, q, env)
      ensures t != Bandwidth ==> Abs().flags == old(Abs()).flags && Abs().count == old(Abs()).count
      ensures s.vid in lists
    {
      hide AllAgree, MemsetStart, IpsetStart, ServiceClassStart, BandwidthStart, DbsetStart;
      q := req;
      match t
      case Iptables =>
      case Memset => q := AddMember(s, req, out.now);
      case Ipset => AddKernel(s, req, out.now);
      case ServiceClass => AddClass(s, req, out.draws);
      case Bandwidth => AddSlot(s, out.attempts);
      case Dbset => AddRow(s, req);
    }

    /** rh_task_startsess: the task list from its front. */
    method Start(s: Sid, req: Req, out: Outside)
      requires ValidConfig(cfg) && Valid() && s.vid in lists && RandomDraws(out.attempts)
      modifies this, slots`count, slots.flags
      ensures Valid()
      ensures Abs() == StartSess(cfg, old(Abs()), s, req, EnvOf(out, old(Abs())))
    {
      TasksShaped(cfg);
      hide ValidConfig, Valid, Abs, Shaped, StartTask, StartTasks, EnvOf, RandomDraws;
      ghost var w := Abs();
      ghost var env := EnvOf(out, w);
      EnvParts(out, w);
      var tasks := cfg.tasks;
      var q, i := req, 0;
      assert tasks[..0] == [] && tasks[0..] == tasks;
      while i < |tasks|
        invariant 0 <= i <= |tasks| && Valid() && s.vid in lists
        invariant q == if i < 2 then req else Stamped(req, env)
        invariant StartTasks(cfg, tasks[i..], Abs(), s, Stamped(req, env), env) ==
                  StartTasks(cfg, tasks, w, s, Stamped(req, env), env)
        invariant Bandwidth !in tasks[..i] ==> Abs().flags == w.flags && Abs().count == w.count
      {
        StartSuffix(cfg, tasks, i, Abs(), s, Stamped(req, env), env);
        ShapedAt(tasks, i);
        StartsAlike(cfg, tasks[i], Abs(), s, req, Stamped(req, env), env);
        EnvSame(out, w, Abs());
        q := StartOne(tasks[i], s, q, out, env);
        i := i + 1;
      }
      StartsNone(cfg, tasks[i..], Abs(), s, Stamped(req, env), env);
    }

    // ---------- stop ----------

    /** The member task. */
    method DropMember(s: Sid)
      requires Valid() && s.vid in lists
      modifies `lists, `members
      ensures Valid()
      ensures Abs() == MemsetStop(old(Abs()), s)
      ensures lists == old(lists)[s.vid := Remove(old(lists[s.vid]), s.id)]
    {
      hide AllAgree, Find;
      var k := FindNode(s);
      if k == |lists[s.vid]| {
        assert members == members - {s} && lists == lists[s.vid := lists[s.vid]];
        return;
      }
      RemoveChanged(lists, members, s);
      lists := lists[s.vid := lists[s.vid][..k] + lists[s.vid][k + 1..]];
      members := members - {s};
    }

    method DropKernel(s: Sid)
      requires Valid()
      modifies `kernel
      ensures Valid()
      ensures Abs() == IpsetStop(cfg, old(Abs()), s)
    {
      hide AllAgree;
      kernel := kernel - {KeyOf(cfg, s)};
    }

    /** The service class task: the second direction only after the first. */
    method DropClass(s: Sid)
      requires Valid() && s.vid in lists
      modifies `sc
      ensures Valid()
      ensures Abs() == ServiceClassStop(cfg, old(Abs()), s)
    {
      hide AllAgree, Find, ClassOf, Addr, MappedIp;
      var k := FindNode(s);
      if k == |lists[s.vid]| {
        return;
      }
      var m := lists[s.vid][k].data;
      if m.cls == None {
        return;
      }
      var found := ClassOf(cfg.classes, m.cls.value);
      if found == None || m.clsSlot == 0 || m.clsSlot > found.value.size {
        return;
      }
      if Addr(cfg, s) in sc {
        sc := sc - {Addr(cfg, s)};
        sc := sc - {MappedIp(found.value, m.clsSlot)};
      }
    }

    /** The bandwidth task: the slot goes back only when the script removes the shaping. */
    method DropSlot(s: Sid, removed: bool)
      requires Valid() && s.vid in lists
      modifies `lists, `members, `leaked, slots`count
      ensures Valid()
      ensures Abs() == BandwidthStop(old(Abs()), s, removed)
      ensures lists == old(lists)
              || (s in members && lists == old(lists)[s.vid := Put(old(lists[s.vid]), s.id, members[s])])
    {
      hide AllAgree, Find, Put;
      var k := FindNode(s);
      if k == |lists[s.vid]| {
        return;
      }
      var m := lists[s.vid][k].data;
      if m.slot < 1 {
        return;
      }
      if removed {
        SetData(s, k, m.(slot := 0));
        slots.Return();
      } else {
        leaked := leaked + 1;
      }
    }

    /** The database task. */
    method DropRows(s: Sid)
      requires Valid() && s.vid in lists
      modifies `db
      ensures Valid()
      ensures Abs() == DbsetStop(old(Abs()), s)
    {
      hide AllAgree, Find;
      var k := FindNode(s);
      if k == |lists[s.vid]| {
        return;
      }
      var m := lists[s.vid][k].data;
      db := map key | key in db &&
                      !(key.vid == s.vid && db[key].session == m.session && db[key].user == m.user) :: db[key];
    }

    /** One task of the stop walk. */
    method StopOne(t: Task, s: Sid, removed: bool)
      requires Valid() && s.vid in lists
      modifies this, slots`count
      ensures Valid()
      ensures Abs() == StopTask(cfg, t, old(Abs()), s, removed)
      ensures ListsAfter(old(lists), lists, s, t == Memset)
      ensures t == Iptables ==> lists == old(lists)
    {
      hide MemsetStop, IpsetStop, ServiceClassStop, BandwidthStop, DbsetStop, Find, Put, Remove;
      match t
      case Iptables =>
      case Memset =>
        RemoveTwice(lists[s.vid], s.id);
        DropMember(s);
      case Ipset => DropKernel(s);
      case ServiceClass => DropClass(s);
      case Bandwidth =>
        FindIsMember(lists[s.vid], s.vid, members, s.id);
        ghost var list := lists[s.vid];
        DropSlot(s, removed);
        SlotKeepsMember(old(Abs()), s, removed);
        if s in members { RemoveAfterPut(list, s.id, members[s]); }
      case Dbset => DropRows(s);
    }

    /** rh_task_stopsess: the task list from its back. */
    method Stop(s: Sid, removed: bool)
      requires ValidConfig(cfg) && Valid() && s.vid in lists
      modifies this, slots`count
      ensures Valid()
      ensures Abs() == StopSess(cfg, old(Abs()), s, removed)
      ensures lists == old(lists)[s.vid := Remove(old(lists[s.vid]), s.id)]
    {
      TasksShaped(cfg);
      var tasks := cfg.tasks;
      assert tasks[0] == Iptables && tasks[1] == Memset && tasks[..|tasks|] == tasks;
      hide ValidConfig, Valid, Abs, StopTask, StopTasks, ListsAfter, Shaped, Remove;
      ghost var w := Abs();
      var i := |tasks|;
      NoChange(lists, s);
      while i > 0
        invariant 0 <= i <= |tasks| && Valid() && s.vid in lists
        invariant StopTasks(cfg, tasks[..i], Abs(), s, removed) == StopTasks(cfg, tasks, w, s, removed)
        invariant ListsAfter(old(lists), lists, s, i <= 1)
      {
        StopPrefix(cfg, tasks, i - 1, Abs(), s, removed);
        i := i - 1;
        ghost var before := lists;
        StopOne(tasks[i], s, removed);
        ListsStep(old(lists), before, lists, s, i >= 1, i == 1);
      }
      StopsNone(cfg, tasks[..i], Abs(), s, removed);
      ListsGone(old(lists), lists, s);
    }

    // ---------- the RPC server ----------

    /** do_startsession. */
    method StartRequest(vid: int, ip: int, req: Req, out: Outside)
      requires ValidConfig(cfg) && Valid() && RandomDraws(out.attempts)
      modifies this, slots`count, slots.flags
      ensures Valid()
      ensures Abs() == StartSession(cfg, old(Abs()), vid, ip, req, EnvOf(out, old(Abs())))
    {
      hide ValidConfig, AllAgree, StartSess, Find, Attempted, RandomDraws;
      if vid !in lists {
        return;
      }
      var s := SidAt(cfg, vid, ip);
      var k := FindNode(s);
      if k == |lists[vid]| {
        Start(s, req.(start := 0, clsSlot := 0), out);
      }
    }

    /** do_stopsession. */
    method StopRequest(vid: int, ip: int, mac: nat, removed: bool)
      requires ValidConfig(cfg) && Valid()
      modifies this, slots`count
      ensures Valid()
      ensures Abs() == StopSession(cfg, old(Abs()), vid, ip, mac, removed)
    {
      hide ValidConfig, AllAgree, StopSess, Find, Remove;
      if vid !in lists {
        return;
      }
      var s := SidAt(cfg, vid, ip);
      var k := FindNode(s);
      if k < |lists[vid]| && lists[vid][k].data.mac == mac {
        Stop(s, removed);
      }
    }

    // ---------- polling ----------

    /** expired_check over the kernel entries read before the walk: the node behind the current
        one is taken before the current one may be deleted. Every member is visited once, the due
        ones go, and the others stay in their order. */
    method ExpiredCheck(vid: int, image: map<KernelKey, KernelEntry>, clock: nat -> int, removed: nat -> bool)
      requires ValidConfig(cfg) && Valid() && vid in lists
      modifies this, slots`count
      ensures Valid() && vid in lists
      ensures lists[vid] == Stay(cfg, image, vid, old(lists[vid]), clock, |old(lists[vid])|)
      ensures Abs() == Pass(cfg, old(Abs()), image, vid, Visits(old(lists[vid]), clock, removed))
      ensures VisitsAll(old(Abs()), vid, Visits(old(lists[vid]), clock, removed))
      ensures Inv(cfg, old(Abs())) ==>
              && Filtered(cfg, old(Abs()), Abs(), image, vid, Visits(old(lists[vid]), clock, removed))
              && lists[vid] == Among(old(lists[vid]), vid, Abs().members.Keys)
    {
      hide ValidConfig, Valid, StopSess, Find, Remove, Pass, KeyOf, Visits, Due, Expired, Inv, VisitsAll, Filtered,
        Stay, Among;
      KeysKept();
      ghost var visits, w, list := Visits(lists[vid], clock, removed), Abs(), lists[vid];
      VisitsFrom(list, clock, removed);
      ListVisited(vid, clock, removed);
      if Inv(cfg, w) {
        PassFilters(cfg, w, image, vid, visits);
        StayAmong(vid, image, clock, removed);
      }
      StayNone(cfg, image, vid, list, clock);
      var runner, i := 0, 0;
      while runner < |lists[vid]|
        invariant Valid() && vid in lists && 0 <= i <= |list| && 0 <= runner <= |lists[vid]|
        invariant lists[vid][..runner] == Stay(cfg, image, vid, list, clock, i) && lists[vid][runner..] == list[i..]
        invariant Pass(cfg, Abs(), image, vid, visits[i..]) == Pass(cfg, w, image, vid, visits)
        decreases |list| - i
      {
        var node := lists[vid][runner];
        var s, now := Sid(vid, node.id), clock(i);
        ListNode(vid, runner);
        ghost var kept := lists[vid][..runner];
        assert node == list[i] && lists[vid][runner..][1..] == lists[vid][runner + 1..]
               && list[i..][1..] == list[i + 1..];
        PassStep(cfg, Abs(), image, vid, visits, i);
        DueIs(cfg, Abs(), image, vid, visits[i], node.data);
        StayStep(cfg, image, vid, list, clock, i);
        if KeyOf(cfg, s) in image && Expired(cfg, vid, node.data, image[KeyOf(cfg, s)], now) {
          Stop(s, removed(i));
          assert lists[vid][..runner] == kept;
        } else {
          runner := runner + 1;
          assert lists[vid][..runner] == kept + [node];
        }
        i := i + 1;
      }
      PassNone(cfg, Abs(), image, vid, visits[i..]);
      assert lists[vid][..runner] == lists[vid];
    }

    /** The nodes that stay are those whose sessions are members behind the pass. */
    lemma StayAmong(vid: int, image: map<KernelKey, KernelEntry>, clock: nat -> int, removed: nat -> bool)
      requires ValidConfig(cfg) && Valid() && vid in lists && Inv(cfg, Abs())
      requires VisitsAll(Abs(), vid, Visits(lists[vid], clock, removed))
      ensures var list := lists[vid];
              Stay(cfg, image, vid, list, clock, |list|) ==
              Among(list, vid, Pass(cfg, Abs(), image, vid, Visits(list, clock, removed)).members.Keys)
    {
      hide ValidConfig, Valid, Pass, Visits, Due, Expired, Inv, VisitsAll, DueSids, KeyOf, Remove, Find, Without,
        Stay, Among;
      var w, list := Abs(), lists[vid];
      var visits := Visits(list, clock, removed);
      var w1 := Pass(cfg, w, image, vid, visits);
      VisitsFrom(list, clock, removed);
      SidsMembers(w, vid, visits);
      PassIsFilter(cfg, w, image, vid, visits);
      WithoutMembers(cfg, w, w1, DueSids(cfg, w, image, vid, visits));
      forall i | 0 <= i < |list|
        ensures Overdue(cfg, image, vid, list[i], clock(i)) <==> Sid(vid, list[i].id) !in w1.members
      {
        ListNode(vid, i);
        DueAt(cfg, w, image, vid, visits, i);
        DueIs(cfg, w, image, vid, visits[i], list[i].data);
      }
      StayIsAmong(cfg, image, vid, list, clock, w1.members.Keys, |list|);
      assert list[..|list|] == list;
    }

    lemma ListNode(vid: int, k: nat)
      requires Valid() && vid in lists && k < |lists[vid]|
      ensures var s := Sid(vid, lists[vid][k].id);
              && s in members && members[s] == lists[vid][k].data
              && Remove(lists[vid], s.id) == lists[vid][..k] + lists[vid][k + 1..]
    {
      hide Find;
      var list := lists[vid];
      FindOnly(list, k);
      FindIsMember(list, vid, members, list[k].id);
    }

    /** The clean-up of the kernel set task: all members of a virtual server are stopped. */
    method ClearServer(vid: int, removed: nat -> bool)
      requires ValidConfig(cfg) && Valid() && vid in lists
      modifies this, slots`count
      ensures Valid() && vid in lists && lists[vid] == []
      ensures Abs() == StopEach(cfg, old(Abs()), vid, Visits(old(lists[vid]), _ => 0, removed))
      ensures Inv(cfg, old(Abs())) ==> Inv(cfg, Abs()) && Cleared(Abs(), vid)
    {
      hide ValidConfig, Valid, StopSess, Find, Remove, StopEach, Visits, Inv, Cleared, VisitsAll;
      ghost var visits, w, list := Visits(lists[vid], _ => 0, removed), Abs(), lists[vid];
      VisitsFrom(list, _ => 0, removed);
      if Inv(cfg, w) {
        ListVisited(vid, _ => 0, removed);
        CleanupClears(cfg, w, vid, visits);
      }
      var i := 0;
      while lists[vid] != []
        invariant Valid() && vid in lists && 0 <= i <= |list| && lists[vid] == list[i..]
        invariant StopEach(cfg, Abs(), vid, visits[i..]) == StopEach(cfg, w, vid, visits)
        decreases |list| - i
      {
        var node := lists[vid][0];
        ListNode(vid, 0);
        assert node == list[i] && list[i..][1..] == list[i + 1..];
        EachStep(cfg, Abs(), vid, visits, i);
        Stop(Sid(vid, node.id), removed(i));
        assert lists[vid] == list[i + 1..];
        i := i + 1;
      }
      EachNone(cfg, Abs(), vid, visits[i..]);
    }

    lemma ListVisited(vid: int, clock: nat -> int, removed: nat -> bool)
      requires Valid() && vid in lists
      ensures VisitsAll(Abs(), vid, Visits(lists[vid], clock, removed))
    {
      var list := lists[vid];
      var visits := Visits(list, clock, removed);
      hide Find;
      forall s: Sid | s.vid == vid
        ensures s in members <==> s in Visited(vid, visits)
      {
        FindIsMember(list, vid, members, s.id);
        if s in members {
          assert visits[Find(list, s.id)] in visits;
        }
        if s in Visited(vid, visits) {
          var v :| v in visits && s == Sid(vid, v.id);
          var j :| 0 <= j < |visits| && visits[j] == v;
          FindOnly(list, j);
        }
      }
    }

    // ---------- restore ----------

    /** restore_set on the rows that a SELECT returned; rows of other virtual servers are skipped. */
    method RestoreSet(vid: int, data: seq<RowKey>, outs: RowKey -> Outside)
      requires ValidConfig(cfg) && Valid() && vid in lists
      requires NoRepeats(data) && forall key :: key in data ==> key in db && RandomDraws(outs(key).attempts)
      modifies this, slots`count, slots.flags
      ensures Valid()
      ensures Replayed(cfg, old(Abs()), Abs(), old(db), OfServer(data, vid))
    {
      hide ValidConfig, Valid, Abs, StartSess, NoRepeats, RandomDraws, Attempted, Replayed, OfServer, SidAt;
      ghost var w := Abs();
      var rows, i := db, 0;
      ReplayedNone(cfg, w, rows);
      OfServerNone(vid);
      while i < |data|
        invariant Valid() && lists.Keys == old(lists.Keys) && 0 <= i <= |data|
        invariant Replayed(cfg, w, Abs(), rows, OfServer(data[..i], vid))
      {
        var key := data[i];
        OfServerSnoc(data, i, vid);
        if key.vid == vid {
          ghost var before := Abs();
          KeysKept();
          Runs.SidAtVid(cfg, vid, key.ip);
          Start(SidAt(cfg, vid, key.ip), RestoreReq(key, rows[key]), outs(key));
          KeysKept();
          ghost var env := EnvOf(outs(key), before);
          ReplayedOne(cfg, before, rows, key, env);
          ReplayedMore(cfg, w, before, Abs(), rows, OfServer(data[..i], vid), [key]);
        }
        i := i + 1;
      }
      assert data[..i] == data;
    }

    /** The start of the daemon after a crash of one in state w: every virtual server in turn reads
        its rows and replays them. All sessions are recovered and the stores agree again. */
    method Recover(vids: seq<int>, selects: int -> seq<RowKey>, outs: RowKey -> Outside, ghost w: World)
      requires ValidConfig(cfg) && Inv(cfg, w) && Valid() && Abs() == Boot(w.db)
      requires forall vid :: vid in vids <==> vid in cfg.vservers
      requires forall i, j :: 0 <= i < j < |vids| ==> vids[i] != vids[j]
      requires forall vid :: vid in vids ==> Selected(w.db, vid, selects(vid))
      requires forall key :: key in w.db ==> RandomDraws(outs(key).attempts)
      modifies this, slots`count, slots.flags
      ensures Valid() && Inv(cfg, Abs()) && Recovered(w, Abs())
    {
      hide ValidConfig, Valid, Abs, Inv, Recovered, Replayed, Selected, RandomDraws, NoRepeats;
      ghost var order: seq<RowKey> := [];
      var i := 0;
      ReplayedNone(cfg, Abs(), w.db);
      NoneRepeats();
      while i < |vids|
        invariant Valid() && 0 <= i <= |vids|
        invariant Replayed(cfg, Boot(w.db), Abs(), w.db, order) && NoRepeats(order)
        invariant forall key :: key in order <==> key in w.db && key.vid in vids[..i]
      {
        var vid := vids[i];
        KeysKept();
        TableKept(cfg, w, Abs(), order);
        SelectedParts(w.db, vid, selects(vid));
        ghost var before := Abs();
        RestoreSet(vid, selects(vid), outs);
        ReplayedMore(cfg, Boot(w.db), before, Abs(), w.db, order, selects(vid));
        OrderGrows(w.db, order, vids, i, selects(vid));
        order := order + selects(vid);
        i := i + 1;
      }
      assert vids[..i] == vids;
      RecoveredAll(cfg, w, Abs(), order, vids);
    }

    lemma KeysKept()
      requires Valid()
      ensures lists.Keys == cfg.vservers.Keys && Abs().flags == slots.Flagged() && Abs().count == slots.count
              && Abs().db == db
    {
    }
  }

  predicate Overdue(cfg: Config, image: map<KernelKey, KernelEntry>, vid: int, node: Node, now: int) {
    var key := KeyOf(cfg, Sid(vid, node.id));
    key in image && Expired(cfg, vid, node.data, image[key], now)
  }

  /** The first n nodes of a list without those that are overdue at their visit. */
  function Stay(cfg: Config, image: map<KernelKey, KernelEntry>, vid: int, list: seq<Node>, clock: nat -> int,
      n: nat): seq<Node>
    requires n <= |list|
  {
    if n == 0 then []
    else
      Stay(cfg, image, vid, list, clock, n - 1) +
      if Overdue(cfg, image, vid, list[n - 1], clock(n - 1)) then [] else [list[n - 1]]
  }

  /** The nodes of a list whose sessions are in ids, in their order. */
  function Among(list: seq<Node>, vid: int, ids: set<Sid>): seq<Node>
    decreases |list|
  {
    if list == [] then []
    else
      Among(list[..|list| - 1], vid, ids) +
      if Sid(vid, list[|list| - 1].id) in ids then [list[|list| - 1]] else []
  }

  lemma {:induction false} StayIsAmong(cfg: Config, image: map<KernelKey, KernelEntry>, vid: int, list: seq<Node>,
      clock: nat -> int, ids: set<Sid>, n: nat)
    requires n <= |list|
    requires forall i :: 0 <= i < n ==> (Overdue(cfg, image, vid, list[i], clock(i)) <==> Sid(vid, list[i].id) !in ids)
    ensures Stay(cfg, image, vid, list, clock, n) == Among(list[..n], vid, ids)
  {
    hide Overdue;
    if n > 0 {
      StayIsAmong(cfg, image, vid, list, clock, ids, n - 1);
      assert list[..n][..n - 1] == list[..n - 1];
    }
  }

  lemma StayNone(cfg: Config, image: map<KernelKey, KernelEntry>, vid: int, list: seq<Node>, clock: nat -> int)
    ensures Stay(cfg, image, vid, list, clock, 0) == list[..0] && list[0..] == list
  {
  }

  lemma StayStep(cfg: Config, image: map<KernelKey, KernelEntry>, vid: int, list: seq<Node>, clock: nat -> int, i: nat)
    requires i < |list|
    ensures var key, kept := KeyOf(cfg, Sid(vid, list[i].id)), Stay(cfg, image, vid, list, clock, i);
            Stay(cfg, image, vid, list, clock, i + 1) ==
            if key in image && Expired(cfg, vid, list[i].data, image[key], clock(i)) then kept else kept + [list[i]]
  {
    hide KeyOf, Expired;
    var kept := Stay(cfg, image, vid, list, clock, i);
    assert kept + [] == kept;
  }

  /** The stores agree behind the pass, and it has swept the members by their clocks and limits. */
  ghost predicate Filtered(cfg: Config, w: World, w1: World, image: map<KernelKey, KernelEntry>, vid: int,
      visits: seq<Visit>) {
    Inv(cfg, w1) && vid in cfg.vservers && Swept(cfg, w, w1, image, vid, visits)
  }

  lemma PassFilters(cfg: Config, w: World, image: map<KernelKey, KernelEntry>, vid: int, visits: seq<Visit>)
    requires ValidConfig(cfg) && Inv(cfg, w) && VisitsAll(w, vid, visits) && vid in cfg.vservers
    ensures Filtered(cfg, w, Pass(cfg, w, image, vid, visits), image, vid, visits)
  {
    hide ValidConfig, Inv, Without, Pass, DueSids, Swept;
    PassIsFilter(cfg, w, image, vid, visits);
    PassExact(cfg, w, image, vid, visits);
  }

  lemma PassStep(cfg: Config, w: World, image: map<KernelKey, KernelEntry>, vid: int, visits: seq<Visit>, i: nat)
    requires i < |visits|
    ensures Pass(cfg, w, image, vid, visits[i..]) ==
            Pass(cfg,
                 if Due(cfg, w, image, vid, visits[i]) then StopSess(cfg, w, Sid(vid, visits[i].id), visits[i].removed)
                 else w,
                 image, vid, visits[i + 1..])
  {
    hide Due, StopSess;
    assert visits[i..][1..] == visits[i + 1..];
  }

  lemma EachStep(cfg: Config, w: World, vid: int, visits: seq<Visit>, i: nat)
    requires i < |visits|
    ensures StopEach(cfg, w, vid, visits[i..]) ==
            StopEach(cfg, StopSess(cfg, w, Sid(vid, visits[i].id), visits[i].removed), vid, visits[i + 1..])
  {
    hide StopSess;
    assert visits[i..][1..] == visits[i + 1..];
  }

  lemma EachNone(cfg: Config, w: World, vid: int, visits: seq<Visit>)
    requires visits == []
    ensures StopEach(cfg, w, vid, visits) == w
  {
  }

  lemma PassNone(cfg: Config, w: World, image: map<KernelKey, KernelEntry>, vid: int, visits: seq<Visit>)
    requires visits == []
    ensures Pass(cfg, w, image, vid, visits) == w
  {
  }

  lemma DueIs(cfg: Config, w: World, image: map<KernelKey, KernelEntry>, vid: int, v: Visit, m: Member)
    requires Sid(vid, v.id) in w.members && w.members[Sid(vid, v.id)] == m
    ensures var key := KeyOf(cfg, Sid(vid, v.id));
            Due(cfg, w, image, vid, v) <==> key in image && Expired(cfg, vid, m, image[key], v.now)
  {
    hide KeyOf, Expired;
  }

  lemma VisitsFrom(list: seq<Node>, clock: nat -> int, removed: nat -> bool)
    ensures var visits := Visits(list, clock, removed);
            && |visits| == |list| && visits[0..] == visits && list[0..] == list
            && forall i :: 0 <= i < |list| ==> visits[i] == Visit(list[i].id, clock(i), removed(i))
  {
  }

  /** The visits of a pass over a list. */
  function Visits(list: seq<Node>, clock: nat -> int, removed: nat -> bool): seq<Visit> {
    seq(|list|, i requires 0 <= i < |list| => Visit(list[i].id, clock(i), removed(i)))
  }

  /** Only the list of s changed, by removing s or by something that removing s undoes. */
  ghost predicate ListsAfter(before: map<int, seq<Node>>, after: map<int, seq<Node>>, s: Sid, gone: bool) {
    && s.vid in before && s.vid in after && after == before[s.vid := after[s.vid]]
    && if gone then after[s.vid] == Remove(before[s.vid], s.id)
       else Remove(after[s.vid], s.id) == Remove(before[s.vid], s.id)
  }

  lemma NoChange(lists: map<int, seq<Node>>, s: Sid)
    requires s.vid in lists
    ensures ListsAfter(lists, lists, s, false)
  {
    hide Remove;
  }

  lemma ListsStep(a: map<int, seq<Node>>, b: map<int, seq<Node>>, c: map<int, seq<Node>>, s: Sid, before: bool,
      gone: bool)
    requires if before then ListsAfter(a, b, s, false) && ListsAfter(b, c, s, gone)
             else c == b && ListsAfter(a, b, s, true)
    ensures ListsAfter(a, c, s, if before then gone else true) && s.vid in c
  {
    hide Remove;
  }

  lemma ListsGone(a: map<int, seq<Node>>, b: map<int, seq<Node>>, s: Sid)
    requires ListsAfter(a, b, s, true)
    ensures s.vid in a && b == a[s.vid := Remove(a[s.vid], s.id)]
  {
    hide Remove;
  }

  lemma StartsAlike(cfg: Config, t: Task, w: World, s: Sid, req: Req, q: Req, env: Env)
    ensures t == Iptables ==> StartTask(cfg, t, w, s, req, env) == StartTask(cfg, t, w, s, q, env)
  {
  }

  lemma StartsNone(cfg: Config, tasks: seq<Task>, w: World, s: Sid, req: Req, env: Env)
    requires tasks == []
    ensures StartTasks(cfg, tasks, w, s, req, env) == w
  {
  }

  lemma StopsNone(cfg: Config, tasks: seq<Task>, w: World, s: Sid, removed: bool)
    requires tasks == []
    ensures StopTasks(cfg, tasks, w, s, removed) == w
  {
  }

  lemma SlotKeepsMember(w: World, s: Sid, removed: bool)
    ensures s in BandwidthStop(w, s, removed).members <==> s in w.members
  {
  }
}
