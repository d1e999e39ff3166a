/** The session engine as values: one session lives in the member list, the kernel IP set, the
    service class set, the bandwidth slots and the database; the tasks of the pipeline move all
    of them. Engine.dfy proves the running form against these functions. */
module Sessions {
  import opened Options
  import opened Tasks

  const IP_SPACE: nat := 0x1_0000_0000
  const SHORT_SPACE: nat := 0x1_0000
  const MAX_SLOT_ID: nat := 9900
  const LAST_SLOT: nat := 9901
  const SLOT_TRIES: nat := 29

  // ---------- configuration ----------

  /** The client range of a virtual server. */
  datatype VServer = VServer(first: nat, size: nat, idle: int)

  datatype Class = Class(id: int, name: string, start: nat, size: nat)

  datatype Config = Config(vservers: map<int, VServer>, classes: seq<Class>, tasks: seq<Task>)

  /** serviceclass_exists(list, -1, name). */
  function ClassOf(classes: seq<Class>, name: string): Option<Class> {
    if classes == [] then None
    else if classes[0].id == -1 || classes[0].name == name then Some(classes[0])
    else ClassOf(classes[1..], name)
  }

  /** What printf makes of the class name of a member that has none. */
  const NO_CLASS := "(null)"

  /** Ranges fit the address space, class networks have a host, the missing name names no class. */
  ghost predicate ValidConfig(cfg: Config) {
    && (forall v :: v in cfg.vservers ==>
          0 < cfg.vservers[v].size && cfg.vservers[v].first + cfg.vservers[v].size <= IP_SPACE)
    && (forall c :: c in cfg.classes ==> 0 < c.size && c.start + c.size < IP_SPACE)
    && ClassOf(cfg.classes, NO_CLASS) == None
    && (exists classing, shaping :: cfg.tasks == Pipeline(classing, shaping))
  }

  /** iptoid: the offset in the range, or 0xFFFFFFFF beyond it. */
  function IpToId(v: VServer, ip: int): nat
    requires v.size > 0
  {
    var r := (ip - v.first) % IP_SPACE;
    if r > v.size - 1 then IP_SPACE - 1 else r
  }

  /** idtoip. */
  function IdToIp(v: VServer, id: nat): nat {
    (v.first + id) % IP_SPACE
  }

  predicate InRange(v: VServer, ip: int) {
    v.first <= ip < v.first + v.size
  }

  // ---------- the stores ----------

  /** A session: its virtual server and its index in the client range. */
  datatype Sid = Sid(vid: int, id: nat)

  datatype Member = Member(
    user: string, session: string, mac: nat, start: int, timeout: int, down: int, up: int,
    slot: nat, cls: Option<string>, clsSlot: nat, mapping: Option<nat>)

  datatype KernelKey = KernelKey(vid: int, ip: nat)
  datatype KernelEntry = KernelEntry(mac: nat, stamp: int)

  datatype RowKey = RowKey(vid: int, ip: nat, mac: nat)
  datatype Row = Row(
    session: string, user: string, start: int, timeout: int, slot: nat, down: int, up: int,
    cls: string, clsSlot: nat)

  /** leaked counts the slot reservations that no member can give back any more. */
  datatype World = World(
    members: map<Sid, Member>,
    kernel: map<KernelKey, KernelEntry>,
    sc: map<nat, nat>,
    db: map<RowKey, Row>,
    flags: set<nat>, count: nat, leaked: nat)

  datatype Req = Req(
    session: string, user: string, mac: nat, start: int, timeout: int, down: int, up: int,
    cls: Option<string>, clsSlot: nat)

  /** The address of a session; 0 for an unknown virtual server. */
  function Addr(cfg: Config, s: Sid): nat {
    if s.vid in cfg.vservers then IdToIp(cfg.vservers[s.vid], s.id) else 0
  }

  /** The session an address of a virtual server belongs to. */
  function SidAt(cfg: Config, vid: int, ip: int): Sid {
    Sid(vid, if vid in cfg.vservers && cfg.vservers[vid].size > 0 then IpToId(cfg.vservers[vid], ip) else 0)
  }

  predicate Spans(cfg: Config, vid: int, ip: int) {
    vid in cfg.vservers && InRange(cfg.vservers[vid], ip)
  }

  function KeyOf(cfg: Config, s: Sid): KernelKey {
    KernelKey(s.vid, Addr(cfg, s))
  }

  function RowKeyOf(cfg: Config, s: Sid, mac: nat): RowKey {
    RowKey(s.vid, Addr(cfg, s), mac)
  }

  /** What a start depends on besides its request: the clock, the random draws for the class
      slot, and the bandwidth slot that was drawn and set up, if one was. */
  datatype Env = Env(now: int, draws: seq<nat>, slot: Option<nat>)

  // ---------- start, task by task ----------

  function MemsetStart(w: World, s: Sid, req: Req): World {
    w.(members := w.members[s := Member(
      req.user, req.session, req.mac, req.start, req.timeout, req.down, req.up,
      if s in w.members then w.members[s].slot else 0, None, 0, None)])
  }

  /** The kernel refuses an address out of the range of the set or already in it. */
  function IpsetStart(cfg: Config, w: World, s: Sid, req: Req, env: Env): World
  {
    var k := KeyOf(cfg, s);
    if Spans(cfg, s.vid, k.ip) && k !in w.kernel then w.(kernel := w.kernel[k := KernelEntry(req.mac, env.now)]) else w
  }

  /** A row of the table holds the slot of the class. */
  predicate SlotTaken(db: map<RowKey, Row>, name: string, slot: nat) {
    exists k :: k in db && db[k].cls == name && db[k].clsSlot == slot
  }

  /** _sc_get_slot_id: the first of at most tries draws that is not zero and not taken. (A class
      without hosts, which no valid configuration has, would make the source divide by zero.) */
  function PickSlot(db: map<RowKey, Row>, c: Class, draws: seq<nat>, tries: nat): nat {
    if tries == 0 || draws == [] || c.size == 0 then 0
    else
      var slot := draws[0] % c.size;
      if slot != 0 && !SlotTaken(db, c.name, slot) then slot else PickSlot(db, c, draws[1..], tries - 1)
  }

  /** Adding the pair in both directions, the first taken back when the second fails. */
  function AddPair(sc: map<nat, nat>, ip: nat, ip1: nat): Option<map<nat, nat>> {
    if ip in sc || ip1 in sc || ip == ip1 then None else Some(sc[ip := ip1][ip1 := ip])
  }

  function MappedIp(c: Class, slot: nat): nat {
    (c.start + slot) % IP_SPACE
  }

  /** The class a request comes to: the name, the slot and the set behind it, or nothing. */
  datatype Classing = Unclassed | Classed(name: string, slot: nat, ip1: nat, sc: map<nat, nat>)

  function Classify(cfg: Config, w: World, ip: nat, req: Req, draws: seq<nat>): Classing
  {
    if req.cls == None then Unclassed
    else
      var found := ClassOf(cfg.classes, req.cls.value);
      if found == None then Unclassed
      else
        var c := found.value;
        var slot := if req.clsSlot == 0 then PickSlot(w.db, c, draws, SLOT_TRIES) else req.clsSlot;
        if slot == 0 || slot > c.size then Unclassed
        else
          match AddPair(w.sc, ip, MappedIp(c, slot))
          case None => Unclassed
          case Some(sc) => Classed(req.cls.value, slot, MappedIp(c, slot), sc)
  }

  lemma ClassOfIn(classes: seq<Class>, name: string)
    ensures ClassOf(classes, name).Some? ==> ClassOf(classes, name).value in classes
  {
  }

  function ServiceClassStart(cfg: Config, w: World, s: Sid, req: Req, env: Env): World
  {
    if req.cls == None || s !in w.members then w
    else
      match Classify(cfg, w, Addr(cfg, s), req, env.draws)
      case Unclassed => w.(members := w.members[s := Unclass(w.members[s])])
      case Classed(name, slot, ip1, sc) =>
        w.(sc := sc, members := w.members[s := w.members[s].(cls := Some(name), clsSlot := slot, mapping := Some(ip1))])
  }

  /** The failure exit of the service class task. */
  function Unclass(m: Member): Member {
    if m.cls == None then m else m.(cls := None, clsSlot := 0)
  }

  /** _get_slot_id grants 0 once the count is saturated, else any slot not flagged. */
  predicate Grants(w: World, slot: nat) {
    if w.count >= MAX_SLOT_ID then slot == 0 else 1 <= slot <= LAST_SLOT && slot !in w.flags
  }

  function BandwidthStart(w: World, s: Sid, env: Env): World {
    if s !in w.members then w
    else
      var m := w.members[s];
      if (m.down == 0 && m.up == 0) || m.slot > 0 || env.slot == None || !Grants(w, env.slot.value) then w
      else
        var slot := env.slot.value;
        w.(members := w.members[s := m.(slot := slot)], flags := w.flags + {slot},
           count := (w.count + 1) % SHORT_SPACE, leaked := if slot == 0 then w.leaked + 1 else w.leaked)
  }

  function RowOf(m: Member, req: Req): Row {
    Row(req.session, req.user, req.start, req.timeout, m.slot, req.down, req.up,
        if m.cls == None then NO_CLASS else m.cls.value, m.clsSlot)
  }

  /** The key of the table is (vserver, ip, mac): an insert on an existing key changes nothing. */
  function DbsetStart(cfg: Config, w: World, s: Sid, req: Req): World
  {
    if s !in w.members then w
    else
      var k := RowKeyOf(cfg, s, req.mac);
      if k in w.db then w else w.(db := w.db[k := RowOf(w.members[s], req)])
  }

  function StartTask(cfg: Config, t: Task, w: World, s: Sid, req: Req, env: Env): World
  {
    match t
    case Iptables => w
    case Memset => MemsetStart(w, s, req)
    case Ipset => IpsetStart(cfg, w, s, req, env)
    case ServiceClass => ServiceClassStart(cfg, w, s, req, env)
    case Bandwidth => BandwidthStart(w, s, env)
    case Dbset => DbsetStart(cfg, w, s, req)
  }

  /** rh_task_startsess: the list from its front. */
  function StartTasks(cfg: Config, tasks: seq<Task>, w: World, s: Sid, req: Req, env: Env): World
    decreases |tasks|
  {
    if tasks == [] then w
    else StartTasks(cfg, tasks[1..], StartTask(cfg, tasks[0], w, s, req, env), s, req, env)
  }

  /** The member task is the first to see a request and sets a missing start time. */
  function Stamped(req: Req, env: Env): Req {
    if req.start == 0 then req.(start := env.now) else req
  }

  function StartSess(cfg: Config, w: World, s: Sid, req: Req, env: Env): World
  {
    StartTasks(cfg, cfg.tasks, w, s, Stamped(req, env), env)
  }

  // ---------- stop, task by task ----------

  /** DELETE by session id, user and virtual server. */
  function DbsetStop(w: World, s: Sid): World {
    if s !in w.members then w
    else
      var m := w.members[s];
      w.(db := map k | k in w.db &&
                       !(k.vid == s.vid && w.db[k].session == m.session && w.db[k].user == m.user) :: w.db[k])
  }

  function BandwidthStop(w: World, s: Sid, removed: bool): World {
    if s !in w.members || w.members[s].slot < 1 then w
    else if removed then
      w.(members := w.members[s := w.members[s].(slot := 0)], count := if w.count > 0 then w.count - 1 else 0)
    else w.(leaked := w.leaked + 1)
  }

  /** Deleting the pair: the second direction is only tried when the first was there. */
  function DelPair(sc: map<nat, nat>, ip: nat, ip1: nat): map<nat, nat> {
    if ip !in sc then sc else sc - {ip} - {ip1}
  }

  function ServiceClassStop(cfg: Config, w: World, s: Sid): World
  {
    if s !in w.members || w.members[s].cls == None then w
    else
      var m := w.members[s];
      var found := ClassOf(cfg.classes, m.cls.value);
      if found == None || m.clsSlot == 0 || m.clsSlot > found.value.size then w
      else w.(sc := DelPair(w.sc, Addr(cfg, s), MappedIp(found.value, m.clsSlot)))
  }

  function IpsetStop(cfg: Config, w: World, s: Sid): World
  {
    w.(kernel := w.kernel - {KeyOf(cfg, s)})
  }

  function MemsetStop(w: World, s: Sid): World {
    w.(members := w.members - {s})
  }

  function StopTask(cfg: Config, t: Task, w: World, s: Sid, removed: bool): World
  {
    match t
    case Iptables => w
    case Memset => MemsetStop(w, s)
    case Ipset => IpsetStop(cfg, w, s)
    case ServiceClass => ServiceClassStop(cfg, w, s)
    case Bandwidth => BandwidthStop(w, s, removed)
    case Dbset => DbsetStop(w, s)
  }

  /** rh_task_stopsess: the list from its back. */
  function StopTasks(cfg: Config, tasks: seq<Task>, w: World, s: Sid, removed: bool): World
    decreases |tasks|
  {
    if tasks == [] then w
    else StopTasks(cfg, tasks[..|tasks| - 1], StopTask(cfg, tasks[|tasks| - 1], w, s, removed), s, removed)
  }

  function StopSess(cfg: Config, w: World, s: Sid, removed: bool): World
  {
    StopTasks(cfg, cfg.tasks, w, s, removed)
  }

  // ---------- the guarded steps of the RPC server ----------

  /** do_startsession: an address that has a member is greeted, any other is started. */
  function StartSession(cfg: Config, w: World, vid: int, ip: int, req: Req, env: Env): World
  {
    if vid !in cfg.vservers then w
    else
      var s := SidAt(cfg, vid, ip);
      if s in w.members then w else StartSess(cfg, w, s, req.(start := 0, clsSlot := 0), env)
  }

  /** do_stopsession: only the MAC that started the session stops it. */
  function StopSession(cfg: Config, w: World, vid: int, ip: int, mac: nat, removed: bool): World
  {
    if vid !in cfg.vservers then w
    else
      var s := SidAt(cfg, vid, ip);
      if s in w.members && w.members[s].mac == mac then StopSess(cfg, w, s, removed) else w
  }

  const EmptyWorld := World(map[], map[], map[], map[], {0}, 0, 0)
}
