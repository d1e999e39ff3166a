/** Bandwidth slots over whole runs: which steps leak one, when the slot count is exact, and which
    flags are set. */
module SessionSlots {
  import opened Options
  import opened Tasks
  import opened Sessions
  import opened SessionInv
  import opened SessionRuns
  import opened SessionSafety
  import Restart = SessionRestart
  import Poll = SessionPoll

  // ---------- which steps leak ----------

  /** A saturated counter hands out its 0, which is counted and never given back. */
  predicate StartLeaks(cfg: Config, w: World, req: Req, env: Env) {
    Bandwidth in cfg.tasks && (req.down != 0 || req.up != 0) && env.slot == Some(0) && w.count >= MAX_SLOT_ID
  }

  /** A slot whose removal script fails leaves with its member, counted. */
  predicate StopLeaks(w: World, s: Sid, removed: bool) {
    s in w.members && w.members[s].slot != 0 && !removed
  }

  /** The same for a member that is due when a pass visits it. */
  predicate VisitLeaks(cfg: Config, w: World, list: map<KernelKey, KernelEntry>, vid: int, v: Poll.Visit) {
    Poll.Due(cfg, w, list, vid, v) && StopLeaks(w, Sid(vid, v.id), v.removed)
  }

  ghost predicate PassLeaks(cfg: Config, w: World, list: map<KernelKey, KernelEntry>, vid: int,
      visits: seq<Poll.Visit>) {
    exists v :: v in visits && VisitLeaks(cfg, w, list, vid, v)
  }

  /** Some row is replayed when the counter is saturated already. */
  predicate RestoreLeaks(cfg: Config, p: World, rows: map<RowKey, Row>, order: seq<RowKey>, envs: RowKey -> Env)
    decreases |order|
  {
    order != [] &&
    var k := order[0];
    if k !in rows then RestoreLeaks(cfg, p, rows, order[1..], envs)
    else
      var req := Restart.RestoreReq(k, rows[k]);
      || StartLeaks(cfg, p, req, envs(k))
      || RestoreLeaks(cfg, StartSess(cfg, p, SidAt(cfg, k.vid, k.ip), req, envs(k)), rows, order[1..], envs)
  }

  ghost predicate Leaks(cfg: Config, w: World, step: Step) {
    match step
    case Start(vid, ip, req, env) =>
      vid in cfg.vservers && SidAt(cfg, vid, ip) !in w.members && StartLeaks(cfg, w, req, env)
    case Stop(vid, ip, mac, removed) =>
      && vid in cfg.vservers && SidAt(cfg, vid, ip) in w.members && w.members[SidAt(cfg, vid, ip)].mac == mac
      && StopLeaks(w, SidAt(cfg, vid, ip), removed)
    case Traffic(_, _) => false
    case Polling(vid, visits) => PassLeaks(cfg, w, w.kernel, vid, visits)
    case Crash(order, envs) => RestoreLeaks(cfg, Restart.Boot(w.db), w.db, order, envs)
  }

  // ---------- the slots of a start and of a stop ----------

  /** The nonzero slots of the members that were not there before. */
  function NewSlots(w: World, w1: World): set<nat> {
    set s | s in w1.members && s !in w.members && w1.members[s].slot != 0 :: w1.members[s].slot
  }

  lemma StartedSlots(cfg: Config, w: World, w1: World, s: Sid, req: Req, env: Env)
    requires Started(cfg, w, w1, s, req, env) && s !in w.members && 0 in w.flags
    ensures w1.leaked == w.leaked + if StartLeaks(cfg, w, req, env) then 1 else 0
    ensures w1.flags == w.flags + NewSlots(w, w1)
    ensures LiveSlots(w1) == LiveSlots(w) + NewSlots(w, w1)
  {
    hide ClassGiven, KeyOf, RowKeyOf;
    LiveAdded(w, w1, s);
    NewSlot(w, w1, s);
    hide LiveSlots, NewSlots;
  }

  lemma NewSlot(w: World, w1: World, s: Sid)
    requires s !in w.members && s in w1.members && w1.members == w.members[s := w1.members[s]]
    ensures NewSlots(w, w1) == if w1.members[s].slot == 0 then {} else {w1.members[s].slot}
  {
  }

  lemma StoppedSlots(cfg: Config, w: World, w1: World, s: Sid, removed: bool)
    requires s in w.members && Stopped(cfg, w, w1, s, removed)
    ensures w1.leaked == w.leaked + if StopLeaks(w, s, removed) then 1 else 0
    ensures w1.flags == w.flags && NewSlots(w, w1) == {} && w1.members == w.members - {s}
  {
    hide KeyOf, RowKeyOf, Addr;
  }

  // ---------- the slots of a pass ----------

  lemma {:induction false} PassSlots(cfg: Config, w: World, list: map<KernelKey, KernelEntry>, vid: int,
      visits: seq<Poll.Visit>)
    requires ValidConfig(cfg) && Inv(cfg, w) && Poll.VisitedOnce(visits)
    ensures var w1 := Poll.Pass(cfg, w, list, vid, visits);
            w1.leaked == 0 <==> w.leaked == 0 && !PassLeaks(cfg, w, list, vid, visits)
    decreases |visits|
  {
    hide ValidConfig, Inv, StopSess, Stopped, Poll.Due, Poll.VisitedOnce, StopLeaks, VisitLeaks;
    if visits != [] {
      var v, rest := visits[0], visits[1..];
      var s := Sid(vid, v.id);
      Poll.OnceTail(visits);
      if Poll.Due(cfg, w, list, vid, v) {
        Poll.DueMember(cfg, w, list, vid, v);
        StopKeeps(cfg, w, s, v.removed);
        var w1 := StopSess(cfg, w, s, v.removed);
        StoppedSlots(cfg, w, w1, s, v.removed);
        PassSlots(cfg, w1, list, vid, rest);
        LeaksTail(cfg, w, w1, list, vid, visits);
        VisitLeaksIs(cfg, w, list, vid, v);
      } else {
        PassSlots(cfg, w, list, vid, rest);
        LeaksTail(cfg, w, w, list, vid, visits);
        VisitLeaksIs(cfg, w, list, vid, v);
      }
    }
  }

  lemma VisitLeaksIs(cfg: Config, w: World, list: map<KernelKey, KernelEntry>, vid: int, v: Poll.Visit)
    ensures VisitLeaks(cfg, w, list, vid, v) <==>
            Poll.Due(cfg, w, list, vid, v) && StopLeaks(w, Sid(vid, v.id), v.removed)
  {
  }

  /** Stopping the first visited member does not change which later visits leak. */
  lemma LeaksTail(cfg: Config, w: World, w1: World, list: map<KernelKey, KernelEntry>, vid: int,
      visits: seq<Poll.Visit>)
    requires visits != [] && Poll.VisitedOnce(visits)
    requires w1 == w || w1.members == w.members - {Sid(vid, visits[0].id)}
    ensures PassLeaks(cfg, w, list, vid, visits) <==>
            VisitLeaks(cfg, w, list, vid, visits[0]) || PassLeaks(cfg, w1, list, vid, visits[1..])
  {
    var rest := visits[1..];
    assert visits == [visits[0]] + rest;
    forall u | u in rest
      ensures VisitLeaks(cfg, w1, list, vid, u) <==> VisitLeaks(cfg, w, list, vid, u)
    {
      var i :| 0 <= i < |rest| && rest[i] == u;
      assert visits[i + 1] == u && visits[0].id != visits[i + 1].id;
      if w1 != w {
        Poll.DueSame(cfg, w, w1, list, vid, Sid(vid, visits[0].id), u);
      }
    }
    hide VisitLeaks, Poll.VisitedOnce;
  }

  // ---------- the slots of a restart ----------

  lemma {:induction false} RestoreSlots(cfg: Config, w: World, p: World, done: set<Sid>, order: seq<RowKey>,
      envs: RowKey -> Env)
    requires ValidConfig(cfg) && Inv(cfg, w) && Restart.Rebuilt(cfg, w, p, done)
    requires forall k :: k in order ==> k in w.db
    requires Restart.NoRepeats(order) && Restart.SidsOf(cfg, order) !! done
    requires p.flags == {0} + LiveSlots(p)
    ensures var p1 := Restart.Restore(cfg, p, w.db, order, envs);
            && (p1.leaked == 0 <==> p.leaked == 0 && !RestoreLeaks(cfg, p, w.db, order, envs))
            && p1.flags == {0} + LiveSlots(p1)
    decreases |order|
  {
    hide ValidConfig, Addr, SidAt, Spans, Inv, Restart.Rebuilt, StartSess, Restart.SidsOf, Started, LiveSlots,
      NewSlots, StartLeaks, Known;
    if order != [] {
      var k, rest := order[0], order[1..];
      var s, req := SidAt(cfg, k.vid, k.ip), Restart.RestoreReq(k, w.db[k]);
      var p1 := StartSess(cfg, p, s, req, envs(k));
      assert k in order && forall j :: j in rest ==> j in order;
      Restart.SidsTail(cfg, w, order);
      Restart.RestoreStarts(cfg, w, p, done, k, envs(k));
      Restart.RestoreStep(cfg, w, p, done, k, envs(k));
      StartedSlots(cfg, p, p1, s, req, envs(k));
      RestoreSlots(cfg, w, p1, done + {s}, rest, envs);
    }
  }

  // ---------- every step ----------

  /** A step leaks exactly when it says so; a crash forgets what leaked before it. */
  lemma LeakExact(cfg: Config, w: World, step: Step)
    requires ValidConfig(cfg) && Inv(cfg, w) && StepOk(cfg, w, step)
    ensures Apply(cfg, w, step).leaked == 0 <==> (step.Crash? || w.leaked == 0) && !Leaks(cfg, w, step)
  {
    hide ValidConfig, Inv, StartSess, StopSess, Stopped, Started, SidAt, Spans, StartLeaks, StopLeaks, PassLeaks,
      NewSession, Poll.Pass, Restart.Restore, RestoreLeaks, Restart.NoRepeats, Poll.VisitedOnce;
    match step
    case Start(vid, ip, req, env) =>
      if vid in cfg.vservers && SidAt(cfg, vid, ip) !in w.members { StepStarts(cfg, w, vid, ip, req, env); }
    case Stop(vid, ip, mac, removed) =>
      var s := SidAt(cfg, vid, ip);
      if s in w.members {
        StopKeeps(cfg, w, s, removed);
        StoppedSlots(cfg, w, StopSess(cfg, w, s, removed), s, removed);
      }
    case Traffic(k, stamp) =>
    case Polling(vid, visits) => PassSlots(cfg, w, w.kernel, vid, visits);
    case Crash(order, envs) => CrashSlots(cfg, w, order, envs);
  }

  lemma StepStarts(cfg: Config, w: World, vid: int, ip: int, req: Req, env: Env)
    requires ValidConfig(cfg) && Inv(cfg, w) && Spans(cfg, vid, ip) && SidAt(cfg, vid, ip) !in w.members
    requires NewSession(w, vid, req) && env.now != 0
    ensures var w1 := StartSess(cfg, w, SidAt(cfg, vid, ip), req.(start := 0, clsSlot := 0), env);
            && w1.leaked == w.leaked + (if StartLeaks(cfg, w, req, env) then 1 else 0)
            && w1.flags == w.flags + NewSlots(w, w1)
  {
    hide ValidConfig, Inv, StartSess, Started, Spans, SidAt, NewSlots, Known, LiveSlots;
    var s, q := SidAt(cfg, vid, ip), req.(start := 0, clsSlot := 0);
    IndexAddr(cfg, vid, ip);
    SidAtVid(cfg, vid, ip);
    NewSessionSame(w, vid, req, q);
    StartKeeps(cfg, w, s, q, env);
    ZeroFlagged(cfg, w);
    StartedSlots(cfg, w, StartSess(cfg, w, s, q, env), s, Stamped(q, env), env);
  }

  lemma ZeroFlagged(cfg: Config, w: World)
    requires Inv(cfg, w)
    ensures 0 in w.flags && forall f :: f in w.flags ==> f <= LAST_SLOT
  {
    hide Placed, MembersInKernel, KernelIsMembers, ClassInv, SlotsCounted, MembersInDb, DbIsMembers, SessionIds;
  }

  lemma CrashSlots(cfg: Config, w: World, order: seq<RowKey>, envs: RowKey -> Env)
    requires ValidConfig(cfg) && Inv(cfg, w)
    requires Restart.NoRepeats(order) && forall k :: k in order <==> k in w.db
    ensures var p := Restart.Restore(cfg, Restart.Boot(w.db), w.db, order, envs);
            && (p.leaked == 0 <==> !RestoreLeaks(cfg, Restart.Boot(w.db), w.db, order, envs))
            && p.flags == {0} + LiveSlots(p)
  {
    hide ValidConfig, Inv, Restart.Rebuilt, Restart.Restore, RestoreLeaks, Restart.SidsOf;
    Restart.BootRebuilt(cfg, w);
    assert LiveSlots(Restart.Boot(w.db)) == {};
    hide LiveSlots;
    RestoreSlots(cfg, w, Restart.Boot(w.db), {}, order, envs);
  }

  // ---------- the count over whole runs ----------

  /** Nothing has leaked since the start of the process; clean says so for the time before. */
  ghost predicate Unleaked(cfg: Config, w: World, steps: seq<Step>, clean: bool)
    decreases |steps|
  {
    if steps == [] then clean
    else Unleaked(cfg, Apply(cfg, w, steps[0]), steps[1..], (steps[0].Crash? || clean) && !Leaks(cfg, w, steps[0]))
  }

  lemma {:induction false} RunLeaks(cfg: Config, w: World, steps: seq<Step>)
    requires ValidConfig(cfg) && Inv(cfg, w) && RunOk(cfg, w, steps)
    ensures Run(cfg, w, steps).leaked == 0 <==> Unleaked(cfg, w, steps, w.leaked == 0)
    decreases |steps|
  {
    hide ValidConfig, Inv, Apply, Leaks, StepOk;
    if steps != [] {
      LeakExact(cfg, w, steps[0]);
      ApplyKeeps(cfg, w, steps[0]);
      RunLeaks(cfg, Apply(cfg, w, steps[0]), steps[1..]);
    }
  }

  /** The count is the number of live slots exactly when none leaked, as long as the 16-bit counter
      has room. */
  lemma CountExact(cfg: Config, w: World)
    requires Inv(cfg, w) && w.leaked <= 50000
    ensures w.count == |LiveSlots(w)| <==> w.leaked == 0
  {
    hide LiveSlots, Placed, MembersInKernel, KernelIsMembers, ClassInv, SlotsFlagged, MembersInDb, DbIsMembers,
      SessionIds;
  }

  /** In every run, the slot count is exactly the number of live slots, which are all different, if
      and only if no step since the last start of the process leaked. */
  lemma RunCounts(cfg: Config, w: World, steps: seq<Step>)
    requires ValidConfig(cfg) && Inv(cfg, w) && RunOk(cfg, w, steps) && Run(cfg, w, steps).leaked <= 50000
    ensures var w1 := Run(cfg, w, steps);
            w1.count == |LiveSlots(w1)| <==> Unleaked(cfg, w, steps, w.leaked == 0)
  {
    hide ValidConfig, Inv, Run, RunOk, LiveSlots, Unleaked;
    RunKeeps(cfg, w, steps);
    RunLeaks(cfg, w, steps);
    CountExact(cfg, Run(cfg, w, steps));
  }

  // ---------- the flags over whole runs ----------

  lemma StepFlags(cfg: Config, w: World, step: Step)
    requires ValidConfig(cfg) && Inv(cfg, w) && StepOk(cfg, w, step)
    ensures var w1 := Apply(cfg, w, step);
            w1.flags == if step.Crash? then {0} + LiveSlots(w1) else w.flags + NewSlots(w, w1)
  {
    hide ValidConfig, Inv, StartSess, StopSess, Stopped, Started, SidAt, Spans, NewSession, LiveSlots, Poll.Pass,
      Restart.Restore, Restart.NoRepeats, Poll.VisitedOnce;
    NoNewSlots(w, w);
    match step
    case Start(vid, ip, req, env) =>
      if vid in cfg.vservers && SidAt(cfg, vid, ip) !in w.members { StepStarts(cfg, w, vid, ip, req, env); }
    case Stop(vid, ip, mac, removed) =>
      var s := SidAt(cfg, vid, ip);
      if s in w.members {
        StopKeeps(cfg, w, s, removed);
        StoppedSlots(cfg, w, StopSess(cfg, w, s, removed), s, removed);
      }
    case Traffic(k, stamp) => NoNewSlots(w, Touch(w, k, stamp));
    case Polling(vid, visits) => PassFlags(cfg, w, vid, visits);
    case Crash(order, envs) => CrashSlots(cfg, w, order, envs);
  }

  lemma NoNewSlots(w: World, w1: World)
    requires w1.members.Keys <= w.members.Keys
    ensures NewSlots(w, w1) == {}
  {
  }

  lemma PassFlags(cfg: Config, w: World, vid: int, visits: seq<Poll.Visit>)
    requires ValidConfig(cfg) && Inv(cfg, w) && Poll.VisitedOnce(visits)
    ensures var w1 := Poll.Pass(cfg, w, w.kernel, vid, visits);
            w1.flags == w.flags && NewSlots(w, w1) == {}
  {
    hide ValidConfig, Inv, Poll.Pass, Poll.VisitedOnce, NewSlots, Poll.DueSids, Poll.KeysOf, Poll.RowsOf, Poll.PairsOf;
    Poll.PassIsFilter(cfg, w, w.kernel, vid, visits);
    NoNewSlots(w, Poll.Pass(cfg, w, w.kernel, vid, visits));
  }

  /** The different slots granted since the start of the process; granted says so for the time
      before. */
  function GrantedSinceBoot(cfg: Config, w: World, steps: seq<Step>, granted: set<nat>): set<nat>
    decreases |steps|
  {
    if steps == [] then granted
    else
      var w1 := Apply(cfg, w, steps[0]);
      GrantedSinceBoot(cfg, w1, steps[1..], if steps[0].Crash? then LiveSlots(w1) else granted + NewSlots(w, w1))
  }

  /** In every run the flags are the 0 and the slots granted since the start of the process. */
  lemma {:induction false} RunFlags(cfg: Config, w: World, steps: seq<Step>, granted: set<nat>)
    requires ValidConfig(cfg) && Inv(cfg, w) && RunOk(cfg, w, steps)
    requires w.flags == {0} + granted && 0 !in granted
    ensures Run(cfg, w, steps).flags == {0} + GrantedSinceBoot(cfg, w, steps, granted)
    ensures 0 !in GrantedSinceBoot(cfg, w, steps, granted)
    decreases |steps|
  {
    hide ValidConfig, Inv, Apply, StepOk;
    if steps != [] {
      var w1 := Apply(cfg, w, steps[0]);
      var more := if steps[0].Crash? then LiveSlots(w1) else granted + NewSlots(w, w1);
      assert 0 !in more;
      hide LiveSlots, NewSlots;
      StepFlags(cfg, w, steps[0]);
      ApplyKeeps(cfg, w, steps[0]);
      assert w1.flags == {0} + more;
      RunFlags(cfg, w1, steps[1..], more);
    }
  }
}
