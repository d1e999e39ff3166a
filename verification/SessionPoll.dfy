/** One polling pass: the members of a virtual server are walked while expired ones are stopped. */
module SessionPoll {
  import opened Sessions
  import opened SessionInv
  import opened SessionRuns

  /** What the clock and the kernel list say when a member is visited: nothing, or its entry. */
  datatype Visit = Visit(id: nat, now: int, removed: bool)

  /** Idle for longer than the limit, or past the end of the session. */
  predicate Expired(cfg: Config, vid: int, m: Member, d: KernelEntry, now: int) {
    vid in cfg.vservers && (now - d.stamp > cfg.vservers[vid].idle || (m.timeout != 0 && now > m.timeout))
  }

  /** The member is due by the entry of the kernel list read at the start of the pass. */
  predicate Due(cfg: Config, w: World, list: map<KernelKey, KernelEntry>, vid: int, v: Visit) {
    var s := Sid(vid, v.id);
    s in w.members && KeyOf(cfg, s) in list && Expired(cfg, vid, w.members[s], list[KeyOf(cfg, s)], v.now)
  }

  /** expired_check: each member in turn, stopped if it is due. */
  function Pass(cfg: Config, w: World, list: map<KernelKey, KernelEntry>, vid: int, visits: seq<Visit>): World
    decreases |visits|
  {
    if visits == [] then w
    else
      var v := visits[0];
      var w1 := if Due(cfg, w, list, vid, v) then StopSess(cfg, w, Sid(vid, v.id), v.removed) else w;
      Pass(cfg, w1, list, vid, visits[1..])
  }

  /** The sessions that are due in the world before the pass. */
  function DueSids(cfg: Config, w: World, list: map<KernelKey, KernelEntry>, vid: int, visits: seq<Visit>): set<Sid> {
    set i | 0 <= i < |visits| && Due(cfg, w, list, vid, visits[i]) :: Sid(vid, visits[i].id)
  }

  /** Each member is visited once. */
  ghost predicate VisitedOnce(visits: seq<Visit>) {
    forall i, j :: 0 <= i < j < |visits| ==> visits[i].id != visits[j].id
  }

  /** Every store without the sessions in gone. */
  ghost predicate Without(cfg: Config, w: World, w1: World, gone: set<Sid>) {
    && w1.members == w.members - gone
    && w1.kernel == w.kernel - KeysOf(cfg, gone)
    && w1.db == w.db - RowsOf(cfg, w, gone)
    && w1.sc == w.sc - PairsOf(cfg, w, gone)
    && w1.flags == w.flags
  }

  function KeysOf(cfg: Config, gone: set<Sid>): set<KernelKey> {
    set s | s in gone :: KeyOf(cfg, s)
  }

  function RowsOf(cfg: Config, w: World, gone: set<Sid>): set<RowKey> {
    set s | s in gone && s in w.members :: RowKeyOf(cfg, s, w.members[s].mac)
  }

  /** The addresses that the sessions in gone bring into the service class set. */
  function PairsOf(cfg: Config, w: World, gone: set<Sid>): set<nat> {
    (set s | s in gone && s in w.members && w.members[s].mapping.Some? :: Addr(cfg, s)) +
    (set s | s in gone && s in w.members && w.members[s].mapping.Some? :: w.members[s].mapping.value)
  }

  lemma WithoutNone(cfg: Config, w: World)
    ensures Without(cfg, w, w, {})
  {
    assert w.members - {} == w.members && w.kernel - {} == w.kernel && w.db - {} == w.db && w.sc - {} == w.sc;
    assert KeysOf(cfg, {}) == {} && RowsOf(cfg, w, {}) == {} && PairsOf(cfg, w, {}) == {};
  }

  /** Stopping one session and then leaving more out is leaving all of them out. */
  lemma WithoutMore(cfg: Config, w: World, w1: World, w2: World, s: Sid, gone: set<Sid>, removed: bool)
    requires s in w.members && Stopped(cfg, w, w1, s, removed) && Without(cfg, w1, w2, gone) && s !in gone
    ensures Without(cfg, w, w2, {s} + gone)
  {
    hide Addr;
    KeysMore(cfg, s, gone);
    RowsMore(cfg, w, w1, s, gone);
    PairsMore(cfg, w, w1, s, gone);
    hide KeysOf, RowsOf, PairsOf, KeyOf, RowKeyOf;
    assert w.members - {s} - gone == w.members - ({s} + gone);
    assert w2.kernel == w.kernel - KeysOf(cfg, {s} + gone);
    assert w2.db == w.db - RowsOf(cfg, w, {s} + gone);
    assert w2.sc == w.sc - PairsOf(cfg, w, {s} + gone);
  }

  lemma KeysMore(cfg: Config, s: Sid, gone: set<Sid>)
    ensures KeysOf(cfg, {s} + gone) == {KeyOf(cfg, s)} + KeysOf(cfg, gone)
  {
    hide KeyOf;
    assert s in {s} + gone;
  }

  lemma RowsMore(cfg: Config, w: World, w1: World, s: Sid, gone: set<Sid>)
    requires s in w.members && w1.members == w.members - {s} && s !in gone
    ensures RowsOf(cfg, w, {s} + gone) == {RowKeyOf(cfg, s, w.members[s].mac)} + RowsOf(cfg, w1, gone)
  {
    hide RowKeyOf;
    assert s in {s} + gone;
    assert forall t :: t in gone ==> (t in w1.members <==> t in w.members);
  }

  lemma PairsMore(cfg: Config, w: World, w1: World, s: Sid, gone: set<Sid>)
    requires s in w.members && w1.members == w.members - {s} && s !in gone
    ensures PairsOf(cfg, w, {s} + gone) ==
            (if w.members[s].mapping.Some? then {Addr(cfg, s), w.members[s].mapping.value} else {})
              + PairsOf(cfg, w1, gone)
  {
    hide Addr;
    assert s in {s} + gone;
    assert forall t :: t in gone ==> (t in w1.members <==> t in w.members);
  }

  /** Stopping another member does not change whether one is due. */
  lemma DueSame(cfg: Config, w: World, w1: World, list: map<KernelKey, KernelEntry>, vid: int, s: Sid, v: Visit)
    requires w1.members == w.members - {s} && Sid(vid, v.id) != s
    ensures Due(cfg, w1, list, vid, v) <==> Due(cfg, w, list, vid, v)
  {
    hide Expired, KeyOf;
  }

  lemma DueSidsTail(cfg: Config, w: World, w1: World, list: map<KernelKey, KernelEntry>, vid: int, visits: seq<Visit>)
    requires visits != [] && VisitedOnce(visits)
    requires w1 == w || w1.members == w.members - {Sid(vid, visits[0].id)}
    ensures var s := Sid(vid, visits[0].id);
            && DueSids(cfg, w, list, vid, visits) ==
               (if Due(cfg, w, list, vid, visits[0]) then {s} else {}) + DueSids(cfg, w1, list, vid, visits[1..])
            && s !in DueSids(cfg, w1, list, vid, visits[1..])
  {
    var s, rest := Sid(vid, visits[0].id), visits[1..];
    assert forall i :: 0 <= i < |rest| ==> rest[i] == visits[i + 1] && visits[i + 1].id != visits[0].id;
    forall i | 0 <= i < |rest|
      ensures Due(cfg, w1, list, vid, rest[i]) <==> Due(cfg, w, list, vid, visits[i + 1])
    {
      if w1 != w { DueSame(cfg, w, w1, list, vid, s, rest[i]); }
    }
    hide Due;
    forall t
      ensures t in DueSids(cfg, w, list, vid, visits) <==>
              (t == s && Due(cfg, w, list, vid, visits[0])) || t in DueSids(cfg, w1, list, vid, rest)
    {
      if t in DueSids(cfg, w, list, vid, visits) {
        var i :| 0 <= i < |visits| && Due(cfg, w, list, vid, visits[i]) && t == Sid(vid, visits[i].id);
        if i > 0 { assert rest[i - 1] == visits[i]; }
      }
      if t in DueSids(cfg, w1, list, vid, rest) {
        var i :| 0 <= i < |rest| && Due(cfg, w1, list, vid, rest[i]) && t == Sid(vid, rest[i].id);
        assert rest[i] == visits[i + 1] && Due(cfg, w, list, vid, visits[i + 1]);
      }
    }
  }

  /** A pass is a filter: the due sessions leave every store, and all others, their data and
      every other virtual server stay as they were; the stores still agree. */
  lemma {:induction false} PassIsFilter(cfg: Config, w: World, list: map<KernelKey, KernelEntry>, vid: int,
      visits: seq<Visit>)
    requires ValidConfig(cfg) && Inv(cfg, w) && VisitedOnce(visits)
    ensures Inv(cfg, Pass(cfg, w, list, vid, visits))
    ensures Without(cfg, w, Pass(cfg, w, list, vid, visits), DueSids(cfg, w, list, vid, visits))
    decreases |visits|
  {
    hide ValidConfig, Inv, Without, Due, DueSids, StopSess, Stopped, VisitedOnce;
    if visits == [] {
      NoneDue(cfg, w, list, vid);
      WithoutNone(cfg, w);
    } else {
      var v, rest := visits[0], visits[1..];
      var s := Sid(vid, v.id);
      OnceTail(visits);
      if Due(cfg, w, list, vid, v) {
        DueMember(cfg, w, list, vid, v);
        StopKeeps(cfg, w, s, v.removed);
        var w1 := StopSess(cfg, w, s, v.removed);
        StoppedMembers(cfg, w, w1, s, v.removed);
        DueSidsTail(cfg, w, w1, list, vid, visits);
        PassIsFilter(cfg, w1, list, vid, rest);
        WithoutMore(cfg, w, w1, Pass(cfg, w1, list, vid, rest), s, DueSids(cfg, w1, list, vid, rest), v.removed);
      } else {
        DueSidsTail(cfg, w, w, list, vid, visits);
        PassIsFilter(cfg, w, list, vid, rest);
        assert {} + DueSids(cfg, w, list, vid, rest) == DueSids(cfg, w, list, vid, rest);
      }
    }
  }

  /** What a pass leaves behind, said on clocks and limits: a visited member is gone exactly when it
      has a kernel entry older than the idle limit of its virtual server, or one and a session end
      that is set and past; nobody else is gone, and those gone have left every store. */
  ghost predicate Swept(cfg: Config, w: World, w1: World, list: map<KernelKey, KernelEntry>, vid: int,
      visits: seq<Visit>)
    requires vid in cfg.vservers
  {
    var gone := w.members.Keys - w1.members.Keys;
    && Without(cfg, w, w1, gone)
    && (forall s :: s in gone ==> s.vid == vid && exists i :: 0 <= i < |visits| && visits[i].id == s.id)
    && forall i :: 0 <= i < |visits| && Sid(vid, visits[i].id) in w.members ==>
         var s, now := Sid(vid, visits[i].id), visits[i].now;
         var k := KernelKey(vid, cfg.vservers[vid].first + visits[i].id);
         (s in gone <==>
          && k in list
          && (now - list[k].stamp > cfg.vservers[vid].idle
              || (w.members[s].timeout != 0 && w.members[s].timeout < now)))
  }

  /** A pass sweeps exactly so. */
  lemma PassExact(cfg: Config, w: World, list: map<KernelKey, KernelEntry>, vid: int, visits: seq<Visit>)
    requires ValidConfig(cfg) && Inv(cfg, w) && VisitedOnce(visits) && vid in cfg.vservers
    ensures Swept(cfg, w, Pass(cfg, w, list, vid, visits), list, vid, visits)
  {
    hide ValidConfig, Inv, Pass, Without, VisitedOnce, DueSids, Due;
    var w1, due := Pass(cfg, w, list, vid, visits), DueSids(cfg, w, list, vid, visits);
    PassIsFilter(cfg, w, list, vid, visits);
    DueVisited(cfg, w, list, vid, visits);
    GoneMembers(cfg, w, w1, due);
    forall i | 0 <= i < |visits| && Sid(vid, visits[i].id) in w.members
      ensures Sid(vid, visits[i].id) in due <==> Due(cfg, w, list, vid, visits[i])
      ensures Due(cfg, w, list, vid, visits[i]) <==>
              var s, now := Sid(vid, visits[i].id), visits[i].now;
              var k := KernelKey(vid, cfg.vservers[vid].first + visits[i].id);
              && k in list
              && (now - list[k].stamp > cfg.vservers[vid].idle
                  || (w.members[s].timeout != 0 && w.members[s].timeout < now))
    {
      DueAt(cfg, w, list, vid, visits, i);
      PlacedKey(cfg, w, Sid(vid, visits[i].id));
      DueExact(cfg, w, list, vid, visits[i]);
    }
  }

  lemma DueVisited(cfg: Config, w: World, list: map<KernelKey, KernelEntry>, vid: int, visits: seq<Visit>)
    ensures DueSids(cfg, w, list, vid, visits) <= w.members.Keys
    ensures forall s :: s in DueSids(cfg, w, list, vid, visits) ==>
              s.vid == vid && exists i :: 0 <= i < |visits| && visits[i].id == s.id
  {
    hide Expired, KeyOf;
  }

  lemma DueAt(cfg: Config, w: World, list: map<KernelKey, KernelEntry>, vid: int, visits: seq<Visit>, i: nat)
    requires VisitedOnce(visits) && i < |visits|
    ensures Sid(vid, visits[i].id) in DueSids(cfg, w, list, vid, visits) <==> Due(cfg, w, list, vid, visits[i])
  {
    hide Due;
    if Sid(vid, visits[i].id) in DueSids(cfg, w, list, vid, visits) {
      var j :| 0 <= j < |visits| && Due(cfg, w, list, vid, visits[j]) && visits[i].id == visits[j].id;
      assert i == j;
    }
  }

  /** Being due, said on clocks and limits. */
  lemma DueExact(cfg: Config, w: World, list: map<KernelKey, KernelEntry>, vid: int, v: Visit)
    requires vid in cfg.vservers && Sid(vid, v.id) in w.members
    requires KeyOf(cfg, Sid(vid, v.id)) == KernelKey(vid, cfg.vservers[vid].first + v.id)
    ensures var s, k := Sid(vid, v.id), KernelKey(vid, cfg.vservers[vid].first + v.id);
            Due(cfg, w, list, vid, v) <==>
            && k in list
            && (v.now - list[k].stamp > cfg.vservers[vid].idle
                || (w.members[s].timeout != 0 && w.members[s].timeout < v.now))
  {
    hide KeyOf;
  }

  lemma WithoutMembers(cfg: Config, w: World, w1: World, gone: set<Sid>)
    requires Without(cfg, w, w1, gone)
    ensures w1.members == w.members - gone
  {
    hide KeysOf, RowsOf, PairsOf;
  }

  lemma GoneMembers(cfg: Config, w: World, w1: World, gone: set<Sid>)
    requires Without(cfg, w, w1, gone) && gone <= w.members.Keys
    ensures w.members.Keys - w1.members.Keys == gone
  {
    hide KeysOf, RowsOf, PairsOf;
  }

  lemma PlacedKey(cfg: Config, w: World, s: Sid)
    requires ValidConfig(cfg) && Inv(cfg, w) && s in w.members
    ensures s.vid in cfg.vservers && KeyOf(cfg, s) == KernelKey(s.vid, cfg.vservers[s.vid].first + s.id)
  {
    PlacedAt(cfg, w, s);
    PlacedAddr(cfg, s);
  }

  lemma PlacedAt(cfg: Config, w: World, s: Sid)
    requires Inv(cfg, w) && s in w.members
    ensures Known(cfg, s)
  {
    hide CoreInv, Known;
    PlacedOf(cfg, w);
    hide Inv, MembersInKernel, KernelIsMembers;
  }

  lemma PlacedAddr(cfg: Config, s: Sid)
    requires ValidConfig(cfg) && Known(cfg, s)
    ensures KeyOf(cfg, s) == KernelKey(s.vid, cfg.vservers[s.vid].first + s.id)
  {
    var v := cfg.vservers[s.vid];
    assert (v.first + s.id) % IP_SPACE == v.first + s.id;
  }

  lemma NoneDue(cfg: Config, w: World, list: map<KernelKey, KernelEntry>, vid: int)
    ensures DueSids(cfg, w, list, vid, []) == {}
  {
  }

  lemma OnceTail(visits: seq<Visit>)
    requires VisitedOnce(visits) && visits != []
    ensures VisitedOnce(visits[1..])
  {
  }

  lemma DueMember(cfg: Config, w: World, list: map<KernelKey, KernelEntry>, vid: int, v: Visit)
    requires Due(cfg, w, list, vid, v)
    ensures Sid(vid, v.id) in w.members
  {
  }

  lemma StoppedMembers(cfg: Config, w: World, w1: World, s: Sid, removed: bool)
    requires s in w.members && Stopped(cfg, w, w1, s, removed)
    ensures w1.members == w.members - {s}
  {
  }
}
