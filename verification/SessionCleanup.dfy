/** The clean-up of a virtual server: its sessions are stopped one after another. */
module SessionCleanup {
  import opened Sessions
  import opened SessionInv
  import opened SessionRuns
  import opened SessionPoll

  /** set_cleanup: every member in turn, whatever its state. */
  function StopEach(cfg: Config, w: World, vid: int, visits: seq<Visit>): World
    decreases |visits|
  {
    if visits == [] then w
    else StopEach(cfg, StopSess(cfg, w, Sid(vid, visits[0].id), visits[0].removed), vid, visits[1..])
  }

  function Visited(vid: int, visits: seq<Visit>): set<Sid> {
    set v | v in visits :: Sid(vid, v.id)
  }

  /** The visits are the members of the virtual server. */
  ghost predicate VisitsAll(w: World, vid: int, visits: seq<Visit>) {
    VisitedOnce(visits) && forall s: Sid :: s.vid == vid ==> (s in w.members <==> s in Visited(vid, visits))
  }

  lemma SidsFirst(vid: int, visits: seq<Visit>)
    requires visits != [] && VisitedOnce(visits)
    ensures var s := Sid(vid, visits[0].id);
            Visited(vid, visits) == {s} + Visited(vid, visits[1..]) && s !in Visited(vid, visits[1..])
  {
    var v, rest := visits[0], visits[1..];
    assert visits == [v] + rest && v in visits;
    forall u | u in rest ensures u.id != v.id {
      var j :| 0 <= j < |rest| && rest[j] == u;
      assert visits[j + 1] == u;
    }
    assert Visited(vid, visits) == {Sid(vid, v.id)} + Visited(vid, rest);
  }

  /** All visited sessions leave every store, and nothing else does. */
  lemma {:induction false} EachStopped(cfg: Config, w: World, vid: int, visits: seq<Visit>)
    requires ValidConfig(cfg) && Inv(cfg, w) && VisitedOnce(visits) && Visited(vid, visits) <= w.members.Keys
    ensures Inv(cfg, StopEach(cfg, w, vid, visits))
    ensures Without(cfg, w, StopEach(cfg, w, vid, visits), Visited(vid, visits))
    decreases |visits|
  {
    hide ValidConfig, Inv, Without, StopSess, Stopped, VisitedOnce, Visited;
    if visits == [] {
      NoSids(vid);
      WithoutNone(cfg, w);
    } else {
      var v, rest := visits[0], visits[1..];
      var s := Sid(vid, v.id);
      SidsFirst(vid, visits);
      OnceTail(visits);
      StopKeeps(cfg, w, s, v.removed);
      var w1 := StopSess(cfg, w, s, v.removed);
      StoppedMembers(cfg, w, w1, s, v.removed);
      EachStopped(cfg, w1, vid, rest);
      WithoutMore(cfg, w, w1, StopEach(cfg, w1, vid, rest), s, Visited(vid, rest), v.removed);
    }
  }

  lemma NoSids(vid: int)
    ensures Visited(vid, []) == {}
  {
  }

  /** Nothing of the virtual server is left in any store. */
  ghost predicate Cleared(w: World, vid: int) {
    && (forall s :: s in w.members ==> s.vid != vid)
    && (forall k :: k in w.kernel ==> k.vid != vid)
    && (forall k :: k in w.db ==> k.vid != vid)
  }

  ghost predicate OthersKept(w: World, w1: World, vid: int) {
    forall s :: s in w.members && s.vid != vid ==> s in w1.members && w1.members[s] == w.members[s]
  }

  /** Cleaning a virtual server up clears it, keeps the stores in agreement, and leaves the members
      of the others alone. */
  lemma CleanupClears(cfg: Config, w: World, vid: int, visits: seq<Visit>)
    requires ValidConfig(cfg) && Inv(cfg, w) && VisitsAll(w, vid, visits)
    ensures var w1 := StopEach(cfg, w, vid, visits);
            Inv(cfg, w1) && Cleared(w1, vid) && OthersKept(w, w1, vid)
  {
    hide ValidConfig, Inv, StopEach, Cleared, Without, OthersKept, VisitsAll, Visited, VisitedOnce;
    SidsMembers(w, vid, visits);
    EachStopped(cfg, w, vid, visits);
    var w1 := StopEach(cfg, w, vid, visits);
    OthersStay(cfg, w, w1, vid, visits);
    NothingLeft(cfg, w1, vid);
  }

  lemma OthersStay(cfg: Config, w: World, w1: World, vid: int, visits: seq<Visit>)
    requires Without(cfg, w, w1, Visited(vid, visits)) && VisitsAll(w, vid, visits)
    ensures forall s :: s in w1.members ==> s.vid != vid
    ensures OthersKept(w, w1, vid)
  {
    hide KeysOf, RowsOf, PairsOf;
    assert w1.members == w.members - Visited(vid, visits);
    hide Without;
    assert forall s :: s in Visited(vid, visits) ==> s.vid == vid;
  }

  lemma SidsMembers(w: World, vid: int, visits: seq<Visit>)
    requires VisitsAll(w, vid, visits)
    ensures Visited(vid, visits) <= w.members.Keys && VisitedOnce(visits)
  {
  }

  /** Where no member is, no kernel entry and no row is either. */
  lemma NothingLeft(cfg: Config, w: World, vid: int)
    requires Inv(cfg, w) && forall s :: s in w.members ==> s.vid != vid
    ensures Cleared(w, vid)
  {
    hide Placed, MembersInKernel, ClassInv, SlotsFlagged, SlotsCounted, MembersInDb, SessionIds, Spans;
  }
}
