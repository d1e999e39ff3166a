/** The bandwidth slots: the flag words and the count in memory, and what becomes of them when
    flags are never cleared. */
module Slots {
  import opened Options
  import opened Tasks
  import opened Sessions
  import opened SessionInv
  import opened SessionRuns
  import opened SessionSafety
  import opened SessionSlots
  import opened Counting

  const PAGE_SIZE: nat := 16
  const MAX_SLOT_PAGE: nat := 619
  const RANDOM_SPACE: nat := 0x8000_0000
  /** (RAND_MAX + 1) / (MAX_SLOT_ID + 1), in integers. */
  const DIVISOR: nat := 216895
  /** The class ids that the bandwidth script keeps for itself. */
  const RESERVED_IDS := {9998, 9999}

  function SlotOfDraw(r: nat): nat {
    r / DIVISOR
  }

  /** Whatever random() returns, the slot lies in the flag array and below the reserved ids. */
  lemma DrawInRange(r: nat)
    requires r < RANDOM_SPACE
    ensures DIVISOR == RANDOM_SPACE / (MAX_SLOT_ID + 1)
    ensures SlotOfDraw(r) <= LAST_SLOT
    ensures SlotOfDraw(r) / PAGE_SIZE <= 618 < MAX_SLOT_PAGE
    ensures forall x :: x in RESERVED_IDS ==> SlotOfDraw(r) < x
  {
  }

  /** 1 << k in a flag word. */
  function Bit(k: nat): bv16
    requires k < PAGE_SIZE
  {
    if k == 0 then 0x1 else if k == 1 then 0x2 else if k == 2 then 0x4 else if k == 3 then 0x8
    else if k == 4 then 0x10 else if k == 5 then 0x20 else if k == 6 then 0x40 else if k == 7 then 0x80
    else if k == 8 then 0x100 else if k == 9 then 0x200 else if k == 10 then 0x400 else if k == 11 then 0x800
    else if k == 12 then 0x1000 else if k == 13 then 0x2000 else if k == 14 then 0x4000 else 0x8000
  }

  predicate HasBit(x: bv16, k: nat)
    requires k < PAGE_SIZE
  {
    x & Bit(k) != 0
  }

  lemma SetBit(x: bv16, j: nat, k: nat)
    requires j < PAGE_SIZE && k < PAGE_SIZE
    ensures HasBit(x | Bit(j), k) <==> HasBit(x, k) || k == j
  {
    hide Bit, HasBit;
    BitInWord(x, j, k);
    HasBitIs(x, k);
    HasBitIs(x | Bit(j), k);
  }

  lemma BitInWord(x: bv16, j: nat, k: nat)
    requires j < PAGE_SIZE && k < PAGE_SIZE
    ensures (x | Bit(j)) & Bit(k) != 0 <==> x & Bit(k) != 0 || k == j
  {
  }

  lemma HasBitIs(x: bv16, k: nat)
    requires k < PAGE_SIZE
    ensures HasBit(x, k) <==> x & Bit(k) != 0
  {
    hide Bit;
  }

  /** The first draw whose slot is not flagged. */
  function FirstFree(draws: seq<nat>, flagged: set<nat>): Option<nat> {
    if draws == [] then None
    else if SlotOfDraw(draws[0]) !in flagged then Some(SlotOfDraw(draws[0]))
    else FirstFree(draws[1..], flagged)
  }

  /** The slot found is granted; none is found exactly when every draw hits a flagged slot. */
  lemma {:induction false} FirstFreeGranted(draws: seq<nat>, w: World)
    requires 0 in w.flags && w.count < MAX_SLOT_ID && forall r :: r in draws ==> r < RANDOM_SPACE
    ensures FirstFree(draws, w.flags) == None <==> forall r :: r in draws ==> SlotOfDraw(r) in w.flags
    ensures FirstFree(draws, w.flags).Some? ==> Grants(w, FirstFree(draws, w.flags).value)
  {
    if draws != [] {
      assert draws[0] in draws && draws == [draws[0]] + draws[1..] && forall r :: r in draws[1..] ==> r in draws;
      DrawInRange(draws[0]);
      FirstFreeGranted(draws[1..], w);
    }
  }

  /** It is the slot of the first draw whose slot, 1 / 216895 of it, is not flagged. */
  lemma {:induction false} FirstFreeExact(draws: seq<nat>, flagged: set<nat>, k: nat)
    requires k < |draws| && draws[k] / 216895 !in flagged
    requires forall i :: 0 <= i < k ==> draws[i] / 216895 in flagged
    ensures FirstFree(draws, flagged) == Some(draws[k] / 216895)
  {
    if k > 0 {
      assert SlotOfDraw(draws[0]) == draws[0] / 216895;
      FirstFreeExact(draws[1..], flagged, k - 1);
    }
  }

  // ---------- when the search for a slot can end ----------

  /** Some random number hits a slot that is not flagged. */
  ghost predicate Drawable(flags: set<nat>) {
    exists r: nat :: r < RANDOM_SPACE && SlotOfDraw(r) !in flags
  }

  /** A random number can hit an unflagged slot exactly when a slot from 1 to 9901 is not flagged. */
  lemma DrawableExact(flags: set<nat>)
    requires 0 in flags
    ensures Drawable(flags) <==> exists f: nat :: 1 <= f <= LAST_SLOT && f !in flags
  {
    if Drawable(flags) {
      var r: nat :| r < RANDOM_SPACE && SlotOfDraw(r) !in flags;
      DrawInRange(r);
      assert 1 <= SlotOfDraw(r) <= LAST_SLOT;
    }
    if f: nat :| 1 <= f <= LAST_SLOT && f !in flags {
      DrawOf(f);
    }
  }

  lemma DrawOf(f: nat)
    requires f <= LAST_SLOT
    ensures f * DIVISOR < RANDOM_SPACE && SlotOfDraw(f * DIVISOR) == f
  {
  }

  /** The search of _get_slot_id can end exactly when the count is saturated or a slot from 1 to
      9901 is not flagged. */
  lemma SearchEnds(w: World)
    requires 0 in w.flags
    ensures (exists slot :: Grants(w, slot)) <==> w.count >= MAX_SLOT_ID || Drawable(w.flags)
  {
    DrawableExact(w.flags);
    if w.count >= MAX_SLOT_ID {
      assert Grants(w, 0);
    } else if f: nat :| 1 <= f <= LAST_SLOT && f !in w.flags {
      assert Grants(w, f);
    }
  }

  /** In every run from a fresh process, a slot can still be drawn exactly when fewer than 9901
      different slots have been granted since the process started. */
  lemma RunDrawable(cfg: Config, w: World, steps: seq<Step>)
    requires ValidConfig(cfg) && Inv(cfg, w) && RunOk(cfg, w, steps) && w.flags == {0}
    ensures Drawable(Run(cfg, w, steps).flags) <==> |GrantedSinceBoot(cfg, w, steps, {})| < LAST_SLOT
  {
    hide ValidConfig, Inv, RunOk, Run, GrantedSinceBoot, Drawable, Numbers;
    var granted := GrantedSinceBoot(cfg, w, steps, {});
    RunFlags(cfg, w, steps, {});
    RunKeeps(cfg, w, steps);
    ZeroFlagged(cfg, Run(cfg, w, steps));
    DrawableExact(Run(cfg, w, steps).flags);
    AllGranted(granted);
  }

  lemma AllGranted(granted: set<nat>)
    requires forall f :: f in granted ==> 1 <= f <= LAST_SLOT
    ensures |granted| < LAST_SLOT <==> exists f: nat :: 1 <= f <= LAST_SLOT && f !in granted
  {
    hide Numbers;
    var slots := Numbers(LAST_SLOT + 1) - {0};
    assert |slots| == LAST_SLOT by { assert Numbers(LAST_SLOT + 1) == slots + {0}; }
    SubsetFull(granted, slots);
  }

  /** The static flag words and slot count of the daemon. */
  class SlotTable {
    const flags: array<bv16>
    var count: nat

    ghost predicate Valid()
      reads this
    {
      flags.Length == MAX_SLOT_PAGE && count < SHORT_SPACE
    }

    ghost predicate IsFlagged(slot: nat)
      requires Valid() && slot < MAX_SLOT_PAGE * PAGE_SIZE
      reads this, flags
    {
      HasBit(flags[slot / PAGE_SIZE], slot % PAGE_SIZE)
    }

    /** The flagged slots. */
    ghost function Flagged(): set<nat>
      requires Valid()
      reads this, flags
    {
      set f: nat | f < MAX_SLOT_PAGE * PAGE_SIZE && IsFlagged(f)
    }

    constructor ()
      ensures Valid() && fresh(flags) && Flagged() == {0} && count == 0
    {
      flags := new bv16[MAX_SLOT_PAGE](k => if k == 0 then 1 else 0);
      count := 0;
      new;
      forall f: nat | f < MAX_SLOT_PAGE * PAGE_SIZE
        ensures IsFlagged(f) <==> f == 0
      {
        BitOfOne(f % PAGE_SIZE);
      }
    }

    /** _get_slot_id, on a stream of random numbers: 0 at once when the count is saturated, else
        the first draw that hits an unflagged slot; None while no draw has. */
    method GetSlotId(draws: seq<nat>) returns (slot: Option<nat>)
      requires Valid() && forall r :: r in draws ==> r < RANDOM_SPACE
      ensures count >= MAX_SLOT_ID ==> slot == Some(0)
      ensures count < MAX_SLOT_ID ==> slot == FirstFree(draws, Flagged())
    {
      if count >= MAX_SLOT_ID {
        return Some(0);
      }
      slot := None;
      var k := 0;
      while slot == None && k < |draws|
        invariant 0 <= k <= |draws|
        invariant FirstFree(draws, Flagged()) == if slot == None then FirstFree(draws[k..], Flagged()) else slot
        decreases |draws| - k
      {
        assert draws[k] in draws && draws[k..][1..] == draws[k + 1..];
        DrawInRange(draws[k]);
        var id := SlotOfDraw(draws[k]);
        var page, idOnPage := id / PAGE_SIZE, id % PAGE_SIZE;
        FlaggedIs(id);
        hide HasBit, Bit, Flagged, SlotOfDraw;
        if !HasBit(flags[page], idOnPage) {
          slot := Some(id);
        }
        k := k + 1;
      }
    }

    lemma FlaggedIs(slot: nat)
      requires Valid() && slot < MAX_SLOT_PAGE * PAGE_SIZE
      ensures slot in Flagged() <==> HasBit(flags[slot / PAGE_SIZE], slot % PAGE_SIZE)
    {
      hide HasBit;
    }

    /** mark_reserved_slot_id. */
    method MarkReserved(slot: nat)
      requires Valid() && slot <= LAST_SLOT
      modifies this`count, flags
      ensures Valid()
      ensures Flagged() == old(Flagged()) + {slot}
      ensures count == (old(count) + 1) % SHORT_SPACE
    {
      var page, idOnPage := slot / PAGE_SIZE, slot % PAGE_SIZE;
      count := (count + 1) % SHORT_SPACE;
      flags[page] := flags[page] | Bit(idOnPage);
      forall f: nat | f < MAX_SLOT_PAGE * PAGE_SIZE
        ensures IsFlagged(f) <==> old(IsFlagged(f)) || f == slot
      {
        if f / PAGE_SIZE == page { SetBit(old(flags[page]), idOnPage, f % PAGE_SIZE); }
      }
    }

    /** The bookkeeping of stopsess: the count goes down, the flag stays. */
    method Return()
      requires Valid()
      modifies this`count
      ensures Valid()
      ensures Flagged() == old(Flagged())
      ensures count == if old(count) > 0 then old(count) - 1 else 0
    {
      if count > 0 {
        count := count - 1;
      }
    }
  }

  lemma BitOfOne(k: nat)
    requires k < PAGE_SIZE
    ensures HasBit(1, k) <==> k == 0
    ensures !HasBit(0, k)
  {
  }

  // ---------- flags are never cleared ----------

  /** n times the same client comes and goes, drawing slots 1 to n. */
  function Cycles(cfg: Config, w: World, s: Sid, req: Req, now: int, n: nat): World {
    if n == 0 then w
    else
      var before := Cycles(cfg, w, s, req, now, n - 1);
      StopSess(cfg, StartSess(cfg, before, s, req, Env(now, [], Some(n))), s, true)
  }

  /** After n such visits nobody is online and the count is back where it was, but the slots 1 to
      n stay flagged. */
  lemma {:induction false} CyclesEffect(cfg: Config, w: World, s: Sid, req: Req, now: int, n: nat)
    requires ValidConfig(cfg) && Inv(cfg, w) && Known(cfg, s) && s !in w.members && NewSession(w, s.vid, req)
    requires Bandwidth in cfg.tasks && (req.down != 0 || req.up != 0) && (req.start != 0 || now != 0)
    requires w.flags == {0} && w.count == 0 && n <= LAST_SLOT
    ensures CycledTo(cfg, w, Cycles(cfg, w, s, req, now, n), n)
  {
    hide ValidConfig, Inv, Known, NewSession, StartSess, StopSess, Started, Stopped, CycledTo;
    if n == 0 {
      CycledNone(cfg, w);
    } else {
      var before := Cycles(cfg, w, s, req, now, n - 1);
      CyclesEffect(cfg, w, s, req, now, n - 1);
      var env := Env(now, [], Some(n));
      CycleReady(cfg, w, before, s, req, n);
      StartKeeps(cfg, before, s, req, env);
      var mid := StartSess(cfg, before, s, req, env);
      MemberStarted(cfg, before, mid, s, Stamped(req, env), env);
      StopKeeps(cfg, mid, s, true);
      StartThenStop(cfg, before, s, req, env, true);
      OneCycle(cfg, w, before, mid, StopSess(cfg, mid, s, true), s, Stamped(req, env), env, n);
    }
  }

  /** The stores of w, nobody new online, the slots up to n flagged, the count zero. */
  ghost predicate CycledTo(cfg: Config, w: World, w1: World, n: nat) {
    && Inv(cfg, w1) && w1.members == w.members && w1.kernel == w.kernel && w1.sc == w.sc && w1.db == w.db
    && w1.count == 0 && (forall f: nat :: f in w1.flags <==> f <= n)
  }

  lemma CycledNone(cfg: Config, w: World)
    requires Inv(cfg, w) && w.flags == {0} && w.count == 0
    ensures CycledTo(cfg, w, w, 0)
  {
    hide Inv;
  }

  lemma CycleReady(cfg: Config, w: World, before: World, s: Sid, req: Req, n: nat)
    requires 0 < n <= LAST_SLOT && CycledTo(cfg, w, before, n - 1) && NewSession(w, s.vid, req) && s !in w.members
    ensures Inv(cfg, before) && s !in before.members && NewSession(before, s.vid, req) && Grants(before, n)
  {
    hide Inv;
  }

  lemma MemberStarted(cfg: Config, w: World, w1: World, s: Sid, req: Req, env: Env)
    requires Started(cfg, w, w1, s, req, env)
    ensures s in w1.members
  {
    hide ClassGiven, SlotGiven, Addr;
  }

  lemma OneCycle(cfg: Config, w: World, before: World, mid: World, after: World, s: Sid, req: Req, env: Env, n: nat)
    requires 0 < n && CycledTo(cfg, w, before, n - 1) && Grants(before, n) && env.slot == Some(n)
    requires Bandwidth in cfg.tasks && (req.down != 0 || req.up != 0)
    requires Started(cfg, before, mid, s, req, env) && Stopped(cfg, mid, after, s, true) && Inv(cfg, after)
    requires after.members == before.members && after.kernel == before.kernel && after.sc == before.sc
             && after.db == before.db
    ensures CycledTo(cfg, w, after, n)
  {
    hide Inv, ClassGiven, Addr;
  }

  /** So a reachable state, with nobody online and a count of zero, has every slot flagged: the
      loop that looks for an unflagged slot then never ends, whatever random() returns. */
  lemma SlotsExhausted(cfg: Config, w: World, s: Sid, req: Req, now: int)
    requires ValidConfig(cfg) && Inv(cfg, w) && Known(cfg, s) && s !in w.members && NewSession(w, s.vid, req)
    requires Bandwidth in cfg.tasks && (req.down != 0 || req.up != 0) && (req.start != 0 || now != 0)
    requires w.flags == {0} && w.count == 0
    ensures var w1 := Cycles(cfg, w, s, req, now, LAST_SLOT);
            && Inv(cfg, w1) && w1.members == w.members && w1.count == 0
            && (forall r: nat :: r < RANDOM_SPACE ==> SlotOfDraw(r) in w1.flags)
            && forall slot :: !Grants(w1, slot)
  {
    hide Inv;
    CyclesEffect(cfg, w, s, req, now, LAST_SLOT);
  }
}
