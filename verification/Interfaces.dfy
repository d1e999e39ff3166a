/** The interfaces that virtual servers shape: reference counts and the mask of reserved ifb
    numbers. */
module Interfaces {
  import opened Options

  const MAX_IFB: nat := 64
  /** The ifb numbers whose bit the mask can hold alone. */
  const SAFE_IFBS: nat := 31

  datatype Iface = Iface(dev: string, ifb: nat, hit: int)

  /** Names are compared over the length of the searched one only. */
  predicate Hits(i: Iface, name: string) {
    name <= i.dev
  }

  /** The bits of the int 1 << i once it is widened: the sign bit fills the upper half, and shift
      counts wrap at 32. */
  function MaskOf(i: nat): set<nat> {
    if i % 32 == 31 then set b | 0 <= b < MAX_IFB && SignFilled(b) else {i % 32}
  }

  predicate SignFilled(b: nat) {
    b >= 31
  }

  // ---------- the operations as functions ----------

  datatype Shaped = Shaped(list: seq<Iface>, reserved: set<nat>)

  /** ifb_interface_reserve from number i on: the number and the new mask. */
  function ReserveFrom(reserved: set<nat>, i: nat): (Option<nat>, set<nat>)
    decreases MAX_IFB - i
  {
    if i >= MAX_IFB then (None, reserved)
    else if MaskOf(i) !! reserved then (Some(i), reserved + MaskOf(i))
    else ReserveFrom(reserved, i + 1)
  }

  /** The first interface that a name hits, or the length of the list. */
  function First(list: seq<Iface>, name: string): (k: nat)
    ensures k <= |list|
    ensures k < |list| ==> Hits(list[k], name)
    ensures forall i :: 0 <= i < k ==> !Hits(list[i], name)
  {
    if list == [] || Hits(list[0], name) then 0 else 1 + First(list[1..], name)
  }

  function Append(s: Shaped, name: string): Shaped {
    var k := First(s.list, name);
    if k < |s.list| then s.(list := s.list[k := s.list[k].(hit := s.list[k].hit + 1)])
    else
      match ReserveFrom(s.reserved, 0)
      case (None, _) => s
      case (Some(i), mask) => Shaped(s.list + [Iface(name, i, 1)], mask)
  }

  /** The interface that a removal frees, or the length of the list: the first hit whose count
      reaches zero. */
  function Freed(list: seq<Iface>, name: string): (p: nat)
    ensures p <= |list|
    ensures p < |list| ==> Hits(list[p], name) && list[p].hit <= 1
    ensures forall i :: 0 <= i < p ==> !Hits(list[i], name) || list[i].hit > 1
  {
    if list == [] || (Hits(list[0], name) && list[0].hit <= 1) then 0 else 1 + Freed(list[1..], name)
  }

  function Counted(i: Iface, name: string): Iface {
    if Hits(i, name) then i.(hit := i.hit - 1) else i
  }

  function CountDown(list: seq<Iface>, name: string): seq<Iface> {
    seq(|list|, i requires 0 <= i < |list| => Counted(list[i], name))
  }

  /** Every interface hit in front of the freed one counts down; what is behind stays. */
  function Remove(s: Shaped, name: string): Shaped {
    var p := Freed(s.list, name);
    if p == |s.list| then s.(list := CountDown(s.list, name))
    else Shaped(CountDown(s.list[..p], name) + s.list[p + 1..], s.reserved - {s.list[p].ifb})
  }

  lemma FreedIs(list: seq<Iface>, name: string, p: nat)
    requires p <= |list| && (p < |list| ==> Hits(list[p], name) && list[p].hit <= 1)
    requires forall i :: 0 <= i < p ==> !Hits(list[i], name) || list[i].hit > 1
    ensures Freed(list, name) == p
  {
  }

  lemma FrontCounted(first: seq<Iface>, name: string, k: nat, list: seq<Iface>)
    requires k < |first| == |list|
    requires forall i :: 0 <= i < |first| && i != k ==> list[i] == if i < k then Counted(first[i], name) else first[i]
    ensures list[..k] == CountDown(first[..k], name) && list[k + 1..] == first[k + 1..]
  {
    hide Counted;
  }

  // ---------- the running table ----------

  class InterfaceTable {
    var list: seq<Iface>
    var reserved: set<nat>

    function State(): Shaped
      reads this
    {
      Shaped(list, reserved)
    }

    constructor ()
      ensures State() == Shaped([], {})
    {
      list, reserved := [], {};
    }

    /** ifb_interface_reserve. */
    method Reserve() returns (ifno: Option<nat>)
      modifies `reserved
      ensures (ifno, reserved) == ReserveFrom(old(reserved), 0)
    {
      hide MaskOf;
      var i := 0;
      while i < MAX_IFB
        invariant i <= MAX_IFB && reserved == old(reserved)
        invariant ReserveFrom(reserved, 0) == ReserveFrom(reserved, i)
      {
        if MaskOf(i) !! reserved {
          reserved := reserved + MaskOf(i);
          return Some(i);
        }
        i := i + 1;
      }
      return None;
    }

    /** append_interface. */
    method AppendInterface(name: string)
      modifies this
      ensures State() == Append(old(State()), name)
    {
      var runner := 0;
      while runner < |list|
        invariant runner <= |list| && list == old(list) && reserved == old(reserved)
        invariant First(list, name) == runner + First(list[runner..], name)
      {
        assert list[runner..][1..] == list[runner + 1..];
        if Hits(list[runner], name) {
          list := list[runner := list[runner].(hit := list[runner].hit + 1)];
          return;
        }
        runner := runner + 1;
      }
      var ifno := Reserve();
      if ifno == None {
        ReserveNone(old(reserved), 0);
        return;
      }
      list := list + [Iface(name, ifno.value, 1)];
    }

    /** Releases the ifb of an interface and takes its link out of the list. */
    method Delete(k: nat)
      requires k < |list|
      modifies this
      ensures list == old(list)[..k] + old(list)[k + 1..]
      ensures reserved == old(reserved) - {old(list)[k].ifb}
    {
      reserved := reserved - {list[k].ifb};
      list := list[..k] + list[k + 1..];
    }

    /** remove_interface: after a count that stays above zero the walk goes on. */
    method RemoveInterface(name: string)
      modifies this
      ensures State() == Remove(old(State()), name)
    {
      hide Hits, Freed;
      ghost var first := list;
      var runner := 0;
      while runner < |list|
        invariant runner <= |list| == |first| && reserved == old(reserved)
        invariant forall i :: 0 <= i < |first| ==> list[i] == if i < runner then Counted(first[i], name) else first[i]
        invariant forall i :: 0 <= i < runner ==> !Hits(first[i], name) || first[i].hit > 1
      {
        var iface := list[runner];
        if Hits(iface, name) {
          list := list[runner := iface.(hit := iface.hit - 1)];
          if list[runner].hit <= 0 {
            FreedIs(first, name, runner);
            FrontCounted(first, name, runner, list);
            Delete(runner);
            return;
          }
        }
        runner := runner + 1;
      }
      FreedIs(first, name, runner);
      assert list == CountDown(first, name);
    }

    /** get_interface. */
    method GetInterface(name: string) returns (k: nat)
      ensures k == First(list, name)
    {
      k := 0;
      while k < |list|
        invariant k <= |list| && First(list, name) == k + First(list[k..], name)
      {
        assert list[k..][1..] == list[k + 1..];
        if Hits(list[k], name) {
          return;
        }
        k := k + 1;
      }
    }
  }

  lemma {:induction false} ReserveNone(reserved: set<nat>, i: nat)
    requires ReserveFrom(reserved, i).0 == None
    ensures ReserveFrom(reserved, i).1 == reserved
    decreases MAX_IFB - i
  {
    hide MaskOf;
    if i < MAX_IFB && !(MaskOf(i) !! reserved) {
      ReserveNone(reserved, i + 1);
    }
  }
}
