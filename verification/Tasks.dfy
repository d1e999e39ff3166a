/** The task list: registration by priority, and the order in which start and stop walk it. */
module Tasks {

  datatype Task = Iptables | Memset | Ipset | ServiceClass | Bandwidth | Dbset

  function Prio(t: Task): nat {
    match t
    case Iptables => 50
    case Memset => 40
    case Ipset => 30
    case ServiceClass => 25
    case Bandwidth => 20
    case Dbset => 10
  }

  ghost predicate Descending(list: seq<Task>) {
    forall i, j :: 0 <= i < j < |list| ==> Prio(list[i]) > Prio(list[j])
  }

  /** The position in front of which a task goes: the first task of no higher priority. */
  function Position(list: seq<Task>, t: Task): (k: nat)
    ensures k <= |list|
    ensures forall i :: 0 <= i < k ==> Prio(list[i]) > Prio(t)
    ensures k < |list| ==> Prio(t) >= Prio(list[k])
  {
    if list == [] || Prio(t) >= Prio(list[0]) then 0 else 1 + Position(list[1..], t)
  }

  function Register(list: seq<Task>, t: Task): seq<Task> {
    if t in list then list else list[..Position(list, t)] + [t] + list[Position(list, t)..]
  }

  lemma RegisterDescending(list: seq<Task>, t: Task)
    requires Descending(list)
    ensures Descending(Register(list, t))
    ensures forall u :: u in Register(list, t) <==> u in list || u == t
  {
    var k := Position(list, t);
    if t !in list {
      assert list == list[..k] + list[k..];
      if k < |list| {
        PrioInjective(list[k], t);
      }
      InsertDescending(list, t, k);
    }
  }

  lemma PrioInjective(t: Task, u: Task)
    ensures Prio(t) == Prio(u) ==> t == u
  {
  }

  lemma InsertDescending(list: seq<Task>, t: Task, k: nat)
    requires Descending(list) && k <= |list|
    requires forall i :: 0 <= i < k ==> Prio(list[i]) > Prio(t)
    requires k < |list| ==> Prio(t) > Prio(list[k])
    ensures Descending(list[..k] + [t] + list[k..])
  {
    hide Prio;
    var r := list[..k] + [t] + list[k..];
    forall i, j | 0 <= i < j < |r|
      ensures Prio(r[i]) > Prio(r[j])
    {
      assert r[i] == if i < k then list[i] else if i == k then t else list[i - 1];
      assert r[j] == if j < k then list[j] else if j == k then t else list[j - 1];
    }
  }

  /** The task list of the main server. */
  class TaskList {
    var tasks: seq<Task>

    constructor ()
      ensures tasks == []
    {
      tasks := [];
    }

    /** task_register. */
    method Add(t: Task)
      modifies this
      ensures tasks == Register(old(tasks), t)
    {
      if t in tasks {
        return;
      }
      if tasks == [] {
        tasks := [t];
        return;
      }
      var k := 0;
      while k < |tasks|
        invariant k <= |tasks|
        invariant forall i :: 0 <= i < k ==> Prio(tasks[i]) > Prio(t)
      {
        if Prio(t) >= Prio(tasks[k]) {
          break;
        }
        k := k + 1;
      }
      PositionIs(tasks, t, k);
      tasks := tasks[..k] + [t] + tasks[k..];
    }

    /** rh_task_register: the tasks of a configuration with or without service classes and
        bandwidth shaping. */
    method RegisterAll(classing: bool, shaping: bool)
      requires tasks == []
      modifies this
      ensures tasks == Pipeline(classing, shaping)
    {
      Add(Iptables);
      Add(Memset);
      Add(Ipset);
      if classing {
        Add(ServiceClass);
      }
      if shaping {
        Add(Bandwidth);
      }
      Add(Dbset);
      PipelineRegistered(classing, shaping);
    }
  }

  lemma PositionIs(list: seq<Task>, t: Task, k: nat)
    requires k <= |list|
    requires forall i :: 0 <= i < k ==> Prio(list[i]) > Prio(t)
    requires k < |list| ==> Prio(t) >= Prio(list[k])
    ensures Position(list, t) == k
  {
    var p := Position(list, t);
    var atP := if p < |list| then Prio(list[p]) else 0;
    var atK := if k < |list| then Prio(list[k]) else 0;
  }

  /** The list that registration builds. */
  function Pipeline(classing: bool, shaping: bool): seq<Task> {
    [Iptables, Memset, Ipset] + (if classing then [ServiceClass] else []) +
    (if shaping then [Bandwidth] else []) + [Dbset]
  }

  lemma RegisterLast(list: seq<Task>, t: Task)
    requires t !in list && forall u :: u in list ==> Prio(u) > Prio(t)
    ensures Register(list, t) == list + [t]
  {
    PositionIs(list, t, |list|);
  }

  lemma PipelineRegistered(classing: bool, shaping: bool)
    ensures var a := Register(Register(Register([], Iptables), Memset), Ipset);
            var b := if classing then Register(a, ServiceClass) else a;
            var c := if shaping then Register(b, Bandwidth) else b;
            Register(c, Dbset) == Pipeline(classing, shaping)
  {
    hide Register;
    RegisterLast([], Iptables);
    assert [] + [Iptables] == [Iptables];
    RegisterLast([Iptables], Memset);
    RegisterLast([Iptables, Memset], Ipset);
    var a := [Iptables, Memset, Ipset];
    RegisterLast(a, ServiceClass);
    var b := a + if classing then [ServiceClass] else [];
    RegisterLast(b, Bandwidth);
    var c := b + if shaping then [Bandwidth] else [];
    RegisterLast(c, Dbset);
    assert [Iptables] + [Memset] == [Iptables, Memset] && [Iptables, Memset] + [Ipset] == a;
    assert b == if classing then a + [ServiceClass] else a;
    assert c == if shaping then b + [Bandwidth] else b;
    assert Pipeline(classing, shaping) == c + [Dbset];
  }
}
