/** The linked queue of task nodes. */
module TaskQueues {
  import opened Options
  import opened Tasks

  class TaskNode {
    var pid: int
    var name: string
    var state: TaskState
    var queuingTime: int
    var timeQuantum: char
    var priority: char
    var msec10: int
    var next: TaskNode?

    ghost function Value(): Task
      reads this
    {
      Task(pid, name, state, queuingTime, timeQuantum, priority, msec10)
    }

    constructor (pid: int, name: string, state: TaskState, queuingTime: int, timeQuantum: char, priority: char,
                 msec10: int)
      ensures Value() == Task(pid, name, state, queuingTime, timeQuantum, priority, msec10) && next == null
    {
      this.pid, this.name, this.state := pid, name, state;
      this.queuingTime, this.timeQuantum, this.priority := queuingTime, timeQuantum, priority;
      this.msec10, this.next := msec10, null;
    }

    /** What a timer tick does to a queued task. */
    method Tick()
      modifies `queuingTime, `msec10, `state
      ensures Value() == Ticked(old(Value()))
    {
      if state != Terminated {
        queuingTime := queuingTime + 10;
        if state == Waiting && msec10 != 0 {
          msec10 := msec10 - 1;
        } else if state == Waiting && msec10 == 0 {
          state := Ready;
        }
      }
    }

    /** What a wake-up does to a queued task; `done` ends the search for a pid. */
    method Wake(name: Option<string>, pid: int) returns (done: bool)
      requires pid == 0 ==> name.Some?
      modifies `msec10, `state
      ensures Value() == if Named(old(Value()), name, pid) then Woken(old(Value())) else old(Value())
      ensures done <==> pid != 0 && Named(old(Value()), name, pid)
    {
      done := false;
      if pid == 0 {
        if this.name == name.value && state == Waiting {
          msec10 := 0;
          state := Ready;
        }
      } else if name == None {
        if this.pid == pid && state == Waiting {
          msec10 := 0;
          state := Ready;
          done := true;
        }
      }
    }
  }

  class TaskQueue {
    var front: TaskNode?
    var rear: TaskNode?

    ghost var nodes: seq<TaskNode>

    /** The node at place `i`; null beyond both ends. */
    ghost function NodeAt(i: int): TaskNode?
      reads this
    {
      if 0 <= i < |nodes| then nodes[i] else null
    }

    ghost predicate NextOk(i: int)
      reads this, nodes
    {
      0 <= i < |nodes| ==> nodes[i].next == NodeAt(i + 1)
    }

    /** From `front`, the `next` pointers run through `nodes`, each once, to `rear`, and end in null. */
    ghost predicate Valid()
      reads this, nodes
    {
      && (forall i, j :: 0 <= i < j < |nodes| ==> nodes[i] != nodes[j])
      && front == NodeAt(0)
      && rear == NodeAt(|nodes| - 1)
      && (forall i :: NextOk(i))
    }

    ghost function Contents(): (q: seq<Task>)
      reads this, nodes
      ensures |q| == |nodes|
      ensures forall i :: 0 <= i < |nodes| ==> q[i] == nodes[i].Value()
    {
      seq(|nodes|, i requires 0 <= i < |nodes| reads this, nodes => nodes[i].Value())
    }

    constructor ()
      ensures Valid() && Contents() == [] && nodes == []
    {
      front, rear := null, null;
      nodes := [];
    }

    method EnQueue(pid: int, name: string, state: TaskState, queuingTime: int, timeQuantum: char, priority: char,
                   msec10: int)
      returns (tmp: TaskNode)
      requires Valid()
      modifies this, nodes
      ensures Valid() && fresh(tmp) && rear == tmp && nodes == old(nodes) + [tmp]
      ensures tmp.Value() == Task(pid, name, state, queuingTime, timeQuantum, priority, msec10)
      ensures Contents() ==
              old(Contents()) + [Task(pid, name, state, queuingTime, timeQuantum, priority, msec10)]
    {
      tmp := new TaskNode(pid, name, state, queuingTime, timeQuantum, priority, msec10);
      if rear == null {
        front := tmp;
        rear := tmp;
      } else {
        rear.next := tmp;
        rear := tmp;
      }
      ghost var xs := nodes;
      nodes := nodes + [tmp];
      forall i
        ensures NextOk(i)
      {
        assert 0 <= i < |xs| ==> nodes[i] == xs[i] && old(NextOk(i));
      }
    }

    /** The first node from the front that is ready with priority `p`, and the node before it. */
    method Find(p: char) returns (tmp: TaskNode?, prev: TaskNode?, ghost k: nat)
      requires Valid()
      ensures k <= |nodes| && tmp == NodeAt(k) && prev == NodeAt(k - 1)
      ensures FirstFound(Contents(), p, k)
    {
      tmp, prev, k := front, null, 0;
      while tmp != null && (tmp.priority != p || tmp.state != Ready)
        invariant k <= |nodes| && tmp == NodeAt(k) && prev == NodeAt(k - 1)
        invariant forall j :: 0 <= j < k ==> !ReadyWith(Contents()[j], p)
        decreases |nodes| - k
      {
        assert NextOk(k);
        prev := tmp;
        tmp := tmp.next;
        k := k + 1;
      }
    }

    /** Takes the node at `k` out of the queue of several. */
    method Unlink(tmp: TaskNode, prev: TaskNode?, ghost k: nat)
      requires Valid() && |nodes| > 1
      requires k < |nodes| && tmp == nodes[k] && prev == NodeAt(k - 1)
      modifies this, nodes`next
      ensures Valid() && nodes == old(nodes)[..k] + old(nodes)[k + 1..]
      ensures Contents() == Without(old(Contents()), k)
      ensures tmp !in nodes && tmp.Value() == old(tmp.Value())
    {
      assert NextOk(k) && NextOk(k - 1);
      GoneFrom(nodes, k);
      if prev == null {
        front := tmp.next;
      } else if tmp == rear {
        rear := prev;
        rear.next := null;
      } else {
        prev.next := tmp.next;
      }
      nodes := nodes[..k] + nodes[k + 1..];
      Relinked(k);
      ContentsCut(k);
    }

    twostate lemma ContentsCut(k: nat)
      requires k < |old(nodes)| && nodes == old(nodes)[..k] + old(nodes)[k + 1..]
      requires forall i :: 0 <= i < |nodes| ==> var x := nodes[i]; x.Value() == old(x.Value())
      ensures Contents() == Without(old(Contents()), k)
    {
      ghost var xs, q := old(nodes), Without(old(Contents()), k);
      forall i | 0 <= i < |nodes|
        ensures Contents()[i] == q[i]
      {
        var i' := if i < k then i else i + 1;
        assert nodes[i] == xs[i'] && q[i] == old(Contents())[i'];
      }
    }

    /** The links that go round the node at `k` make a queue without it. */
    twostate lemma Relinked(k: nat)
      requires old(Valid()) && k < |old(nodes)| && |old(nodes)| > 1
      requires nodes == old(nodes)[..k] + old(nodes)[k + 1..]
      requires front == NodeAt(0) && rear == NodeAt(|nodes| - 1)
      requires forall i :: 0 <= i < |nodes| && i + 1 != k ==> var x := nodes[i]; x.next == old(x.next)
      requires 0 < k ==> nodes[k - 1].next == NodeAt(k)
      ensures Valid()
    {
      ghost var xs := old(nodes);
      forall i
        ensures NextOk(i)
      {
        if 0 <= i < |nodes| && i + 1 != k {
          var i' := if i < k then i else i + 1;
          assert old(NextOk(i')) && nodes[i] == xs[i'];
        }
      }
    }

    /** Takes the first ready task with priority `p` out of the queue; null if there is none. */
    method TakeFirst(p: char) returns (tmp: TaskNode?)
      requires Valid() && nodes != [] && (|nodes| == 1 ==> Contents()[0].state != Ready)
      modifies this, nodes`next
      ensures Valid()
      ensures FirstReady(old(Contents()), p) == None ==>
                tmp == null && nodes == old(nodes) && Contents() == old(Contents())
      ensures FirstReady(old(Contents()), p).Some? ==>
                var i := FirstReady(old(Contents()), p).value;
                && i < |old(nodes)| && tmp == old(nodes)[i]
                && tmp !in nodes && tmp.Value() == old(Contents())[i]
                && nodes == old(nodes)[..i] + old(nodes)[i + 1..]
                && Contents() == Without(old(Contents()), i)
    {
      hide FirstReady;
      var prev;
      ghost var k;
      tmp, prev, k := Find(p);
      FoundIsFirst(Contents(), p, k);
      if tmp != null {
        Unlink(tmp, prev, k);
      }
    }

    /** Takes the next task to dispatch out of the queue; null if there is none. */
    method PopNode() returns (tmp: TaskNode?)
      requires Valid()
      modifies this, nodes`next
      ensures Valid()
      ensures PopIndex(old(Contents())) == None ==>
                tmp == null && nodes == old(nodes) && Contents() == old(Contents())
      ensures PopIndex(old(Contents())).Some? ==>
                var i := PopIndex(old(Contents())).value;
                && i < |old(nodes)| && tmp == old(nodes)[i]
                && tmp !in nodes && tmp.Value() == old(Contents())[i]
                && nodes == old(nodes)[..i] + old(nodes)[i + 1..]
                && Contents() == Without(old(Contents()), i)
    {
      if front == null {
        return null;
      }
      if front == rear && front.state == Ready {
        tmp := front;
        front, rear := null, null;
        nodes := [];
        return;
      }
      hide FirstReady;
      tmp := TakeFirst('H');
      if tmp != null {
        return;
      }
      tmp := TakeFirst('L');
    }

    method HasTaskToRun() returns (b: bool)
      requires Valid()
      ensures b <==> exists i :: 0 <= i < |nodes| && (nodes[i].state == Ready || nodes[i].state == Waiting)
    {
      var tmp := front;
      ghost var k := 0;
      if front == null {
        return false;
      }
      assert NextOk(|nodes| - 1);
      while tmp != rear.next
        invariant 0 <= k <= |nodes| && tmp == NodeAt(k)
        invariant forall j :: 0 <= j < k ==> nodes[j].state != Ready && nodes[j].state != Waiting
        decreases |nodes| - k
      {
        if tmp.state == Ready || tmp.state == Waiting {
          return true;
        }
        assert NextOk(k);
        tmp := tmp.next;
        k := k + 1;
      }
      return false;
    }

    /** Edits of nodes that keep their links keep the queue. */
    twostate lemma StillValid()
      requires old(Valid()) && unchanged(this)
      requires forall i :: 0 <= i < |nodes| ==> nodes[i].next == old(nodes[i].next)
      ensures Valid()
    {
      forall i
        ensures NextOk(i)
      {
        assert old(NextOk(i));
      }
    }

    /** Sets quantum and priority of the task at the rear. */
    method SetRear(timeQuantum: char, priority: char)
      requires Valid() && nodes != []
      modifies rear`timeQuantum, rear`priority
      ensures Valid()
      ensures var q, n := old(Contents()), |nodes| - 1;
              Contents() == q[n := q[n].(timeQuantum := timeQuantum, priority := priority)]
    {
      rear.timeQuantum := timeQuantum;
      rear.priority := priority;
      StillValid();
    }

    /** The contents, node by node. */
    lemma ContentsAre(q: seq<Task>)
      requires |q| == |nodes| && forall i :: 0 <= i < |nodes| ==> nodes[i].Value() == q[i]
      ensures Contents() == q
    {
    }

    /** One timer tick for every queued task. */
    method SetQueueAndSuspendTime()
      requires Valid()
      modifies nodes`queuingTime, nodes`msec10, nodes`state
      ensures Valid() && Contents() == TickAll(old(Contents()))
    {
      if front == null {
        return;
      }
      var tmp := front;
      ghost var k, q := 0, Contents();
      assert NextOk(|nodes| - 1);
      while tmp != rear.next
        invariant 0 <= k <= |nodes| && tmp == NodeAt(k)
        invariant forall j :: 0 <= j < k ==> nodes[j].Value() == Ticked(q[j])
        invariant forall j :: k <= j < |nodes| ==> nodes[j].Value() == q[j]
        decreases |nodes| - k
      {
        assert old(NextOk(k));
        tmp.Tick();
        tmp := tmp.next;
        k := k + 1;
      }
      StillValid();
    }

    /** Wakes by name when `pid` is 0, else, without a name, the first task with that pid. */
    method WakeNode(name: Option<string>, pid: int)
      requires Valid() && (pid == 0 && front != null ==> name.Some?)
      modifies nodes`msec10, nodes`state
      ensures Valid() && Contents() == Target(old(Contents()), name, pid)
    {
      hide Target, Named, Woken, NoneDone;
      ghost var k, q := 0, Contents();
      ghost var r := Target(q, name, pid);
      TargetLength(q, name, pid);
      if front == null {
        return;
      }
      var tmp := front;
      assert NextOk(|nodes| - 1);
      while tmp != rear.next
        invariant 0 <= k <= |nodes| && tmp == NodeAt(k)
        invariant forall j :: 0 <= j < k ==> nodes[j].Value() == r[j]
        invariant forall j :: k <= j < |nodes| ==> nodes[j].Value() == q[j]
        invariant NoneDone(q, name, pid, k)
        decreases |nodes| - k
      {
        assert old(NextOk(k));
        TargetStep(q, name, pid, k);
        var done := tmp.Wake(name, pid);
        if done {
          break;
        }
        tmp := tmp.next;
        k := k + 1;
      }
      StillValid();
      ContentsAre(r);
    }
  }

  /** What a call of `WakeNode` makes of the queue. */
  ghost function Target(q: seq<Task>, name: Option<string>, pid: int): seq<Task> {
    if pid == 0 then (if name.Some? then WakeName(q, name.value) else q)
    else if name == None then WakePid(q, pid)
    else q
  }

  /** A waiting task that the call names. */
  predicate Named(t: Task, name: Option<string>, pid: int) {
    t.state == Waiting && if pid == 0 then name == Some(t.name) else name == None && t.pid == pid
  }

  /** The search for a pid has not ended before place `k`. */
  ghost predicate NoneDone(q: seq<Task>, name: Option<string>, pid: int, k: nat)
    requires k <= |q|
  {
    pid != 0 ==> forall j :: 0 <= j < k ==> !Named(q[j], name, pid)
  }

  lemma TargetLength(q: seq<Task>, name: Option<string>, pid: int)
    ensures |Target(q, name, pid)| == |q| && NoneDone(q, name, pid, 0)
  {
    WakePidAt(q, pid);
  }

  /** One step of the search: a named task is woken, and when that ends the search, all tasks behind it
      are as they were. */
  lemma TargetStep(q: seq<Task>, name: Option<string>, pid: int, k: nat)
    requires k < |q| && NoneDone(q, name, pid, k)
    ensures var r := Target(q, name, pid);
            && |r| == |q|
            && r[k] == (if Named(q[k], name, pid) then Woken(q[k]) else q[k])
            && (if pid != 0 && Named(q[k], name, pid) then forall j :: k < j < |q| ==> r[j] == q[j]
                else NoneDone(q, name, pid, k + 1))
  {
    WakePidAt(q, pid);
    if pid != 0 && name == None {
      assert IsFirstWaiting(q, pid, k) <==> Named(q[k], name, pid);
    }
  }

  lemma GoneFrom(xs: seq<TaskNode>, k: nat)
    requires k < |xs| && forall i, j :: 0 <= i < j < |xs| ==> xs[i] != xs[j]
    ensures xs[k] !in xs[..k] + xs[k + 1..]
  {
    var ys := xs[..k] + xs[k + 1..];
    assert forall i :: 0 <= i < |ys| ==> ys[i] == xs[if i < k then i else i + 1];
  }

  /** A search has come to `k`: the first ready task with priority `p`, or the end. */
  ghost predicate FirstFound(q: seq<Task>, p: char, k: nat) {
    && k <= |q|
    && (forall j :: 0 <= j < k ==> !ReadyWith(q[j], p))
    && (k < |q| ==> ReadyWith(q[k], p))
  }

  lemma FoundIsFirst(q: seq<Task>, p: char, k: nat)
    requires FirstFound(q, p, k)
    ensures FirstReady(q, p) == if k < |q| then Some(k) else None
  {
    FirstReadyIs(q, p);
  }
}
