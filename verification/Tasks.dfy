/** Tasks, the queue as a sequence of them, and what the queue operations do to it. */
module Tasks {
  import opened Options

  datatype TaskState = Running | Ready | Waiting | Terminated

  datatype Task = Task(pid: int, name: string, state: TaskState, queuingTime: int, timeQuantum: char,
                       priority: char, msec10: int)

  // ---------------------------------------------------------------- dispatch

  predicate ReadyWith(t: Task, priority: char) {
    t.priority == priority && t.state == Ready
  }

  /** The place of the first ready task of a priority. */
  function FirstReady(q: seq<Task>, priority: char): Option<nat> {
    if q == [] then None
    else if ReadyWith(q[0], priority) then Some(0)
    else
      match FirstReady(q[1..], priority)
      case Some(i) => Some(i + 1)
      case None => None
  }

  /** The place of the task that is dispatched next: the only task if it is ready, whatever its
      priority; else the first ready 'H' task; else the first ready 'L' task. */
  function PopIndex(q: seq<Task>): Option<nat> {
    if |q| == 1 && q[0].state == Ready then Some(0)
    else if FirstReady(q, 'H').Some? then FirstReady(q, 'H')
    else FirstReady(q, 'L')
  }

  function Without(q: seq<Task>, i: nat): seq<Task>
    requires i < |q|
  {
    q[..i] + q[i + 1..]
  }

  // ---------------------------------------------------------------- ticks and wake-ups

  function Ticked(t: Task): Task {
    if t.state == Terminated then t
    else
      var u := t.(queuingTime := t.queuingTime + 10);
      if t.state == Waiting && t.msec10 != 0 then u.(msec10 := t.msec10 - 1)
      else if t.state == Waiting then u.(state := Ready)
      else u
  }

  function TickAll(q: seq<Task>): seq<Task> {
    seq(|q|, i requires 0 <= i < |q| => Ticked(q[i]))
  }

  function Woken(t: Task): Task {
    t.(state := Ready, msec10 := 0)
  }

  function WakeName(q: seq<Task>, name: string): seq<Task> {
    seq(|q|, i requires 0 <= i < |q| => if q[i].name == name && q[i].state == Waiting then Woken(q[i]) else q[i])
  }

  /** Wakes the first waiting task with that pid. */
  function WakePid(q: seq<Task>, pid: int): seq<Task> {
    if q == [] then []
    else if q[0].pid == pid && q[0].state == Waiting then [Woken(q[0])] + q[1..]
    else [q[0]] + WakePid(q[1..], pid)
  }

  predicate HasWork(q: seq<Task>) {
    exists i :: 0 <= i < |q| && (q[i].state == Ready || q[i].state == Waiting)
  }

  predicate KnownName(name: string) {
    name in ["task1", "task2", "task3", "task4", "task5", "task6"]
  }

  // ---------------------------------------------------------------- lemmas

  /** The names are "task" with one digit from 1 to 6. */
  lemma KnownNames(name: string)
    ensures KnownName(name) <==> |name| == 5 && name[..4] == "task" && '1' <= name[4] <= '6'
  {
    if |name| == 5 && name[..4] == "task" && '1' <= name[4] <= '6' {
      var d := name[4];
      assert name == ['t', 'a', 's', 'k', d];
      assert d == '1' || d == '2' || d == '3' || d == '4' || d == '5' || d == '6';
    }
  }

  lemma {:induction false} FirstReadyIs(q: seq<Task>, priority: char)
    ensures FirstReady(q, priority) == None <==> forall j :: 0 <= j < |q| ==> !ReadyWith(q[j], priority)
    ensures forall i: nat :: FirstReady(q, priority) == Some(i) <==>
              i < |q| && ReadyWith(q[i], priority) && forall j :: 0 <= j < i ==> !ReadyWith(q[j], priority)
  {
    if q != [] && !ReadyWith(q[0], priority) {
      FirstReadyIs(q[1..], priority);
      forall j | 0 < j < |q|
        ensures q[j] == q[1..][j - 1]
      {
      }
      var r := FirstReady(q[1..], priority);
      if r.Some? {
        var i := r.value;
        assert ReadyWith(q[i + 1], priority);
        assert forall j :: 0 <= j < i ==> !ReadyWith(q[1..][j], priority);
        assert forall j :: 0 < j < i + 1 ==> q[j] == q[1..][j - 1];
      }
    }
  }

  /** What is dispatched. A task that is neither 'H' nor 'L' is dispatched only when it is alone. */
  lemma PopIs(q: seq<Task>)
    ensures PopIndex(q).Some? <==>
            || (|q| == 1 && q[0].state == Ready)
            || exists j :: 0 <= j < |q| && (ReadyWith(q[j], 'H') || ReadyWith(q[j], 'L'))
    ensures PopIndex(q).Some? ==>
              var i := PopIndex(q).value;
              && i < |q| && q[i].state == Ready
              && (forall j :: 0 <= j < i ==> !ReadyWith(q[j], 'H'))
              && (|q| > 1 ==> q[i].priority == 'H' || q[i].priority == 'L')
              && (q[i].priority != 'H' ==> forall j :: 0 <= j < |q| ==> !ReadyWith(q[j], 'H'))
              && (q[i].priority == 'L' ==> forall j :: 0 <= j < i ==> !ReadyWith(q[j], 'L'))
  {
    FirstReadyIs(q, 'H');
    FirstReadyIs(q, 'L');
  }

  lemma {:induction false} WakePidAt(q: seq<Task>, pid: int)
    ensures |WakePid(q, pid)| == |q|
    ensures forall i :: 0 <= i < |q| ==>
              WakePid(q, pid)[i] == if IsFirstWaiting(q, pid, i) then Woken(q[i]) else q[i]
  {
    if q != [] && !(q[0].pid == pid && q[0].state == Waiting) {
      WakePidAt(q[1..], pid);
      forall i | 0 < i < |q|
        ensures IsFirstWaiting(q, pid, i) <==> IsFirstWaiting(q[1..], pid, i - 1)
      {
        assert forall j :: 0 < j < |q| ==> q[j] == q[1..][j - 1];
        assert forall j :: 0 <= j < |q| - 1 ==> q[1..][j] == q[j + 1];
      }
    }
  }

  predicate IsFirstWaiting(q: seq<Task>, pid: int, i: int)
    requires 0 <= i < |q|
  {
    && q[i].pid == pid && q[i].state == Waiting
    && forall j :: 0 <= j < i ==> !(q[j].pid == pid && q[j].state == Waiting)
  }
}
