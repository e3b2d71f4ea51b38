/** What the scheduler guarantees over whole runs. */
module MachineRuns {
  import opened Options
  import opened Tasks
  import opened Machine

  /** The tasks dispatched in a run, in order, as they were in the queue. */
  function Dispatches(s: Sched, es: seq<Event>): seq<Task>
    decreases |es|
  {
    if es == [] then []
    else Chosen(s, es[0]) + Dispatches(Step(s, es[0]), es[1..])
  }

  function Chosen(s: Sched, e: Event): seq<Task> {
    if e == Dispatch && PopIndex(s.queue).Some? then
      PopIs(s.queue);
      [s.queue[PopIndex(s.queue).value]]
    else []
  }

  function Pids(ts: seq<Task>): seq<int> {
    seq(|ts|, i requires 0 <= i < |ts| => ts[i].pid)
  }

  function Ticks(es: seq<Event>): nat {
    if es == [] then 0 else (if es[0] == Tick then 1 else 0) + Ticks(es[1..])
  }

  // ---------------------------------------------------------------- one task, one step

  predicate Wakes(e: Event, t: Task) {
    e == WakeByPid(t.pid) || e == WakeByName(t.name)
  }

  /** What an event makes of a task that stays in the queue. */
  function Fate(e: Event, t: Task): Task {
    if e == Tick then Ticked(t)
    else if Wakes(e, t) && t.state == Waiting then Woken(t)
    else t
  }

  /** A queued task is dispatched, or stays in the queue and meets its fate. */
  lemma QueuedStep(s: Sched, e: Event, i: nat) returns (j: nat)
    requires Inv(s) && Enabled(s, e) && i < |s.queue|
    ensures j <= i
    ensures Chosen(s, e) != [s.queue[i]] ==>
            && s.queue[i] !in Chosen(s, e)
            && j < |Step(s, e).queue| && Step(s, e).queue[j] == Fate(e, s.queue[i])
    ensures Chosen(s, e) == [] ==> j == i
    ensures e == Dispatch && PopIndex(s.queue).Some? ==> j == if PopIndex(s.queue).value < i then i - 1 else i
  {
    j := i;
    var q := s.queue;
    assert forall k :: 0 <= k < |q| ==> All(s)[k] == q[k];
    if e == Dispatch {
      PopIs(q);
      if PopIndex(q).Some? {
        var k := PopIndex(q).value;
        if k < i {
          j := i - 1;
        }
        assert k != i ==> q[k].pid != q[i].pid;
      }
    } else if e.WakeByPid? {
      WakePidAt(q, e.wpid);
    }
  }

  // ---------------------------------------------------------------- nothing is lost

  predicate SameTask(t: Task, u: Task) {
    t.pid == u.pid && t.name == u.name && t.timeQuantum == u.timeQuantum && t.priority == u.priority
  }

  lemma StepKeeps(s: Sched, e: Event, t: Task) returns (u: Task)
    requires Inv(s) && Enabled(s, e) && t in All(s)
    ensures u in All(Step(s, e)) && SameTask(t, u)
  {
    var ts, us := All(s), All(Step(s, e));
    var i :| 0 <= i < |ts| && ts[i] == t;
    if e == Dispatch {
      StepDispatches(s);
      var k := PopIndex(s.queue);
      u := t;
      if k.Some? {
        assert us[if i < k.value then i else if i == k.value then |us| - 1 else i - 1] == t;
      }
    } else if e.Add? {
      u := t;
      assert us[if i < |s.queue| then i else |us| - 1] == t;
    } else {
      StepUpdates(s, e);
      u := us[i];
      assert u == Update(s, e, i);
    }
  }

  /** A task keeps its pid, name, quantum and priority through any run, and is never lost. */
  lemma {:induction false} RunKeeps(s: Sched, es: seq<Event>, t: Task) returns (u: Task)
    requires Inv(s) && IsRun(s, es) && t in All(s)
    ensures u in All(RunFrom(s, es)) && SameTask(t, u)
    decreases |es|
  {
    u := t;
    if es != [] {
      StepInv(s, es[0]);
      u := StepKeeps(s, es[0], t);
      u := RunKeeps(Step(s, es[0]), es[1..], u);
    }
  }

  /** In every run from the start, the tasks in the queue and on the processor are exactly those with
      pids 1 to the number of tasks created, one each. */
  lemma TasksConserved(es: seq<Event>, p: int)
    requires IsRun(BOOT, es)
    ensures var ts := All(RunFrom(BOOT, es));
            && (HasPid(ts, p) <==> 1 <= p <= RunFrom(BOOT, es).pid)
            && (forall i, j :: 0 <= i < |ts| && 0 <= j < |ts| && ts[i].pid == ts[j].pid ==> i == j)
            && (forall i :: 0 <= i < |ts| ==> ts[i].state != Running)
  {
    BootInv();
    RunInv(BOOT, es);
    var ts := All(RunFrom(BOOT, es));
    forall i, j | 0 <= i < |ts| && 0 <= j < |ts| && ts[i].pid == ts[j].pid
      ensures i == j
    {
      assert DistinctPids(ts);
    }
  }

  // ---------------------------------------------------------------- terminated tasks

  /** A terminated task stays in the queue as it is, and is never dispatched again. */
  lemma {:induction false} TerminatedForGood(s: Sched, es: seq<Event>, t: Task)
    requires Inv(s) && IsRun(s, es) && t in s.queue && t.state == Terminated
    ensures t in RunFrom(s, es).queue
    ensures forall d :: d in Dispatches(s, es) ==> d.pid != t.pid
    decreases |es|
  {
    if es != [] {
      var i :| 0 <= i < |s.queue| && s.queue[i] == t;
      StepInv(s, es[0]);
      NotChosen(s, es[0], i);
      var j := QueuedStep(s, es[0], i);
      assert Fate(es[0], t) == t;
      TerminatedForGood(Step(s, es[0]), es[1..], t);
    }
  }

  /** Only ready tasks are dispatched, so that a task that is not ready shares no pid with the one that
      is. */
  lemma NotChosen(s: Sched, e: Event, i: nat)
    requires Inv(s) && i < |s.queue| && s.queue[i].state != Ready
    ensures forall d :: d in Chosen(s, e) ==> d.state == Ready && d.pid != s.queue[i].pid
  {
    PopIs(s.queue);
    var q := s.queue;
    assert forall k :: 0 <= k < |q| ==> All(s)[k] == q[k];
    if e == Dispatch && PopIndex(q).Some? {
      var k := PopIndex(q).value;
      assert k != i;
    }
  }

  /** When the loop exits, no task runs, and every task ever created is in the queue, terminated. */
  lemma ExitMeansDone(es: seq<Event>, p: int)
    requires IsRun(BOOT, es) && Enabled(RunFrom(BOOT, es), Exit)
    requires 1 <= p <= RunFrom(BOOT, es).pid
    ensures var s := RunFrom(BOOT, es);
            && s.curr == None
            && exists i :: 0 <= i < |s.queue| && s.queue[i].pid == p && s.queue[i].state == Terminated
  {
    BootInv();
    RunInv(BOOT, es);
    var s := RunFrom(BOOT, es);
    assert All(s) == s.queue;
    assert HasPid(All(s), p);
    var i :| 0 <= i < |s.queue| && s.queue[i].pid == p;
    assert Sane(All(s)[i]);
    assert s.queue[i].state == Terminated;
  }

  // ---------------------------------------------------------------- sleep

  /** What `n` ticks make of a sleeping task that nobody wakes. */
  function Slept(t: Task, n: nat): Task {
    if 0 <= t.msec10 < n then t.(state := Ready, msec10 := 0, queuingTime := t.queuingTime + 10 * n)
    else t.(msec10 := t.msec10 - n, queuingTime := t.queuingTime + 10 * n)
  }

  predicate NobodyWakes(es: seq<Event>, t: Task) {
    forall i :: 0 <= i < |es| ==> !Wakes(es[i], t)
  }

  /** One event in the life of a sleeping task that the event does not wake. */
  lemma SleepStep(s: Sched, e: Event, t: Task)
    requires Inv(s) && Enabled(s, e) && t in s.queue && t.state == Waiting && !Wakes(e, t)
    ensures Slept(t, if e == Tick then 1 else 0) in Step(s, e).queue
    ensures forall d :: d in Chosen(s, e) ==> d.pid != t.pid
  {
    var i :| 0 <= i < |s.queue| && s.queue[i] == t;
    NotChosen(s, e, i);
    var j := QueuedStep(s, e, i);
    assert Fate(e, t) == Slept(t, if e == Tick then 1 else 0);
  }

  /** A task put to sleep for `msec10 >= 0` and woken by nobody sleeps through exactly `msec10` ticks, is
      not dispatched meanwhile, and is ready from the next tick on; for a negative number it sleeps on. */
  lemma {:induction false} SleepsExactly(s: Sched, es: seq<Event>, t: Task)
    requires Inv(s) && IsRun(s, es) && t in s.queue && t.state == Waiting && NobodyWakes(es, t)
    requires t.msec10 >= 0 ==> Ticks(es) <= t.msec10 || (Ticks(es) == t.msec10 + 1 && es[|es| - 1] == Tick)
    ensures Slept(t, Ticks(es)) in RunFrom(s, es).queue
    ensures forall d :: d in Dispatches(s, es) ==> d.pid != t.pid
    decreases |es|
  {
    if es != [] {
      var e, rest := es[0], es[1..];
      assert !Wakes(es[0], t);
      SleepStep(s, e, t);
      StepInv(s, e);
      assert forall k :: 0 <= k < |rest| ==> rest[k] == es[k + 1];
      hide Inv, Step, Chosen, Enabled;
      var u := Slept(t, if e == Tick then 1 else 0);
      LastTick(rest);
      if u.state == Waiting {
        assert rest == [] ==> Ticks(rest) == 0;
        SleepsExactly(Step(s, e), rest, u);
        assert Slept(u, Ticks(rest)) == Slept(t, Ticks(es));
      } else {
        assert rest == [];
      }
    }
  }

  lemma {:induction false} LastTick(es: seq<Event>)
    ensures es != [] && es[|es| - 1] == Tick ==> Ticks(es) > 0
  {
    if |es| > 1 {
      LastTick(es[1..]);
    }
  }

  /** A wake-up readies exactly the sleeping tasks it names, and leaves the order, every other queued
      task and the current one as they are. */
  lemma WakesExactly(s: Sched, e: Event, i: nat)
    requires Inv(s) && Enabled(s, e) && (e.WakeByPid? || e.WakeByName?) && i < |s.queue|
    ensures Step(s, e) == s.(queue := Step(s, e).queue) && |Step(s, e).queue| == |s.queue|
    ensures Step(s, e).queue[i] ==
            if Wakes(e, s.queue[i]) && s.queue[i].state == Waiting then s.queue[i].(state := Ready, msec10 := 0)
            else s.queue[i]
  {
    var j := QueuedStep(s, e, i);
    if e.WakeByPid? {
      WakePidAt(s.queue, e.wpid);
    }
  }

  // ---------------------------------------------------------------- queueing time

  ghost predicate Queued(s: Sched, p: int) {
    exists i :: 0 <= i < |s.queue| && s.queue[i].pid == p && s.queue[i].state != Terminated
  }

  /** The ticks of a run that find task `p` in the queue, not terminated. */
  ghost function QueuedTicks(s: Sched, es: seq<Event>, p: int): nat
    decreases |es|
  {
    if es == [] then 0
    else (if es[0] == Tick && Queued(s, p) then 1 else 0) + QueuedTicks(Step(s, es[0]), es[1..], p)
  }

  /** The queueing time recorded for task `p`; 0 if there is none. */
  function TimeOf(ts: seq<Task>, p: int): int {
    if ts == [] then 0 else if ts[0].pid == p then ts[0].queuingTime else TimeOf(ts[1..], p)
  }

  lemma {:induction false} TimeOfAt(ts: seq<Task>, p: int)
    ensures forall i :: 0 <= i < |ts| && ts[i].pid == p && DistinctPids(ts) ==> TimeOf(ts, p) == ts[i].queuingTime
    ensures !HasPid(ts, p) ==> TimeOf(ts, p) == 0
  {
    if ts != [] {
      TimeOfAt(ts[1..], p);
      assert forall i :: 0 < i < |ts| ==> ts[i] == ts[1..][i - 1];
      assert HasPid(ts[1..], p) ==> HasPid(ts, p) by {
        if HasPid(ts[1..], p) {
          var i :| 0 <= i < |ts[1..]| && ts[1..][i].pid == p;
          assert ts[i + 1].pid == p;
        }
      }
      assert ts[0].pid == p ==> HasPid(ts, p);
    }
  }

  lemma TimeStep(s: Sched, e: Event, p: int)
    requires Inv(s) && Enabled(s, e)
    ensures TimeOf(All(Step(s, e)), p) ==
            TimeOf(All(s), p) + if e == Tick && Queued(s, p) then 10 else 0
  {
    var ts, us := All(s), All(Step(s, e));
    TimeOfAt(ts, p);
    TimeOfAt(us, p);
    StepInv(s, e);
    QueuedHasPid(s, p);
    if HasPid(ts, p) {
      var i :| 0 <= i < |ts| && ts[i].pid == p;
      TimeStepAt(s, e, i);
    } else if HasPid(us, p) {
      NewIsAdded(s, e, p);
    }
  }

  /** The record of a task after a step has the time it had, or 10 more. */
  lemma TimeStepAt(s: Sched, e: Event, i: nat)
    requires Inv(s) && Enabled(s, e) && i < |All(s)|
    ensures exists j :: 0 <= j < |All(Step(s, e))| &&
              var t, u := All(s)[i], All(Step(s, e))[j];
              && u.pid == t.pid
              && u.queuingTime == t.queuingTime + if e == Tick && Queued(s, t.pid) then 10 else 0
  {
    var ts, us := All(s), All(Step(s, e));
    if e == Dispatch {
      TimeDispatch(s, i);
    } else if e.Add? {
      assert us[if i < |s.queue| then i else |us| - 1] == ts[i];
    } else {
      QueuedAt(s, ts[i].pid, i);
      StepUpdates(s, e);
      assert us[i] == Update(s, e, i);
    }
  }

  /** A pid that appears in a step belongs to an added task, which has queued no time yet. */
  lemma NewIsAdded(s: Sched, e: Event, p: int)
    requires Inv(s) && Enabled(s, e) && !HasPid(All(s), p) && HasPid(All(Step(s, e)), p)
    ensures e.Add?
    ensures exists j :: 0 <= j < |All(Step(s, e))| &&
              All(Step(s, e))[j].pid == p && All(Step(s, e))[j].queuingTime == 0
  {
    StepInv(s, e);
    if e.Add? && KnownName(e.name) {
      assert All(Step(s, e))[|s.queue|] == NewTask(s.pid + 1, e);
    } else if e == Dispatch {
      StepDispatches(s);
    }
  }

  lemma QueuedAt(s: Sched, p: int, i: nat)
    requires Inv(s) && i < |All(s)| && All(s)[i].pid == p
    ensures Queued(s, p) <==> i < |s.queue| && All(s)[i].state != Terminated
  {
    if Queued(s, p) {
      var j :| 0 <= j < |s.queue| && s.queue[j].pid == p && s.queue[j].state != Terminated;
      assert All(s)[j] == s.queue[j];
    }
  }

  lemma QueuedHasPid(s: Sched, p: int)
    ensures Queued(s, p) ==> HasPid(All(s), p)
  {
    if Queued(s, p) {
      var j :| 0 <= j < |s.queue| && s.queue[j].pid == p && s.queue[j].state != Terminated;
      assert All(s)[j].pid == p;
    }
  }

  lemma TimeDispatch(s: Sched, i: nat)
    requires Inv(s) && Enabled(s, Dispatch) && i < |All(s)|
    ensures exists j :: 0 <= j < |All(Dispatched(s))| && All(Dispatched(s))[j] == All(s)[i]
  {
    StepDispatches(s);
    var k, us := PopIndex(s.queue), All(Dispatched(s));
    if k.Some? {
      assert us[if i < k.value then i else if i == k.value then |us| - 1 else i - 1] == All(s)[i];
    } else {
      assert us[i] == All(s)[i];
    }
  }

  /** A task's recorded queueing time grows by 10 for exactly each tick that finds it in the queue and
      not terminated, however often it was dispatched and queued again. */
  lemma {:induction false} QueueingTimeExact(s: Sched, es: seq<Event>, p: int)
    requires Inv(s) && IsRun(s, es)
    ensures TimeOf(All(RunFrom(s, es)), p) == TimeOf(All(s), p) + 10 * QueuedTicks(s, es, p)
    decreases |es|
  {
    if es != [] {
      TimeStep(s, es[0], p);
      StepInv(s, es[0]);
      QueueingTimeExact(Step(s, es[0]), es[1..], p);
    }
  }

  // ---------------------------------------------------------------- round robin

  ghost predicate ReadyHigh(s: Sched, i: nat) {
    i < |s.queue| && ReadyWith(s.queue[i], 'H')
  }

  /** The pids of the tasks ahead of place `i`. */
  function Ahead(s: Sched, i: nat): seq<int>
    requires i <= |s.queue|
  {
    Pids(s.queue[..i])
  }

  /** While a ready 'H' task waits at place `i`, a step either dispatches it, or dispatches an 'H' task
      ahead of it, or leaves the tasks ahead of it what they are. */
  lemma AheadStep(s: Sched, e: Event, i: nat) returns (j: nat)
    requires Inv(s) && Enabled(s, e) && ReadyHigh(s, i)
    ensures Chosen(s, e) != [s.queue[i]] ==>
            && s.queue[i] !in Chosen(s, e)
            && ReadyHigh(Step(s, e), j) && Step(s, e).queue[j].pid == s.queue[i].pid
            && multiset(Ahead(s, i)) == multiset(Pids(Chosen(s, e))) + multiset(Ahead(Step(s, e), j))
            && (forall d :: d in Chosen(s, e) ==> d.priority == 'H')
  {
    j := QueuedStep(s, e, i);
    if Chosen(s, e) == [] {
      AheadStays(s, e, i);
    } else if Chosen(s, e) != [s.queue[i]] {
      AheadMovesUp(s, i);
    }
  }

  lemma AheadStays(s: Sched, e: Event, i: nat)
    requires Inv(s) && Enabled(s, e) && i <= |s.queue| && Chosen(s, e) == []
    ensures i <= |Step(s, e).queue| && Ahead(Step(s, e), i) == Ahead(s, i)
  {
    var q' := Step(s, e).queue;
    forall k | 0 <= k < i
      ensures k < |q'| && q'[k].pid == s.queue[k].pid
    {
      var k' := QueuedStep(s, e, k);
    }
    assert i <= |q'| by {
      if i > 0 {
        var k' := QueuedStep(s, e, i - 1);
      }
    }
  }

  lemma AheadMovesUp(s: Sched, i: nat)
    requires Inv(s) && ReadyHigh(s, i) && Chosen(s, Dispatch) != [s.queue[i]]
    ensures PopIndex(s.queue).Some?
    ensures var k := PopIndex(s.queue).value;
            && k < i && Chosen(s, Dispatch) == [s.queue[k]] && s.queue[k].priority == 'H'
            && Dispatched(s).queue == Without(s.queue, k)
            && multiset(Ahead(s, i)) == multiset(Pids(Chosen(s, Dispatch))) + multiset(Ahead(Dispatched(s), i - 1))
  {
    PopIs(s.queue);
    assert ReadyWith(s.queue[i], 'H');
    var k := PopIndex(s.queue).value;
    AheadLosesOne(s.queue, k, i);
    assert Pids(Chosen(s, Dispatch)) == [s.queue[k].pid];
  }

  lemma AheadLosesOne(q: seq<Task>, k: nat, i: nat)
    requires k < i < |q|
    ensures multiset(Pids(q[..i])) == multiset{q[k].pid} + multiset(Pids(Without(q, k)[..i - 1]))
  {
    var a, b := Pids(q[..i]), Pids(Without(q, k)[..i - 1]);
    assert a == a[..k] + [q[k].pid] + a[k + 1..];
    assert b == a[..k] + a[k + 1..];
  }

  /** A ready 'H' task that has not been dispatched in a run is still a ready 'H' task; all tasks
      dispatched meanwhile were 'H' tasks ahead of it, each once; and those still ahead of it are the
      others that were. */
  lemma {:induction false} AheadRun(s: Sched, es: seq<Event>, i: nat) returns (j: nat)
    requires Inv(s) && IsRun(s, es) && ReadyHigh(s, i)
    requires s.queue[i].pid !in Pids(Dispatches(s, es))
    ensures ReadyHigh(RunFrom(s, es), j) && RunFrom(s, es).queue[j].pid == s.queue[i].pid
    ensures multiset(Ahead(s, i)) ==
            multiset(Pids(Dispatches(s, es))) + multiset(Ahead(RunFrom(s, es), j))
    ensures forall d :: d in Dispatches(s, es) ==> d.priority == 'H'
    decreases |es|
  {
    if es == [] {
      j := i;
    } else {
      var s', rest := Step(s, es[0]), es[1..];
      var c, ds := Chosen(s, es[0]), Dispatches(s', rest);
      PidsConcat(c, ds);
      PidIn(c, s.queue[i]);
      StepInv(s, es[0]);
      var k := AheadStep(s, es[0], i);
      j := AheadRun(s', rest, k);
    }
  }

  lemma PidIn(ts: seq<Task>, t: Task)
    ensures t in ts ==> t.pid in Pids(ts)
  {
    if t in ts {
      var i :| 0 <= i < |ts| && ts[i] == t;
      assert Pids(ts)[i] == t.pid;
    }
  }

  lemma PidsConcat(a: seq<Task>, b: seq<Task>)
    ensures Pids(a + b) == Pids(a) + Pids(b)
  {
  }

  lemma DistinctAhead(s: Sched, i: nat, p: int)
    requires Inv(s) && i <= |s.queue|
    ensures multiset(Ahead(s, i))[p] <= 1
  {
    assert forall k :: 0 <= k < |s.queue| ==> All(s)[k] == s.queue[k];
    DistinctOnce(Ahead(s, i), p);
  }

  lemma {:induction false} DistinctOnce(ps: seq<int>, p: int)
    requires forall i, j :: 0 <= i < j < |ps| ==> ps[i] != ps[j]
    ensures multiset(ps)[p] <= 1
  {
    if ps != [] {
      assert ps == [ps[0]] + ps[1..];
      DistinctOnce(ps[1..], p);
      assert ps[0] !in ps[1..];
    }
  }

  /** Until a ready 'H' task is dispatched, no more tasks are than stand ahead of it. */
  lemma AheadBound(s: Sched, es: seq<Event>, i: nat)
    requires Inv(s) && IsRun(s, es) && ReadyHigh(s, i)
    requires s.queue[i].pid !in Pids(Dispatches(s, es))
    ensures |Dispatches(s, es)| <= i
  {
    var j := AheadRun(s, es, i);
    assert |multiset(Ahead(s, i))| == i;
    assert |multiset(Pids(Dispatches(s, es)))| == |Dispatches(s, es)|;
  }

  /** Bounded waiting: a ready 'H' task with `i` tasks ahead of it is among the next `i + 1` tasks
      dispatched, whatever else happens. */
  lemma BoundedWaiting(s: Sched, es: seq<Event>, i: nat)
    requires Inv(s) && IsRun(s, es) && ReadyHigh(s, i)
    requires |Dispatches(s, es)| > i
    ensures s.queue[i].pid in Pids(Dispatches(s, es)[..i + 1])
  {
    var es' := CutAfter(s, es, i + 1);
    if s.queue[i].pid !in Pids(Dispatches(s, es')) {
      AheadBound(s, es', i);
    }
  }

  /** The part of a run that ends with its `n`th dispatch. */
  lemma {:induction false} CutAfter(s: Sched, es: seq<Event>, n: nat) returns (es': seq<Event>)
    requires IsRun(s, es) && |Dispatches(s, es)| >= n
    ensures IsRun(s, es') && Dispatches(s, es') == Dispatches(s, es)[..n]
    decreases |es|
  {
    if n == 0 || es == [] {
      es' := [];
    } else {
      var c := Chosen(s, es[0]);
      var rest := CutAfter(Step(s, es[0]), es[1..], n - |c|);
      es' := [es[0]] + rest;
      assert es'[1..] == rest;
    }
  }

  /** Round robin: from the moment a ready 'H' task stands at place `i` until it is dispatched, every
      ready 'H' task ahead of it is dispatched exactly once, no task is dispatched twice, and no task
      that is not an 'H' task ahead of it is dispatched at all. */
  lemma RoundRobin(s: Sched, es: seq<Event>, i: nat, p: int)
    requires Inv(s) && IsRun(s, es + [Dispatch]) && ReadyHigh(s, i)
    requires s.queue[i].pid !in Pids(Dispatches(s, es))
    requires Pids(Chosen(RunFrom(s, es), Dispatch)) == [s.queue[i].pid]
    ensures var n := multiset(Pids(Dispatches(s, es)))[p];
            && n <= 1
            && (n == 1 ==> p in Ahead(s, i))
            && (forall k: nat :: k < i && ReadyHigh(s, k) && s.queue[k].pid == p ==> n == 1)
    ensures forall d :: d in Dispatches(s, es) ==> d.priority == 'H'
  {
    RunPrefix(s, es, [Dispatch]);
    var j := AheadRun(s, es, i);
    DistinctAhead(s, i, p);
    var s' := RunFrom(s, es);
    RunInv(s, es);
    assert multiset(Ahead(s, i))[p] ==
           multiset(Pids(Dispatches(s, es)))[p] + multiset(Ahead(s', j))[p];
    if multiset(Pids(Dispatches(s, es)))[p] == 1 {
      assert p in multiset(Ahead(s, i));
    }
    forall k: nat | k < i && ReadyHigh(s, k) && s.queue[k].pid == p
      ensures multiset(Pids(Dispatches(s, es)))[p] == 1
    {
      HadItsTurn(s, es, i, j, k);
      assert p in multiset(Pids(Dispatches(s, es)));
    }
  }

  /** When a ready 'H' task is dispatched, the ready 'H' tasks that were ahead of it have been. */
  lemma HadItsTurn(s: Sched, es: seq<Event>, i: nat, j: nat, k: nat)
    requires Inv(s) && IsRun(s, es) && k < i && ReadyHigh(s, i) && ReadyHigh(s, k)
    requires var s' := RunFrom(s, es);
             && ReadyHigh(s', j) && s'.queue[j].pid == s.queue[i].pid
             && multiset(Ahead(s, i)) == multiset(Pids(Dispatches(s, es))) + multiset(Ahead(s', j))
    requires Pids(Chosen(RunFrom(s, es), Dispatch)) == [s.queue[i].pid]
    ensures s.queue[k].pid in Pids(Dispatches(s, es))
  {
    var s', p := RunFrom(s, es), s.queue[k].pid;
    RunInv(s, es);
    if p !in Pids(Dispatches(s, es)) {
      var l := AheadRun(s, es, k);
      FirstHigh(s', l, j);
      StillAhead(s, es, i, j, k);
      PlaceAhead(s', l, j, p);
    }
  }

  lemma StillAhead(s: Sched, es: seq<Event>, i: nat, j: nat, k: nat)
    requires Inv(s) && IsRun(s, es) && k < i < |s.queue| && j <= |RunFrom(s, es).queue|
    requires multiset(Ahead(s, i)) ==
             multiset(Pids(Dispatches(s, es))) + multiset(Ahead(RunFrom(s, es), j))
    requires s.queue[k].pid !in Pids(Dispatches(s, es))
    ensures s.queue[k].pid in Ahead(RunFrom(s, es), j)
  {
    assert Ahead(s, i)[k] == s.queue[k].pid;
    assert s.queue[k].pid in multiset(Ahead(s, i));
  }

  lemma PlaceAhead(s: Sched, l: nat, j: nat, p: int)
    requires Inv(s) && l < |s.queue| && j <= |s.queue| && s.queue[l].pid == p && p in Ahead(s, j)
    ensures l < j
  {
    var l' :| 0 <= l' < |Ahead(s, j)| && Ahead(s, j)[l'] == p;
    assert forall k :: 0 <= k < |s.queue| ==> All(s)[k] == s.queue[k];
  }

  /** The loop does not dispatch a task that has a ready 'H' task ahead of it. */
  lemma FirstHigh(s: Sched, l: nat, j: nat)
    requires Inv(s) && ReadyHigh(s, l) && j < |s.queue|
    requires Pids(Chosen(s, Dispatch)) == [s.queue[j].pid]
    ensures j <= l
  {
    PopIs(s.queue);
    assert ReadyWith(s.queue[l], 'H');
    var i := PopIndex(s.queue).value;
    assert Pids(Chosen(s, Dispatch))[0] == s.queue[i].pid;
    assert forall k :: 0 <= k < |s.queue| ==> All(s)[k] == s.queue[k];
  }

  lemma {:induction false} RunPrefix(s: Sched, es: seq<Event>, fs: seq<Event>)
    requires IsRun(s, es + fs)
    ensures IsRun(s, es)
    decreases |es|
  {
    if es != [] {
      assert (es + fs)[0] == es[0] && (es + fs)[1..] == es[1..] + fs;
      RunPrefix(Step(s, es[0]), es[1..], fs);
    }
  }

  /** No 'L' task is dispatched while a ready 'H' task is queued. */
  lemma HighFirst(s: Sched, i: nat)
    requires ReadyHigh(s, i)
    ensures Chosen(s, Dispatch) != [] && Chosen(s, Dispatch)[0].priority == 'H'
  {
    PopIs(s.queue);
    assert ReadyWith(s.queue[i], 'H');
  }

  /** From the preemption of an 'H' task to its next dispatch, every other 'H' task that was ready in the
      queue at that moment is dispatched exactly once; no other task is dispatched twice, and none that
      was not in the queue then is dispatched at all. */
  lemma PreemptedRoundRobin(s: Sched, es: seq<Event>, p: int)
    requires Inv(s) && s.mode == Busy && s.curr.Some? && s.curr.value.priority == 'H'
    requires IsRun(Step(s, Tick), es + [Dispatch])
    requires var s1 := Step(s, Tick);
             && s.curr.value.pid !in Pids(Dispatches(s1, es))
             && Pids(Chosen(RunFrom(s1, es), Dispatch)) == [s.curr.value.pid]
    ensures var s1, n := Step(s, Tick), multiset(Pids(Dispatches(Step(s, Tick), es)))[p];
            && n <= 1
            && (n == 1 ==> p in Pids(TickAll(s.queue)))
            && (forall k: nat :: k < |s.queue| && ReadyHigh(s1, k) && s1.queue[k].pid == p ==> n == 1)
    ensures forall d :: d in Dispatches(Step(s, Tick), es) ==> d.priority == 'H'
  {
    var s1, i := Step(s, Tick), |s.queue|;
    StepInv(s, Tick);
    assert s1.queue == TickAll(s.queue) + [s.curr.value];
    assert s1.queue[..i] == TickAll(s.queue);
    RoundRobin(s1, es, i, p);
  }

  // ---------------------------------------------------------------- the quantum

  /** In every run, every dispatch grants one tick, also to a task whose quantum is 'L'; so the first tick
      finds the quantum used up, and puts the task, as it is, at the rear. */
  lemma EveryTickPreempts(es: seq<Event>)
    requires IsRun(BOOT, es) && RunFrom(BOOT, es).mode == Busy
    ensures var s := RunFrom(BOOT, es);
            && s.curr.Some? && s.quantum - 1 == 0
            && var s' := Step(s, Tick);
            && s'.curr == None && s'.mode == Scheduling
            && s'.queue == TickAll(s.queue) + [s.curr.value]
  {
    BootInv();
    RunInv(BOOT, es);
  }

  /** A dispatch finds no task exactly when no 'H' or 'L' task is ready, and no task is alone and ready. */
  lemma IdleIff(s: Sched)
    requires Inv(s) && Enabled(s, Dispatch)
    ensures Step(s, Dispatch).mode == Idle <==>
            && (forall i :: 0 <= i < |s.queue| ==> !ReadyWith(s.queue[i], 'H') && !ReadyWith(s.queue[i], 'L'))
            && !(|s.queue| == 1 && s.queue[0].state == Ready)
  {
    PopIs(s.queue);
  }

  // ---------------------------------------------------------------- other priorities

  ghost predicate OtherPriority(t: Task) {
    t.priority != 'H' && t.priority != 'L'
  }

  /** Where there are two tasks, only 'H' and 'L' tasks are dispatched. */
  lemma OtherNotChosen(s: Sched, e: Event, t: Task)
    requires Inv(s) && Enabled(s, e) && s.pid >= 2 && t in All(s) && OtherPriority(t)
    ensures t.pid !in Pids(Chosen(s, e))
    ensures Step(s, e).pid >= 2
  {
    if e == Dispatch {
      assert HasPid(All(s), 1) && HasPid(All(s), 2);
      assert All(s) == s.queue;
      PopIs(s.queue);
    }
  }

  /** Once two tasks have been created, a task whose priority is neither 'H' nor 'L' is not dispatched in any
      run. */
  lemma {:induction false} OtherNeverDispatched(s: Sched, es: seq<Event>, t: Task)
    requires Inv(s) && IsRun(s, es) && s.pid >= 2 && t in All(s) && OtherPriority(t)
    ensures t.pid !in Pids(Dispatches(s, es))
    decreases |es|
  {
    if es != [] {
      OtherNotChosen(s, es[0], t);
      StepInv(s, es[0]);
      var u := StepKeeps(s, es[0], t);
      OtherNeverDispatched(Step(s, es[0]), es[1..], u);
      PidsConcat(Chosen(s, es[0]), Dispatches(Step(s, es[0]), es[1..]));
    }
  }

  /** If it is ready in the queue it stays so, and the loop never exits. */
  lemma {:induction false} OtherStaysReady(s: Sched, es: seq<Event>, t: Task) returns (u: Task)
    requires Inv(s) && IsRun(s, es) && s.pid >= 2 && t in s.queue && t.state == Ready && OtherPriority(t)
    ensures u in RunFrom(s, es).queue && SameTask(t, u) && u.state == Ready
    ensures !Enabled(RunFrom(s, es), Exit)
    decreases |es|
  {
    u := t;
    if es != [] {
      var i :| 0 <= i < |s.queue| && s.queue[i] == t;
      assert All(s)[i] == t;
      OtherNotChosen(s, es[0], t);
      PidIn(Chosen(s, es[0]), t);
      StepInv(s, es[0]);
      var j := QueuedStep(s, es[0], i);
      u := OtherStaysReady(Step(s, es[0]), es[1..], Fate(es[0], t));
    }
  }

  const FIRST: Event := Add("task1", 'S', 'M')
  const SECOND: Event := Add("task2", 'S', 'L')

  lemma TwoAdded()
    ensures IsRun(BOOT, [FIRST, SECOND, Event.Start])
    ensures RunFrom(BOOT, [FIRST, SECOND, Event.Start]) ==
            Sched([NewTask(1, FIRST), NewTask(2, SECOND)], None, 2, 100000, Scheduling)
  {
    var s1, s2 := Step(BOOT, FIRST), Step(Step(BOOT, FIRST), SECOND);
    assert s2 == Sched([NewTask(1, FIRST), NewTask(2, SECOND)], None, 2, 100000, Stopped);
    assert Enabled(BOOT, FIRST) && Enabled(s1, SECOND) && Enabled(s2, Event.Start);
    hide Step, Enabled;
    RunCons(s2, Event.Start, []);
    RunCons(s1, SECOND, [Event.Start] + []);
    RunCons(BOOT, FIRST, [SECOND] + ([Event.Start] + []));
    assert [FIRST] + ([SECOND] + ([Event.Start] + [])) == [FIRST, SECOND, Event.Start];
  }

  /** Two tasks from the start, the first with priority 'M': it is never dispatched, and the loop never exits. */
  lemma OtherStarvesExample(es: seq<Event>)
    requires IsRun(RunFrom(BOOT, [FIRST, SECOND, Event.Start]), es)
    ensures var s := RunFrom(BOOT, [FIRST, SECOND, Event.Start]);
            && IsRun(BOOT, [FIRST, SECOND, Event.Start])
            && 1 !in Pids(Dispatches(s, es)) && !Enabled(RunFrom(s, es), Exit)
  {
    TwoAdded();
    BootInv();
    RunInv(BOOT, [FIRST, SECOND, Event.Start]);
    hide IsRun, RunFrom, Inv;
    var s := RunFrom(BOOT, [FIRST, SECOND, Event.Start]);
    assert s.queue[0] == NewTask(1, FIRST);
    assert All(s)[0] == NewTask(1, FIRST);
    OtherNeverDispatched(s, es, NewTask(1, FIRST));
    var u := OtherStaysReady(s, es, NewTask(1, FIRST));
  }
}
