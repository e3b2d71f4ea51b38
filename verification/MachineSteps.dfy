/** What each event of the scheduler does, told in the fields of the tasks, and what follows for a task that
    is created, waits its turn, goes to sleep or ends. */
module MachineSteps {
  import opened Options
  import opened Tasks
  import opened Machine
  import opened MachineRuns

  // ---------------------------------------------------------------- creation

  /** A task is added at the rear exactly for the names task1 to task6, with the next pid, the name, quantum
      and priority given, ready, and with nothing on its clocks. Nothing else changes. */
  lemma AddIs(s: Sched, name: string, timeQuantum: char, priority: char)
    ensures var s' := Step(s, Add(name, timeQuantum, priority));
            if |name| == 5 && name[..4] == "task" && '1' <= name[4] <= '6' then
              && |s'.queue| == |s.queue| + 1 && s'.queue[..|s.queue|] == s.queue
              && s' == s.(pid := s.pid + 1, queue := s'.queue)
              && var t := s'.queue[|s.queue|];
              && t.pid == s.pid + 1 && t.name == name && t.timeQuantum == timeQuantum && t.priority == priority
              && t.state == Ready && t.queuingTime == 0 && t.msec10 == 0
            else s' == s
  {
    KnownNames(name);
    hide KnownName;
  }

  /** An 'H' task just added is among the next dispatches, one for each task queued before it and its own. */
  lemma AddedIsDispatched(s: Sched, name: string, timeQuantum: char, es: seq<Event>)
    requires Inv(s) && Enabled(s, Add(name, timeQuantum, 'H'))
    requires |name| == 5 && name[..4] == "task" && '1' <= name[4] <= '6'
    requires IsRun(Step(s, Add(name, timeQuantum, 'H')), es)
    requires |Dispatches(Step(s, Add(name, timeQuantum, 'H')), es)| > |s.queue|
    ensures s.pid + 1 in Pids(Dispatches(Step(s, Add(name, timeQuantum, 'H')), es)[..|s.queue| + 1])
  {
    AddIs(s, name, timeQuantum, 'H');
    StepInv(s, Add(name, timeQuantum, 'H'));
    hide Inv, Step, IsRun;
    BoundedWaiting(Step(s, Add(name, timeQuantum, 'H')), es, |s.queue|);
  }

  /** From the start, an 'L' task and then an 'H' task: the second one is dispatched. */
  lemma HighOvertakesExample()
    ensures var es := [Add("task1", 'S', 'L'), Add("task2", 'L', 'H'), Event.Start, Dispatch];
            IsRun(BOOT, es) && Pids(Dispatches(BOOT, es)) == [2]
  {
    hide KnownName, PopIndex, FirstReady;
    var a, b := Add("task1", 'S', 'L'), Add("task2", 'L', 'H');
    AddIs(BOOT, "task1", 'S', 'L');
    var s1 := Step(BOOT, a);
    AddIs(s1, "task2", 'L', 'H');
    var s2 := Step(s1, b);
    var s3 := Step(s2, Event.Start);
    assert s3.queue[0] == s1.queue[0] && |s3.queue| == 2;
    PopIs(s3.queue);
    assert ReadyWith(s3.queue[1], 'H');
    assert PopIndex(s3.queue) == Some(1) && s3.queue[1].pid == 2;
    var es := [a, b, Event.Start, Dispatch];
    assert Chosen(s3, Dispatch) == [s3.queue[1]];
    assert HasWork(s3.queue);
    RunOfFour(BOOT, a, b, Event.Start, Dispatch);
  }

  /** A run of four events, step by step. */
  lemma RunOfFour(s: Sched, a: Event, b: Event, c: Event, d: Event)
    requires Enabled(s, a) && Enabled(Step(s, a), b) && Enabled(Step(Step(s, a), b), c)
    requires Enabled(Step(Step(Step(s, a), b), c), d)
    ensures IsRun(s, [a, b, c, d])
    ensures Dispatches(s, [a, b, c, d]) ==
            Chosen(s, a) + (Chosen(Step(s, a), b) +
            (Chosen(Step(Step(s, a), b), c) + Chosen(Step(Step(Step(s, a), b), c), d)))
  {
    hide Enabled, Step, Chosen;
    var s1, s2, s3 := Step(s, a), Step(Step(s, a), b), Step(Step(Step(s, a), b), c);
    assert [a, b, c, d][1..] == [b, c, d] && [b, c, d][1..] == [c, d] && [c, d][1..] == [d] && [d][1..] == [];
    assert IsRun(Step(s3, d), []) && Dispatches(Step(s3, d), []) == [];
    assert IsRun(s3, [d]) && Dispatches(s3, [d]) == Chosen(s3, d);
    assert IsRun(s2, [c, d]) && Dispatches(s2, [c, d]) == Chosen(s2, c) + Chosen(s3, d);
    assert IsRun(s1, [b, c, d]);
  }

  // ---------------------------------------------------------------- one tick

  /** A tick sends the current task, as it is, to the rear, takes one from the quantum left and brings control
      back to the loop. */
  lemma TickRequeues(s: Sched)
    ensures var s', n := Step(s, Tick), |s.queue|;
            && s'.curr == None && s'.mode == Scheduling && s'.pid == s.pid && s'.quantum == s.quantum - 1
            && s'.queue[n..] == if s.curr.Some? then [s.curr.value] else []
  {
  }

  /** One tick adds 10 to the time of every queued task that has not terminated. It makes a task ready only if
      that task is waiting with its count at 0; it takes 1 from any other count of a waiting task. */
  lemma TickIs(s: Sched, i: nat)
    requires i < |s.queue|
    ensures i < |Step(s, Tick).queue|
    ensures var t, u := s.queue[i], Step(s, Tick).queue[i];
            && SameTask(t, u)
            && u.queuingTime == t.queuingTime + (if t.state == Terminated then 0 else 10)
            && u.state == (if t.state == Waiting && t.msec10 == 0 then Ready else t.state)
            && u.msec10 == t.msec10 - (if t.state == Waiting && t.msec10 != 0 then 1 else 0)
  {
  }

  /** A ready task that is not dispatched stays ready in the queue through any run, whatever its priority;
      only its time grows, by 10 for each tick. */
  lemma {:induction false} ReadyStays(s: Sched, es: seq<Event>, t: Task)
    requires Inv(s) && IsRun(s, es) && t in s.queue && t.state == Ready && t.pid !in Pids(Dispatches(s, es))
    ensures t.(queuingTime := t.queuingTime + 10 * Ticks(es)) in RunFrom(s, es).queue
    decreases |es|
  {
    if es != [] {
      var e, s' := es[0], Step(s, es[0]);
      var u := t.(queuingTime := t.queuingTime + if e == Tick then 10 else 0);
      ReadyStep(s, e, t);
      StepInv(s, e);
      PidsConcat(Chosen(s, e), Dispatches(s', es[1..]));
      hide Inv, Step, Enabled, Chosen;
      ReadyStays(s', es[1..], u);
    }
  }

  lemma ReadyStep(s: Sched, e: Event, t: Task)
    requires Inv(s) && Enabled(s, e) && t in s.queue && t.state == Ready
    ensures t.pid !in Pids(Chosen(s, e)) ==>
              t.(queuingTime := t.queuingTime + if e == Tick then 10 else 0) in Step(s, e).queue
  {
    var i :| 0 <= i < |s.queue| && s.queue[i] == t;
    PidIn(Chosen(s, e), t);
    var j := QueuedStep(s, e, i);
  }

  // ---------------------------------------------------------------- sleep and end

  /** A suspension puts the current task at the rear, asleep with the count given; control is in the loop. */
  lemma SuspendIs(s: Sched, n: int)
    requires s.curr.Some?
    ensures var s', t := Step(s, Event.Suspend(n)), s.curr.value;
            && s'.curr == None && s'.mode == Scheduling && s'.pid == s.pid && s'.quantum == s.quantum
            && |s'.queue| == |s.queue| + 1 && s'.queue[..|s.queue|] == s.queue
            && var u := s'.queue[|s.queue|];
            && SameTask(t, u) && u.queuingTime == t.queuingTime && u.state == Waiting && u.msec10 == n
  {
  }

  /** A task that suspends itself with `n >= 0`, and that nobody wakes, is asleep for `n` ticks and ready after
      one more; until then it is not dispatched. With `n < 0` it sleeps on. */
  lemma SuspendSleeps(s: Sched, t: Task, n: int, es: seq<Event>)
    requires Inv(s) && s.mode == Busy && s.curr == Some(t) && IsRun(Step(s, Event.Suspend(n)), es)
    requires forall i :: 0 <= i < |es| ==> es[i] != WakeByPid(t.pid) && es[i] != WakeByName(t.name)
    requires n >= 0 ==> Ticks(es) <= n || (Ticks(es) == n + 1 && es[|es| - 1] == Tick)
    ensures Enabled(s, Event.Suspend(n))
    ensures t.pid !in Pids(Dispatches(Step(s, Event.Suspend(n)), es))
    ensures t.(queuingTime := t.queuingTime + 10 * Ticks(es),
               state := if 0 <= n < Ticks(es) then Ready else Waiting,
               msec10 := if 0 <= n < Ticks(es) then 0 else n - Ticks(es))
            in RunFrom(Step(s, Event.Suspend(n)), es).queue
  {
    hide Inv, Step, IsRun, RunFrom, Slept, NobodyWakes, Ticks;
    SuspendIs(s, n);
    StepInv(s, Event.Suspend(n));
    SleepsFrom(Step(s, Event.Suspend(n)), |s.queue|, t, n, es);
  }

  lemma SleepsFrom(s: Sched, i: nat, t: Task, n: int, es: seq<Event>)
    requires Inv(s) && IsRun(s, es) && i < |s.queue| && s.queue[i] == t.(state := Waiting, msec10 := n)
    requires forall i :: 0 <= i < |es| ==> es[i] != WakeByPid(t.pid) && es[i] != WakeByName(t.name)
    requires n >= 0 ==> Ticks(es) <= n || (Ticks(es) == n + 1 && es[|es| - 1] == Tick)
    ensures t.pid !in Pids(Dispatches(s, es))
    ensures t.(queuingTime := t.queuingTime + 10 * Ticks(es),
               state := if 0 <= n < Ticks(es) then Ready else Waiting,
               msec10 := if 0 <= n < Ticks(es) then 0 else n - Ticks(es)) in RunFrom(s, es).queue
  {
    hide Inv, IsRun, RunFrom, Dispatches, Ticks;
    var u := s.queue[i];
    assert u in s.queue;
    assert NobodyWakes(es, u);
    SleepsExactly(s, es, u);
    NotAmong(Dispatches(s, es), u.pid);
  }

  lemma NotAmong(ts: seq<Task>, p: int)
    requires forall d :: d in ts ==> d.pid != p
    ensures p !in Pids(ts)
  {
  }

  /** Completion puts the current task at the rear, terminated; there it stays as it is through any run, and is
      never dispatched again. */
  lemma CompletedForGood(s: Sched, es: seq<Event>)
    requires Inv(s) && Enabled(s, Complete) && IsRun(Step(s, Complete), es)
    ensures var s1, t := Step(s, Complete), s.curr.value;
            && s1.curr == None && s1.mode == Scheduling && s1.queue == s.queue + [t.(state := Terminated)]
            && t.(state := Terminated) in RunFrom(s1, es).queue
            && t.pid !in Pids(Dispatches(s1, es))
  {
    StepInv(s, Complete);
    var s1, u := Step(s, Complete), s.curr.value.(state := Terminated);
    assert s1.queue[|s.queue|] == u;
    hide Inv, Step, Enabled, IsRun, RunFrom;
    TerminatedForGood(s1, es, u);
    NotAmong(Dispatches(s1, es), u.pid);
  }

  // ---------------------------------------------------------------- dispatch and exit

  /** A dispatch runs the task that the choice names, just as it was in the queue, for one tick, and keeps the
      order of the others; when it finds none it waits for one tick and changes no task. */
  lemma DispatchIs(s: Sched)
    requires Inv(s) && Enabled(s, Dispatch)
    ensures var s' := Step(s, Dispatch);
            && s'.pid == s.pid && s'.quantum == 1
            && match PopIndex(s.queue)
               case Some(i) =>
                 && i < |s.queue| && s'.mode == Busy && s'.curr == Some(s.queue[i])
                 && s'.queue == s.queue[..i] + s.queue[i + 1..]
               case None => s'.mode == Idle && s'.curr == None && s'.queue == s.queue
  {
    DispatchInv(s, 0);
    StepDispatches(s);
    PopIs(s.queue);
    if PopIndex(s.queue).Some? {
      var t := s.queue[PopIndex(s.queue).value];
      assert t.(state := Ready) == t;
    }
  }

  /** Whenever control is in the loop, it exits exactly if every task there is has terminated, and dispatches
      otherwise. */
  lemma ExitIffDone(es: seq<Event>)
    requires IsRun(BOOT, es) && RunFrom(BOOT, es).mode == Scheduling
    ensures var s := RunFrom(BOOT, es);
            && (Enabled(s, Exit) <==> forall i :: 0 <= i < |s.queue| ==> s.queue[i].state == Terminated)
            && (Enabled(s, Dispatch) <==> !Enabled(s, Exit))
            && s.curr == None && |s.queue| == |All(s)|
  {
    BootInv();
    RunInv(BOOT, es);
    hide IsRun, RunFrom, HasPid, DistinctPids;
    var s := RunFrom(BOOT, es);
    assert forall i :: 0 <= i < |s.queue| ==> All(s)[i] == s.queue[i] && Sane(All(s)[i]);
  }

  /** No run gets stuck: away from the loop a tick can always come, unless the loop has not been started; a
      current task can always suspend itself, complete and wake others; and tasks can always be added. */
  lemma NeverStuck(es: seq<Event>)
    requires IsRun(BOOT, es)
    ensures var s := RunFrom(BOOT, es);
            && (Enabled(s, Event.Start) <==> s.mode == Stopped)
            && (Enabled(s, Tick) <==> s.mode == Busy || s.mode == Idle)
            && (s.mode == Busy <==> s.curr.Some?)
            && (s.curr.Some? ==>
                  && Enabled(s, Complete) && (forall n :: Enabled(s, Event.Suspend(n)))
                  && (forall p :: p != 0 ==> Enabled(s, WakeByPid(p))) && (forall n :: Enabled(s, WakeByName(n))))
            && (forall n, q, p :: Enabled(s, Add(n, q, p)) <==> s.mode != Scheduling)
  {
    BootInv();
    RunInv(BOOT, es);
  }
}
