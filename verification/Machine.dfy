/** The scheduler as a state machine: dispatch, tick, suspension, completion, creation and wake-ups. */
module Machine {
  import opened Options
  import opened Tasks

  /** `Stopped`: the scheduler loop is not running. `Scheduling`: control is in the loop. `Busy`: the
      current task runs. `Idle`: the idle context runs, until the next tick. */
  datatype Mode = Stopped | Scheduling | Busy | Idle

  datatype Sched = Sched(queue: seq<Task>, curr: Option<Task>, pid: int, quantum: int, mode: Mode)

  const BOOT: Sched := Sched([], None, 0, 100000, Stopped)

  datatype Event =
    | Start
    | Dispatch
    | Exit
    | Tick
    | Suspend(msec10: int)
    | Complete
    | Add(name: string, timeQuantum: char, priority: char)
    | WakeByPid(wpid: int)
    | WakeByName(wname: string)

  ghost predicate Enabled(s: Sched, e: Event) {
    match e
    case Start => s.mode == Stopped
    case Dispatch => s.mode == Scheduling && HasWork(s.queue)
    case Exit => s.mode == Scheduling && !HasWork(s.queue)
    case Tick => s.mode == Busy || s.mode == Idle
    case Suspend(_) => s.mode == Busy && s.curr.Some?
    case Complete => s.mode == Busy && s.curr.Some?
    case Add(_, _, _) => s.mode != Scheduling
    case WakeByPid(p) => s.mode == Busy && p != 0
    case WakeByName(_) => s.mode == Busy
  }

  /** The quantum granted: the source compares the queueing time, not the quantum field, with 'L'. */
  function Granted(t: Task): int {
    if t.queuingTime == 'L' as int then 2 else 1
  }

  function NewTask(pid: int, e: Event): Task
    requires e.Add?
  {
    Task(pid, e.name, Ready, 0, e.timeQuantum, e.priority, 0)
  }

  /** Control comes back to the loop, which queues the current task again. */
  function Back(s: Sched): Sched {
    match s.curr
    case Some(t) => s.(queue := s.queue + [t], curr := None, mode := Scheduling)
    case None => s.(mode := Scheduling)
  }

  function Dispatched(s: Sched): Sched {
    match PopIndex(s.queue)
    case Some(i) =>
      PopIs(s.queue);
      var t := s.queue[i].(state := Ready);
      s.(queue := Without(s.queue, i), curr := Some(t), quantum := Granted(t), mode := Busy)
    case None => s.(quantum := 1, mode := Idle)
  }

  function Step(s: Sched, e: Event): Sched {
    match e
    case Start => s.(mode := Scheduling)
    case Dispatch => Dispatched(s)
    case Exit => s.(mode := Stopped)
    case Tick => Back(s.(queue := TickAll(s.queue), quantum := s.quantum - 1))
    case Suspend(n) =>
      if s.curr.Some? then Back(s.(curr := Some(s.curr.value.(msec10 := n, state := Waiting)))) else s
    case Complete =>
      if s.curr.Some? then Back(s.(curr := Some(s.curr.value.(state := Terminated)))) else s
    case Add(name, _, _) =>
      if KnownName(name) then s.(pid := s.pid + 1, queue := s.queue + [NewTask(s.pid + 1, e)]) else s
    case WakeByPid(p) => s.(queue := WakePid(s.queue, p))
    case WakeByName(n) => s.(queue := WakeName(s.queue, n))
  }

  ghost predicate IsRun(s: Sched, es: seq<Event>)
    decreases |es|
  {
    es == [] || (Enabled(s, es[0]) && IsRun(Step(s, es[0]), es[1..]))
  }

  function RunFrom(s: Sched, es: seq<Event>): Sched
    decreases |es|
  {
    if es == [] then s else RunFrom(Step(s, es[0]), es[1..])
  }

  // ---------------------------------------------------------------- the loop and what runs in between

  /** Events that happen while control is away from the loop. */
  ghost predicate AwayOnly(es: seq<Event>) {
    forall i :: 0 <= i < |es| ==> !es[i].Start? && !es[i].Dispatch? && !es[i].Exit?
  }

  /** `turns` says, for each turn of the loop, what happens from the switch away from it to the switch
      back. */
  ghost predicate Plays(s: Sched, turns: seq<seq<Event>>)
    decreases |turns|
  {
    && s.mode == Scheduling && s.curr == None
    && (HasWork(s.queue) && turns != [] ==>
          && AwayOnly(turns[0]) && IsRun(Dispatched(s), turns[0])
          && Plays(RunFrom(Dispatched(s), turns[0]), turns[1..]))
  }

  /** The events of the loop for these turns; it exits when there is no work. */
  ghost function Trace(s: Sched, turns: seq<seq<Event>>): seq<Event>
    decreases |turns|
  {
    if !HasWork(s.queue) then [Exit]
    else if turns == [] then []
    else [Dispatch] + turns[0] + Trace(RunFrom(Dispatched(s), turns[0]), turns[1..])
  }

  lemma {:induction false} RunFromConcat(s: Sched, es: seq<Event>, fs: seq<Event>)
    ensures RunFrom(s, es + fs) == RunFrom(RunFrom(s, es), fs)
    ensures IsRun(s, es) && IsRun(RunFrom(s, es), fs) ==> IsRun(s, es + fs)
    decreases |es|
  {
    if es == [] {
      assert es + fs == fs;
    } else {
      assert (es + fs)[0] == es[0] && (es + fs)[1..] == es[1..] + fs;
      RunFromConcat(Step(s, es[0]), es[1..], fs);
    }
  }

  /** One turn of the loop, split off its trace. */
  lemma TraceTurn(s: Sched, turns: seq<seq<Event>>)
    requires Plays(s, turns) && HasWork(s.queue) && turns != []
    ensures AwayOnly(turns[0]) && IsRun(Dispatched(s), turns[0])
    ensures var s' := RunFrom(Dispatched(s), turns[0]);
            && Plays(s', turns[1..])
            && RunFrom(s, Trace(s, turns)) == RunFrom(s', Trace(s', turns[1..]))
            && (IsRun(s', Trace(s', turns[1..])) ==> IsRun(s, Trace(s, turns)))
  {
    hide Dispatched, RunFrom, IsRun, Enabled;
    var s1 := Dispatched(s);
    var rest := Trace(RunFrom(s1, turns[0]), turns[1..]);
    assert Trace(s, turns) == [Dispatch] + (turns[0] + rest);
    RunFromConcat(s1, turns[0], rest);
    RunCons(s, Dispatch, turns[0] + rest);
    EnabledDispatch(s);
  }

  lemma EnabledDispatch(s: Sched)
    requires s.mode == Scheduling && HasWork(s.queue)
    ensures Enabled(s, Dispatch)
  {
  }

  lemma RunCons(s: Sched, e: Event, es: seq<Event>)
    ensures RunFrom(s, [e] + es) == RunFrom(Step(s, e), es)
    ensures Enabled(s, e) && IsRun(Step(s, e), es) ==> IsRun(s, [e] + es)
  {
    hide Step, Enabled;
    assert ([e] + es)[0] == e && ([e] + es)[1..] == es;
  }

  /** The end of the trace. */
  lemma TraceEnd(s: Sched, turns: seq<seq<Event>>)
    requires !HasWork(s.queue) || turns == []
    ensures RunFrom(s, Trace(s, turns)) == if HasWork(s.queue) then s else s.(mode := Stopped)
  {
    if !HasWork(s.queue) {
      assert RunFrom(Step(s, Exit), [Exit][1..]) == Step(s, Exit);
    }
  }

  /** What the loop does is a run of the machine. */
  lemma {:induction false} TraceIsRun(s: Sched, turns: seq<seq<Event>>)
    requires Plays(s, turns)
    ensures IsRun(s, Trace(s, turns))
    decreases |turns|
  {
    if HasWork(s.queue) && turns != [] {
      TraceIsRun(RunFrom(Dispatched(s), turns[0]), turns[1..]);
      TraceTurn(s, turns);
    } else if !HasWork(s.queue) {
      assert [Exit][1..] == [];
      assert IsRun(Step(s, Exit), []);
    }
  }

  /** The loop, given what happens at its turns, has stopped at the end of them exactly if no queued task is
      ready or waiting then. */
  lemma {:induction false} TraceStopsIff(s: Sched, turns: seq<seq<Event>>)
    requires Plays(s, turns)
    ensures var s' := RunFrom(s, Trace(s, turns));
            s'.mode == Stopped <==>
            forall i :: 0 <= i < |s'.queue| ==> s'.queue[i].state != Ready && s'.queue[i].state != Waiting
    decreases |turns|
  {
    if HasWork(s.queue) && turns != [] {
      TraceTurn(s, turns);
      TraceStopsIff(RunFrom(Dispatched(s), turns[0]), turns[1..]);
    } else {
      TraceEnd(s, turns);
    }
  }

  // ---------------------------------------------------------------- invariant

  /** All tasks there are: the queue, and the current one. */
  function All(s: Sched): seq<Task> {
    s.queue + if s.curr.Some? then [s.curr.value] else []
  }

  ghost predicate DistinctPids(ts: seq<Task>) {
    forall i, j :: 0 <= i < j < |ts| ==> ts[i].pid != ts[j].pid
  }

  ghost predicate HasPid(ts: seq<Task>, p: int) {
    exists i :: 0 <= i < |ts| && ts[i].pid == p
  }

  ghost predicate Sane(t: Task) {
    && t.state != Running
    && 0 <= t.queuingTime && t.queuingTime % 10 == 0
    && (t.state == Ready ==> t.msec10 == 0)
  }

  ghost predicate Inv(s: Sched) {
    && DistinctPids(All(s))
    && (forall p :: HasPid(All(s), p) <==> 1 <= p <= s.pid)
    && AllSane(All(s))
    && (s.curr.Some? <==> s.mode == Busy)
    && (s.curr.Some? ==> s.curr.value.state == Ready)
    && (s.mode == Busy || s.mode == Idle ==> s.quantum == 1)
    && 0 <= s.pid
  }

  /** How one step moves the tasks there are: each keeps its place or, in a dispatch, moves to the end. */
  ghost predicate Moves(ts: seq<Task>, us: seq<Task>) {
    && |us| == |ts|
    && forall i :: 0 <= i < |ts| ==> us[i].pid == ts[i].pid
  }

  lemma MovesInv(ts: seq<Task>, us: seq<Task>, p: int)
    requires Moves(ts, us) && DistinctPids(ts)
    ensures DistinctPids(us) && (HasPid(us, p) <==> HasPid(ts, p))
  {
    if HasPid(ts, p) {
      var i :| 0 <= i < |ts| && ts[i].pid == p;
      assert us[i].pid == p;
    }
    if HasPid(us, p) {
      var i :| 0 <= i < |us| && us[i].pid == p;
      assert ts[i].pid == p;
    }
  }

  lemma RotateInv(ts: seq<Task>, us: seq<Task>, i: nat, p: int)
    requires i < |ts| && us == ts[..i] + ts[i + 1..] + [ts[i]] && DistinctPids(ts)
    ensures DistinctPids(us) && (HasPid(us, p) <==> HasPid(ts, p))
  {
    forall j | 0 <= j < |ts|
      ensures us[j] == ts[if j < i then j else if j < |ts| - 1 then j + 1 else i]
    {
    }
    if HasPid(ts, p) {
      var j :| 0 <= j < |ts| && ts[j].pid == p;
      assert us[if j < i then j else if j == i then |ts| - 1 else j - 1] == ts[j];
    }
    if HasPid(us, p) {
      var j :| 0 <= j < |us| && us[j].pid == p;
      assert ts[if j < i then j else if j < |ts| - 1 then j + 1 else i] == us[j];
    }
  }

  lemma AppendInv(ts: seq<Task>, t: Task, p: int)
    requires DistinctPids(ts) && !HasPid(ts, t.pid)
    ensures DistinctPids(ts + [t]) && (HasPid(ts + [t], p) <==> HasPid(ts, p) || p == t.pid)
  {
    var us := ts + [t];
    assert us[|ts|] == t;
    forall i | 0 <= i < |ts|
      ensures us[i] == ts[i] && ts[i].pid != t.pid
    {
    }
    if HasPid(ts, p) {
      var i :| 0 <= i < |ts| && ts[i].pid == p;
      assert us[i].pid == p;
    }
  }

  /** What all events but a dispatch and an addition do to the tasks there are. */
  function Update(s: Sched, e: Event, i: nat): Task
    requires i < |All(s)|
  {
    var t := All(s)[i];
    if i == |s.queue| then
      match e
      case Suspend(n) => t.(msec10 := n, state := Waiting)
      case Complete => t.(state := Terminated)
      case _ => t
    else
      match e
      case Tick => Ticked(t)
      case WakeByPid(p) => if IsFirstWaiting(s.queue, p, i) then Woken(t) else t
      case WakeByName(n) => if t.name == n && t.state == Waiting then Woken(t) else t
      case _ => t
  }

  lemma StepUpdates(s: Sched, e: Event)
    requires Enabled(s, e) && e != Dispatch && !e.Add? && (s.curr.Some? <==> s.mode == Busy)
    ensures |All(Step(s, e))| == |All(s)|
    ensures forall i: nat :: i < |All(s)| ==> All(Step(s, e))[i] == Update(s, e, i)
  {
    if e.WakeByPid? {
      WakePidAt(s.queue, e.wpid);
    }
  }

  lemma StepDispatches(s: Sched)
    requires Inv(s) && Enabled(s, Dispatch)
    ensures s.curr == None && All(s) == s.queue
    ensures match PopIndex(s.queue)
            case None => All(Dispatched(s)) == All(s)
            case Some(i) =>
              && i < |s.queue| && s.queue[i].state == Ready
              && All(Dispatched(s)) == s.queue[..i] + s.queue[i + 1..] + [s.queue[i]]
  {
    assert All(s) == s.queue;
    PopIs(s.queue);
    if PopIndex(s.queue).Some? {
      var t := s.queue[PopIndex(s.queue).value];
      assert t.(state := Ready) == t;
    }
  }

  ghost predicate PidsOk(ts: seq<Task>, pid: int, p: int) {
    DistinctPids(ts) && (HasPid(ts, p) <==> 1 <= p <= pid)
  }

  ghost predicate AllSane(ts: seq<Task>) {
    forall i :: 0 <= i < |ts| ==> Sane(ts[i])
  }

  lemma UpdateInv(s: Sched, e: Event, p: int)
    requires Inv(s) && Enabled(s, e) && e != Dispatch && !e.Add?
    ensures PidsOk(All(Step(s, e)), Step(s, e).pid, p) && AllSane(All(Step(s, e)))
  {
    StepUpdates(s, e);
    MovesInv(All(s), All(Step(s, e)), p);
  }

  lemma DispatchInv(s: Sched, p: int)
    requires Inv(s) && Enabled(s, Dispatch)
    ensures PidsOk(All(Dispatched(s)), s.pid, p) && AllSane(All(Dispatched(s)))
    ensures Dispatched(s).pid == s.pid && Dispatched(s).quantum == 1
    ensures Dispatched(s).curr.Some? <==> Dispatched(s).mode == Busy
    ensures Dispatched(s).curr.Some? ==> Dispatched(s).curr.value.state == Ready
  {
    StepDispatches(s);
    if PopIndex(s.queue).Some? {
      RotateInv(All(s), All(Dispatched(s)), PopIndex(s.queue).value, p);
      assert Sane(All(s)[PopIndex(s.queue).value]);
    }
  }

  lemma StepInv(s: Sched, e: Event)
    requires Inv(s) && Enabled(s, e)
    ensures Inv(Step(s, e))
  {
    forall p
      ensures HasPid(All(Step(s, e)), p) <==> 1 <= p <= Step(s, e).pid
      ensures DistinctPids(All(Step(s, e))) && AllSane(All(Step(s, e)))
    {
      if e == Dispatch {
        DispatchInv(s, p);
      } else if e.Add? {
        AddInv(s, e, p);
      } else {
        UpdateInv(s, e, p);
      }
    }
    if e == Dispatch {
      DispatchInv(s, 0);
    }
    hide DistinctPids, HasPid, AllSane, PopIndex, Dispatched;
    assert forall p :: HasPid(All(Step(s, e)), p) <==> 1 <= p <= Step(s, e).pid;
  }

  lemma AddInv(s: Sched, e: Event, p: int)
    requires Inv(s) && Enabled(s, e) && e.Add?
    ensures var us := All(Step(s, e));
            PidsOk(us, Step(s, e).pid, p) && AllSane(us)
  {
    if KnownName(e.name) {
      var t, q := NewTask(s.pid + 1, e), s.queue + [NewTask(s.pid + 1, e)];
      var ts, us := All(s), All(Step(s, e));
      AppendInv(ts, t, p);
      if s.curr.Some? {
        var vs := ts + [t];
        var n := |s.queue|;
        assert us == vs[..n] + vs[n + 1..] + [vs[n]];
        RotateInv(vs, us, n, p);
      } else {
        assert us == ts + [t];
      }
    }
  }

  /** In every state of every run, each pid ever created belongs to exactly one task, in the queue or
      running; no queued task is marked running; the quantum granted is one tick. */
  lemma {:induction false} RunInv(s: Sched, es: seq<Event>)
    requires Inv(s) && IsRun(s, es)
    ensures Inv(RunFrom(s, es))
    decreases |es|
  {
    if es != [] {
      StepInv(s, es[0]);
      RunInv(Step(s, es[0]), es[1..]);
    }
  }

  lemma BootInv()
    ensures Inv(BOOT)
  {
  }
}
