/** The scheduler: the task queue, the current task and the calls that change them. */
module Scheduling {
  import opened Options
  import opened Tasks
  import opened Machine
  import opened TaskQueues

  class Scheduler {
    const queuingTask: TaskQueue
    var currTaskNode: TaskNode?
    var pid: int
    var curTimeQuantum: int

    /** Where control is; the source has it in its saved contexts. */
    ghost var mode: Mode

    ghost predicate Valid()
      reads this, queuingTask, queuingTask.nodes
    {
      queuingTask.Valid() && currTaskNode !in queuingTask.nodes && 0 <= pid
    }

    ghost function Current(): Option<Task>
      reads this, currTaskNode
    {
      if currTaskNode == null then None else Some(currTaskNode.Value())
    }

    ghost function Abs(): Sched
      reads this, queuingTask, queuingTask.nodes, currTaskNode
    {
      Sched(queuingTask.Contents(), Current(), pid, curTimeQuantum, mode)
    }

    /** The objects that the calls may change. */
    ghost function Footprint(): set<object>
      reads this, queuingTask
    {
      {this, queuingTask} + (set x | x in queuingTask.nodes) + if currTaskNode == null then {} else {currTaskNode}
    }

    constructor ()
      ensures Valid() && Abs() == BOOT
    {
      queuingTask := new TaskQueue();
      currTaskNode, pid, curTimeQuantum, mode := null, 0, 100000, Stopped;
    }

    /** The `start` command while the loop is not running. */
    method StartSimulation()
      requires Valid() && Enabled(Abs(), Start)
      modifies this
      ensures Valid() && Abs() == Step(old(Abs()), Start)
      ensures fresh(Footprint() - old(Footprint()))
    {
      mode := Machine.Scheduling;
    }

    /** One dispatch: the part of the loop body before the switch away from it. */
    method DispatchNext()
      requires Valid()
      modifies this, queuingTask, queuingTask.nodes
      ensures Valid() && Abs() == Dispatched(old(Abs()).(curr := None))
      ensures fresh(Footprint() - old(Footprint()))
    {
      hide PopIndex, Granted, Without;
      PopIs(queuingTask.Contents());
      PopCurrent();
      if currTaskNode != null {
        RunCurrent();
      } else {
        curTimeQuantum := 1;
        mode := Idle;
      }
    }

    /** Takes the next task out of the queue and makes it the current one. */
    method PopCurrent()
      requires Valid()
      modifies this, queuingTask, queuingTask.nodes`next
      ensures Valid()
      ensures var s := old(Abs());
              match PopIndex(s.queue)
              case None => currTaskNode == null && Abs() == s.(curr := None)
              case Some(i) =>
                && i < |s.queue| && currTaskNode in old(queuingTask.nodes)
                && Abs() == s.(queue := Without(s.queue, i), curr := Some(s.queue[i]))
      ensures fresh(Footprint() - old(Footprint()))
    {
      hide PopIndex, Without, TaskQueue.Valid, TaskQueue.Contents;
      currTaskNode := queuingTask.PopNode();
    }

    /** Grants the current task its quantum, and switches to it. */
    method RunCurrent()
      requires Valid() && currTaskNode != null
      modifies `curTimeQuantum, `mode, currTaskNode`state
      ensures Valid()
      ensures var t := old(currTaskNode.Value()).(state := Ready);
              Abs() == old(Abs()).(curr := Some(t), quantum := Granted(t), mode := Busy)
      ensures fresh(Footprint() - old(Footprint()))
    {
      if currTaskNode.queuingTime == 'L' as int {
        curTimeQuantum := 2;
      } else {
        curTimeQuantum := 1;
      }
      currTaskNode.state := Ready;
      mode := Busy;
    }

    /** The rest of the loop body, after control has come back: the current task is queued again, as a
        copy in a new node. */
    method SwitchBack()
      requires Valid()
      modifies this, queuingTask, queuingTask.nodes
      ensures Valid() && currTaskNode == null && Abs() == Back(old(Abs()))
      ensures fresh(Footprint() - old(Footprint()))
    {
      if currTaskNode != null {
        var first := queuingTask.EnQueue(currTaskNode.pid, currTaskNode.name, currTaskNode.state,
                                         currTaskNode.queuingTime, currTaskNode.timeQuantum,
                                         currTaskNode.priority, currTaskNode.msec10);
        currTaskNode := null;
      }
      mode := Machine.Scheduling;
    }

    method HandlerTimeFrame()
      requires Valid() && Enabled(Abs(), Tick)
      modifies this, queuingTask, queuingTask.nodes
      ensures Valid() && Abs() == Step(old(Abs()), Tick)
      ensures fresh(Footprint() - old(Footprint()))
    {
      hide Dispatched, TickAll, WakePid, WakeName, Back, TaskQueue.Valid, TaskQueue.Contents;
      TickQueue();
      SwitchBack();
    }

    /** The tick's effect on the queue and on the quantum left. */
    method TickQueue()
      requires Valid()
      modifies `curTimeQuantum, queuingTask.nodes`queuingTime, queuingTask.nodes`msec10, queuingTask.nodes`state
      ensures Valid() && Footprint() == old(Footprint())
      ensures Abs() == old(Abs()).(queue := TickAll(old(Abs()).queue), quantum := old(Abs()).quantum - 1)
    {
      hide TickAll, TaskQueue.Valid, TaskQueue.Contents;
      queuingTask.SetQueueAndSuspendTime();
      curTimeQuantum := curTimeQuantum - 1;
    }

    method HwSuspend(msec10: int)
      requires Valid() && Enabled(Abs(), Event.Suspend(msec10))
      modifies this, currTaskNode, queuingTask, queuingTask.nodes
      ensures Valid() && Abs() == Step(old(Abs()), Event.Suspend(msec10))
      ensures fresh(Footprint() - old(Footprint()))
    {
      currTaskNode.msec10 := msec10;
      currTaskNode.state := Waiting;
      SwitchBack();
    }

    method Completion()
      requires Valid() && Enabled(Abs(), Complete)
      modifies this, currTaskNode, queuingTask, queuingTask.nodes
      ensures Valid() && Abs() == Step(old(Abs()), Complete)
      ensures fresh(Footprint() - old(Footprint()))
    {
      if currTaskNode != null {
        currTaskNode.state := Terminated;
      }
      SwitchBack();
    }

    /** Creates a task with the default quantum and priority; returns its pid, or -1 for an unknown
        name. */
    method HwTaskCreate(name: string) returns (r: int)
      requires Valid() && mode != Machine.Scheduling
      modifies this, queuingTask, queuingTask.nodes
      ensures Valid() && Abs() == Step(old(Abs()), Add(name, 'S', 'L'))
      ensures r == -1 <==> !(|name| == 5 && name[..4] == "task" && '1' <= name[4] <= '6')
      ensures r == -1 ==> Abs() == old(Abs())
      ensures r != -1 ==>
                && r == pid == old(pid) + 1 && queuingTask.nodes != [] && fresh(queuingTask.rear)
                && queuingTask.nodes == old(queuingTask.nodes) + [queuingTask.rear]
                && var t := queuingTask.rear;
                && t.pid == r && t.name == name && t.timeQuantum == 'S' && t.priority == 'L'
                && t.state == Ready && t.queuingTime == 0 && t.msec10 == 0
      ensures fresh(Footprint() - old(Footprint()))
    {
      hide Dispatched, TickAll, WakePid, WakeName, Back, TaskQueue.Valid, TaskQueue.Contents;
      KnownNames(name);
      if !KnownName(name) {
        return -1;
      }
      pid := pid + 1;
      var first := queuingTask.EnQueue(pid, name, Ready, 0, 'S', 'L', 0);
      return pid;
    }

    /** The shell's `add` command: creates a task, and sets quantum and priority on the rear node. */
    method AddCommand(name: string, timeQuantum: char, priority: char) returns (r: int)
      requires Valid() && Enabled(Abs(), Add(name, timeQuantum, priority))
      modifies this, queuingTask, queuingTask.nodes
      ensures Valid() && Abs() == Step(old(Abs()), Add(name, timeQuantum, priority))
      ensures r == -1 <==> !(|name| == 5 && name[..4] == "task" && '1' <= name[4] <= '6')
      ensures r != -1 ==>
                && r == old(pid) + 1 && queuingTask.rear != null
                && var t := queuingTask.rear;
                && t.pid == r && t.name == name && t.timeQuantum == timeQuantum && t.priority == priority
                && t.state == Ready && t.queuingTime == 0 && t.msec10 == 0
      ensures fresh(Footprint() - old(Footprint()))
    {
      hide Dispatched, TickAll, WakePid, WakeName, Back;
      r := HwTaskCreate(name);
      if r != -1 {
        queuingTask.SetRear(timeQuantum, priority);
      }
    }

    /** An `add` line of the shell, split into words. Of six words the fourth and the sixth are taken, whatever
        stands before them; of four, the third says which of the two the fourth is. */
    method ExecuteAdd(args: seq<string>) returns (r: int)
      requires Valid() && mode != Machine.Scheduling
      requires |args| >= 2 && forall i :: 0 <= i < |args| ==> args[i] != ""
      modifies this, queuingTask, queuingTask.nodes
      ensures Valid()
      ensures var q := if |args| == 6 || (|args| == 4 && args[2] == "-t") then args[3][0] else 'S';
              var p := if |args| == 6 then args[5][0] else if |args| == 4 && args[2] == "-p" then args[3][0] else 'L';
              Abs() == Step(old(Abs()), Add(args[1], q, p))
      ensures r == -1 <==> Abs() == old(Abs())
      ensures fresh(Footprint() - old(Footprint()))
    {
      hide Dispatched, TickAll, WakePid, WakeName, Back, TaskQueue.Valid, TaskQueue.Contents;
      KnownNames(args[1]);
      var timeQuantum, priority := 'S', 'L';
      if |args| == 6 {
        timeQuantum := args[3][0];
        priority := args[5][0];
      } else if |args| == 4 {
        if args[2] == "-t" {
          timeQuantum := args[3][0];
        } else if args[2] == "-p" {
          priority := args[3][0];
        }
      }
      r := AddCommand(args[1], timeQuantum, priority);
    }

    method HwWakeupPid(p: int)
      requires Valid() && Enabled(Abs(), WakeByPid(p))
      modifies queuingTask.nodes
      ensures Valid() && Abs() == Step(old(Abs()), WakeByPid(p))
      ensures fresh(Footprint() - old(Footprint()))
    {
      queuingTask.WakeNode(None, p);
    }

    method HwWakeupTaskname(name: string)
      requires Valid() && Enabled(Abs(), WakeByName(name))
      modifies queuingTask.nodes
      ensures Valid() && Abs() == Step(old(Abs()), WakeByName(name))
      ensures fresh(Footprint() - old(Footprint()))
    {
      queuingTask.WakeNode(Some(name), 0);
    }

    /** One event between a switch away from the loop and the switch back. */
    method Perform(e: Event)
      requires Valid() && Enabled(Abs(), e) && !e.Start? && !e.Dispatch? && !e.Exit?
      modifies Footprint()
      ensures Valid() && Abs() == Step(old(Abs()), e)
      ensures fresh(Footprint() - old(Footprint()))
    {
      match e
      case Tick => HandlerTimeFrame();
      case Suspend(n) => HwSuspend(n);
      case Complete => Completion();
      case Add(name, timeQuantum, priority) => var _ := AddCommand(name, timeQuantum, priority);
      case WakeByPid(p) => HwWakeupPid(p);
      case WakeByName(name) => HwWakeupTaskname(name);
    }

    /** What happens from a switch away from the loop to the switch back. */
    method PlayTurn(es: seq<Event>)
      requires Valid() && IsRun(Abs(), es) && AwayOnly(es)
      modifies Footprint()
      ensures Valid() && Abs() == RunFrom(old(Abs()), es)
      ensures fresh(Footprint() - old(Footprint()))
    {
      hide Step, Enabled;
      var i := 0;
      while i < |es|
        invariant 0 <= i <= |es| && Valid()
        invariant IsRun(Abs(), es[i..]) && RunFrom(Abs(), es[i..]) == RunFrom(old(Abs()), es)
        invariant fresh(Footprint() - old(Footprint()))
      {
        assert es[i..][0] == es[i] && es[i..][1..] == es[i + 1..];
        Perform(es[i]);
        i := i + 1;
      }
    }

    /** The body of the scheduler loop, with `es` for what happens at its context switch, and the test
        of its condition that follows. */
    method LoopBody(es: seq<Event>, ghost rest: seq<seq<Event>>) returns (work: bool)
      requires Valid() && currTaskNode == null && HasWork(Abs().queue) && Plays(Abs(), [es] + rest)
      modifies Footprint()
      ensures Valid() && currTaskNode == null && work == HasWork(Abs().queue) && Plays(Abs(), rest)
      ensures RunFrom(Abs(), Trace(Abs(), rest)) == RunFrom(old(Abs()), Trace(old(Abs()), [es] + rest))
      ensures fresh(Footprint() - old(Footprint()))
    {
      hide Valid, Abs, RunFrom, Trace, Plays, HasWork, IsRun, Dispatched;
      ghost var s := Abs();
      CurrIsNone();
      assert ([es] + rest)[0] == es && ([es] + rest)[1..] == rest;
      TraceTurn(s, [es] + rest);
      DispatchNext();
      PlayTurn(es);
      NoCurrent(rest);
      work := HasTaskToRun();
    }

    method HasTaskToRun() returns (b: bool)
      requires Valid()
      ensures b == HasWork(Abs().queue)
    {
      b := queuingTask.HasTaskToRun();
    }

    method ExitLoop()
      requires Valid()
      modifies `mode
      ensures Valid() && Abs() == old(Abs()).(mode := Stopped) && Footprint() == old(Footprint())
    {
      mode := Stopped;
    }

    /** The scheduler loop, with `turns` for what happens at its context switches. */
    method SchedulingSimulator(turns: seq<seq<Event>>)
      requires Valid() && Plays(Abs(), turns)
      modifies Footprint()
      ensures Valid() && Abs() == RunFrom(old(Abs()), Trace(old(Abs()), turns))
      ensures Abs().mode == Stopped <==>
              forall i :: 0 <= i < |Abs().queue| ==> Abs().queue[i].state != Ready && Abs().queue[i].state != Waiting
      ensures fresh(Footprint() - old(Footprint()))
    {
      hide Valid, Abs, RunFrom, Trace, Plays, HasWork;
      NoCurrent(turns);
      TraceStopsIff(Abs(), turns);
      var n := 0;
      var work := HasTaskToRun();
      while work && n < |turns|
        invariant 0 <= n <= |turns| && Valid() && work == HasWork(Abs().queue) && currTaskNode == null
        invariant Plays(Abs(), turns[n..])
        invariant RunFrom(Abs(), Trace(Abs(), turns[n..])) == RunFrom(old(Abs()), Trace(old(Abs()), turns))
        invariant fresh(Footprint() - old(Footprint()))
      {
        assert turns[n..] == [turns[n]] + turns[n + 1..];
        work := LoopBody(turns[n], turns[n + 1..]);
        n := n + 1;
      }
      TraceEnd(Abs(), turns[n..]);
      if !work {
        ExitLoop();
      }
    }

    lemma CurrIsNone()
      requires currTaskNode == null
      ensures Abs().curr == None && Abs().(curr := None) == Abs()
    {
    }

    lemma NoCurrent(turns: seq<seq<Event>>)
      requires Plays(Abs(), turns)
      ensures currTaskNode == null
    {
    }
  }
}
