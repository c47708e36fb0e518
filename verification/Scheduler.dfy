/**
 The scheduler inside the Go engine's dispatch loop. The running task's stack, frames,
 pc and handlers are local variables of the loop, its working set; a switch saves them
 into the task and loads another's. Proved to be the transition system of Tasks.dfy.

 Ordinary instructions are executed by the shared step here; GoEngine.dfy refines that
 step to the growing stack.
 */
module Scheduler {
  import opened Common
  import opened Isa
  import opened Machine
  import opened Lockstep
  import opened Tasks
  import opened Fairness

  lemma ModOnce(x: nat, n: nat)
    requires 0 < n && x < 2 * n
    ensures x % n == if x < n then x else x - n
  {
    if x >= n {
      assert x == n * 1 + (x - n);
    }
  }

  class Loop {
    const p: Program
    const ops: Ops
    const millis: Value -> int
    // the working set of the running task
    var pc: nat
    var stack: seq<Value>
    var frames: seq<Frame>
    var handlers: seq<Handler>
    // shared by all tasks
    var globals: seq<Value>
    var closures: nat
    var world: World
    // the scheduler
    var tasks: seq<Task>
    var cur: nat
    var now: int

    /** The tasks as last saved. */
    ghost function Saved(): System
      reads this
    {
      System(tasks, cur, globals, closures, world, now)
    }

    function WorkingSet(): State
      reads this
    {
      State(pc, stack, frames, handlers, globals, closures, world)
    }

    /** The tasks with the working set in its place. */
    ghost function Sys(): System
      requires cur < |tasks|
      reads this
    {
      WithContext(Saved(), WorkingSet())
    }

    constructor (p: Program, ops: Ops, millis: Value -> int, w: World, start: int)
      requires p.entryFn < |p.funcs|
      ensures cur < |tasks| && Sys() == InitialSystem(p, w, start)
      ensures this.p == p && this.ops == ops && this.millis == millis
    {
      this.p, this.ops, this.millis := p, ops, millis;
      var main := p.funcs[p.entryFn];
      pc, stack, frames, handlers := main.entry, [], [Frame(-1, Fill(GO_BLANK, main.nlocals), p.entryFn)], [];
      globals, closures, world := [], 0, w;
      tasks, cur, now := [Task(0, [], [], [], false, Null, None, None)], 0, start;
    }

    /** time.Now(): a monotone clock. */
    method Clock() returns (t: int)
      modifies `now
      ensures old(now) <= now == t
    {
      t :| t >= now;
      now := t;
    }

    method Save()
      requires cur < |tasks|
      modifies `tasks
      ensures |tasks| == |old(tasks)| && Saved() == old(Sys())
    {
      tasks := tasks[cur := tasks[cur].(pc := pc, stack := stack, frames := frames, handlers := handlers)];
    }

    method Load()
      requires cur < |tasks|
      modifies `pc, `stack, `frames, `handlers
      ensures Sys() == Saved()
    {
      var t := tasks[cur];
      pc, stack, frames, handlers := t.pc, t.stack, t.frames, t.handlers;
      assert tasks[cur := tasks[cur]] == tasks;
    }

    /** Readiness of task `i`, the clock read if it sleeps. */
    method IsReady(i: nat) returns (b: bool)
      requires i < |tasks|
      modifies `now
      ensures now >= old(now)
      ensures b ==> Ready(tasks, i, now)
      ensures !b ==> !Ready(tasks, i, old(now))
    {
      var t := tasks[i];
      if t.done {
        return false;
      }
      if t.wakeAt.Some? {
        var c := Clock();
        return t.wakeAt.value <= c;
      }
      if t.awaiting.Some? {
        return t.awaiting.value < |tasks| && tasks[t.awaiting.value].done;
      }
      return true;
    }

    /** One round of the search, from the task after the current one back to it. */
    method Try() returns (ok: bool)
      requires cur < |tasks|
      modifies `cur, `tasks, `now
      ensures ok ==> Picked(old(Saved()), Saved())
      ensures !ok ==> now >= old(now) && cur == old(cur) && tasks == old(tasks)
      ensures !ok ==> forall i :: 0 <= i < |tasks| ==> !Ready(tasks, i, old(now))
    {
      var n := |tasks|;
      var off := 1;
      while off <= n
        invariant 1 <= off <= n + 1
        invariant cur == old(cur) && tasks == old(tasks) && now >= old(now)
        invariant forall i :: 0 <= i < n && Dist(cur, i, n) < off ==> !Ready(tasks, i, old(now))
      {
        ModOnce(cur + off, n);
        var i := (cur + off) % n;
        assert Dist(cur, i, n) == off;
        assert forall j :: 0 <= j < n && Dist(cur, j, n) == off ==> j == i;
        var b := IsReady(i);
        if b {
          tasks := tasks[i := tasks[i].(wakeAt := None)];
          cur := i;
          return true;
        }
        off := off + 1;
      }
      ok := false;
    }

    /** Round-robin over the ready tasks; if none is ready, wait for the earliest sleeper. */
    method Pick() returns (ok: bool)
      requires cur < |tasks|
      modifies `cur, `tasks, `now
      ensures ok <==> CanRun(old(Saved()))
      ensures ok ==> Picked(old(Saved()), Saved())
      ensures !ok ==> cur == old(cur) && tasks == old(tasks)
    {
      ok := Try();
      if ok {
        FoundCanRun(old(Saved()), Saved());
        return;
      }
      var earliest: Option<int>, at := None, 0;
      var k := 0;
      while k < |tasks|
        invariant k <= |tasks|
        invariant earliest == None ==> forall j :: 0 <= j < k ==> !Asleep(tasks[j])
        invariant earliest.Some? ==> at < k && Asleep(tasks[at]) && tasks[at].wakeAt == earliest
        invariant earliest.Some? ==>
          forall j :: 0 <= j < k && Asleep(tasks[j]) ==> earliest.value <= tasks[j].wakeAt.value
      {
        var t := tasks[k];
        if !t.done && t.wakeAt.Some? && (earliest == None || t.wakeAt.value < earliest.value) {
          earliest, at := t.wakeAt, k;
        }
        k := k + 1;
      }
      if earliest == None {
        return false;
      }
      var c := Clock();
      if c < earliest.value {
        now := earliest.value;              // time.Sleep
      }
      ghost var woke := now;
      assert Ready(tasks, at, woke);
      ok := Try();
    }

    lemma FoundCanRun(s: System, t: System)
      requires WellFormed(s) && Picked(s, t)
      ensures CanRun(s)
    {
      PickIffCanRun(s);
    }

    /** The deadlock message: a line for each live task and the one it is awaiting. */
    method Deadlock() returns (msg: string)
      ensures msg == Report(Waits(tasks, |tasks|))
    {
      hide WaitLine, Waits, Report;
      msg := DEADLOCK;
      NoWaits(tasks);
      var i := 0;
      while i < |tasks|
        invariant i <= |tasks| && msg == Report(Waits(tasks, i))
      {
        ReportNext(tasks, i);
        if !tasks[i].done && tasks[i].awaiting.Some? {
          msg := msg + WaitLine((i, tasks[i].awaiting.value));
        }
        i := i + 1;
      }
    }

    /** `signal` and the new state are what `turn` allows. */
    ghost predicate Did(turn: Turn, signal: Signal)
      reads this
    {
      cur < |tasks| &&
      match turn
      case Runs(u) => signal == Continue && Sys() == u
      case Ends(o) => signal == Stop(o)
      case Yields(u) =>
        WellFormed(u) &&
        if CanRun(u) then signal == Continue && Picked(u, Sys())
        else signal == Stop(Fatal(Report(Waits(u.tasks, |u.tasks|))))
    }

    /** Save, pick, and load whoever was picked; in a deadlock stop with its report. */
    method Switch() returns (signal: Signal)
      requires cur < |tasks|
      modifies this
      ensures Did(Yields(old(Sys())), signal)
    {
      Save();
      ghost var u := Saved();
      var ok := Pick();
      if ok {
        Load();
        signal := Continue;
      } else {
        var msg := Deadlock();
        signal := Stop(Fatal(msg));
      }
    }

    method SpawnTask(next: nat) returns (signal: Signal)
      requires cur < |tasks|
      modifies this
      ensures Did(DoSpawn(p, old(Sys()), next), signal)
    {
      hide Spawned, Picked, CanRun;
      pc := next;
      if stack == [] {
        return Stop(Stuck);
      }
      var f := Last(stack);
      if !f.Func? {
        return Stop(Fatal(SPAWN_NOT_A_FUNCTION));
      }
      if f.fn >= |p.funcs| {
        return Stop(Stuck);
      }
      stack := DropLast(stack) + [Future(|tasks|)];
      tasks := tasks + [Spawned(p, f)];
      signal := Continue;
    }

    method AwaitTask(next: nat) returns (signal: Signal)
      requires cur < |tasks|
      modifies this
      ensures Did(DoAwait(old(Sys()), next), signal)
    {
      hide Picked, CanRun;
      ghost var turn := DoAwait(Sys(), next);
      if stack == [] {
        return Stop(Stuck);
      }
      var f := Last(stack);
      stack := DropLast(stack);
      if !f.Future? {
        return Stop(Fatal(NOT_A_FUTURE));
      }
      if f.task == cur {
        return Stop(Fatal(SELF_AWAIT));
      }
      if f.task >= |tasks| {
        return Stop(Stuck);
      }
      if tasks[f.task].done {
        tasks := tasks[cur := tasks[cur].(awaiting := None)];
        stack, pc := stack + [tasks[f.task].result], next;
        assert turn.Runs? && Sys() == turn.sys;
        return Continue;
      }
      stack := stack + [f];
      assert stack == old(stack);
      tasks := tasks[cur := tasks[cur].(awaiting := Some(f.task))];
      assert turn.Yields? && Sys() == turn.sys;
      signal := Switch();
    }

    method SleepTask(next: nat) returns (signal: Signal, ghost read: int)
      requires cur < |tasks|
      modifies this
      ensures read >= old(now) && Did(DoSleep(millis, old(Sys()).(now := read), next), signal)
    {
      hide Picked, CanRun;
      ghost var was := Sys();
      pc, read := next, now;
      if stack == [] {
        return Stop(Stuck), read;
      }
      var ms := millis(Last(stack));
      var c := Clock();
      read := c;
      tasks := tasks[cur := tasks[cur].(wakeAt := Some(c + ms))];
      stack := DropLast(stack) + [Null];
      ghost var turn := DoSleep(millis, was.(now := read), next);
      assert turn.Yields? && Sys() == turn.sys;
      signal := Switch();
    }

    method FinishTask() returns (signal: Signal)
      requires cur < |tasks|
      modifies this
      ensures Did(DoFinish(old(Sys())), signal)
    {
      hide Picked, CanRun;
      ghost var turn := DoFinish(Sys());
      if stack == [] || frames == [] {
        return Stop(Stuck);
      }
      var ret := Last(stack);
      stack, frames := DropLast(stack), DropLast(frames);
      tasks := tasks[cur := tasks[cur].(done := true, result := ret)];
      assert turn.Yields? && Sys() == turn.sys;
      signal := Switch();
    }

    /** An instruction with nothing to do with tasks. */
    method Ordinary(i: Instr, next: nat) returns (signal: Signal)
      requires cur < |tasks|
      modifies this
      ensures Did(DoOrdinary(p, ops, i, next, old(Sys())), signal)
    {
      hide Exec, Picked, CanRun;
      ghost var turn := DoOrdinary(p, ops, i, next, Sys());
      assert Context(Sys()) == WorkingSet();
      match Exec(p, ops, GO_BLANK, i, next, WorkingSet())
      case Next(c) =>
        pc, stack, frames, handlers := c.pc, c.stack, c.frames, c.handlers;
        globals, closures, world := c.globals, c.closures, c.world;
        assert turn.Runs? && Sys() == turn.sys;
        signal := Continue;
      case other =>
        signal := Stop(other);
    }

    /** One round of the dispatch loop: exactly one turn, at the clock reading `read`. */
    method Step() returns (signal: Signal, ghost read: int)
      requires cur < |tasks|
      modifies this
      ensures read >= old(now)
      ensures Did(TakeTurn(p, ops, millis, old(Sys()).(now := read)), signal)
    {
      hide Exec, Decode, DoSpawn, DoAwait, DoSleep, DoFinish, DoOrdinary, Did;
      ghost var s := Sys();
      read := now;
      assert s.tasks[s.cur].stack == stack && s.tasks[s.cur].pc == pc && s.tasks[s.cur].frames == frames;
      if |stack| > STACK_MAX - 4 {
        signal := Stop(Fatal(STACK_OVERFLOW));
        DidEnd(signal);
        return;
      }
      var f := Decode(p.code, pc);
      if f == None {
        signal := Stop(Stuck);
        DidEnd(signal);
        return;
      }
      var i, next := f.value.instr, f.value.next;
      if i == Spawn {
        signal := SpawnTask(next);
      } else if i == Await {
        signal := AwaitTask(next);
      } else if i == Apply(Native(SLEEP), 1) && |tasks| > 1 {
        signal, read := SleepTask(next);
      } else if i == Ret && cur != 0 && frames != [] && Last(frames).retpc < 0 {
        signal := FinishTask();
      } else {
        signal := Ordinary(i, next);
      }
    }

    lemma DidEnd(signal: Signal)
      requires signal.Stop? && cur < |tasks|
      ensures Did(Ends(signal.outcome), signal)
    {
    }
  }
}
