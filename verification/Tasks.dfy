/**
 The cooperative tasks of the Go engine as a transition system.

 One instruction of the running task either runs on, or yields to the scheduler's
 pick; between instructions the clock may advance. The clock and the choice among
 interleavings are all the nondeterminism there is, and every statement below holds
 for every run of every program.
 */
module Tasks {
  import opened Common
  import opened Isa
  import opened Machine
  import opened Lockstep

  datatype Task = Task(
    pc: nat,
    stack: seq<Value>,
    frames: seq<Frame>,
    handlers: seq<Handler>,
    done: bool,
    result: Value,
    awaiting: Option<nat>,     // parked on this task
    wakeAt: Option<int>)       // parked until this time

  /** The tasks, which of them runs, the state they share, and the last clock reading. */
  datatype System = System(
    tasks: seq<Task>,
    cur: nat,
    globals: seq<Value>,
    closures: nat,
    world: World,
    now: int)

  const SLEEP: Byte := 26
  const SPAWN_NOT_A_FUNCTION := "spawn of a non-function value"
  const NOT_A_FUTURE := "await of a non-future value"
  const SELF_AWAIT := "[Cryo Concurrency] a task cannot await itself"

  datatype Turn =
    | Runs(sys: System)         // the same task goes on
    | Yields(sys: System)       // the scheduler picks who goes on
    | Ends(outcome: Outcome)

  predicate WellFormed(s: System) {
    s.cur < |s.tasks|
  }

  /** The running task's working set. */
  function Context(s: System): State
    requires WellFormed(s)
  {
    var t := s.tasks[s.cur];
    State(t.pc, t.stack, t.frames, t.handlers, s.globals, s.closures, s.world)
  }

  /** The system once the running task's working set has become `c`. */
  function WithContext(s: System, c: State): System
    requires WellFormed(s)
  {
    var t := s.tasks[s.cur].(pc := c.pc, stack := c.stack, frames := c.frames, handlers := c.handlers);
    s.(tasks := s.tasks[s.cur := t], globals := c.globals, closures := c.closures, world := c.world)
  }

  function WithCurrent(s: System, t: Task): System
    requires WellFormed(s)
  {
    s.(tasks := s.tasks[s.cur := t])
  }

  /** A spawned task: its captured values lead its locals, as far as they fit. */
  function Spawned(p: Program, f: Value): Task
    requires f.Func? && f.fn < |p.funcs|
  {
    var info := p.funcs[f.fn];
    var fit := if |f.captured| <= info.nlocals then f.captured else f.captured[..info.nlocals];
    Task(info.entry, [], [Frame(-1, Overlay(Fill(GO_BLANK, info.nlocals), fit), f.fn)], [], false, Null, None, None)
  }

  function DoSpawn(p: Program, s: System, next: nat): Turn
    requires WellFormed(s)
  {
    var c := Context(s);
    if c.stack == [] then Ends(Stuck)
    else
      var f := Last(c.stack);
      if !f.Func? then Ends(Fatal(SPAWN_NOT_A_FUNCTION))
      else if f.fn >= |p.funcs| then Ends(Stuck)
      else
        var t := WithContext(s, Push(Drop(c, 1), Future(|s.tasks|), next));
        Runs(t.(tasks := t.tasks + [Spawned(p, f)]))
  }

  function DoAwait(s: System, next: nat): Turn
    requires WellFormed(s)
  {
    var c := Context(s);
    if c.stack == [] then Ends(Stuck)
    else
      var f := Last(c.stack);
      if !f.Future? then Ends(Fatal(NOT_A_FUTURE))
      else if f.task == s.cur then Ends(Fatal(SELF_AWAIT))
      else if f.task >= |s.tasks| then Ends(Stuck)
      else if s.tasks[f.task].done then
        Runs(WithCurrent(s, s.tasks[s.cur].(pc := next, stack := DropLast(c.stack) + [s.tasks[f.task].result],
                                           awaiting := None)))
      else
        // the future stays on the stack and the pc on this AWAIT, to run it again
        Yields(WithCurrent(s, s.tasks[s.cur].(awaiting := Some(f.task))))
  }

  function DoSleep(millis: Value -> int, s: System, next: nat): Turn
    requires WellFormed(s)
  {
    var c := Context(s);
    if c.stack == [] then Ends(Stuck)
    else
      Yields(WithCurrent(s, s.tasks[s.cur].(pc := next, stack := DropLast(c.stack) + [Null],
                                           wakeAt := Some(s.now + millis(Last(c.stack))))))
  }

  /** The outermost RET of a task other than main. */
  function DoFinish(s: System): Turn
    requires WellFormed(s)
  {
    var t := s.tasks[s.cur];
    if t.stack == [] || t.frames == [] then Ends(Stuck)
    else
      Yields(WithCurrent(s, t.(stack := DropLast(t.stack), frames := DropLast(t.frames), done := true,
                               result := Last(t.stack))))
  }

  function DoOrdinary(p: Program, ops: Ops, i: Instr, next: nat, s: System): Turn
    requires WellFormed(s)
  {
    match Exec(p, ops, GO_BLANK, i, next, Context(s))
    case Next(c) => Runs(WithContext(s, c))
    case other => Ends(other)
  }

  predicate OutermostRet(s: System, i: Instr)
    requires WellFormed(s)
  {
    var t := s.tasks[s.cur];
    i == Ret && s.cur != 0 && t.frames != [] && Last(t.frames).retpc < 0
  }

  /** The instruction the running task is about to execute, if it has the headroom. */
  function Fetch(p: Program, s: System): Option<Fetched>
    requires WellFormed(s)
  {
    if |s.tasks[s.cur].stack| > STACK_MAX - 4 then None else Decode(p.code, s.tasks[s.cur].pc)
  }

  function Dispatch(p: Program, ops: Ops, millis: Value -> int, i: Instr, next: nat, s: System): Turn
    requires WellFormed(s)
  {
    if i == Spawn then DoSpawn(p, s, next)
    else if i == Await then DoAwait(s, next)
    else if i == Apply(Native(SLEEP), 1) && |s.tasks| > 1 then DoSleep(millis, s, next)
    else if OutermostRet(s, i) then DoFinish(s)
    else DoOrdinary(p, ops, i, next, s)
  }

  function TakeTurn(p: Program, ops: Ops, millis: Value -> int, s: System): Turn
    requires WellFormed(s)
  {
    if |s.tasks[s.cur].stack| > STACK_MAX - 4 then Ends(Fatal(STACK_OVERFLOW))
    else
      match Fetch(p, s)
      case None => Ends(Stuck)
      case Some(f) => Dispatch(p, ops, millis, f.instr, f.next, s)
  }

  // ---- Who may run ----

  predicate Ready(tasks: seq<Task>, i: nat, now: int)
    requires i < |tasks|
  {
    var t := tasks[i];
    if t.done then false
    else if t.wakeAt.Some? then t.wakeAt.value <= now
    else if t.awaiting.Some? then t.awaiting.value < |tasks| && tasks[t.awaiting.value].done
    else true
  }

  /** Asleep, so ready at some time to come. */
  predicate Asleep(t: Task) {
    !t.done && t.wakeAt.Some?
  }

  /** `i` is passed over by a round-robin search from `from` that ends at `to`. */
  predicate Skipped(from: nat, i: nat, to: nat) {
    if from < to then from < i < to else from < i || i < to
  }

  /** What pick promises: a ready task, the first one round-robin after the current task. */
  ghost predicate Picked(s: System, t: System)
    requires WellFormed(s)
  {
    && t.cur < |s.tasks| && t.now >= s.now
    && t == s.(cur := t.cur, now := t.now, tasks := s.tasks[t.cur := s.tasks[t.cur].(wakeAt := None)])
    && Ready(s.tasks, t.cur, t.now)
    && forall i :: 0 <= i < |s.tasks| && Skipped(s.cur, i, t.cur) ==> !Ready(s.tasks, i, s.now)
  }

  ghost predicate Ticked(s: System, t: System) {
    t == s.(now := t.now) && t.now >= s.now
  }

  /** One step of a run: the clock advances, or the running task executes one instruction. */
  ghost predicate SysStep(p: Program, ops: Ops, millis: Value -> int, s: System, t: System) {
    WellFormed(s) && (Ticked(s, t) || Turned(p, ops, millis, s, t))
  }

  ghost predicate Turned(p: Program, ops: Ops, millis: Value -> int, s: System, t: System)
    requires WellFormed(s)
  {
    match TakeTurn(p, ops, millis, s)
    case Runs(u) => t == u
    case Yields(u) => WellFormed(u) && Picked(u, t)
    case Ends(_) => false
  }

  // ---- The invariant ----

  /** A waiter stands on its AWAIT with the future on top of its stack. */
  predicate Waiting(p: Program, s: System, i: nat)
    requires i < |s.tasks|
  {
    var t := s.tasks[i];
    t.awaiting.Some? ==>
      && !t.done && t.wakeAt == None
      && t.awaiting.value < |s.tasks| && t.awaiting.value != i
      && t.stack != [] && Last(t.stack) == Future(t.awaiting.value)
      && |t.stack| <= STACK_MAX - 4
      && var f := Decode(p.code, t.pc); f.Some? && f.value.instr == Await
  }

  ghost predicate AllWaiting(p: Program, s: System) {
    forall i :: 0 <= i < |s.tasks| ==> Waiting(p, s, i)
  }

  ghost predicate Inv(p: Program, s: System) {
    && WellFormed(s)
    && !s.tasks[0].done
    && !s.tasks[s.cur].done && s.tasks[s.cur].wakeAt == None
    && (s.tasks[s.cur].awaiting.Some? ==>
          s.tasks[s.cur].awaiting.value < |s.tasks| && s.tasks[s.tasks[s.cur].awaiting.value].done)
    && AllWaiting(p, s)
  }

  /** What a turn leaves alone: every other task, and every finished task's result. */
  ghost predicate OthersKept(s: System, t: System) {
    && |s.tasks| <= |t.tasks|
    && forall i :: 0 <= i < |s.tasks| && i != s.cur ==> t.tasks[i] == s.tasks[i]
  }

  /** The state right after a turn, before any pick. */
  function AfterTurn(turn: Turn): System
    requires !turn.Ends?
  {
    turn.sys
  }

  lemma TurnKeepsOthers(p: Program, ops: Ops, millis: Value -> int, s: System)
    requires WellFormed(s) && !TakeTurn(p, ops, millis, s).Ends?
    ensures var u := AfterTurn(TakeTurn(p, ops, millis, s));
            OthersKept(s, u) && u.cur == s.cur && u.now == s.now
    ensures var turn := TakeTurn(p, ops, millis, s); turn.Yields? ==> |turn.sys.tasks| == |s.tasks|
  {
    hide Exec, Decode, Spawned;
  }

  /** A turn on which the task was waiting is its AWAIT again. */
  lemma WaiterAwaits(p: Program, ops: Ops, millis: Value -> int, s: System)
    requires WellFormed(s) && Waiting(p, s, s.cur) && s.tasks[s.cur].awaiting.Some?
    ensures Decode(p.code, s.tasks[s.cur].pc).Some?
    ensures TakeTurn(p, ops, millis, s) == DoAwait(s, Decode(p.code, s.tasks[s.cur].pc).value.next)
  {
    hide Exec, Decode, DoAwait;
  }

  /** What the invariant needs of a turn: waiters still wait, and a task that runs on is free to. */
  ghost predicate TurnOk(p: Program, s: System, turn: Turn) {
    !turn.Ends? ==>
      && AllWaiting(p, turn.sys) && turn.sys.cur == s.cur < |turn.sys.tasks| && !turn.sys.tasks[0].done
      && (turn.Runs? ==> var t := turn.sys.tasks[s.cur]; !t.done && t.wakeAt == None && t.awaiting == None)
  }

  lemma AwaitTurn(p: Program, s: System, next: nat)
    requires Inv(p, s) && Waiting(p, s, s.cur) && s.tasks[s.cur].awaiting.Some?
    ensures var f := s.tasks[s.cur].awaiting.value;
            DoAwait(s, next) == Runs(WithCurrent(s, s.tasks[s.cur].(pc := next,
              stack := DropLast(s.tasks[s.cur].stack) + [s.tasks[f].result], awaiting := None)))
    ensures TurnOk(p, s, DoAwait(s, next))
  {
    hide Decode;
    var u := DoAwait(s, next).sys;
    forall i | 0 <= i < |u.tasks| ensures Waiting(p, u, i) {
      assert Waiting(p, s, i);
    }
  }

  /** The running task waits on nobody, so its next turn is a fresh instruction. */
  ghost predicate Free(p: Program, s: System) {
    Inv(p, s) && s.tasks[s.cur].awaiting == None
  }

  lemma SpawnOk(p: Program, s: System, next: nat)
    requires Free(p, s)
    ensures TurnOk(p, s, DoSpawn(p, s, next))
  {
    hide Decode;
    var turn := DoSpawn(p, s, next);
    if !turn.Ends? {
      forall i | 0 <= i < |s.tasks| ensures Waiting(p, turn.sys, i) {
        assert Waiting(p, s, i);
      }
    }
  }

  lemma AwaitOk(p: Program, s: System, next: nat)
    requires Free(p, s) && |s.tasks[s.cur].stack| <= STACK_MAX - 4
    requires var f := Decode(p.code, s.tasks[s.cur].pc); f.Some? && f.value.instr == Await
    ensures TurnOk(p, s, DoAwait(s, next))
  {
    hide Decode;
    var turn := DoAwait(s, next);
    if !turn.Ends? {
      forall i | 0 <= i < |s.tasks| ensures Waiting(p, turn.sys, i) {
        assert Waiting(p, s, i);
      }
    }
  }

  lemma SleepOk(p: Program, millis: Value -> int, s: System, next: nat)
    requires Free(p, s)
    ensures TurnOk(p, s, DoSleep(millis, s, next))
  {
    hide Decode;
    var turn := DoSleep(millis, s, next);
    if !turn.Ends? {
      forall i | 0 <= i < |s.tasks| ensures Waiting(p, turn.sys, i) {
        assert Waiting(p, s, i);
      }
    }
  }

  lemma FinishOk(p: Program, s: System)
    requires Free(p, s) && s.cur != 0
    ensures TurnOk(p, s, DoFinish(s))
  {
    hide Decode;
    var turn := DoFinish(s);
    if !turn.Ends? {
      forall i | 0 <= i < |s.tasks| ensures Waiting(p, turn.sys, i) {
        assert Waiting(p, s, i);
      }
    }
  }

  lemma OrdinaryOk(p: Program, ops: Ops, i: Instr, next: nat, s: System)
    requires Free(p, s)
    ensures TurnOk(p, s, DoOrdinary(p, ops, i, next, s))
  {
    hide Decode, Exec;
    var turn := DoOrdinary(p, ops, i, next, s);
    if !turn.Ends? {
      forall i | 0 <= i < |s.tasks| ensures Waiting(p, turn.sys, i) {
        assert Waiting(p, s, i);
      }
    }
  }

  lemma TurnKeepsInv(p: Program, ops: Ops, millis: Value -> int, s: System)
    requires Inv(p, s)
    ensures TurnOk(p, s, TakeTurn(p, ops, millis, s))
  {
    hide Exec, Decode, Spawned, DoAwait, DoSpawn, DoSleep, DoFinish, DoOrdinary, Waiting, TurnOk;
    if s.tasks[s.cur].awaiting.Some? {
      assert Waiting(p, s, s.cur);
      WaiterAwaits(p, ops, millis, s);
      AwaitTurn(p, s, Decode(p.code, s.tasks[s.cur].pc).value.next);
    } else if |s.tasks[s.cur].stack| > STACK_MAX - 4 || Fetch(p, s) == None {
      EndOk(p, ops, millis, s);
    } else {
      var f := Fetch(p, s).value;
      SpawnOk(p, s, f.next);
      SleepOk(p, millis, s, f.next);
      OrdinaryOk(p, ops, f.instr, f.next, s);
      if f.instr == Await {
        AwaitOk(p, s, f.next);
      }
      if s.cur != 0 {
        FinishOk(p, s);
      }
    }
  }

  lemma EndOk(p: Program, ops: Ops, millis: Value -> int, s: System)
    requires WellFormed(s) && (|s.tasks[s.cur].stack| > STACK_MAX - 4 || Fetch(p, s) == None)
    ensures TurnOk(p, s, TakeTurn(p, ops, millis, s))
  {
    hide Decode;
  }

  lemma PickedKeepsInv(p: Program, u: System, t: System)
    requires WellFormed(u) && !u.tasks[0].done && AllWaiting(p, u) && Picked(u, t)
    ensures Inv(p, t)
  {
    hide Decode;
    assert Waiting(p, u, t.cur);
    forall i | 0 <= i < |t.tasks| ensures Waiting(p, t, i) {
      assert Waiting(p, u, i);
    }
  }

  /** Every step of every run keeps the invariant. */
  lemma StepKeepsInv(p: Program, ops: Ops, millis: Value -> int, s: System, t: System)
    requires Inv(p, s) && SysStep(p, ops, millis, s, t)
    ensures Inv(p, t)
  {
    hide Decode, Picked;
    if Ticked(s, t) {
      forall i | 0 <= i < |t.tasks| ensures Waiting(p, t, i) {
        assert Waiting(p, s, i);
      }
    } else {
      hide TakeTurn;
      TurnKeepsInv(p, ops, millis, s);
      var turn := TakeTurn(p, ops, millis, s);
      if turn.Yields? {
        PickedKeepsInv(p, turn.sys, t);
      }
    }
  }

  function InitialSystem(p: Program, w: World, now: int): System
    requires p.entryFn < |p.funcs|
  {
    var c := Initial(p, GO_BLANK, w);
    System([Task(c.pc, c.stack, c.frames, c.handlers, false, Null, None, None)], 0, [], 0, w, now)
  }

  lemma InitialInv(p: Program, w: World, now: int)
    requires p.entryFn < |p.funcs|
    ensures Inv(p, InitialSystem(p, w, now))
  {
  }

  // ---- Await, over runs ----

  /** A run, from any state the invariant allows. */
  ghost predicate IsRun(p: Program, ops: Ops, millis: Value -> int, tr: seq<System>) {
    && tr != [] && Inv(p, tr[0])
    && forall k :: 0 < k < |tr| ==> SysStep(p, ops, millis, tr[k - 1], tr[k])
  }

  lemma {:induction false} RunInv(p: Program, ops: Ops, millis: Value -> int, tr: seq<System>, k: nat)
    requires IsRun(p, ops, millis, tr) && k < |tr|
    ensures Inv(p, tr[k]) && WellFormed(tr[k])
  {
    hide SysStep;
    if k > 0 {
      RunInv(p, ops, millis, tr, k - 1);
      assert SysStep(p, ops, millis, tr[k - 1], tr[k]);
      StepKeepsInv(p, ops, millis, tr[k - 1], tr[k]);
    }
  }

  /** The running task's outermost RET, with `v` on top of its stack. */
  predicate FinishesWith(p: Program, s: System, v: Value)
    requires WellFormed(s)
  {
    var f := Fetch(p, s);
    f.Some? && OutermostRet(s, f.value.instr) && s.tasks[s.cur].stack != [] && Last(s.tasks[s.cur].stack) == v
  }

  /** What one step may do to a task that is not running: nothing, unless it is woken. */
  ghost predicate Undisturbed(s: System, t: System, i: nat)
    requires i < |s.tasks|
  {
    && |s.tasks| <= |t.tasks|
    && (t.tasks[i] == s.tasks[i] || t.tasks[i] == s.tasks[i].(wakeAt := None))
    && (t.cur != i ==> t.tasks[i] == s.tasks[i])
  }

  lemma StepUndisturbed(p: Program, ops: Ops, millis: Value -> int, s: System, t: System, i: nat)
    requires WellFormed(s) && SysStep(p, ops, millis, s, t) && i < |s.tasks| && i != s.cur
    ensures Undisturbed(s, t, i) && t.now >= s.now
  {
    hide TakeTurn;
    if !Ticked(s, t) {
      TurnKeepsOthers(p, ops, millis, s);
    }
  }

  /** A stored result is final: no step of any task changes it. */
  lemma ResultFinal(p: Program, ops: Ops, millis: Value -> int, s: System, t: System, i: nat)
    requires Inv(p, s) && SysStep(p, ops, millis, s, t) && i < |s.tasks| && s.tasks[i].done
    ensures i < |t.tasks| && t.tasks[i].done && t.tasks[i].result == s.tasks[i].result
  {
    hide TakeTurn, Picked;
    StepUndisturbed(p, ops, millis, s, t, i);
  }

  /** A task becomes done by its own outermost RET, which stores the value it returns. */
  lemma DoneByRet(p: Program, ops: Ops, millis: Value -> int, s: System, t: System, i: nat)
    requires Inv(p, s) && SysStep(p, ops, millis, s, t) && i < |s.tasks| && i < |t.tasks|
    requires !s.tasks[i].done && t.tasks[i].done
    ensures s.cur == i && FinishesWith(p, s, t.tasks[i].result)
  {
    if i != s.cur {
      StepUndisturbed(p, ops, millis, s, t, i);
    } else {
      TurnDone(p, ops, millis, s);
    }
  }

  lemma TurnDone(p: Program, ops: Ops, millis: Value -> int, s: System)
    requires Inv(p, s) && !TakeTurn(p, ops, millis, s).Ends?
    requires TakeTurn(p, ops, millis, s).sys.tasks[s.cur].done
    ensures FinishesWith(p, s, TakeTurn(p, ops, millis, s).sys.tasks[s.cur].result)
  {
    hide Exec, Decode, Spawned;
  }

  lemma {:induction false} RunUndisturbed(p: Program, ops: Ops, millis: Value -> int, tr: seq<System>, a: nat, b: nat,
      w: nat)
    requires IsRun(p, ops, millis, tr) && a <= b < |tr| && w < |tr[a].tasks|
    requires forall k :: a <= k < b ==> tr[k].cur != w
    ensures |tr[a].tasks| <= |tr[b].tasks|
    ensures tr[b].cur != w ==> tr[b].tasks[w] == tr[a].tasks[w]
    ensures tr[b].cur == w ==> tr[b].tasks[w] == tr[a].tasks[w] || tr[b].tasks[w] == tr[a].tasks[w].(wakeAt := None)
    decreases b
  {
    hide SysStep, Inv;
    if a < b {
      RunUndisturbed(p, ops, millis, tr, a, b - 1, w);
      assert SysStep(p, ops, millis, tr[b - 1], tr[b]);
      RunInv(p, ops, millis, tr, b - 1);
      StepUndisturbed(p, ops, millis, tr[b - 1], tr[b], w);
    }
  }

  /** Between a state where a task runs and one where it is done, it returned that result. */
  lemma {:induction false} FinishedBetween(p: Program, ops: Ops, millis: Value -> int, tr: seq<System>,
      a: nat, b: nat, i: nat) returns (k: nat)
    requires IsRun(p, ops, millis, tr) && a <= b < |tr| && i < |tr[a].tasks| && i < |tr[b].tasks|
    requires !tr[a].tasks[i].done && tr[b].tasks[i].done
    ensures a <= k < b && WellFormed(tr[k]) && tr[k].cur == i && FinishesWith(p, tr[k], tr[b].tasks[i].result)
    decreases b
  {
    hide SysStep, Inv;
    if a < b {
      var m := b - 1;
      assert SysStep(p, ops, millis, tr[m], tr[b]);
      RunInv(p, ops, millis, tr, m);
      TasksGrow(p, ops, millis, tr, a, m);
      if tr[m].tasks[i].done {
        k := FinishedBetween(p, ops, millis, tr, a, m, i);
        ResultFinal(p, ops, millis, tr[m], tr[b], i);
      } else {
        k := m;
        DoneByRet(p, ops, millis, tr[m], tr[b], i);
      }
    }
  }

  lemma {:induction false} TasksGrow(p: Program, ops: Ops, millis: Value -> int, tr: seq<System>, a: nat, b: nat)
    requires IsRun(p, ops, millis, tr) && a <= b < |tr|
    ensures |tr[a].tasks| <= |tr[b].tasks|
    decreases b
  {
    hide SysStep, Inv;
    if a < b {
      TasksGrow(p, ops, millis, tr, a, b - 1);
      assert SysStep(p, ops, millis, tr[b - 1], tr[b]);
      RunInv(p, ops, millis, tr, b - 1);
      StepGrows(p, ops, millis, tr[b - 1], tr[b]);
    }
  }

  lemma StepGrows(p: Program, ops: Ops, millis: Value -> int, s: System, t: System)
    requires Inv(p, s) && SysStep(p, ops, millis, s, t)
    ensures |s.tasks| <= |t.tasks|
  {
    hide TakeTurn;
    if !Ticked(s, t) {
      TurnKeepsOthers(p, ops, millis, s);
    }
  }

  /** The running task parks: its AWAIT finds `f` unfinished. */
  ghost predicate Parks(p: Program, ops: Ops, millis: Value -> int, s: System, f: nat)
    requires WellFormed(s)
  {
    var turn := TakeTurn(p, ops, millis, s);
    turn.Yields? && s.cur < |turn.sys.tasks| && turn.sys.tasks[s.cur].awaiting == Some(f)
  }

  /** The running task's turn replaces the top of its stack by `v` and keeps the rest of it. */
  ghost predicate Receives(p: Program, ops: Ops, millis: Value -> int, s: System, v: Value)
    requires WellFormed(s)
  {
    var t, turn := s.tasks[s.cur], TakeTurn(p, ops, millis, s);
    && turn.Runs? && turn.sys.cur == s.cur < |turn.sys.tasks| && t.stack != []
    && var u := turn.sys.tasks[s.cur];
       u.stack == DropLast(t.stack) + [v] && u.frames == t.frames && u.handlers == t.handlers
  }

  lemma ParkedTurn(p: Program, ops: Ops, millis: Value -> int, s: System, f: nat)
    requires Inv(p, s) && Parks(p, ops, millis, s, f)
    ensures var t, u := s.tasks[s.cur], TakeTurn(p, ops, millis, s).sys;
            f < |s.tasks| && f != s.cur && !s.tasks[f].done && u == WithCurrent(s, t.(awaiting := Some(f)))
  {
    hide Exec, Decode, Spawned;
    if s.tasks[s.cur].awaiting.Some? {
      assert Waiting(p, s, s.cur);
      WaiterAwaits(p, ops, millis, s);
    }
  }

  lemma ResumedTurn(p: Program, ops: Ops, millis: Value -> int, s: System, f: nat)
    requires Inv(p, s) && s.tasks[s.cur].awaiting == Some(f)
    ensures f < |s.tasks| && s.tasks[f].done && Receives(p, ops, millis, s, s.tasks[f].result)
  {
    hide TakeTurn, Decode, DoAwait;
    assert Waiting(p, s, s.cur);
    WaiterAwaits(p, ops, millis, s);
    AwaitTurn(p, s, Decode(p.code, s.tasks[s.cur].pc).value.next);
  }

  /** Parking hands over to another task, and leaves the parked one as it was but for `awaiting`. */
  lemma ParkedStep(p: Program, ops: Ops, millis: Value -> int, s: System, t: System, f: nat)
    requires Inv(p, s) && Parks(p, ops, millis, s, f) && Turned(p, ops, millis, s, t)
    ensures t.cur != s.cur && |t.tasks| == |s.tasks| && f < |s.tasks| && !t.tasks[f].done
    ensures t.tasks[s.cur] == s.tasks[s.cur].(awaiting := Some(f)) && s.tasks[s.cur].wakeAt == None
  {
    hide TakeTurn, AllWaiting;
    ParkedTurn(p, ops, millis, s, f);
    var u := TakeTurn(p, ops, millis, s).sys;
    assert !Ready(u.tasks, s.cur, t.now);
  }

  /**
   Await over every interleaving. Task `w` parks on task `f` at step `a` and next runs at
   step `b`. It finds its stack, frames, handlers and pc as it left them, and `f` done; its
   turn replaces the future on top of its stack by exactly the value that `f`'s outermost
   RET, some step `k` in between, returned.
   */
  lemma AwaitDelivers(p: Program, ops: Ops, millis: Value -> int, tr: seq<System>, a: nat, b: nat, f: nat)
    returns (k: nat)
    requires IsRun(p, ops, millis, tr) && a < b < |tr| && WellFormed(tr[a])
    requires Parks(p, ops, millis, tr[a], f) && Turned(p, ops, millis, tr[a], tr[a + 1])
    requires tr[b].cur == tr[a].cur && forall k :: a < k < b ==> tr[k].cur != tr[a].cur
    ensures WellFormed(tr[b]) && tr[b].tasks[tr[b].cur] == tr[a].tasks[tr[a].cur].(awaiting := Some(f))
    ensures f < |tr[b].tasks| && tr[b].tasks[f].done
    ensures Receives(p, ops, millis, tr[b], tr[b].tasks[f].result)
    ensures a < k < b && WellFormed(tr[k]) && tr[k].cur == f && FinishesWith(p, tr[k], tr[b].tasks[f].result)
  {
    hide SysStep, Turned, Parks, Receives, AllWaiting;
    RunInv(p, ops, millis, tr, a);
    RunInv(p, ops, millis, tr, b);
    ParkedStep(p, ops, millis, tr[a], tr[a + 1], f);
    RunUndisturbed(p, ops, millis, tr, a + 1, b, tr[a].cur);
    ResumedTurn(p, ops, millis, tr[b], f);
    k := FinishedBetween(p, ops, millis, tr, a + 1, b, f);
  }
}
