/**
 What SPAWN, AWAIT and sleep do, task by task and local by local: what a new task holds and
 how its spawner goes on, when an AWAIT parks, and over whole runs that a sleeper sleeps.
 */
module TaskTurns {
  import opened Common
  import opened Isa
  import opened Machine
  import opened Lockstep
  import opened Tasks

  /** The running task is at `i`, with `v` on top of its operands. */
  ghost predicate RunsAt(p: Program, s: System, i: Instr, next: nat, v: Value) {
    && WellFormed(s) && Fetch(p, s) == Some(Fetched(i, next))
    && s.tasks[s.cur].stack != [] && Last(s.tasks[s.cur].stack) == v
  }

  /** What the tasks share is as it was, and so is every task of `s` but the running one. */
  ghost predicate OnlyRunning(s: System, u: System) {
    && u.cur == s.cur && u.now == s.now && u.globals == s.globals && u.closures == s.closures && u.world == s.world
    && |u.tasks| >= |s.tasks| && forall j :: 0 <= j < |s.tasks| && j != s.cur ==> u.tasks[j] == s.tasks[j]
  }

  /** The running task has `v` for the operand on top, and goes on behind its instruction. */
  ghost predicate TopBecomes(s: System, u: System, v: Value, next: nat)
    requires s.cur < |s.tasks| <= |u.tasks|
  {
    var a, b := s.tasks[s.cur], u.tasks[s.cur];
    && b.pc == next && |b.stack| == |a.stack| && b.stack != [] && Last(b.stack) == v
    && (forall j :: 0 <= j < |a.stack| - 1 ==> b.stack[j] == a.stack[j])
    && b.frames == a.frames && b.handlers == a.handlers && b.done == a.done
  }

  /**
   SPAWN: one more task, whose number is the future the spawner gets. It starts at the
   function's entry, without operands or handlers, in one frame whose leading locals are
   the captured values as far as both go. The spawner goes on.
   */
  lemma SpawnLaw(p: Program, ops: Ops, millis: Value -> int, s: System, next: nat, f: Value)
    requires RunsAt(p, s, Spawn, next, f)
    ensures !f.Func? ==> TakeTurn(p, ops, millis, s) == Ends(Fatal("spawn of a non-function value"))
    ensures f.Func? && f.fn < |p.funcs| ==>
              var turn := TakeTurn(p, ops, millis, s);
              && turn.Runs? && OnlyRunning(s, turn.sys) && TopBecomes(s, turn.sys, Future(|s.tasks|), next)
              && turn.sys.tasks[s.cur].awaiting == s.tasks[s.cur].awaiting
              && |turn.sys.tasks| == |s.tasks| + 1 && Holds(p, Last(turn.sys.tasks), f.fn, f.captured)
  {
    hide Decode;
  }

  /** A task that is about to run `fn`, with `captured` in its leading locals. */
  ghost predicate Holds(p: Program, t: Task, fn: nat, captured: seq<Value>)
    requires fn < |p.funcs|
  {
    && t.pc == p.funcs[fn].entry && t.stack == [] && t.handlers == [] && !t.done && t.awaiting == None
    && t.wakeAt == None
    && |t.frames| == 1 && t.frames[0].retpc == -1 && t.frames[0].fn == fn
    && var locals := t.frames[0].locals;
       && |locals| == p.funcs[fn].nlocals
       && forall j :: 0 <= j < |locals| ==> locals[j] == if j < |captured| then captured[j] else Int(0)
  }

  /** AWAIT: a finished task's result at once; otherwise the awaiter parks on the instruction as it is. */
  lemma AwaitLaw(p: Program, ops: Ops, millis: Value -> int, s: System, next: nat, f: Value)
    requires RunsAt(p, s, Await, next, f)
    ensures var turn := TakeTurn(p, ops, millis, s);
            && (!f.Future? ==> turn == Ends(Fatal("await of a non-future value")))
            && (f == Future(s.cur) ==> turn == Ends(Fatal("[Cryo Concurrency] a task cannot await itself")))
            && (f.Future? && f.task != s.cur && f.task < |s.tasks| ==>
                  && !turn.Ends? && OnlyRunning(s, turn.sys) && |turn.sys.tasks| == |s.tasks|
                  && (turn.Runs? <==> s.tasks[f.task].done)
                  && (turn.Runs? ==> TopBecomes(s, turn.sys, s.tasks[f.task].result, next))
                  && (turn.Runs? ==> turn.sys.tasks[s.cur].awaiting == None)
                  && (turn.Yields? ==> turn.sys.tasks[s.cur] == s.tasks[s.cur].(awaiting := Some(f.task))))
  {
    hide Decode;
  }

  /** sleep among several tasks: null as its result, and the running task asleep. */
  lemma SleepLaw(p: Program, ops: Ops, millis: Value -> int, s: System, next: nat, v: Value)
    requires RunsAt(p, s, Apply(Native(26), 1), next, v) && |s.tasks| > 1
    ensures var turn := TakeTurn(p, ops, millis, s);
            && turn.Yields? && OnlyRunning(s, turn.sys) && |turn.sys.tasks| == |s.tasks|
            && TopBecomes(s, turn.sys, Null, next)
            && turn.sys.tasks[s.cur].awaiting == s.tasks[s.cur].awaiting
            && turn.sys.tasks[s.cur].wakeAt == Some(s.now + millis(v))
  {
    hide Decode;
  }

  /** The outermost RET of a task other than the main one. */
  lemma FinishLaw(p: Program, ops: Ops, millis: Value -> int, s: System, next: nat, v: Value)
    requires RunsAt(p, s, Ret, next, v) && OutermostRet(s, Ret)
    ensures var turn := TakeTurn(p, ops, millis, s);
            && turn.Yields? && OnlyRunning(s, turn.sys) && |turn.sys.tasks| == |s.tasks|
            && turn.sys.tasks[s.cur].done && turn.sys.tasks[s.cur].result == v
  {
    hide Decode;
  }

  /** The main task's outermost RET ends the program. */
  lemma MainLaw(p: Program, ops: Ops, millis: Value -> int, s: System, next: nat, v: Value)
    requires RunsAt(p, s, Ret, next, v)
    requires s.cur == 0 && s.tasks[0].frames != [] && Last(s.tasks[0].frames).retpc < 0
    ensures TakeTurn(p, ops, millis, s) == Ends(Returned(v, s.world))
  {
    hide Decode;
  }

  /** Any other instruction is the machine's, sleep in a task that is alone included. */
  lemma OrdinaryLaw(p: Program, ops: Ops, millis: Value -> int, s: System, i: Instr, next: nat, v: Value)
    requires RunsAt(p, s, i, next, v) && !i.Spawn? && !i.Await? && !i.Ret?
    requires i == Apply(Native(26), 1) ==> |s.tasks| == 1
    ensures TakeTurn(p, ops, millis, s) ==
              match Step(p, ops, GO_BLANK, Context(s))
              case Next(c) => Runs(WithContext(s, c))
              case o => Ends(o)
  {
    hide Decode, Exec;
  }

  /** Who may run: an awaiter once what it awaits is done, a sleeper from its time on, anyone else who is not done. */
  lemma ReadyLaw(s: System, i: nat)
    requires i < |s.tasks|
    ensures var t := s.tasks[i];
            && (t.done ==> !Ready(s.tasks, i, s.now))
            && (!t.done && t.wakeAt.Some? ==> (Ready(s.tasks, i, s.now) <==> s.now >= t.wakeAt.value))
            && (!t.done && t.wakeAt.None? && t.awaiting.Some? && t.awaiting.value < |s.tasks| ==>
                  (Ready(s.tasks, i, s.now) <==> s.tasks[t.awaiting.value].done))
            && (!t.done && t.wakeAt.None? && t.awaiting.None? ==> Ready(s.tasks, i, s.now))
  {
  }

  // ---- Sleepers sleep ----

  /** The time has come, or task `i` is still parked on it. */
  ghost predicate AsleepUntil(s: System, i: nat, wake: int) {
    s.now >= wake || (s.cur != i && i < |s.tasks| && !s.tasks[i].done && s.tasks[i].wakeAt == Some(wake))
  }

  lemma SleepsOn(p: Program, ops: Ops, millis: Value -> int, s: System, t: System, i: nat, wake: int)
    requires SysStep(p, ops, millis, s, t) && AsleepUntil(s, i, wake)
    ensures AsleepUntil(t, i, wake)
  {
    hide TakeTurn;
    if !Ticked(s, t) {
      TurnKeepsOthers(p, ops, millis, s);
    }
  }

  lemma FallsAsleep(p: Program, ops: Ops, millis: Value -> int, s: System, t: System, next: nat, v: Value)
    requires Inv(p, s) && RunsAt(p, s, Apply(Native(26), 1), next, v) && |s.tasks| > 1 && Turned(p, ops, millis, s, t)
    ensures AsleepUntil(t, s.cur, s.now + millis(v)) && |t.tasks| == |s.tasks|
    ensures TopBecomes(s, t, Null, next)
  {
    hide TakeTurn;
    SleepLaw(p, ops, millis, s, next, v);
  }

  /**
   A task that goes to sleep does not run before its time, whatever the others do, and when
   it next runs it finds null on top of its operands and everything else as it left it.
   */
  lemma SleepsLongEnough(p: Program, ops: Ops, millis: Value -> int, tr: seq<System>, a: nat, b: nat, next: nat,
      v: Value)
    requires IsRun(p, ops, millis, tr) && a < b < |tr|
    requires RunsAt(p, tr[a], Apply(Native(26), 1), next, v) && |tr[a].tasks| > 1
    requires Turned(p, ops, millis, tr[a], tr[a + 1])
    ensures tr[b].cur == tr[a].cur ==> tr[b].now >= tr[a].now + millis(v)
    ensures (forall k :: a < k < b ==> tr[k].cur != tr[a].cur) && tr[b].cur == tr[a].cur ==>
              |tr[a].tasks| <= |tr[b].tasks| && TopBecomes(tr[a], tr[b], Null, next)
  {
    hide SysStep, Turned, TakeTurn, RunsAt, TopBecomes;
    RunInv(p, ops, millis, tr, a);
    var i := tr[a].cur;
    FallsAsleep(p, ops, millis, tr[a], tr[a + 1], next, v);
    StaysAsleep(p, ops, millis, tr, a + 1, b, i, tr[a].now + millis(v));
    if (forall k :: a < k < b ==> tr[k].cur != i) && tr[b].cur == i {
      RunUndisturbed(p, ops, millis, tr, a + 1, b, i);
      SameTop(tr[a], tr[a + 1], tr[b], Null, next);
    }
  }

  lemma SameTop(s: System, t: System, u: System, v: Value, next: nat)
    requires s.cur < |s.tasks| == |t.tasks| <= |u.tasks| && TopBecomes(s, t, v, next)
    requires u.tasks[s.cur] == t.tasks[s.cur] || u.tasks[s.cur] == t.tasks[s.cur].(wakeAt := None)
    ensures TopBecomes(s, u, v, next)
  {
  }

  lemma {:induction false} StaysAsleep(p: Program, ops: Ops, millis: Value -> int, tr: seq<System>, a: nat, b: nat,
      i: nat, wake: int)
    requires IsRun(p, ops, millis, tr) && a <= b < |tr| && AsleepUntil(tr[a], i, wake)
    ensures AsleepUntil(tr[b], i, wake)
    decreases b
  {
    hide SysStep, Inv;
    if a < b {
      StaysAsleep(p, ops, millis, tr, a, b - 1, i, wake);
      assert SysStep(p, ops, millis, tr[b - 1], tr[b]);
      SleepsOn(p, ops, millis, tr[b - 1], tr[b], i, wake);
    }
  }
}
