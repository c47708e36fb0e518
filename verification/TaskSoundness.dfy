/**
 Stack discipline of all tasks together: in every interleaving each task of annotated code
 has the annotated shape at its own pc, no turn meets a missing operand, slot or target,
 and calls and exception handlers nest within each task whatever the others do meanwhile.

 Three things neither engine checks are assumed of the values a run meets, turn by turn:
 that a called or spawned function exists, that a called one is supplied with what it may
 read and has locals for it, and that an awaited future names a task.
 */
module TaskSoundness {
  import opened Common
  import opened Isa
  import opened Machine
  import opened Verifier
  import opened Soundness
  import opened OwnRuns
  import opened Lockstep
  import opened Tasks
  import Calls
  import Unwinding

  ghost predicate TaskShaped(p: Program, ann: Annotation, t: Task) {
    t.done || Shape(p, ann, t.frames, t.pc, |t.stack|, t.handlers)
  }

  ghost predicate AllShaped(p: Program, ann: Annotation, s: System) {
    forall i :: 0 <= i < |s.tasks| ==> TaskShaped(p, ann, s.tasks[i])
  }

  /** The function to spawn exists, and the awaited future names a task. */
  predicate NamesOk(p: Program, i: Instr, s: System, top: Value) {
    && (i.Spawn? && top.Func? ==> top.fn < |p.funcs|)
    && (i.Await? && top.Future? ==> top.task < |s.tasks|)
  }

  /** What is assumed of the values the running task's next instruction meets. */
  ghost predicate ValuesOk(p: Program, ann: Annotation, s: System)
    requires WellFormed(s)
  {
    && CallValueOk(p, ann, Context(s))
    && var t, d := s.tasks[s.cur], Decode(p.code, s.tasks[s.cur].pc);
       d.Some? && t.stack != [] ==> NamesOk(p, d.value.instr, s, Last(t.stack))
  }

  /** A turn that is not stuck and leaves every task in shape. */
  ghost predicate TurnSound(p: Program, ann: Annotation, turn: Turn) {
    turn != Ends(Stuck) && (!turn.Ends? ==> AllShaped(p, ann, turn.sys))
  }

  lemma SpawnedShaped(p: Program, ann: Annotation, f: Value)
    requires Verified(p, ann) && f.Func? && f.fn < |p.funcs|
    ensures TaskShaped(p, ann, Spawned(p, f))
  {
    assert EntryOk(p, ann, f.fn);
  }

  /** Replacing the top operand of the running task. */
  lemma ReplaceShaped(p: Program, ann: Annotation, s: System, next: nat, stack: seq<Value>)
    requires Verified(p, ann) && WellFormed(s) && WellShaped(p, ann, Context(s)) && |stack| == |s.tasks[s.cur].stack|
    requires Moves(ann, ann[s.tasks[s.cur].pc], 1, 1, next)
    ensures var t := s.tasks[s.cur]; Shape(p, ann, t.frames, next, |stack|, t.handlers)
  {
    var t := s.tasks[s.cur];
    assert t.frames != [];
    hide Shape;
    ShapeMove(p, ann, t.frames, t.frames, t.pc, next, |t.stack|, t.handlers);
  }

  /** The running task is in shape, its instruction is annotated. */
  ghost predicate Running(p: Program, ann: Annotation, s: System, i: Instr, next: nat) {
    && Verified(p, ann) && WellFormed(s) && AllShaped(p, ann, s) && !s.tasks[s.cur].done
    && WellShaped(p, ann, Context(s)) && Decode(p.code, s.tasks[s.cur].pc) == Some(Fetched(i, next))
    && InstrOk(p, ann, ann[s.tasks[s.cur].pc], i, next)
    && |s.tasks[s.cur].stack| <= STACK_MAX - 4
  }

  lemma OperandThere(p: Program, ann: Annotation, s: System, i: Instr, next: nat)
    requires Running(p, ann, s, i, next) && Room(ann[s.tasks[s.cur].pc], 1)
    ensures s.tasks[s.cur].stack != []
  {
    HasOperands(p, ann, Context(s), 1);
  }

  lemma SpawnSound(p: Program, ann: Annotation, s: System, next: nat)
    requires Running(p, ann, s, Spawn, next) && ValuesOk(p, ann, s)
    ensures TurnSound(p, ann, DoSpawn(p, s, next))
  {
    OperandThere(p, ann, s, Spawn, next);
    var f := Last(s.tasks[s.cur].stack);
    if f.Func? {
      SpawnedShaped(p, ann, f);
      ReplaceShaped(p, ann, s, next, DropLast(s.tasks[s.cur].stack) + [Future(|s.tasks|)]);
    }
    hide Shape, Verified, Spawned, Decode;
  }

  lemma AwaitSound(p: Program, ann: Annotation, s: System, next: nat)
    requires Running(p, ann, s, Await, next) && ValuesOk(p, ann, s)
    ensures TurnSound(p, ann, DoAwait(s, next))
  {
    OperandThere(p, ann, s, Await, next);
    var f := Last(s.tasks[s.cur].stack);
    if f.Future? {
      ReplaceShaped(p, ann, s, next, DropLast(s.tasks[s.cur].stack) + [s.tasks[f.task].result]);
    }
    hide Shape, Verified, Decode;
  }

  lemma SleepSound(p: Program, ann: Annotation, millis: Value -> int, s: System, i: Instr, next: nat)
    requires Running(p, ann, s, i, next) && i == Apply(Native(SLEEP), 1)
    ensures TurnSound(p, ann, DoSleep(millis, s, next))
  {
    OperandThere(p, ann, s, i, next);
    ReplaceShaped(p, ann, s, next, DropLast(s.tasks[s.cur].stack) + [Null]);
    hide Shape, Verified, Decode;
  }

  lemma FinishSound(p: Program, ann: Annotation, s: System, next: nat)
    requires Running(p, ann, s, Ret, next) && OutermostRet(s, Ret)
    ensures TurnSound(p, ann, DoFinish(s))
  {
    FinishesClean(p, ann, s, next);
    hide Shape, Verified, Decode;
  }

  /** The outermost RET of a task has the result as its only operand and no handler open. */
  lemma FinishesClean(p: Program, ann: Annotation, s: System, next: nat)
    requires Verified(p, ann) && WellFormed(s) && WellShaped(p, ann, Context(s))
    requires Decode(p.code, s.tasks[s.cur].pc) == Some(Fetched(Ret, next)) && OutermostRet(s, Ret)
    ensures var t := s.tasks[s.cur]; |t.frames| == 1 && |t.stack| == 1 && t.handlers == []
  {
    assert PcOk(p, ann, s.tasks[s.cur].pc);
  }

  lemma OrdinarySound(p: Program, ann: Annotation, ops: Ops, s: System, i: Instr, next: nat)
    requires Running(p, ann, s, i, next) && ValuesOk(p, ann, s) && !i.Spawn? && !i.Await?
    ensures TurnSound(p, ann, DoOrdinary(p, ops, i, next, s))
  {
    hide Shape, Verified, Exec, Decode;
    StepSound(p, ann, ops, GO_BLANK, Context(s));
    assert Step(p, ops, GO_BLANK, Context(s)) == Exec(p, ops, GO_BLANK, i, next, Context(s));
  }

  lemma IsRunning(p: Program, ann: Annotation, s: System)
    requires Verified(p, ann) && Inv(p, s) && AllShaped(p, ann, s) && |s.tasks[s.cur].stack| <= STACK_MAX - 4
    ensures var d := Decode(p.code, s.tasks[s.cur].pc);
            d.Some? && Running(p, ann, s, d.value.instr, d.value.next)
  {
    assert TaskShaped(p, ann, s.tasks[s.cur]);
    assert PcOk(p, ann, s.tasks[s.cur].pc);
  }

  /** No turn is stuck, and whatever it does, the tasks are in shape after it. */
  lemma TurnsSound(p: Program, ann: Annotation, ops: Ops, millis: Value -> int, s: System)
    requires Verified(p, ann) && Inv(p, s) && AllShaped(p, ann, s) && ValuesOk(p, ann, s)
    ensures TurnSound(p, ann, TakeTurn(p, ops, millis, s))
  {
    hide Shape, Verified, Decode, Exec, Spawned, DoSpawn, DoAwait, DoSleep, DoFinish, DoOrdinary, AllShaped, ValuesOk;
    hide AllWaiting;
    if |s.tasks[s.cur].stack| <= STACK_MAX - 4 {
      IsRunning(p, ann, s);
      var d := Decode(p.code, s.tasks[s.cur].pc).value;
      var i := d.instr;
      if i.Spawn? {
        SpawnSound(p, ann, s, d.next);
      } else if i.Await? {
        AwaitSound(p, ann, s, d.next);
      } else if i == Apply(Native(SLEEP), 1) && |s.tasks| > 1 {
        SleepSound(p, ann, millis, s, i, d.next);
      } else if OutermostRet(s, i) {
        FinishSound(p, ann, s, d.next);
      } else {
        OrdinarySound(p, ann, ops, s, i, d.next);
      }
    }
  }

  lemma PickedShaped(p: Program, ann: Annotation, u: System, t: System)
    requires WellFormed(u) && AllShaped(p, ann, u) && Picked(u, t)
    ensures AllShaped(p, ann, t)
  {
    hide Shape, Ready;
    forall i | 0 <= i < |t.tasks| ensures TaskShaped(p, ann, t.tasks[i]) {
      assert TaskShaped(p, ann, u.tasks[i]);
    }
  }

  /** Every step of every interleaving keeps every task in the annotated shape. */
  lemma StepKeepsShapes(p: Program, ann: Annotation, ops: Ops, millis: Value -> int, s: System, t: System)
    requires Verified(p, ann) && Inv(p, s) && AllShaped(p, ann, s) && ValuesOk(p, ann, s)
    requires SysStep(p, ops, millis, s, t)
    ensures AllShaped(p, ann, t)
  {
    hide TakeTurn, Shape, Verified, Picked, ValuesOk, Inv;
    if !Ticked(s, t) {
      TurnsSound(p, ann, ops, millis, s);
      var turn := TakeTurn(p, ops, millis, s);
      if turn.Yields? {
        PickedShaped(p, ann, turn.sys, t);
      }
    }
  }

  lemma InitialShaped(p: Program, ann: Annotation, w: World, now: int)
    requires Verified(p, ann)
    ensures AllShaped(p, ann, InitialSystem(p, w, now))
  {
    InitialShape(p, ann, GO_BLANK, w);
  }

  /** A run of annotated code, from any state in shape. */
  ghost predicate ShapedRun(p: Program, ann: Annotation, ops: Ops, millis: Value -> int, tr: seq<System>) {
    && IsRun(p, ops, millis, tr) && AllShaped(p, ann, tr[0])
    && forall k :: 0 <= k < |tr| && WellFormed(tr[k]) ==> ValuesOk(p, ann, tr[k])
  }

  /**
   Stack discipline over every run and every interleaving: each task that is not done has
   the annotated shape at its pc, and the next turn is not stuck.
   */
  lemma {:induction false} RunShaped(p: Program, ann: Annotation, ops: Ops, millis: Value -> int, tr: seq<System>,
      k: nat)
    requires Verified(p, ann) && ShapedRun(p, ann, ops, millis, tr) && k < |tr|
    ensures WellFormed(tr[k]) && Inv(p, tr[k]) && AllShaped(p, ann, tr[k])
    ensures TakeTurn(p, ops, millis, tr[k]) != Ends(Stuck)
  {
    hide SysStep, Verified, AllShaped, ValuesOk, TakeTurn, Inv;
    RunInv(p, ops, millis, tr, k);
    if k > 0 {
      RunShaped(p, ann, ops, millis, tr, k - 1);
      assert SysStep(p, ops, millis, tr[k - 1], tr[k]);
      StepKeepsShapes(p, ann, ops, millis, tr[k - 1], tr[k]);
    }
    TurnsSound(p, ann, ops, millis, tr[k]);
  }

  /** In every run, a task at its outermost RET has one frame, its result as the only operand, and no handler open. */
  lemma RunFinishesClean(p: Program, ann: Annotation, ops: Ops, millis: Value -> int, tr: seq<System>, k: nat)
    requires Verified(p, ann) && ShapedRun(p, ann, ops, millis, tr) && k < |tr| && WellFormed(tr[k])
    requires var f := Fetch(p, tr[k]); f.Some? && OutermostRet(tr[k], f.value.instr)
    ensures var t := tr[k].tasks[tr[k].cur]; |t.frames| == 1 && |t.stack| == 1 && t.handlers == []
  {
    hide Verified, Shape, ShapedRun, TakeTurn, Decode;
    RunShaped(p, ann, ops, millis, tr, k);
    assert TaskShaped(p, ann, tr[k].tasks[tr[k].cur]);
    FinishesClean(p, ann, tr[k], Fetch(p, tr[k]).value.next);
  }

  // ---- One task among the others ----

  /** The working set of task `i`, whether it runs or not. */
  function ContextOf(s: System, i: nat): State
    requires i < |s.tasks|
  {
    var t := s.tasks[i];
    State(t.pc, t.stack, t.frames, t.handlers, s.globals, s.closures, s.world)
  }

  /** A run as task `i` sees it. */
  function OwnOf(tr: seq<System>, i: nat): (own: seq<State>)
    requires forall k :: 0 <= k < |tr| ==> i < |tr[k].tasks|
    ensures |own| == |tr| && forall k :: 0 <= k < |tr| ==> own[k] == ContextOf(tr[k], i)
  {
    seq(|tr|, k requires 0 <= k < |tr| => ContextOf(tr[k], i))
  }

  lemma ReplacesTop(p: Program, ann: Annotation, s: System, u: System, i: Instr, next: nat)
    requires Running(p, ann, s, i, next) && MayYield(i)
    requires s.cur < |u.tasks|
    requires var t, t' := s.tasks[s.cur], u.tasks[s.cur];
             && t.stack != [] && t'.pc == next && t'.frames == t.frames && t'.handlers == t.handlers
             && t'.stack != [] && DropLast(t'.stack) == DropLast(t.stack)
    ensures Replaced(p, Context(s), ContextOf(u, s.cur))
  {
  }

  /** The running task's turn, unless it is its last, goes on with its own run. */
  lemma TurnOnward(p: Program, ann: Annotation, ops: Ops, millis: Value -> int, s: System)
    requires Verified(p, ann) && Inv(p, s) && AllShaped(p, ann, s) && ValuesOk(p, ann, s)
    requires !TakeTurn(p, ops, millis, s).Ends?
    ensures var u := TakeTurn(p, ops, millis, s).sys;
            && s.cur < |u.tasks|
            && (!u.tasks[s.cur].done ==> Onward(p, ann, ops, GO_BLANK, Context(s), ContextOf(u, s.cur)))
  {
    hide Shape, Verified, Exec, AllShaped, AllWaiting, InstrOk, Decode, CallValueOk;
    IsRunning(p, ann, s);
    var d := Decode(p.code, s.tasks[s.cur].pc).value;
    var i, u := d.instr, TakeTurn(p, ops, millis, s).sys;
    if MayYield(i) && s.tasks[s.cur].stack != [] && u.tasks[s.cur].pc == d.next && u.tasks[s.cur].stack != []
       && DropLast(u.tasks[s.cur].stack) == DropLast(s.tasks[s.cur].stack)
       && u.tasks[s.cur].frames == s.tasks[s.cur].frames && u.tasks[s.cur].handlers == s.tasks[s.cur].handlers {
      ReplacesTop(p, ann, s, u, i, d.next);
    } else {
      assert Step(p, ops, GO_BLANK, Context(s)) == Exec(p, ops, GO_BLANK, i, d.next, Context(s));
    }
  }

  /** Any step of the system continues the own run of any task that is not done after it. */
  lemma StepOnward(p: Program, ann: Annotation, ops: Ops, millis: Value -> int, s: System, t: System, i: nat)
    requires Verified(p, ann) && Inv(p, s) && AllShaped(p, ann, s) && ValuesOk(p, ann, s)
    requires SysStep(p, ops, millis, s, t) && i < |s.tasks| && i < |t.tasks| && !t.tasks[i].done
    ensures Onward(p, ann, ops, GO_BLANK, ContextOf(s, i), ContextOf(t, i))
  {
    hide TakeTurn, Shape, Verified, Inv, AllShaped, ValuesOk, Step, Replaced, CallValueOk;
    if i != s.cur {
      StepUndisturbed(p, ops, millis, s, t, i);
    } else if !Ticked(s, t) {
      TurnOnward(p, ann, ops, millis, s);
      assert ContextOf(s, s.cur) == Context(s);
      assert SameOwn(ContextOf(TakeTurn(p, ops, millis, s).sys, i), ContextOf(t, i));
    }
  }

  /** A task that is not done was not done before. */
  lemma {:induction false} StillLive(p: Program, ops: Ops, millis: Value -> int, tr: seq<System>, k: nat, i: nat)
    requires IsRun(p, ops, millis, tr) && k < |tr| && i < |tr[k].tasks| && i < |Last(tr).tasks|
             && !Last(tr).tasks[i].done
    ensures !tr[k].tasks[i].done
    decreases |tr| - k
  {
    hide SysStep, Inv;
    if k + 1 < |tr| {
      assert SysStep(p, ops, millis, tr[k], tr[k + 1]);
      RunInv(p, ops, millis, tr, k);
      StepGrows(p, ops, millis, tr[k], tr[k + 1]);
      StillLive(p, ops, millis, tr, k + 1, i);
      if tr[k].tasks[i].done {
        ResultFinal(p, ops, millis, tr[k], tr[k + 1], i);
      }
    }
  }

  /** Task `i` is there throughout and the one to run next, not done. */
  ghost predicate LivesAt(tr: seq<System>, i: nat) {
    && tr != [] && (forall k :: 0 <= k < |tr| ==> i < |tr[k].tasks|)
    && Last(tr).cur == i && !Last(tr).tasks[i].done
  }

  /** What a task does in a run, between any turns of the others, is an own run of annotated code. */
  lemma TaskOwnRun(p: Program, ann: Annotation, ops: Ops, millis: Value -> int, tr: seq<System>, i: nat)
    requires Verified(p, ann) && ShapedRun(p, ann, ops, millis, tr)
    requires (forall k :: 0 <= k < |tr| ==> i < |tr[k].tasks|) && !Last(tr).tasks[i].done
    ensures OwnRun(p, ann, ops, GO_BLANK, OwnOf(tr, i))
  {
    hide SysStep, Verified, Inv, Onward, ValuesOk, Shape;
    var own := OwnOf(tr, i);
    StillLive(p, ops, millis, tr, 0, i);
    assert TaskShaped(p, ann, tr[0].tasks[i]);
    forall k | 0 < k < |own| ensures Onward(p, ann, ops, GO_BLANK, own[k - 1], own[k]) {
      StillLive(p, ops, millis, tr, k, i);
      RunShaped(p, ann, ops, millis, tr, k - 1);
      assert SysStep(p, ops, millis, tr[k - 1], tr[k]);
      StepOnward(p, ann, ops, millis, tr[k - 1], tr[k], i);
    }
  }

  /** A turn on an instruction of the machine's own is that instruction. */
  lemma OrdinaryTurn(p: Program, ops: Ops, millis: Value -> int, s: System)
    requires WellFormed(s)
    requires var d := Decode(p.code, s.tasks[s.cur].pc);
             d.Some? && !MayYield(d.value.instr) && !OutermostRet(s, d.value.instr)
    ensures var turn := TakeTurn(p, ops, millis, s);
            match Step(p, ops, GO_BLANK, Context(s))
            case Next(c) => turn == Runs(WithContext(s, c))
            case o => turn == Ends(o)
  {
    hide Exec, Decode;
  }

  /** A RET after which the machine goes on is not the outermost one. */
  lemma NotOutermost(p: Program, ops: Ops, s: System)
    requires WellFormed(s) && Step(p, ops, GO_BLANK, Context(s)).Next?
    requires var d := Decode(p.code, s.tasks[s.cur].pc); d.Some?
    ensures !OutermostRet(s, Decode(p.code, s.tasks[s.cur].pc).value.instr)
  {
    hide Decode;
  }

  /**
   A call nets one value in a task too: from its CALL or CALLVALUE, through its callees
   and through any turns of other tasks, to the RET that drops the callee's frame.
   */
  lemma TaskCallReturns(p: Program, ann: Annotation, ops: Ops, millis: Value -> int, tr: seq<System>, i: nat)
    requires Verified(p, ann) && ShapedRun(p, ann, ops, millis, tr) && LivesAt(tr, i)
    requires Calls.WholeCall(p, ann, ops, GO_BLANK, OwnOf(tr, i))
    ensures var s, turn := Last(tr), TakeTurn(p, ops, millis, Last(tr));
            exists u :: Calls.Resumed(p, ContextOf(tr[0], i), Context(s), u) && turn == Runs(WithContext(s, u))
  {
    hide Verified, ShapedRun, Exec, Decode, Step, TakeTurn, OwnRun, Calls.Resumed, Calls.Calling, Calls.Deeper;
    var own := OwnOf(tr, i);
    TaskOwnRun(p, ann, ops, millis, tr, i);
    Calls.CallReturns(p, ann, ops, GO_BLANK, own);
    assert own[0] == ContextOf(tr[0], i) && Last(own) == Context(Last(tr));
    NotOutermost(p, ops, Last(tr));
    OrdinaryTurn(p, ops, millis, Last(tr));
  }

  /**
   Exceptions in a task: from its TRYPUSH, through calls, returns, other handlers and any
   turns of other tasks, to the instruction that raises to it, whose turn puts the task
   into the catch block with the operands, handlers and frames of the TRYPUSH.
   */
  lemma TaskTryCatch(p: Program, ann: Annotation, ops: Ops, millis: Value -> int, tr: seq<System>, i: nat)
    requires Verified(p, ann) && ShapedRun(p, ann, ops, millis, tr) && LivesAt(tr, i)
    requires Unwinding.WholeTry(p, ann, ops, GO_BLANK, OwnOf(tr, i))
    ensures var s, turn := Last(tr), TakeTurn(p, ops, millis, Last(tr));
            exists u :: Unwinding.Catching(p, ops, ContextOf(tr[0], i), Context(s), u)
                && turn == Runs(WithContext(s, u))
  {
    hide Verified, ShapedRun, Exec, Decode, Step, TakeTurn, OwnRun, Unwinding.Catching, Unwinding.Opening,
        Unwinding.StaysOpen;
    var own := OwnOf(tr, i);
    TaskOwnRun(p, ann, ops, millis, tr, i);
    Unwinding.TryCatch(p, ann, ops, GO_BLANK, own);
    assert own[0] == ContextOf(tr[0], i) && Last(own) == Context(Last(tr));
    NotOutermost(p, ops, Last(tr));
    OrdinaryTurn(p, ops, millis, Last(tr));
  }
}
