/**
 The Go engine: heap frames and an operand stack that starts at 256 slots and doubles
 up to 65536. Every step is the step of Machine.dfy with int 0 in fresh locals, so the
 growing stack cannot be told from the C engine's fixed one.
 */
module GoEngine {
  import opened Common
  import opened Isa
  import opened Machine
  import opened Lockstep

  /** `localsBase` is where this frame's locals would start in the C engine's locals array. */
  datatype GoFrame = GoFrame(retpc: int, locals: seq<Value>, fn: nat, localsBase: int)

  const STACK_INIT: nat := 256

  function ToFrame(f: GoFrame): Frame {
    Frame(f.retpc, f.locals, f.fn)
  }

  function ToFrames(fs: seq<GoFrame>): (r: seq<Frame>)
    ensures |r| == |fs| && forall i :: 0 <= i < |fs| ==> r[i] == ToFrame(fs[i])
  {
    seq(|fs|, i requires 0 <= i < |fs| => ToFrame(fs[i]))
  }

  /** Each frame's cached base is the number of locals in the frames below it. */
  ghost predicate BasesOk(fs: seq<GoFrame>) {
    forall i :: 0 <= i < |fs| ==> fs[i].localsBase == LocalsUsed(ToFrames(fs[..i]))
  }

  /** The base of the next frame, derived from the top one. */
  function NextLocalsBase(fs: seq<GoFrame>): int {
    if fs == [] then 0 else Last(fs).localsBase + |Last(fs).locals|
  }

  lemma BaseIsUsed(fs: seq<GoFrame>)
    requires BasesOk(fs)
    ensures NextLocalsBase(fs) == LocalsUsed(ToFrames(fs))
  {
    if fs != [] {
      assert DropLast(ToFrames(fs)) == ToFrames(fs[..|fs| - 1]);
    }
  }

  lemma PrefixBases(fs: seq<GoFrame>, n: nat)
    requires BasesOk(fs) && n <= |fs|
    ensures BasesOk(fs[..n]) && ToFrames(fs[..n]) == ToFrames(fs)[..n]
  {
    forall i | 0 <= i < n
      ensures fs[..n][i].localsBase == LocalsUsed(ToFrames(fs[..n][..i]))
    {
      assert fs[..n][..i] == fs[..i];
    }
  }

  lemma ExtendBases(fs: seq<GoFrame>, f: GoFrame)
    requires BasesOk(fs) && f.localsBase == LocalsUsed(ToFrames(fs))
    ensures BasesOk(fs + [f]) && ToFrames(fs + [f]) == ToFrames(fs) + [ToFrame(f)]
  {
    var all := fs + [f];
    forall i | 0 <= i < |all|
      ensures all[i].localsBase == LocalsUsed(ToFrames(all[..i]))
    {
      assert all[..i] == fs[..i];
      assert fs[..|fs|] == fs;
    }
  }

  /** `frames[top].locals[slot] = v` */
  function SetTopLocal(fs: seq<GoFrame>, slot: nat, v: Value): (r: seq<GoFrame>)
    requires fs != [] && slot < |Last(fs).locals|
  {
    DropLast(fs) + [Last(fs).(locals := Last(fs).locals[slot := v])]
  }

  lemma SetTopLocalOk(fs: seq<GoFrame>, slot: nat, v: Value)
    requires BasesOk(fs) && fs != [] && slot < |Last(fs).locals|
    ensures BasesOk(SetTopLocal(fs, slot, v))
    ensures ToFrames(SetTopLocal(fs, slot, v)) == StoreLocal(ToFrames(fs), slot, v)
  {
    PrefixBases(fs, |fs| - 1);
    ExtendBases(DropLast(fs), Last(SetTopLocal(fs, slot, v)));
  }

  class Engine {
    const p: Program
    const ops: Ops
    var stack: array<Value>
    var sp: nat
    var frames: seq<GoFrame>
    var pc: nat
    var handlers: seq<Handler>
    var globals: seq<Value>
    var closures: nat
    var world: World

    ghost predicate Valid()
      reads this, stack
    {
      && stack.Length in {256, 512, 1024, 2048, 4096, 8192, 16384, 32768, 65536}
      && sp <= stack.Length
      && BasesOk(frames)
    }

    ghost function Abs(): State
      reads this, stack
      requires sp <= stack.Length
    {
      State(pc, stack[..sp], ToFrames(frames), handlers, globals, closures, world)
    }

    /** The outcome this engine owes the machine of Machine.dfy. */
    ghost predicate Meets(signal: Signal, o: Outcome)
      reads this, stack
    {
      Valid() && if o.Next? then signal == Continue && Abs() == o.state else signal == Stop(o)
    }

    constructor (p: Program, ops: Ops, world: World)
      requires p.entryFn < |p.funcs|
      ensures Valid() && fresh(stack) && this.p == p && this.ops == ops
      ensures Abs() == Initial(p, GO_BLANK, world)
    {
      this.p, this.ops, this.world := p, ops, world;
      stack := new Value[STACK_INIT](_ => GO_BLANK);
      sp, handlers, globals, closures := 0, [], [], 0;
      var main := p.funcs[p.entryFn];
      pc := main.entry;
      frames := [GoFrame(-1, Fill(GO_BLANK, main.nlocals), p.entryFn, 0)];
      new;
      assert frames[..0] == [];
    }

    /** Double the operand stack, or report that it is at its ceiling. */
    method GrowStack() returns (signal: Signal)
      requires Valid()
      modifies this`stack
      ensures Valid() && Abs() == old(Abs())
      ensures signal == Continue ==> fresh(stack) && stack.Length == 2 * old(stack.Length)
      ensures signal != Continue ==>
                signal == Stop(Fatal(STACK_OVERFLOW)) && stack == old(stack) && stack.Length == STACK_MAX
    {
      var n := stack.Length * 2;
      if n > STACK_MAX {
        n := STACK_MAX;
      }
      if n == stack.Length {
        return Stop(Fatal(STACK_OVERFLOW));
      }
      var out := new Value[n](_ => GO_BLANK);
      forall i | 0 <= i < stack.Length {
        out[i] := stack[i];
      }
      assert out[..sp] == stack[..sp];
      stack := out;
      signal := Continue;
    }

    method Push(v: Value, next: nat)
      requires Valid() && sp < stack.Length
      modifies this`sp, this`pc, stack
      ensures Valid() && Abs() == Machine.Push(old(Abs()), v, next)
      ensures sp == old(sp) + 1
    {
      stack[sp] := v;
      sp := sp + 1;
      pc := next;
    }

    /** Drop the handler on top and unwind to it; false when there is none. */
    method Raise(v: Value) returns (raised: bool)
      requires Valid() && (handlers != [] ==> !Machine.Raise(Abs(), v).Stuck?)
      modifies this
      ensures Valid() && stack == old(stack)
      ensures raised <==> old(handlers) != []
      ensures raised ==> Abs() == old(Machine.Raise(Abs(), v)).state
      ensures !raised ==> Abs() == old(Abs())
    {
      hide BasesOk, LocalsUsed, ToFrames, SetTopLocal, StoreLocal;
      if handlers == [] {
        return false;
      }
      var h := Last(handlers);
      handlers := DropLast(handlers);
      if h.sp <= sp {
        assert stack[..sp][..h.sp] == stack[..h.sp];
        sp := h.sp;
      }
      PrefixBases(frames, h.fp);
      frames := frames[..h.fp];
      if h.slot != NO_SLOT {
        SetTopLocalOk(frames, h.slot, v);
        frames := SetTopLocal(frames, h.slot, v);
      }
      pc := h.catchPC;
      raised := true;
    }

    method Literal(i: Instr, next: nat) returns (signal: Signal)
      requires Valid() && sp + 4 <= stack.Length
      requires i.Const? || i.PushTrue? || i.PushFalse? || i.PushNull? || i.PushFn? || i.GetGlobal? || i.Load?
      requires !Exec(p, ops, GO_BLANK, i, next, Abs()).Stuck?
      modifies this, stack
      ensures stack == old(stack) && Meets(signal, old(Exec(p, ops, GO_BLANK, i, next, Abs())))
    {
      hide BasesOk, LocalsUsed;
      signal := Continue;
      match i
      case Const(idx) => Push(p.consts[idx], next);
      case PushTrue => Push(Bool(true), next);
      case PushFalse => Push(Bool(false), next);
      case PushNull => Push(Null, next);
      case PushFn(fn) => Push(Func(fn, [], 0), next);
      case GetGlobal(slot) => Push(if slot >= |globals| then Null else globals[slot], next);
      case Load(slot) => Push(Last(frames).locals[slot], next);
    }

    method PopOrCoalesce(i: Instr, next: nat) returns (signal: Signal)
      requires Valid() && sp + 4 <= stack.Length && (i.Pop? || i.Coalesce?)
      requires !Exec(p, ops, GO_BLANK, i, next, Abs()).Stuck?
      modifies this, stack
      ensures stack == old(stack) && Meets(signal, old(Exec(p, ops, GO_BLANK, i, next, Abs())))
    {
      hide BasesOk, LocalsUsed;
      if i.Pop? {
        sp := sp - 1;
      } else {
        sp := sp - 2;
        if stack[sp].Null? {
          stack[sp] := stack[sp + 1];
        }
        sp := sp + 1;
      }
      pc := next;
      signal := Continue;
    }

    method StoreTop(i: Instr, next: nat) returns (signal: Signal)
      requires Valid() && i.Store?
      requires !Exec(p, ops, GO_BLANK, i, next, Abs()).Stuck?
      modifies this
      ensures stack == old(stack) && Meets(signal, old(Exec(p, ops, GO_BLANK, i, next, Abs())))
    {
      hide BasesOk, LocalsUsed;
      sp := sp - 1;
      SetTopLocalOk(frames, i.slot, stack[sp]);
      frames := SetTopLocal(frames, i.slot, stack[sp]);
      pc := next;
      signal := Continue;
    }

    /** The globals array grows on demand, new slots holding null. */
    method StoreGlobal(i: Instr, next: nat) returns (signal: Signal)
      requires Valid() && i.SetGlobal?
      requires !Exec(p, ops, GO_BLANK, i, next, Abs()).Stuck?
      modifies this
      ensures stack == old(stack) && Meets(signal, old(Exec(p, ops, GO_BLANK, i, next, Abs())))
    {
      hide BasesOk, LocalsUsed;
      ghost var g := globals;
      while |globals| <= i.slot
        invariant |g| <= |globals| && globals == g + Fill(Null, |globals| - |g|)
        invariant |globals| <= i.slot + 1 || globals == g
        modifies this`globals
      {
        globals := globals + [Null];
      }
      sp := sp - 1;
      globals := globals[i.slot := stack[sp]];
      pc := next;
      signal := Continue;
    }

    method Primitive(i: Instr, next: nat) returns (signal: Signal)
      requires Valid() && sp + 4 <= stack.Length && (i.Apply? || i.Effect?)
      requires !Exec(p, ops, GO_BLANK, i, next, Abs()).Stuck?
      modifies this, stack
      ensures stack == old(stack) && Meets(signal, old(Exec(p, ops, GO_BLANK, i, next, Abs())))
    {
      hide BasesOk, LocalsUsed;
      var base := sp - i.argc;
      assert stack[base..sp] == Args(Abs(), i.argc);
      var r := ops.apply(i.prim, stack[base..sp], world);
      if r.Abort? {
        return Stop(Fatal(r.msg));
      }
      sp, world, pc := base, r.world, next;
      if i.Apply? {
        Push(r.value, next);
      }
      signal := Continue;
    }

    method JumpBy(i: Instr, next: nat) returns (signal: Signal)
      requires Valid() && (i.Jump? || i.JumpIfFalse? || i.JumpIfTrue?)
      requires !Exec(p, ops, GO_BLANK, i, next, Abs()).Stuck?
      modifies this
      ensures stack == old(stack) && Meets(signal, old(Exec(p, ops, GO_BLANK, i, next, Abs())))
    {
      hide BasesOk, LocalsUsed;
      var taken := true;
      if !i.Jump? {
        sp := sp - 1;
        taken := ops.truthy(stack[sp], world) == i.JumpIfTrue?;
      }
      pc := if taken then next + i.rel else next;
      signal := Continue;
    }

    /** Push a frame for `fn`; the operands in `args` have been read, `base` is the new sp. */
    method EnterFrame(fn: nat, args: seq<Value>, base: nat, next: nat) returns (signal: Signal)
      requires Valid() && base <= sp
      requires !Enter(p, GO_BLANK, Drop(Abs(), sp - base), fn, args, next).Stuck?
      modifies this
      ensures stack == old(stack)
      ensures Meets(signal, old(Enter(p, GO_BLANK, Drop(Abs(), sp - base), fn, args, next)))
    {
      hide BasesOk, LocalsUsed;
      var f := p.funcs[fn];
      var lbase := NextLocalsBase(frames);
      BaseIsUsed(frames);
      if lbase + f.nlocals > LOCALS_MAX - 2 {
        return Stop(Fatal(LOCALS_OVERFLOW));
      }
      var locals := Overlay(Fill(GO_BLANK, f.nlocals), args);
      assert stack[..sp][..base] == stack[..base];
      sp := base;
      if |frames| > FRAME_MAX - 2 {
        return Stop(Fatal(CALL_OVERFLOW));
      }
      ExtendBases(frames, GoFrame(next, locals, fn, lbase));
      frames := frames + [GoFrame(next, locals, fn, lbase)];
      pc := f.entry;
      signal := Continue;
    }

    method CallFunction(i: Instr, next: nat) returns (signal: Signal)
      requires Valid() && i.Call?
      requires !Exec(p, ops, GO_BLANK, i, next, Abs()).Stuck?
      modifies this
      ensures stack == old(stack) && Meets(signal, old(Exec(p, ops, GO_BLANK, i, next, Abs())))
    {
      hide BasesOk, LocalsUsed, Enter;
      var base := sp - i.argc;
      assert stack[base..sp] == Args(Abs(), i.argc);
      signal := EnterFrame(i.fn, stack[base..sp], base, next);
    }

    method CallFunctionValue(i: Instr, next: nat) returns (signal: Signal)
      requires Valid() && i.CallValue?
      requires !Exec(p, ops, GO_BLANK, i, next, Abs()).Stuck?
      modifies this
      ensures stack == old(stack) && Meets(signal, old(Exec(p, ops, GO_BLANK, i, next, Abs())))
    {
      hide BasesOk, LocalsUsed, Enter;
      var base := sp - i.argc;
      var callee := stack[base - 1];
      if !callee.Func? {
        return Stop(Fatal(NOT_A_FUNCTION));
      }
      assert stack[base..sp] == Args(Abs(), i.argc);
      signal := EnterFrame(callee.fn, callee.captured + stack[base..sp], base - 1, next);
    }

    method MakeClosure(i: Instr, next: nat) returns (signal: Signal)
      requires Valid() && sp + 4 <= stack.Length && i.Closure?
      requires !Exec(p, ops, GO_BLANK, i, next, Abs()).Stuck?
      modifies this, stack
      ensures stack == old(stack) && Meets(signal, old(Exec(p, ops, GO_BLANK, i, next, Abs())))
    {
      hide BasesOk, LocalsUsed;
      var base := sp - i.ncap;
      var captured := stack[base..sp];
      assert captured == Args(Abs(), i.ncap);
      sp := base;
      closures := closures + 1;
      Push(Func(i.fn, captured, closures), next);
      signal := Continue;
    }

    method Return(next: nat) returns (signal: Signal)
      requires Valid() && !Exec(p, ops, GO_BLANK, Ret, next, Abs()).Stuck?
      modifies this, stack
      ensures stack == old(stack) && Meets(signal, old(Exec(p, ops, GO_BLANK, Ret, next, Abs())))
    {
      hide BasesOk, LocalsUsed;
      ghost var before := stack[..sp];
      sp := sp - 1;
      var ret := stack[sp];
      var fr := Last(frames);
      PrefixBases(frames, |frames| - 1);
      frames := DropLast(frames);
      if fr.retpc < 0 {
        return Stop(Returned(ret, world));
      }
      pc := fr.retpc;
      stack[sp] := ret;
      sp := sp + 1;
      assert stack[..sp] == before;
      signal := Continue;
    }

    method Handle(i: Instr, next: nat) returns (signal: Signal)
      requires Valid() && (i.TryPush? || i.TryPop?)
      requires !Exec(p, ops, GO_BLANK, i, next, Abs()).Stuck?
      modifies this
      ensures stack == old(stack) && Meets(signal, old(Exec(p, ops, GO_BLANK, i, next, Abs())))
    {
      hide BasesOk, LocalsUsed;
      if i.TryPush? {
        if |handlers| > HANDLER_MAX - 2 {
          return Stop(Fatal(HANDLER_OVERFLOW));
        }
        handlers := handlers + [Handler(next + i.rel, sp, |frames|, i.slot)];
      } else if |handlers| > 0 {
        handlers := DropLast(handlers);
      }
      pc := next;
      signal := Continue;
    }

    /** Pop the operands, then raise `v` or abort with `uncaught`. */
    method RaiseOrAbort(pops: nat, v: Value, uncaught: string) returns (signal: Signal)
      requires Valid() && pops <= sp && !RaiseOr(Drop(Abs(), pops), v, uncaught).Stuck?
      modifies this
      ensures stack == old(stack) && Meets(signal, old(RaiseOr(Drop(Abs(), pops), v, uncaught)))
    {
      assert stack[..sp][..sp - pops] == stack[..sp - pops];
      sp := sp - pops;
      var raised := Raise(v);
      signal := if raised then Continue else Stop(Fatal(uncaught));
    }

    method MayRaise(i: Instr, next: nat) returns (signal: Signal)
      requires Valid() && (i.Assert? || i.Throw? || i.Unwrap?)
      requires !Exec(p, ops, GO_BLANK, i, next, Abs()).Stuck?
      modifies this
      ensures stack == old(stack) && Meets(signal, old(Exec(p, ops, GO_BLANK, i, next, Abs())))
    {
      hide BasesOk, LocalsUsed;
      if i.Throw? {
        signal := RaiseOrAbort(1, stack[sp - 1], UNCAUGHT + ops.text(stack[sp - 1], world));
      } else if i.Assert? && !ops.truthy(stack[sp - 1], world) {
        var msg := ASSERT_PREFIX + ops.text(stack[sp - 2], world);
        signal := RaiseOrAbort(2, Str(msg), msg);
      } else if i.Unwrap? && stack[sp - 1].Null? {
        signal := RaiseOrAbort(1, Str(UNWRAP_NULL), UNWRAP_NULL);
      } else {
        sp := if i.Assert? then sp - 2 else sp;
        pc := next;
        signal := Continue;
      }
    }

    /** One iteration of the dispatch loop. */
    method Step() returns (signal: Signal)
      requires Valid() && !Machine.Step(p, ops, GO_BLANK, Abs()).Stuck?
      modifies this, stack
      ensures stack == old(stack) || fresh(stack)
      ensures Meets(signal, old(Machine.Step(p, ops, GO_BLANK, Abs())))
    {
      hide BasesOk, LocalsUsed, Decode;
      if sp + 4 > stack.Length {
        var grown := GrowStack();
        if grown != Continue {
          return grown;
        }
      }
      var f := Decode(p.code, pc).value;
      signal := Dispatch(f.instr, f.next);
    }

    method Dispatch(i: Instr, next: nat) returns (signal: Signal)
      requires Valid() && sp + 4 <= stack.Length
      requires !Exec(p, ops, GO_BLANK, i, next, Abs()).Stuck?
      modifies this, stack
      ensures stack == old(stack) && Meets(signal, old(Exec(p, ops, GO_BLANK, i, next, Abs())))
    {
      hide BasesOk, LocalsUsed;
      signal := Continue;
      match i
      case Halt => signal := Stop(Halted(world));
      case Pop => signal := PopOrCoalesce(i, next);
      case Coalesce => signal := PopOrCoalesce(i, next);
      case Store(_) => signal := StoreTop(i, next);
      case SetGlobal(_) => signal := StoreGlobal(i, next);
      case Apply(_, _) => signal := Primitive(i, next);
      case Effect(_, _) => signal := Primitive(i, next);
      case Jump(_) => signal := JumpBy(i, next);
      case JumpIfFalse(_) => signal := JumpBy(i, next);
      case JumpIfTrue(_) => signal := JumpBy(i, next);
      case Call(_, _) => signal := CallFunction(i, next);
      case CallValue(_) => signal := CallFunctionValue(i, next);
      case Closure(_, _) => signal := MakeClosure(i, next);
      case Ret => signal := Return(next);
      case TryPush(_, _) => signal := Handle(i, next);
      case TryPop => signal := Handle(i, next);
      case Assert => signal := MayRaise(i, next);
      case Throw => signal := MayRaise(i, next);
      case Unwrap => signal := MayRaise(i, next);
      case Const(_) => signal := Literal(i, next);
      case PushTrue => signal := Literal(i, next);
      case PushFalse => signal := Literal(i, next);
      case PushNull => signal := Literal(i, next);
      case PushFn(_) => signal := Literal(i, next);
      case GetGlobal(_) => signal := Literal(i, next);
      case Load(_) => signal := Literal(i, next);
      case Spawn => assert false;
      case Await => assert false;
    }
  }
}
