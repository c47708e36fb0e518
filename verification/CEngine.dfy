/**
 The C engine: every operand, frame, handler and local lives in a fixed array, and the
 frames carve their locals out of one array of 65536 slots. Every step is the step of
 Machine.dfy with null in fresh locals.

 Reference counts do not appear here; RefCount.dfy has them.
 */
module CEngine {
  import opened Common
  import opened Isa
  import opened Machine
  import opened Lockstep

  datatype CFrame = CFrame(retpc: int, localsBase: nat, nlocals: nat, fn: nat)

  function End(f: CFrame): nat {
    f.localsBase + f.nlocals
  }

  /** The frames' locals lie end to end from slot 0 and stay inside the array. */
  ghost predicate Laid(fs: seq<CFrame>) {
    && (forall i :: 0 <= i < |fs| ==> fs[i].localsBase == Top(fs[..i]))
    && (forall i :: 0 <= i < |fs| ==> End(fs[i]) <= Top(fs) <= LOCALS_MAX)
  }

  /** First slot above all the frames. */
  function Top(fs: seq<CFrame>): nat {
    if fs == [] then 0 else End(Last(fs))
  }

  function ToFrame(f: CFrame, locals: seq<Value>): Frame
    requires End(f) <= |locals|
  {
    Frame(f.retpc, locals[f.localsBase..End(f)], f.fn)
  }

  function ToFrames(fs: seq<CFrame>, locals: seq<Value>): (r: seq<Frame>)
    requires Laid(fs) && |locals| == LOCALS_MAX
    ensures |r| == |fs| && forall i :: 0 <= i < |fs| ==> r[i] == ToFrame(fs[i], locals)
  {
    seq(|fs|, i requires 0 <= i < |fs| => ToFrame(fs[i], locals))
  }

  lemma PrefixLaid(fs: seq<CFrame>, n: nat)
    requires Laid(fs) && n <= |fs|
    ensures Laid(fs[..n])
  {
    forall i | 0 <= i < n
      ensures fs[..n][i].localsBase == Top(fs[..n][..i]) && End(fs[..n][i]) <= Top(fs[..n]) <= LOCALS_MAX
    {
      assert fs[..n][..i] == fs[..i];
      TopMonotone(fs, i, n - 1);
    }
  }

  lemma {:induction false} TopMonotone(fs: seq<CFrame>, i: nat, j: nat)
    requires Laid(fs) && i <= j < |fs|
    ensures End(fs[i]) <= End(fs[j])
    decreases j
  {
    if i < j {
      TopMonotone(fs, i, j - 1);
      assert fs[j].localsBase == Top(fs[..j]) && Last(fs[..j]) == fs[j - 1];
    }
  }

  lemma ExtendLaid(fs: seq<CFrame>, f: CFrame)
    requires Laid(fs) && f.localsBase == Top(fs) && End(f) <= LOCALS_MAX
    ensures Laid(fs + [f])
  {
    var all := fs + [f];
    forall i | 0 <= i < |all|
      ensures all[i].localsBase == Top(all[..i]) && End(all[i]) <= Top(all)
    {
      assert all[..i] == fs[..i];
      assert fs[..|fs|] == fs;
    }
  }

  /** The frames only see the locals below their top. */
  lemma SameLocals(fs: seq<CFrame>, locals: seq<Value>, locals': seq<Value>)
    requires Laid(fs) && |locals| == |locals'| == LOCALS_MAX
    requires locals[..Top(fs)] == locals'[..Top(fs)]
    ensures ToFrames(fs, locals) == ToFrames(fs, locals')
  {
    forall i | 0 <= i < |fs|
      ensures ToFrame(fs[i], locals) == ToFrame(fs[i], locals')
    {
      var f := fs[i];
      assert locals[f.localsBase..End(f)] == locals[..Top(fs)][f.localsBase..End(f)];
      assert locals'[f.localsBase..End(f)] == locals'[..Top(fs)][f.localsBase..End(f)];
    }
  }

  /** The C engine's end of the locals is the machine's count of them. */
  lemma {:induction false} TopIsUsed(fs: seq<CFrame>, locals: seq<Value>)
    requires Laid(fs) && |locals| == LOCALS_MAX
    ensures Top(fs) == LocalsUsed(ToFrames(fs, locals))
    decreases |fs|
  {
    if fs != [] {
      PrefixLaid(fs, |fs| - 1);
      TopIsUsed(DropLast(fs), locals);
      assert DropLast(ToFrames(fs, locals)) == ToFrames(DropLast(fs), locals);
      assert Last(ToFrames(fs, locals)) == ToFrame(Last(fs), locals);
      assert Last(fs).localsBase == Top(fs[..|fs| - 1]);
    }
  }

  lemma SplitLaid(fs: seq<CFrame>)
    requires Laid(fs) && fs != []
    ensures Laid(DropLast(fs)) && Last(fs).localsBase == Top(DropLast(fs)) && End(Last(fs)) <= LOCALS_MAX
  {
    PrefixLaid(fs, |fs| - 1);
    assert Last(fs).localsBase == Top(fs[..|fs| - 1]);
  }

  lemma SplitTop(fs: seq<CFrame>, locals: seq<Value>)
    requires Laid(fs) && |locals| == LOCALS_MAX && fs != []
    ensures Laid(DropLast(fs)) && Last(fs).localsBase == Top(DropLast(fs)) && End(Last(fs)) <= LOCALS_MAX
    ensures ToFrames(fs, locals) == ToFrames(DropLast(fs), locals) + [ToFrame(Last(fs), locals)]
    ensures DropLast(ToFrames(fs, locals)) == ToFrames(DropLast(fs), locals)
  {
    SplitLaid(fs);
    hide Laid, Top, ToFrames, End, ToFrame;
  }

  /** Writing one local of the top frame. */
  lemma WriteTop(fs: seq<CFrame>, locals: seq<Value>, slot: nat, v: Value)
    requires Laid(fs) && |locals| == LOCALS_MAX && fs != [] && slot < Last(fs).nlocals
    requires Last(fs).localsBase + slot < LOCALS_MAX
    ensures ToFrames(fs, locals[Last(fs).localsBase + slot := v]) == StoreLocal(ToFrames(fs, locals), slot, v)
  {
    hide Laid;
    var locals' := locals[Last(fs).localsBase + slot := v];
    var f, lower := Last(fs), DropLast(fs);
    SplitTop(fs, locals);
    SplitTop(fs, locals');
    assert locals[..Top(lower)] == locals'[..Top(lower)];
    SameLocals(lower, locals, locals');
    assert locals'[f.localsBase..End(f)] == locals[f.localsBase..End(f)][slot := v];
  }

  /** A new frame whose locals have just been written above the others. */
  lemma PushFrame(fs: seq<CFrame>, f: CFrame, locals: seq<Value>, locals': seq<Value>, contents: seq<Value>)
    requires Laid(fs) && f.localsBase == Top(fs) && End(f) <= LOCALS_MAX
    requires |locals| == |locals'| == LOCALS_MAX
    requires locals[..Top(fs)] == locals'[..Top(fs)] && locals'[f.localsBase..End(f)] == contents
    ensures Laid(fs + [f])
    ensures ToFrames(fs + [f], locals') == ToFrames(fs, locals) + [Frame(f.retpc, contents, f.fn)]
  {
    ExtendLaid(fs, f);
    SameLocals(fs, locals, locals');
    assert ToFrames(fs + [f], locals') == ToFrames(fs, locals') + [ToFrame(f, locals')];
  }

  lemma PopFrames(fs: seq<CFrame>, locals: seq<Value>, n: nat)
    requires Laid(fs) && |locals| == LOCALS_MAX && n <= |fs|
    ensures Laid(fs[..n]) && ToFrames(fs[..n], locals) == ToFrames(fs, locals)[..n]
  {
    PrefixLaid(fs, n);
  }

  class Engine {
    const p: Program
    const ops: Ops
    const stack: array<Value>
    const frames: array<CFrame>
    const handlers: array<Handler>
    const locals: array<Value>
    var sp: nat
    var fp: nat
    var hp: nat
    var pc: nat
    var globals: seq<Value>
    var closures: nat
    var world: World

    ghost predicate Valid()
      reads this, frames
    {
      && stack.Length == STACK_MAX && frames.Length == FRAME_MAX
      && handlers.Length == HANDLER_MAX && locals.Length == LOCALS_MAX
      && stack != locals
      && sp <= STACK_MAX && fp < FRAME_MAX && hp < HANDLER_MAX
      && Laid(frames[..fp])
    }

    ghost function Abs(): State
      reads this, stack, frames, handlers, locals
      requires Valid()
    {
      State(pc, stack[..sp], ToFrames(frames[..fp], locals[..]), handlers[..hp], globals, closures, world)
    }

    ghost predicate Meets(signal: Signal, o: Outcome)
      reads this, stack, frames, handlers, locals
    {
      Valid() && if o.Next? then signal == Continue && Abs() == o.state else signal == Stop(o)
    }

    constructor (p: Program, ops: Ops, world: World)
      requires p.entryFn < |p.funcs| && p.funcs[p.entryFn].nlocals < LOCALS_MAX
      ensures Valid() && this.p == p && this.ops == ops
      ensures fresh(stack) && fresh(frames) && fresh(handlers) && fresh(locals)
      ensures Abs() == Initial(p, C_BLANK, world)
    {
      var main := p.funcs[p.entryFn];
      this.p, this.ops, this.world := p, ops, world;
      stack := new Value[STACK_MAX](_ => C_BLANK);
      locals := new Value[LOCALS_MAX](_ => C_BLANK);
      frames := new CFrame[FRAME_MAX](_ => CFrame(-1, 0, main.nlocals, p.entryFn));
      handlers := new Handler[HANDLER_MAX](_ => Handler(0, 0, 0, 0));
      sp, fp, hp, pc, globals, closures := 0, 1, 0, main.entry, [], 0;
      new;
      assert frames[..1] == [frames[0]];
      assert locals[..][0..main.nlocals] == Fill(C_BLANK, main.nlocals);
    }

    method Push(v: Value, next: nat)
      requires Valid() && sp < STACK_MAX
      modifies this`sp, this`pc, stack
      ensures Valid() && Abs() == Machine.Push(old(Abs()), v, next)
    {
      hide Laid;
      stack[sp] := v;
      sp := sp + 1;
      pc := next;
    }

    /** The running frame and the part of the locals array it sees. */
    lemma TopFrame()
      requires Valid() && fp > 0
      ensures var f := frames[fp - 1];
              End(f) <= LOCALS_MAX && Last(Abs().frames) == Frame(f.retpc, locals[f.localsBase..End(f)], f.fn)
    {
      SplitTop(frames[..fp], locals[..]);
      assert locals[..][frames[fp - 1].localsBase..End(frames[fp - 1])] ==
          locals[frames[fp - 1].localsBase..End(frames[fp - 1])];
    }

    method StoreLocalAt(slot: nat, v: Value)
      requires Valid() && fp > 0 && slot < frames[fp - 1].nlocals
      requires slot < |Last(Abs().frames).locals|
      modifies locals
      ensures Valid() && Abs() == old(Abs()).(frames := StoreLocal(old(Abs()).frames, slot, v))
    {
      hide Laid, ToFrames, Top, StoreLocal;
      ghost var fs, before := frames[..fp], locals[..];
      var f := frames[fp - 1];
      assert Last(fs) == f;
      SplitTop(fs, before);
      WriteTop(fs, before, slot, v);
      locals[f.localsBase + slot] := v;
      assert locals[..] == before[f.localsBase + slot := v];
    }

    /** The unwinding loops of raise_exception, after the handler has been popped. */
    method Unwind(h: Handler)
      requires Valid() && h.fp <= fp
      modifies this`sp, this`fp
      ensures Valid()
      ensures Abs() == old(Abs()).(stack := if h.sp <= old(sp) then old(stack[..sp])[..h.sp] else old(stack[..sp]),
                                   frames := old(Abs()).frames[..h.fp])
    {
      hide Laid;
      while sp > h.sp
        invariant sp <= old(sp) && (sp == old(sp) || h.sp <= sp)
        modifies this`sp
      {
        sp := sp - 1;
      }
      while fp > h.fp
        invariant h.fp <= fp <= old(fp)
        modifies this`fp
      {
        fp := fp - 1;
      }
      PopFrames(old(frames[..fp]), locals[..], fp);
      assert frames[..fp] == old(frames[..fp])[..fp];
      assert stack[..sp] == if h.sp <= old(sp) then old(stack[..sp])[..h.sp] else old(stack[..sp]);
    }

    /** Pop the handler on top and unwind to it; false when there is none. */
    method RaiseException(v: Value) returns (raised: bool)
      requires Valid() && (hp > 0 ==> !Machine.Raise(Abs(), v).Stuck?)
      modifies this, locals
      ensures Valid()
      ensures raised <==> old(hp) > 0
      ensures raised ==> Abs() == old(Machine.Raise(Abs(), v)).state
      ensures !raised ==> Abs() == old(Abs())
    {
      hide Laid;
      if hp == 0 {
        return false;
      }
      hp := hp - 1;
      var h := handlers[hp];
      assert handlers[..hp] == DropLast(old(handlers[..hp])) && h == Last(old(handlers[..hp]));
      Unwind(h);
      CatchAt(h, v);
      raised := true;
    }

    /** Bind the raised value and resume at the catch block. */
    method CatchAt(h: Handler, v: Value)
      requires Valid() && fp > 0
      requires h.slot == NO_SLOT || h.slot < |Last(Abs().frames).locals|
      modifies this`pc, locals
      ensures Valid()
      ensures Abs() == old(Abs()).(frames := Caught(old(Abs()).frames, h.slot, v), pc := h.catchPC)
    {
      hide Laid, ToFrames;
      if h.slot != NO_SLOT {
        TopFrame();
        StoreLocalAt(h.slot, v);
      }
      pc := h.catchPC;
    }
  
    method Literal(i: Instr, next: nat) returns (signal: Signal)
      requires Valid() && sp < STACK_MAX
      requires i.Const? || i.PushTrue? || i.PushFalse? || i.PushNull? || i.PushFn? || i.GetGlobal?
      requires !Exec(p, ops, C_BLANK, i, next, Abs()).Stuck?
      modifies this, stack
      ensures Meets(signal, old(Exec(p, ops, C_BLANK, i, next, Abs())))
    {
      hide Laid;
      signal := Continue;
      match i
      case Const(idx) => Push(p.consts[idx], next);
      case PushTrue => Push(Bool(true), next);
      case PushFalse => Push(Bool(false), next);
      case PushNull => Push(Null, next);
      case PushFn(fn) => Push(Func(fn, [], 0), next);
      case GetGlobal(slot) => Push(if slot < |globals| then globals[slot] else Null, next);
    }

    method LoadLocal(i: Instr, next: nat) returns (signal: Signal)
      requires Valid() && sp < STACK_MAX && i.Load?
      requires !Exec(p, ops, C_BLANK, i, next, Abs()).Stuck?
      modifies this, stack
      ensures Meets(signal, old(Exec(p, ops, C_BLANK, i, next, Abs())))
    {
      hide Laid, ToFrames;
      TopFrame();
      var f := frames[fp - 1];
      Push(locals[f.localsBase + i.slot], next);
      signal := Continue;
    }

    method StoreLocalOp(i: Instr, next: nat) returns (signal: Signal)
      requires Valid() && i.Store?
      requires !Exec(p, ops, C_BLANK, i, next, Abs()).Stuck?
      modifies this, locals
      ensures Meets(signal, old(Exec(p, ops, C_BLANK, i, next, Abs())))
    {
      hide Laid, ToFrames, StoreLocal;
      TopFrame();
      assert i.slot < frames[fp - 1].nlocals;
      sp := sp - 1;
      StoreLocalAt(i.slot, stack[sp]);
      pc := next;
      signal := Continue;
    }

    method PopOrCoalesce(i: Instr, next: nat) returns (signal: Signal)
      requires Valid() && (i.Pop? || i.Coalesce?)
      requires !Exec(p, ops, C_BLANK, i, next, Abs()).Stuck?
      modifies this, stack
      ensures Meets(signal, old(Exec(p, ops, C_BLANK, i, next, Abs())))
    {
      hide Laid;
      if i.Pop? {
        sp := sp - 1;
      } else {
        sp := sp - 1;
        var b := stack[sp];
        sp := sp - 1;
        var a := stack[sp];
        stack[sp] := if a.Null? then b else a;
        sp := sp + 1;
      }
      pc := next;
      signal := Continue;
    }

    /** Reallocated to the slot's size, the new entries null. */
    method StoreGlobal(i: Instr, next: nat) returns (signal: Signal)
      requires Valid() && i.SetGlobal?
      requires !Exec(p, ops, C_BLANK, i, next, Abs()).Stuck?
      modifies this
      ensures Meets(signal, old(Exec(p, ops, C_BLANK, i, next, Abs())))
    {
      hide Laid;
      if i.slot >= |globals| {
        globals := globals + Fill(Null, i.slot + 1 - |globals|);
      }
      sp := sp - 1;
      globals := globals[i.slot := stack[sp]];
      pc := next;
      signal := Continue;
    }

    method Primitive(i: Instr, next: nat) returns (signal: Signal)
      requires Valid() && sp < STACK_MAX && (i.Apply? || i.Effect?)
      requires !Exec(p, ops, C_BLANK, i, next, Abs()).Stuck?
      modifies this, stack
      ensures Meets(signal, old(Exec(p, ops, C_BLANK, i, next, Abs())))
    {
      hide Laid;
      var base := sp - i.argc;
      assert stack[base..sp] == Args(Abs(), i.argc);
      var r := ops.apply(i.prim, stack[base..sp], world);
      if r.Abort? {
        return Stop(Fatal(r.msg));
      }
      sp, world, pc := base, r.world, next;
      if i.Apply? {
        Push(r.value, next);
      }
      signal := Continue;
    }

    method JumpBy(i: Instr, next: nat) returns (signal: Signal)
      requires Valid() && (i.Jump? || i.JumpIfFalse? || i.JumpIfTrue?)
      requires !Exec(p, ops, C_BLANK, i, next, Abs()).Stuck?
      modifies this
      ensures Meets(signal, old(Exec(p, ops, C_BLANK, i, next, Abs())))
    {
      hide Laid;
      var taken := true;
      if !i.Jump? {
        sp := sp - 1;
        taken := ops.truthy(stack[sp], world) == i.JumpIfTrue?;
      }
      pc := if taken then next + i.rel else next;
      signal := Continue;
    }

    /** Carve the callee's locals out of the array and fill them: null, then the arguments. */
    method CarveLocals(base: nat, nlocals: nat, args: seq<Value>)
      requires Valid() && base == Top(frames[..fp]) && base + nlocals <= LOCALS_MAX && |args| <= nlocals
      modifies locals
      ensures Valid() && locals[..base] == old(locals[..base])
      ensures locals[base..base + nlocals] == Overlay(Fill(C_BLANK, nlocals), args)
    {
      hide Laid, Top;
      for i := 0 to nlocals
        invariant locals[..base] == old(locals[..base])
        invariant forall k :: base <= k < base + i ==> locals[k] == C_BLANK
      {
        locals[base + i] := C_BLANK;
      }
      for i := 0 to |args|
        invariant locals[..base] == old(locals[..base])
        invariant forall k :: base <= k < base + nlocals ==>
                    locals[k] == if k < base + i then args[k - base] else C_BLANK
      {
        locals[base + i] := args[i];
      }
    }

    /** Push a frame for `fn`; `args` have been read from the stack, which ends at `base` after the call. */
    method EnterFrame(fn: nat, args: seq<Value>, base: nat, next: nat) returns (signal: Signal)
      requires Valid() && base <= sp
      requires !Enter(p, C_BLANK, Drop(Abs(), sp - base), fn, args, next).Stuck?
      modifies this, frames, locals
      ensures Meets(signal, old(Enter(p, C_BLANK, Drop(Abs(), sp - base), fn, args, next)))
    {
      hide Laid, Top, LocalsUsed;
      var f := p.funcs[fn];
      ghost var fs, before := frames[..fp], locals[..];
      var nextBase := NextBase();
      TopIsUsed(fs, before);
      if nextBase + f.nlocals > LOCALS_MAX - 2 {
        return Stop(Fatal(LOCALS_OVERFLOW));
      }
      CarveLocals(nextBase, f.nlocals, args);
      assert stack[..sp][..base] == stack[..base];
      if fp > FRAME_MAX - 2 {
        SameLocals(fs, before, locals[..]);
        sp := base;
        return Stop(Fatal(CALL_OVERFLOW));
      }
      var frame := CFrame(next, nextBase, f.nlocals, fn);
      PushFrame(fs, frame, before, locals[..], Overlay(Fill(C_BLANK, f.nlocals), args));
      sp := base;
      frames[fp] := frame;
      fp := fp + 1;
      assert frames[..fp] == fs + [frame];
      pc := f.entry;
      signal := Continue;
    }

    method NextBase() returns (base: nat)
      requires Valid()
      ensures base == Top(frames[..fp])
    {
      base := if fp == 0 then 0 else frames[fp - 1].localsBase + frames[fp - 1].nlocals;
    }
  
    method CallFunction(i: Instr, next: nat) returns (signal: Signal)
      requires Valid() && i.Call?
      requires !Exec(p, ops, C_BLANK, i, next, Abs()).Stuck?
      modifies this, frames, locals
      ensures Meets(signal, old(Exec(p, ops, C_BLANK, i, next, Abs())))
    {
      hide Laid, LocalsUsed, Enter;
      var base := sp - i.argc;
      assert stack[base..sp] == Args(Abs(), i.argc);
      signal := EnterFrame(i.fn, stack[base..sp], base, next);
    }

    method CallFunctionValue(i: Instr, next: nat) returns (signal: Signal)
      requires Valid() && i.CallValue?
      requires !Exec(p, ops, C_BLANK, i, next, Abs()).Stuck?
      modifies this, frames, locals
      ensures Meets(signal, old(Exec(p, ops, C_BLANK, i, next, Abs())))
    {
      hide Laid, LocalsUsed, Enter;
      var base := sp - i.argc;
      var callee := stack[base - 1];
      if !callee.Func? {
        return Stop(Fatal(NOT_A_FUNCTION));
      }
      assert stack[base..sp] == Args(Abs(), i.argc);
      signal := EnterFrame(callee.fn, callee.captured + stack[base..sp], base - 1, next);
    }

    method MakeClosure(i: Instr, next: nat) returns (signal: Signal)
      requires Valid() && sp < STACK_MAX && i.Closure?
      requires !Exec(p, ops, C_BLANK, i, next, Abs()).Stuck?
      modifies this, stack
      ensures Meets(signal, old(Exec(p, ops, C_BLANK, i, next, Abs())))
    {
      hide Laid;
      var base := sp - i.ncap;
      var captured := stack[base..sp];
      assert captured == Args(Abs(), i.ncap);
      sp := base;
      closures := closures + 1;
      Push(Func(i.fn, captured, closures), next);
      signal := Continue;
    }

    method PopFrame() returns (fr: CFrame)
      requires Valid() && fp > 0
      modifies this`fp
      ensures Valid() && fp == old(fp) - 1
      ensures fr.retpc == Last(old(Abs()).frames).retpc
      ensures Abs() == old(Abs()).(frames := DropLast(old(Abs()).frames))
    {
      hide Laid, ToFrames, Top, End;
      ghost var fs, slots := frames[..fp], locals[..];
      SplitTop(fs, slots);
      fp := fp - 1;
      fr := frames[fp];
      assert frames[..fp] == DropLast(fs) && fr == Last(fs);
      assert Abs().frames == DropLast(ToFrames(fs, slots));
    }

    method Return(next: nat) returns (signal: Signal)
      requires Valid() && !Exec(p, ops, C_BLANK, Ret, next, Abs()).Stuck?
      modifies this, stack
      ensures Meets(signal, old(Exec(p, ops, C_BLANK, Ret, next, Abs())))
    {
      hide Laid, ToFrames;
      ghost var before := stack[..sp];
      var fr := PopFrame();
      sp := sp - 1;
      var ret := stack[sp];
      if fr.retpc < 0 {
        return Stop(Returned(ret, world));
      }
      pc := fr.retpc;
      stack[sp] := ret;
      sp := sp + 1;
      assert stack[..sp] == before;
      signal := Continue;
    }

    method Handle(i: Instr, next: nat) returns (signal: Signal)
      requires Valid() && (i.TryPush? || i.TryPop?)
      requires !Exec(p, ops, C_BLANK, i, next, Abs()).Stuck?
      modifies this, handlers
      ensures Meets(signal, old(Exec(p, ops, C_BLANK, i, next, Abs())))
    {
      hide Laid;
      ghost var before := handlers[..hp];
      if i.TryPush? {
        if hp > HANDLER_MAX - 2 {
          return Stop(Fatal(HANDLER_OVERFLOW));
        }
        handlers[hp] := Handler(next + i.rel, sp, fp, i.slot);
        hp := hp + 1;
        assert handlers[..hp] == before + [handlers[hp - 1]];
      } else if hp > 0 {
        hp := hp - 1;
        assert handlers[..hp] == DropLast(before);
      }
      pc := next;
      signal := Continue;
    }

    /** Pop the operands, then raise `v` or abort with `uncaught`. */
    method RaiseOrAbort(pops: nat, v: Value, uncaught: string) returns (signal: Signal)
      requires Valid() && pops <= sp && !RaiseOr(Drop(Abs(), pops), v, uncaught).Stuck?
      modifies this, locals
      ensures Meets(signal, old(RaiseOr(Drop(Abs(), pops), v, uncaught)))
    {
      hide Laid;
      assert stack[..sp][..sp - pops] == stack[..sp - pops];
      sp := sp - pops;
      var raised := RaiseException(v);
      signal := if raised then Continue else Stop(Fatal(uncaught));
    }

    method MayRaise(i: Instr, next: nat) returns (signal: Signal)
      requires Valid() && (i.Assert? || i.Throw? || i.Unwrap?)
      requires !Exec(p, ops, C_BLANK, i, next, Abs()).Stuck?
      modifies this, locals
      ensures Meets(signal, old(Exec(p, ops, C_BLANK, i, next, Abs())))
    {
      hide Laid, RaiseOr;
      if i.Throw? {
        signal := RaiseOrAbort(1, stack[sp - 1], UNCAUGHT + ops.text(stack[sp - 1], world));
      } else if i.Assert? && !ops.truthy(stack[sp - 1], world) {
        var msg := ASSERT_PREFIX + ops.text(stack[sp - 2], world);
        signal := RaiseOrAbort(2, Str(msg), msg);
      } else if i.Unwrap? && stack[sp - 1].Null? {
        signal := RaiseOrAbort(1, Str(UNWRAP_NULL), UNWRAP_NULL);
      } else {
        sp := if i.Assert? then sp - 2 else sp;
        pc := next;
        signal := Continue;
      }
    }

    /** One iteration of the dispatch loop. */
    method Step() returns (signal: Signal)
      requires Valid() && !Machine.Step(p, ops, C_BLANK, Abs()).Stuck?
      modifies this, stack, frames, handlers, locals
      ensures Meets(signal, old(Machine.Step(p, ops, C_BLANK, Abs())))
    {
      hide Laid, Decode;
      if sp > STACK_MAX - 4 {
        return Stop(Fatal(STACK_OVERFLOW));
      }
      var f := Decode(p.code, pc).value;
      signal := Dispatch(f.instr, f.next);
    }

    method Dispatch(i: Instr, next: nat) returns (signal: Signal)
      requires Valid() && sp < STACK_MAX
      requires !Exec(p, ops, C_BLANK, i, next, Abs()).Stuck?
      modifies this, stack, frames, handlers, locals
      ensures Meets(signal, old(Exec(p, ops, C_BLANK, i, next, Abs())))
    {
      hide Laid;
      signal := Continue;
      match i
      case Halt => signal := Stop(Halted(world));
      case Pop => signal := PopOrCoalesce(i, next);
      case Coalesce => signal := PopOrCoalesce(i, next);
      case Load(_) => signal := LoadLocal(i, next);
      case Store(_) => signal := StoreLocalOp(i, next);
      case SetGlobal(_) => signal := StoreGlobal(i, next);
      case Apply(_, _) => signal := Primitive(i, next);
      case Effect(_, _) => signal := Primitive(i, next);
      case Jump(_) => signal := JumpBy(i, next);
      case JumpIfFalse(_) => signal := JumpBy(i, next);
      case JumpIfTrue(_) => signal := JumpBy(i, next);
      case Call(_, _) => signal := CallFunction(i, next);
      case CallValue(_) => signal := CallFunctionValue(i, next);
      case Closure(_, _) => signal := MakeClosure(i, next);
      case Ret => signal := Return(next);
      case TryPush(_, _) => signal := Handle(i, next);
      case TryPop => signal := Handle(i, next);
      case Assert => signal := MayRaise(i, next);
      case Throw => signal := MayRaise(i, next);
      case Unwrap => signal := MayRaise(i, next);
      case Const(_) => signal := Literal(i, next);
      case PushTrue => signal := Literal(i, next);
      case PushFalse => signal := Literal(i, next);
      case PushNull => signal := Literal(i, next);
      case PushFn(_) => signal := Literal(i, next);
      case GetGlobal(_) => signal := Literal(i, next);
      case Spawn => assert false;
      case Await => assert false;
    }
  }
}
