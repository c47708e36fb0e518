/**
 The dispatch loop of the C engine over its four fixed arrays, for arbitrary bytes: the
 fetch with its two-tier bounds check, and for each opcode the reads and writes of the
 operand and locals arrays in the order of the code. Values are moved but not looked at.
 The loop is proved to touch exactly the indices Control.dfy says, and to keep every bound
 as long as those are in range; the frame and handler arrays and the code are never left.
 */
module ControlLoop {
  import opened Common
  import opened Isa
  import opened Machine
  import opened Control

  /** The opcodes the loop lets through at the very end of the code. */
  predicate OperandLess(op: Byte) {
    op in {0x00, 0x41, 0x05, 0x02, 0x03, 0x04, 0x50, 0x52, 0x51, 0x26, 0x15, 0x1B, 0x64, 0x62, 0x63, 0x65, 0x66, 0x67,
           0x72, 0x73, 0x74, 0x75} || 0x10 <= op <= 0x14 || 0x16 <= op <= 0x1A || 0x20 <= op <= 0x25
  }

  lemma OperandLessWidth(op: Byte)
    ensures OperandLess(op) ==> Width(op) == 0
    ensures Width(op) <= 6
  {
  }

  class Loop {
    const p: Program
    const frames: array<CallFrame>
    const handlers: array<CatchFrame>
    const stack: array<Value>
    const locals: array<Value>
    var pc: int
    var sp: int
    var fp: nat
    var hp: nat
    // the indices used so far
    ghost var stackSeen: set<int>
    ghost var localsSeen: set<int>

    ghost predicate Arrays()
      reads this
    {
      && frames.Length == FRAME_MAX && handlers.Length == HANDLER_MAX
      && stack.Length == STACK_MAX && locals.Length == LOCALS_MAX && stack != locals
      && fp <= FRAME_MAX && hp <= HANDLER_MAX
    }

    ghost predicate Valid()
      reads this, frames, handlers
    {
      Arrays() && Loaded(p) && Bounded(|p.code|, Abs())
    }

    ghost function Abs(): Ctl
      requires fp <= frames.Length && hp <= handlers.Length
      reads this, frames, handlers
    {
      Ctl(pc, sp, frames[..fp], handlers[..hp])
    }

    constructor (p: Program)
      requires Loaded(p)
      ensures this.p == p && Valid() && Abs() == Start(p) && stackSeen == {} && localsSeen == {}
      ensures fresh(frames) && fresh(handlers) && fresh(stack) && fresh(locals)
    {
      var main := p.funcs[p.entryFn];
      this.p := p;
      frames := new CallFrame[FRAME_MAX](_ => CallFrame(-1, 0, main.nlocals));
      handlers := new CatchFrame[HANDLER_MAX](_ => CatchFrame(0, 0, 1, NO_SLOT));
      stack := new Value[STACK_MAX](_ => Null);
      locals := new Value[LOCALS_MAX](_ => Null);
      pc, sp, fp, hp := main.entry, 0, 1, 0;
      stackSeen, localsSeen := {}, {};
      new;
      assert frames[..1] == [CallFrame(-1, 0, main.nlocals)];
    }

    // ---- The four kinds of access ----

    method Peek(x: int) returns (v: Value)
      requires 0 <= x < stack.Length
      modifies `stackSeen
      ensures stackSeen == old(stackSeen) + {x}
    {
      v := stack[x];
      stackSeen := stackSeen + {x};
    }

    method Poke(x: int, v: Value)
      requires 0 <= x < stack.Length
      modifies `stackSeen, stack
      ensures stackSeen == old(stackSeen) + {x}
    {
      stack[x] := v;
      stackSeen := stackSeen + {x};
    }

    method LocalAt(x: int) returns (v: Value)
      requires 0 <= x < locals.Length
      modifies `localsSeen
      ensures localsSeen == old(localsSeen) + {x}
    {
      v := locals[x];
      localsSeen := localsSeen + {x};
    }

    method SetLocal(x: int, v: Value)
      requires 0 <= x < locals.Length
      modifies `localsSeen, locals
      ensures localsSeen == old(localsSeen) + {x}
    {
      locals[x] := v;
      localsSeen := localsSeen + {x};
    }

    /** Read, or release, the operands from `lo` up to `hi`. */
    method PeekAll(lo: int, hi: int)
      requires lo >= hi || (0 <= lo && hi <= stack.Length)
      modifies `stackSeen
      ensures stackSeen == old(stackSeen) + Range(lo, hi)
    {
      if lo >= hi {
        return;
      }
      var x := lo;
      while x < hi
        invariant lo <= x <= hi && stackSeen == old(stackSeen) + Range(lo, x)
      {
        var v := Peek(x);
        x := x + 1;
      }
    }

    /** Release the locals from `lo` up to `hi`. */
    method ReleaseLocals(lo: nat, hi: nat)
      requires lo <= hi <= locals.Length
      modifies `localsSeen
      ensures localsSeen == old(localsSeen) + Range(lo, hi)
    {
      var x := lo;
      while x < hi
        invariant lo <= x <= hi && localsSeen == old(localsSeen) + Range(lo, x)
      {
        var v := LocalAt(x);
        x := x + 1;
      }
    }

    // ---- Fetch ----

    method Read8() returns (v: nat)
      requires 0 <= pc < |p.code|
      modifies `pc
      ensures v == p.code[old(pc)] && pc == old(pc) + 1
    {
      v := p.code[pc];
      pc := pc + 1;
    }

    method Read16() returns (v: nat)
      requires 0 <= pc && pc + 2 <= |p.code|
      modifies `pc
      ensures v == U16(p.code, old(pc)) && pc == old(pc) + 2
    {
      v := (p.code[pc] as int) + 0x100 * (p.code[pc + 1] as int);
      pc := pc + 2;
    }

    method ReadI32() returns (v: int)
      requires 0 <= pc && pc + 4 <= |p.code|
      modifies `pc
      ensures v == I32(p.code, old(pc)) && pc == old(pc) + 4
    {
      var low := Read16();
      var high := Read16();
      var u: int := low + 0x1_0000 * high;
      v := if u < 0x8000_0000 then u else u - 0x1_0000_0000;
    }

    /**
     Fetch one instruction: exactly the shared decoder's, and every byte it reads is
     inside the code. The reads of each opcode advance pc by the width of the table.
     */
    method Fetch() returns (i: Option<Instr>)
      requires 0 <= pc <= |p.code|
      modifies `pc
      ensures 0 <= pc <= |p.code|
      ensures i.Some? <==> Decode(p.code, old(pc)).Some?
      ensures i.Some? ==> Decode(p.code, old(pc)) == Some(Fetched(i.value, pc))
    {
      hide U16, I32;
      if pc >= |p.code| {
        return None;
      }
      ghost var start := pc;
      var op := p.code[pc];
      pc := pc + 1;
      OperandLessWidth(op);
      if pc + 6 > |p.code| && !OperandLess(op) && pc + Width(op) > |p.code| {
        return None;
      }
      if op == 0x01 {
        var idx := Read16();
        i := Some(Const(idx));
      } else if op == 0x06 {
        var slot := Read16();
        i := Some(Load(slot));
      } else if op == 0x07 {
        var slot := Read16();
        i := Some(Store(slot));
      } else if op == 0x30 {
        var rel := ReadI32();
        i := Some(Jump(rel));
      } else if op == 0x31 {
        var rel := ReadI32();
        i := Some(JumpIfFalse(rel));
      } else if op == 0x32 {
        var rel := ReadI32();
        i := Some(JumpIfTrue(rel));
      } else if op == 0x40 {
        var fn := Read16();
        var argc := Read8();
        i := Some(Call(fn, argc));
      } else if op == 0x42 {
        var fn := Read16();
        i := Some(PushFn(fn));
      } else if op == 0x43 {
        var argc := Read8();
        i := Some(CallValue(argc));
      } else if op == 0x44 {
        var fn := Read16();
        var ncap := Read8();
        i := Some(Closure(fn, ncap));
      } else if op == 0x60 {
        var n := Read16();
        i := Some(Apply(NewArray, n));
      } else if op == 0x61 {
        var n := Read16();
        i := Some(Apply(NewMap, 2 * n));
      } else if op == 0x70 {
        var nid := Read8();
        var argc := Read8();
        i := Some(Apply(Native(nid), argc));
      } else if op == 0x71 {
        var rel := ReadI32();
        var slot := Read16();
        i := Some(TryPush(rel, slot));
      } else if op == 0x76 {
        var slot := Read16();
        i := Some(GetGlobal(slot));
      } else if op == 0x77 {
        var slot := Read16();
        i := Some(SetGlobal(slot));
      } else {
        i := Operands(p.code, op, pc);      // reads nothing
      }
    }

    // ---- The opcodes ----

    /** What executing the fetched instruction `i` has done; pc was already past it. */
    twostate predicate Did(i: Instr, k: Choice, ok: bool)
      requires old(Valid())
      reads this, frames, handlers
    {
      && Valid()
      && ok == Flow(p, i, old(pc), old(Abs()), k).Some?
      && (ok ==> Abs() == Flow(p, i, old(pc), old(Abs()), k).value)
      && stackSeen == old(stackSeen) + StackTouched(p, i, old(Abs()), k)
      && localsSeen == old(localsSeen) + LocalsTouched(p, i, old(Abs()), k)
    }

    /** The instruction may be executed: its operands and slots are there. */
    ghost predicate Fit(i: Instr, k: Choice)
      requires Valid()
      reads this, frames, handlers
    {
      sp <= STACK_MAX - 4 && k.looks <= LOOKS_MAX && InArrays(p, i, Abs(), k)
    }

    /** What every opcode needs of the bounds, and that they will hold again. */
    lemma Ready(i: Instr, k: Choice)
      requires Valid() && Fit(i, k)
      ensures 0 <= sp <= STACK_MAX - 4 && 1 <= fp <= FRAME_MAX - 1 && 0 <= pc <= |p.code| && NameFrames(Abs().handlers)
      ensures forall n :: 0 <= n < fp ==> frames[n].base + frames[n].size <= LOCALS_MAX
      ensures var r := Flow(p, i, pc, Abs(), k); r.Some? ==> Bounded(|p.code|, r.value)
    {
      hide Flow, InArrays;
      FlowBounded(p, i, pc, Abs(), k);
      assert Abs().frames == frames[..fp];
    }

    /** CONST, TRUE, FALSE, NULL, PUSHFN and GETGLOBAL. */
    method PushOp(i: Instr, k: Choice) returns (ok: bool)
      requires i.Const? || i.PushTrue? || i.PushFalse? || i.PushNull? || i.PushFn? || i.GetGlobal?
      requires Valid() && Fit(i, k)
      modifies `sp, `stackSeen, stack
      ensures Did(i, k, ok)
    {
      hide Bounded, Loaded, Fit;
      Ready(i, k);
      var v: Value := *;
      if i.Const? {
        if i.idx >= |p.consts| {
          return false;
        }
        v := p.consts[i.idx];
      }
      Poke(sp, v);
      sp := sp + 1;
      ok := true;
    }

    method LoadOp(slot: nat, k: Choice) returns (ok: bool)
      requires Valid() && Fit(Load(slot), k)
      modifies `sp, `stackSeen, `localsSeen, stack
      ensures Did(Load(slot), k, ok)
    {
      hide Bounded, Loaded;
      Ready(Load(slot), k);
      var v := LocalAt(frames[fp - 1].base + slot);
      Poke(sp, v);
      sp := sp + 1;
      ok := true;
    }

    method StoreOp(slot: nat, k: Choice) returns (ok: bool)
      requires Valid() && Fit(Store(slot), k)
      modifies `sp, `stackSeen, `localsSeen, locals
      ensures Did(Store(slot), k, ok)
    {
      hide Bounded, Loaded;
      Ready(Store(slot), k);
      var at := frames[fp - 1].base + slot;
      var dropped := LocalAt(at);
      var v := Peek(sp - 1);
      SetLocal(at, v);
      sp := sp - 1;
      ok := true;
    }

    /** POP and SETGLOBAL. */
    method PopOp(i: Instr, k: Choice) returns (ok: bool)
      requires i.Pop? || i.SetGlobal?
      requires Valid() && Fit(i, k)
      modifies `sp, `stackSeen
      ensures Did(i, k, ok)
    {
      hide Bounded, Loaded;
      Ready(i, k);
      var v := Peek(sp - 1);
      sp := sp - 1;
      ok := true;
    }

    /** An operation that takes `argc` operands and writes its result over them. */
    method ApplyOp(prim: Prim, argc: nat, k: Choice) returns (ok: bool)
      requires Valid() && Fit(Apply(prim, argc), k)
      modifies `sp, `stackSeen, stack
      ensures Did(Apply(prim, argc), k, ok)
    {
      hide Bounded, Loaded, Flow, StackTouched, LocalsTouched, InArrays, Range;
      Ready(Apply(prim, argc), k);
      ApplyFacts(p, prim, argc, pc, Abs(), k);
      if Literal(prim) && argc > sp {
        return false;
      }
      if prim.Native? {
        PeekAll(sp - argc, sp - argc + k.looks);
        if k.stops {
          return false;
        }
      }
      PeekAll(sp - argc, sp);
      if k.stops {
        return false;
      }
      var v: Value := *;
      Poke(sp - argc, v);
      sp := sp - argc + 1;
      ok := true;
    }

    lemma SpBounded()
      requires Valid()
      ensures 0 <= sp <= STACK_MAX && 1 <= fp <= FRAME_MAX - 1 && 0 <= pc <= |p.code|
      ensures forall n :: 0 <= n < fp ==> frames[n].base + frames[n].size <= LOCALS_MAX
      ensures forall n :: 0 <= n < hp ==> handlers[n].sp >= 0 && handlers[n].fp >= 1
    {
      assert Abs().frames == frames[..fp] && Abs().handlers == handlers[..hp];
    }

    lemma DepthMoved(c0: Ctl, c: Ctl)
      requires Bounded(|p.code|, c0) && c == c0.(sp := c.sp) && 0 <= c.sp <= STACK_MAX
      ensures Bounded(|p.code|, c)
    {
    }

    /** PRINT, PRINTLN and SETIDX. */
    method EffectOp(prim: Prim, argc: nat, k: Choice) returns (ok: bool)
      requires Valid() && Fit(Effect(prim, argc), k)
      modifies `sp, `stackSeen
      ensures Did(Effect(prim, argc), k, ok)
    {
      hide Bounded, Loaded;
      Ready(Effect(prim, argc), k);
      PeekAll(sp - argc, sp);
      if k.stops {
        return false;
      }
      sp := sp - argc;
      ok := true;
    }

    /** CLOSURE and COALESCE. */
    method TakeOp(i: Instr, k: Choice) returns (ok: bool)
      requires i.Closure? || i.Coalesce?
      requires Valid() && Fit(i, k)
      modifies `sp, `stackSeen, stack
      ensures Did(i, k, ok)
    {
      hide Bounded, Loaded, Range;
      Ready(i, k);
      var n := if i.Closure? then i.ncap else 2;
      PeekAll(sp - n, sp);
      var v: Value := *;
      Poke(sp - n, v);
      sp := sp - n + 1;
      ok := true;
    }

    method StraightOp(i: Instr, k: Choice) returns (ok: bool)
      requires Straight(i) && Valid() && Fit(i, k)
      modifies `sp, `stackSeen, `localsSeen, stack, locals
      ensures Did(i, k, ok)
    {
      hide Did, Fit, Valid, Bounded;
      if i.Load? {
        ok := LoadOp(i.slot, k);
      } else if i.Store? {
        ok := StoreOp(i.slot, k);
      } else if i.Apply? {
        ok := ApplyOp(i.prim, i.argc, k);
      } else if i.Effect? {
        ok := EffectOp(i.prim, i.argc, k);
      } else if i.Pop? || i.SetGlobal? {
        ok := PopOp(i, k);
      } else if i.Closure? || i.Coalesce? {
        ok := TakeOp(i, k);
      } else {
        ok := PushOp(i, k);
      }
    }

    /** A jump is validated before it is taken. */
    method JumpIf(taken: bool, rel: int) returns (ok: bool)
      requires Valid()
      modifies `pc
      ensures Valid() && stackSeen == old(stackSeen) && localsSeen == old(localsSeen)
      ensures var r := if taken then JumpTo(p, old(Abs()), old(pc) + rel) else Some(old(Abs()));
              ok == r.Some? && (ok ==> Abs() == r.value)
    {
      ok := true;
      if taken {
        var dest := pc + rel;
        ok := 0 <= dest <= |p.code|;
        if ok {
          pc := dest;
        }
      }
    }

    method JumpOp(rel: int, k: Choice) returns (ok: bool)
      requires Valid() && Fit(Jump(rel), k)
      modifies `pc
      ensures Did(Jump(rel), k, ok)
    {
      hide Bounded, Loaded;
      ok := JumpIf(true, rel);
    }

    /** JMPF and JMPT. */
    method CondJumpOp(i: Instr, k: Choice) returns (ok: bool)
      requires i.JumpIfFalse? || i.JumpIfTrue?
      requires Valid() && Fit(i, k)
      modifies `pc, `sp, `stackSeen
      ensures Did(i, k, ok)
    {
      hide Bounded, Loaded, JumpTo;
      Ready(i, k);
      var v := Peek(sp - 1);
      sp := sp - 1;
      DepthMoved(old(Abs()), Abs());
      ok := JumpIf(k.taken, i.rel);
    }

    /** The locals of a callee: null, then `ncap` captured values, then the top `argc` operands. */
    method Carve(nb: nat, n: nat, ncap: nat, argc: nat)
      requires stack != locals && nb + n <= locals.Length && nb + ncap + argc <= locals.Length
               && argc <= sp <= stack.Length
      modifies `stackSeen, `localsSeen, locals
      ensures stackSeen == old(stackSeen) + Range(sp - argc, sp)
      ensures localsSeen == old(localsSeen) + (Range(nb, nb + n) + Range(nb, nb + ncap + argc))
    {
      FillLocals(nb, nb + n, true);
      FillLocals(nb, nb + ncap, false);
      CopyArgs(nb + ncap, argc);
    }

    /** Null, or the values a closure has captured. */
    method FillLocals(lo: nat, hi: nat, blank: bool)
      requires lo <= hi <= locals.Length
      modifies `localsSeen, locals
      ensures localsSeen == old(localsSeen) + Range(lo, hi)
    {
      var x := lo;
      while x < hi
        invariant lo <= x <= hi && localsSeen == old(localsSeen) + Range(lo, x)
      {
        var v: Value := *;
        SetLocal(x, if blank then Null else v);
        x := x + 1;
      }
    }

    method CopyArgs(at: nat, argc: nat)
      requires stack != locals && at + argc <= locals.Length && argc <= sp <= stack.Length
      modifies `stackSeen, `localsSeen, locals
      ensures stackSeen == old(stackSeen) + Range(sp - argc, sp)
      ensures localsSeen == old(localsSeen) + Range(at, at + argc)
    {
      var i := 0;
      while i < argc
        invariant i <= argc && stackSeen == old(stackSeen) + Range(sp - argc, sp - argc + i)
        invariant localsSeen == old(localsSeen) + Range(at, at + i)
      {
        var v := Peek(sp - argc + i);
        SetLocal(at + i, v);
        i := i + 1;
      }
    }

    /** The end of a call: the frame stack is checked only now. */
    method PushFrame(fn: nat, nb: nat) returns (ok: bool)
      requires Valid() && nb == NextBase(Abs().frames) && LocalsFit(p, nb, fn)
      modifies `pc, `fp, frames
      ensures var r := EnterFn(p, old(Abs()), fn, old(pc));
              ok == r.Some? && Valid() && (ok ==> Abs() == r.value)
    {
      EnterBounded(p, Abs(), fn, pc);
      if fp > FRAME_MAX - 2 {
        return false;
      }
      frames[fp] := CallFrame(pc, nb, p.funcs[fn].nlocals);
      fp := fp + 1;
      pc := p.funcs[fn].entry;
      assert frames[..fp] == old(frames[..fp]) + [frames[fp - 1]];
      ok := true;
    }

    method CallOp(fn: nat, argc: nat, k: Choice) returns (ok: bool)
      requires Valid() && Fit(Call(fn, argc), k)
      modifies `pc, `sp, `fp, `stackSeen, `localsSeen, frames, locals
      ensures Did(Call(fn, argc), k, ok)
    {
      hide Bounded, Loaded, Range;
      Ready(Call(fn, argc), k);
      var nb := frames[fp - 1].base + frames[fp - 1].size;
      if fn >= |p.funcs| || nb + p.funcs[fn].nlocals > LOCALS_MAX - 2 {
        return false;
      }
      Carve(nb, p.funcs[fn].nlocals, 0, argc);
      sp := sp - argc;
      DepthMoved(old(Abs()), Abs());
      ok := PushFrame(fn, nb);
    }

    method CallValueOp(argc: nat, k: Choice) returns (ok: bool)
      requires Valid() && Fit(CallValue(argc), k)
      modifies `pc, `sp, `fp, `stackSeen, `localsSeen, frames, locals
      ensures Did(CallValue(argc), k, ok)
    {
      hide Bounded, Loaded, Range;
      Ready(CallValue(argc), k);
      var f := Peek(sp - argc - 1);
      if k.callee == None {
        return false;
      }
      var fn, nb := k.callee.value.fn, frames[fp - 1].base + frames[fp - 1].size;
      if fn >= |p.funcs| || nb + p.funcs[fn].nlocals > LOCALS_MAX - 2 {
        return false;
      }
      Carve(nb, p.funcs[fn].nlocals, k.callee.value.ncap, argc);
      sp := sp - argc - 1;
      DepthMoved(old(Abs()), Abs());
      ok := PushFrame(fn, nb);
    }

    /** RET, the frame's locals released while the result is in a variable. */
    method RetOp(k: Choice) returns (ok: bool)
      requires Valid() && Fit(Ret, k)
      modifies `pc, `fp, `stackSeen, `localsSeen, stack
      ensures Did(Ret, k, ok)
    {
      hide Bounded, Loaded, Range;
      Ready(Ret, k);
      var ret := Peek(sp - 1);
      var fr := frames[fp - 1];
      assert fr == Last(Abs().frames);
      ReleaseLocals(fr.base, fr.base + fr.size);
      if fr.retpc < 0 {
        return false;
      }
      fp := fp - 1;
      pc := fr.retpc;
      assert frames[..fp] == DropLast(old(frames[..fp]));
      Poke(sp - 1, ret);
      ok := true;
    }

    /** raise_exception: the unwinding loops, then the catch slot. */
    method Raise(v: Value) returns (ok: bool)
      requires Valid() && NameFrames(Abs().handlers) && SlotFits(Abs().frames, Abs().handlers)
      modifies `pc, `sp, `fp, `hp, `stackSeen, `localsSeen, locals
      ensures var r := Unwind(old(Abs()));
              ok == r.Some? && Valid() && (ok ==> Abs() == r.value)
      ensures stackSeen == old(stackSeen) + UnwindStack(old(Abs()).handlers, old(sp))
      ensures localsSeen == old(localsSeen) + UnwindLocals(old(Abs()).frames, old(Abs()).handlers)
    {
      hide Bounded, Loaded, Range, Windows;
      SpBounded();
      UnwindBounded(|p.code|, Abs());
      if hp == 0 {
        return false;
      }
      ghost var c0 := Abs();
      hp := hp - 1;
      var h := handlers[hp];
      assert h == Last(c0.handlers) && handlers[..hp] == DropLast(c0.handlers);
      assert h in c0.handlers;
      UnwindOperands(h.sp);
      UnwindFrames(h.fp);
      assert Unwound(c0.frames, c0.handlers) == frames[..fp] by {
        assert |c0.frames| == old(fp) && (fp == |c0.frames| ==> c0.frames[..fp] == c0.frames);
      }
      CatchIn(h.slot, v);
      pc := h.catchPC;
      ok := true;
    }

    /** The catch slot of the frame unwound to: its value is released, then overwritten. */
    method CatchIn(slot: nat, v: Value)
      requires 1 <= fp <= frames.Length && (slot != NO_SLOT ==> frames[fp - 1].base + slot < locals.Length)
      modifies `localsSeen, locals
      ensures localsSeen == old(localsSeen) + if slot == NO_SLOT then {} else {Last(frames[..fp]).base + slot}
    {
      if slot != NO_SLOT {
        var at := frames[fp - 1].base + slot;
        var dropped := LocalAt(at);
        SetLocal(at, v);
      }
    }

    method UnwindOperands(depth: int)
      requires 0 <= depth && 0 <= sp <= stack.Length
      modifies `sp, `stackSeen
      ensures sp == if depth < old(sp) then depth else old(sp)
      ensures stackSeen == old(stackSeen) + Range(depth, old(sp))
    {
      while sp > depth
        invariant 0 <= sp <= old(sp) && (depth < old(sp) ==> sp >= depth) && (depth >= old(sp) ==> sp == old(sp))
        invariant stackSeen == old(stackSeen) + Range(if depth < old(sp) then sp else old(sp), old(sp))
      {
        var v := Peek(sp - 1);
        sp := sp - 1;
      }
    }

    method UnwindFrames(depth: nat)
      requires fp <= frames.Length && 1 <= depth
      requires forall i :: 0 <= i < fp ==> frames[i].base + frames[i].size <= locals.Length
      modifies `fp, `localsSeen
      ensures fp == if depth < old(fp) then depth else old(fp)
      ensures localsSeen == old(localsSeen) + Windows(old(frames[..fp]), fp)
      ensures frames[..fp] == old(frames[..fp])[..fp]
    {
      ghost var fs := frames[..fp];
      NoWindows(fs);
      while fp > depth
        invariant fp <= old(fp) && (depth < old(fp) ==> fp >= depth) && (depth >= old(fp) ==> fp == old(fp))
        invariant localsSeen == old(localsSeen) + Windows(fs, fp)
      {
        fp := fp - 1;
        ReleaseLocals(frames[fp].base, frames[fp].base + frames[fp].size);
        assert frames[fp] == fs[fp];
        WindowsFrom(fs, fp);
      }
    }

    lemma NoWindows(fs: seq<CallFrame>)
      ensures Windows(fs, |fs|) == {}
    {
    }

    lemma {:induction false} WindowsFrom(fs: seq<CallFrame>, n: nat)
      requires n < |fs|
      ensures Windows(fs, n) == Windows(fs, n + 1) + Range(fs[n].base, fs[n].base + fs[n].size)
    {
      if n + 1 < |fs| {
        WindowsFrom(DropLast(fs), n);
      }
    }

    /** THROW, and ASSERT and UNWRAP, which raise if `k` says so. */
    method RaisingOp(i: Instr, k: Choice) returns (ok: bool)
      requires i.Assert? || i.Unwrap? || i.Throw?
      requires Valid() && Fit(i, k)
      modifies `pc, `sp, `fp, `hp, `stackSeen, `localsSeen, locals
      ensures Did(i, k, ok)
    {
      hide Bounded, Loaded, Unwind, UnwindStack, UnwindLocals, Flow, StackTouched, LocalsTouched, InArrays, Range,
          SlotFits;
      Ready(i, k);
      RaisingFacts(p, i, pc, Abs(), k);
      ok := true;
      PeekAll(sp - Looked(i), sp);
      if i.Assert? || Raises(i, k) {
        sp := sp - Looked(i);
      }
      DepthMoved(old(Abs()), Abs());
      if Raises(i, k) {
        var v: Value := *;
        ok := Raise(v);
      }
    }

    lemma HandlersNameFrames()
      requires Valid()
      ensures NameFrames(Abs().handlers)
    {
    }

    method TryPushOp(rel: int, slot: nat, k: Choice) returns (ok: bool)
      requires Valid() && Fit(TryPush(rel, slot), k)
      modifies `hp, handlers
      ensures Did(TryPush(rel, slot), k, ok)
    {
      hide Bounded, Loaded;
      Ready(TryPush(rel, slot), k);
      var dest := pc + rel;
      if !(0 <= dest <= |p.code|) || hp > HANDLER_MAX - 2 {
        return false;
      }
      handlers[hp] := CatchFrame(dest, sp, fp, slot);
      hp := hp + 1;
      assert handlers[..hp] == old(handlers[..hp]) + [CatchFrame(dest, sp, fp, slot)];
      ok := true;
    }

    method TryPopOp(k: Choice) returns (ok: bool)
      requires Valid() && Fit(TryPop, k)
      modifies `hp
      ensures Did(TryPop, k, ok)
    {
      hide Bounded, Loaded;
      Ready(TryPop, k);
      if hp > 0 {
        hp := hp - 1;
        assert handlers[..hp] == DropLast(old(handlers[..hp]));
      }
      ok := true;
    }

    /** The effect of a fetched instruction. */
    method Dispatch(i: Instr, k: Choice) returns (ok: bool)
      requires Valid() && Fit(i, k)
      modifies `pc, `sp, `fp, `hp, `stackSeen, `localsSeen, frames, handlers, stack, locals
      ensures Did(i, k, ok)
    {
      hide Did, Fit, Valid, Bounded;
      if Straight(i) {
        ok := StraightOp(i, k);
      } else if i.Jump? {
        ok := JumpOp(i.rel, k);
      } else if i.JumpIfFalse? || i.JumpIfTrue? {
        ok := CondJumpOp(i, k);
      } else if i.Call? {
        ok := CallOp(i.fn, i.argc, k);
      } else if i.CallValue? {
        ok := CallValueOp(i.argc, k);
      } else if i.Ret? {
        ok := RetOp(k);
      } else if i.Assert? || i.Unwrap? || i.Throw? {
        ok := RaisingOp(i, k);
      } else if i.TryPush? {
        ok := TryPushOp(i.rel, i.slot, k);
      } else if i.TryPop? {
        ok := TryPopOp(k);
      } else {
        ok := Refuse(i, k);
      }
    }

    /** HALT ends the run; SPAWN and AWAIT abort it. */
    method Refuse(i: Instr, k: Choice) returns (ok: bool)
      requires i.Halt? || i.Spawn? || i.Await?
      requires Valid()
      ensures Did(i, k, ok)
    {
      ok := false;
    }

    /**
     One round of the loop; `k` is what the instruction's values decide. It may be run
     when the instruction it will fetch is in range.
     */
    method Step(k: Choice) returns (ok: bool)
      requires Valid() && k.looks <= LOOKS_MAX && !CtlStep(p, Abs(), k).Outside?
      modifies `pc, `sp, `fp, `hp, `stackSeen, `localsSeen, frames, handlers, stack, locals
      ensures Valid() && ok == CtlStep(p, old(Abs()), k).At?
      ensures ok ==> Abs() == CtlStep(p, old(Abs()), k).ctl
      ensures stackSeen == old(stackSeen) + StepStack(p, old(Abs()), k)
      ensures localsSeen == old(localsSeen) + StepLocals(p, old(Abs()), k)
    {
      hide Decode, Flow, InArrays, Bounded, StackTouched, LocalsTouched;
      ghost var was := Abs();
      HandlersNameFrames();
      SpBounded();
      if sp > STACK_MAX - 4 {
        return false;
      }
      var i := Fetch();
      PcMoved(was, Abs());
      if i == None {
        return false;
      }
      PcIrrelevant(p, i.value, pc, was, pc, k);
      ok := Dispatch(i.value, k);
    }

    lemma PcMoved(c0: Ctl, c: Ctl)
      requires Bounded(|p.code|, c0) && c == c0.(pc := c.pc) && 0 <= c.pc <= |p.code|
      ensures Bounded(|p.code|, c)
    {
    }

    /**
     Any number of rounds of a run whose accesses are in range: every bound holds after
     each, and every index ever used lies in its array, whatever the code and the values.
     */
    method Run(ks: seq<Choice>) returns (ok: bool)
      requires Valid() && Abs() == Start(p) && stackSeen == {} && localsSeen == {}
      requires !CtlRun(p, ks).Outside? && forall k <- ks :: k.looks <= LOOKS_MAX
      modifies `pc, `sp, `fp, `hp, `stackSeen, `localsSeen, frames, handlers, stack, locals
      ensures Valid() && ok == CtlRun(p, ks).At?
      ensures ok ==> Abs() == CtlRun(p, ks).ctl
      ensures Inside(stackSeen, STACK_MAX) && Inside(localsSeen, LOCALS_MAX)
    {
      hide CtlStep, Inside, StepStack, StepLocals;
      var n := 0;
      assert ks[..0] == [];
      NoneInside(STACK_MAX);
      NoneInside(LOCALS_MAX);
      while n < |ks|
        invariant n <= |ks| && Valid()
        invariant CtlRun(p, ks[..n]) == At(Abs())
        invariant Inside(stackSeen, STACK_MAX) && Inside(localsSeen, LOCALS_MAX)
      {
        assert DropLast(ks[..n + 1]) == ks[..n] && Last(ks[..n + 1]) == ks[n];
        if !CtlRun(p, ks[..n + 1]).At? {
          OverStays(p, ks, n + 1);
        }
        ghost var was, stackWas, localsWas := Abs(), stackSeen, localsSeen;
        ok := Step(ks[n]);
        SeenInside(p, was, ks[n], stackWas, localsWas);
        if !ok {
          return;
        }
        n := n + 1;
      }
      assert ks[..n] == ks;
      ok := true;
    }
  }

  lemma ApplyFacts(p: Program, prim: Prim, argc: nat, next: nat, c: Ctl, k: Choice)
    requires c.frames != [] && NameFrames(c.handlers) && InArrays(p, Apply(prim, argc), c, k)
    ensures Literal(prim) || argc <= c.sp || (prim.Native? && k.stops && k.looks == 0)
    ensures Flow(p, Apply(prim, argc), next, c, k) ==
            if k.stops || (Literal(prim) && argc > c.sp) then None else Some(c.(pc := next, sp := c.sp - argc + 1))
    ensures StackTouched(p, Apply(prim, argc), c, k) ==
            if Literal(prim) && argc > c.sp then {}
            else if prim.Native? && k.stops then Range(c.sp - argc, c.sp - argc + k.looks)
            else
              (if prim.Native? then Range(c.sp - argc, c.sp - argc + k.looks) else {})
              + Range(c.sp - argc, c.sp) + if k.stops then {} else {c.sp - argc}
    ensures LocalsTouched(p, Apply(prim, argc), c, k) == {}
  {
  }

  /** Operands a raising instruction looks at, and how many are gone when it raises. */
  function Looked(i: Instr): nat {
    if i.Assert? then 2 else 1
  }

  predicate Raises(i: Instr, k: Choice) {
    i.Throw? || k.raised
  }

  lemma RaisingFacts(p: Program, i: Instr, next: nat, c: Ctl, k: Choice)
    requires i.Assert? || i.Unwrap? || i.Throw?
    requires c.frames != [] && NameFrames(c.handlers) && InArrays(p, i, c, k)
    ensures Looked(i) <= c.sp && (Raises(i, k) ==> SlotFits(c.frames, c.handlers))
    ensures Flow(p, i, next, c, k) ==
            if Raises(i, k) then Unwind(c.(sp := c.sp - Looked(i)))
            else Some(c.(pc := next, sp := if i.Assert? then c.sp - 2 else c.sp))
    ensures StackTouched(p, i, c, k) ==
            Range(c.sp - Looked(i), c.sp) + if Raises(i, k) then UnwindStack(c.handlers, c.sp - Looked(i)) else {}
    ensures LocalsTouched(p, i, c, k) == if Raises(i, k) then UnwindLocals(c.frames, c.handlers) else {}
  {
    assert Range(c.sp - 1, c.sp) == {c.sp - 1};
  }

  /** What a step that is not outside touches is inside, also if it ends the run. */
  lemma SeenInside(p: Program, c: Ctl, k: Choice, stackSeen: set<int>, localsSeen: set<int>)
    requires Loaded(p) && Bounded(|p.code|, c) && k.looks <= LOOKS_MAX && !CtlStep(p, c, k).Outside?
    requires Inside(stackSeen, STACK_MAX) && Inside(localsSeen, LOCALS_MAX)
    ensures Inside(stackSeen + StepStack(p, c, k), STACK_MAX) && Inside(localsSeen + StepLocals(p, c, k), LOCALS_MAX)
  {
    hide Decode, Inside, StackTouched, LocalsTouched, InArrays, Flow;
    NoneInside(STACK_MAX);
    NoneInside(LOCALS_MAX);
    InsideBoth(stackSeen, StepStack(p, c, k), STACK_MAX);
    InsideBoth(localsSeen, StepLocals(p, c, k), LOCALS_MAX);
    var f := Decode(p.code, c.pc);
    if f.Some? && c.sp <= STACK_MAX - 4 {
      InArraysIff(p, f.value.instr, c, k);
    }
  }

  lemma PcIrrelevant(p: Program, i: Instr, next: nat, c: Ctl, pc: int, k: Choice)
    requires c.frames != [] && NameFrames(c.handlers)
    ensures Flow(p, i, next, c.(pc := pc), k) == Flow(p, i, next, c, k)
    ensures InArrays(p, i, c.(pc := pc), k) == InArrays(p, i, c, k)
    ensures StackTouched(p, i, c.(pc := pc), k) == StackTouched(p, i, c, k)
    ensures LocalsTouched(p, i, c.(pc := pc), k) == LocalsTouched(p, i, c, k)
  {
    hide Flow, InArrays, StackTouched, LocalsTouched;
    FlowPc(p, i, next, c, pc, k);
    InArraysPc(p, i, c, pc, k);
    TouchedPc(p, i, c, pc, k);
  }

  lemma FlowPc(p: Program, i: Instr, next: nat, c: Ctl, pc: int, k: Choice)
    requires c.frames != []
    ensures Flow(p, i, next, c.(pc := pc), k) == Flow(p, i, next, c, k)
  {
    hide LocalsFit, Delta, Aborts, EnterFn, Unwind, JumpTo;
    if i.Call? {
      EnterPc(p, c.(sp := c.sp - i.argc), pc, i.fn, next);
    } else if i.CallValue? {
      if k.callee.Some? {
        EnterPc(p, c.(sp := c.sp - i.argc - 1), pc, k.callee.value.fn, next);
      }
    } else if i.Assert? {
      UnwindPc(c.(sp := c.sp - 2), pc);
    } else if i.Unwrap? || i.Throw? {
      UnwindPc(c.(sp := c.sp - 1), pc);
    }
  }

  lemma EnterPc(p: Program, c: Ctl, pc: int, fn: nat, next: nat)
    requires c.frames != []
    ensures EnterFn(p, c.(pc := pc), fn, next) == EnterFn(p, c, fn, next)
  {
  }

  lemma UnwindPc(c: Ctl, pc: int)
    ensures Unwind(c.(pc := pc)) == Unwind(c)
  {
  }

  lemma InArraysPc(p: Program, i: Instr, c: Ctl, pc: int, k: Choice)
    requires c.frames != [] && NameFrames(c.handlers)
    ensures InArrays(p, i, c.(pc := pc), k) == InArrays(p, i, c, k)
  {
    hide LocalsFit, SlotFits;
  }

  lemma TouchedPc(p: Program, i: Instr, c: Ctl, pc: int, k: Choice)
    requires c.frames != [] && NameFrames(c.handlers)
    ensures StackTouched(p, i, c.(pc := pc), k) == StackTouched(p, i, c, k)
    ensures LocalsTouched(p, i, c.(pc := pc), k) == LocalsTouched(p, i, c, k)
  {
    hide LocalsFit, UnwindLocals, UnwindStack, Range;
  }

  /** A run that is over stays as it ended. */
  lemma {:induction false} OverStays(p: Program, ks: seq<Choice>, n: nat)
    requires Loaded(p) && n <= |ks| && !CtlRun(p, ks[..n]).At?
    ensures CtlRun(p, ks) == CtlRun(p, ks[..n])
    decreases |ks| - n
  {
    if n < |ks| {
      assert DropLast(ks[..n + 1]) == ks[..n];
      OverStays(p, ks, n + 1);
    } else {
      assert ks[..n] == ks;
    }
  }
}
