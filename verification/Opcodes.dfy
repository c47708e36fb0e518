/**
 What each instruction does to the machine, operand by operand and local by local: the
 stack-effect column of PYRO_BYTECODE.md, which the specification calls normative, and the
 limits at which a call or a handler aborts. The last part follows values across
 instructions: what a closure captured is what its body finds in its leading locals.
 */
module Opcodes {
  import opened Common
  import opened Isa
  import opened Machine

  /** Operand number `k`, the last of `n` being the top. */
  function Operand(s: State, n: nat, k: nat): Value
    requires k < n <= |s.stack|
  {
    s.stack[|s.stack| - n + k]
  }

  /** The `n` operands on top have given way to `vs`; those below are as they were. */
  ghost predicate Replaced(s: State, t: State, n: nat, vs: seq<Value>) {
    && n <= |s.stack| && |t.stack| == |s.stack| - n + |vs|
    && (forall j :: 0 <= j < |s.stack| - n ==> t.stack[j] == s.stack[j])
    && forall j :: 0 <= j < |vs| ==> t.stack[|s.stack| - n + j] == vs[j]
  }

  /** What is not an operand is as it was. */
  ghost predicate SameRest(s: State, t: State) {
    t.frames == s.frames && t.handlers == s.handlers && t.globals == s.globals && t.closures == s.closures
    && t.world == s.world
  }

  /** Only the top frame's locals differ, and of these only number `slot`, which is `v`. */
  ghost predicate LocalSet(a: seq<Frame>, b: seq<Frame>, slot: nat, v: Value) {
    && a != [] && |b| == |a| && (forall j :: 0 <= j < |a| - 1 ==> b[j] == a[j])
    && Last(b).retpc == Last(a).retpc && Last(b).fn == Last(a).fn && |Last(b).locals| == |Last(a).locals|
    && slot < |Last(a).locals|
    && forall j :: 0 <= j < |Last(a).locals| ==> Last(b).locals[j] == if j == slot then v else Last(a).locals[j]
  }

  /** `i` is decoded at the pc and executed, with outcome `o`. */
  ghost predicate Executes(p: Program, ops: Ops, blank: Value, s: State, i: Instr, next: nat, o: Outcome) {
    Decode(p.code, s.pc) == Some(Fetched(i, next)) && |s.stack| <= 65532 && Step(p, ops, blank, s) == o
  }

  /** An instruction is executed only with room for three more operands. */
  lemma StackLimit(p: Program, ops: Ops, blank: Value, s: State)
    requires Decode(p.code, s.pc).Some?
    ensures |s.stack| > 65532 ==> Step(p, ops, blank, s) == Fatal(STACK_OVERFLOW)
  {
  }

  /** A program starts at its entry function, in one frame of fresh locals, with nothing else there; HALT ends it. */
  lemma StartAndHalt(p: Program, ops: Ops, blank: Value, w: World, s: State, next: nat, o: Outcome)
    requires p.entryFn < |p.funcs|
    requires Executes(p, ops, blank, s, Halt, next, o)
    ensures o == Halted(s.world)
    ensures var t, f := Initial(p, blank, w), p.funcs[p.entryFn];
            && t.pc == f.entry && t.stack == [] && t.handlers == [] && t.globals == [] && t.world == w
            && |t.frames| == 1
            && t.frames[0].retpc < 0 && t.frames[0].fn == p.entryFn && |t.frames[0].locals| == f.nlocals
            && forall j :: 0 <= j < f.nlocals ==> t.frames[0].locals[j] == blank
  {
    hide Decode;
  }

  // ---- Operands, locals, globals ----

  /** Instructions that only push, drop or choose among operands. */
  predicate Moves(i: Instr) {
    i.PushTrue? || i.PushFalse? || i.PushNull? || i.Const? || i.PushFn? || i.Load? || i.GetGlobal? || i.Pop?
        || i.Coalesce?
  }

  /** The slots, constants and operands it names are there. */
  predicate HasWhatItNames(p: Program, s: State, i: Instr) {
    && (i.Const? ==> i.idx < |p.consts|)
    && (i.Load? || i.Store? ==> s.frames != [] && i.slot < |Last(s.frames).locals|)
    && (i.Pop? || i.Store? || i.SetGlobal? ==> |s.stack| >= 1)
    && (i.Coalesce? ==> |s.stack| >= 2)
  }

  lemma MoveLaw(p: Program, ops: Ops, blank: Value, s: State, i: Instr, next: nat, o: Outcome)
    requires Executes(p, ops, blank, s, i, next, o) && Moves(i) && HasWhatItNames(p, s, i)
    ensures o.Next? && o.state.pc == next && SameRest(s, o.state)
    ensures match i
            case PushTrue => Replaced(s, o.state, 0, [Bool(true)])
            case PushFalse => Replaced(s, o.state, 0, [Bool(false)])
            case PushNull => Replaced(s, o.state, 0, [Null])
            case Const(idx) => Replaced(s, o.state, 0, [p.consts[idx]])
            case PushFn(fn) => Replaced(s, o.state, 0, [Func(fn, [], 0)])
            case Load(slot) => Replaced(s, o.state, 0, [Last(s.frames).locals[slot]])
            case GetGlobal(slot) => Replaced(s, o.state, 0, [if slot < |s.globals| then s.globals[slot] else Null])
            case Pop => Replaced(s, o.state, 1, [])
            case Coalesce =>
              Replaced(s, o.state, 2, [if Operand(s, 2, 0) == Null then Operand(s, 2, 1) else Operand(s, 2, 0)])
            case _ => true
  {
    hide Decode;
  }

  lemma StoreLaw(p: Program, ops: Ops, blank: Value, s: State, slot: nat, next: nat, o: Outcome)
    requires Executes(p, ops, blank, s, Store(slot), next, o) && HasWhatItNames(p, s, Store(slot))
    ensures o.Next? && o.state.pc == next && Replaced(s, o.state, 1, [])
    ensures LocalSet(s.frames, o.state.frames, slot, Operand(s, 1, 0)) && SameRest(s, o.state.(frames := s.frames))
  {
    hide Decode;
  }

  lemma SetGlobalLaw(p: Program, ops: Ops, blank: Value, s: State, slot: nat, next: nat, o: Outcome)
    requires Executes(p, ops, blank, s, SetGlobal(slot), next, o) && |s.stack| >= 1
    ensures o.Next? && o.state.pc == next && Replaced(s, o.state, 1, []) && SameRest(s, o.state.(globals := s.globals))
    ensures var g := o.state.globals;
            && |g| == (if slot < |s.globals| then |s.globals| else slot + 1)
            && forall j :: 0 <= j < |g| ==>
                 g[j] == if j == slot then Operand(s, 1, 0) else if j < |s.globals| then s.globals[j] else Null
  {
    hide Decode;
  }

  /** A value operation is given its operands in the order they were pushed. */
  lemma PrimLaw(p: Program, ops: Ops, blank: Value, s: State, i: Instr, next: nat, o: Outcome, args: seq<Value>)
    requires Executes(p, ops, blank, s, i, next, o) && (i.Apply? || i.Effect?) && |args| == i.argc <= |s.stack|
    requires forall j :: 0 <= j < i.argc ==> args[j] == Operand(s, i.argc, j)
    ensures match ops.apply(i.prim, args, s.world)
            case Abort(msg) => o == Fatal(msg)
            case Ok(v, w) =>
              && o.Next? && o.state.pc == next && o.state.world == w && SameRest(s, o.state.(world := s.world))
              && Replaced(s, o.state, i.argc, if i.Apply? then [v] else [])
  {
    hide Decode;
    assert Args(s, i.argc) == args;
  }

  /** CLOSURE captures its operands in the order they were pushed. */
  lemma ClosureLaw(p: Program, ops: Ops, blank: Value, s: State, fn: nat, ncap: nat, next: nat, o: Outcome)
    requires Executes(p, ops, blank, s, Closure(fn, ncap), next, o) && ncap <= |s.stack|
    ensures o.Next? && o.state.pc == next && SameRest(s, o.state.(closures := s.closures))
    ensures o.state.closures == s.closures + 1 && o.state.stack != []
    ensures var f := Last(o.state.stack);
            && Replaced(s, o.state, ncap, [f]) && f.Func? && f.fn == fn && f.id == s.closures + 1
            && |f.captured| == ncap
            && forall j :: 0 <= j < ncap ==> f.captured[j] == Operand(s, ncap, j)
  {
    hide Decode;
  }

  // ---- Control ----

  predicate Targets(p: Program, i: Instr, next: nat) {
    i.Jump? || i.JumpIfFalse? || i.JumpIfTrue? ==> 0 <= next + i.rel <= |p.code|
  }

  lemma BranchLaw(p: Program, ops: Ops, blank: Value, s: State, i: Instr, next: nat, o: Outcome)
    requires Executes(p, ops, blank, s, i, next, o) && Targets(p, i, next)
    requires i.Jump? || ((i.JumpIfFalse? || i.JumpIfTrue?) && |s.stack| >= 1)
    ensures o.Next? && SameRest(s, o.state) && Replaced(s, o.state, if i.Jump? then 0 else 1, [])
    ensures var taken := i.Jump? || ops.truthy(Operand(s, 1, 0), s.world) == i.JumpIfTrue?;
            o.state.pc == if taken then next + i.rel else next
  {
    hide Decode;
  }

  /** The frames in all have room for `n` more locals, and there is room for one more frame. */
  predicate Room(s: State, n: nat) {
    LocalsUsed(s.frames) + n <= 65534 && |s.frames| <= 4094
  }

  /**
   `t` runs `fn`, whose leading locals are `values` and whose others are `blank`, above all
   of `s` but `n` operands.
   */
  ghost predicate Entered(p: Program, blank: Value, s: State, n: nat, fn: nat, values: seq<Value>, next: nat,
      t: State) {
    && fn < |p.funcs| && t.pc == p.funcs[fn].entry && Replaced(s, t, n, []) && SameRest(s, t.(frames := s.frames))
    && |t.frames| == |s.frames| + 1 && (forall j :: 0 <= j < |s.frames| ==> t.frames[j] == s.frames[j])
    && var f := Last(t.frames);
       && f.fn == fn && f.retpc == next && |f.locals| == p.funcs[fn].nlocals && |values| <= |f.locals|
       && forall j :: 0 <= j < |f.locals| ==> f.locals[j] == if j < |values| then values[j] else blank
  }

  /** What a call of `fn` comes to. */
  ghost predicate Calls(p: Program, blank: Value, s: State, n: nat, fn: nat, values: seq<Value>, next: nat,
      o: Outcome) {
    && fn < |p.funcs|
    && if LocalsUsed(s.frames) + p.funcs[fn].nlocals > 65534 then o == Fatal(LOCALS_OVERFLOW)
       else if |s.frames| > 4094 then o == Fatal(CALL_OVERFLOW)
       else o.Next? && Entered(p, blank, s, n, fn, values, next, o.state)
  }

  /** CALL: argument `j` is the callee's local `j`. */
  lemma CallLaw(p: Program, ops: Ops, blank: Value, s: State, fn: nat, argc: nat, next: nat, o: Outcome,
      args: seq<Value>)
    requires Executes(p, ops, blank, s, Call(fn, argc), next, o)
    requires fn < |p.funcs| && argc <= p.funcs[fn].nlocals && argc <= |s.stack| && |args| == argc
    requires forall j :: 0 <= j < argc ==> args[j] == Operand(s, argc, j)
    ensures Calls(p, blank, s, argc, fn, args, next, o)
  {
    hide Decode;
    assert Args(s, argc) == args;
  }

  /** CALLVALUE: the captured values come first, the arguments behind them; the function value is dropped. */
  lemma CallValueLaw(p: Program, ops: Ops, blank: Value, s: State, argc: nat, next: nat, o: Outcome, args: seq<Value>)
    requires Executes(p, ops, blank, s, CallValue(argc), next, o) && argc < |s.stack| && |args| == argc
    requires forall j :: 0 <= j < argc ==> args[j] == Operand(s, argc, j)
    ensures var f := Operand(s, argc + 1, 0);
            && (!f.Func? ==> o == Fatal(NOT_A_FUNCTION))
            && (f.Func? && f.fn < |p.funcs| && |f.captured| + argc <= p.funcs[f.fn].nlocals ==>
                  Calls(p, blank, s, argc + 1, f.fn, f.captured + args, next, o))
  {
    hide Decode;
    assert Args(s, argc) == args;
  }

  /** RET: the frame goes, the operands stay, so the result is on top for the caller. */
  lemma RetLaw(p: Program, ops: Ops, blank: Value, s: State, next: nat, o: Outcome)
    requires Executes(p, ops, blank, s, Ret, next, o) && s.stack != [] && s.frames != []
    ensures if Last(s.frames).retpc < 0 then o == Returned(Operand(s, 1, 0), s.world)
            else
              && o.Next? && o.state.pc == Last(s.frames).retpc && Replaced(s, o.state, 0, [])
              && |o.state.frames| == |s.frames| - 1
              && (forall j :: 0 <= j < |s.frames| - 1 ==> o.state.frames[j] == s.frames[j])
              && SameRest(s, o.state.(frames := s.frames))
  {
    hide Decode;
  }

  // ---- Exceptions ----

  lemma HandlerLaw(p: Program, ops: Ops, blank: Value, s: State, i: Instr, next: nat, o: Outcome)
    requires Executes(p, ops, blank, s, i, next, o) && (i.TryPop? || (i.TryPush? && 0 <= next + i.rel <= |p.code|))
    ensures i.TryPush? && |s.handlers| > 4094 ==> o == Fatal(HANDLER_OVERFLOW)
    ensures i.TryPop? || |s.handlers| <= 4094 ==>
              && o.Next? && o.state.pc == next && Replaced(s, o.state, 0, [])
              && SameRest(s, o.state.(handlers := s.handlers))
    ensures i.TryPush? && |s.handlers| <= 4094 ==>
              o.state.handlers == s.handlers + [Handler(next + i.rel, |s.stack|, |s.frames|, i.slot)]
    ensures i.TryPop? ==> o.state.handlers == if s.handlers == [] then [] else s.handlers[..|s.handlers| - 1]
  {
    hide Decode;
  }

  /** The operands the instruction pops before it raises, the value raised, and the message when nothing catches it. */
  datatype Raising = Raising(pops: nat, value: Value, uncaught: string)

  /** THROW, ASSERT of a false condition, UNWRAP of null. */
  function RaisedBy(ops: Ops, s: State, i: Instr): Option<Raising> {
    if i.Throw? && |s.stack| >= 1 then
      Some(Raising(1, Operand(s, 1, 0), "uncaught exception: " + ops.text(Operand(s, 1, 0), s.world)))
    else if i.Assert? && |s.stack| >= 2 && !ops.truthy(Operand(s, 2, 1), s.world) then
      var text := "[Cryo Assert] " + ops.text(Operand(s, 2, 0), s.world);
      Some(Raising(2, Str(text), text))
    else if i.Unwrap? && |s.stack| >= 1 && Operand(s, 1, 0) == Null then
      Some(Raising(1, Str("[Cryo Security] unwrap of null value"), "[Cryo Security] unwrap of null value"))
    else None
  }

  /** The innermost handler takes over: its depths are restored, the value is in its slot. */
  ghost predicate CaughtBy(s: State, pops: nat, v: Value, t: State)
    requires s.handlers != [] && pops <= |s.stack|
  {
    var h := Last(s.handlers);
    && t.pc == h.catchPC && t.handlers == s.handlers[..|s.handlers| - 1]
    && t.globals == s.globals && t.closures == s.closures && t.world == s.world
    && |t.stack| == (if h.sp < |s.stack| - pops then h.sp else |s.stack| - pops)
    && (forall j :: 0 <= j < |t.stack| ==> t.stack[j] == s.stack[j])
    && 1 <= h.fp <= |s.frames| && if h.slot == 0xFFFF then t.frames == s.frames[..h.fp]
       else LocalSet(s.frames[..h.fp], t.frames, h.slot, v)
  }

  /** The innermost handler's frame is there and has its slot. */
  predicate CanCatch(s: State) {
    && s.handlers != [] && 1 <= Last(s.handlers).fp <= |s.frames|
    && var h := Last(s.handlers); h.slot == 0xFFFF || h.slot < |s.frames[h.fp - 1].locals|
  }

  /** What raising `v` comes to. */
  ghost predicate RaisedTo(s: State, r: Raising, o: Outcome) {
    && r.pops <= |s.stack|
    && (s.handlers == [] ==> o == Fatal(r.uncaught))
    && (s.handlers != [] && CanCatch(s) ==> o.Next? && CaughtBy(s, r.pops, r.value, o.state))
  }

  lemma Raised(s: State, r: Raising)
    requires r.pops <= |s.stack|
    ensures RaisedTo(s, r, RaiseOr(Drop(s, r.pops), r.value, r.uncaught))
  {
  }

  lemma RaiseLaw(p: Program, ops: Ops, blank: Value, s: State, i: Instr, next: nat, o: Outcome)
    requires Executes(p, ops, blank, s, i, next, o) && RaisedBy(ops, s, i).Some?
    ensures RaisedTo(s, RaisedBy(ops, s, i).value, o)
  {
    hide Decode, RaisedTo, RaiseOr;
    Raised(s, RaisedBy(ops, s, i).value);
  }

  /** ASSERT of a true condition drops it and its message; UNWRAP of anything but null leaves it. */
  lemma NoRaiseLaw(p: Program, ops: Ops, blank: Value, s: State, i: Instr, next: nat, o: Outcome)
    requires Executes(p, ops, blank, s, i, next, o) && RaisedBy(ops, s, i).None?
    requires (i.Assert? && |s.stack| >= 2) || (i.Unwrap? && |s.stack| >= 1)
    ensures o.Next? && o.state.pc == next && SameRest(s, o.state)
            && Replaced(s, o.state, if i.Assert? then 2 else 0, [])
  {
    hide Decode;
  }

  // ---- Values across instructions ----

  lemma ClosureRan(p: Program, ops: Ops, blank: Value, s: State, fn: nat, ncap: nat, next: nat, t: State)
    requires Executes(p, ops, blank, s, Closure(fn, ncap), next, Next(t))
    ensures ncap <= |s.stack|
  {
    hide Decode;
  }

  lemma CallValueRan(p: Program, ops: Ops, blank: Value, s: State, argc: nat, next: nat, t: State)
    requires Executes(p, ops, blank, s, CallValue(argc), next, Next(t)) && argc < |s.stack|
    ensures var f := Operand(s, argc + 1, 0);
            f.Func? && f.fn < |p.funcs| && |f.captured| + argc <= p.funcs[f.fn].nlocals
  {
    hide Decode;
  }

  /**
   Calling a closure, whenever that happens: the values that were on the stack at its
   CLOSURE are the callee's leading locals, in that order, and the arguments follow.
   */
  lemma ClosureCalled(p: Program, ops: Ops, blank: Value, s: State, fn: nat, ncap: nat, next: nat, made: State,
      t: State, argc: nat, after: nat, u: State)
    requires Executes(p, ops, blank, s, Closure(fn, ncap), next, Next(made))
    requires Executes(p, ops, blank, t, CallValue(argc), after, Next(u)) && argc < |t.stack|
    requires made.stack != [] && Operand(t, argc + 1, 0) == Last(made.stack)
    ensures u.frames != [] && fn < |p.funcs| && u.pc == p.funcs[fn].entry
    ensures ncap <= |s.stack| && |Last(u.frames).locals| == p.funcs[fn].nlocals >= ncap + argc
    ensures forall j :: 0 <= j < ncap ==> Last(u.frames).locals[j] == Operand(s, ncap, j)
    ensures forall j :: 0 <= j < argc ==> Last(u.frames).locals[ncap + j] == Operand(t, argc, j)
    ensures forall j :: ncap + argc <= j < p.funcs[fn].nlocals ==> Last(u.frames).locals[j] == blank
  {
    hide Executes;
    ClosureRan(p, ops, blank, s, fn, ncap, next, made);
    ClosureLaw(p, ops, blank, s, fn, ncap, next, Next(made));
    CallValueRan(p, ops, blank, t, argc, after, u);
    var args := t.stack[|t.stack| - argc..];
    CallValueLaw(p, ops, blank, t, argc, after, Next(u), args);
    var values := Last(made.stack).captured + args;
    assert Entered(p, blank, t, argc + 1, fn, values, after, u);
    assert forall j :: 0 <= j < argc ==> values[ncap + j] == args[j];
  }

  /** A local holds what was stored in it last: STORE, then LOAD of the same slot or another. */
  lemma StoreLoad(p: Program, ops: Ops, blank: Value, s: State, slot: nat, next: nat, t: State,
      other: nat, after: nat, u: State)
    requires Executes(p, ops, blank, s, Store(slot), next, Next(t))
    requires Executes(p, ops, blank, t, Load(other), after, Next(u))
    ensures s.stack != [] && s.frames != [] && other < |Last(s.frames).locals| && u.stack != []
    ensures Last(u.stack) == if other == slot then Last(s.stack) else Last(s.frames).locals[other]
  {
    hide Decode;
  }
}
