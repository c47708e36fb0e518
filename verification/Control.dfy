/**
 The C engine on an arbitrary code section: pc, the depths of the operand, frame and
 handler stacks, and every index at which an instruction reads or writes the operand
 array and the locals array. What depends on a value is left to a choice.

 The loop checks the pc, the two depths and the locals a call needs. It does not check
 that the operands an instruction takes are there, nor that a slot lies in the locals
 array: `InArrays` says, for each opcode, exactly when all its accesses are in range.
 Runs whose accesses are keep every bound, whatever the bytes are and whatever the
 values do; `AddOutside` is a run whose first instruction is not in range.
 */
module Control {
  import opened Common
  import opened Isa
  import opened Machine

  datatype CallFrame = CallFrame(retpc: int, base: nat, size: nat)

  datatype CatchFrame = CatchFrame(catchPC: int, sp: int, fp: nat, slot: nat)

  datatype Ctl = Ctl(pc: int, sp: int, frames: seq<CallFrame>, handlers: seq<CatchFrame>)

  /** A function value's index and how many values it has captured. */
  datatype Callee = Callee(fn: nat, ncap: nat)

  /**
   What an instruction's values decide: a jump, a raise, the callee if it is a function,
   an abort, and how many operands a native looks at, which it does without asking how
   many it was given.
   */
  datatype Choice = Choice(taken: bool, raised: bool, callee: Option<Callee>, stops: bool, looks: nat)

  /** No native looks at more operands. */
  const LOOKS_MAX: nat := 3

  /** What the loader guarantees of a program. */
  predicate Loaded(p: Program) {
    && p.entryFn < |p.funcs|
    && forall f :: 0 <= f < |p.funcs| ==> p.funcs[f].entry <= |p.code| && p.funcs[f].nlocals < 65536
  }

  /** The bounds every run keeps. Only the outermost frame has no return address. */
  predicate Bounded(codelen: nat, c: Ctl) {
    && 0 <= c.pc <= codelen && 0 <= c.sp <= STACK_MAX
    && 1 <= |c.frames| <= FRAME_MAX - 1 && |c.handlers| <= HANDLER_MAX - 1
    && (forall i :: 0 <= i < |c.frames| ==>
         && (if i == 0 then c.frames[i].retpc == -1 else 0 <= c.frames[i].retpc <= codelen)
         && c.frames[i].base + c.frames[i].size <= LOCALS_MAX)
    && (forall i :: 0 <= i < |c.handlers| ==>
         0 <= c.handlers[i].catchPC <= codelen && 0 <= c.handlers[i].sp && 1 <= c.handlers[i].fp)
  }

  // ---- What an instruction touches ----

  /** The indices from `lo` up to `hi`. */
  function Range(lo: int, hi: int): (r: set<int>)
    ensures forall x :: x in r <==> lo <= x < hi
    decreases hi - lo
  {
    if lo >= hi then {} else Range(lo, hi - 1) + {hi - 1}
  }

  predicate Inside(touched: set<int>, size: nat) {
    forall x <- touched :: 0 <= x < size
  }

  /** Where the locals of the next frame begin. */
  function NextBase(frames: seq<CallFrame>): nat
    requires frames != []
  {
    Last(frames).base + Last(frames).size
  }

  /** The callee exists and the locals it declares fit, which a call checks first. */
  predicate LocalsFit(p: Program, base: nat, fn: nat) {
    fn < |p.funcs| && base + p.funcs[fn].nlocals <= LOCALS_MAX - 2
  }

  /** Array and map literals check that their operands are there. */
  predicate Literal(prim: Prim) {
    prim.NewArray? || prim.NewMap?
  }

  /** The frames that unwinding to the top handler leaves; RET may have dropped more. */
  function Unwound(frames: seq<CallFrame>, handlers: seq<CatchFrame>): seq<CallFrame>
    requires handlers != []
  {
    var h := Last(handlers);
    if h.fp < |frames| then frames[..h.fp] else frames
  }

  predicate NameFrames(handlers: seq<CatchFrame>) {
    forall h <- handlers :: h.fp >= 1
  }

  /** The operands released by unwinding from depth `sp`. */
  function UnwindStack(handlers: seq<CatchFrame>, sp: int): set<int> {
    if handlers == [] then {} else Range(Last(handlers).sp, sp)
  }

  /** The locals of the frames from number `n` on. */
  function Windows(frames: seq<CallFrame>, n: nat): set<int> {
    if n >= |frames| then {}
    else Windows(DropLast(frames), n) + Range(Last(frames).base, Last(frames).base + Last(frames).size)
  }

  /** The locals released by unwinding, and the catch slot. */
  function UnwindLocals(frames: seq<CallFrame>, handlers: seq<CatchFrame>): set<int>
    requires frames != [] && NameFrames(handlers)
  {
    if handlers == [] then {}
    else
      var h, left := Last(handlers), Unwound(frames, handlers);
      Windows(frames, |left|) + if h.slot == NO_SLOT then {} else {Last(left).base + h.slot}
  }

  /** The indices of the operand array the code of an instruction reads or writes. */
  function StackTouched(p: Program, i: Instr, c: Ctl, k: Choice): set<int>
    requires c.frames != []
  {
    var sp := c.sp;
    match i
    case Const(idx) => if idx < |p.consts| then {sp} else {}
    case PushTrue => {sp}
    case PushFalse => {sp}
    case PushNull => {sp}
    case PushFn(_) => {sp}
    case Load(_) => {sp}
    case GetGlobal(_) => {sp}
    case Pop => {sp - 1}
    case Store(_) => {sp - 1}
    case SetGlobal(_) => {sp - 1}
    case JumpIfFalse(_) => {sp - 1}
    case JumpIfTrue(_) => {sp - 1}
    case Ret => {sp - 1}
    case Apply(prim, argc) =>
      if Literal(prim) && argc > sp then {}
      else if prim.Native? && k.stops then Range(sp - argc, sp - argc + k.looks)
      else
        (if prim.Native? then Range(sp - argc, sp - argc + k.looks) else {})
        + Range(sp - argc, sp) + (if k.stops then {} else {sp - argc})
    case Effect(_, argc) => Range(sp - argc, sp)
    case Closure(_, ncap) => Range(sp - ncap, sp) + {sp - ncap}
    case Coalesce => Range(sp - 2, sp) + {sp - 2}
    case Call(fn, argc) => if LocalsFit(p, NextBase(c.frames), fn) then Range(sp - argc, sp) else {}
    case CallValue(argc) =>
      {sp - argc - 1}
      + if k.callee.Some? && LocalsFit(p, NextBase(c.frames), k.callee.value.fn) then Range(sp - argc, sp) else {}
    case Assert => Range(sp - 2, sp) + if k.raised then UnwindStack(c.handlers, sp - 2) else {}
    case Unwrap => {sp - 1} + if k.raised then UnwindStack(c.handlers, sp - 1) else {}
    case Throw => {sp - 1} + UnwindStack(c.handlers, sp - 1)
    case _ => {}
  }

  /** The indices of the locals array the code of an instruction reads or writes. */
  function LocalsTouched(p: Program, i: Instr, c: Ctl, k: Choice): set<int>
    requires c.frames != [] && NameFrames(c.handlers)
  {
    var top, nb := Last(c.frames), NextBase(c.frames);
    match i
    case Load(slot) => {top.base + slot}
    case Store(slot) => {top.base + slot}
    case Ret => Range(top.base, top.base + top.size)
    case Call(fn, argc) =>
      if LocalsFit(p, NextBase(c.frames), fn) then Range(nb, nb + p.funcs[fn].nlocals) + Range(nb, nb + argc) else {}
    case CallValue(argc) =>
      if k.callee.Some? && LocalsFit(p, NextBase(c.frames), k.callee.value.fn) then
        Range(nb, nb + p.funcs[k.callee.value.fn].nlocals) + Range(nb, nb + k.callee.value.ncap + argc)
      else {}
    case Assert => if k.raised then UnwindLocals(c.frames, c.handlers) else {}
    case Unwrap => if k.raised then UnwindLocals(c.frames, c.handlers) else {}
    case Throw => UnwindLocals(c.frames, c.handlers)
    case _ => {}
  }

  // ---- When that is in range ----

  /** The catch slot lies in the locals array. */
  predicate SlotFits(frames: seq<CallFrame>, handlers: seq<CatchFrame>)
    requires frames != [] && NameFrames(handlers)
  {
    handlers != [] && Last(handlers).slot != NO_SLOT ==>
      Last(Unwound(frames, handlers)).base + Last(handlers).slot < LOCALS_MAX
  }

  /** The operands an instruction takes or looks at are on the stack. */
  predicate OperandsThere(p: Program, i: Instr, c: Ctl, k: Choice)
    requires c.frames != []
  {
    match i
    case Pop => 1 <= c.sp
    case Store(_) => 1 <= c.sp
    case SetGlobal(_) => 1 <= c.sp
    case JumpIfFalse(_) => 1 <= c.sp
    case JumpIfTrue(_) => 1 <= c.sp
    case Ret => 1 <= c.sp
    case Unwrap => 1 <= c.sp
    case Throw => 1 <= c.sp
    case Assert => 2 <= c.sp
    case Coalesce => 2 <= c.sp
    case Apply(prim, argc) => Literal(prim) || argc <= c.sp || (prim.Native? && k.stops && k.looks == 0)
    case Effect(_, argc) => argc <= c.sp
    case Closure(_, ncap) => ncap <= c.sp
    case Call(fn, argc) => LocalsFit(p, NextBase(c.frames), fn) ==> argc <= c.sp
    case CallValue(argc) => argc + 1 <= c.sp
    case _ => true
  }

  /** The slot, the captured values and the arguments, and the catch slot lie in the locals array. */
  predicate SlotsThere(p: Program, i: Instr, c: Ctl, k: Choice)
    requires c.frames != [] && NameFrames(c.handlers)
  {
    match i
    case Load(slot) => Last(c.frames).base + slot < LOCALS_MAX
    case Store(slot) => Last(c.frames).base + slot < LOCALS_MAX
    case Call(fn, argc) => LocalsFit(p, NextBase(c.frames), fn) ==> NextBase(c.frames) + argc <= LOCALS_MAX
    case CallValue(argc) =>
      k.callee.Some? && LocalsFit(p, NextBase(c.frames), k.callee.value.fn) ==>
          NextBase(c.frames) + k.callee.value.ncap + argc <= LOCALS_MAX
    case Assert => k.raised ==> SlotFits(c.frames, c.handlers)
    case Unwrap => k.raised ==> SlotFits(c.frames, c.handlers)
    case Throw => SlotFits(c.frames, c.handlers)
    case _ => true
  }

  predicate InArrays(p: Program, i: Instr, c: Ctl, k: Choice)
    requires c.frames != [] && NameFrames(c.handlers)
  {
    OperandsThere(p, i, c, k) && SlotsThere(p, i, c, k)
  }

  lemma RangeInside(lo: int, hi: int, size: nat)
    ensures Inside(Range(lo, hi), size) <==> lo >= hi || (0 <= lo && hi <= size)
  {
    if Inside(Range(lo, hi), size) && lo < hi {
      assert lo in Range(lo, hi) && hi - 1 in Range(lo, hi);
    }
  }

  lemma InsideBoth(a: set<int>, b: set<int>, size: nat)
    ensures Inside(a + b, size) <==> Inside(a, size) && Inside(b, size)
  {
    if Inside(a + b, size) {
      forall x <- a ensures 0 <= x < size { assert x in a + b; }
      forall x <- b ensures 0 <= x < size { assert x in a + b; }
    }
  }

  lemma InsideOne(x: int, size: nat)
    ensures Inside({x}, size) <==> 0 <= x < size
  {
    assert x in {x};
  }

  lemma {:induction false} WindowsInside(frames: seq<CallFrame>, n: nat)
    requires forall i :: 0 <= i < |frames| ==> frames[i].base + frames[i].size <= LOCALS_MAX
    ensures Inside(Windows(frames, n), LOCALS_MAX)
  {
    if n < |frames| {
      WindowsInside(DropLast(frames), n);
    }
  }

  lemma UnwindInside(codelen: nat, c: Ctl, sp: int)
    requires Bounded(codelen, c) && sp <= STACK_MAX
    ensures Inside(UnwindStack(c.handlers, sp), STACK_MAX)
    ensures Inside(UnwindLocals(c.frames, c.handlers), LOCALS_MAX) <==> SlotFits(c.frames, c.handlers)
  {
    if c.handlers != [] {
      var h := Last(c.handlers);
      RangeInside(h.sp, sp, STACK_MAX);
      var windows := Windows(c.frames, |Unwound(c.frames, c.handlers)|);
      WindowsInside(c.frames, |Unwound(c.frames, c.handlers)|);
      if h.slot != NO_SLOT {
        var at := Last(Unwound(c.frames, c.handlers)).base + h.slot;
        InsideBoth(windows, {at}, LOCALS_MAX);
        InsideOne(at, LOCALS_MAX);
      }
    }
  }

  /** The operand array: in range exactly if the operands are there. */
  lemma StackIff(p: Program, i: Instr, c: Ctl, k: Choice)
    requires Bounded(|p.code|, c) && c.sp <= STACK_MAX - 4 && k.looks <= LOOKS_MAX
    ensures Inside(StackTouched(p, i, c, k), STACK_MAX) <==> OperandsThere(p, i, c, k)
  {
    hide Inside, Range, UnwindStack, UnwindLocals, SlotFits, Unwound;
    var sp := c.sp;
    InsideOne(sp, STACK_MAX);
    InsideOne(sp - 1, STACK_MAX);
    NoneInside(STACK_MAX);
    match i
    case Apply(prim, argc) => ApplyIff(p, prim, argc, c, k);
    case Effect(_, argc) => RangeInside(sp - argc, sp, STACK_MAX);
    case Closure(_, ncap) => TakenInside(sp, ncap);
    case Coalesce => TakenInside(sp, 2);
    case Call(_, argc) => RangeInside(sp - argc, sp, STACK_MAX);
    case CallValue(argc) => CalleeInside(sp, argc);
    case Assert =>
      UnwindInside(|p.code|, c, sp - 2);
      RangeInside(sp - 2, sp, STACK_MAX);
      InsideBoth(Range(sp - 2, sp), UnwindStack(c.handlers, sp - 2), STACK_MAX);
      InsideBoth(Range(sp - 2, sp), {}, STACK_MAX);
    case Unwrap =>
      UnwindInside(|p.code|, c, sp - 1);
      InsideBoth({sp - 1}, UnwindStack(c.handlers, sp - 1), STACK_MAX);
      InsideBoth({sp - 1}, {}, STACK_MAX);
    case Throw =>
      UnwindInside(|p.code|, c, sp - 1);
      InsideBoth({sp - 1}, UnwindStack(c.handlers, sp - 1), STACK_MAX);
    case _ =>
  }

  lemma NoneInside(size: nat)
    ensures Inside({}, size)
  {
  }

  /** Taking `n` operands and writing a result over them. */
  lemma TakenInside(sp: int, n: nat)
    requires 0 <= sp <= STACK_MAX - 4
    ensures Inside(Range(sp - n, sp) + {sp - n}, STACK_MAX) <==> n <= sp
  {
    hide Inside, Range;
    RangeInside(sp - n, sp, STACK_MAX);
    InsideOne(sp - n, STACK_MAX);
    InsideBoth(Range(sp - n, sp), {sp - n}, STACK_MAX);
  }

  lemma CalleeInside(sp: int, argc: nat)
    requires 0 <= sp <= STACK_MAX - 4
    ensures Inside({sp - argc - 1} + {}, STACK_MAX) <==> argc + 1 <= sp
    ensures Inside({sp - argc - 1} + Range(sp - argc, sp), STACK_MAX) <==> argc + 1 <= sp
  {
    hide Inside, Range;
    NoneInside(STACK_MAX);
    InsideOne(sp - argc - 1, STACK_MAX);
    RangeInside(sp - argc, sp, STACK_MAX);
    InsideBoth({sp - argc - 1}, {}, STACK_MAX);
    InsideBoth({sp - argc - 1}, Range(sp - argc, sp), STACK_MAX);
  }

  lemma ApplyIff(p: Program, prim: Prim, argc: nat, c: Ctl, k: Choice)
    requires Bounded(|p.code|, c) && c.sp <= STACK_MAX - 4 && k.looks <= LOOKS_MAX
    ensures Inside(StackTouched(p, Apply(prim, argc), c, k), STACK_MAX) <==> OperandsThere(p, Apply(prim, argc), c, k)
  {
    hide Inside, Range;
    var sp := c.sp;
    var looks := if prim.Native? then Range(sp - argc, sp - argc + k.looks) else {};
    var taken := Range(sp - argc, sp);
    var written := if k.stops then {} else {sp - argc};
    NoneInside(STACK_MAX);
    InsideOne(sp - argc, STACK_MAX);
    RangeInside(sp - argc, sp - argc + k.looks, STACK_MAX);
    RangeInside(sp - argc, sp, STACK_MAX);
    InsideBoth(looks, taken, STACK_MAX);
    InsideBoth(looks + taken, written, STACK_MAX);
  }

  /** The locals array: in range exactly if the slots are there. */
  lemma LocalsIff(p: Program, i: Instr, c: Ctl, k: Choice)
    requires Loaded(p) && Bounded(|p.code|, c)
    ensures Inside(LocalsTouched(p, i, c, k), LOCALS_MAX) <==> SlotsThere(p, i, c, k)
  {
    hide Inside, Range, UnwindLocals, SlotFits, Unwound, Loaded;
    var top, nb := Last(c.frames), NextBase(c.frames);
    NoneInside(LOCALS_MAX);
    UnwindInside(|p.code|, c, 0);
    match i
    case Load(slot) => InsideOne(top.base + slot, LOCALS_MAX);
    case Store(slot) => InsideOne(top.base + slot, LOCALS_MAX);
    case Ret => RangeInside(top.base, top.base + top.size, LOCALS_MAX);
    case Call(fn, argc) => if LocalsFit(p, NextBase(c.frames), fn) { WindowInside(nb, p.funcs[fn].nlocals, argc); }
    case CallValue(argc) =>
      if k.callee.Some? && LocalsFit(p, NextBase(c.frames), k.callee.value.fn) {
        WindowInside(nb, p.funcs[k.callee.value.fn].nlocals, k.callee.value.ncap + argc);
      }
    case _ =>
  }

  lemma WindowInside(nb: nat, nlocals: nat, given: nat)
    requires nb + nlocals <= LOCALS_MAX - 2
    ensures Inside(Range(nb, nb + nlocals) + Range(nb, nb + given), LOCALS_MAX) <==> nb + given <= LOCALS_MAX
  {
    hide Inside, Range;
    RangeInside(nb, nb + nlocals, LOCALS_MAX);
    RangeInside(nb, nb + given, LOCALS_MAX);
    InsideBoth(Range(nb, nb + nlocals), Range(nb, nb + given), LOCALS_MAX);
  }

  /** Per instruction: every access lies in its array if and only if `InArrays` holds before it. */
  lemma InArraysIff(p: Program, i: Instr, c: Ctl, k: Choice)
    requires Loaded(p) && Bounded(|p.code|, c) && c.sp <= STACK_MAX - 4 && k.looks <= LOOKS_MAX
    ensures Inside(StackTouched(p, i, c, k), STACK_MAX) && Inside(LocalsTouched(p, i, c, k), LOCALS_MAX) <==>
            InArrays(p, i, c, k)
  {
    hide Inside, StackTouched, LocalsTouched, OperandsThere, SlotsThere;
    StackIff(p, i, c, k);
    LocalsIff(p, i, c, k);
  }

  // ---- The control effect ----

  function JumpTo(p: Program, c: Ctl, dest: int): Option<Ctl> {
    if 0 <= dest <= |p.code| then Some(c.(pc := dest)) else None
  }

  /** A call; `c` has the operands already taken. */
  function EnterFn(p: Program, c: Ctl, fn: nat, next: nat): Option<Ctl>
    requires c.frames != []
  {
    if !LocalsFit(p, NextBase(c.frames), fn) || |c.frames| > FRAME_MAX - 2 then None
    else Some(c.(pc := p.funcs[fn].entry,
        frames := c.frames + [CallFrame(next, NextBase(c.frames), p.funcs[fn].nlocals)]))
  }

  /** raise_exception, once the raised value has been popped. */
  function Unwind(c: Ctl): Option<Ctl> {
    if c.handlers == [] then None
    else
      var h := Last(c.handlers);
      Some(Ctl(h.catchPC, if h.sp < c.sp then h.sp else c.sp, Unwound(c.frames, c.handlers), DropLast(c.handlers)))
  }

  /** Instructions that only move the operand depth. */
  predicate Straight(i: Instr) {
    i.Const? || i.PushTrue? || i.PushFalse? || i.PushNull? || i.PushFn? || i.Load? || i.GetGlobal? || i.Pop? || i.Store?
    || i.SetGlobal? || i.Apply? || i.Effect? || i.Closure? || i.Coalesce?
  }

  function Delta(i: Instr): int
    requires Straight(i)
  {
    match i
    case Pop => -1
    case Store(_) => -1
    case SetGlobal(_) => -1
    case Coalesce => -1
    case Apply(_, argc) => 1 - argc
    case Effect(_, argc) => 0 - argc
    case Closure(_, ncap) => 1 - ncap
    case _ => 1
  }

  /** The instruction aborts the program. */
  predicate Aborts(p: Program, i: Instr, sp: int, k: Choice) {
    match i
    case Const(idx) => idx >= |p.consts|
    case Apply(prim, argc) => k.stops || (Literal(prim) && argc > sp)
    case Effect(_, _) => k.stops
    case _ => false
  }

  /** The control effect of one decoded instruction; None ends the run. */
  function Flow(p: Program, i: Instr, next: nat, c0: Ctl, k: Choice): Option<Ctl>
    requires c0.frames != []
  {
    var c := c0.(pc := next);
    if Straight(i) then
      if Aborts(p, i, c.sp, k) then None else Some(c.(sp := c.sp + Delta(i)))
    else
      match i
      case Jump(rel) => JumpTo(p, c, next + rel)
      case JumpIfFalse(rel) =>
        if k.taken then JumpTo(p, c.(sp := c.sp - 1), next + rel) else Some(c.(sp := c.sp - 1))
      case JumpIfTrue(rel) =>
        if k.taken then JumpTo(p, c.(sp := c.sp - 1), next + rel) else Some(c.(sp := c.sp - 1))
      case Call(fn, argc) => EnterFn(p, c0.(sp := c.sp - argc), fn, next)
      case CallValue(argc) =>
        if k.callee == None then None else EnterFn(p, c0.(sp := c.sp - argc - 1), k.callee.value.fn, next)
      case Ret =>
        if Last(c.frames).retpc < 0 then None
        else Some(c.(pc := Last(c.frames).retpc, frames := DropLast(c.frames)))
      case Assert => if k.raised then Unwind(c0.(sp := c.sp - 2)) else Some(c.(sp := c.sp - 2))
      case Unwrap => if k.raised then Unwind(c0.(sp := c.sp - 1)) else Some(c)
      case Throw => Unwind(c0.(sp := c.sp - 1))
      case TryPush(rel, slot) =>
        if !(0 <= next + rel <= |p.code|) || |c.handlers| > HANDLER_MAX - 2 then None
        else Some(c.(handlers := c.handlers + [CatchFrame(next + rel, c.sp, |c.frames|, slot)]))
      case TryPop => Some(c.(handlers := if c.handlers == [] then [] else DropLast(c.handlers)))
      case _ => None              // HALT; SPAWN and AWAIT, which the C engine refuses
  }

  /** How far a run has got: to a state, to its end, or to an access outside its array. */
  datatype Progress = At(ctl: Ctl) | Ended | Outside

  function CtlStep(p: Program, c: Ctl, k: Choice): Progress
    requires c.frames != [] && c.pc >= 0 && NameFrames(c.handlers)
  {
    match Decode(p.code, c.pc)
    case None => Ended
    case Some(f) =>
      if c.sp > STACK_MAX - 4 then Ended
      else if !InArrays(p, f.instr, c, k) then Outside
      else
        match Flow(p, f.instr, f.next, c, k)
        case None => Ended
        case Some(c') => At(c')
  }

  /** What one round of the loop touches of the operand array. */
  function StepStack(p: Program, c: Ctl, k: Choice): set<int>
    requires c.frames != [] && c.pc >= 0
  {
    match Decode(p.code, c.pc)
    case None => {}
    case Some(f) => if c.sp > STACK_MAX - 4 then {} else StackTouched(p, f.instr, c, k)
  }

  /** What one round of the loop touches of the locals array. */
  function StepLocals(p: Program, c: Ctl, k: Choice): set<int>
    requires c.frames != [] && c.pc >= 0 && NameFrames(c.handlers)
  {
    match Decode(p.code, c.pc)
    case None => {}
    case Some(f) => if c.sp > STACK_MAX - 4 then {} else LocalsTouched(p, f.instr, c, k)
  }

  lemma EnterBounded(p: Program, c: Ctl, fn: nat, next: nat)
    requires Loaded(p) && Bounded(|p.code|, c) && next <= |p.code|
    ensures var r := EnterFn(p, c, fn, next); r.Some? ==> Bounded(|p.code|, r.value)
  {
  }

  lemma UnwindBounded(codelen: nat, c: Ctl)
    requires Bounded(codelen, c)
    ensures var r := Unwind(c); r.Some? ==> Bounded(codelen, r.value)
  {
  }

  /** An instruction whose operands are there keeps every bound. */
  lemma FlowBounded(p: Program, i: Instr, next: nat, c0: Ctl, k: Choice)
    requires Loaded(p) && Bounded(|p.code|, c0) && next <= |p.code|
    requires c0.sp <= STACK_MAX - 4 && InArrays(p, i, c0, k)
    ensures var r := Flow(p, i, next, c0, k); r.Some? ==> Bounded(|p.code|, r.value)
  {
    hide EnterFn, Unwind, LocalsFit, SlotsThere, Delta, Aborts;
    if Straight(i) {
      DeltaBounded(p, i, c0, k);
    } else if i.Call? {
      hide Bounded;
      CallBounded(p, i, next, c0, k);
    } else if i.CallValue? {
      if k.callee.Some? {
        EnterBounded(p, c0.(sp := c0.sp - i.argc - 1), k.callee.value.fn, next);
      }
    } else if i.Assert? {
      UnwindBounded(|p.code|, c0.(sp := c0.sp - 2));
    } else if i.Unwrap? || i.Throw? {
      UnwindBounded(|p.code|, c0.(sp := c0.sp - 1));
    }
  }

  lemma DeltaBounded(p: Program, i: Instr, c: Ctl, k: Choice)
    requires Straight(i) && c.frames != [] && 0 <= c.sp <= STACK_MAX - 4 && OperandsThere(p, i, c, k)
    ensures !Aborts(p, i, c.sp, k) ==> 0 <= c.sp + Delta(i) <= STACK_MAX
  {
  }

  lemma CallBounded(p: Program, i: Instr, next: nat, c0: Ctl, k: Choice)
    requires Loaded(p) && Bounded(|p.code|, c0) && next <= |p.code| && i.Call? && OperandsThere(p, i, c0, k)
    ensures var r := Flow(p, i, next, c0, k); r.Some? ==> Bounded(|p.code|, r.value)
  {
    hide LocalsFit;
    if LocalsFit(p, NextBase(c0.frames), i.fn) {
      EnterBounded(p, c0.(sp := c0.sp - i.argc), i.fn, next);
    }
  }

  function Start(p: Program): Ctl
    requires p.entryFn < |p.funcs|
  {
    var f := p.funcs[p.entryFn];
    Ctl(f.entry, 0, [CallFrame(-1, 0, f.nlocals)], [])
  }

  /** After the choices `ks`, unless the run has ended or an access has been outside its array. */
  function CtlRun(p: Program, ks: seq<Choice>): (r: Progress)
    requires Loaded(p)
    ensures r.At? ==> Bounded(|p.code|, r.ctl)
  {
    if ks == [] then At(Start(p))
    else
      match CtlRun(p, DropLast(ks))
      case Ended => Ended
      case Outside => Outside
      case At(c) =>
        var r := CtlStep(p, c, Last(ks));
        assert r.At? ==> Bounded(|p.code|, r.ctl) by {
          StepBounded(p, c, Last(ks));
        }
        r
  }

  /** One instruction of any code, if its accesses are in range, keeps the bounds. */
  lemma StepBounded(p: Program, c: Ctl, k: Choice)
    requires Loaded(p) && Bounded(|p.code|, c)
    ensures var r := CtlStep(p, c, k); r.At? ==> Bounded(|p.code|, r.ctl)
  {
    hide Flow, Decode, InArrays, Loaded;
    var f := Decode(p.code, c.pc);
    if f.Some? && c.sp <= STACK_MAX - 4 && InArrays(p, f.value.instr, c, k) {
      FlowBounded(p, f.value.instr, f.value.next, c, k);
    }
  }

  /** ADD as the first instruction takes operands that are not there: indices -1 and -2, the latter written. */
  lemma AddOutside(p: Program, k: Choice)
    requires Loaded(p) && p.funcs[p.entryFn].entry < |p.code| && p.code[p.funcs[p.entryFn].entry] == 0x10 && !k.stops
    ensures StackTouched(p, Apply(Binary(0x10), 2), Start(p), k) == {-1, -2}
    ensures CtlRun(p, [k]) == Outside
  {
    var c := Start(p);
    assert Width(0x10) == 0;
    assert Decode(p.code, c.pc) == Some(Fetched(Apply(Binary(0x10), 2), c.pc + 1));
    assert DropLast([k]) == [] && Last([k]) == k;
  }

  // ---- The machine's steps are such steps ----

  function FramesOf(frames: seq<Frame>): (r: seq<CallFrame>)
    ensures |r| == |frames|
  {
    if frames == [] then []
    else
      var f := Last(frames);
      FramesOf(DropLast(frames)) + [CallFrame(f.retpc, LocalsUsed(DropLast(frames)), |f.locals|)]
  }

  function CatchOf(h: Handler): CatchFrame {
    CatchFrame(h.catchPC, h.sp, h.fp, h.slot)
  }

  function HandlersOf(handlers: seq<Handler>): (r: seq<CatchFrame>)
    ensures |r| == |handlers| && forall i :: 0 <= i < |r| ==> r[i] == CatchOf(handlers[i])
  {
    seq(|handlers|, i requires 0 <= i < |handlers| => CatchOf(handlers[i]))
  }

  function ControlOf(s: State): Ctl {
    Ctl(s.pc, |s.stack|, FramesOf(s.frames), HandlersOf(s.handlers))
  }

  /** The choice an instruction's values make. */
  function ChoiceOf(ops: Ops, i: Instr, s: State): Choice {
    var top := if s.stack == [] then Null else Last(s.stack);
    var t := ops.truthy(top, s.world);
    var callee :=
      if i.CallValue? && i.argc + 1 <= |s.stack| then
        var f := s.stack[|s.stack| - i.argc - 1];
        if f.Func? then Some(Callee(f.fn, |f.captured|)) else None
      else None;
    Choice(if i.JumpIfFalse? then !t else t, if i.Unwrap? then top.Null? else !t, callee, false, 0)
  }

  lemma {:induction false} FramesOfTake(frames: seq<Frame>, n: nat)
    requires n <= |frames|
    ensures FramesOf(frames)[..n] == FramesOf(frames[..n])
  {
    if n < |frames| {
      FramesOfTake(DropLast(frames), n);
      assert DropLast(frames)[..n] == frames[..n];
      assert FramesOf(frames)[..n] == FramesOf(DropLast(frames))[..n];
    } else {
      assert frames[..n] == frames;
    }
  }

  lemma StoreKeepsFrames(frames: seq<Frame>, slot: nat, v: Value)
    requires frames != [] && slot < |Last(frames).locals|
    ensures FramesOf(StoreLocal(frames, slot, v)) == FramesOf(frames)
  {
  }

  lemma RaiseControl(s: State, v: Value, t: State)
    requires s.handlers != [] && Raise(s, v) == Next(t)
    ensures Unwind(ControlOf(s)) == Some(ControlOf(t))
  {
    hide FramesOf, HandlersOf;
    var h := Last(s.handlers);
    FramesOfTake(s.frames, h.fp);
    assert h.fp == |s.frames| ==> s.frames[..h.fp] == s.frames;
    if h.slot != NO_SLOT {
      StoreKeepsFrames(s.frames[..h.fp], h.slot, v);
    }
    HandlersPop(s.handlers);
  }

  lemma FramesOfPush(frames: seq<Frame>, f: Frame)
    ensures FramesOf(frames + [f]) == FramesOf(frames) + [CallFrame(f.retpc, LocalsUsed(frames), |f.locals|)]
    ensures frames != [] ==>
              Last(FramesOf(frames)).base + Last(FramesOf(frames)).size == LocalsUsed(frames) &&
              DropLast(FramesOf(frames)) == FramesOf(DropLast(frames)) &&
              Last(FramesOf(frames)).retpc == Last(frames).retpc
  {
    assert DropLast(frames + [f]) == frames && Last(frames + [f]) == f;
  }

  lemma EnterControl(p: Program, blank: Value, s: State, fn: nat, args: seq<Value>, next: nat, t: State)
    requires s.frames != [] && Enter(p, blank, s, fn, args, next) == Next(t)
    ensures EnterFn(p, ControlOf(s), fn, next) == Some(ControlOf(t))
  {
    hide FramesOf, LocalsUsed;
    FramesOfPush(s.frames, Last(t.frames));
  }

  /** Raising instructions. */
  lemma RaisesControl(p: Program, ops: Ops, blank: Value, i: Instr, next: nat, s: State, t: State)
    requires i.Throw? || i.Unwrap? || i.Assert?
    requires s.frames != [] && Exec(p, ops, blank, i, next, s) == Next(t)
    ensures Flow(p, i, next, ControlOf(s), ChoiceOf(ops, i, s)) == Some(ControlOf(t))
  {
    hide FramesOf, LocalsUsed, Enter, Raise, EnterFn, Unwind, HandlersOf;
    match i
    case Throw => RaiseControl(Drop(s, 1), Last(s.stack), t);
    case Unwrap => if Last(s.stack).Null? { RaiseControl(Drop(s, 1), Str(UNWRAP_NULL), t); }
    case Assert =>
      if !ops.truthy(Last(s.stack), s.world) { RaiseControl(Drop(s, 2), Str(AssertText(ops, s)), t); }
  }

  lemma CallsControl(p: Program, ops: Ops, blank: Value, i: Instr, next: nat, s: State, t: State)
    requires i.Call? || i.CallValue? || i.Ret?
    requires s.frames != [] && Exec(p, ops, blank, i, next, s) == Next(t)
    ensures Flow(p, i, next, ControlOf(s), ChoiceOf(ops, i, s)) == Some(ControlOf(t))
  {
    hide FramesOf, LocalsUsed, Enter, EnterFn, Unwind, HandlersOf;
    FramesOfPush(s.frames, Last(s.frames));
    match i
    case Call(fn, argc) => EnterControl(p, blank, Drop(s, argc), fn, Args(s, argc), next, t);
    case CallValue(argc) =>
      var f := s.stack[|s.stack| - argc - 1];
      EnterControl(p, blank, Drop(s, argc + 1), f.fn, f.captured + Args(s, argc), next, t);
    case Ret =>
  }

  lemma TriesControl(p: Program, ops: Ops, blank: Value, i: Instr, next: nat, s: State, t: State)
    requires i.TryPush? || i.TryPop? || i.Store?
    requires s.frames != [] && Exec(p, ops, blank, i, next, s) == Next(t)
    ensures Flow(p, i, next, ControlOf(s), ChoiceOf(ops, i, s)) == Some(ControlOf(t))
  {
    hide FramesOf, LocalsUsed, HandlersOf;
    match i
    case Store(slot) => StoreKeepsFrames(s.frames, slot, Last(s.stack));
    case TryPush(rel, slot) => HandlersPush(s.handlers, Handler(next + rel, |s.stack|, |s.frames|, slot));
    case TryPop => HandlersPop(s.handlers);
  }

  lemma StraightExec(p: Program, ops: Ops, blank: Value, i: Instr, next: nat, s: State, t: State)
    requires Straight(i) && !i.Store? && Exec(p, ops, blank, i, next, s) == Next(t)
    ensures t.frames == s.frames && t.handlers == s.handlers && t.pc == next && |t.stack| == |s.stack| + Delta(i)
    ensures !i.Const? || i.idx < |p.consts|
    ensures i.Apply? ==> i.argc <= |s.stack|
  {
  }

  lemma StraightControl(p: Program, ops: Ops, blank: Value, i: Instr, next: nat, s: State, t: State)
    requires Straight(i) && !i.Store?
    requires s.frames != [] && Exec(p, ops, blank, i, next, s) == Next(t)
    ensures Flow(p, i, next, ControlOf(s), ChoiceOf(ops, i, s)) == Some(ControlOf(t))
  {
    StraightExec(p, ops, blank, i, next, s, t);
    hide FramesOf, HandlersOf, Exec, Delta;
  }

  /** Every step of the machine is a control step under the choice its values make. */
  lemma MachineControl(p: Program, ops: Ops, blank: Value, i: Instr, next: nat, s: State, t: State)
    requires s.frames != [] && Exec(p, ops, blank, i, next, s) == Next(t)
    ensures Flow(p, i, next, ControlOf(s), ChoiceOf(ops, i, s)) == Some(ControlOf(t))
  {
    if i.Throw? || i.Unwrap? || i.Assert? {
      hide Exec, Flow;
      RaisesControl(p, ops, blank, i, next, s, t);
    } else if i.Call? || i.CallValue? || i.Ret? {
      hide Exec, Flow;
      CallsControl(p, ops, blank, i, next, s, t);
    } else if i.TryPush? || i.TryPop? || i.Store? {
      hide Exec, Flow;
      TriesControl(p, ops, blank, i, next, s, t);
    } else if Straight(i) {
      hide Exec, Flow;
      StraightControl(p, ops, blank, i, next, s, t);
    } else {
      hide FramesOf, HandlersOf;
    }
  }

  lemma HandlersPush(handlers: seq<Handler>, h: Handler)
    ensures HandlersOf(handlers + [h]) == HandlersOf(handlers) + [CatchOf(h)]
  {
  }

  lemma HandlersPop(handlers: seq<Handler>)
    ensures handlers != [] ==> HandlersOf(DropLast(handlers)) == DropLast(HandlersOf(handlers))
    ensures handlers != [] ==> Last(HandlersOf(handlers)) == CatchOf(Last(handlers))
    ensures handlers == [] ==> HandlersOf(handlers) == []
  {
  }
}
