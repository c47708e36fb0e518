/**
 One step of the Pyro stack machine, stated on values.

 Both engines are proved against this step (GoEngine.dfy, CEngine.dfy). They differ
 in one thing it can see, the value a fresh local holds, so that value is the
 parameter `blank`: int 0 in the Go engine, null in the C engine.

 `Stuck` marks the inputs on which the engines part ways because the bytecode is
 ill-formed (operand underflow, a slot outside the frame, a jump outside the code):
 Verifier.dfy proves that annotated code never reaches it.
 */
module Machine {
  import opened Common
  import opened Isa

  datatype Value =
    | Int(i: int)
    | Float(bits: nat)
    | Bool(b: bool)
    | Str(s: string)
    | Null
    | Array(cell: nat)
    | Map(cell: nat)
    | Func(fn: nat, captured: seq<Value>, id: nat)   // id: identity of the capture array
    | Future(task: nat)

  /** Containers and printed text: everything the value operations may read or change. */
  datatype World = World(cells: map<nat, seq<Value>>, output: seq<string>)

  datatype PrimResult = Ok(value: Value, world: World) | Abort(msg: string)

  /** The runtime's value operations, shared by the engines and left uninterpreted. */
  datatype Ops = Ops(
    apply: (Prim, seq<Value>, World) -> PrimResult,
    truthy: (Value, World) -> bool,
    text: (Value, World) -> string)

  datatype FuncInfo = FuncInfo(entry: nat, nparams: nat, nlocals: nat)

  datatype Program = Program(consts: seq<Value>, funcs: seq<FuncInfo>, entryFn: nat, code: seq<Byte>)

  datatype Frame = Frame(retpc: int, locals: seq<Value>, fn: nat)

  datatype Handler = Handler(catchPC: nat, sp: nat, fp: nat, slot: nat)

  datatype State = State(
    pc: nat,
    stack: seq<Value>,
    frames: seq<Frame>,
    handlers: seq<Handler>,
    globals: seq<Value>,
    closures: nat,        // closures created so far
    world: World)

  datatype Outcome =
    | Next(state: State)
    | Halted(world: World)
    | Returned(value: Value, world: World)   // the outermost RET
    | Fatal(msg: string)
    | Stuck

  /** What an engine's step tells its dispatch loop. */
  datatype Signal = Continue | Stop(outcome: Outcome)

  const STACK_MAX: nat := 65536
  const LOCALS_MAX: nat := 65536
  const FRAME_MAX: nat := 4096
  const HANDLER_MAX: nat := 4096

  const STACK_OVERFLOW := "malformed .pyro: value stack overflow"
  const LOCALS_OVERFLOW := "malformed .pyro: locals stack overflow (runaway recursion?)"
  const CALL_OVERFLOW := "malformed .pyro: call stack overflow (runaway recursion?)"
  const HANDLER_OVERFLOW := "malformed .pyro: exception handler stack overflow"
  const NOT_A_FUNCTION := "call of a non-function value"
  const UNWRAP_NULL := "[Cryo Security] unwrap of null value"
  const ASSERT_PREFIX := "[Cryo Assert] "
  const UNCAUGHT := "uncaught exception: "

  /** Slots the frames occupy in the C engine's single locals array. */
  function LocalsUsed(frames: seq<Frame>): nat {
    if frames == [] then 0 else LocalsUsed(DropLast(frames)) + |Last(frames).locals|
  }

  function Fill(v: Value, n: nat): (s: seq<Value>)
    ensures |s| == n && forall i :: 0 <= i < n ==> s[i] == v
  {
    seq(n, _ => v)
  }

  /** `locals` with `args` written over its leading slots. */
  function Overlay(locals: seq<Value>, args: seq<Value>): (r: seq<Value>)
    requires |args| <= |locals|
    ensures |r| == |locals|
    ensures forall i :: 0 <= i < |locals| ==> r[i] == if i < |args| then args[i] else locals[i]
  {
    args + locals[|args|..]
  }

  function StoreLocal(frames: seq<Frame>, slot: nat, v: Value): (r: seq<Frame>)
    requires frames != [] && slot < |Last(frames).locals|
    ensures |r| == |frames| && DropLast(r) == DropLast(frames)
    ensures Last(r) == Last(frames).(locals := Last(frames).locals[slot := v])
  {
    DropLast(frames) + [Last(frames).(locals := Last(frames).locals[slot := v])]
  }

  function Push(s: State, v: Value, next: nat): State {
    s.(stack := s.stack + [v], pc := next)
  }

  function Drop(s: State, n: nat): State
    requires n <= |s.stack|
  {
    s.(stack := s.stack[..|s.stack| - n])
  }

  function Args(s: State, n: nat): (r: seq<Value>)
    requires n <= |s.stack|
    ensures |r| == n
  {
    s.stack[|s.stack| - n..]
  }

  predicate InCode(p: Program, dest: int) {
    0 <= dest <= |p.code|
  }

  /** The frames a catch block resumes in: the raised value goes to the catch slot, if any. */
  function Caught(frames: seq<Frame>, slot: nat, v: Value): seq<Frame>
    requires frames != [] && (slot == NO_SLOT || slot < |Last(frames).locals|)
  {
    if slot == NO_SLOT then frames else StoreLocal(frames, slot, v)
  }

  /** Unwind to the top handler, which is removed. */
  function Raise(s: State, v: Value): Outcome
    requires s.handlers != []
  {
    var h := Last(s.handlers);
    if h.fp == 0 || h.fp > |s.frames| then Stuck
    else
      var frames := s.frames[..h.fp];
      if h.slot != NO_SLOT && h.slot >= |Last(frames).locals| then Stuck
      else
        Next(s.(pc := h.catchPC,
                stack := if h.sp <= |s.stack| then s.stack[..h.sp] else s.stack,
                frames := Caught(frames, h.slot, v),
                handlers := DropLast(s.handlers)))
  }

  function RaiseOr(s: State, v: Value, uncaught: string): Outcome {
    if s.handlers == [] then Fatal(uncaught) else Raise(s, v)
  }

  /** Enter `fn` with `args` in its leading locals; `s` has the operands already popped. */
  function Enter(p: Program, blank: Value, s: State, fn: nat, args: seq<Value>, retpc: nat): Outcome {
    if fn >= |p.funcs| then Stuck
    else
      var f := p.funcs[fn];
      if LocalsUsed(s.frames) + f.nlocals > LOCALS_MAX - 2 then Fatal(LOCALS_OVERFLOW)
      else if |args| > f.nlocals then Stuck
      else if |s.frames| > FRAME_MAX - 2 then Fatal(CALL_OVERFLOW)
      else Next(s.(pc := f.entry,
                   frames := s.frames + [Frame(retpc, Overlay(Fill(blank, f.nlocals), args), fn)]))
  }

  function Branch(p: Program, s: State, taken: bool, dest: int, next: nat): Outcome {
    if !taken then Next(s.(pc := next))
    else if !InCode(p, dest) then Stuck
    else Next(s.(pc := dest))
  }

  function DoRet(s: State): Outcome {
    if s.stack == [] || s.frames == [] then Stuck
    else
      var fr := Last(s.frames);
      if fr.retpc < 0 then Returned(Last(s.stack), s.world)
      else Next(s.(pc := fr.retpc, frames := DropLast(s.frames)))
  }

  function DoCallValue(p: Program, blank: Value, s: State, argc: nat, next: nat): Outcome {
    if argc + 1 > |s.stack| then Stuck
    else
      var callee := s.stack[|s.stack| - argc - 1];
      if !callee.Func? then Fatal(NOT_A_FUNCTION)
      else Enter(p, blank, Drop(s, argc + 1), callee.fn, callee.captured + Args(s, argc), next)
  }

  function DoTryPush(p: Program, s: State, catchPC: int, slot: nat, next: nat): Outcome {
    if !InCode(p, catchPC) then Stuck
    else if |s.handlers| > HANDLER_MAX - 2 then Fatal(HANDLER_OVERFLOW)
    else Next(s.(pc := next,
                 handlers := s.handlers + [Handler(catchPC, |s.stack|, |s.frames|, slot)]))
  }

  /** The message ASSERT raises: its operands are the message below the condition. */
  function AssertText(ops: Ops, s: State): string
    requires |s.stack| >= 2
  {
    ASSERT_PREFIX + ops.text(s.stack[|s.stack| - 2], s.world)
  }

  function DoPrim(ops: Ops, s: State, prim: Prim, argc: nat, pushes: bool, next: nat): Outcome {
    if argc > |s.stack| then Stuck
    else match ops.apply(prim, Args(s, argc), s.world)
      case Abort(msg) => Fatal(msg)
      case Ok(v, w) =>
        var d := Drop(s, argc).(world := w, pc := next);
        Next(if pushes then Push(d, v, next) else d)
  }

  function SetSlot(g: seq<Value>, slot: nat, v: Value): (r: seq<Value>)
    ensures |r| == if slot < |g| then |g| else slot + 1
    ensures forall i :: 0 <= i < |r| ==> r[i] == if i == slot then v else if i < |g| then g[i] else Null
  {
    if slot < |g| then g[slot := v] else g + Fill(Null, slot - |g|) + [v]
  }

  /** Execute one decoded instruction whose operands end at `next`. */
  function Exec(p: Program, ops: Ops, blank: Value, i: Instr, next: nat, s: State): Outcome {
    match i
    case Halt => Halted(s.world)
    case Const(idx) => if idx >= |p.consts| then Stuck else Next(Push(s, p.consts[idx], next))
    case PushTrue => Next(Push(s, Bool(true), next))
    case PushFalse => Next(Push(s, Bool(false), next))
    case PushNull => Next(Push(s, Null, next))
    case Pop => if |s.stack| < 1 then Stuck else Next(Drop(s, 1).(pc := next))
    case Load(slot) =>
      if s.frames == [] || slot >= |Last(s.frames).locals| then Stuck
      else Next(Push(s, Last(s.frames).locals[slot], next))
    case Store(slot) =>
      if s.stack == [] || s.frames == [] || slot >= |Last(s.frames).locals| then Stuck
      else Next(Drop(s, 1).(frames := StoreLocal(s.frames, slot, Last(s.stack)), pc := next))
    case GetGlobal(slot) => Next(Push(s, if slot < |s.globals| then s.globals[slot] else Null, next))
    case SetGlobal(slot) =>
      if s.stack == [] then Stuck
      else Next(Drop(s, 1).(globals := SetSlot(s.globals, slot, Last(s.stack)), pc := next))
    case Apply(prim, argc) => DoPrim(ops, s, prim, argc, true, next)
    case Effect(prim, argc) => DoPrim(ops, s, prim, argc, false, next)
    case Jump(rel) => Branch(p, s, true, next + rel, next)
    case JumpIfFalse(rel) =>
      if s.stack == [] then Stuck
      else Branch(p, Drop(s, 1), !ops.truthy(Last(s.stack), s.world), next + rel, next)
    case JumpIfTrue(rel) =>
      if s.stack == [] then Stuck
      else Branch(p, Drop(s, 1), ops.truthy(Last(s.stack), s.world), next + rel, next)
    case Call(fn, argc) =>
      if argc > |s.stack| then Stuck else Enter(p, blank, Drop(s, argc), fn, Args(s, argc), next)
    case PushFn(fn) => Next(Push(s, Func(fn, [], 0), next))
    case Closure(fn, ncap) =>
      if ncap > |s.stack| then Stuck
      else Next(Push(Drop(s, ncap), Func(fn, Args(s, ncap), s.closures + 1), next)
                .(closures := s.closures + 1))
    case CallValue(argc) => DoCallValue(p, blank, s, argc, next)
    case Ret => DoRet(s)
    case Assert =>
      if |s.stack| < 2 then Stuck
      else
        if ops.truthy(Last(s.stack), s.world) then Next(Drop(s, 2).(pc := next))
        else RaiseOr(Drop(s, 2), Str(AssertText(ops, s)), AssertText(ops, s))
    case TryPush(rel, slot) => DoTryPush(p, s, next + rel, slot, next)
    case TryPop => Next(s.(pc := next, handlers := if s.handlers == [] then [] else DropLast(s.handlers)))
    case Throw =>
      if s.stack == [] then Stuck
      else RaiseOr(Drop(s, 1), Last(s.stack), UNCAUGHT + ops.text(Last(s.stack), s.world))
    case Coalesce =>
      if |s.stack| < 2 then Stuck
      else
        var a := s.stack[|s.stack| - 2];
        Next(Push(Drop(s, 2), if a.Null? then Last(s.stack) else a, next))
    case Unwrap =>
      if s.stack == [] then Stuck
      else if Last(s.stack).Null? then RaiseOr(Drop(s, 1), Str(UNWRAP_NULL), UNWRAP_NULL)
      else Next(s.(pc := next))
    case Spawn => Stuck
    case Await => Stuck
  }

  function Step(p: Program, ops: Ops, blank: Value, s: State): Outcome {
    if |s.stack| > STACK_MAX - 4 then Fatal(STACK_OVERFLOW)
    else
      match Decode(p.code, s.pc)
      case None => Stuck
      case Some(f) => Exec(p, ops, blank, f.instr, f.next, s)
  }

  /** Where a run starts: the entry function in its own frame, its locals fresh. */
  function Initial(p: Program, blank: Value, w: World): State
    requires p.entryFn < |p.funcs|
  {
    var f := p.funcs[p.entryFn];
    State(f.entry, [], [Frame(-1, Fill(blank, f.nlocals), p.entryFn)], [], [], 0, w)
  }

  /** The outcome of `n` steps, or of fewer when the machine stops first. */
  function Run(p: Program, ops: Ops, blank: Value, s: State, n: nat): Outcome {
    if n == 0 then Next(s)
    else
      match Run(p, ops, blank, s, n - 1)
      case Next(t) => Step(p, ops, blank, t)
      case other => other
  }
}
