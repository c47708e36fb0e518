/**
 A bytecode verifier for the annotation PYRO_BYTECODE.md asks of generated code: at
 every pc the operand depth, the enclosing handlers and the assigned locals are fixed,
 and paths that merge agree. Soundness.dfy and TaskSoundness.dfy prove that runs of such
 code have exactly the annotated shape.
 */
module Verifier {
  import opened Common
  import opened Isa
  import opened Machine

  /**
   What holds on arrival at a pc: the function it belongs to, the operands the frame has
   pushed, the operand depth each of the frame's open handlers was installed at, and the
   locals that have certainly been assigned.
   */
  datatype Ann = Ann(fn: nat, depth: nat, tries: seq<nat>, definite: set<nat>)

  type Annotation = map<nat, Ann>

  /** Operands an instruction must leave alone: those below the innermost open handler. */
  function Floor(a: Ann): nat {
    if a.tries == [] then 0 else Last(a.tries)
  }

  ghost predicate Sorted(a: Ann) {
    && (forall j, k :: 0 <= j < k < |a.tries| ==> a.tries[j] <= a.tries[k])
    && Floor(a) <= a.depth
  }

  /** Control may pass to `pc` when `a` is what holds on the way there. */
  predicate Flows(ann: Annotation, pc: int, a: Ann) {
    && pc in ann
    && ann[pc].fn == a.fn && ann[pc].depth == a.depth && ann[pc].tries == a.tries
    && ann[pc].definite <= a.definite
  }

  predicate Room(a: Ann, pops: nat) {
    Floor(a) + pops <= a.depth
  }

  predicate Moves(ann: Annotation, a: Ann, pops: nat, pushes: nat, next: nat) {
    Room(a, pops) && Flows(ann, next, a.(depth := a.depth - pops + pushes))
  }

  function WithSlot(a: Ann, slot: nat): Ann {
    if slot == NO_SLOT then a else a.(definite := a.definite + {slot})
  }

  predicate SlotOk(p: Program, a: Ann, slot: nat) {
    a.fn < |p.funcs| && (slot == NO_SLOT || slot < p.funcs[a.fn].nlocals)
  }

  /** `n` values are as many as `fn` may read at its start, and no more than its locals. */
  predicate Supplies(p: Program, ann: Annotation, fn: nat, n: nat)
    requires fn < |p.funcs|
  {
    var f := p.funcs[fn];
    n <= f.nlocals && f.entry in ann && forall j <- ann[f.entry].definite :: j < n
  }

  predicate InstrOk(p: Program, ann: Annotation, a: Ann, i: Instr, next: nat) {
    a.fn < |p.funcs| &&
    match i
    case Halt => true
    case Const(idx) => idx < |p.consts| && Moves(ann, a, 0, 1, next)
    case PushTrue => Moves(ann, a, 0, 1, next)
    case PushFalse => Moves(ann, a, 0, 1, next)
    case PushNull => Moves(ann, a, 0, 1, next)
    case Pop => Moves(ann, a, 1, 0, next)
    case Load(slot) => slot in a.definite && slot < p.funcs[a.fn].nlocals && Moves(ann, a, 0, 1, next)
    case Store(slot) =>
      slot < p.funcs[a.fn].nlocals && Moves(ann, a.(definite := a.definite + {slot}), 1, 0, next)
    case GetGlobal(_) => Moves(ann, a, 0, 1, next)
    case SetGlobal(_) => Moves(ann, a, 1, 0, next)
    case Apply(_, argc) => Moves(ann, a, argc, 1, next)
    case Effect(_, argc) => Moves(ann, a, argc, 0, next)
    case Jump(rel) => Flows(ann, next + rel, a)
    case JumpIfFalse(rel) => Moves(ann, a, 1, 0, next) && Flows(ann, next + rel, a.(depth := a.depth - 1))
    case JumpIfTrue(rel) => Moves(ann, a, 1, 0, next) && Flows(ann, next + rel, a.(depth := a.depth - 1))
    case Call(fn, argc) => fn < |p.funcs| && Supplies(p, ann, fn, argc) && Moves(ann, a, argc, 1, next)
    case PushFn(fn) => Moves(ann, a, 0, 1, next)
    case Closure(fn, ncap) => Moves(ann, a, ncap, 1, next)
    case CallValue(argc) => Moves(ann, a, argc + 1, 1, next)
    case Ret => a.depth == 1 && a.tries == []
    case Assert => Moves(ann, a, 2, 0, next)
    case TryPush(rel, slot) =>
      && SlotOk(p, a, slot)
      && Flows(ann, next, a.(tries := a.tries + [a.depth]))
      && Flows(ann, next + rel, WithSlot(a, slot))
    case TryPop => a.tries != [] && Flows(ann, next, a.(tries := DropLast(a.tries)))
    case Throw => Room(a, 1)
    case Coalesce => Moves(ann, a, 2, 1, next)
    case Unwrap => Moves(ann, a, 1, 1, next)
    case Spawn => Moves(ann, a, 1, 1, next)
    case Await => Moves(ann, a, 1, 1, next)
  }

  /** `fn` starts with an empty frame. */
  predicate EntryOk(p: Program, ann: Annotation, fn: nat)
    requires fn < |p.funcs|
  {
    var f := p.funcs[fn];
    && f.entry in ann
    && ann[f.entry].fn == fn && ann[f.entry].depth == 0 && ann[f.entry].tries == []
  }

  ghost predicate PcOk(p: Program, ann: Annotation, pc: nat)
    requires pc in ann
  {
    && Sorted(ann[pc])
    && var d := Decode(p.code, pc);
       d.Some? && InstrOk(p, ann, ann[pc], d.value.instr, d.value.next)
  }

  ghost predicate Verified(p: Program, ann: Annotation) {
    && (forall pc {:trigger PcOk(p, ann, pc)} :: pc in ann ==> PcOk(p, ann, pc))
    && (forall fn {:trigger EntryOk(p, ann, fn)} :: 0 <= fn < |p.funcs| ==> EntryOk(p, ann, fn))
    && p.entryFn < |p.funcs| && Supplies(p, ann, p.entryFn, 0)
    && p.funcs[p.entryFn].nlocals < LOCALS_MAX
  }

  /** The instruction at `pc` is the machine's own, not one of the scheduler's. */
  predicate PlainAt(p: Program, pc: nat) {
    var d := Decode(p.code, pc);
    d.Some? ==> !d.value.instr.Spawn? && !d.value.instr.Await?
  }

  /** The code has no SPAWN and no AWAIT. */
  ghost predicate Taskless(p: Program, ann: Annotation) {
    forall pc :: pc in ann ==> PlainAt(p, pc)
  }

  // ---- the shape of a state ----

  /** Handler number `k` of the frame at depth `fp`, whose operands start at `base`. */
  ghost predicate Owns(p: Program, ann: Annotation, h: Handler, a: Ann, fp: nat, base: int, k: nat)
    requires k < |a.tries|
  {
    && h.fp == fp && h.sp == base + a.tries[k]
    && SlotOk(p, a, h.slot)
    && h.catchPC in ann
    && var c := ann[h.catchPC];
       c.fn == a.fn && c.depth == a.tries[k] && c.tries == a.tries[..k]
  }

  ghost predicate OwnsAll(p: Program, ann: Annotation, own: seq<Handler>, a: Ann, fp: nat, base: int) {
    |own| == |a.tries| && forall k :: 0 <= k < |own| ==> Owns(p, ann, own[k], a, fp, base, k)
  }

  /**
   The frames, suspended at `pc` with `sp` operands on the stack, are as annotated: the
   top frame owns the last `tries` handlers and the last `depth` operands, and what is
   left belongs to the frames below, each waiting for one result at its return address.
   */
  ghost predicate Shape(p: Program, ann: Annotation, frames: seq<Frame>, pc: int, sp: int, handlers: seq<Handler>)
    decreases |frames|
  {
    && frames != [] && pc in ann
    && var a, top := ann[pc], Last(frames);
       var base, n := sp - a.depth, |handlers| - |a.tries|;
       && 0 <= base && 0 <= n
       && a.fn == top.fn && a.fn < |p.funcs| && |top.locals| == p.funcs[a.fn].nlocals
       && OwnsAll(p, ann, handlers[n..], a, |frames|, base)
       && if |frames| == 1 then base == 0 && n == 0 && top.retpc == -1
          else
            && 0 <= top.retpc && top.retpc in ann && Room(ann[top.retpc], 1)
            && Shape(p, ann, DropLast(frames), top.retpc, base + 1, handlers[..n])
  }

  ghost predicate WellShaped(p: Program, ann: Annotation, s: State) {
    Shape(p, ann, s.frames, s.pc, |s.stack|, s.handlers)
  }

  /** The callee of a CALLVALUE, if there is one, is supplied with what it needs. */
  ghost predicate CallValueOk(p: Program, ann: Annotation, s: State) {
    var d := Decode(p.code, s.pc);
    d.Some? && d.value.instr.CallValue? ==> ArityOk(p, ann, d.value.instr.argc, s)
  }

  ghost predicate ArityOk(p: Program, ann: Annotation, argc: nat, s: State) {
    argc < |s.stack| ==>
      var callee := s.stack[|s.stack| - argc - 1];
      callee.Func? ==> callee.fn < |p.funcs| && Supplies(p, ann, callee.fn, |callee.captured| + argc)
  }

  // ---- how the shape is kept ----

  /** Moving within the top frame: only operands of that frame, pc and locals' contents change. */
  lemma ShapeMove(p: Program, ann: Annotation, frames: seq<Frame>, frames': seq<Frame>, pc: int, pc': int, sp: int,
      handlers: seq<Handler>)
    requires Shape(p, ann, frames, pc, sp, handlers)
    requires frames' != [] && |frames'| == |frames| && DropLast(frames') == DropLast(frames)
    requires Last(frames').fn == Last(frames).fn && Last(frames').retpc == Last(frames).retpc
    requires |Last(frames').locals| == |Last(frames).locals|
    requires pc' in ann && ann[pc'].fn == ann[pc].fn && ann[pc'].tries == ann[pc].tries
    ensures Shape(p, ann, frames', pc', sp - ann[pc].depth + ann[pc'].depth, handlers)
  {
  }

  /** The innermost handler belongs to a live frame, and resuming at its catch target is well-shaped. */
  lemma {:induction false} CatchShape(p: Program, ann: Annotation, frames: seq<Frame>, pc: int, sp: int,
      handlers: seq<Handler>)
    requires Shape(p, ann, frames, pc, sp, handlers) && handlers != []
    ensures var h := Last(handlers);
            && 1 <= h.fp <= |frames| && h.sp <= sp - ann[pc].depth + Floor(ann[pc])
            && (h.slot != NO_SLOT ==> h.slot < |frames[h.fp - 1].locals|)
            && h.catchPC in ann
            && Shape(p, ann, frames[..h.fp], h.catchPC, h.sp, DropLast(handlers))
    decreases |frames|
  {
    var a, h := ann[pc], Last(handlers);
    var n := |handlers| - |a.tries|;
    if a.tries != [] {
      var own, k := handlers[n..], |a.tries| - 1;
      assert own[k] == h && Owns(p, ann, own[k], a, |frames|, sp - a.depth, k);
      assert frames[..h.fp] == frames;
      var below := DropLast(handlers);
      forall j | 0 <= j < k
        ensures Owns(p, ann, below[n..][j], ann[h.catchPC], |frames|, h.sp - a.tries[k], j)
      {
        assert own[j] == below[n..][j];
      }
      assert below[..n] == handlers[..n];
    } else {
      assert |frames| > 1;
      assert handlers[..n] == handlers;
      CatchShape(p, ann, DropLast(frames), Last(frames).retpc, sp - a.depth + 1, handlers);
      assert DropLast(frames)[..h.fp] == frames[..h.fp];
    }
  }

  /** Raising from a well-shaped state lands in a well-shaped state. */
  lemma RaiseKeepsShape(p: Program, ann: Annotation, s: State, v: Value, popped: nat)
    requires WellShaped(p, ann, s) && Room(ann[s.pc], popped) && popped <= |s.stack|
    requires s.handlers != []
    ensures var r := Raise(Drop(s, popped), v);
            r.Next? && WellShaped(p, ann, r.state) && |r.state.stack| == Last(s.handlers).sp
  {
    CatchShape(p, ann, s.frames, s.pc, |s.stack|, s.handlers);
    var h := Last(s.handlers);
    var frames := s.frames[..h.fp];
    assert Last(frames) == s.frames[h.fp - 1];
    if h.slot != NO_SLOT {
      ShapeMove(p, ann, frames, StoreLocal(frames, h.slot, v), h.catchPC, h.catchPC, h.sp, DropLast(s.handlers));
    }
  }

  /** A new frame that owns nothing yet, on top of frames whose next pc awaits its result. */
  lemma PushShape(p: Program, ann: Annotation, frames: seq<Frame>, callee: Frame, sp: int, handlers: seq<Handler>)
    requires callee.fn < |p.funcs| && EntryOk(p, ann, callee.fn)
    requires |callee.locals| == p.funcs[callee.fn].nlocals
    requires 0 <= callee.retpc && callee.retpc in ann && Room(ann[callee.retpc], 1)
    requires Shape(p, ann, frames, callee.retpc, sp + 1, handlers) && 0 <= sp
    ensures Shape(p, ann, frames + [callee], p.funcs[callee.fn].entry, sp, handlers)
  {
    var all := frames + [callee];
    assert DropLast(all) == frames && Last(all) == callee;
    assert handlers[..|handlers|] == handlers;
  }
}
