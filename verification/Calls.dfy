/**
 Calls nest: whatever a callee does, through calls, returns and exceptions it handles, and
 while other tasks run, its RET gives the caller back its operands, frames and handlers
 with exactly one value added.
 */
module Calls {
  import opened Common
  import opened Isa
  import opened Machine
  import opened Verifier
  import opened Soundness
  import opened OwnRuns

  // ---- Where the frames' operands and handlers start, from the bottom up ----

  function Waiting(ann: Annotation, pc: int): Ann {
    if pc in ann then ann[pc] else Ann(0, 0, [], {})
  }

  /** The stack depth at which frame `i` pushes its first operand. */
  function Base(ann: Annotation, frames: seq<Frame>, i: nat): int
    requires i < |frames|
  {
    if i == 0 then 0 else Base(ann, frames, i - 1) + Waiting(ann, frames[i].retpc).depth - 1
  }

  /** The handlers open below frame `i`. */
  function Open(ann: Annotation, frames: seq<Frame>, i: nat): nat
    requires i < |frames|
  {
    if i == 0 then 0 else Open(ann, frames, i - 1) + |Waiting(ann, frames[i].retpc).tries|
  }

  lemma {:induction false} BaseSame(ann: Annotation, a: seq<Frame>, b: seq<Frame>, i: nat)
    requires i < |a| && i < |b| && forall j :: 0 <= j <= i ==> a[j].retpc == b[j].retpc
    ensures Base(ann, a, i) == Base(ann, b, i) && Open(ann, a, i) == Open(ann, b, i)
  {
    if i > 0 {
      BaseSame(ann, a, b, i - 1);
    }
  }

  /** The shape determines both, and they grow with the frames. */
  lemma {:induction false} ShapeBases(p: Program, ann: Annotation, frames: seq<Frame>, pc: int, sp: int,
      handlers: seq<Handler>, i: nat)
    requires Verified(p, ann) && Shape(p, ann, frames, pc, sp, handlers) && i < |frames|
    ensures var top := |frames| - 1;
            && sp - ann[pc].depth == Base(ann, frames, top) && |handlers| - |ann[pc].tries| == Open(ann, frames, top)
            && 0 <= Base(ann, frames, i) <= Base(ann, frames, top) && Open(ann, frames, i) <= Open(ann, frames, top)
    decreases |frames|
  {
    var a, top := ann[pc], Last(frames);
    if |frames| > 1 {
      var lower := DropLast(frames);
      var base, n := sp - a.depth, |handlers| - |a.tries|;
      var j := if i < |lower| then i else |lower| - 1;
      ShapeBases(p, ann, lower, top.retpc, base + 1, handlers[..n], j);
      BaseSame(ann, lower, frames, |lower| - 1);
      BaseSame(ann, lower, frames, j);
      assert PcOk(p, ann, top.retpc);
    }
  }

  // ---- What one instruction leaves alone ----

  ghost predicate Agree<T>(a: seq<T>, n: nat, b: seq<T>) {
    forall i :: 0 <= i < n && i < |a| && i < |b| ==> a[i] == b[i]
  }

  ghost predicate SameReturns(a: seq<Frame>, b: seq<Frame>) {
    forall i :: 0 <= i < |a| && i < |b| ==> a[i].retpc == b[i].retpc
  }

  /** At most `pops` operands, the topmost common frame's locals, and the topmost handlers differ. */
  ghost predicate Local(t: State, u: State, pops: nat) {
    && pops <= |t.stack| && Agree(t.stack, |t.stack| - pops, u.stack)
    && Agree(t.handlers, |t.handlers|, u.handlers)
    && SameReturns(t.frames, u.frames) && t.frames != [] && u.frames != []
    && Agree(DropLast(t.frames), |t.frames|, DropLast(u.frames))
  }

  /** The operands each instruction takes off the stack. */
  function Taken(i: Instr): nat {
    match i
    case JumpIfFalse(_) => 1
    case JumpIfTrue(_) => 1
    case Call(_, argc) => argc
    case CallValue(argc) => argc + 1
    case Assert => 2
    case Throw => 1
    case Unwrap => 1
    case _ => Pops(i)
  }

  lemma RaiseLocal(s: State, pops: nat, v: Value, uncaught: string)
    requires pops <= |s.stack| && s.frames != []
    ensures var o := RaiseOr(Drop(s, pops), v, uncaught); o.Next? ==> Local(s, o.state, pops)
  {
    var o := RaiseOr(Drop(s, pops), v, uncaught);
    if o.Next? {
      var h := Last(s.handlers);
      var kept := s.frames[..h.fp];
      assert DropLast(kept) == DropLast(o.state.frames);
      assert Last(o.state.frames).retpc == Last(kept).retpc;
    }
  }

  lemma EnterLocal(p: Program, blank: Value, s: State, pops: nat, fn: nat, args: seq<Value>, next: nat)
    requires pops <= |s.stack| && s.frames != []
    ensures var o := Enter(p, blank, Drop(s, pops), fn, args, next); o.Next? ==> Local(s, o.state, pops)
  {
  }

  lemma StoreLocalLocal(s: State, slot: nat, v: Value, next: nat)
    requires s.frames != [] && s.stack != [] && slot < |Last(s.frames).locals|
    ensures Local(s, Drop(s, 1).(frames := StoreLocal(s.frames, slot, v), pc := next), 1)
  {
  }

  lemma RaisingLocal(p: Program, ops: Ops, blank: Value, s: State, i: Instr, next: nat)
    requires s.frames != [] && Taken(i) <= |s.stack| && (i.Throw? || i.Assert? || i.Unwrap?)
    ensures var o := Exec(p, ops, blank, i, next, s); o.Next? ==> Local(s, o.state, Taken(i))
  {
    hide RaiseOr;
    match i
    case Throw => RaiseLocal(s, 1, Last(s.stack), UNCAUGHT + ops.text(Last(s.stack), s.world));
    case Assert => RaiseLocal(s, 2, Str(AssertText(ops, s)), AssertText(ops, s));
    case Unwrap => RaiseLocal(s, 1, Str(UNWRAP_NULL), UNWRAP_NULL);
  }

  lemma CallingLocal(p: Program, ops: Ops, blank: Value, s: State, i: Instr, next: nat)
    requires s.frames != [] && Taken(i) <= |s.stack| && (i.Call? || i.CallValue? || i.Ret?)
    ensures var o := Exec(p, ops, blank, i, next, s); o.Next? && o.state.frames != [] ==> Local(s, o.state, Taken(i))
  {
    hide Enter;
    match i
    case Call(fn, argc) => EnterLocal(p, blank, s, argc, fn, Args(s, argc), next);
    case CallValue(argc) =>
      var f := s.stack[|s.stack| - argc - 1];
      if f.Func? {
        EnterLocal(p, blank, s, argc + 1, f.fn, f.captured + Args(s, argc), next);
      }
    case Ret =>
  }

  lemma StoringLocal(p: Program, ops: Ops, blank: Value, s: State, i: Instr, next: nat)
    requires s.frames != [] && Taken(i) <= |s.stack| && i.Store?
    ensures var o := Exec(p, ops, blank, i, next, s); o.Next? ==> Local(s, o.state, Taken(i))
  {
    hide Local, StoreLocal;
    if i.slot < |Last(s.frames).locals| {
      StoreLocalLocal(s, i.slot, Last(s.stack), next);
    }
  }

  lemma PrimLocal(p: Program, ops: Ops, blank: Value, s: State, i: Instr, next: nat)
    requires s.frames != [] && Taken(i) <= |s.stack| && (i.Apply? || i.Effect?)
    ensures var o := Exec(p, ops, blank, i, next, s); o.Next? ==> Local(s, o.state, Taken(i))
  {
  }

  lemma JumpLocal(p: Program, ops: Ops, blank: Value, s: State, i: Instr, next: nat)
    requires s.frames != [] && Taken(i) <= |s.stack|
    requires i.Jump? || i.JumpIfFalse? || i.JumpIfTrue? || i.TryPush? || i.TryPop?
    ensures var o := Exec(p, ops, blank, i, next, s); o.Next? ==> Local(s, o.state, Taken(i))
  {
  }

  lemma StraightLocal(p: Program, ops: Ops, blank: Value, s: State, i: Instr, next: nat)
    requires s.frames != [] && Taken(i) <= |s.stack|
    requires i.Const? || i.PushTrue? || i.PushFalse? || i.PushNull? || i.Pop? || i.Load?
          || i.GetGlobal? || i.SetGlobal? || i.PushFn? || i.Closure? || i.Coalesce?
    ensures var o := Exec(p, ops, blank, i, next, s); o.Next? ==> Local(s, o.state, Taken(i))
  {
  }

  lemma TakenRoom(p: Program, ann: Annotation, s: State, i: Instr, next: nat)
    requires At(p, ann, s, i, next)
    ensures Room(ann[s.pc], Taken(i)) && Taken(i) <= |s.stack| && s.frames != []
  {
    assert PcOk(p, ann, s.pc);
    HasOperands(p, ann, s, Taken(i));
  }

  lemma ExecLocal(p: Program, ann: Annotation, ops: Ops, blank: Value, s: State, i: Instr, next: nat)
    requires At(p, ann, s, i, next)
    ensures Room(ann[s.pc], Taken(i))
    ensures var o := Exec(p, ops, blank, i, next, s); o.Next? && o.state.frames != [] ==> Local(s, o.state, Taken(i))
  {
    TakenRoom(p, ann, s, i, next);
    hide Shape, Verified, Local, At;
    if i.Call? || i.CallValue? || i.Ret? {
      CallingLocal(p, ops, blank, s, i, next);
    } else if i.Throw? || i.Assert? || i.Unwrap? {
      RaisingLocal(p, ops, blank, s, i, next);
    } else if i.Store? {
      StoringLocal(p, ops, blank, s, i, next);
    } else if i.Apply? || i.Effect? {
      PrimLocal(p, ops, blank, s, i, next);
    } else if i.Jump? || i.JumpIfFalse? || i.JumpIfTrue? || i.TryPush? || i.TryPop? {
      JumpLocal(p, ops, blank, s, i, next);
    } else if !i.Halt? && !i.Spawn? && !i.Await? {
      StraightLocal(p, ops, blank, s, i, next);
    }
  }

  // ---- From a call to its return ----

  /** What a callee finds: its caller's frames, operands and handlers, and where to return. */
  datatype Caller = Caller(frames: seq<Frame>, stack: seq<Value>, handlers: seq<Handler>, retpc: int)

  /** The caller is untouched below the callee, which may have called on. */
  ghost predicate Kept(ann: Annotation, c: Caller, t: State) {
    var f := |c.frames|;
    && |t.frames| > f && Agree(c.frames, f, t.frames) && t.frames[f].retpc == c.retpc
    && |c.stack| <= |t.stack| && Agree(c.stack, |c.stack|, t.stack)
    && |c.handlers| <= |t.handlers| && Agree(c.handlers, |c.handlers|, t.handlers)
    && Base(ann, t.frames, f) == |c.stack| && Open(ann, t.frames, f) == |c.handlers|
  }

  lemma LocalKeeps(p: Program, ann: Annotation, c: Caller, t: State, u: State, pops: nat)
    requires Verified(p, ann) && WellShaped(p, ann, t) && WellShaped(p, ann, u)
    requires Kept(ann, c, t) && Local(t, u, pops) && Room(ann[t.pc], pops) && |u.frames| > |c.frames|
    ensures Kept(ann, c, u)
  {
    var f := |c.frames|;
    ShapeBases(p, ann, t.frames, t.pc, |t.stack|, t.handlers, f);
    ShapeBases(p, ann, u.frames, u.pc, |u.stack|, u.handlers, f);
    assert PcOk(p, ann, t.pc) && PcOk(p, ann, u.pc);
    hide Shape, Verified, Base, Open;
    BaseSame(ann, t.frames, u.frames, f);
    forall i | 0 <= i < f ensures u.frames[i] == c.frames[i] {
      assert DropLast(t.frames)[i] == DropLast(u.frames)[i];
    }
  }

  lemma ReplacedLocal(p: Program, s: State, t: State)
    requires Replaced(p, s, t) && s.frames != []
    ensures Local(s, t, 1)
  {
  }

  /** A turn of the callee, or of one of its own callees. */
  lemma OnwardKept(p: Program, ann: Annotation, ops: Ops, blank: Value, c: Caller, t: State, u: State)
    requires Verified(p, ann) && WellShaped(p, ann, t) && Onward(p, ann, ops, blank, t, u) && Kept(ann, c, t)
    ensures WellShaped(p, ann, u)
    ensures |u.frames| > |c.frames| ==> Kept(ann, c, u)
  {
    OnwardShaped(p, ann, ops, blank, t, u);
    if |u.frames| > |c.frames| && !SameOwn(t, u) {
      var pops := OnwardLocal(p, ann, ops, blank, t, u);
      hide Shape, Verified, Onward, Local, Kept;
      LocalKeeps(p, ann, c, t, u, pops);
    }
  }

  lemma OnwardLocal(p: Program, ann: Annotation, ops: Ops, blank: Value, t: State, u: State) returns (pops: nat)
    requires Verified(p, ann) && WellShaped(p, ann, t) && u.frames != []
    requires Onward(p, ann, ops, blank, t, u) && !SameOwn(t, u)
    ensures Local(t, u, pops) && Room(ann[t.pc], pops)
  {
    assert PcOk(p, ann, t.pc);
    var d := Decode(p.code, t.pc).value;
    if Replaced(p, t, u) {
      pops := 1;
      ReplacedShaped(p, ann, t, u);
      ReplacedLocal(p, t, u);
    } else {
      pops := Taken(d.instr);
      ExecLocal(p, ann, ops, blank, t, d.instr, d.next);
      hide Shape, Verified, Exec, Decode;
      assert Exec(p, ops, blank, d.instr, d.next, t) == Step(p, ops, blank, t);
    }
  }

  /** The callee, or what it calls, is running from state 1 to state `n`. */
  ghost predicate Deeper(tr: seq<State>, n: nat, f: nat)
    requires n < |tr|
  {
    forall m :: 1 <= m <= n ==> |tr[m].frames| > f
  }

  lemma {:induction false} RunKept(p: Program, ann: Annotation, ops: Ops, blank: Value, c: Caller,
      tr: seq<State>, n: nat)
    requires Verified(p, ann) && OwnRun(p, ann, ops, blank, tr) && 1 <= n < |tr|
    requires Kept(ann, c, tr[1]) && Deeper(tr, n, |c.frames|)
    ensures Kept(ann, c, tr[n]) && WellShaped(p, ann, tr[n])
    decreases n
  {
    hide Onward, Shape, Verified, Kept;
    OwnRunShaped(p, ann, ops, blank, tr, n);
    if n > 1 {
      RunKept(p, ann, ops, blank, c, tr, n - 1);
      assert Onward(p, ann, ops, blank, tr[n - 1], tr[n]);
      OnwardKept(p, ann, ops, blank, c, tr[n - 1], tr[n]);
    }
  }

  lemma EnterPushes(p: Program, blank: Value, s: State, fn: nat, args: seq<Value>, next: nat)
    ensures var o := Enter(p, blank, s, fn, args, next);
            o.Next? ==>
              && fn < |p.funcs| && o.state.pc == p.funcs[fn].entry
              && |o.state.frames| == |s.frames| + 1 && DropLast(o.state.frames) == s.frames
              && Last(o.state.frames).retpc == next
              && o.state.stack == s.stack && o.state.handlers == s.handlers
  {
  }

  lemma CallPushes(p: Program, ops: Ops, blank: Value, s: State) returns (fn: nat)
    requires |s.stack| <= STACK_MAX - 4 && Step(p, ops, blank, s).Next?
    requires var d := Decode(p.code, s.pc);
             d.Some? && (d.value.instr.Call? || d.value.instr.CallValue?) && Taken(d.value.instr) <= |s.stack|
    ensures var d, t := Decode(p.code, s.pc).value, Step(p, ops, blank, s).state;
            && fn < |p.funcs| && t.pc == p.funcs[fn].entry
            && |t.frames| == |s.frames| + 1 && DropLast(t.frames) == s.frames && Last(t.frames).retpc == d.next
            && t.stack == s.stack[..|s.stack| - Taken(d.instr)] && t.handlers == s.handlers
  {
    hide Decode, Enter;
    var d := Decode(p.code, s.pc).value;
    if d.instr.Call? {
      fn := d.instr.fn;
      EnterPushes(p, blank, Drop(s, d.instr.argc), fn, Args(s, d.instr.argc), d.next);
    } else {
      var f := s.stack[|s.stack| - d.instr.argc - 1];
      fn := f.fn;
      EnterPushes(p, blank, Drop(s, d.instr.argc + 1), fn, f.captured + Args(s, d.instr.argc), d.next);
    }
  }

  /** A callee starts with no operand and no handler of its own. */
  lemma EntryBase(p: Program, ann: Annotation, t: State, fn: nat)
    requires Verified(p, ann) && WellShaped(p, ann, t) && fn < |p.funcs| && t.pc == p.funcs[fn].entry
    ensures t.frames != []
    ensures Base(ann, t.frames, |t.frames| - 1) == |t.stack| && Open(ann, t.frames, |t.frames| - 1) == |t.handlers|
  {
    assert EntryOk(p, ann, fn);
    ShapeBases(p, ann, t.frames, t.pc, |t.stack|, t.handlers, |t.frames| - 1);
  }

  lemma CallRoom(p: Program, ann: Annotation, s: State)
    requires Verified(p, ann) && WellShaped(p, ann, s)
    requires var d := Decode(p.code, s.pc); d.Some? && (d.value.instr.Call? || d.value.instr.CallValue?)
    ensures Taken(Decode(p.code, s.pc).value.instr) <= |s.stack|
    ensures s.frames != []
  {
    assert PcOk(p, ann, s.pc);
    var d := Decode(p.code, s.pc).value;
    TakenRoom(p, ann, s, d.instr, d.next);
  }

  /** The state a call leaves has the caller intact below it. */
  lemma CallKept(p: Program, ann: Annotation, ops: Ops, blank: Value, s: State)
    requires Verified(p, ann) && WellShaped(p, ann, s) && CallValueOk(p, ann, s)
    requires var d := Decode(p.code, s.pc); d.Some? && (d.value.instr.Call? || d.value.instr.CallValue?)
    requires Step(p, ops, blank, s).Next?
    ensures var d, t := Decode(p.code, s.pc).value, Step(p, ops, blank, s).state;
            && Taken(d.instr) <= |s.stack| && WellShaped(p, ann, t)
            && Kept(ann, Caller(s.frames, s.stack[..|s.stack| - Taken(d.instr)], s.handlers, d.next), t)
  {
    var d := Decode(p.code, s.pc).value;
    CallRoom(p, ann, s);
    SteppedPlain(p, ops, blank, s);
    StepSound(p, ann, ops, blank, s);
    var fn := CallPushes(p, ops, blank, s);
    hide Step, Shape, Verified, Base, Open, Decode;
    var t := Step(p, ops, blank, s).state;
    EntryBase(p, ann, t, fn);
    assert t.frames[|s.frames|] == Last(t.frames);
    forall i | 0 <= i < |s.frames| ensures t.frames[i] == s.frames[i] {
      assert DropLast(t.frames)[i] == t.frames[i];
    }
  }

  /** `s` executes a call whose callee is then on top in `t`. */
  ghost predicate Calling(p: Program, ann: Annotation, ops: Ops, blank: Value, s: State, t: State) {
    var d := Decode(p.code, s.pc);
    d.Some? && (d.value.instr.Call? || d.value.instr.CallValue?) && Stepped(p, ann, ops, blank, s, t)
  }

  /** `t` executes a RET. */
  ghost predicate Returning(p: Program, t: State) {
    var d := Decode(p.code, t.pc);
    d.Some? && d.value.instr.Ret? && |t.stack| <= STACK_MAX - 4
  }

  /** A run from a call to the RET that drops its callee's frame. */
  ghost predicate WholeCall(p: Program, ann: Annotation, ops: Ops, blank: Value, tr: seq<State>) {
    && |tr| >= 2
    && Calling(p, ann, ops, blank, tr[0], tr[1]) && Returning(p, Last(tr))
    && Deeper(tr, |tr| - 1, |tr[0].frames|) && |Last(tr).frames| == |tr[0].frames| + 1
  }

  /** The caller resumed behind its call in `s`, with one value more than below the arguments: the one on top in `t`. */
  ghost predicate Resumed(p: Program, s: State, t: State, u: State) {
    var d := Decode(p.code, s.pc);
    && d.Some? && t.stack != [] && Taken(d.value.instr) <= |s.stack|
    && u == t.(pc := d.value.next, frames := s.frames, handlers := s.handlers,
               stack := s.stack[..|s.stack| - Taken(d.value.instr)] + [Last(t.stack)])
  }

  /**
   A call nets one value. From the CALL or CALLVALUE at state 0, whatever the callee does
   up to the last state while it or its own callees run, and other tasks in between, the
   RET that drops its frame resumes the caller behind the call, with its frames and
   handlers as they were and its operands those below the arguments, plus the returned value.
   */
  lemma CallReturns(p: Program, ann: Annotation, ops: Ops, blank: Value, tr: seq<State>)
    requires Verified(p, ann) && OwnRun(p, ann, ops, blank, tr) && WholeCall(p, ann, ops, blank, tr)
    ensures var o := Step(p, ops, blank, Last(tr)); o.Next? && Resumed(p, tr[0], Last(tr), o.state)
  {
    var s := tr[0];
    var d := Decode(p.code, s.pc).value;
    CallKept(p, ann, ops, blank, s);
    var c := Caller(s.frames, s.stack[..|s.stack| - Taken(d.instr)], s.handlers, d.next);
    SameKept(ann, c, Step(p, ops, blank, s).state, tr[1]);
    hide Step, Verified, Shape, Onward, Kept;
    RunKept(p, ann, ops, blank, c, tr, |tr| - 1);
    ReturnRestores(p, ann, ops, blank, c, Last(tr));
  }

  lemma SameKept(ann: Annotation, c: Caller, s: State, t: State)
    requires Kept(ann, c, s) && SameOwn(s, t)
    ensures Kept(ann, c, t)
  {
  }

  lemma ReturnRestores(p: Program, ann: Annotation, ops: Ops, blank: Value, c: Caller, t: State)
    requires Verified(p, ann) && WellShaped(p, ann, t) && Kept(ann, c, t) && c.retpc >= 0
    requires |t.frames| == |c.frames| + 1 && Returning(p, t)
    ensures t.stack != []
    ensures Step(p, ops, blank, t) ==
              Next(t.(pc := c.retpc, frames := c.frames, handlers := c.handlers, stack := c.stack + [Last(t.stack)]))
  {
    assert PcOk(p, ann, t.pc);
    ShapeBases(p, ann, t.frames, t.pc, |t.stack|, t.handlers, |c.frames|);
    hide Shape, Verified, Base, Open;
    assert DropLast(t.frames) == c.frames;
    assert t.stack == c.stack + [Last(t.stack)];
    assert t.handlers == c.handlers;
  }
}
