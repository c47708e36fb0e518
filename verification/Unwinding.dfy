/**
 What an open handler protects. From its TRYPUSH to the raise it catches, through any
 calls, returns, nested handlers and turns of other tasks, nothing below it changes, so the
 catch block starts with exactly the operands, handlers and lower frames the TRYPUSH saw.
 */
module Unwinding {
  import opened Common
  import opened Isa
  import opened Machine
  import opened Verifier
  import opened Soundness
  import opened OwnRuns

  /** Operands below `h`, frames below its frame, and that frame's identity are the same. */
  ghost predicate SameBelow(h: Handler, s: State, t: State) {
    && h.sp <= |s.stack| && h.sp <= |t.stack| && s.stack[..h.sp] == t.stack[..h.sp]
    && 1 <= h.fp <= |s.frames| && h.fp <= |t.frames|
    && s.frames[..h.fp - 1] == t.frames[..h.fp - 1]
    && SameFrame(s.frames[h.fp - 1], t.frames[h.fp - 1])
  }

  ghost predicate SameFrame(f: Frame, g: Frame) {
    f.fn == g.fn && f.retpc == g.retpc && |f.locals| == |g.locals|
  }

  /** Every open handler lies below the operands the running frame may touch. */
  lemma {:induction false} HandlerBound(p: Program, ann: Annotation, frames: seq<Frame>, pc: int, sp: int,
      handlers: seq<Handler>, k: nat)
    requires Shape(p, ann, frames, pc, sp, handlers) && k < |handlers|
    requires Verified(p, ann)
    ensures handlers[k].sp <= sp - ann[pc].depth + Floor(ann[pc])
    ensures 1 <= handlers[k].fp <= |frames|
    ensures ann[pc].tries == [] ==> handlers[k].fp < |frames|
    decreases |frames|
  {
    assert PcOk(p, ann, pc);
    var a := ann[pc];
    var n := |handlers| - |a.tries|;
    if k >= n {
      var own := handlers[n..];
      assert own[k - n] == handlers[k];
      assert Owns(p, ann, own[k - n], a, |frames|, sp - a.depth, k - n);
    } else {
      LowerBound(p, ann, DropLast(frames), Last(frames).retpc, sp - a.depth + 1, handlers[..n], k);
    }
  }

  /** The same for a frame awaiting a result, whose own operands are one fewer. */
  lemma {:induction false} LowerBound(p: Program, ann: Annotation, frames: seq<Frame>, pc: int, sp: int,
      handlers: seq<Handler>, k: nat)
    requires Shape(p, ann, frames, pc, sp, handlers) && k < |handlers|
    requires Verified(p, ann) && Room(ann[pc], 1)
    ensures handlers[k].sp <= sp - 1
    ensures 1 <= handlers[k].fp <= |frames|
    decreases |frames|
  {
    assert PcOk(p, ann, pc);
    var a := ann[pc];
    var n := |handlers| - |a.tries|;
    if k >= n {
      var own := handlers[n..];
      assert own[k - n] == handlers[k];
      assert Owns(p, ann, own[k - n], a, |frames|, sp - a.depth, k - n);
    } else {
      LowerBound(p, ann, DropLast(frames), Last(frames).retpc, sp - a.depth + 1, handlers[..n], k);
    }
  }

  /** What a step from `s` to `t` leaves of the frames: at most the top frame's locals change. */
  ghost predicate SameFrames(s: seq<Frame>, t: seq<Frame>) {
    && s != [] && |s| == |t| && DropLast(s) == DropLast(t)
    && SameFrame(Last(s), Last(t))
  }

  lemma BelowInFrame(p: Program, ann: Annotation, s: State, t: State, k: nat, pops: nat)
    requires Verified(p, ann) && WellShaped(p, ann, s) && k < |s.handlers|
    requires Room(ann[s.pc], pops) && pops <= |s.stack|
    requires |s.stack| - pops <= |t.stack| && t.stack[..|s.stack| - pops] == s.stack[..|s.stack| - pops]
    requires SameFrames(s.frames, t.frames)
    ensures SameBelow(s.handlers[k], s, t)
  {
    HandlerBound(p, ann, s.frames, s.pc, |s.stack|, s.handlers, k);
    var h := s.handlers[k];
    assert s.stack[..|s.stack| - pops][..h.sp] == s.stack[..h.sp];
    assert t.stack[..|s.stack| - pops][..h.sp] == t.stack[..h.sp];
    assert s.frames[..h.fp - 1] == DropLast(s.frames)[..h.fp - 1];
    assert t.frames[..h.fp - 1] == DropLast(t.frames)[..h.fp - 1];
    if h.fp < |s.frames| {
      assert DropLast(s.frames)[h.fp - 1] == DropLast(t.frames)[h.fp - 1];
    }
  }

  lemma EnterBelow(p: Program, ann: Annotation, s: State, t: State, k: nat, pops: nat, callee: Frame)
    requires Verified(p, ann) && WellShaped(p, ann, s) && k < |s.handlers|
    requires Room(ann[s.pc], pops) && pops <= |s.stack|
    requires t.stack == s.stack[..|s.stack| - pops] && t.frames == s.frames + [callee]
    ensures SameBelow(s.handlers[k], s, t)
  {
    HandlerBound(p, ann, s.frames, s.pc, |s.stack|, s.handlers, k);
    var h := s.handlers[k];
    assert t.stack[..h.sp] == s.stack[..h.sp];
    assert t.frames[..h.fp - 1] == s.frames[..h.fp - 1];
  }

  lemma RetBelow(p: Program, ann: Annotation, s: State, k: nat)
    requires Verified(p, ann) && WellShaped(p, ann, s) && k < |s.handlers|
    requires ann[s.pc].depth == 1 && ann[s.pc].tries == []
    ensures DoRet(s).Next? ==> SameBelow(s.handlers[k], s, DoRet(s).state)
  {
    HandlerBound(p, ann, s.frames, s.pc, |s.stack|, s.handlers, k);
    if DoRet(s).Next? {
      var h, t := s.handlers[k], DoRet(s).state;
      assert t.frames[..h.fp - 1] == s.frames[..h.fp - 1];
    }
  }

  lemma CutBelow(s: State, t: State, inner: Handler, h: Handler, v: Value)
    requires h.sp <= inner.sp <= |s.stack| && 1 <= h.fp <= inner.fp <= |s.frames|
    requires inner.slot == NO_SLOT || inner.slot < |s.frames[inner.fp - 1].locals|
    requires t.stack == s.stack[..inner.sp] && t.frames == Caught(s.frames[..inner.fp], inner.slot, v)
    ensures SameBelow(h, s, t)
  {
    var kept := s.frames[..inner.fp];
    assert t.stack[..h.sp] == s.stack[..h.sp];
    assert t.frames[..h.fp - 1] == DropLast(t.frames)[..h.fp - 1];
    assert s.frames[..h.fp - 1] == DropLast(kept)[..h.fp - 1];
    if h.fp < inner.fp {
      assert t.frames[h.fp - 1] == DropLast(t.frames)[h.fp - 1];
    }
  }

  /** Unwinding to an inner handler leaves the outer ones what they protect. */
  lemma RaiseBelow(p: Program, ann: Annotation, s: State, pops: nat, v: Value, k: nat)
    requires Verified(p, ann) && WellShaped(p, ann, s) && Room(ann[s.pc], pops) && pops <= |s.stack|
    requires k + 1 < |s.handlers|
    ensures var r := Raise(Drop(s, pops), v);
            r.Next? && SameBelow(s.handlers[k], s, r.state) && r.state.handlers == DropLast(s.handlers)
  {
    var inner := Last(s.handlers);
    CatchShape(p, ann, s.frames, s.pc, |s.stack|, s.handlers);
    HandlerBound(p, ann, s.frames[..inner.fp], inner.catchPC, inner.sp, DropLast(s.handlers), k);
    assert PcOk(p, ann, inner.catchPC);
    RaiseKeepsShape(p, ann, s, v, pops);
    hide Shape, Verified;
    CutBelow(s, Raise(Drop(s, pops), v).state, inner, s.handlers[k], v);
  }

  /** What one instruction leaves alone, for every handler that stays open. */
  ghost predicate Protects(s: State, o: Outcome, k: nat) {
    k < |s.handlers| && o.Next? && k < |o.state.handlers| ==>
      && o.state.handlers[..k + 1] == s.handlers[..k + 1]
      && SameBelow(s.handlers[k], s, o.state)
  }

  lemma StraightProtects(p: Program, ann: Annotation, ops: Ops, blank: Value, s: State, i: Instr, next: nat, k: nat)
    requires At(p, ann, s, i, next)
    requires i.Const? || i.PushTrue? || i.PushFalse? || i.PushNull? || i.Pop? || i.Load? || i.Store?
          || i.GetGlobal? || i.SetGlobal? || i.PushFn? || i.Closure? || i.Coalesce?
          || i.TryPush? || i.TryPop?
    ensures Protects(s, Exec(p, ops, blank, i, next, s), k)
  {
    assert s.frames != [];
    assert PcOk(p, ann, s.pc);
    HasOperands(p, ann, s, Pops(i));
    hide Shape, Verified;
    var o := Exec(p, ops, blank, i, next, s);
    if k < |s.handlers| && o.Next? && k < |o.state.handlers| {
      BelowInFrame(p, ann, s, o.state, k, Pops(i));
    }
  }

  lemma PrimProtects(p: Program, ann: Annotation, ops: Ops, blank: Value, s: State, i: Instr, next: nat, k: nat)
    requires At(p, ann, s, i, next) && (i.Apply? || i.Effect?)
    ensures Protects(s, Exec(p, ops, blank, i, next, s), k)
  {
    assert s.frames != [];
    HasOperands(p, ann, s, Pops(i));
    hide Shape, Verified;
    var o := Exec(p, ops, blank, i, next, s);
    if k < |s.handlers| && o.Next? {
      BelowInFrame(p, ann, s, o.state, k, Pops(i));
    }
  }

  lemma JumpProtects(p: Program, ann: Annotation, ops: Ops, blank: Value, s: State, i: Instr, next: nat, k: nat)
    requires At(p, ann, s, i, next) && (i.Jump? || i.JumpIfFalse? || i.JumpIfTrue?)
    ensures Protects(s, Exec(p, ops, blank, i, next, s), k)
  {
    assert s.frames != [];
    assert PcOk(p, ann, s.pc);
    var pops := if i.Jump? then 0 else 1;
    HasOperands(p, ann, s, pops);
    hide Shape, Verified;
    var o := Exec(p, ops, blank, i, next, s);
    if k < |s.handlers| && o.Next? {
      BelowInFrame(p, ann, s, o.state, k, pops);
    }
  }

  lemma CallProtects(p: Program, ann: Annotation, ops: Ops, blank: Value, s: State, i: Instr, next: nat, k: nat)
    requires At(p, ann, s, i, next) && (i.Call? || i.CallValue?)
    ensures Protects(s, Exec(p, ops, blank, i, next, s), k)
  {
    var pops := if i.Call? then i.argc else i.argc + 1;
    HasOperands(p, ann, s, pops);
    hide Shape, Verified;
    var o := Exec(p, ops, blank, i, next, s);
    if k < |s.handlers| && o.Next? {
      EnterBelow(p, ann, s, o.state, k, pops, Last(o.state.frames));
    }
  }

  lemma RaiseOrProtects(p: Program, ann: Annotation, s: State, pops: nat, v: Value, uncaught: string, k: nat)
    requires Verified(p, ann) && WellShaped(p, ann, s) && Room(ann[s.pc], pops)
    ensures pops <= |s.stack| && Protects(s, RaiseOr(Drop(s, pops), v, uncaught), k)
  {
    HasOperands(p, ann, s, pops);
    hide Shape, Verified;
    if k + 1 < |s.handlers| {
      RaiseBelow(p, ann, s, pops, v, k);
    } else if s.handlers != [] {
      RaiseKeepsShape(p, ann, s, v, pops);
    }
  }

  /** The value the instruction at `s` raises and the operands it pops first, if it raises. */
  function Raising(ops: Ops, i: Instr, s: State): Option<(Value, nat)> {
    if s.stack == [] then None
    else if i.Throw? then Some((Last(s.stack), 1))
    else if i.Unwrap? && Last(s.stack).Null? then Some((Str(UNWRAP_NULL), 1))
    else if i.Assert? && |s.stack| >= 2 && !ops.truthy(Last(s.stack), s.world) then Some((Str(AssertText(ops, s)), 2))
    else None
  }

  lemma RaisingProtects(p: Program, ann: Annotation, ops: Ops, blank: Value, s: State, i: Instr, next: nat, k: nat)
    requires At(p, ann, s, i, next) && (i.Assert? || i.Throw? || i.Unwrap?)
    ensures Protects(s, Exec(p, ops, blank, i, next, s), k)
  {
    assert s.frames != [];
    var pops := if i.Assert? then 2 else 1;
    HasOperands(p, ann, s, pops);
    hide Shape, Verified;
    var o := Exec(p, ops, blank, i, next, s);
    if i.Throw? {
      RaiseOrProtects(p, ann, s, 1, Last(s.stack), UNCAUGHT + ops.text(Last(s.stack), s.world), k);
    } else if i.Assert? && !ops.truthy(Last(s.stack), s.world) {
      RaiseOrProtects(p, ann, s, 2, Str(AssertText(ops, s)), AssertText(ops, s), k);
    } else if i.Unwrap? && Last(s.stack).Null? {
      RaiseOrProtects(p, ann, s, 1, Str(UNWRAP_NULL), UNWRAP_NULL, k);
    } else if k < |s.handlers| {
      BelowInFrame(p, ann, s, o.state, k, pops);
    }
  }

  /** One step changes nothing below a handler that is still open after it. */
  lemma StepProtects(p: Program, ann: Annotation, ops: Ops, blank: Value, s: State, k: nat)
    requires Verified(p, ann) && WellShaped(p, ann, s)
    ensures Protects(s, Step(p, ops, blank, s), k)
  {
    assert PcOk(p, ann, s.pc);
    var d := Decode(p.code, s.pc).value;
    var i := d.instr;
    if i.Jump? || i.JumpIfFalse? || i.JumpIfTrue? {
      JumpProtects(p, ann, ops, blank, s, i, d.next, k);
    } else if i.Call? || i.CallValue? {
      CallProtects(p, ann, ops, blank, s, i, d.next, k);
    } else if i.Ret? {
      if k < |s.handlers| {
        RetBelow(p, ann, s, k);
      }
    } else if i.Assert? || i.Throw? || i.Unwrap? {
      RaisingProtects(p, ann, ops, blank, s, i, d.next, k);
    } else if i.Apply? || i.Effect? {
      PrimProtects(p, ann, ops, blank, s, i, d.next, k);
    } else if !i.Halt? && !i.Spawn? && !i.Await? {
      StraightProtects(p, ann, ops, blank, s, i, d.next, k);
    }
  }

  lemma ReplacedProtects(p: Program, ann: Annotation, s: State, t: State, k: nat)
    requires Verified(p, ann) && WellShaped(p, ann, s) && Replaced(p, s, t)
    ensures Protects(s, Next(t), k)
  {
    ReplacedShaped(p, ann, s, t);
    assert s.frames != [];
    if k < |s.handlers| {
      BelowInFrame(p, ann, s, t, k, 1);
    }
  }

  lemma OnwardProtects(p: Program, ann: Annotation, ops: Ops, blank: Value, s: State, t: State, k: nat)
    requires Verified(p, ann) && WellShaped(p, ann, s) && Onward(p, ann, ops, blank, s, t)
    ensures Protects(s, Next(t), k)
  {
    hide Step, Verified, Replaced, Shape;
    if SameOwn(s, t) {
      if k < |s.handlers| {
        OpenNow(p, ann, s, k);
      }
    } else if Replaced(p, s, t) {
      ReplacedProtects(p, ann, s, t, k);
    } else {
      StepProtects(p, ann, ops, blank, s, k);
    }
  }

  /** Handler number `k` is open from state 1 to state `n`. */
  ghost predicate StaysOpen(tr: seq<State>, n: nat, k: nat)
    requires n < |tr|
  {
    forall m :: 1 <= m <= n ==> k < |tr[m].handlers|
  }

  lemma {:induction false} RunProtects(p: Program, ann: Annotation, ops: Ops, blank: Value, tr: seq<State>, n: nat,
      k: nat)
    requires Verified(p, ann) && OwnRun(p, ann, ops, blank, tr) && 1 <= n < |tr| && StaysOpen(tr, n, k)
    ensures WellShaped(p, ann, tr[n])
    ensures k < |tr[1].handlers| && tr[n].handlers[..k + 1] == tr[1].handlers[..k + 1]
    ensures SameBelow(tr[1].handlers[k], tr[1], tr[n])
    decreases n
  {
    hide Onward, Shape, Verified;
    OwnRunShaped(p, ann, ops, blank, tr, n);
    if n == 1 {
      OpenNow(p, ann, tr[1], k);
    } else {
      RunProtects(p, ann, ops, blank, tr, n - 1, k);
      var s, t, u := tr[1], tr[n - 1], tr[n];
      assert Onward(p, ann, ops, blank, t, u);
      OnwardProtects(p, ann, ops, blank, t, u, k);
      assert s.handlers[k] == s.handlers[..k + 1][k] == t.handlers[..k + 1][k];
      BelowTrans(s.handlers[k], s, t, u);
    }
  }

  lemma OpenNow(p: Program, ann: Annotation, s: State, k: nat)
    requires Verified(p, ann) && WellShaped(p, ann, s) && k < |s.handlers|
    ensures SameBelow(s.handlers[k], s, s)
  {
    HandlerBound(p, ann, s.frames, s.pc, |s.stack|, s.handlers, k);
    assert PcOk(p, ann, s.pc);
  }

  lemma BelowTrans(h: Handler, s: State, t: State, u: State)
    requires SameBelow(h, s, t) && SameBelow(h, t, u)
    ensures SameBelow(h, s, u)
  {
  }

  /** `s` executes a TRYPUSH. */
  ghost predicate Opening(p: Program, ann: Annotation, ops: Ops, blank: Value, s: State, t: State) {
    var d := Decode(p.code, s.pc);
    d.Some? && d.value.instr.TryPush? && Stepped(p, ann, ops, blank, s, t)
  }

  /** `t` executes an instruction that raises. */
  ghost predicate Raises(p: Program, ops: Ops, t: State) {
    var d := Decode(p.code, t.pc);
    d.Some? && Raising(ops, d.value.instr, t).Some? && |t.stack| <= STACK_MAX - 4
  }

  /** A run from a TRYPUSH to an instruction that raises to its handler. */
  ghost predicate WholeTry(p: Program, ann: Annotation, ops: Ops, blank: Value, tr: seq<State>) {
    && |tr| >= 2
    && Opening(p, ann, ops, blank, tr[0], tr[1]) && Raises(p, ops, Last(tr))
    && StaysOpen(tr, |tr| - 1, |tr[0].handlers|) && |Last(tr).handlers| == |tr[0].handlers| + 1
  }

  /** The catch block of the TRYPUSH in `s`, with what `t` raises in the catch slot and else the locals of `t`. */
  ghost predicate Catching(p: Program, ops: Ops, s: State, t: State, u: State) {
    var d, e := Decode(p.code, s.pc), Decode(p.code, t.pc);
    && d.Some? && d.value.instr.TryPush? && e.Some? && Raising(ops, e.value.instr, t).Some?
    && u.pc == d.value.next + d.value.instr.rel && u.stack == s.stack && u.handlers == s.handlers
    && |s.frames| <= |t.frames| && SameFrames(s.frames, u.frames)
    && Last(u.frames).locals ==
         var locals, v := t.frames[|s.frames| - 1].locals, Raising(ops, e.value.instr, t).value.0;
         if d.value.instr.slot == NO_SLOT then locals else SetSlot(locals, d.value.instr.slot, v)
  }

  /**
   Exception unwinding. State 0 executes a TRYPUSH; its handler stays open, through calls,
   returns, other handlers and turns of other tasks, up to the last state, `t`, whose
   instruction raises `v` to it. The catch block then starts at the handler's target with
   the operand stack, the handlers and the frames of state 0, except that in the catching
   frame the locals are those of `t`, with `v` written to the catch slot when there is one.
   */
  lemma TryCatch(p: Program, ann: Annotation, ops: Ops, blank: Value, tr: seq<State>)
    requires Verified(p, ann) && OwnRun(p, ann, ops, blank, tr) && WholeTry(p, ann, ops, blank, tr)
    ensures var o := Step(p, ops, blank, Last(tr)); o.Next? && Catching(p, ops, tr[0], Last(tr), o.state)
  {
    var h := TryHeld(p, ann, ops, blank, tr);
    hide Shape, Verified, Decode, Step, SameBelow, OwnRun, SetSlot;
    RaisingCaught(p, ann, ops, blank, tr[0], Last(tr), h);
  }

  /** `h` is the handler that the TRYPUSH in `s` records. */
  ghost predicate Records(p: Program, s: State, h: Handler) {
    var d := Decode(p.code, s.pc);
    && d.Some? && d.value.instr.TryPush? && d.value.next + d.value.instr.rel >= 0 && s.frames != []
    && h == Handler(d.value.next + d.value.instr.rel, |s.stack|, |s.frames|, d.value.instr.slot)
  }

  /** At the raise the handler of the TRYPUSH is the last one, and everything below it is intact. */
  lemma TryHeld(p: Program, ann: Annotation, ops: Ops, blank: Value, tr: seq<State>) returns (h: Handler)
    requires Verified(p, ann) && OwnRun(p, ann, ops, blank, tr) && WholeTry(p, ann, ops, blank, tr)
    ensures Records(p, tr[0], h) && WellShaped(p, ann, Last(tr))
    ensures Last(tr).handlers == tr[0].handlers + [h] && SameBelow(h, tr[0], Last(tr))
  {
    hide Shape, Onward, Verified, Step, Decode, Raising, Opening, Records, Raises;
    var s, s1, t, k := tr[0], tr[1], Last(tr), |tr[0].handlers|;
    h := Opened(p, ann, ops, blank, s, s1);
    RunProtects(p, ann, ops, blank, tr, |tr| - 1, k);
    assert t.handlers == t.handlers[..k + 1];
  }

  /** What a TRYPUSH leaves. */
  lemma Opened(p: Program, ann: Annotation, ops: Ops, blank: Value, s: State, t: State) returns (h: Handler)
    requires Verified(p, ann) && WellShaped(p, ann, s) && Opening(p, ann, ops, blank, s, t)
    ensures Records(p, s, h) && t.stack == s.stack && t.frames == s.frames && t.handlers == s.handlers + [h]
  {
    hide Shape, Verified, Decode, Exec;
    TryOpens(p, ann, ops, blank, s);
    h := Last(t.handlers);
  }

  lemma RaisingCaught(p: Program, ann: Annotation, ops: Ops, blank: Value, s: State, t: State, h: Handler)
    requires Verified(p, ann) && WellShaped(p, ann, t) && Raises(p, ops, t)
    requires Records(p, s, h) && t.handlers == s.handlers + [h] && SameBelow(h, s, t)
    ensures var o := Step(p, ops, blank, t); o.Next? && Catching(p, ops, s, t, o.state)
  {
    hide Shape, Verified, Decode, Exec, SetSlot, SameBelow, Raise, RaiseOr, SameFrames, At;
    var f := Decode(p.code, t.pc).value;
    var raised := Raising(ops, f.instr, t).value;
    RaisingAt(p, ann, ops, t);
    RaisesTo(p, ann, ops, blank, t, f.instr, f.next);
    CaughtState(s, t, h, raised.1, raised.0);
  }

  lemma RaisingAt(p: Program, ann: Annotation, ops: Ops, t: State)
    requires Verified(p, ann) && WellShaped(p, ann, t) && Raises(p, ops, t)
    ensures var e := Decode(p.code, t.pc).value; At(p, ann, t, e.instr, e.next)
  {
    assert PcOk(p, ann, t.pc);
  }

  lemma TryOpens(p: Program, ann: Annotation, ops: Ops, blank: Value, s: State)
    requires Verified(p, ann) && WellShaped(p, ann, s)
    requires Decode(p.code, s.pc).Some? && Decode(p.code, s.pc).value.instr.TryPush?
    requires Step(p, ops, blank, s).Next?
    ensures var d, t := Decode(p.code, s.pc).value, Step(p, ops, blank, s).state;
            && d.next + d.instr.rel >= 0 && WellShaped(p, ann, t) && s.frames != []
            && t == s.(pc := d.next, handlers := s.handlers +
                [Handler(d.next + d.instr.rel, |s.stack|, |s.frames|, d.instr.slot)])
  {
    assert PcOk(p, ann, s.pc);
    var d := Decode(p.code, s.pc).value;
    TryPushSound(p, ann, ops, blank, s, d.instr, d.next);
  }

  /** The state a raise from `t` leaves, when `h` was opened by `s` and everything below it is intact. */
  lemma CaughtState(s: State, t: State, h: Handler, pops: nat, v: Value)
    requires s.frames != [] && h.sp == |s.stack| && h.fp == |s.frames|
    requires t.handlers == s.handlers + [h] && SameBelow(h, s, t)
    requires h.sp + pops <= |t.stack|
    requires h.slot == NO_SLOT || h.slot < |t.frames[h.fp - 1].locals|
    ensures var r := Raise(Drop(t, pops), v);
            && r.Next? && r.state.pc == h.catchPC
            && r.state.stack == s.stack && r.state.handlers == s.handlers
            && SameFrames(s.frames, r.state.frames)
            && Last(r.state.frames).locals ==
                 var locals := t.frames[|s.frames| - 1].locals;
                 if h.slot == NO_SLOT then locals else SetSlot(locals, h.slot, v)
  {
    assert t.stack[..h.sp] == s.stack[..h.sp] == s.stack;
    var kept := t.frames[..h.fp];
    assert DropLast(kept) == t.frames[..h.fp - 1] == DropLast(s.frames);
    assert Last(kept) == t.frames[h.fp - 1];
    assert Drop(t, pops).stack[..h.sp] == t.stack[..h.sp];
  }

  /** A raising instruction is a RAISE after its operands are popped. */
  lemma RaisesTo(p: Program, ann: Annotation, ops: Ops, blank: Value, t: State, i: Instr, next: nat)
    requires At(p, ann, t, i, next) && t.handlers != [] && Raising(ops, i, t).Some?
    ensures var r := Raising(ops, i, t).value;
            && r.1 <= |t.stack|
            && Exec(p, ops, blank, i, next, t) == Raise(Drop(t, r.1), r.0)
            && Raise(Drop(t, r.1), r.0).Next?
            && Last(t.handlers).sp + r.1 <= |t.stack|
    ensures var h := Last(t.handlers);
            1 <= h.fp <= |t.frames| && (h.slot == NO_SLOT || h.slot < |t.frames[h.fp - 1].locals|)
  {
    var r := Raising(ops, i, t).value;
    assert Room(ann[t.pc], r.1);
    HasOperands(p, ann, t, r.1);
    hide Shape, Verified, InstrOk, Raise, RaiseOr;
    CatchShape(p, ann, t.frames, t.pc, |t.stack|, t.handlers);
    RaiseKeepsShape(p, ann, t, r.0, r.1);
  }
}
