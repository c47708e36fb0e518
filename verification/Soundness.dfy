/**
 Soundness of the verifier for a machine by itself: every state of every run of annotated
 code has the annotated shape, and only SPAWN and AWAIT, which are the scheduler's, can
 leave it stuck.
 */
module Soundness {
  import opened Common
  import opened Isa
  import opened Machine
  import opened Verifier

  /** What one instruction is proved to keep. */
  ghost predicate Keeps(p: Program, ann: Annotation, o: Outcome) {
    !o.Stuck? && (o.Next? ==> WellShaped(p, ann, o.state))
  }

  ghost predicate At(p: Program, ann: Annotation, s: State, i: Instr, next: nat) {
    Verified(p, ann) && WellShaped(p, ann, s) && InstrOk(p, ann, ann[s.pc], i, next)
  }

  /** The operands an instruction pops are there. */
  lemma HasOperands(p: Program, ann: Annotation, s: State, pops: nat)
    requires WellShaped(p, ann, s) && Room(ann[s.pc], pops)
    ensures pops <= |s.stack|
  {
  }

  lemma InCodeAt(p: Program, ann: Annotation, dest: int)
    requires Verified(p, ann) && dest in ann
    ensures InCode(p, dest)
  {
    assert PcOk(p, ann, dest);
  }

  /** Operands the straight-line instructions pop. */
  function Pops(i: Instr): nat {
    match i
    case Pop => 1
    case Store(_) => 1
    case SetGlobal(_) => 1
    case Apply(_, n) => n
    case Effect(_, n) => n
    case Closure(_, n) => n
    case Coalesce => 2
    case _ => 0
  }

  /** Instructions that stay in the frame: operands move, control goes to `next`. */
  lemma StraightSound(p: Program, ann: Annotation, ops: Ops, blank: Value, s: State, i: Instr, next: nat)
    requires At(p, ann, s, i, next)
    requires i.Const? || i.PushTrue? || i.PushFalse? || i.PushNull? || i.Pop? || i.Load?
          || i.GetGlobal? || i.SetGlobal? || i.PushFn? || i.Closure? || i.Coalesce?
    ensures Keeps(p, ann, Exec(p, ops, blank, i, next, s))
  {
    assert s.frames != [] && |Last(s.frames).locals| == p.funcs[ann[s.pc].fn].nlocals;
    HasOperands(p, ann, s, Pops(i));
    hide Shape;
    ShapeMove(p, ann, s.frames, s.frames, s.pc, next, |s.stack|, s.handlers);
  }

  lemma PrimSound(p: Program, ann: Annotation, ops: Ops, blank: Value, s: State, i: Instr, next: nat)
    requires At(p, ann, s, i, next) && (i.Apply? || i.Effect?)
    ensures Keeps(p, ann, Exec(p, ops, blank, i, next, s))
  {
    assert s.frames != [];
    HasOperands(p, ann, s, Pops(i));
    hide Shape;
    ShapeMove(p, ann, s.frames, s.frames, s.pc, next, |s.stack|, s.handlers);
  }

  lemma StoreSound(p: Program, ann: Annotation, ops: Ops, blank: Value, s: State, i: Instr, next: nat)
    requires At(p, ann, s, i, next) && i.Store?
    ensures Keeps(p, ann, Exec(p, ops, blank, i, next, s))
  {
    assert s.frames != [] && |Last(s.frames).locals| == p.funcs[ann[s.pc].fn].nlocals;
    HasOperands(p, ann, s, Pops(i));
    hide Shape;
    ShapeMove(p, ann, s.frames, StoreLocal(s.frames, i.slot, Last(s.stack)), s.pc, next, |s.stack|, s.handlers);
  }

  lemma JumpSound(p: Program, ann: Annotation, ops: Ops, blank: Value, s: State, i: Instr, next: nat)
    requires At(p, ann, s, i, next) && (i.Jump? || i.JumpIfFalse? || i.JumpIfTrue?)
    ensures Keeps(p, ann, Exec(p, ops, blank, i, next, s))
  {
    InCodeAt(p, ann, next + i.rel);
    assert s.frames != [];
    if !i.Jump? {
      HasOperands(p, ann, s, 1);
    }
    hide Shape;
    ShapeMove(p, ann, s.frames, s.frames, s.pc, next + i.rel, |s.stack|, s.handlers);
    if !i.Jump? {
      ShapeMove(p, ann, s.frames, s.frames, s.pc, next, |s.stack|, s.handlers);
    }
  }

  lemma EnterSound(p: Program, ann: Annotation, blank: Value, s: State, popped: nat, fn: nat, args: seq<Value>,
      next: nat)
    requires Verified(p, ann) && WellShaped(p, ann, s) && popped <= |s.stack|
    requires Moves(ann, ann[s.pc], popped, 1, next)
    requires fn < |p.funcs| && |args| <= p.funcs[fn].nlocals
    ensures Keeps(p, ann, Enter(p, blank, Drop(s, popped), fn, args, next))
  {
    assert EntryOk(p, ann, fn);
    var callee := Frame(next, Overlay(Fill(blank, p.funcs[fn].nlocals), args), fn);
    ShapeMove(p, ann, s.frames, s.frames, s.pc, next, |s.stack|, s.handlers);
    PushShape(p, ann, s.frames, callee, |s.stack| - popped, s.handlers);
  }

  lemma RetSound(p: Program, ann: Annotation, s: State)
    requires WellShaped(p, ann, s) && ann[s.pc].depth == 1 && ann[s.pc].tries == []
    ensures Keeps(p, ann, DoRet(s))
    // the callee leaves exactly its result above what its caller had
    ensures DoRet(s).Next? ==> |DoRet(s).state.stack| == |s.stack| && |DoRet(s).state.handlers| == |s.handlers|
    ensures DoRet(s).Returned? <==> |s.frames| == 1
  {
    assert s.handlers[..|s.handlers|] == s.handlers;
  }

  lemma CallSound(p: Program, ann: Annotation, ops: Ops, blank: Value, s: State, i: Instr, next: nat)
    requires At(p, ann, s, i, next) && (i.Call? || i.CallValue?)
    requires i.CallValue? ==> ArityOk(p, ann, i.argc, s)
    ensures Keeps(p, ann, Exec(p, ops, blank, i, next, s))
  {
    HasOperands(p, ann, s, if i.Call? then i.argc else i.argc + 1);
    if i.Call? {
      EnterSound(p, ann, blank, s, i.argc, i.fn, Args(s, i.argc), next);
    } else {
      var f := s.stack[|s.stack| - i.argc - 1];
      if f.Func? {
        EnterSound(p, ann, blank, s, i.argc + 1, f.fn, f.captured + Args(s, i.argc), next);
      }
    }
  }

  lemma TryPushSound(p: Program, ann: Annotation, ops: Ops, blank: Value, s: State, i: Instr, next: nat)
    requires At(p, ann, s, i, next) && i.TryPush?
    ensures Keeps(p, ann, Exec(p, ops, blank, i, next, s))
  {
    var a := ann[s.pc];
    var n, base := |s.handlers| - |a.tries|, |s.stack| - a.depth;
    var own := s.handlers[n..];
    InCodeAt(p, ann, next + i.rel);
    var h := Handler(next + i.rel, |s.stack|, |s.frames|, i.slot);
    var all := s.handlers + [h];
    assert all[n..] == own + [h] && all[..n] == s.handlers[..n];
    var b := ann[next];
    forall k | 0 <= k < |own| + 1
      ensures Owns(p, ann, (own + [h])[k], b, |s.frames|, base, k)
    {
      if k < |own| {
        assert Owns(p, ann, own[k], a, |s.frames|, base, k);
        assert b.tries[..k] == a.tries[..k];
      } else {
        assert b.tries[..k] == a.tries;
      }
    }
  }

  lemma TryPopSound(p: Program, ann: Annotation, ops: Ops, blank: Value, s: State, next: nat)
    requires At(p, ann, s, TryPop, next)
    ensures Keeps(p, ann, Exec(p, ops, blank, TryPop, next, s))
  {
    var a := ann[s.pc];
    var n, base := |s.handlers| - |a.tries|, |s.stack| - a.depth;
    var own := s.handlers[n..];
    var all, b := DropLast(s.handlers), ann[next];
    assert all[n..] == DropLast(own) && all[..n] == s.handlers[..n];
    forall k | 0 <= k < |own| - 1
      ensures Owns(p, ann, DropLast(own)[k], b, |s.frames|, base, k)
    {
      assert Owns(p, ann, own[k], a, |s.frames|, base, k);
      assert b.tries[..k] == a.tries[..k];
    }
  }

  lemma RaiseOrSound(p: Program, ann: Annotation, s: State, pops: nat, v: Value, uncaught: string)
    requires WellShaped(p, ann, s) && Room(ann[s.pc], pops)
    ensures pops <= |s.stack| && Keeps(p, ann, RaiseOr(Drop(s, pops), v, uncaught))
  {
    HasOperands(p, ann, s, pops);
    if s.handlers != [] {
      RaiseKeepsShape(p, ann, s, v, pops);
    }
  }

  lemma AssertSound(p: Program, ann: Annotation, ops: Ops, blank: Value, s: State, next: nat)
    requires At(p, ann, s, Instr.Assert, next)
    ensures Keeps(p, ann, Exec(p, ops, blank, Instr.Assert, next, s))
  {
    HasOperands(p, ann, s, 2);
    if ops.truthy(Last(s.stack), s.world) {
      ShapeMove(p, ann, s.frames, s.frames, s.pc, next, |s.stack|, s.handlers);
    } else {
      var msg := AssertText(ops, s);
      RaiseOrSound(p, ann, s, 2, Str(msg), msg);
    }
  }

  lemma ThrowSound(p: Program, ann: Annotation, ops: Ops, blank: Value, s: State, next: nat)
    requires At(p, ann, s, Throw, next)
    ensures Keeps(p, ann, Exec(p, ops, blank, Throw, next, s))
  {
    HasOperands(p, ann, s, 1);
    RaiseOrSound(p, ann, s, 1, Last(s.stack), UNCAUGHT + ops.text(Last(s.stack), s.world));
  }

  lemma UnwrapSound(p: Program, ann: Annotation, ops: Ops, blank: Value, s: State, next: nat)
    requires At(p, ann, s, Unwrap, next)
    ensures Keeps(p, ann, Exec(p, ops, blank, Unwrap, next, s))
  {
    HasOperands(p, ann, s, 1);
    if Last(s.stack).Null? {
      RaiseOrSound(p, ann, s, 1, Str(UNWRAP_NULL), UNWRAP_NULL);
    } else {
      ShapeMove(p, ann, s.frames, s.frames, s.pc, next, |s.stack|, s.handlers);
    }
  }

  /** One step of annotated code is never stuck and lands in a state of the annotated shape. */
  lemma StepSound(p: Program, ann: Annotation, ops: Ops, blank: Value, s: State)
    requires Verified(p, ann) && WellShaped(p, ann, s) && CallValueOk(p, ann, s) && PlainAt(p, s.pc)
    ensures Keeps(p, ann, Step(p, ops, blank, s))
  {
    assert PcOk(p, ann, s.pc);
    var d := Decode(p.code, s.pc).value;
    var i := d.instr;
    if i.Jump? || i.JumpIfFalse? || i.JumpIfTrue? {
      JumpSound(p, ann, ops, blank, s, i, d.next);
    } else if i.Call? || i.CallValue? {
      CallSound(p, ann, ops, blank, s, i, d.next);
    } else if i.Ret? {
      RetSound(p, ann, s);
    } else if i.TryPush? {
      TryPushSound(p, ann, ops, blank, s, i, d.next);
    } else if i.TryPop? {
      TryPopSound(p, ann, ops, blank, s, d.next);
    } else if i.Assert? {
      AssertSound(p, ann, ops, blank, s, d.next);
    } else if i.Throw? {
      ThrowSound(p, ann, ops, blank, s, d.next);
    } else if i.Unwrap? {
      UnwrapSound(p, ann, ops, blank, s, d.next);
    } else if i.Apply? || i.Effect? {
      PrimSound(p, ann, ops, blank, s, i, d.next);
    } else if i.Store? {
      StoreSound(p, ann, ops, blank, s, i, d.next);
    } else if !i.Halt? {
      StraightSound(p, ann, ops, blank, s, i, d.next);
    }
  }

  lemma InitialShape(p: Program, ann: Annotation, blank: Value, w: World)
    requires Verified(p, ann)
    ensures WellShaped(p, ann, Initial(p, blank, w))
  {
    assert EntryOk(p, ann, p.entryFn);
  }

  /** The callee of every CALLVALUE met in the first `n` steps is supplied with what it needs. */
  ghost predicate ArityRespected(p: Program, ann: Annotation, ops: Ops, blank: Value, s: State, n: nat) {
    forall m: nat :: m < n ==>
      var o := Run(p, ops, blank, s, m);
      o.Next? ==> CallValueOk(p, ann, o.state)
  }

  /**
   Stack discipline of the machine by itself: after any number of steps, a state it has
   reached has the annotated shape at its pc, and without SPAWN and AWAIT it is not stuck.
   TaskSoundness.dfy has the same of all tasks together.
   */
  lemma {:induction false} RunSound(p: Program, ann: Annotation, ops: Ops, blank: Value, w: World, n: nat)
    requires Verified(p, ann)
    requires ArityRespected(p, ann, ops, blank, Initial(p, blank, w), n)
    ensures var o := Run(p, ops, blank, Initial(p, blank, w), n);
            (o.Next? ==> WellShaped(p, ann, o.state)) && (Taskless(p, ann) ==> Keeps(p, ann, o))
    decreases n
  {
    hide Step;
    InitialShape(p, ann, blank, w);
    if n > 0 {
      RunSound(p, ann, ops, blank, w, n - 1);
      var o := Run(p, ops, blank, Initial(p, blank, w), n - 1);
      if o.Next? {
        if PlainAt(p, o.state.pc) {
          StepSound(p, ann, ops, blank, o.state);
        } else {
          TaskStuck(p, ops, blank, o.state);
        }
      }
    }
  }

  /** SPAWN and AWAIT are the scheduler's. */
  lemma TaskStuck(p: Program, ops: Ops, blank: Value, s: State)
    requires !PlainAt(p, s.pc)
    ensures !Step(p, ops, blank, s).Next?
  {
  }
}
