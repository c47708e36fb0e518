/**
 The machine's runs as control runs: no instruction the machine executes touches an index
 outside the operand and locals arrays, and on annotated code that is every instruction.
 */
module ControlVerified {
  import opened Common
  import opened Isa
  import opened Machine
  import opened Control
  import Verifier
  import Soundness

  lemma {:induction false} FramesInside(frames: seq<Frame>, n: nat)
    requires 1 <= n <= |frames|
    ensures FramesOf(frames)[n - 1].base + FramesOf(frames)[n - 1].size <= LocalsUsed(frames)
    ensures FramesOf(frames)[n - 1].size == |frames[n - 1].locals|
  {
    if n < |frames| {
      FramesInside(DropLast(frames), n);
      assert FramesOf(frames)[n - 1] == FramesOf(DropLast(frames))[n - 1];
    }
  }

  /** What the control model needs of a state: handlers name a frame, and the locals fit. */
  ghost predicate Regular(s: State) {
    s.frames != [] && LocalsUsed(s.frames) <= LOCALS_MAX && NameFrames(HandlersOf(s.handlers))
  }

  lemma CatchFits(s: State, v: Value)
    requires Regular(s) && s.handlers != [] && Raise(s, v) != Stuck
    ensures SlotFits(FramesOf(s.frames), HandlersOf(s.handlers))
  {
    hide FramesOf, LocalsUsed;
    var h := Last(s.handlers);
    assert HandlersOf(s.handlers)[|s.handlers| - 1] == CatchOf(h);
    FramesInside(s.frames, h.fp);
    assert Last(s.frames[..h.fp]) == s.frames[h.fp - 1];
    assert Last(Unwound(FramesOf(s.frames), HandlersOf(s.handlers))) == FramesOf(s.frames)[h.fp - 1];
  }

  lemma RaiseInArrays(s: State, popped: nat, v: Value, msg: string)
    requires Regular(s) && popped <= |s.stack| && RaiseOr(Drop(s, popped), v, msg) != Stuck
    ensures SlotFits(FramesOf(s.frames), HandlersOf(s.handlers))
  {
    hide FramesOf, LocalsUsed, Raise, HandlersOf;
    var d := Drop(s, popped);
    assert d.handlers == s.handlers && d.frames == s.frames;
    if s.handlers != [] {
      CatchFits(d, v);
      assert ControlOf(d) == ControlOf(s).(sp := |s.stack| - popped);
    } else {
      NoHandlers(s);
    }
  }

  lemma NoHandlers(s: State)
    requires Regular(s) && s.handlers == []
    ensures SlotFits(FramesOf(s.frames), HandlersOf(s.handlers))
  {
  }

  lemma MachineOperands(p: Program, ops: Ops, blank: Value, i: Instr, next: nat, s: State)
    requires s.frames != [] && Exec(p, ops, blank, i, next, s) != Stuck
    ensures OperandsThere(p, i, ControlOf(s), ChoiceOf(ops, i, s))
  {
    hide FramesOf, LocalsUsed, RaiseOr, HandlersOf, LocalsFit, Enter;
  }

  lemma MachineRaises(p: Program, ops: Ops, blank: Value, i: Instr, next: nat, s: State)
    requires i.Throw? || i.Unwrap? || i.Assert?
    requires Regular(s) && Exec(p, ops, blank, i, next, s) != Stuck
    ensures SlotsThere(p, i, ControlOf(s), ChoiceOf(ops, i, s))
  {
    hide FramesOf, LocalsUsed, RaiseOr, SlotFits, HandlersOf;
    if i.Throw? {
      RaiseInArrays(s, 1, Last(s.stack), UNCAUGHT + ops.text(Last(s.stack), s.world));
    } else if i.Unwrap? {
      if Last(s.stack).Null? {
        RaiseInArrays(s, 1, Str(UNWRAP_NULL), UNWRAP_NULL);
      }
    } else if !ops.truthy(Last(s.stack), s.world) {
      RaiseInArrays(s, 2, Str(AssertText(ops, s)), AssertText(ops, s));
    }
  }

  lemma MachineSlots(p: Program, ops: Ops, blank: Value, i: Instr, next: nat, s: State)
    requires i.Load? || i.Store? || i.Call? || i.CallValue?
    requires Regular(s) && Exec(p, ops, blank, i, next, s) != Stuck
    ensures SlotsThere(p, i, ControlOf(s), ChoiceOf(ops, i, s))
  {
    hide FramesOf, LocalsUsed, HandlersOf;
    FramesInside(s.frames, |s.frames|);
    FramesOfPush(s.frames, Last(s.frames));
  }

  /** An instruction the machine executes touches only its arrays. */
  lemma MachineInArrays(p: Program, ops: Ops, blank: Value, i: Instr, next: nat, s: State)
    requires Regular(s) && Exec(p, ops, blank, i, next, s) != Stuck
    ensures InArrays(p, i, ControlOf(s), ChoiceOf(ops, i, s))
  {
    hide Exec, ControlOf, ChoiceOf, OperandsThere;
    MachineOperands(p, ops, blank, i, next, s);
    if i.Throw? || i.Unwrap? || i.Assert? {
      MachineRaises(p, ops, blank, i, next, s);
    } else if i.Load? || i.Store? || i.Call? || i.CallValue? {
      MachineSlots(p, ops, blank, i, next, s);
    }
  }

  /** Any run of the machine is a control run all of whose accesses are in range. */
  lemma {:induction false} RunControl(p: Program, ops: Ops, blank: Value, w: World, n: nat) returns (ks: seq<Choice>)
    requires Loaded(p) && Run(p, ops, blank, Initial(p, blank, w), n).Next?
    ensures |ks| == n && CtlRun(p, ks) == At(ControlOf(Run(p, ops, blank, Initial(p, blank, w), n).state))
    ensures Regular(Run(p, ops, blank, Initial(p, blank, w), n).state)
  {
    hide Exec, Decode, Flow, InArrays, FramesOf, HandlersOf;
    if n == 0 {
      ks := [];
      InitialControl(p, blank, w);
    } else {
      var ks0 := RunControl(p, ops, blank, w, n - 1);
      var s := Run(p, ops, blank, Initial(p, blank, w), n - 1).state;
      var f := Decode(p.code, s.pc).value;
      var t := Exec(p, ops, blank, f.instr, f.next, s).state;
      MachineInArrays(p, ops, blank, f.instr, f.next, s);
      MachineControl(p, ops, blank, f.instr, f.next, s, t);
      ks := ks0 + [ChoiceOf(ops, f.instr, s)];
      assert DropLast(ks) == ks0 && Last(ks) == ChoiceOf(ops, f.instr, s);
      assert CtlStep(p, ControlOf(s), Last(ks)) == At(ControlOf(t));
      assert CtlRun(p, ks) == At(ControlOf(t));
      BoundedRegular(|p.code|, t);
    }
  }

  lemma InitialControl(p: Program, blank: Value, w: World)
    requires Loaded(p)
    ensures ControlOf(Initial(p, blank, w)) == Start(p) && Regular(Initial(p, blank, w))
  {
    var s := Initial(p, blank, w);
    assert DropLast(s.frames) == [];
  }

  lemma BoundedRegular(codelen: nat, t: State)
    requires Bounded(codelen, ControlOf(t))
    ensures Regular(t)
  {
    hide FramesOf, LocalsUsed;
    FramesOfPush(t.frames, Last(t.frames));
  }

  /** On annotated code: every instruction of every run, the last one included. */
  lemma AnnotatedInArrays(p: Program, ann: Verifier.Annotation, ops: Ops, blank: Value, w: World, n: nat)
    requires Loaded(p) && Verifier.Verified(p, ann)
    requires Soundness.ArityRespected(p, ann, ops, blank, Initial(p, blank, w), n + 1)
    requires Run(p, ops, blank, Initial(p, blank, w), n).Next?
    ensures var s := Run(p, ops, blank, Initial(p, blank, w), n).state;
            && Regular(s)
            && (|s.stack| <= STACK_MAX - 4 ==>
                  && Decode(p.code, s.pc).Some?
                  && InArrays(p, Decode(p.code, s.pc).value.instr, ControlOf(s),
                      ChoiceOf(ops, Decode(p.code, s.pc).value.instr, s)))
  {
    hide Exec, Decode, InArrays, FramesOf, HandlersOf, Verifier.Verified, CtlRun;
    var ks := RunControl(p, ops, blank, w, n);
    Soundness.RunSound(p, ann, ops, blank, w, n);
    var s := Run(p, ops, blank, Initial(p, blank, w), n).state;
    if |s.stack| <= STACK_MAX - 4 {
      AnnotatedDecodes(p, ann, s);
      var f := Decode(p.code, s.pc).value;
      if Verifier.PlainAt(p, s.pc) {
        Soundness.StepSound(p, ann, ops, blank, s);
        MachineInArrays(p, ops, blank, f.instr, f.next, s);
      } else {
        TaskTouchesNothing(p, f.instr, s, ChoiceOf(ops, f.instr, s));
      }
    }
  }

  lemma AnnotatedDecodes(p: Program, ann: Verifier.Annotation, s: State)
    requires Verifier.Verified(p, ann) && s.pc in ann
    ensures Decode(p.code, s.pc).Some?
  {
    assert Verifier.PcOk(p, ann, s.pc);
  }

  /** The C engine refuses SPAWN and AWAIT before it takes any operand. */
  lemma TaskTouchesNothing(p: Program, i: Instr, s: State, k: Choice)
    requires Regular(s) && (i.Spawn? || i.Await?)
    ensures InArrays(p, i, ControlOf(s), k)
  {
  }
}
