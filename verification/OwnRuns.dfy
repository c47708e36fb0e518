/**
 The run of one thread of control as it sees it itself: its pc, operands, frames and
 handlers from one of its turns to the next. The run of a machine by itself is one, and so
 is the run of a task between any turns of the others, who may change what is shared.
 */
module OwnRuns {
  import opened Common
  import opened Isa
  import opened Machine
  import opened Verifier
  import opened Soundness

  /** The two states differ at most in what is shared: globals, closures created, containers and output. */
  ghost predicate SameOwn(s: State, t: State) {
    t.pc == s.pc && t.stack == s.stack && t.frames == s.frames && t.handlers == s.handlers
  }

  /** Instructions the scheduler may execute: SPAWN, AWAIT, and the native that sleeps. */
  predicate MayYield(i: Instr) {
    i.Spawn? || i.Await? || (i.Apply? && i.argc == 1)
  }

  /** One of these: the operand on top is replaced and control goes to the next instruction. */
  ghost predicate Replaced(p: Program, s: State, t: State) {
    var d := Decode(p.code, s.pc);
    && d.Some? && MayYield(d.value.instr)
    && s.stack != [] && t.stack != [] && DropLast(t.stack) == DropLast(s.stack)
    && t.pc == d.value.next && t.frames == s.frames && t.handlers == s.handlers
  }

  /** One instruction of the machine, a callee of CALLVALUE being supplied with what it needs. */
  ghost predicate Stepped(p: Program, ann: Annotation, ops: Ops, blank: Value, s: State, t: State) {
    var o := Step(p, ops, blank, s);
    o.Next? && CallValueOk(p, ann, s) && SameOwn(o.state, t)
  }

  ghost predicate Onward(p: Program, ann: Annotation, ops: Ops, blank: Value, s: State, t: State) {
    SameOwn(s, t) || Replaced(p, s, t) || Stepped(p, ann, ops, blank, s, t)
  }

  ghost predicate OwnRun(p: Program, ann: Annotation, ops: Ops, blank: Value, tr: seq<State>) {
    && tr != [] && WellShaped(p, ann, tr[0])
    && forall k :: 0 < k < |tr| ==> Onward(p, ann, ops, blank, tr[k - 1], tr[k])
  }

  lemma ReplacedShaped(p: Program, ann: Annotation, s: State, t: State)
    requires Verified(p, ann) && WellShaped(p, ann, s) && Replaced(p, s, t)
    ensures WellShaped(p, ann, t) && Room(ann[s.pc], 1)
  {
    assert PcOk(p, ann, s.pc);
    assert s.frames != [];
    hide Shape;
    ShapeMove(p, ann, s.frames, s.frames, s.pc, t.pc, |s.stack|, s.handlers);
  }

  lemma SteppedPlain(p: Program, ops: Ops, blank: Value, s: State)
    requires Step(p, ops, blank, s).Next?
    ensures PlainAt(p, s.pc)
  {
    if !PlainAt(p, s.pc) {
      TaskStuck(p, ops, blank, s);
    }
  }

  lemma OnwardShaped(p: Program, ann: Annotation, ops: Ops, blank: Value, s: State, t: State)
    requires Verified(p, ann) && WellShaped(p, ann, s) && Onward(p, ann, ops, blank, s, t)
    ensures WellShaped(p, ann, t)
  {
    hide Step, Verified, Replaced, Shape;
    if SameOwn(s, t) {
    } else if Replaced(p, s, t) {
      ReplacedShaped(p, ann, s, t);
    } else {
      SteppedPlain(p, ops, blank, s);
      StepSound(p, ann, ops, blank, s);
    }
  }

  /** Every state of such a run has the annotated shape. */
  lemma {:induction false} OwnRunShaped(p: Program, ann: Annotation, ops: Ops, blank: Value, tr: seq<State>, k: nat)
    requires Verified(p, ann) && OwnRun(p, ann, ops, blank, tr) && k < |tr|
    ensures WellShaped(p, ann, tr[k])
  {
    hide Onward, Verified, Shape;
    if k > 0 {
      OwnRunShaped(p, ann, ops, blank, tr, k - 1);
      assert Onward(p, ann, ops, blank, tr[k - 1], tr[k]);
      OnwardShaped(p, ann, ops, blank, tr[k - 1], tr[k]);
    }
  }

  /** The states of a machine's run by itself, up to `n` steps. */
  function StatesOf(p: Program, ops: Ops, blank: Value, s: State, n: nat): (tr: seq<State>)
    requires forall m: nat :: m <= n ==> Run(p, ops, blank, s, m).Next?
    ensures |tr| == n + 1 && forall m :: 0 <= m <= n ==> tr[m] == Run(p, ops, blank, s, m).state
  {
    seq(n + 1, m requires 0 <= m <= n => Run(p, ops, blank, s, m).state)
  }

  /** A machine's run is an own run. */
  lemma MachineOwnRun(p: Program, ann: Annotation, ops: Ops, blank: Value, s: State, n: nat)
    requires WellShaped(p, ann, s) && ArityRespected(p, ann, ops, blank, s, n)
    requires forall m: nat :: m <= n ==> Run(p, ops, blank, s, m).Next?
    ensures OwnRun(p, ann, ops, blank, StatesOf(p, ops, blank, s, n))
  {
    hide Step, Shape;
    var tr := StatesOf(p, ops, blank, s, n);
    forall k | 0 < k < |tr| ensures Onward(p, ann, ops, blank, tr[k - 1], tr[k]) {
      assert Run(p, ops, blank, s, k - 1).Next? && Run(p, ops, blank, s, k).Next?;
    }
  }
}
