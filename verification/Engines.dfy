/** Both engines on the same program: the Go run and the C run, instruction by instruction. */
module Engines {
  import opened Common
  import opened Isa
  import opened Machine
  import opened Verifier
  import opened Soundness
  import opened Lockstep
  import GoEngine
  import CEngine

  /** The Go dispatch loop for at most `n` instructions of annotated code without tasks. */
  method RunGo(e: GoEngine.Engine, n: nat, ghost ann: Annotation, ghost w: World) returns (signal: Signal)
    requires e.Valid() && Verified(e.p, ann) && Taskless(e.p, ann) && e.Abs() == Initial(e.p, GO_BLANK, w)
    requires ArityRespected(e.p, ann, e.ops, GO_BLANK, Initial(e.p, GO_BLANK, w), n)
    modifies e, e.stack
    ensures e.stack == old(e.stack) || fresh(e.stack)
    ensures e.Meets(signal, Run(e.p, e.ops, GO_BLANK, Initial(e.p, GO_BLANK, w), n))
  {
    hide Shape, Initial, Step;
    ghost var s0 := Initial(e.p, GO_BLANK, w);
    signal := Continue;
    var i := 0;
    while i < n && signal == Continue
      invariant i <= n && (e.stack == old(e.stack) || fresh(e.stack))
      invariant signal == Continue ==> e.Meets(signal, Run(e.p, e.ops, GO_BLANK, s0, i))
      invariant signal != Continue ==> i > 0 && e.Meets(signal, Run(e.p, e.ops, GO_BLANK, s0, i))
      decreases n - i
    {
      RunSound(e.p, ann, e.ops, GO_BLANK, w, i + 1);
      signal := e.Step();
      i := i + 1;
    }
    StoppedRun(e.p, e.ops, GO_BLANK, s0, i, n);
  }

  /** The C dispatch loop for at most `n` instructions of the same code. */
  method RunC(e: CEngine.Engine, n: nat, ghost ann: Annotation, ghost w: World) returns (signal: Signal)
    requires e.Valid() && Verified(e.p, ann) && Taskless(e.p, ann) && e.Abs() == Initial(e.p, C_BLANK, w)
    requires ArityRespected(e.p, ann, e.ops, GO_BLANK, Initial(e.p, GO_BLANK, w), n)
    modifies e, e.stack, e.frames, e.handlers, e.locals
    ensures e.Meets(signal, Run(e.p, e.ops, C_BLANK, Initial(e.p, C_BLANK, w), n))
  {
    ghost var s0 := Initial(e.p, C_BLANK, w);
    signal := Continue;
    var i := 0;
    while i < n && signal == Continue
      invariant i <= n
      invariant e.Meets(signal, Run(e.p, e.ops, C_BLANK, s0, i))
      decreases n - i
    {
      RunTwin(e.p, ann, e.ops, w, i + 1);
      signal := e.Step();
      i := i + 1;
    }
    StoppedRun(e.p, e.ops, C_BLANK, s0, i, n);
  }

  /** A run that has stopped keeps its outcome. */
  lemma {:induction false} StoppedRun(p: Program, ops: Ops, blank: Value, s: State, i: nat, n: nat)
    requires i <= n && (i == n || !Run(p, ops, blank, s, i).Next?)
    ensures Run(p, ops, blank, s, n) == Run(p, ops, blank, s, i)
    decreases n
  {
    if i < n {
      StoppedRun(p, ops, blank, s, i, n - 1);
    }
  }

  /**
   The engines in lockstep: created for the same annotated program and run for `n`
   instructions, both are still going with the same pc, operands, handlers, globals and
   output and with equal locals wherever they may be read, or both have stopped with the
   same outcome and message.
   */
  method RunBoth(p: Program, ops: Ops, w: World, n: nat, ghost ann: Annotation)
    returns (go: GoEngine.Engine, c: CEngine.Engine, goSignal: Signal, cSignal: Signal)
    requires Verified(p, ann) && Taskless(p, ann)
    requires ArityRespected(p, ann, ops, GO_BLANK, Initial(p, GO_BLANK, w), n)
    ensures go.Valid() && c.Valid() && goSignal == cSignal
    ensures goSignal == Continue ==> Twin(ann, go.Abs(), c.Abs())
    ensures goSignal != Continue ==> goSignal.outcome == Run(p, ops, GO_BLANK, Initial(p, GO_BLANK, w), n)
  {
    assert EntryOk(p, ann, p.entryFn);
    RunTwin(p, ann, ops, w, n);
    hide Verified, Taskless, ArityRespected, AllAgree, Shape, Run, GoEngine.BasesOk, CEngine.Laid, Initial;
    go := new GoEngine.Engine(p, ops, w);
    goSignal := RunGo(go, n, ann, w);
    ghost var goState := go.Abs();
    c := new CEngine.Engine(p, ops, w);
    cSignal := RunC(c, n, ann, w);
    assert go.Valid() && go.Abs() == goState;
  }
}
