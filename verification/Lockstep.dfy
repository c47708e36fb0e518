/**
 The two engines run annotated code in lockstep although their fresh locals differ
 (int 0 in Go, null in C): after every number of steps they stand at the same pc with
 equal operand stacks, handlers, globals and output, their locals agree wherever the
 code may still read, and when one stops the other stops with the same message.
 */
module Lockstep {
  import opened Common
  import opened Isa
  import opened Machine
  import opened Verifier
  import opened Soundness

  /** The locals the catch block of `h` may read before assigning them are equal. */
  ghost predicate CatchAgrees(ann: Annotation, h: Handler, g: seq<Value>, c: seq<Value>) {
    && h.catchPC in ann && |g| == |c|
    && forall j :: 0 <= j < |g| && j in ann[h.catchPC].definite && (h.slot == NO_SLOT || j != h.slot) ==> g[j] == c[j]
  }

  /** The frame's own handlers are those numbered from `lo` to `hi`. */
  ghost predicate LocalsAgree(ann: Annotation, pc: int, handlers: seq<Handler>, lo: int, hi: int, g: seq<Value>,
      c: seq<Value>) {
    && pc in ann && |g| == |c|
    && (forall j :: 0 <= j < |g| && j in ann[pc].definite ==> g[j] == c[j])
    && (forall k :: 0 <= lo <= k < hi <= |handlers| ==> CatchAgrees(ann, handlers[k], g, c))
  }

  /** Agreement of the lowest `n` frames, of which the top one continues at `pc`, with the lowest `hi` handlers. */
  ghost predicate FramesAgree(ann: Annotation, g: seq<Frame>, c: seq<Frame>, n: nat, pc: int, handlers: seq<Handler>,
      hi: int) {
    && n <= |g| && n <= |c| && hi <= |handlers|
    && (n > 0 ==>
          && pc in ann && |ann[pc].tries| <= hi
          && g[n - 1].fn == c[n - 1].fn && g[n - 1].retpc == c[n - 1].retpc
          && LocalsAgree(ann, pc, handlers, hi - |ann[pc].tries|, hi, g[n - 1].locals, c[n - 1].locals)
          && (n > 1 ==> FramesAgree(ann, g, c, n - 1, g[n - 1].retpc, handlers, hi - |ann[pc].tries|)))
  }

  ghost predicate AllAgree(ann: Annotation, g: seq<Frame>, c: seq<Frame>, pc: int, handlers: seq<Handler>) {
    |g| == |c| && FramesAgree(ann, g, c, |g|, pc, handlers, |handlers|)
  }

  ghost predicate Twin(ann: Annotation, g: State, c: State) {
    && c == g.(frames := c.frames)
    && AllAgree(ann, g.frames, c.frames, g.pc, g.handlers)
  }

  ghost predicate TwinOutcome(ann: Annotation, g: Outcome, c: Outcome) {
    if g.Next? then c.Next? && Twin(ann, g.state, c.state) else g == c
  }

  /** Agreement of the lowest frames depends on nothing above them. */
  lemma {:induction false} AgreePrefix(ann: Annotation, g: seq<Frame>, c: seq<Frame>, g': seq<Frame>, c': seq<Frame>,
      n: nat, pc: int, handlers: seq<Handler>, handlers': seq<Handler>, hi: int)
    requires FramesAgree(ann, g, c, n, pc, handlers, hi)
    requires n <= |g'| && n <= |c'| && 0 <= hi <= |handlers'|
    requires forall i :: 0 <= i < n ==> g'[i] == g[i] && c'[i] == c[i]
    requires forall i :: 0 <= i < hi ==> handlers'[i] == handlers[i]
    ensures FramesAgree(ann, g', c', n, pc, handlers', hi)
    decreases n
  {
    if n > 0 {
      var lo := hi - |ann[pc].tries|;
      assert LocalsAgree(ann, pc, handlers', lo, hi, g[n - 1].locals, c[n - 1].locals);
      if n > 1 {
        AgreePrefix(ann, g, c, g', c', n - 1, g[n - 1].retpc, handlers, handlers', lo);
      }
    }
  }

  /** Agreement again after the top frame, its pc or its handlers have changed. */
  lemma AgreeTop(ann: Annotation, g: seq<Frame>, c: seq<Frame>, n: nat, pc: int, handlers: seq<Handler>, hi: int,
      g': seq<Frame>, c': seq<Frame>, pc': int, handlers': seq<Handler>, hi': int)
    requires 0 < n <= |g'| && n <= |c'| && FramesAgree(ann, g, c, n, pc, handlers, hi) && hi' <= |handlers'|
    requires forall i :: 0 <= i < n - 1 ==> g'[i] == g[i] && c'[i] == c[i]
    requires g'[n - 1].fn == c'[n - 1].fn && g'[n - 1].retpc == c'[n - 1].retpc == g[n - 1].retpc
    requires pc' in ann && hi' - |ann[pc'].tries| == hi - |ann[pc].tries|
    requires var lo := hi - |ann[pc].tries|;
             && (forall i :: 0 <= i < lo ==> handlers'[i] == handlers[i])
             && LocalsAgree(ann, pc', handlers', lo, hi', g'[n - 1].locals, c'[n - 1].locals)
    ensures FramesAgree(ann, g', c', n, pc', handlers', hi')
  {
    if n > 1 {
      AgreePrefix(ann, g, c, g', c', n - 1, g[n - 1].retpc, handlers, handlers', hi - |ann[pc].tries|);
    }
  }

  /** Continuing in the same frames at a pc that reads no more locals than before. */
  lemma AgreeMove(ann: Annotation, g: seq<Frame>, c: seq<Frame>, pc: int, pc': int, handlers: seq<Handler>)
    requires g != [] && AllAgree(ann, g, c, pc, handlers)
    requires pc' in ann && ann[pc'].tries == ann[pc].tries && ann[pc'].definite <= ann[pc].definite
    ensures AllAgree(ann, g, c, pc', handlers)
  {
  }

  /** Writing a local keeps what the catch blocks may rely on. */
  lemma WriteAgrees(ann: Annotation, handlers: seq<Handler>, lo: int, hi: int, pc: int, g: seq<Value>, c: seq<Value>,
      pc': int, hi': int, slot: nat, v: Value)
    requires LocalsAgree(ann, pc, handlers, lo, hi, g, c) && 0 <= lo <= hi' <= hi <= |handlers| && slot < |g|
    requires pc' in ann
    requires forall j :: 0 <= j < |g| && j in ann[pc'].definite && j != slot ==> g[j] == c[j]
    ensures LocalsAgree(ann, pc', handlers, lo, hi', g[slot := v], c[slot := v])
  {
    forall k | lo <= k < hi'
      ensures CatchAgrees(ann, handlers[k], g[slot := v], c[slot := v])
    {
      assert CatchAgrees(ann, handlers[k], g, c);
    }
  }

  lemma AgreeStore(ann: Annotation, g: seq<Frame>, c: seq<Frame>, pc: int, pc': int, handlers: seq<Handler>, slot: nat,
      v: Value)
    requires g != [] && AllAgree(ann, g, c, pc, handlers) && slot < |Last(g).locals|
    requires pc' in ann && ann[pc'].tries == ann[pc].tries && ann[pc'].definite <= ann[pc].definite + {slot}
    ensures |Last(c).locals| == |Last(g).locals|
    ensures AllAgree(ann, StoreLocal(g, slot, v), StoreLocal(c, slot, v), pc', handlers)
  {
    var n, hi := |g|, |handlers|;
    WriteAgrees(ann, handlers, hi - |ann[pc].tries|, hi, pc, g[n - 1].locals, c[n - 1].locals, pc', hi, slot, v);
    AgreeTop(ann, g, c, n, pc, handlers, hi, StoreLocal(g, slot, v), StoreLocal(c, slot, v), pc', handlers, hi);
  }

  /** The innermost of the lowest handlers, when the top one of the lowest frames owns it. */
  lemma OwnTop(p: Program, ann: Annotation, frames: seq<Frame>, pc: int, sp: int, handlers: seq<Handler>)
    requires Shape(p, ann, frames, pc, sp, handlers) && ann[pc].tries != []
    ensures handlers != []
    ensures var h := Last(handlers);
            && h.fp == |frames| && h.catchPC in ann && ann[h.catchPC].tries == DropLast(ann[pc].tries)
            && (h.slot == NO_SLOT || h.slot < |Last(frames).locals|)
  {
    var a := ann[pc];
    var own := handlers[|handlers| - |a.tries|..];
    assert Owns(p, ann, own[|own| - 1], a, |frames|, sp - a.depth, |own| - 1);
  }

  /** The frame below, when the top frame owns no handler. */
  lemma NoneOwned(p: Program, ann: Annotation, frames: seq<Frame>, pc: int, sp: int, handlers: seq<Handler>)
    requires Shape(p, ann, frames, pc, sp, handlers) && ann[pc].tries == [] && handlers != []
    ensures |frames| > 1 && Shape(p, ann, DropLast(frames), Last(frames).retpc, sp - ann[pc].depth + 1, handlers)
  {
    assert handlers[..|handlers|] == handlers;
  }

  lemma AgreeBelow(ann: Annotation, g: seq<Frame>, c: seq<Frame>, pc: int, handlers: seq<Handler>)
    requires |g| > 1 && AllAgree(ann, g, c, pc, handlers) && ann[pc].tries == []
    ensures AllAgree(ann, DropLast(g), DropLast(c), Last(g).retpc, handlers)
  {
    AgreePrefix(ann, g, c, DropLast(g), DropLast(c), |g| - 1, Last(g).retpc, handlers, handlers, |handlers|);
  }

  /** Unwinding to the innermost handler keeps agreement once the catch slot is written. */
  lemma {:induction false} AgreeCatch(p: Program, ann: Annotation, g: seq<Frame>, c: seq<Frame>, pc: int, sp: int,
      handlers: seq<Handler>, v: Value)
    requires Shape(p, ann, g, pc, sp, handlers) && AllAgree(ann, g, c, pc, handlers) && handlers != []
    ensures var h := Last(handlers);
            && 1 <= h.fp <= |g| == |c|
            && |g[h.fp - 1].locals| == |c[h.fp - 1].locals|
            && (h.slot == NO_SLOT || h.slot < |g[h.fp - 1].locals|)
            && AllAgree(ann, Caught(g[..h.fp], h.slot, v), Caught(c[..h.fp], h.slot, v), h.catchPC, DropLast(handlers))
    decreases |g|
  {
    var h := Last(handlers);
    assert g != [] && pc in ann;
    if ann[pc].tries != [] {
      OwnTop(p, ann, g, pc, sp, handlers);
      assert |c| == |g|;
      assert g[..h.fp] == g && c[..h.fp] == c;
      AgreeHere(ann, g, c, pc, handlers, v);
    } else {
      NoneOwned(p, ann, g, pc, sp, handlers);
      AgreeBelow(ann, g, c, pc, handlers);
      hide Shape, FramesAgree, AllAgree;
      AgreeCatch(p, ann, DropLast(g), DropLast(c), Last(g).retpc, sp - ann[pc].depth + 1, handlers, v);
      assert DropLast(g)[..h.fp] == g[..h.fp] && DropLast(c)[..h.fp] == c[..h.fp];
    }
  }

  /** The case of AgreeCatch in which the top frame owns the handler. */
  lemma AgreeHere(ann: Annotation, g: seq<Frame>, c: seq<Frame>, pc: int, handlers: seq<Handler>, v: Value)
    requires g != [] && AllAgree(ann, g, c, pc, handlers) && ann[pc].tries != []
    requires var h := Last(handlers);
             && h.catchPC in ann && ann[h.catchPC].tries == DropLast(ann[pc].tries)
             && (h.slot == NO_SLOT || h.slot < |Last(g).locals|)
    ensures |Last(g).locals| == |Last(c).locals|
    ensures var h := Last(handlers);
            AllAgree(ann, Caught(g, h.slot, v), Caught(c, h.slot, v), h.catchPC, DropLast(handlers))
  {
    var h, n, hi := Last(handlers), |g|, |handlers|;
    var lo := hi - |ann[pc].tries|;
    var gl, cl := g[n - 1].locals, c[n - 1].locals;
    assert CatchAgrees(ann, handlers[hi - 1], gl, cl);
    var below := DropLast(handlers);
    var g', c' := Caught(g, h.slot, v), Caught(c, h.slot, v);
    if h.slot != NO_SLOT {
      WriteAgrees(ann, handlers, lo, hi, pc, gl, cl, h.catchPC, hi - 1, h.slot, v);
    }
    OwnPrefix(ann, h.catchPC, handlers, below, lo, hi - 1, g'[n - 1].locals, c'[n - 1].locals);
    AgreeTop(ann, g, c, n, pc, handlers, hi, g', c', h.catchPC, below, hi - 1);
  }

  lemma OwnPrefix(ann: Annotation, pc: int, handlers: seq<Handler>, below: seq<Handler>, lo: int, hi: int,
      g: seq<Value>, c: seq<Value>)
    requires LocalsAgree(ann, pc, handlers, lo, hi, g, c) && 0 <= lo <= hi <= |below| <= |handlers|
    requires forall i :: 0 <= i < hi ==> below[i] == handlers[i]
    ensures LocalsAgree(ann, pc, below, lo, hi, g, c)
  {
  }

  /** Both states are reachable states of the same annotated code, about to execute `i`. */
  ghost predicate Pair(p: Program, ann: Annotation, g: State, c: State, i: Instr, next: nat) {
    && Twin(ann, g, c) && WellShaped(p, ann, g) && WellShaped(p, ann, c)
    && InstrOk(p, ann, ann[g.pc], i, next)
  }

  /** Instructions that leave the frames alone and continue at `next`. */
  lemma StraightTwin(p: Program, ann: Annotation, ops: Ops, bg: Value, bc: Value, g: State, c: State, i: Instr,
      next: nat)
    requires Pair(p, ann, g, c, i, next)
    requires i.Halt? || i.Const? || i.PushTrue? || i.PushFalse? || i.PushNull? || i.Pop?
          || i.GetGlobal? || i.SetGlobal? || i.PushFn? || i.Closure? || i.Coalesce? || i.Spawn? || i.Await?
    ensures TwinOutcome(ann, Exec(p, ops, bg, i, next, g), Exec(p, ops, bc, i, next, c))
  {
    assert g.frames != [] && g.pc in ann;
    hide AllAgree, Shape;
    if !i.Halt? && !i.Spawn? && !i.Await? {
      AgreeMove(ann, g.frames, c.frames, g.pc, next, g.handlers);
    }
  }

  /** LOAD reads only assigned locals, so both engines push the same value. */
  lemma LoadTwin(p: Program, ann: Annotation, ops: Ops, bg: Value, bc: Value, g: State, c: State, i: Instr, next: nat)
    requires Pair(p, ann, g, c, i, next) && i.Load?
    ensures TwinOutcome(ann, Exec(p, ops, bg, i, next, g), Exec(p, ops, bc, i, next, c))
  {
    assert Last(g.frames).locals[i.slot] == Last(c.frames).locals[i.slot];
    AgreeMove(ann, g.frames, c.frames, g.pc, next, g.handlers);
  }

  lemma PrimTwin(p: Program, ann: Annotation, ops: Ops, bg: Value, bc: Value, g: State, c: State, i: Instr, next: nat)
    requires Pair(p, ann, g, c, i, next) && (i.Apply? || i.Effect?)
    ensures TwinOutcome(ann, Exec(p, ops, bg, i, next, g), Exec(p, ops, bc, i, next, c))
  {
    assert g.frames != [] && g.pc in ann;
    hide AllAgree, Shape;
    AgreeMove(ann, g.frames, c.frames, g.pc, next, g.handlers);
  }

  lemma JumpTwin(p: Program, ann: Annotation, ops: Ops, bg: Value, bc: Value, g: State, c: State, i: Instr, next: nat)
    requires Pair(p, ann, g, c, i, next) && (i.Jump? || i.JumpIfFalse? || i.JumpIfTrue?)
    ensures TwinOutcome(ann, Exec(p, ops, bg, i, next, g), Exec(p, ops, bc, i, next, c))
  {
    assert g.frames != [] && g.pc in ann;
    hide AllAgree, Shape;
    AgreeMove(ann, g.frames, c.frames, g.pc, next + i.rel, g.handlers);
    if !i.Jump? {
      AgreeMove(ann, g.frames, c.frames, g.pc, next, g.handlers);
    }
  }

  lemma StoreTwin(p: Program, ann: Annotation, ops: Ops, bg: Value, bc: Value, g: State, c: State, i: Instr, next: nat)
    requires Pair(p, ann, g, c, i, next) && i.Store?
    ensures TwinOutcome(ann, Exec(p, ops, bg, i, next, g), Exec(p, ops, bc, i, next, c))
  {
    HasOperands(p, ann, g, 1);
    AgreeStore(ann, g.frames, c.frames, g.pc, next, g.handlers, i.slot, Last(g.stack));
  }

  lemma {:induction false} UsedAgrees(ann: Annotation, g: seq<Frame>, c: seq<Frame>, n: nat, pc: int,
      handlers: seq<Handler>, hi: int)
    requires FramesAgree(ann, g, c, n, pc, handlers, hi)
    ensures LocalsUsed(g[..n]) == LocalsUsed(c[..n])
    decreases n
  {
    if n > 0 {
      assert DropLast(g[..n]) == g[..n - 1] && DropLast(c[..n]) == c[..n - 1];
      if n > 1 {
        UsedAgrees(ann, g, c, n - 1, g[n - 1].retpc, handlers, hi - |ann[pc].tries|);
      }
    }
  }

  lemma EnterTwin(p: Program, ann: Annotation, bg: Value, bc: Value, g: State, c: State, popped: nat, fn: nat,
      args: seq<Value>, next: nat)
    requires Twin(ann, g, c) && g.frames != [] && popped <= |g.stack|
    requires Moves(ann, ann[g.pc], popped, 1, next)
    requires fn < |p.funcs| && EntryOk(p, ann, fn) && Supplies(p, ann, fn, |args|)
    ensures TwinOutcome(ann, Enter(p, bg, Drop(g, popped), fn, args, next),
            Enter(p, bc, Drop(c, popped), fn, args, next))
  {
    var n := p.funcs[fn].nlocals;
    UsedAgrees(ann, g.frames, c.frames, |g.frames|, g.pc, g.handlers, |g.handlers|);
    assert g.frames[..|g.frames|] == g.frames && c.frames[..|c.frames|] == c.frames;
    AgreeMove(ann, g.frames, c.frames, g.pc, next, g.handlers);
    var gf, cf := Frame(next, Overlay(Fill(bg, n), args), fn), Frame(next, Overlay(Fill(bc, n), args), fn);
    var gs, cs := g.frames + [gf], c.frames + [cf];
    AgreePrefix(ann, g.frames, c.frames, gs, cs, |g.frames|, next, g.handlers, g.handlers, |g.handlers|);
  }

  lemma CallTwin(p: Program, ann: Annotation, ops: Ops, bg: Value, bc: Value, g: State, c: State, i: Instr, next: nat)
    requires Pair(p, ann, g, c, i, next) && i.Call? && i.fn < |p.funcs| && EntryOk(p, ann, i.fn)
    ensures TwinOutcome(ann, Exec(p, ops, bg, i, next, g), Exec(p, ops, bc, i, next, c))
  {
    HasOperands(p, ann, g, i.argc);
    assert g.frames != [];
    hide AllAgree, Shape;
    EnterTwin(p, ann, bg, bc, g, c, i.argc, i.fn, Args(g, i.argc), next);
  }

  lemma CallValueTwin(p: Program, ann: Annotation, ops: Ops, bg: Value, bc: Value, g: State, c: State, i: Instr,
      next: nat)
    requires Pair(p, ann, g, c, i, next) && i.CallValue?
    requires ArityOk(p, ann, i.argc, g)
    requires i.argc < |g.stack| && g.stack[|g.stack| - i.argc - 1].Func? ==>
               EntryOk(p, ann, g.stack[|g.stack| - i.argc - 1].fn)
    ensures TwinOutcome(ann, Exec(p, ops, bg, i, next, g), Exec(p, ops, bc, i, next, c))
  {
    HasOperands(p, ann, g, i.argc + 1);
    assert g.frames != [];
    hide AllAgree, Shape;
    var f := g.stack[|g.stack| - i.argc - 1];
    if f.Func? {
      EnterTwin(p, ann, bg, bc, g, c, i.argc + 1, f.fn, f.captured + Args(g, i.argc), next);
    }
  }

  lemma RetTwin(p: Program, ann: Annotation, ops: Ops, bg: Value, bc: Value, g: State, c: State, next: nat)
    requires Pair(p, ann, g, c, Ret, next)
    ensures TwinOutcome(ann, Exec(p, ops, bg, Ret, next, g), Exec(p, ops, bc, Ret, next, c))
  {
    var n := |g.frames| - 1;
    if n > 0 {
      AgreePrefix(ann, g.frames, c.frames, DropLast(g.frames), DropLast(c.frames), n, Last(g.frames).retpc, g.handlers,
          g.handlers, |g.handlers|);
    }
  }

  lemma AgreeOpen(ann: Annotation, g: seq<Frame>, c: seq<Frame>, pc: int, pc': int, handlers: seq<Handler>, h: Handler)
    requires g != [] && AllAgree(ann, g, c, pc, handlers)
    requires pc' in ann && |ann[pc'].tries| == |ann[pc].tries| + 1 && ann[pc'].definite <= ann[pc].definite
    requires h.catchPC in ann
    requires ann[h.catchPC].definite <= if h.slot == NO_SLOT then ann[pc].definite else ann[pc].definite + {h.slot}
    ensures AllAgree(ann, g, c, pc', handlers + [h])
  {
    var n, hi := |g|, |handlers|;
    assert CatchAgrees(ann, h, g[n - 1].locals, c[n - 1].locals);
    AgreeTop(ann, g, c, n, pc, handlers, hi, g, c, pc', handlers + [h], hi + 1);
  }

  lemma AgreeClose(ann: Annotation, g: seq<Frame>, c: seq<Frame>, pc: int, pc': int, handlers: seq<Handler>)
    requires g != [] && AllAgree(ann, g, c, pc, handlers) && ann[pc].tries != []
    requires pc' in ann && |ann[pc'].tries| == |ann[pc].tries| - 1 && ann[pc'].definite <= ann[pc].definite
    ensures handlers != [] && AllAgree(ann, g, c, pc', DropLast(handlers))
  {
    var n, hi := |g|, |handlers|;
    AgreeTop(ann, g, c, n, pc, handlers, hi, g, c, pc', DropLast(handlers), hi - 1);
  }

  lemma TryPushTwin(p: Program, ann: Annotation, ops: Ops, bg: Value, bc: Value, g: State, c: State, i: Instr,
      next: nat)
    requires Pair(p, ann, g, c, i, next) && i.TryPush?
    ensures TwinOutcome(ann, Exec(p, ops, bg, i, next, g), Exec(p, ops, bc, i, next, c))
  {
    assert g.frames != [] && |g.frames| == |c.frames|;
    hide AllAgree, Shape;
    if 0 <= next + i.rel {
      AgreeOpen(ann, g.frames, c.frames, g.pc, next, g.handlers, Handler(next + i.rel, |g.stack|, |g.frames|, i.slot));
    }
  }

  lemma TryPopTwin(p: Program, ann: Annotation, ops: Ops, bg: Value, bc: Value, g: State, c: State, next: nat)
    requires Pair(p, ann, g, c, TryPop, next)
    ensures TwinOutcome(ann, Exec(p, ops, bg, TryPop, next, g), Exec(p, ops, bc, TryPop, next, c))
  {
    assert g.frames != [];
    hide AllAgree, Shape;
    AgreeClose(ann, g.frames, c.frames, g.pc, next, g.handlers);
  }

  lemma RaiseTwin(p: Program, ann: Annotation, g: State, c: State, pops: nat, v: Value, uncaught: string)
    requires Twin(ann, g, c) && WellShaped(p, ann, g) && WellShaped(p, ann, c) && Room(ann[g.pc], pops)
    ensures pops <= |g.stack|
    ensures TwinOutcome(ann, RaiseOr(Drop(g, pops), v, uncaught), RaiseOr(Drop(c, pops), v, uncaught))
  {
    HasOperands(p, ann, g, pops);
    assert |g.frames| == |c.frames|;
    hide AllAgree, Shape, Raise, Caught;
    if g.handlers != [] {
      AgreeCatch(p, ann, g.frames, c.frames, g.pc, |g.stack|, g.handlers, v);
      var gd, cd := Drop(g, pops), Drop(c, pops);
      assert cd == gd.(frames := cd.frames);
      CaughtTwin(ann, gd, cd, v);
    }
  }

  lemma CaughtTwin(ann: Annotation, g: State, c: State, v: Value)
    requires g.handlers != [] && c == g.(frames := c.frames)
    requires var h := Last(g.handlers);
             && 1 <= h.fp <= |g.frames| == |c.frames|
             && |g.frames[h.fp - 1].locals| == |c.frames[h.fp - 1].locals|
             && (h.slot == NO_SLOT || h.slot < |g.frames[h.fp - 1].locals|)
             && AllAgree(ann, Caught(g.frames[..h.fp], h.slot, v), Caught(c.frames[..h.fp], h.slot, v), h.catchPC,
                 DropLast(g.handlers))
    ensures TwinOutcome(ann, Raise(g, v), Raise(c, v))
  {
    hide AllAgree, StoreLocal;
  }

  lemma RaisingTwin(p: Program, ann: Annotation, ops: Ops, bg: Value, bc: Value, g: State, c: State, i: Instr,
      next: nat)
    requires Pair(p, ann, g, c, i, next) && (i.Assert? || i.Throw? || i.Unwrap?)
    ensures TwinOutcome(ann, Exec(p, ops, bg, i, next, g), Exec(p, ops, bc, i, next, c))
  {
    HasOperands(p, ann, g, if i.Assert? then 2 else 1);
    assert g.frames != [] && g.pc in ann;
    hide AllAgree, Shape;
    if i.Throw? {
      RaiseTwin(p, ann, g, c, 1, Last(g.stack), UNCAUGHT + ops.text(Last(g.stack), g.world));
    } else if i.Assert? && !ops.truthy(Last(g.stack), g.world) {
      RaiseTwin(p, ann, g, c, 2, Str(AssertText(ops, g)), AssertText(ops, g));
    } else if i.Unwrap? && Last(g.stack).Null? {
      RaiseTwin(p, ann, g, c, 1, Str(UNWRAP_NULL), UNWRAP_NULL);
    } else {
      AgreeMove(ann, g.frames, c.frames, g.pc, next, g.handlers);
    }
  }

  lemma ExecTwin(p: Program, ann: Annotation, ops: Ops, bg: Value, bc: Value, g: State, c: State, i: Instr, next: nat)
    requires Verified(p, ann) && Pair(p, ann, g, c, i, next)
    requires i.CallValue? ==> ArityOk(p, ann, i.argc, g)
    ensures TwinOutcome(ann, Exec(p, ops, bg, i, next, g), Exec(p, ops, bc, i, next, c))
  {
    assert InstrOk(p, ann, ann[g.pc], i, next);
    hide Exec, Pair, TwinOutcome, Verified;
    if i.Store? {
      StoreTwin(p, ann, ops, bg, bc, g, c, i, next);
    } else if i.Call? {
      VerifiedEntry(p, ann, i.fn);
      CallTwin(p, ann, ops, bg, bc, g, c, i, next);
    } else if i.CallValue? {
      if i.argc < |g.stack| && g.stack[|g.stack| - i.argc - 1].Func? {
        VerifiedEntry(p, ann, g.stack[|g.stack| - i.argc - 1].fn);
      }
      CallValueTwin(p, ann, ops, bg, bc, g, c, i, next);
    } else if i.Ret? {
      RetTwin(p, ann, ops, bg, bc, g, c, next);
    } else if i.TryPush? {
      TryPushTwin(p, ann, ops, bg, bc, g, c, i, next);
    } else if i.TryPop? {
      TryPopTwin(p, ann, ops, bg, bc, g, c, next);
    } else if i.Assert? || i.Throw? || i.Unwrap? {
      RaisingTwin(p, ann, ops, bg, bc, g, c, i, next);
    } else if i.Load? {
      LoadTwin(p, ann, ops, bg, bc, g, c, i, next);
    } else if i.Apply? || i.Effect? {
      PrimTwin(p, ann, ops, bg, bc, g, c, i, next);
    } else if i.Jump? || i.JumpIfFalse? || i.JumpIfTrue? {
      JumpTwin(p, ann, ops, bg, bc, g, c, i, next);
    } else {
      StraightTwin(p, ann, ops, bg, bc, g, c, i, next);
    }
  }

  lemma VerifiedEntry(p: Program, ann: Annotation, fn: nat)
    requires Verified(p, ann) && fn < |p.funcs|
    ensures EntryOk(p, ann, fn)
  {
  }

  /** One step: the same outcome, or two states that still agree. */
  lemma StepTwin(p: Program, ann: Annotation, ops: Ops, bg: Value, bc: Value, g: State, c: State)
    requires Verified(p, ann) && Twin(ann, g, c)
    requires WellShaped(p, ann, g) && WellShaped(p, ann, c) && CallValueOk(p, ann, g)
    ensures TwinOutcome(ann, Step(p, ops, bg, g), Step(p, ops, bc, c))
  {
    assert PcOk(p, ann, g.pc);
    var d := Decode(p.code, g.pc).value;
    hide Exec, Operands, Shape, AllAgree;
    ExecTwin(p, ann, ops, bg, bc, g, c, d.instr, d.next);
  }

  /** A fresh local in the Go engine and in the C engine. */
  const GO_BLANK: Value := Int(0)
  const C_BLANK: Value := Null

  lemma InitialTwin(p: Program, ann: Annotation, w: World)
    requires Verified(p, ann)
    ensures Twin(ann, Initial(p, GO_BLANK, w), Initial(p, C_BLANK, w))
  {
    assert EntryOk(p, ann, p.entryFn);
  }

  /** Two outcomes the runs reached, and what one more step makes of them. */
  lemma ExtendTwin(p: Program, ann: Annotation, ops: Ops, g: Outcome, c: Outcome)
    requires Verified(p, ann) && TwinOutcome(ann, g, c) && Keeps(p, ann, g) && Keeps(p, ann, c)
    requires g.Next? && CallValueOk(p, ann, g.state) && PlainAt(p, g.state.pc)
    ensures var g', c' := Step(p, ops, GO_BLANK, g.state), Step(p, ops, C_BLANK, c.state);
            TwinOutcome(ann, g', c') && Keeps(p, ann, g') && Keeps(p, ann, c')
  {
    StepTwin(p, ann, ops, GO_BLANK, C_BLANK, g.state, c.state);
    StepSound(p, ann, ops, GO_BLANK, g.state);
    StepSound(p, ann, ops, C_BLANK, c.state);
  }

  /** Lockstep refinement over whole runs from the start of the program, for code without tasks. */
  lemma {:induction false} RunTwin(p: Program, ann: Annotation, ops: Ops, w: World, n: nat)
    requires Verified(p, ann) && Taskless(p, ann)
    requires ArityRespected(p, ann, ops, GO_BLANK, Initial(p, GO_BLANK, w), n)
    ensures var g, c := Run(p, ops, GO_BLANK, Initial(p, GO_BLANK, w), n),
            Run(p, ops, C_BLANK, Initial(p, C_BLANK, w), n);
            TwinOutcome(ann, g, c) && Keeps(p, ann, g) && Keeps(p, ann, c)
    decreases n
  {
    var g0, c0 := Initial(p, GO_BLANK, w), Initial(p, C_BLANK, w);
    if n == 0 {
      InitialShape(p, ann, GO_BLANK, w);
      InitialShape(p, ann, C_BLANK, w);
      InitialTwin(p, ann, w);
    } else {
      RunTwin(p, ann, ops, w, n - 1);
      var g, c := Run(p, ops, GO_BLANK, g0, n - 1), Run(p, ops, C_BLANK, c0, n - 1);
      if g.Next? {
        ExtendTwin(p, ann, ops, g, c);
      }
    }
  }
}
