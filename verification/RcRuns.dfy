/**
 Reference counts over whole runs of the C engine: any sequence of opcodes, with any
 outcome of the tests their values decide, leaves everything the program can still reach
 alive. A run ends where the operands an opcode needs are missing, or with the outermost RET.
 */
module RcRuns {
  import opened Common
  import opened RefCount
  import opened RcMachine
  import opened RcNatives

  datatype Op =
    | DoConst(idx: nat)
    | DoImmediate
    | DoPop
    | DoLoad(slot: nat)
    | DoStore(slot: nat)
    | DoGetGlobal(slot: nat)
    | DoSetGlobal(slot: nat)
    | DoBinary(text: bool)
    | DoNegate
    | DoTest
    | DoHas
    | DoNative(argc: nat, outcome: Outcome)
    | DoCall(argc: nat, nlocals: nat)
    | DoRet
    | DoClosure(ncap: nat)
    | DoCallValue(argc: nat, nlocals: nat)
    | DoNewArray(n: nat)
    | DoNewMap(places: seq<Option<nat>>)
    | DoIndex(place: Option<nat>, text: bool)
    | DoSetIndex(at: Option<nat>)
    | DoAppend
    | DoKeys(order: seq<nat>)
    | DoCoalesce(isNull: bool)
    | DoTryPush(slot: nat)
    | DoTryPop
    | DoThrow
    | DoAssert(holds: bool)
    | DoUnwrapNull

  /** There is a handler, and its frame has the catch slot. */
  predicate CanRaise(m: Machine)
    reads m`handlers, m`frames
  {
    m.handlers != [] && Catches(Last(m.handlers), m.frames)
  }

  /** The operands and slots an opcode uses are there. */
  predicate Fits(m: Machine, op: Op)
    reads m`stack, m`frames, m`handlers, m.heap
  {
    var n := |m.stack|;
    match op
    case DoConst(idx) => idx < |m.consts|
    case DoImmediate => true
    case DoPop => n >= 1
    case DoLoad(slot) => m.frames != [] && slot < |Last(m.frames)|
    case DoStore(slot) => n >= 1 && m.frames != [] && slot < |Last(m.frames)|
    case DoGetGlobal(_) => true
    case DoSetGlobal(_) => n >= 1
    case DoBinary(_) => n >= 2
    case DoNegate => n >= 1
    case DoTest => n >= 1
    case DoHas => n >= 2
    case DoNative(argc, outcome) => argc <= n && Possible(m, argc, outcome)
    case DoCall(argc, nlocals) => argc <= n && argc <= nlocals
    case DoRet => n >= 1 && m.frames != []
    case DoClosure(ncap) => ncap <= n
    case DoCallValue(argc, nlocals) =>
      argc < n && |Kids(m.heap.cells, m.stack[n - argc - 1])| + argc <= nlocals
    case DoNewArray(k) => k <= n
    case DoNewMap(places) => 2 * |places| <= n
    case DoIndex(place, _) => n >= 2 && (place.Some? ==> place.value < |Kids(m.heap.cells, m.stack[n - 2])|)
    case DoSetIndex(_) => n >= 3 && m.stack[n - 3].Ref?
    case DoAppend => n >= 2 && m.stack[n - 2].Ref?
    case DoKeys(order) =>
      n >= 1 && m.stack[n - 1].Ref? && forall i :: 0 <= i < |order| ==> order[i] < |Kids(m.heap.cells, m.stack[n - 1])|
    case DoCoalesce(isNull) => n >= 2 && (isNull ==> m.stack[n - 2].Imm?)
    case DoTryPush(_) => true
    case DoTryPop => true
    case DoThrow => n >= 1 && CanRaise(m)
    case DoAssert(holds) => n >= 2 && (holds || CanRaise(m))
    case DoUnwrapNull => n >= 1 && m.stack[n - 1].Imm? && CanRaise(m)
  }

  method DoValues(m: Machine, op: Op)
    requires m.Safe([]) && Fits(m, op)
    requires op.DoConst? || op.DoImmediate? || op.DoPop? || op.DoLoad? || op.DoStore? || op.DoGetGlobal?
             || op.DoSetGlobal?
          || op.DoCoalesce?
    modifies m, m.heap
    ensures m.Safe([]) && m.pinned == old(m.pinned)
  {
    hide Counted;
    match op
    case DoConst(idx) => m.Const(idx);
    case DoImmediate => m.Immediate();
    case DoPop => m.PopOp();
    case DoLoad(slot) => m.Load(slot);
    case DoStore(slot) => m.Store(slot);
    case DoGetGlobal(slot) => m.GetGlobal(slot);
    case DoSetGlobal(slot) => m.SetGlobal(slot);
    case DoCoalesce(isNull) => m.Coalesce(isNull);
  }

  method DoOperations(m: Machine, op: Op)
    requires m.Safe([]) && Fits(m, op)
    requires op.DoBinary? || op.DoNegate? || op.DoTest? || op.DoHas? || op.DoNative?
    modifies m, m.heap
    ensures m.Safe([]) && m.pinned == old(m.pinned)
  {
    hide Counted, Possible;
    match op
    case DoBinary(text) => m.Binary(text);
    case DoNegate => m.Negate();
    case DoTest => m.Test();
    case DoHas => m.HasKey();
    case DoNative(argc, outcome) => Native(m, argc, outcome);
  }

  method DoCalls(m: Machine, op: Op) returns (ended: bool)
    requires m.Safe([]) && Fits(m, op) && (op.DoCall? || op.DoRet? || op.DoClosure? || op.DoCallValue?)
    modifies m, m.heap
    ensures m.Safe([]) && ended == (op.DoRet? && |old(m.frames)| == 1) && m.pinned == old(m.pinned)
  {
    hide Counted;
    ended := false;
    match op
    case DoCall(argc, nlocals) => m.Call(argc, nlocals);
    case DoRet => ended := m.Ret();
    case DoClosure(ncap) => m.Closure(ncap);
    case DoCallValue(argc, nlocals) =>
      if m.stack[|m.stack| - argc - 1].Imm? {
        m.CallFunction(argc, nlocals);
      } else {
        OperandIsLive(m, |m.stack| - argc - 1);
        m.CallClosure(argc, nlocals);
      }
  }

  method DoContainers(m: Machine, op: Op)
    requires m.Safe([]) && Fits(m, op)
    requires op.DoNewArray? || op.DoNewMap? || op.DoIndex? || op.DoSetIndex? || op.DoAppend? || op.DoKeys?
    modifies m, m.heap
    ensures m.Safe([]) && m.pinned == old(m.pinned)
    ensures Miscounts(op) ==> m.stack != [] && m.Safe([Last(m.stack)])
  {
    hide Counted;
    match op
    case DoNewArray(k) => m.NewArray(k);
    case DoNewMap(places) => m.NewMap(places);
    case DoIndex(place, text) => m.Index(place, text);
    case DoSetIndex(at) =>
      OperandIsLive(m, |m.stack| - 3);
      m.SetIndex(at);
    case DoAppend =>
      OperandIsLive(m, |m.stack| - 2);
      m.Append();
    case DoKeys(order) =>
      OperandIsLive(m, |m.stack| - 1);
      m.Keys(order);
  }

  method DoExceptions(m: Machine, op: Op)
    requires m.Safe([]) && Fits(m, op)
    requires op.DoTryPush? || op.DoTryPop? || op.DoThrow? || op.DoAssert? || op.DoUnwrapNull?
    modifies m, m.heap
    ensures m.Safe([]) && m.pinned == old(m.pinned)
  {
    hide Counted;
    match op
    case DoTryPush(slot) => m.TryPush(slot);
    case DoTryPop => m.TryPop();
    case DoThrow => m.Throw();
    case DoAssert(holds) => if holds { m.AssertPasses(); } else { m.AssertFails(); }
    case DoUnwrapNull => m.UnwrapFails();
  }

  /** The outermost RET. */
  predicate Ends(m: Machine, op: Op)
    reads m`frames
  {
    op.DoRet? && |m.frames| == 1
  }

  /** NEWARR, NEWMAP and KEYS go through val_array or val_map, which count once too often. */
  predicate Miscounts(op: Op) {
    op.DoNewArray? || op.DoNewMap? || op.DoKeys?
  }

  method Execute(m: Machine, op: Op) returns (ok: bool, ended: bool)
    requires m.Safe([])
    modifies m, m.heap
    ensures m.Safe([]) && ok == old(Fits(m, op)) && ended == old(Fits(m, op) && Ends(m, op))
            && m.pinned == old(m.pinned)
    ensures ok && Miscounts(op) ==> m.stack != [] && m.Safe([Last(m.stack)])
  {
    hide Counted, Fits;
    ok, ended := Fits(m, op), false;
    if !ok {
      return;
    }
    if op.DoTryPush? || op.DoTryPop? || op.DoThrow? || op.DoAssert? || op.DoUnwrapNull? {
      DoExceptions(m, op);
    } else if op.DoCall? || op.DoRet? || op.DoClosure? || op.DoCallValue? {
      ended := DoCalls(m, op);
    } else if op.DoNewArray? || op.DoNewMap? || op.DoIndex? || op.DoSetIndex? || op.DoAppend? || op.DoKeys? {
      DoContainers(m, op);
    } else if op.DoBinary? || op.DoNegate? || op.DoTest? || op.DoHas? || op.DoNative? {
      DoOperations(m, op);
    } else {
      DoValues(m, op);
    }
  }

  /** An object that is counted at least once more than it is referenced. */
  ghost predicate Overcounted(m: Machine, a: nat)
    reads m, m.heap
  {
    m.Safe([Ref(a)])
  }

  lemma OvercountedSlack(m: Machine, a: nat)
    requires m.Safe([])
    ensures Overcounted(m, a) <==> IsLive(m.heap.cells, a) && Slack(m.heap.cells, m.Roots(), a) >= 1
  {
    assert [] + m.Roots() == m.Roots();
    forall b: nat ensures Count([Ref(a)] + m.Roots(), b) == Count(m.Roots(), b) + if a == b then 1 else 0 {
      CountConcat([Ref(a)], m.Roots(), b);
    }
    assert RefsTo(m.heap.cells, [Ref(a)] + m.Roots(), a) >= 1;
  }

  /** The first `n` objects that are counted too often, each once. */
  ghost function Extras(cells: Cells, roots: seq<Val>, n: nat): seq<Val> {
    if n == 0 then []
    else Extras(cells, roots, n - 1) + if Counted(cells, [Ref(n - 1)] + roots) then [Ref(n - 1)] else []
  }

  lemma {:induction false} ExtrasCount(cells: Cells, roots: seq<Val>, n: nat, a: nat)
    ensures Count(Extras(cells, roots, n), a) == if a < n && Counted(cells, [Ref(a)] + roots) then 1 else 0
  {
    if n > 0 {
      ExtrasCount(cells, roots, n - 1, a);
      CountConcat(Extras(cells, roots, n - 1), if Counted(cells, [Ref(n - 1)] + roots) then [Ref(n - 1)] else [], a);
    }
  }

  lemma ExtrasCounted(cells: Cells, roots: seq<Val>)
    requires Counted(cells, roots)
    ensures Counted(cells, Extras(cells, roots, |cells|) + roots)
  {
    var extras := Extras(cells, roots, |cells|);
    forall a: nat ensures RefsTo(cells, extras + roots, a) == RefsTo(cells, roots, a) + Count(extras, a) {
      CountConcat(extras, roots, a);
    }
    forall a: nat ensures Count(extras, a) <= 1 && (Count(extras, a) == 1 ==> Counted(cells, [Ref(a)] + roots)) {
      ExtrasCount(cells, roots, |cells|, a);
    }
    forall a: nat ensures RefsTo(cells, [Ref(a)] + roots, a) == RefsTo(cells, roots, a) + 1 {
      CountConcat([Ref(a)], roots, a);
    }
  }

  /** Each of several references may be held alone. */
  lemma OneOf(cells: Cells, vs: seq<Val>, roots: seq<Val>, a: nat)
    requires Counted(cells, vs + roots) && Count(vs, a) >= 1
    ensures Counted(cells, [Ref(a)] + roots)
  {
    forall b: nat ensures RefsTo(cells, [Ref(a)] + roots, b) <= RefsTo(cells, vs + roots, b) {
      CountConcat(vs, roots, b);
      CountConcat([Ref(a)], roots, b);
    }
  }

  lemma OvercountedLive(cells: Cells, roots: seq<Val>, a: nat)
    requires Counted(cells, [Ref(a)] + roots)
    ensures a < |cells|
  {
    CountConcat([Ref(a)], roots, a);
    assert RefsTo(cells, [Ref(a)] + roots, a) >= 1;
    assert IsLive(cells, a);
  }

  lemma ExtrasStay(m: Machine, cells: Cells, roots: seq<Val>, temps: seq<Val>)
    requires m.Safe(Extras(cells, roots, |cells|) + temps)
    ensures forall a: nat :: Counted(cells, [Ref(a)] + roots) ==> Overcounted(m, a)
  {
    hide Counted;
    var extras := Extras(cells, roots, |cells|);
    forall a: nat | Counted(cells, [Ref(a)] + roots) ensures Overcounted(m, a) {
      ExtrasCount(cells, roots, |cells|, a);
      OvercountedLive(cells, roots, a);
      CountConcat(extras, temps, a);
      OneOf(m.heap.cells, extras + temps, m.Roots(), a);
    }
  }

  lemma {:induction false} DropExtras(m: Machine, extras: seq<Val>, temps: seq<Val>)
    requires m.Safe(extras + temps)
    ensures m.Safe(temps) && m.Safe([])
    decreases |extras| + 2 * |temps|
  {
    hide Counted;
    if extras != [] {
      assert extras + temps == [extras[0]] + (extras[1..] + temps);
      m.Forget(extras[0], extras[1..] + temps);
      DropExtras(m, extras[1..], temps);
    } else {
      assert extras + temps == temps;
      if temps != [] {
        assert temps + [] == temps;
        DropExtras(m, temps, []);
      }
    }
  }

  /** Execute one opcode if it fits. An object counted once too often stays so, and alive. */
  method Do(m: Machine, op: Op) returns (ok: bool, ended: bool)
    requires m.Safe([])
    modifies m, m.heap
    ensures m.Safe([]) && ok == old(Fits(m, op)) && ended == old(Fits(m, op) && Ends(m, op))
            && m.pinned == old(m.pinned)
    ensures forall a: nat :: old(Overcounted(m, a)) ==> Overcounted(m, a)
    ensures ok && Miscounts(op) ==> m.stack != [] && m.Safe([Last(m.stack)])
  {
    hide Counted, Count, Extras, Flat, Fits, Ends;
    ghost var was, cells, roots := m.pinned, m.heap.cells, m.Roots();
    ghost var extras := Extras(cells, roots, |cells|);
    assert [] + roots == roots;
    ExtrasCounted(cells, roots);
    m.Pin(extras);
    ok, ended := Execute(m, op);
    ghost var temps := if ok && Miscounts(op) then [Last(m.stack)] else [];
    m.Unpin(was, extras, temps);
    ExtrasStay(m, cells, roots, temps);
    DropExtras(m, extras, temps);
  }

  /**
   A run from any state: the invariant is kept, and no object that is counted once more
   than it is referenced at its beginning is freed, whether it is reachable or not.
   */
  method GoOn(m: Machine, ops: seq<Op>) returns (n: nat, ended: bool)
    requires m.Safe([])
    modifies m, m.heap
    ensures n <= |ops| && m.Safe([]) && m.pinned == old(m.pinned)
    ensures n < |ops| && !ended ==> !Fits(m, ops[n])
    ensures forall a: nat :: old(Overcounted(m, a)) ==> Overcounted(m, a) && IsLive(m.heap.cells, a)
  {
    hide Counted, Fits, Ends;
    n, ended := 0, false;
    while n < |ops| && !ended
      invariant n <= |ops| && m.Safe([]) && m.pinned == old(m.pinned)
      invariant forall a: nat :: old(Overcounted(m, a)) ==> Overcounted(m, a)
      decreases |ops| - n
    {
      if !Fits(m, ops[n]) {
        break;
      }
      var ok;
      ok, ended := Do(m, ops[n]);
      n := n + 1;
    }
    forall a: nat | Overcounted(m, a) ensures IsLive(m.heap.cells, a) {
      OvercountedSlack(m, a);
    }
  }

  /** A run from the initial state: after every opcode, what is reachable is alive. */
  method Run(consts: seq<Val>, heap: Heap, nlocals: nat, ops: seq<Op>) returns (m: Machine, n: nat, ended: bool)
    requires Counted(heap.cells, consts)
    modifies heap
    ensures fresh(m) && m.heap == heap && n <= |ops| && m.Safe([]) && m.pinned == []
    ensures n < |ops| && !ended ==> !Fits(m, ops[n])
    ensures forall path {:trigger Reaches(heap.cells, m.Roots(), path)} ::
              Reaches(heap.cells, m.Roots(), path) ==> IsLive(heap.cells, Last(path))
  {
    hide Counted, Fits;
    m := new Machine(consts, heap, nlocals);
    n, ended := GoOn(m, ops);
    forall path | Reaches(heap.cells, m.Roots(), path) ensures IsLive(heap.cells, Last(path)) {
      m.ReachableIsLive(path);
    }
  }
}
