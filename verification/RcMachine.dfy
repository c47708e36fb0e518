/**
 The C engine's opcodes as far as reference counts go: which references each one takes
 over, shares and gives up, in the order the code does it. Every opcode keeps every count
 at least as large as the references in the operand stack, the frames' locals, the
 globals, the constants and the live objects, so nothing reachable is ever freed.
 */
module RcMachine {
  import opened Common
  import opened RefCount

  /** The locals of all frames in one sequence. */
  function Flat(frames: seq<seq<Val>>): seq<Val> {
    if frames == [] then [] else Flat(DropLast(frames)) + Last(frames)
  }

  lemma FlatPush(frames: seq<seq<Val>>, f: seq<Val>)
    ensures Flat(frames + [f]) == Flat(frames) + f
  {
    assert DropLast(frames + [f]) == frames;
  }

  /** References to `a` outside the heap, by where they are. */
  function RootCount(stack: seq<Val>, frames: seq<seq<Val>>, globals: seq<Val>, fixed: seq<Val>, a: nat): nat {
    Count(stack, a) + Count(Flat(frames), a) + Count(globals, a) + Count(fixed, a)
  }

  /** No object is forgotten, and those other than `but` keep their children as long as they live. */
  ghost predicate OthersKept(before: Cells, after: Cells, but: nat) {
    |after| >= |before| &&
    forall a :: 0 <= a < |before| && a != but && after[a].Live? ==> before[a].Live? && after[a].kids == before[a].kids
  }

  datatype Handler = Handler(sp: nat, fp: nat, slot: nat)

  const NO_SLOT: nat := 0xFFFF

  /** The frames that unwinding to `h` leaves of `n`: a handler that RET has outlived unwinds none. */
  function Left(h: Handler, n: nat): nat {
    if h.fp <= n then h.fp else n
  }

  /** The catching frame exists and has the catch slot. */
  predicate Catches(h: Handler, frames: seq<seq<Val>>) {
    var n := Left(h, |frames|);
    1 <= n && (h.slot == NO_SLOT || h.slot < |frames[n - 1]|)
  }

  class Machine {
    const heap: Heap
    const consts: seq<Val>
    var stack: seq<Val>
    var frames: seq<seq<Val>>
    var globals: seq<Val>
    var handlers: seq<Handler>
    /** References that nothing holds: each stands for a count that no release will give back. */
    ghost var pinned: seq<Val>

    /** The roots that no opcode changes. */
    ghost function Fixed(): seq<Val>
      reads this
    {
      consts + pinned
    }

    ghost function Roots(): seq<Val>
      reads this
    {
      stack + Flat(frames) + globals + Fixed()
    }

    /** The invariant while an opcode holds `temps` in C variables. */
    ghost predicate Safe(temps: seq<Val>)
      reads this, heap
    {
      Counted(heap.cells, temps + Roots())
    }

    lemma RootsCount(temps: seq<Val>, a: nat)
      ensures Count(temps + Roots(), a) == Count(temps, a) + RootCount(stack, frames, globals, Fixed(), a)
    {
      RootsCountOf(temps, stack, frames, globals, Fixed(), a);
    }

    static lemma RootsCountOf(temps: seq<Val>, stack: seq<Val>, frames: seq<seq<Val>>, globals: seq<Val>,
        fixed: seq<Val>, a: nat)
      ensures Count(temps + (stack + Flat(frames) + globals + fixed), a)
           == Count(temps, a) + RootCount(stack, frames, globals, fixed, a)
    {
      CountConcat(temps, stack + Flat(frames) + globals + fixed, a);
      CountConcat(stack + Flat(frames) + globals, fixed, a);
      CountConcat(stack + Flat(frames), globals, a);
      CountConcat(stack, Flat(frames), a);
    }

    constructor (consts: seq<Val>, heap: Heap, nlocals: nat)
      requires Counted(heap.cells, consts)
      ensures Safe([]) && this.heap == heap && this.consts == consts
      ensures stack == [] && frames == [seq(nlocals, _ => Imm)] && globals == [] && handlers == [] && pinned == []
    {
      this.consts, this.heap := consts, heap;
      stack, frames, globals, handlers, pinned := [], [seq(nlocals, _ => Imm)], [], [], [];
      new;
      forall a: nat
        ensures Count([] + Roots(), a) == Count(consts, a)
      {
        RootsCount([], a);
        FlatPush([], seq(nlocals, _ => Imm));
        assert frames == [] + [seq(nlocals, _ => Imm)];
        assert Flat(frames) == seq(nlocals, _ => Imm);
        assert Fixed() == consts;
        NoRefs(nlocals, a);
      }
      CountedSame(heap.cells, consts, [] + Roots());
    }

    static lemma {:induction false} NoRefs(n: nat, a: nat)
      ensures Count(seq(n, _ => Imm), a) == 0
    {
      if n > 0 {
        NoRefs(n - 1, a);
        assert seq(n, _ => Imm)[1..] == seq(n - 1, _ => Imm);
      }
    }

    // ---- what opcodes are made of ----

    method Pop(ghost temps: seq<Val>) returns (v: Val)
      requires Safe(temps) && stack != []
      modifies this`stack
      ensures stack == DropLast(old(stack)) && v == Last(old(stack)) && Safe([v] + temps)
    {
      v := Last(stack);
      ghost var before := temps + Roots();
      forall a: nat
        ensures Count(before, a) == Count(temps, a) + RootCount(DropLast(stack), frames, globals, Fixed(), a) +
                Count([v], a)
      {
        RootsCount(temps, a);
        CountPush(DropLast(stack), v, a);
        assert stack == DropLast(stack) + [v];
      }
      stack := DropLast(stack);
      forall a: nat
        ensures Count([v] + temps + Roots(), a) == Count(before, a)
      {
        RootsCount([v] + temps, a);
        CountConcat([v], temps, a);
      }
      CountedSame(heap.cells, before, [v] + temps + Roots());
    }

    method Push(v: Val, ghost temps: seq<Val>)
      requires Safe([v] + temps)
      modifies this`stack
      ensures stack == old(stack) + [v] && Safe(temps)
    {
      ghost var before, stack0 := [v] + temps + Roots(), stack;
      forall a: nat
        ensures Count(before, a) == Count([v], a) + Count(temps, a) + RootCount(stack0, frames, globals, Fixed(), a)
      {
        RootsCount([v] + temps, a);
        CountConcat([v], temps, a);
      }
      stack := stack + [v];
      forall a: nat
        ensures Count(temps + Roots(), a) == Count(before, a)
      {
        RootsCount(temps, a);
        CountPush(stack0, v, a);
      }
      CountedSame(heap.cells, before, temps + Roots());
    }
  
    /** retain_value on something already referenced. */
    method Share(v: Val, ghost temps: seq<Val>)
      requires Safe(temps)
      requires v.Ref? ==> RefsTo(heap.cells, temps + Roots(), v.addr) > 0
      modifies heap
      ensures Safe([v] + temps) && Bumped(v)
    {
      ghost var c0, roots := heap.cells, temps + Roots();
      heap.Retain(v);
      assert [v] + roots == [v] + temps + Roots();
      forall a: nat
        ensures RefsTo(heap.cells, [v] + roots, a) == RefsTo(c0, roots, a) + if v == Ref(a) then 1 else 0
      {
        CountConcat([v], roots, a);
        if v.Ref? {
          HeldUpdate(c0, v.addr, heap.cells[v.addr], a);
        }
      }
    }

    /** At most the count of `v` has changed, by one. */
    twostate predicate Bumped(v: Val)
      reads heap
    {
      && |heap.cells| == |old(heap.cells)|
      && forall a :: 0 <= a < |heap.cells| ==>
           heap.cells[a] == var was := old(heap.cells)[a];
                            if v == Ref(a) && was.Live? then was.(rc := was.rc + 1) else was
    }

    /** release_value on a reference held in a C variable. */
    method Discard(v: Val, ghost temps: seq<Val>)
      requires Safe([v] + temps)
      modifies heap
      ensures Safe(temps)
      ensures Released(old(heap.cells), heap.cells, [v] + (temps + Roots()), temps + Roots())
    {
      assert [v] + temps + Roots() == [v] + (temps + Roots());
      assert View(heap.cells, {}, map[]) == heap.cells;
      heap.Release(v, temps + Roots(), {}, map[]);
      assert View(heap.cells, {}, map[]) == heap.cells;
    }

    method DiscardAll(vs: seq<Val>, ghost temps: seq<Val>)
      requires Safe(vs + temps)
      modifies heap
      ensures Safe(temps)
      ensures Released(old(heap.cells), heap.cells, vs + (temps + Roots()), temps + Roots())
    {
      ghost var c0, roots := heap.cells, temps + Roots();
      assert vs + temps + Roots() == vs + roots;
      assert vs[0..] == vs;
      for i := 0 to |vs|
        invariant Safe(vs[i..] + temps)
        invariant Released(c0, heap.cells, vs + roots, vs[i..] + roots)
      {
        DropFirst(vs, i, temps);
        Discard(vs[i], vs[i + 1..] + temps);
      }
      assert vs[|vs|..] + temps == temps && vs[|vs|..] + roots == roots;
    }

    lemma DropFirst(vs: seq<Val>, i: nat, temps: seq<Val>)
      requires i < |vs|
      ensures vs[i..] + temps == [vs[i]] + (vs[i + 1..] + temps)
      ensures [vs[i]] + (vs[i + 1..] + temps + Roots()) == vs[i..] + (temps + Roots())
      ensures vs[i + 1..] + temps + Roots() == vs[i + 1..] + (temps + Roots())
    {
    }

    /** A new object that takes over the references in `kids`. */
    method New(rc: int, kids: seq<Val>, ghost temps: seq<Val>) returns (v: Val)
      requires Safe(kids + temps) && rc >= 1
      modifies heap
      ensures Safe([v] + temps) && v == Ref(|old(heap.cells)|)
      ensures heap.cells == old(heap.cells) + [Live(rc, kids)]
    {
      ghost var c0 := heap.cells;
      v := heap.Alloc(rc, kids);
      assert DropLast(heap.cells) == c0;
      assert RefsTo(c0, kids + temps + Roots(), v.addr) == 0;
      forall a: nat
        ensures RefsTo(heap.cells, [v] + temps + Roots(), a)
             == RefsTo(c0, kids + temps + Roots(), a) + if v == Ref(a) then 1 else 0
      {
        assert kids + temps + Roots() == kids + (temps + Roots());
        assert [v] + temps + Roots() == [v] + (temps + Roots());
        CountConcat(kids, temps + Roots(), a);
        CountConcat([v], temps + Roots(), a);
      }
    }

    /** A new object without children: a string, or a container about to be filled. */
    method Make(ghost temps: seq<Val>) returns (v: Val)
      requires Safe(temps)
      modifies heap
      ensures Safe([v] + temps) && v == Ref(|old(heap.cells)|)
      ensures heap.cells == old(heap.cells) + [Live(1, [])]
    {
      assert [] + temps == temps;
      v := New(1, [], temps);
    }

    /** rc_array_push: the element is shared with the array. */
    method AppendKid(arr: nat, v: Val, ghost temps: seq<Val>)
      requires Safe(temps) && IsLive(heap.cells, arr)
      requires v.Ref? ==> RefsTo(heap.cells, temps + Roots(), v.addr) > 0
      modifies heap
      ensures Safe(temps) && IsLive(heap.cells, arr) && |heap.cells| == |old(heap.cells)|
      ensures heap.cells[arr].kids == old(heap.cells)[arr].kids + [v]
      ensures forall a :: 0 <= a < |heap.cells| && a != arr ==>
                heap.cells[a].Live? == old(heap.cells)[a].Live?
                && (heap.cells[a].Live? ==> heap.cells[a].kids == old(heap.cells)[a].kids)
    {
      hide Counted, Count, Held, Flat;
      Share(v, temps);
      ghost var roots := temps + Roots();
      assert [v] + temps + Roots() == [v] + roots;
      KidAppended(heap.cells, arr, v, roots);
      heap.cells := heap.cells[arr := heap.cells[arr].(kids := heap.cells[arr].kids + [v])];
    }

    static lemma KidAppended(c: Cells, arr: nat, v: Val, roots: seq<Val>)
      requires IsLive(c, arr) && Counted(c, [v] + roots)
      ensures Counted(c[arr := c[arr].(kids := c[arr].kids + [v])], roots)
    {
      var after := c[arr := c[arr].(kids := c[arr].kids + [v])];
      forall a: nat
        ensures RefsTo(after, roots, a) == RefsTo(c, [v] + roots, a)
      {
        CountConcat([v], roots, a);
        CountPush(c[arr].kids, v, a);
        HeldUpdate(c, arr, after[arr], a);
      }
    }

    /**
     rc_array_set, and rc_map_set on a key that is present: the old element is released
     while it is still in its slot, then the slot is overwritten and the new one shared.
     */
    method Overwrite(arr: nat, i: nat, v: Val, ghost temps: seq<Val>)
      requires Safe(temps) && IsLive(heap.cells, arr) && i < |heap.cells[arr].kids|
      requires Ref(arr) in temps && v in temps
      modifies heap
      ensures Safe(temps) && IsLive(heap.cells, arr)
      ensures heap.cells[arr].kids == old(heap.cells)[arr].kids[i := v]
      ensures OthersKept(old(heap.cells), heap.cells, arr) && |heap.cells| == |old(heap.cells)|
    {
      hide Counted, Count, Held, Flat, View;
      ghost var roots, blank := temps + Roots(), map[arr := heap.cells[arr].kids[i := Imm]];
      ReleaseElem(arr, i, temps, blank);
      ghost var c1 := heap.cells;
      heap.cells := heap.cells[arr := heap.cells[arr].(kids := heap.cells[arr].kids[i := v])];
      FilledOk(c1, arr, i, v, roots, blank);
      heap.Retain(v);
    }

    /** Release element `i` of a container in place; `blank` sees the slot as empty. */
    method ReleaseElem(arr: nat, i: nat, ghost temps: seq<Val>, ghost blank: map<nat, seq<Val>>)
      requires Safe(temps) && IsLive(heap.cells, arr) && i < |heap.cells[arr].kids|
      requires Ref(arr) in temps && blank == map[arr := heap.cells[arr].kids[i := Imm]]
      modifies heap
      ensures Counted(View(heap.cells, {}, blank), temps + Roots())
      ensures IsLive(heap.cells, arr) && heap.cells[arr].kids == old(heap.cells)[arr].kids
      ensures OthersKept(old(heap.cells), heap.cells, arr) && |heap.cells| == |old(heap.cells)|
    {
      hide Count, Held, FreedRefs, Flat, Total;
      ghost var roots := temps + Roots();
      BlankOk(heap.cells, arr, i, roots);
      InCounts(roots, arr);
      heap.Release(heap.cells[arr].kids[i], roots, {}, blank);
    }

    lemma BlankOk(c0: Cells, arr: nat, i: nat, roots: seq<Val>)
      requires Counted(c0, roots) && IsLive(c0, arr) && i < |c0[arr].kids|
      ensures Counted(View(c0, {}, map[arr := c0[arr].kids[i := Imm]]), [c0[arr].kids[i]] + roots)
    {
      var blank := map[arr := c0[arr].kids[i := Imm]];
      var c := View(c0, {}, blank);
      assert c == c0[arr := c0[arr].(kids := c0[arr].kids[i := Imm])];
      forall a: nat
        ensures RefsTo(c, [c0[arr].kids[i]] + roots, a) == RefsTo(c0, roots, a)
      {
        HeldUpdate(c0, arr, c[arr], a);
        CountUpdate(c0[arr].kids, i, Imm, a);
        CountConcat([c0[arr].kids[i]], roots, a);
      }
    }

    /** The cells with the count of `v` one up. */
    static function Retained(cells: Cells, v: Val): Cells
      requires v.Ref? ==> IsLive(cells, v.addr)
    {
      if v.Imm? then cells else cells[v.addr := Live(cells[v.addr].rc + 1, cells[v.addr].kids)]
    }

    /** Filling a slot that held null adds one reference, to `v`. */
    lemma FilledCount(c: Cells, arr: nat, i: nat, v: Val, a: nat)
      requires IsLive(c, arr) && i < |c[arr].kids| && c[arr].kids[i] == Imm && (v.Ref? ==> IsLive(c, v.addr))
      ensures Held(Retained(c[arr := c[arr].(kids := c[arr].kids[i := v])], v), a) ==
              Held(c, a) + if v == Ref(a) then 1 else 0
    {
      var c2 := c[arr := c[arr].(kids := c[arr].kids[i := v])];
      HeldUpdate(c, arr, c2[arr], a);
      CountUpdate(c[arr].kids, i, v, a);
      if v.Ref? {
        HeldUpdate(c2, v.addr, Retained(c2, v)[v.addr], a);
      }
    }

    /** Writing `v` over the blanked slot and retaining it. */
    lemma FilledOk(c1: Cells, arr: nat, i: nat, v: Val, roots: seq<Val>, blank: map<nat, seq<Val>>)
      requires IsLive(c1, arr) && i < |c1[arr].kids| && blank == map[arr := c1[arr].kids[i := Imm]]
      requires Counted(View(c1, {}, blank), roots) && v in roots
      ensures v.Ref? ==> IsLive(c1, v.addr)
      ensures Counted(Retained(c1[arr := c1[arr].(kids := c1[arr].kids[i := v])], v), roots)
    {
      hide Held, Count;
      var c := View(c1, {}, blank);
      assert c == c1[arr := c1[arr].(kids := c1[arr].kids[i := Imm])];
      if v.Ref? {
        InCounts(roots, v.addr);
        assert RefsTo(c, roots, v.addr) > 0;
      }
      assert c[arr].kids[i := v] == c1[arr].kids[i := v];
      assert c[arr := c[arr].(kids := c[arr].kids[i := v])] == c1[arr := c1[arr].(kids := c1[arr].kids[i := v])];
      var c3 := Retained(c1[arr := c1[arr].(kids := c1[arr].kids[i := v])], v);
      forall a: nat
        ensures RefsTo(c3, roots, a) == RefsTo(c, roots, a) + if v == Ref(a) then 1 else 0
      {
        FilledCount(c, arr, i, v, a);
      }
      forall a: nat | IsLive(c3, a)
        ensures c3[a].rc >= 1 && c3[a].rc >= RefsTo(c3, roots, a)
      {
        assert IsLive(c, a);
      }
    }

    lemma Held2(temps: seq<Val>, v: Val)
      requires v in temps || v in Roots()
      ensures v.Ref? ==> RefsTo(heap.cells, temps + Roots(), v.addr) > 0
    {
      if v.Ref? {
        InCounts(temps + Roots(), v.addr);
      }
    }

    lemma TempIsLive(temps: seq<Val>, v: Val)
      requires Safe(temps) && v in temps && v.Ref?
      ensures IsLive(heap.cells, v.addr)
    {
      Held2(temps, v);
    }

    lemma ImmTemp(temps: seq<Val>)
      requires Safe(temps)
      ensures Safe([Imm] + temps)
    {
      forall a: nat
        ensures Count([Imm] + temps + Roots(), a) == Count(temps + Roots(), a)
      {
        assert [Imm] + temps + Roots() == [Imm] + (temps + Roots());
        CountConcat([Imm], temps + Roots(), a);
      }
      CountedSame(heap.cells, temps + Roots(), [Imm] + temps + Roots());
    }

    /** Order of the C variables does not matter. */
    lemma Reorder(temps: seq<Val>, temps': seq<Val>)
      requires Safe(temps) && SameRoots(temps, temps')
      ensures Safe(temps')
    {
      forall a: nat
        ensures Count(temps + Roots(), a) == Count(temps' + Roots(), a)
      {
        CountConcat(temps, Roots(), a);
        CountConcat(temps', Roots(), a);
      }
      CountedSame(heap.cells, temps + Roots(), temps' + Roots());
    }

    lemma Swap(a: Val, b: Val, rest: seq<Val>)
      requires Safe([a] + ([b] + rest))
      ensures Safe([b] + ([a] + rest))
    {
      forall x: nat
        ensures Count([a] + ([b] + rest), x) == Count([b] + ([a] + rest), x)
      {
        CountConcat([a], [b] + rest, x);
        CountConcat([b], [a] + rest, x);
        CountConcat([b], rest, x);
        CountConcat([a], rest, x);
      }
      Reorder([a] + ([b] + rest), [b] + ([a] + rest));
    }

    /** Cut the top `n` operands off the stack. */
    method TakeArgs(n: nat, ghost temps: seq<Val>) returns (args: seq<Val>)
      requires Safe(temps) && n <= |stack|
      modifies this`stack
      ensures args == old(stack)[|old(stack)| - n..] && stack == old(stack)[..|old(stack)| - n]
      ensures Safe(args + temps)
    {
      ghost var before, stack0 := temps + Roots(), stack;
      args := stack[|stack| - n..];
      forall a: nat
        ensures Count(before, a) == Count(temps, a) + RootCount(stack0, frames, globals, Fixed(), a)
      {
        RootsCount(temps, a);
      }
      stack := stack[..|stack| - n];
      forall a: nat
        ensures Count(args + temps + Roots(), a) == Count(before, a)
      {
        RootsCount(args + temps, a);
        CountConcat(args, temps, a);
        CountConcat(stack, args, a);
        assert stack0 == stack + args;
      }
      CountedSame(heap.cells, before, args + temps + Roots());
    }

    /** A new frame owns the values placed in its locals. */
    method PushFrame(locals: seq<Val>, ghost temps: seq<Val>)
      requires Safe(locals + temps)
      modifies this`frames
      ensures frames == old(frames) + [locals] && Safe(temps)
    {
      ghost var before, frames0 := locals + temps + Roots(), frames;
      forall a: nat
        ensures Count(before, a) == Count(locals, a) + Count(temps, a) + RootCount(stack, frames0, globals, Fixed(), a)
      {
        RootsCount(locals + temps, a);
        CountConcat(locals, temps, a);
      }
      frames := frames + [locals];
      FlatPush(frames0, locals);
      forall a: nat
        ensures Count(temps + Roots(), a) == Count(before, a)
      {
        RootsCount(temps, a);
        CountConcat(Flat(frames0), locals, a);
      }
      CountedSame(heap.cells, before, temps + Roots());
    }

    method PopFrame(ghost temps: seq<Val>) returns (locals: seq<Val>)
      requires Safe(temps) && frames != []
      modifies this`frames
      ensures frames == DropLast(old(frames)) && locals == Last(old(frames)) && Safe(locals + temps)
    {
      ghost var before, frames0 := temps + Roots(), frames;
      forall a: nat
        ensures Count(before, a) == Count(temps, a) + RootCount(stack, frames0, globals, Fixed(), a)
      {
        RootsCount(temps, a);
      }
      locals := Last(frames);
      frames := DropLast(frames);
      forall a: nat
        ensures Count(locals + temps + Roots(), a) == Count(before, a)
      {
        RootsCount(locals + temps, a);
        CountConcat(locals, temps, a);
        CountConcat(Flat(frames), locals, a);
      }
      CountedSame(heap.cells, before, locals + temps + Roots());
    }

    /** release_value of a reference the machine still holds, once `roots` are the references that will be left. */
    method ReleaseHeld(v: Val, ghost held: seq<Val>, ghost roots: seq<Val>)
      requires Safe(held) && SameRoots(held + Roots(), [v] + roots)
      modifies heap
      ensures Counted(heap.cells, roots)
    {
      CountedSame(heap.cells, held + Roots(), [v] + roots);
      assert View(heap.cells, {}, map[]) == heap.cells;
      heap.Release(v, roots, {}, map[]);
      assert View(heap.cells, {}, map[]) == heap.cells;
    }

    /** A local of the running frame is released while it is in its slot, and then overwritten with `v`. */
    method ReplaceLocal(slot: nat, v: Val, ghost temps: seq<Val>)
      requires Safe([v] + temps) && frames != [] && slot < |Last(frames)|
      modifies this`frames, heap
      ensures frames == DropLast(old(frames)) + [Last(old(frames))[slot := v]] && Safe(temps)
    {
      var dropped := Last(frames)[slot];
      ghost var filled := DropLast(frames) + [Last(frames)[slot := v]];
      ghost var roots := temps + (stack + Flat(filled) + globals + Fixed());
      forall a: nat
        ensures Count([v] + temps + Roots(), a) == Count([dropped] + roots, a)
      {
        RootsCount([v] + temps, a);
        CountConcat([v], temps, a);
        CountConcat([dropped], roots, a);
        RootsCountOf(temps, stack, filled, globals, Fixed(), a);
        LocalCount(frames, slot, v, a);
      }
      ReleaseHeld(dropped, [v] + temps, roots);
      frames := DropLast(frames) + [Last(frames)[slot := v]];
    }

    static lemma LocalCount(frames: seq<seq<Val>>, slot: nat, v: Val, a: nat)
      requires frames != [] && slot < |Last(frames)|
      ensures Count(Flat(DropLast(frames) + [Last(frames)[slot := v]]), a) + Count([Last(frames)[slot]], a)
           == Count(Flat(frames), a) + Count([v], a)
    {
      var rest, locals := DropLast(frames), Last(frames);
      FlatPush(rest, locals[slot := v]);
      CountConcat(Flat(rest), locals[slot := v], a);
      CountConcat(Flat(rest), locals, a);
      CountUpdate(locals, slot, v, a);
    }

    /** New slots of the globals array hold null. */
    method GrowGlobals(n: nat, ghost temps: seq<Val>)
      requires Safe(temps)
      modifies this`globals
      ensures globals == old(globals) + seq(n, _ => Imm) && Safe(temps)
    {
      ghost var before, globals0 := temps + Roots(), globals;
      forall a: nat
        ensures Count(before, a) == Count(temps, a) + RootCount(stack, frames, globals0, Fixed(), a)
      {
        RootsCount(temps, a);
      }
      globals := globals + seq(n, _ => Imm);
      forall a: nat
        ensures Count(temps + Roots(), a) == Count(before, a)
      {
        RootsCount(temps, a);
        CountConcat(globals0, seq(n, _ => Imm), a);
        NoRefs(n, a);
      }
      CountedSame(heap.cells, before, temps + Roots());
    }

    /** val_array / val_map: one more on the count, for no new reference. */
    method Wrap(v: Val, ghost temps: seq<Val>)
      requires Safe(temps) && v in temps && v.Ref?
      modifies heap
      ensures Safe(temps) && Safe([v] + temps) && Bumped(v)
    {
      Held2(temps, v);
      Share(v, temps);
      Forget(v, temps);
    }

    // ---- the opcodes ----

    method Const(idx: nat)
      requires Safe([]) && idx < |consts|
      modifies this`stack, heap
      ensures Safe([]) && stack == old(stack) + [consts[idx]]
    {
      assert consts[idx] in Fixed();
      Held2([], consts[idx]);
      Share(consts[idx], []);
      Push(consts[idx], []);
    }

    /** TRUE, FALSE, NULL, PUSHFN: values without an object. */
    method Immediate()
      requires Safe([])
      modifies this`stack
      ensures Safe([]) && stack == old(stack) + [Imm]
    {
      ImmTemp([]);
      Push(Imm, []);
    }

    method PopOp()
      requires Safe([]) && stack != []
      modifies this`stack, heap
      ensures Safe([]) && stack == DropLast(old(stack))
    {
      var v := Pop([]);
      Discard(v, []);
    }

    method Load(slot: nat)
      requires Safe([]) && frames != [] && slot < |Last(frames)|
      modifies this`stack, heap
      ensures Safe([]) && stack == old(stack) + [Last(frames)[slot]]
    {
      var v := Last(frames)[slot];
      assert v in Last(frames) && v in Flat(frames);
      Held2([], v);
      Share(v, []);
      Push(v, []);
    }

    /** STORE: the old value is released, then the operand moves into the slot. */
    method Store(slot: nat)
      requires Safe([]) && stack != [] && frames != [] && slot < |Last(frames)|
      modifies this`stack, this`frames, heap
      ensures Safe([]) && stack == DropLast(old(stack))
      ensures frames == DropLast(old(frames)) + [Last(old(frames))[slot := Last(old(stack))]]
    {
      ghost var v, filled := Last(stack), DropLast(frames) + [Last(frames)[slot := Last(stack)]];
      var dropped := Last(frames)[slot];
      ghost var roots := [] + (DropLast(stack) + Flat(filled) + globals + Fixed());
      forall a: nat
        ensures Count([] + Roots(), a) == Count([dropped] + roots, a)
      {
        RootsCount([], a);
        CountConcat([dropped], roots, a);
        RootsCountOf([], DropLast(stack), filled, globals, Fixed(), a);
        LocalCount(frames, slot, v, a);
        CountPush(DropLast(stack), v, a);
        assert stack == DropLast(stack) + [v];
      }
      ReleaseHeld(dropped, [], roots);
      frames := DropLast(frames) + [Last(frames)[slot := Last(stack)]];
      stack := DropLast(stack);
    }

    method GetGlobal(slot: nat)
      requires Safe([])
      modifies this`stack, heap
      ensures Safe([]) && stack == old(stack) + [if slot < |globals| then globals[slot] else Imm]
    {
      var v := if slot < |globals| then globals[slot] else Imm;
      if v.Ref? {
        Held2([], v);
      }
      Share(v, []);
      Push(v, []);
    }

    method SetGlobal(slot: nat)
      requires Safe([]) && stack != []
      modifies this`stack, this`globals, heap
      ensures Safe([]) && stack == DropLast(old(stack))
      ensures slot < |globals| && globals[slot] == Last(old(stack))
      ensures forall i :: 0 <= i < |globals| && i != slot ==>
                globals[i] == if i < |old(globals)| then old(globals)[i] else Imm
    {
      if slot >= |globals| {
        GrowGlobals(slot + 1 - |globals|, []);
      }
      ghost var v := Last(stack);
      var dropped := globals[slot];
      ghost var roots := [] + (DropLast(stack) + Flat(frames) + globals[slot := v] + Fixed());
      forall a: nat
        ensures Count([] + Roots(), a) == Count([dropped] + roots, a)
      {
        RootsCount([], a);
        CountConcat([dropped], roots, a);
        RootsCountOf([], DropLast(stack), frames, globals[slot := v], Fixed(), a);
        CountUpdate(globals, slot, v, a);
        CountPush(DropLast(stack), v, a);
        assert stack == DropLast(stack) + [v];
      }
      ReleaseHeld(dropped, [], roots);
      globals := globals[slot := Last(stack)];
      stack := DropLast(stack);
    }

    /**
     A binary operation: the result, immediate or with `text` a new string, is pushed before
     the operands are released.
     */
    method Binary(text: bool)
      requires Safe([]) && |stack| >= 2
      modifies this`stack, heap
      ensures Safe([]) && |stack| == |old(stack)| - 1 && DropLast(stack) == old(stack)[..|old(stack)| - 2]
      ensures text <==> Last(stack).Ref?
      ensures text ==> Last(stack) == Ref(|old(heap.cells)|)
    {
      var args := TakeArgs(2, []);
      var r := Imm;
      assert args + [] == args;
      if text {
        r := Make(args);
      } else {
        ImmTemp(args);
      }
      Push(r, args);
      assert args + [] == args;
      DiscardAll(args, []);
    }

    /** A reference that is overwritten or forgotten without a release: its count stays. */
    lemma Forget(v: Val, temps: seq<Val>)
      requires Safe([v] + temps)
      ensures Safe(temps)
    {
      forall a: nat
        ensures Count([v] + temps + Roots(), a) >= Count(temps + Roots(), a)
      {
        assert [v] + temps + Roots() == [v] + (temps + Roots());
        CountConcat([v], temps + Roots(), a);
      }
    }

    /** NEG and BNOT overwrite their operand in place, without a release. */
    method Negate()
      requires Safe([]) && stack != []
      modifies this`stack
      ensures Safe([]) && stack == DropLast(old(stack)) + [Imm]
    {
      var v := Pop([]);
      Forget(v, []);
      ImmTemp([]);
      Push(Imm, []);
    }

    /** NOT and LEN release their operand and put an immediate in its place. */
    method Test()
      requires Safe([]) && stack != []
      modifies this`stack, heap
      ensures Safe([]) && stack == DropLast(old(stack)) + [Imm]
    {
      var v := Pop([]);
      Discard(v, []);
      ImmTemp([]);
      Push(Imm, []);
    }

    /** HAS releases the key, then the map. */
    method HasKey()
      requires Safe([]) && |stack| >= 2
      modifies this`stack, heap
      ensures Safe([]) && stack == old(stack)[..|old(stack)| - 2] + [Imm]
    {
      hide Counted, Count, Held, FreedRefs, Flat, Released;
      var key := Pop([]);
      var mp := Pop([key] + []);
      Swap(mp, key, []);
      Discard(key, [mp] + []);
      Discard(mp, []);
      ImmTemp([]);
      Push(Imm, []);
    }

    method Call(argc: nat, nlocals: nat)
      requires Safe([]) && argc <= |stack| && argc <= nlocals
      modifies this`stack, this`frames
      ensures Safe([]) && stack == old(stack)[..|old(stack)| - argc]
      ensures frames == old(frames) + [old(stack)[|old(stack)| - argc..] + seq(nlocals - argc, _ => Imm)]
    {
      var args := TakeArgs(argc, []);
      PadTemps(args, nlocals - argc, []);
      PushFrame(args + seq(nlocals - argc, _ => Imm), []);
    }

    lemma PadTemps(vs: seq<Val>, n: nat, temps: seq<Val>)
      requires Safe(vs + temps)
      ensures Safe(vs + seq(n, _ => Imm) + temps)
    {
      forall a: nat
        ensures Count(vs + seq(n, _ => Imm) + temps, a) == Count(vs + temps, a)
      {
        CountConcat(vs + seq(n, _ => Imm), temps, a);
        CountConcat(vs, seq(n, _ => Imm), a);
        CountConcat(vs, temps, a);
        NoRefs(n, a);
      }
      Reorder(vs + temps, vs + seq(n, _ => Imm) + temps);
    }

    /** RET; the outermost one ends the run and releases its value as well. */
    method Ret() returns (ended: bool)
      requires Safe([]) && stack != [] && frames != []
      modifies this`stack, this`frames, heap
      ensures Safe([]) && frames == DropLast(old(frames)) && ended == (|old(frames)| == 1)
      ensures stack == if ended then DropLast(old(stack)) else old(stack)
    {
      var ret := Pop([]);
      var locals := PopFrame([ret] + []);
      DiscardAll(locals, [ret] + []);
      ended := frames == [];
      if ended {
        Discard(ret, []);
      } else {
        Push(ret, []);
      }
    }

    method Closure(ncap: nat)
      requires Safe([]) && ncap <= |stack|
      modifies this`stack, heap
      ensures Safe([]) && |stack| == |old(stack)| - ncap + 1 && DropLast(stack) == old(stack)[..|old(stack)| - ncap]
      ensures Last(stack).Ref? && IsLive(heap.cells, Last(stack).addr)
      ensures heap.cells[Last(stack).addr].kids == old(stack)[|old(stack)| - ncap..]
    {
      hide Counted, Count, Held, FreedRefs, Flat, Released;
      var base := |stack| - ncap;
      var cap := Make([]);
      assert [cap] + [] == [cap];
      for i := 0 to ncap
        invariant Safe([cap]) && IsLive(heap.cells, cap.addr) && cap.Ref?
        invariant heap.cells[cap.addr].kids == stack[base..base + i]
        modifies heap
      {
        Held2([cap], stack[base + i]);
        AppendKid(cap.addr, stack[base + i], [cap]);
      }
      var args := TakeArgs(ncap, [cap]);
      ghost var c0, roots0 := heap.cells, args + ([cap] + Roots());
      DiscardAll(args, [cap]);
      RootKept(c0, heap.cells, roots0, [cap] + Roots(), cap);
      assert [cap] == [cap] + [];
      Push(cap, []);
    }

    /** A release leaves the objects the remaining roots refer to. */
    static lemma RootKept(c0: Cells, c1: Cells, roots0: seq<Val>, roots: seq<Val>, v: Val)
      requires Released(c0, c1, roots0, roots) && v in roots && v.Ref?
      ensures IsLive(c1, v.addr) && IsLive(c0, v.addr) && c1[v.addr].kids == c0[v.addr].kids
    {
      InCounts(roots, v.addr);
      assert RefsTo(c1, roots, v.addr) > 0;
    }

    /** CALLVALUE with a plain function value, which is no object. */
    method CallFunction(argc: nat, nlocals: nat)
      requires Safe([]) && argc < |stack| && stack[|stack| - argc - 1].Imm? && argc <= nlocals
      modifies this`stack, this`frames, heap
      ensures Safe([]) && stack == old(stack)[..|old(stack)| - argc - 1]
      ensures frames == old(frames) + [old(stack)[|old(stack)| - argc..] + seq(nlocals - argc, _ => Imm)]
    {
      var args := TakeArgs(argc, []);
      assert args + [] == args;
      var f := Pop(args);
      Discard(f, args);
      PadTemps(args, nlocals - argc, []);
      PushFrame(args + seq(nlocals - argc, _ => Imm), []);
    }

    /** CALLVALUE with a closure: its captures are shared into the leading locals. */
    method CallClosure(argc: nat, nlocals: nat)
      requires Safe([]) && argc < |stack| && stack[|stack| - argc - 1].Ref?
      requires IsLive(heap.cells, stack[|stack| - argc - 1].addr)
      requires |heap.cells[stack[|stack| - argc - 1].addr].kids| + argc <= nlocals
      modifies this`stack, this`frames, heap
      ensures Safe([]) && stack == old(stack)[..|old(stack)| - argc - 1]
      ensures var captured := old(heap.cells)[old(stack)[|old(stack)| - argc - 1].addr].kids;
              frames == old(frames)
                + [captured + old(stack)[|old(stack)| - argc..] + seq(nlocals - |captured| - argc, _ => Imm)]
    {
      hide Counted, Count, Held, FreedRefs, Flat;
      var args := TakeArgs(argc, []);
      assert args + [] == args;
      var f := Pop(args);
      var captured := heap.cells[f.addr].kids;
      assert captured[..0] + ([f] + args) == [f] + args;
      for i := 0 to |captured|
        invariant IsLive(heap.cells, f.addr) && heap.cells[f.addr].kids == captured
        invariant Safe(captured[..i] + ([f] + args))
        modifies heap
      {
        ghost var temps := captured[..i] + ([f] + args);
        HeldAtLeastAny(f.addr, captured[i]);
        Share(captured[i], temps);
        forall a: nat
          ensures Count([captured[i]] + temps, a) == Count(captured[..i + 1] + ([f] + args), a)
        {
          CountConcat([captured[i]], temps, a);
          CountConcat(captured[..i], [f] + args, a);
          CountConcat(captured[..i + 1], [f] + args, a);
          CountPush(captured[..i], captured[i], a);
          assert captured[..i + 1] == captured[..i] + [captured[i]];
        }
        Reorder([captured[i]] + temps, captured[..i + 1] + ([f] + args));
      }
      assert captured[..|captured|] == captured;
      forall a: nat
        ensures Count(captured + ([f] + args), a) == Count([f] + (captured + args), a)
      {
        CountConcat(captured, [f] + args, a);
        CountConcat([f], args, a);
        CountConcat([f], captured + args, a);
        CountConcat(captured, args, a);
      }
      Reorder(captured + ([f] + args), [f] + (captured + args));
      Discard(f, captured + args);
      assert captured + args + [] == captured + args;
      PadTemps(captured + args, nlocals - |captured| - argc, []);
      PushFrame(captured + args + seq(nlocals - |captured| - argc, _ => Imm), []);
    }

    lemma HeldAtLeastAny(b: nat, v: Val)
      requires IsLive(heap.cells, b) && v in heap.cells[b].kids
      ensures v.Ref? ==> Held(heap.cells, v.addr) > 0
    {
      if v.Ref? {
        HeldAtLeast(heap.cells, b, v.addr);
      }
    }

    /** NEWARR: the array is counted once more than it is referenced. */
    method NewArray(n: nat)
      requires Safe([]) && n <= |stack|
      modifies this`stack, heap
      ensures Safe([]) && |stack| == |old(stack)| - n + 1 && Safe([Last(stack)])
      ensures DropLast(stack) == old(stack)[..|old(stack)| - n]
      ensures Last(stack).Ref? && IsLive(heap.cells, Last(stack).addr)
      ensures heap.cells[Last(stack).addr].kids == old(stack)[|old(stack)| - n..]
    {
      hide Counted, Count, Held, FreedRefs, Flat;
      var arr := Make([]);
      assert [arr] + [] == [arr];
      var args := TakeArgs(n, [arr]);
      for i := 0 to n
        invariant Safe(args[i..] + [arr]) && IsLive(heap.cells, arr.addr) && arr.Ref?
        invariant heap.cells[arr.addr].kids == args[..i]
        modifies heap
      {
        assert args[i..] + [arr] == [args[i]] + (args[i + 1..] + [arr]);
        Held2(args[i..] + [arr], args[i]);
        AppendKid(arr.addr, args[i], args[i..] + [arr]);
        Discard(args[i], args[i + 1..] + [arr]);
        TempIsLive(args[i + 1..] + [arr], arr);
        assert args[..i + 1] == args[..i] + [args[i]];
      }
      assert args[n..] + [arr] == [arr];
      Wrap(arr, [arr]);
      Push(arr, [arr]);
      Forget(arr, []);
      assert args[..n] == args;
    }

    /** The children of a map after one entry was set. */
    static function SetKids(kids: seq<Val>, k: Val, v: Val, at: Option<nat>): seq<Val> {
      if at.Some? && at.value < |kids| then kids[at.value := v] else kids + [k, v]
    }

    /** The children of a map after the pairs `args` were set in turn, each where `places` says its key was found. */
    static function SetAll(kids: seq<Val>, args: seq<Val>, places: seq<Option<nat>>): seq<Val>
      requires |args| == 2 * |places|
    {
      if places == [] then kids
      else
        var n := |places| - 1;
        SetKids(SetAll(kids, args[..2 * n], places[..n]), args[2 * n], args[2 * n + 1], places[n])
    }

    static lemma SetAllNext(args: seq<Val>, places: seq<Option<nat>>, i: nat)
      requires |args| == 2 * |places| && i < |places|
      ensures SetAll([], args[..2 * i + 2], places[..i + 1]) ==
                SetKids(SetAll([], args[..2 * i], places[..i]), args[2 * i], args[2 * i + 1], places[i])
    {
      assert args[..2 * i + 2][..2 * i] == args[..2 * i] && places[..i + 1][..i] == places[..i];
    }

    /** A map of keys that are all new has its pairs as they were pushed, key before value. */
    static lemma {:induction false} SetAllNew(kids: seq<Val>, args: seq<Val>, places: seq<Option<nat>>)
      requires |args| == 2 * |places| && forall i :: 0 <= i < |places| ==> places[i].None?
      ensures SetAll(kids, args, places) == kids + args
    {
      if places == [] {
        assert kids + args == kids;
      } else {
        var n := |places| - 1;
        SetAllNew(kids, args[..2 * n], places[..n]);
        assert args == args[..2 * n] + [args[2 * n], args[2 * n + 1]];
      }
    }

    /** Setting an entry that is there changes its value alone. */
    static lemma SetKidsFound(kids: seq<Val>, k: Val, v: Val, i: nat, j: nat)
      requires i < |kids| && j < |kids|
      ensures var r := SetKids(kids, k, v, Some(i)); |r| == |kids| && r[j] == if j == i then v else kids[j]
    {
    }

    /** rc_map_set: `at` is where the key's value is, or the key is new. */
    method MapSet(mp: nat, k: Val, v: Val, at: Option<nat>, ghost temps: seq<Val>)
      requires Safe(temps) && IsLive(heap.cells, mp) && Ref(mp) in temps && k in temps && v in temps
      modifies heap
      ensures Safe(temps) && IsLive(heap.cells, mp)
      ensures heap.cells[mp].kids == SetKids(old(heap.cells)[mp].kids, k, v, at)
      ensures OthersKept(old(heap.cells), heap.cells, mp) && |heap.cells| == |old(heap.cells)|
    {
      if at.Some? && at.value < |heap.cells[mp].kids| {
        Overwrite(mp, at.value, v, temps);
      } else {
        Held2(temps, k);
        AppendKid(mp, k, temps);
        Held2(temps, v);
        AppendKid(mp, v, temps);
      }
    }

    /** INDEX: slot `i` of the container's children, null for a missing key, or with `text` a new string. */
    method Index(i: Option<nat>, text: bool)
      requires Safe([]) && |stack| >= 2
      requires i.Some? ==>
                 var cont := stack[|stack| - 2];
                 cont.Ref? && IsLive(heap.cells, cont.addr) && i.value < |heap.cells[cont.addr].kids|
      modifies this`stack, heap
      ensures Safe([]) && |stack| == |old(stack)| - 1 && DropLast(stack) == old(stack)[..|old(stack)| - 2]
      ensures i.Some? ==> Last(stack) == old(heap.cells)[old(stack)[|old(stack)| - 2].addr].kids[i.value]
    {
      hide Counted, Count, Held, FreedRefs, Flat;
      var key := Pop([]);
      var cont := Pop([key] + []);
      ghost var temps := [cont] + ([key] + []);
      var r := Imm;
      if i.Some? {
        r := heap.cells[cont.addr].kids[i.value];
        HeldAtLeastAny(cont.addr, r);
        Share(r, temps);
      } else if text {
        r := Make(temps);
      } else {
        ImmTemp(temps);
      }
      Push(r, temps);
      Swap(cont, key, []);
      Discard(key, [cont] + []);
      Discard(cont, []);
    }

    /** SETIDX on an array element or a map entry. */
    method SetIndex(at: Option<nat>)
      requires Safe([]) && |stack| >= 3
      requires var cont := stack[|stack| - 3];
               cont.Ref? && IsLive(heap.cells, cont.addr)
      modifies this`stack, heap
      ensures Safe([]) && stack == old(stack)[..|old(stack)| - 3]
      ensures var n := |old(stack)|;
              var a, k, v := old(stack)[n - 3].addr, old(stack)[n - 2], old(stack)[n - 1];
              IsLive(heap.cells, a) ==>
                heap.cells[a].kids == SetKids(old(heap.cells)[a].kids, k, v, at)
    {
      hide Counted, Count, Held, FreedRefs, Flat;
      var v := Pop([]);
      var key := Pop([v] + []);
      var cont := Pop([key] + ([v] + []));
      ghost var temps := [cont] + ([key] + ([v] + []));
      assert cont in temps && key == temps[1] && v == temps[2];
      MapSet(cont.addr, key, v, at, temps);
      assert temps == [cont, key, v];
      forall a: nat
        ensures Count(temps, a) == Count([v, key, cont], a)
      {
        assert temps == [cont] + ([key] + [v]) && [v, key, cont] == [v] + ([key] + [cont]);
        CountConcat([cont], [key] + [v], a);
        CountConcat([key], [v], a);
        CountConcat([v], [key] + [cont], a);
        CountConcat([key], [cont], a);
      }
      Reorder(temps, [v, key, cont]);
      assert [v, key, cont] == [v, key, cont] + [];
      DiscardAll([v, key, cont], []);
    }

    /**
     NEWMAP: each pair is set in turn, where `places` says its key is found, then given up.
     The map is counted once too often.
     */
    method NewMap(places: seq<Option<nat>>)
      requires Safe([]) && 2 * |places| <= |stack|
      modifies this`stack, heap
      ensures Safe([]) && |stack| == |old(stack)| - 2 * |places| + 1 && Safe([Last(stack)])
      ensures DropLast(stack) == old(stack)[..|old(stack)| - 2 * |places|]
      ensures Last(stack).Ref? && IsLive(heap.cells, Last(stack).addr)
      ensures heap.cells[Last(stack).addr].kids == SetAll([], old(stack)[|old(stack)| - 2 * |places|..], places)
    {
      hide Counted, Count, Held, FreedRefs, Flat, SetKids, Released, SetAll;
      var n := |places|;
      var mp := Make([]);
      assert [mp] + [] == [mp];
      var args := TakeArgs(2 * n, [mp]);
      SetAllNew([], [], []);
      for i := 0 to n
        invariant Safe(args[2 * i..] + [mp]) && IsLive(heap.cells, mp.addr) && mp.Ref?
        invariant heap.cells[mp.addr].kids == SetAll([], args[..2 * i], places[..i])
        modifies heap
      {
        ghost var rest := args[2 * i + 2..] + [mp];
        assert args[2 * i..] + [mp] == [args[2 * i]] + ([args[2 * i + 1]] + rest);
        SetPair(mp, args[2 * i], args[2 * i + 1], places[i], rest);
        SetAllNext(args, places, i);
      }
      assert args[2 * n..] + [mp] == [mp];
      Wrap(mp, [mp]);
      Push(mp, [mp]);
      Forget(mp, []);
      assert args[..2 * n] == args && places[..n] == places;
    }

    method SetPair(mp: Val, k: Val, v: Val, at: Option<nat>, ghost rest: seq<Val>)
      requires Safe([k] + ([v] + rest)) && mp in rest && mp.Ref? && IsLive(heap.cells, mp.addr)
      modifies heap
      ensures Safe(rest) && IsLive(heap.cells, mp.addr)
      ensures heap.cells[mp.addr].kids == SetKids(old(heap.cells)[mp.addr].kids, k, v, at)
    {
      hide Counted, Count, Held, FreedRefs, Flat, Released, SetKids;
      ghost var temps := [k] + ([v] + rest);
      assert k == temps[0] && v == temps[1] && temps[2..] == rest;
      MapSet(mp.addr, k, v, at, temps);
      ghost var c0 := heap.cells;
      Discard(k, [v] + rest);
      RootKept(c0, heap.cells, [k] + ([v] + rest + Roots()), [v] + rest + Roots(), mp);
      c0 := heap.cells;
      Discard(v, rest);
      RootKept(c0, heap.cells, [v] + (rest + Roots()), rest + Roots(), mp);
    }

    method Append()
      requires Safe([]) && |stack| >= 2
      requires var arr := stack[|stack| - 2]; arr.Ref? && IsLive(heap.cells, arr.addr)
      modifies this`stack, heap
      ensures Safe([]) && stack == old(stack)[..|old(stack)| - 2] + [Imm]
      ensures var a := old(stack)[|old(stack)| - 2].addr;
              IsLive(heap.cells, a) ==> heap.cells[a].kids == old(heap.cells)[a].kids + [Last(old(stack))]
    {
      hide Counted, Count, Held, FreedRefs, Flat;
      var v := Pop([]);
      var arr := Pop([v] + []);
      ghost var temps := [arr] + ([v] + []);
      assert v == temps[1];
      Held2(temps, v);
      AppendKid(arr.addr, v, temps);
      Swap(arr, v, []);
      Discard(v, [arr] + []);
      Discard(arr, []);
      ImmTemp([]);
      Push(Imm, []);
    }

    /** KEYS: a new array, counted once too often, shares the map's keys, listed by their places in `order`. */
    method Keys(order: seq<nat>)
      requires Safe([]) && stack != [] && Last(stack).Ref? && IsLive(heap.cells, Last(stack).addr)
      requires forall i :: 0 <= i < |order| ==> order[i] < |heap.cells[Last(stack).addr].kids|
      modifies this`stack, heap
      ensures Safe([]) && |stack| == |old(stack)| && DropLast(stack) == DropLast(old(stack)) && Safe([Last(stack)])
      ensures Last(stack).Ref? && IsLive(heap.cells, Last(stack).addr)
      ensures var keys, kids := heap.cells[Last(stack).addr].kids, old(heap.cells)[Last(old(stack)).addr].kids;
              |keys| == |order| && forall i :: 0 <= i < |order| ==> keys[i] == kids[order[i]]
    {
      hide Counted, Count, Held, FreedRefs, Flat, Released;
      var mp := Pop([]);
      var arr := Make([mp] + []);
      ghost var temps := [arr] + ([mp] + []);
      ghost var kids := heap.cells[mp.addr].kids;
      for i := 0 to |order|
        invariant Safe(temps) && arr.Ref? && arr != mp
        invariant IsLive(heap.cells, arr.addr) && IsLive(heap.cells, mp.addr) && heap.cells[mp.addr].kids == kids
        invariant |heap.cells[arr.addr].kids| == i
        invariant forall j :: 0 <= j < i ==> heap.cells[arr.addr].kids[j] == kids[order[j]]
        modifies heap
      {
        var k := heap.cells[mp.addr].kids[order[i]];
        HeldAtLeastAny(mp.addr, k);
        AppendKid(arr.addr, k, temps);
      }
      Swap(arr, mp, []);
      ghost var c0, roots0 := heap.cells, [mp] + ([arr] + [] + Roots());
      Discard(mp, [arr] + []);
      RootKept(c0, heap.cells, roots0, [arr] + [] + Roots(), arr);
      assert [arr] + [] == [arr];
      Wrap(arr, [arr]);
      Push(arr, [arr]);
      Forget(arr, []);
    }

    method Coalesce(isNull: bool)
      requires Safe([]) && |stack| >= 2 && (isNull ==> stack[|stack| - 2].Imm?)
      modifies this`stack, heap
      ensures Safe([])
      ensures stack == old(stack)[..|old(stack)| - 2] +
              [old(stack)[if isNull then |old(stack)| - 1 else |old(stack)| - 2]]
    {
      var b := Pop([]);
      var a := Pop([b] + []);
      if isNull {
        Swap(a, b, []);
        Push(b, [a] + []);
        Discard(a, []);
      } else {
        Push(a, [b] + []);
        Discard(b, []);
      }
    }

    /** What a raise of `v` from `stack0` and `frames0` leaves. */
    ghost predicate Unwound(h: Handler, v: Val, stack0: seq<Val>, frames0: seq<seq<Val>>)
      requires Catches(h, frames0)
      reads this
    {
      var n := Left(h, |frames0|);
      && stack == (if h.sp <= |stack0| then stack0[..h.sp] else stack0)
      && frames == if h.slot == NO_SLOT then frames0[..n] else frames0[..n - 1] + [frames0[n - 1][h.slot := v]]
    }

    /** raise_exception: unwind to the top handler, releasing the operands and locals above it. */
    method Raise(v: Val, ghost temps: seq<Val>)
      requires Safe([v] + temps) && handlers != []
      requires Catches(Last(handlers), frames)
      modifies this, heap
      ensures Safe(temps) && handlers == DropLast(old(handlers)) && globals == old(globals) && pinned == old(pinned)
      ensures Unwound(Last(old(handlers)), v, old(stack), old(frames))
    {
      var h := Last(handlers);
      handlers := DropLast(handlers);
      while |stack| > h.sp
        invariant Safe([v] + temps) && |stack| <= |old(stack)| && stack == old(stack)[..|stack|]
        invariant stack == old(stack) || h.sp <= |stack|
        invariant frames == old(frames) && globals == old(globals) && handlers == DropLast(old(handlers))
        invariant pinned == old(pinned)
      {
        var x := Pop([v] + temps);
        Discard(x, [v] + temps);
      }
      while |frames| > h.fp
        invariant Safe([v] + temps) && Left(h, |old(frames)|) <= |frames| <= |old(frames)|
                  && frames == old(frames)[..|frames|]
        invariant stack == if h.sp <= |old(stack)| then old(stack)[..h.sp] else old(stack)
        invariant globals == old(globals) && handlers == DropLast(old(handlers)) && pinned == old(pinned)
      {
        var locals := PopFrame([v] + temps);
        DiscardAll(locals, [v] + temps);
      }
      if h.slot != NO_SLOT {
        ReplaceLocal(h.slot, v, temps);
      } else {
        Discard(v, temps);
      }
    }

    method TryPush(slot: nat)
      requires Safe([])
      modifies this`handlers
      ensures Safe([]) && handlers == old(handlers) + [Handler(|stack|, |frames|, slot)]
    {
      handlers := handlers + [Handler(|stack|, |frames|, slot)];
    }

    method TryPop()
      requires Safe([])
      modifies this`handlers
      ensures Safe([]) && handlers == if old(handlers) == [] then [] else DropLast(old(handlers))
    {
      if handlers != [] {
        handlers := DropLast(handlers);
      }
    }

    method Throw()
      requires Safe([]) && stack != [] && handlers != []
      requires Catches(Last(handlers), frames)
      modifies this, heap
      ensures Safe([]) && handlers == DropLast(old(handlers)) && globals == old(globals) && pinned == old(pinned)
      ensures Unwound(Last(old(handlers)), Last(old(stack)), DropLast(old(stack)), old(frames))
    {
      var v := Pop([]);
      assert [v] + [] == [v];
      Raise(v, []);
    }

    /** A passing ASSERT releases the condition, then the message. */
    method AssertPasses()
      requires Safe([]) && |stack| >= 2
      modifies this`stack, heap
      ensures Safe([]) && stack == old(stack)[..|old(stack)| - 2]
    {
      hide Counted, Count, Held, FreedRefs, Flat, Released;
      var cond := Pop([]);
      var msg := Pop([cond] + []);
      Swap(msg, cond, []);
      Discard(cond, [msg] + []);
      Discard(msg, []);
    }

    /** A failing ASSERT: the raised text is new, the operands are released after the unwinding. */
    method AssertFails()
      requires Safe([]) && |stack| >= 2 && handlers != []
      requires Catches(Last(handlers), frames)
      modifies this, heap
      ensures Safe([]) && handlers == DropLast(old(handlers)) && globals == old(globals) && pinned == old(pinned)
      ensures Unwound(Last(old(handlers)), Ref(|old(heap.cells)|), old(stack)[..|old(stack)| - 2], old(frames))
    {
      var cond := Pop([]);
      assert [cond] + [] == [cond];
      var msg := Pop([cond] + []);
      assert stack == old(stack)[..|old(stack)| - 2];
      ghost var temps := [msg] + ([cond] + []);
      var err := Make(temps);
      Raise(err, temps);
      Swap(msg, cond, []);
      Discard(cond, [msg] + []);
      Discard(msg, []);
    }

    /** UNWRAP of null: the null is popped before the new text is raised. */
    method UnwrapFails()
      requires Safe([]) && stack != [] && Last(stack).Imm? && handlers != []
      requires Catches(Last(handlers), frames)
      modifies this, heap
      ensures Safe([]) && handlers == DropLast(old(handlers)) && globals == old(globals) && pinned == old(pinned)
      ensures Unwound(Last(old(handlers)), Ref(|old(heap.cells)|), DropLast(old(stack)), old(frames))
    {
      var nothing := Pop([]);
      assert [nothing] + [] == [nothing];
      Discard(nothing, []);
      var err := Make([]);
      assert [err] + [] == [err];
      Raise(err, []);
    }

    /** From here on `vs` are kept as references that nothing will release. */
    ghost method Pin(vs: seq<Val>)
      requires Safe(vs)
      modifies this`pinned
      ensures Safe([]) && pinned == old(pinned) + vs
    {
      ghost var before, fixed := vs + Roots(), Fixed();
      forall a: nat
        ensures Count(before, a) == Count(vs, a) + RootCount(stack, frames, globals, fixed, a)
      {
        RootsCount(vs, a);
      }
      pinned := pinned + vs;
      forall a: nat
        ensures Count([] + Roots(), a) == Count(before, a)
      {
        RootsCount([], a);
        assert Fixed() == fixed + vs;
        CountConcat(fixed, vs, a);
      }
      CountedSame(heap.cells, before, [] + Roots());
    }

    ghost method Unpin(was: seq<Val>, vs: seq<Val>, temps: seq<Val>)
      requires Safe(temps) && pinned == was + vs
      modifies this`pinned
      ensures Safe(vs + temps) && pinned == was
    {
      ghost var before, fixed := temps + Roots(), Fixed();
      forall a: nat
        ensures Count(before, a) == Count(temps, a) + RootCount(stack, frames, globals, fixed, a)
      {
        RootsCount(temps, a);
      }
      pinned := was;
      forall a: nat
        ensures Count(vs + temps + Roots(), a) == Count(before, a)
      {
        RootsCount(vs + temps, a);
        CountConcat(vs, temps, a);
        assert fixed == Fixed() + vs;
        CountConcat(Fixed(), vs, a);
      }
      CountedSame(heap.cells, before, vs + temps + Roots());
    }

    /** Between opcodes, everything reachable from the roots is alive. */
    lemma {:induction false} ReachableIsLive(path: seq<nat>)
      requires Safe([]) && Reaches(heap.cells, Roots(), path)
      ensures IsLive(heap.cells, Last(path))
      decreases |path|
    {
      assert [] + Roots() == Roots();
      if |path| == 1 {
        InCounts(Roots(), Last(path));
      } else {
        ReachableIsLive(DropLast(path));
        HeldAtLeast(heap.cells, Last(DropLast(path)), Last(path));
      }
      assert RefsTo(heap.cells, Roots(), Last(path)) > 0;
    }
  }
}
