/**
 The natives of the C runtime that build containers or take references out of them: the
 ones that copy elements of their operands, the ones that make a container of new objects,
 nested to any depth, and remove. Each keeps the counts of RcMachine.dfy.
 */
module RcNatives {
  import opened Common
  import opened RefCount
  import opened RcMachine

  // ---- Containers of new objects ----

  /**
   What split, json_decode, args and the like return. `given` says that the code gives up
   its own reference to each part after adding it, which not all of them do.
   */
  datatype Shape =
    | Scalar
    | Text
    | ListOf(elems: seq<Shape>, given: bool)
    | RecordOf(entries: seq<Entry>, given: bool)

  /** A value set under a new text as its key; `at` is where an equal key's value is. */
  datatype Entry = Entry(at: Option<nat>, val: Shape)

  /** Children of a map after the first `n` entries. */
  function KidCount(entries: seq<Entry>, n: nat): nat
    requires n <= |entries|
  {
    if n == 0 then 0
    else
      var c := KidCount(entries, n - 1);
      if Lands(entries[n - 1], c) then c else c + 2
  }

  predicate Lands(e: Entry, count: nat) {
    e.at.Some? && e.at.value < count
  }

  /** Which of the first `n` entries set child `i` last; none for a key. */
  function Origin(entries: seq<Entry>, n: nat, i: nat): (o: Option<nat>)
    requires n <= |entries| && i < KidCount(entries, n)
    ensures o.Some? ==> o.value < n
  {
    var c, e := KidCount(entries, n - 1), entries[n - 1];
    if Lands(e, c) && i == e.at.value then Some(n - 1)
    else if i < c then Origin(entries, n - 1, i)
    else if i == c then None
    else Some(n - 1)
  }

  ghost predicate IsText(cells: Cells, v: Val) {
    v.Ref? && IsLive(cells, v.addr) && cells[v.addr].kids == []
  }

  ghost predicate Younger(kid: Val, v: Val) {
    kid.Ref? && v.Ref? ==> kid.addr > v.addr
  }

  /** `v` is a tree of that shape, made of objects younger than their parents. */
  ghost predicate Built(cells: Cells, v: Val, shape: Shape)
    decreases shape, 3
  {
    match shape
    case Scalar => v.Imm?
    case Text => IsText(cells, v)
    case ListOf(elems, _) =>
      && v.Ref? && IsLive(cells, v.addr)
      && var kids := cells[v.addr].kids;
      && |kids| == |elems|
      && forall i :: 0 <= i < |elems| ==> Younger(kids[i], v) && Built(cells, kids[i], elems[i])
    case RecordOf(entries, _) =>
      v.Ref? && IsLive(cells, v.addr) && BuiltEntries(cells, v, shape, |entries|)
  }

  ghost predicate BuiltEntries(cells: Cells, v: Val, shape: Shape, n: nat)
    requires v.Ref? && IsLive(cells, v.addr) && shape.RecordOf? && n <= |shape.entries|
    decreases shape, 2
  {
    var kids := cells[v.addr].kids;
    && |kids| == KidCount(shape.entries, n)
    && forall i :: 0 <= i < |kids| ==>
         Younger(kids[i], v) && BuiltKid(cells, kids[i], shape, Origin(shape.entries, n, i))
  }

  ghost predicate BuiltKid(cells: Cells, kid: Val, shape: Shape, o: Option<nat>)
    requires shape.RecordOf? && (o.Some? ==> o.value < |shape.entries|)
    decreases shape, 1
  {
    match o
    case None => IsText(cells, kid)
    case Some(j) => Built(cells, kid, shape.entries[j].val)
  }

  /** A tree whose root is alive stays whole: what a live object holds is alive. */
  lemma {:induction false} BuiltStays(c0: Cells, c1: Cells, roots: seq<Val>, v: Val, shape: Shape, lo: nat)
    requires Built(c0, v, shape) && (v.Ref? ==> v.addr >= lo && IsLive(c1, v.addr))
    requires Counted(c1, roots) && |c0| <= |c1|
    requires forall a :: lo <= a < |c0| && c1[a].Live? ==> c0[a].Live? && c1[a].kids == c0[a].kids
    ensures Built(c1, v, shape)
    decreases shape, 3
  {
    match shape
    case Scalar =>
    case Text =>
    case ListOf(elems, _) =>
      var kids := c1[v.addr].kids;
      forall i | 0 <= i < |elems| ensures Built(c1, kids[i], elems[i]) {
        KidLives(c1, roots, v.addr, kids[i]);
        BuiltStays(c0, c1, roots, kids[i], elems[i], lo);
      }
    case RecordOf(entries, _) =>
      EntriesStay(c0, c1, roots, v, shape, |entries|, lo);
  }

  lemma {:induction false} EntriesStay(c0: Cells, c1: Cells, roots: seq<Val>, v: Val, shape: Shape, n: nat, lo: nat)
    requires shape.RecordOf? && n <= |shape.entries| && v.Ref? && IsLive(c0, v.addr) && BuiltEntries(c0, v, shape, n)
    requires v.addr >= lo && IsLive(c1, v.addr) && c1[v.addr].kids == c0[v.addr].kids
    requires Counted(c1, roots) && |c0| <= |c1|
    requires forall a :: lo <= a < |c0| && c1[a].Live? && a != v.addr ==> c0[a].Live? && c1[a].kids == c0[a].kids
    ensures BuiltEntries(c1, v, shape, n)
    decreases shape, 2
  {
    hide Counted, Held, Built;
    var kids := c1[v.addr].kids;
    forall i | 0 <= i < |kids| ensures BuiltKid(c1, kids[i], shape, Origin(shape.entries, n, i)) {
      KidLives(c1, roots, v.addr, kids[i]);
      assert Younger(kids[i], v);
      KidStays(c0, c1, roots, kids[i], shape, Origin(shape.entries, n, i), v.addr + 1);
    }
  }

  lemma {:induction false} KidStays(c0: Cells, c1: Cells, roots: seq<Val>, kid: Val, shape: Shape, o: Option<nat>,
      lo: nat)
    requires shape.RecordOf? && (o.Some? ==> o.value < |shape.entries|) && BuiltKid(c0, kid, shape, o)
    requires kid.Ref? ==> kid.addr >= lo && IsLive(c1, kid.addr)
    requires Counted(c1, roots) && |c0| <= |c1|
    requires forall a :: lo <= a < |c0| && c1[a].Live? ==> c0[a].Live? && c1[a].kids == c0[a].kids
    ensures BuiltKid(c1, kid, shape, o)
    decreases shape, 1
  {
    if o.Some? {
      BuiltStays(c0, c1, roots, kid, shape.entries[o.value].val, lo);
    }
  }

  lemma KidLives(cells: Cells, roots: seq<Val>, a: nat, kid: Val)
    requires Counted(cells, roots) && IsLive(cells, a) && kid in cells[a].kids
    ensures kid.Ref? ==> IsLive(cells, kid.addr)
  {
    if kid.Ref? {
      HeldAtLeast(cells, a, kid.addr);
      assert RefsTo(cells, roots, kid.addr) > 0;
    }
  }

  /** Give up a reference, or merely forget it. */
  method GiveUp(m: Machine, v: Val, given: bool, ghost temps: seq<Val>)
    requires m.Safe([v] + temps)
    modifies m.heap
    ensures m.Safe(temps) && OthersKept(old(m.heap.cells), m.heap.cells, |old(m.heap.cells)|)
    ensures |m.heap.cells| == |old(m.heap.cells)|
  {
    hide Counted, Slack, Total;
    if given {
      m.Discard(v, temps);
    } else {
      m.Forget(v, temps);
    }
  }

  /** rc_array_push of a part the code holds, which it then gives up. */
  method AddElem(m: Machine, arr: Val, e: Val, given: bool, ghost temps: seq<Val>)
    requires m.Safe([e] + ([arr] + temps)) && arr.Ref? && IsLive(m.heap.cells, arr.addr)
    modifies m.heap
    ensures m.Safe([arr] + temps) && IsLive(m.heap.cells, arr.addr)
    ensures m.heap.cells[arr.addr].kids == old(m.heap.cells)[arr.addr].kids + [e]
    ensures OthersKept(old(m.heap.cells), m.heap.cells, arr.addr) && |m.heap.cells| == |old(m.heap.cells)|
  {
    hide Counted, Count, Held, Total, Released;
    ghost var held := [e] + ([arr] + temps);
    assert held[0] == e;
    m.Held2(held, e);
    m.AppendKid(arr.addr, e, held);
    GiveUp(m, e, given, [arr] + temps);
    assert ([arr] + temps)[0] == arr;
    m.TempIsLive([arr] + temps, arr);
  }

  /** rc_map_set of a key and a value the code holds, which it then gives up. */
  method AddEntry(m: Machine, mp: Val, k: Val, e: Val, at: Option<nat>, given: bool, ghost temps: seq<Val>)
    requires m.Safe([e] + ([k] + ([mp] + temps))) && mp.Ref? && IsLive(m.heap.cells, mp.addr)
    modifies m.heap
    ensures m.Safe([mp] + temps) && IsLive(m.heap.cells, mp.addr)
    ensures m.heap.cells[mp.addr].kids == Machine.SetKids(old(m.heap.cells)[mp.addr].kids, k, e, at)
    ensures OthersKept(old(m.heap.cells), m.heap.cells, mp.addr) && |m.heap.cells| == |old(m.heap.cells)|
  {
    hide Counted, Count, Held, Total, Released, Machine.SetKids;
    ghost var held := [e] + ([k] + ([mp] + temps));
    assert held[0] == e && held[1] == k && held[2] == mp;
    m.MapSet(mp.addr, k, e, at, held);
    m.Swap(e, k, [mp] + temps);
    GiveUp(m, k, given, [e] + ([mp] + temps));
    GiveUp(m, e, given, [mp] + temps);
    assert ([mp] + temps)[0] == mp;
    m.TempIsLive([mp] + temps, mp);
  }

  /** A new tree of the shape, held by the caller; no object that was there gets other children. */
  method Build(m: Machine, shape: Shape, ghost temps: seq<Val>) returns (v: Val)
    requires m.Safe(temps)
    modifies m.heap
    ensures m.Safe([v] + temps) && Built(m.heap.cells, v, shape)
    ensures v.Ref? ==> v.addr >= |old(m.heap.cells)|
    ensures OthersKept(old(m.heap.cells), m.heap.cells, |old(m.heap.cells)|)
    decreases shape, 2
  {
    hide Counted, Built;
    match shape
    case Scalar =>
      m.ImmTemp(temps);
      v := Imm;
      ScalarBuilt(m.heap.cells);
    case Text =>
      v := m.Make(temps);
      TextBuilt(m.heap.cells, v);
    case ListOf(_, _) => v := BuildList(m, shape, temps);
    case RecordOf(_, _) => v := BuildRecord(m, shape, temps);
  }

  lemma ScalarBuilt(cells: Cells)
    ensures Built(cells, Imm, Scalar)
  {
  }

  lemma TextBuilt(cells: Cells, v: Val)
    requires IsText(cells, v)
    ensures Built(cells, v, Text)
  {
  }

  /** The loops of split_str, parse_json_array, args, list_dir and asset_names. */
  method BuildList(m: Machine, shape: Shape, ghost temps: seq<Val>) returns (v: Val)
    requires m.Safe(temps) && shape.ListOf?
    modifies m.heap
    ensures m.Safe([v] + temps) && Built(m.heap.cells, v, shape)
    ensures v.Ref? && v.addr >= |old(m.heap.cells)|
    ensures OthersKept(old(m.heap.cells), m.heap.cells, |old(m.heap.cells)|)
    decreases shape, 1
  {
    hide Counted, Count, Held, Total;
    ghost var c0 := m.heap.cells;
    v := m.Make(temps);
    assert ([v] + temps)[0] == v;
    for i := 0 to |shape.elems|
      invariant m.Safe([v] + temps) && v == Ref(|c0|) && IsLive(m.heap.cells, v.addr)
      invariant OthersKept(c0, m.heap.cells, |c0|)
      invariant |m.heap.cells[v.addr].kids| == i
      invariant forall j :: 0 <= j < i ==>
                  var kid := m.heap.cells[v.addr].kids[j]; Younger(kid, v) && Built(m.heap.cells, kid, shape.elems[j])
      modifies m.heap
    {
      ghost var c1 := m.heap.cells;
      var e := Build(m, shape.elems[i], [v] + temps);
      assert ([e] + ([v] + temps))[1] == v;
      m.TempIsLive([e] + ([v] + temps), v);
      ghost var c2, kids := m.heap.cells, m.heap.cells[v.addr].kids;
      AddElem(m, v, e, shape.given, temps);
      ghost var c3 := m.heap.cells;
      assert c3[v.addr].kids == kids + [e];
      forall j | 0 <= j <= i ensures Built(c3, c3[v.addr].kids[j], shape.elems[j]) {
        var kid := c3[v.addr].kids[j];
        KidLives(c3, [v] + temps + m.Roots(), v.addr, kid);
        if j < i {
          assert c3[v.addr].kids[j] == c1[v.addr].kids[j];
          BuiltStays(c1, c3, [v] + temps + m.Roots(), kid, shape.elems[j], v.addr + 1);
        } else {
          BuiltStays(c2, c3, [v] + temps + m.Roots(), kid, shape.elems[j], v.addr + 1);
        }
      }
    }
    ghost var c4 := m.heap.cells;
    m.Wrap(v, [v] + temps);
    BuiltStays(c4, m.heap.cells, [v] + temps + m.Roots(), v, shape, v.addr);
  }

  /** The loop of parse_json_object, and http_accept's. */
  method BuildRecord(m: Machine, shape: Shape, ghost temps: seq<Val>) returns (v: Val)
    requires m.Safe(temps) && shape.RecordOf?
    modifies m.heap
    ensures m.Safe([v] + temps) && Built(m.heap.cells, v, shape)
    ensures v.Ref? && v.addr >= |old(m.heap.cells)|
    ensures OthersKept(old(m.heap.cells), m.heap.cells, |old(m.heap.cells)|)
    decreases shape, 1
  {
    hide Counted, Count, Held, Total, BuiltEntries;
    ghost var c0 := m.heap.cells;
    v := m.Make(temps);
    assert ([v] + temps)[0] == v;
    NoEntries(m.heap.cells, v, shape);
    for i := 0 to |shape.entries|
      invariant m.Safe([v] + temps) && v == Ref(|c0|) && IsLive(m.heap.cells, v.addr)
      invariant OthersKept(c0, m.heap.cells, |c0|)
      invariant BuiltEntries(m.heap.cells, v, shape, i)
      modifies m.heap
    {
      ghost var c1 := m.heap.cells;
      var k := m.Make([v] + temps);
      var e := Build(m, shape.entries[i].val, [k] + ([v] + temps));
      ghost var held := [e] + ([k] + ([v] + temps));
      assert held[1] == k && held[2] == v;
      m.TempIsLive(held, v);
      m.TempIsLive(held, k);
      ghost var c2 := m.heap.cells;
      AddEntry(m, v, k, e, shape.entries[i].at, shape.given, temps);
      NextEntry(c1, c2, m.heap.cells, [v] + temps + m.Roots(), v, k, e, shape, i);
    }
    ghost var c4 := m.heap.cells;
    m.Wrap(v, [v] + temps);
    BuiltStays(c4, m.heap.cells, [v] + temps + m.Roots(), v, shape, v.addr);
  }

  lemma NoEntries(cells: Cells, v: Val, shape: Shape)
    requires IsText(cells, v) && shape.RecordOf?
    ensures BuiltEntries(cells, v, shape, 0)
  {
  }

  /** One more entry: c1 before it, c2 with its key and value made, c3 with both in the map. */
  lemma NextEntry(c1: Cells, c2: Cells, c3: Cells, roots: seq<Val>, v: Val, k: Val, e: Val, shape: Shape, n: nat)
    requires shape.RecordOf? && n < |shape.entries| && v.Ref? && IsLive(c1, v.addr) && BuiltEntries(c1, v, shape, n)
    requires |c1| <= |c2| == |c3| && IsLive(c2, v.addr) && c2[v.addr].kids == c1[v.addr].kids
    requires OthersKept(c1, c2, |c1|) && OthersKept(c2, c3, v.addr)
    requires IsText(c2, k) && k.addr > v.addr
    requires Built(c2, e, shape.entries[n].val) && Younger(e, v)
    requires IsLive(c3, v.addr) && c3[v.addr].kids == Machine.SetKids(c2[v.addr].kids, k, e, shape.entries[n].at)
    requires Counted(c3, roots)
    ensures BuiltEntries(c3, v, shape, n + 1)
  {
    hide Counted, Held, Built, Origin, KidCount, BuiltKid, IsText;
    CountNext(shape.entries, n);
    forall i | 0 <= i < |c3[v.addr].kids|
      ensures Younger(c3[v.addr].kids[i], v) && BuiltKid(c3, c3[v.addr].kids[i], shape, Origin(shape.entries, n + 1, i))
    {
      var kid := c3[v.addr].kids[i];
      KidLives(c3, roots, v.addr, kid);
      OriginNext(shape.entries, n, i);
      var o := Origin(shape.entries, n + 1, i);
      if o == Some(n) {
        LastBuilt(c2, e, shape, n);
        KidStays(c2, c3, roots, e, shape, o, v.addr + 1);
      } else if i < |c1[v.addr].kids| {
        KidStays(c1, c3, roots, kid, shape, o, v.addr + 1);
      } else {
        KeyBuilt(c2, k, shape);
        KidStays(c2, c3, roots, k, shape, o, v.addr + 1);
      }
    }
  }

  lemma LastBuilt(cells: Cells, e: Val, shape: Shape, n: nat)
    requires shape.RecordOf? && n < |shape.entries| && Built(cells, e, shape.entries[n].val)
    ensures BuiltKid(cells, e, shape, Some(n))
  {
  }

  lemma KeyBuilt(cells: Cells, k: Val, shape: Shape)
    requires shape.RecordOf? && IsText(cells, k)
    ensures BuiltKid(cells, k, shape, None)
  {
  }

  lemma CountNext(entries: seq<Entry>, n: nat)
    requires n < |entries|
    ensures var c := KidCount(entries, n); KidCount(entries, n + 1) == if Lands(entries[n], c) then c else c + 2
  {
  }

  lemma OriginNext(entries: seq<Entry>, n: nat, i: nat)
    requires n < |entries| && i < KidCount(entries, n + 1)
    ensures var c, o := KidCount(entries, n), Origin(entries, n + 1, i);
            if Lands(entries[n], c) then o == if i == entries[n].at.value then Some(n) else Origin(entries, n, i)
            else o == if i < c then Origin(entries, n, i) else if i == c then None else Some(n)
  {
  }

  lemma OperandIsLive(m: Machine, i: nat)
    requires m.Safe([]) && i < |m.stack| && m.stack[i].Ref?
    ensures IsLive(m.heap.cells, m.stack[i].addr)
  {
    hide Counted;
    assert m.stack[i] in m.Roots();
    m.Held2([], m.stack[i]);
    LiveIfHeld(m, m.stack[i].addr);
  }

  lemma LiveIfHeld(m: Machine, a: nat)
    requires m.Safe([]) && RefsTo(m.heap.cells, [] + m.Roots(), a) > 0
    ensures IsLive(m.heap.cells, a)
  {
  }

  // ---- Containers that share elements of the operands ----

  /** Element `child` of operand `operand` of the native. */
  datatype Pick = Pick(operand: nat, child: nat)

  /** The children of a container operand. */
  function Kids(cells: Cells, v: Val): seq<Val> {
    if v.Ref? && IsLive(cells, v.addr) then cells[v.addr].kids else []
  }

  predicate PicksFit(cells: Cells, args: seq<Val>, picks: seq<Pick>) {
    forall p <- picks :: p.operand < |args| && p.child < |Kids(cells, args[p.operand])|
  }

  function Picked(cells: Cells, args: seq<Val>, picks: seq<Pick>): (r: seq<Val>)
    requires PicksFit(cells, args, picks)
    ensures |r| == |picks|
  {
    seq(|picks|, i requires 0 <= i < |picks| =>
        (assert picks[i] in picks; Kids(cells, args[picks[i].operand])[picks[i].child]))
  }

  /** The operands of a native, which stay on the stack while it runs. */
  function Args(m: Machine, argc: nat): seq<Val>
    requires argc <= |m.stack|
    reads m`stack
  {
    m.stack[|m.stack| - argc..]
  }

  /** reverse, slice, concat and the copying loop of sort: a new array shares the picked elements. */
  method Gather(m: Machine, argc: nat, picks: seq<Pick>) returns (v: Val)
    requires m.Safe([]) && argc <= |m.stack| && PicksFit(m.heap.cells, Args(m, argc), picks)
    modifies m.heap
    ensures m.Safe([v]) && v == Ref(|old(m.heap.cells)|) && IsLive(m.heap.cells, v.addr)
    ensures m.heap.cells[v.addr].kids == Picked(old(m.heap.cells), Args(m, argc), picks)
    ensures OthersKept(old(m.heap.cells), m.heap.cells, |old(m.heap.cells)|)
  {
    hide Counted, Count, Held, Total;
    ghost var c0, args := m.heap.cells, Args(m, argc);
    v := m.Make([]);
    assert [v] + [] == [v];
    for i := 0 to |picks|
      invariant m.Safe([v]) && v == Ref(|c0|) && IsLive(m.heap.cells, v.addr)
      invariant m.heap.cells[v.addr].kids == Picked(c0, args, picks)[..i]
      invariant |m.heap.cells| == |c0| + 1
      invariant forall a :: 0 <= a < |c0| ==>
                  && m.heap.cells[a].Live? == c0[a].Live?
                  && (c0[a].Live? ==> m.heap.cells[a].kids == c0[a].kids)
      modifies m.heap
    {
      var p := picks[i];
      assert p in picks;
      var from := m.stack[|m.stack| - argc + p.operand];
      assert from == args[p.operand];
      var kid := m.heap.cells[from.addr].kids[p.child];
      m.HeldAtLeastAny(from.addr, kid);
      m.AppendKid(v.addr, kid, [v]);
    }
    m.Wrap(v, [v]);
  }

  lemma {:induction false} CountMultiset(s: seq<Val>, a: nat)
    ensures Count(s, a) == multiset(s)[Ref(a)]
  {
    if s != [] {
      CountMultiset(s[1..], a);
      assert s == [s[0]] + s[1..];
    }
  }

  /** sort moves the elements of its own copy around, touching no count. */
  method Rearrange(m: Machine, arr: nat, kids: seq<Val>, ghost temps: seq<Val>)
    requires m.Safe(temps) && IsLive(m.heap.cells, arr) && multiset(kids) == multiset(m.heap.cells[arr].kids)
    modifies m.heap
    ensures m.Safe(temps) && m.heap.cells == old(m.heap.cells)[arr := old(m.heap.cells)[arr].(kids := kids)]
  {
    ghost var c0, roots := m.heap.cells, temps + m.Roots();
    m.heap.cells := m.heap.cells[arr := m.heap.cells[arr].(kids := kids)];
    forall a: nat ensures RefsTo(m.heap.cells, roots, a) == RefsTo(c0, roots, a) {
      HeldUpdate(c0, arr, m.heap.cells[arr], a);
      CountMultiset(kids, a);
      CountMultiset(c0[arr].kids, a);
    }
  }

  /** All elements of the first operand, in order. */
  function Whole(n: nat): seq<Pick> {
    seq(n, i requires 0 <= i => Pick(0, i))
  }

  lemma WholePicked(cells: Cells, args: seq<Val>)
    requires args != []
    ensures PicksFit(cells, args, Whole(|Kids(cells, args[0])|))
    ensures Picked(cells, args, Whole(|Kids(cells, args[0])|)) == Kids(cells, args[0])
  {
  }

  method Sort(m: Machine, argc: nat, sorted: seq<Val>) returns (v: Val)
    requires m.Safe([]) && 0 < argc <= |m.stack|
    requires multiset(sorted) == multiset(Kids(m.heap.cells, Args(m, argc)[0]))
    modifies m.heap
    ensures m.Safe([v]) && v.Ref? && IsLive(m.heap.cells, v.addr) && m.heap.cells[v.addr].kids == sorted
    ensures OthersKept(old(m.heap.cells), m.heap.cells, |old(m.heap.cells)|)
  {
    hide Counted, Count, Held, Picked, PicksFit;
    var from := m.stack[|m.stack| - argc];
    WholePicked(m.heap.cells, Args(m, argc));
    var cells := m.heap.cells;
    var n := if from.Ref? && from.addr < |cells| && cells[from.addr].Live? then |cells[from.addr].kids| else 0;
    v := Gather(m, argc, Whole(n));
    Rearrange(m, v.addr, sorted, [v]);
  }

  // ---- remove ----

  function WithoutPair(kids: seq<Val>, p: nat): seq<Val>
    requires 2 * p + 1 < |kids|
  {
    kids[..2 * p] + kids[2 * p + 2..]
  }

  lemma WithoutCount(kids: seq<Val>, p: nat, a: nat)
    requires 2 * p + 1 < |kids|
    ensures Count(kids, a) == Count(WithoutPair(kids, p), a) + Count([kids[2 * p]], a) + Count([kids[2 * p + 1]], a)
  {
    var k, v, left, right := kids[2 * p], kids[2 * p + 1], kids[..2 * p], kids[2 * p + 2..];
    assert kids == left + ([k] + ([v] + right));
    CountConcat(left, [k] + ([v] + right), a);
    CountConcat([k], [v] + right, a);
    CountConcat([v], right, a);
    CountConcat(left, right, a);
  }

  /** Unlink pair `p` of a map: the code takes over its references. */
  method Unlink(m: Machine, mp: nat, p: nat) returns (k: Val, v: Val)
    requires m.Safe([]) && IsLive(m.heap.cells, mp) && 2 * p + 1 < |m.heap.cells[mp].kids|
    modifies m.heap
    ensures m.Safe([k] + ([v] + []))
    ensures k == old(m.heap.cells)[mp].kids[2 * p] && v == old(m.heap.cells)[mp].kids[2 * p + 1]
    ensures var cells := old(m.heap.cells);
            m.heap.cells == cells[mp := cells[mp].(kids := WithoutPair(cells[mp].kids, p))]
  {
    ghost var c0, roots := m.heap.cells, m.Roots();
    var kids := m.heap.cells[mp].kids;
    k, v := kids[2 * p], kids[2 * p + 1];
    m.heap.cells := m.heap.cells[mp := m.heap.cells[mp].(kids := WithoutPair(kids, p))];
    assert [] + roots == roots && [k] + ([v] + []) + roots == [k] + ([v] + roots);
    forall a: nat ensures RefsTo(m.heap.cells, [k] + ([v] + roots), a) == RefsTo(c0, roots, a) {
      HeldUpdate(c0, mp, m.heap.cells[mp], a);
      WithoutCount(kids, p, a);
      CountConcat([k], [v] + roots, a);
      CountConcat([v], roots, a);
    }
  }

  /** rc_map_remove on the first operand: the node is unlinked, then its key and its value are released. */
  method Remove(m: Machine, argc: nat, at: Option<nat>)
    requires m.Safe([]) && 0 < argc <= |m.stack|
    requires at.Some? ==> 2 * at.value + 1 < |Kids(m.heap.cells, Args(m, argc)[0])|
    modifies m.heap
    ensures m.Safe([])
    ensures OthersKept(old(m.heap.cells), m.heap.cells, if at.Some? then Args(m, argc)[0].addr else |old(m.heap.cells)|)
    ensures at.Some? ==>
              var a := Args(m, argc)[0].addr;
              && a < |m.heap.cells| == |old(m.heap.cells)| && IsLive(m.heap.cells, a)
              && m.heap.cells[a].kids == WithoutPair(Kids(old(m.heap.cells), Args(m, argc)[0]), at.value)
  {
    hide Counted, Count, Held, Total, WithoutPair, Slack;
    if at.Some? {
      var mp := m.stack[|m.stack| - argc];
      assert mp == Args(m, argc)[0] && mp in m.Roots();
      var k, v := Unlink(m, mp.addr, at.value);
      m.Discard(k, [v] + []);
      m.Discard(v, []);
      OperandIsLive(m, |m.stack| - argc);
    }
  }

  // ---- NATIVE ----

  datatype Outcome =
    | Plain                           // an immediate
    | NewText(counted: bool)          // a new string; join's is counted once more than it is held
    | Shares(picks: seq<Pick>)        // reverse, slice, concat
    | Sorted(sorted: seq<Val>)        // sort
    | Makes(shape: Shape)             // split, json_decode, args, asset_names
    | Removes(at: Option<nat>)        // remove, with the pair the key was found at

  /** What the C code has checked of the operands, or found among them, for that outcome. */
  predicate Possible(m: Machine, argc: nat, o: Outcome)
    requires argc <= |m.stack|
    reads m`stack, m.heap
  {
    match o
    case Plain => true
    case NewText(_) => true
    case Shares(picks) => PicksFit(m.heap.cells, Args(m, argc), picks)
    case Sorted(sorted) => argc > 0 && multiset(sorted) == multiset(Kids(m.heap.cells, Args(m, argc)[0]))
    case Makes(_) => true
    case Removes(at) => argc > 0 && (at.Some? ==> 2 * at.value + 1 < |Kids(m.heap.cells, Args(m, argc)[0])|)
  }

  /** What an outcome says of the result and the heap. */
  ghost predicate Made(before: Cells, after: Cells, args: seq<Val>, o: Outcome, r: Val) {
    match o
    case Plain => r == Imm
    case NewText(_) => IsText(after, r)
    case Shares(picks) =>
      PicksFit(before, args, picks) && r.Ref? && IsLive(after, r.addr)
          && after[r.addr].kids == Picked(before, args, picks)
    case Sorted(sorted) => r.Ref? && IsLive(after, r.addr) && after[r.addr].kids == sorted
    case Makes(shape) => Built(after, r, shape)
    case Removes(at) =>
      && r == Imm
      && (at.Some? ==>
            && args != [] && 2 * at.value + 1 < |Kids(before, args[0])|
            && (IsLive(after, args[0].addr) ==>
                after[args[0].addr].kids == WithoutPair(Kids(before, args[0]), at.value)))
  }

  /** The native itself: its operands are still on the stack, its result is in a C variable. */
  method Compute(m: Machine, argc: nat, o: Outcome) returns (r: Val)
    requires m.Safe([]) && argc <= |m.stack| && Possible(m, argc, o)
    modifies m.heap
    ensures m.Safe([r]) && Made(old(m.heap.cells), m.heap.cells, Args(m, argc), o, r)
  {
    hide Counted, Picked, PicksFit, Built, WithoutPair, OthersKept;
    r := Imm;
    match o
    case Plain =>
      m.ImmTemp([]);
      assert [r] + [] == [r];
    case NewText(counted) =>
      r := m.Make([]);
      assert [r] + [] == [r];
      if counted {
        m.Wrap(r, [r]);
      }
    case Shares(picks) => r := Gather(m, argc, picks);
    case Sorted(sorted) => r := Sort(m, argc, sorted);
    case Makes(shape) =>
      r := Build(m, shape, []);
      assert [r] + [] == [r];
    case Removes(at) =>
      Remove(m, argc, at);
      m.ImmTemp([]);
      assert [r] + [] == [r];
  }

  lemma TreeStays(c0: Cells, c1: Cells, roots0: seq<Val>, roots: seq<Val>, r: Val, shape: Shape)
    requires Built(c0, r, shape) && Released(c0, c1, roots0, roots) && r in roots
    ensures Built(c1, r, shape)
  {
    hide Counted, Built, Slack, Total;
    if r.Ref? {
      Machine.RootKept(c0, c1, roots0, roots, r);
    }
    BuiltStays(c0, c1, roots, r, shape, 0);
  }

  /** A release of other references leaves what was made. */
  lemma MadeStays(before: Cells, c0: Cells, c1: Cells, roots0: seq<Val>, roots: seq<Val>, args: seq<Val>, o: Outcome,
      r: Val)
    requires Made(before, c0, args, o, r) && Released(c0, c1, roots0, roots) && r in roots
    ensures Made(before, c1, args, o, r)
  {
    hide Counted, Picked, PicksFit, Built, WithoutPair, Slack, Total;
    if r.Ref? {
      Machine.RootKept(c0, c1, roots0, roots, r);
    }
    if o.Makes? {
      TreeStays(c0, c1, roots0, roots, r, o.shape);
    }
  }

  /** NATIVE: the result is made, then the operands are released, then the result is pushed. */
  method Native(m: Machine, argc: nat, o: Outcome)
    requires m.Safe([]) && argc <= |m.stack| && Possible(m, argc, o)
    modifies m`stack, m.heap
    ensures m.Safe([]) && |m.stack| == |old(m.stack)| - argc + 1
    ensures DropLast(m.stack) == old(m.stack)[..|old(m.stack)| - argc]
    ensures Made(old(m.heap.cells), m.heap.cells, old(Args(m, argc)), o, Last(m.stack))
  {
    hide Counted, Possible, Made, Released;
    ghost var before := m.heap.cells;
    var r := Compute(m, argc, o);
    var args := m.TakeArgs(argc, [r]);
    ghost var c0, roots := m.heap.cells, [r] + m.Roots();
    m.DiscardAll(args, [r]);
    assert roots[0] == r;
    MadeStays(before, c0, m.heap.cells, args + roots, roots, args, o, r);
    assert [r] + [] == [r];
    m.Push(r, []);
  }
}
