/**
 Reference counting in the C runtime: retain, release and what release frees.

 An object's children are the values an array or a closure's capture array holds, or
 the keys and values of a map; a string has none. The provable invariant is that a
 count is at least the number of references, because a new array or map starts at 1
 and is counted once more when it is wrapped in a value.
 */
module RefCount {
  import opened Common

  datatype Val = Imm | Ref(addr: nat)

  /** A heap cell: an object with its count and children, or the memory it has left. */
  datatype Cell = Freed | Live(rc: int, kids: seq<Val>)

  type Cells = seq<Cell>

  /** Occurrences of a reference to `a` in a sequence of values. */
  function Count(s: seq<Val>, a: nat): nat {
    if s == [] then 0 else (if s[0] == Ref(a) then 1 else 0) + Count(s[1..], a)
  }

  lemma {:induction false} CountConcat(s: seq<Val>, t: seq<Val>, a: nat)
    ensures Count(s + t, a) == Count(s, a) + Count(t, a)
  {
    if s == [] {
      assert s + t == t;
    } else {
      CountConcat(s[1..], t, a);
      assert (s + t)[1..] == s[1..] + t;
    }
  }

  lemma CountPush(s: seq<Val>, v: Val, a: nat)
    ensures Count(s + [v], a) == Count(s, a) + Count([v], a)
  {
    CountConcat(s, [v], a);
  }

  lemma CountUpdate(s: seq<Val>, i: nat, v: Val, a: nat)
    requires i < |s|
    ensures Count(s[i := v], a) + Count([s[i]], a) == Count(s, a) + Count([v], a)
  {
    assert s == s[..i] + ([s[i]] + s[i + 1..]) && s[i := v] == s[..i] + ([v] + s[i + 1..]);
    CountConcat(s[..i], [s[i]] + s[i + 1..], a);
    CountConcat(s[..i], [v] + s[i + 1..], a);
    CountConcat([s[i]], s[i + 1..], a);
    CountConcat([v], s[i + 1..], a);
  }

  function CellCount(c: Cell, a: nat): nat {
    if c.Live? then Count(c.kids, a) else 0
  }

  /** References to `a` held by objects. */
  function Held(cells: Cells, a: nat): nat {
    if cells == [] then 0 else Held(DropLast(cells), a) + CellCount(Last(cells), a)
  }

  lemma {:induction false} HeldUpdate(cells: Cells, i: nat, c: Cell, a: nat)
    requires i < |cells|
    ensures Held(cells[i := c], a) + CellCount(cells[i], a) == Held(cells, a) + CellCount(c, a)
  {
    var cells' := cells[i := c];
    if i == |cells| - 1 {
      assert DropLast(cells') == DropLast(cells);
    } else {
      HeldUpdate(DropLast(cells), i, c, a);
      assert DropLast(cells') == DropLast(cells)[i := c];
    }
  }

  /** The sum of all counts. */
  function Total(cells: Cells): int {
    if cells == [] then 0 else Total(DropLast(cells)) + if Last(cells).Live? then Last(cells).rc else 0
  }

  lemma {:induction false} TotalUpdate(cells: Cells, i: nat, c: Cell)
    requires i < |cells|
    ensures Total(cells[i := c]) == Total(cells)
              - (if cells[i].Live? then cells[i].rc else 0) + (if c.Live? then c.rc else 0)
  {
    var cells' := cells[i := c];
    if i == |cells| - 1 {
      assert DropLast(cells') == DropLast(cells);
    } else {
      TotalUpdate(DropLast(cells), i, c);
      assert DropLast(cells') == DropLast(cells)[i := c];
    }
  }

  lemma {:induction false} TotalPositive(cells: Cells)
    requires forall a :: 0 <= a < |cells| && cells[a].Live? ==> cells[a].rc >= 1
    ensures Total(cells) >= 0
  {
    if cells != [] {
      TotalPositive(DropLast(cells));
    }
  }

  lemma LivePositive(cells: Cells, roots: seq<Val>)
    requires Counted(cells, roots)
    ensures Total(cells) >= 0
  {
    forall a | 0 <= a < |cells| && cells[a].Live?
      ensures cells[a].rc >= 1
    {
      assert IsLive(cells, a);
    }
    TotalPositive(cells);
  }

  predicate IsLive(cells: Cells, a: nat) {
    a < |cells| && cells[a].Live?
  }

  /** References to `a` from the roots and from live objects. */
  function RefsTo(cells: Cells, roots: seq<Val>, a: nat): nat {
    Count(roots, a) + Held(cells, a)
  }

  /**
   The invariant: every reference is to a live object, and counts are positive and no
   smaller than the references they stand for.
   */
  ghost predicate Counted(cells: Cells, roots: seq<Val>) {
    && (forall a: nat :: RefsTo(cells, roots, a) > 0 ==> IsLive(cells, a))
    && (forall a: nat :: IsLive(cells, a) ==> cells[a].rc >= 1 && cells[a].rc >= RefsTo(cells, roots, a))
  }

  /** The count an object has beyond its references. */
  function Slack(cells: Cells, roots: seq<Val>, a: nat): int
    requires IsLive(cells, a)
  {
    cells[a].rc - RefsTo(cells, roots, a)
  }

  /**
   What releasing some of the roots does. Surviving objects keep their children, and the
   difference between count and references is the same as before: a count drops by exactly
   the references that went away. An object is freed only when its references were all it
   was counted for, and afterwards nothing refers to it.
   */
  ghost predicate Released(before: Cells, after: Cells, roots: seq<Val>, roots': seq<Val>) {
    && |after| == |before| && Counted(after, roots') && Total(after) <= Total(before)
    && (forall a: nat :: IsLive(after, a) ==>
          IsLive(before, a) && after[a].kids == before[a].kids
          && Slack(after, roots', a) == Slack(before, roots, a))
    && (forall a: nat :: IsLive(before, a) && !IsLive(after, a) ==> Slack(before, roots, a) == 0)
  }

  lemma ReleasedTrans(c0: Cells, c1: Cells, c2: Cells, r0: seq<Val>, r1: seq<Val>, r2: seq<Val>)
    requires Released(c0, c1, r0, r1) && Released(c1, c2, r1, r2)
    ensures Released(c0, c2, r0, r2)
  {
  }

  /** Only the number of references matters, not where the roots are. */
  ghost predicate SameRoots(r: seq<Val>, r': seq<Val>) {
    forall a: nat :: Count(r, a) == Count(r', a)
  }

  lemma CountedSame(cells: Cells, roots: seq<Val>, roots': seq<Val>)
    requires Counted(cells, roots) && SameRoots(roots, roots')
    ensures Counted(cells, roots')
  {
  }

  /** References to `a` held by the objects that were freed. */
  function FreedRefs(before: Cells, after: Cells, a: nat): nat
    requires |before| == |after|
  {
    if before == [] then 0
    else FreedRefs(DropLast(before), DropLast(after), a)
         + if Last(before).Live? && !Last(after).Live? then Count(Last(before).kids, a) else 0
  }

  lemma {:induction false} HeldSplit(before: Cells, after: Cells, a: nat)
    requires |before| == |after|
    requires forall b :: 0 <= b < |after| && after[b].Live? ==> before[b].Live? && after[b].kids == before[b].kids
    ensures Held(before, a) == Held(after, a) + FreedRefs(before, after, a)
  {
    if before != [] {
      HeldSplit(DropLast(before), DropLast(after), a);
    }
  }

  /**
   Releasing `v` takes from the count of a surviving object one for `v` itself and one for
   each reference held by a freed object: every freed object's children are released
   exactly once, and an object that neither refers to keeps its count.
   */
  lemma ReleaseConserves(before: Cells, after: Cells, v: Val, roots: seq<Val>, a: nat)
    requires Released(before, after, [v] + roots, roots) && IsLive(after, a)
    ensures before[a].Live? && before[a].rc - after[a].rc == (if v == Ref(a) then 1 else 0) +
            FreedRefs(before, after, a)
  {
    forall b | 0 <= b < |after| && after[b].Live?
      ensures before[b].Live? && after[b].kids == before[b].kids
    {
      assert IsLive(after, b);
    }
    HeldSplit(before, after, a);
    CountConcat([v], roots, a);
  }

  /** Along `path`, the first object is referenced by a root and each next one by the object before it. */
  ghost predicate Reaches(cells: Cells, roots: seq<Val>, path: seq<nat>) {
    if |path| <= 1 then path != [] && Ref(path[0]) in roots
    else
      var b := Last(DropLast(path));
      Reaches(cells, roots, DropLast(path)) && IsLive(cells, b) && Ref(Last(path)) in cells[b].kids
  }

  lemma {:induction false} InCounts(s: seq<Val>, a: nat)
    ensures Count(s, a) > 0 <==> Ref(a) in s
  {
    if s != [] {
      InCounts(s[1..], a);
    }
  }

  lemma {:induction false} HeldAtLeast(cells: Cells, b: nat, a: nat)
    requires IsLive(cells, b) && Ref(a) in cells[b].kids
    ensures Held(cells, a) > 0
  {
    InCounts(cells[b].kids, a);
    HeldUpdate(cells, b, Freed, a);
  }

  /** Safety: what the remaining roots could reach before a release is still there after it, unchanged. */
  lemma {:induction false} ReachableSurvives(before: Cells, after: Cells, roots: seq<Val>, roots': seq<Val>,
      path: seq<nat>)
    requires Released(before, after, roots, roots') && Reaches(before, roots', path)
    ensures IsLive(after, Last(path)) && after[Last(path)].kids == before[Last(path)].kids
    decreases |path|
  {
    var a := Last(path);
    if |path| == 1 {
      InCounts(roots', a);
    } else {
      ReachableSurvives(before, after, roots, roots', DropLast(path));
      HeldAtLeast(after, Last(DropLast(path)), a);
    }
    assert RefsTo(after, roots', a) > 0;
  }

  /** Completeness: an object counted exactly by its references does not outlive the last of them. */
  lemma NoExactGarbage(before: Cells, after: Cells, roots: seq<Val>, roots': seq<Val>, a: nat)
    requires Released(before, after, roots, roots') && IsLive(before, a) && Slack(before, roots, a) == 0
    ensures IsLive(after, a) <==> RefsTo(after, roots', a) > 0
  {
  }

  /**
   The heap as it will be once the objects in `dying`, whose children are being released,
   are gone, and the slots being overwritten hold what `blank` says. Overwriting releases
   the old element while it is still in its slot.
   */
  function View(cells: Cells, dying: set<nat>, blank: map<nat, seq<Val>>): (r: Cells)
    ensures |r| == |cells|
    ensures forall a :: 0 <= a < |cells| ==>
              r[a] == if a in dying then Freed
                      else if a in blank && cells[a].Live? then cells[a].(kids := blank[a])
                      else cells[a]
  {
    seq(|cells|, a requires 0 <= a < |cells| =>
          if a in dying then Freed
          else if a in blank && cells[a].Live? then cells[a].(kids := blank[a])
          else cells[a])
  }

  lemma ViewDecrement(cells: Cells, a: nat, dying: set<nat>, blank: map<nat, seq<Val>>)
    requires IsLive(cells, a) && a !in dying
    ensures var c0, less := View(cells, dying, blank), cells[a := cells[a].(rc := cells[a].rc - 1)];
            && View(less, dying, blank) == c0[a := c0[a].(rc := c0[a].rc - 1)]
            && View(less, dying + {a}, blank) == c0[a := Freed]
  {
  }

  /** One reference fewer, the object stays. */
  lemma DecrementOk(cells: Cells, roots: seq<Val>, a: nat)
    requires Counted(cells, [Ref(a)] + roots) && IsLive(cells, a) && cells[a].rc > 1
    ensures var after := cells[a := cells[a].(rc := cells[a].rc - 1)];
            Released(cells, after, [Ref(a)] + roots, roots) && Total(after) == Total(cells) - 1
  {
    var after := cells[a := cells[a].(rc := cells[a].rc - 1)];
    TotalUpdate(cells, a, after[a]);
    forall b: nat
      ensures RefsTo(cells, [Ref(a)] + roots, b) == RefsTo(after, roots, b) + if a == b then 1 else 0
    {
      HeldUpdate(cells, a, after[a], b);
      CountConcat([Ref(a)], roots, b);
    }
  }

  /** The last reference: the object is gone and its children's references are still to be released. */
  lemma LastReference(cells: Cells, roots: seq<Val>, a: nat)
    requires Counted(cells, [Ref(a)] + roots) && IsLive(cells, a) && cells[a].rc <= 1
    ensures var after := cells[a := Freed];
            Released(cells, after, [Ref(a)] + roots, cells[a].kids + roots) && Total(after) == Total(cells) - 1
  {
    var after := cells[a := Freed];
    TotalUpdate(cells, a, Freed);
    forall b: nat
      ensures RefsTo(cells, [Ref(a)] + roots, b) == RefsTo(after, cells[a].kids + roots, b) + if a == b then 1 else 0
    {
      HeldUpdate(cells, a, Freed, b);
      CountConcat([Ref(a)], roots, b);
      CountConcat(cells[a].kids, roots, b);
    }
    assert RefsTo(cells, [Ref(a)] + roots, a) >= 1;
  }

  class Heap {
    var cells: Cells

    constructor ()
      ensures cells == []
    {
      cells := [];
    }

    method Retain(v: Val)
      requires v.Ref? ==> IsLive(cells, v.addr)
      modifies this
      ensures cells == if v.Imm? then old(cells)
              else old(cells)[v.addr := Live(old(cells)[v.addr].rc + 1, old(cells)[v.addr].kids)]
    {
      if v.Ref? {
        cells := cells[v.addr := cells[v.addr].(rc := cells[v.addr].rc + 1)];
      }
    }

    /** A new object with count `rc` and these children, whose references it takes over. */
    method Alloc(rc: int, kids: seq<Val>) returns (v: Val)
      modifies this
      ensures v == Ref(|old(cells)|) && cells == old(cells) + [Live(rc, kids)]
    {
      v := Ref(|cells|);
      cells := cells + [Live(rc, kids)];
    }

    /** The objects being overwritten are also referenced from the roots, so they stay. */
    ghost predicate Busy(roots: seq<Val>, dying: set<nat>, blank: map<nat, seq<Val>>)
      reads this
    {
      && (forall d <- dying :: IsLive(cells, d))
      && (forall b <- blank :: IsLive(cells, b) && b !in dying && Count(roots, b) >= 1)
    }

    /** Counts may drop and objects may be freed; what stays keeps its children, and `dying` is untouched. */
    twostate predicate Shrunk(dying: set<nat>)
      reads this
    {
      && |cells| == |old(cells)|
      && (forall d <- dying :: d < |cells| && cells[d] == old(cells)[d])
      && (forall a :: 0 <= a < |cells| && cells[a].Live? ==> old(cells)[a].Live? && cells[a].kids == old(cells)[a].kids)
    }

    /**
     Give up the reference `v`; `roots` are the references that remain outside the heap.
     At count zero the children are released in order, then the memory is freed. It
     terminates on every heap that satisfies the invariant, cyclic ones included: the sum
     of the counts decreases.
     */
    method Release(v: Val, ghost roots: seq<Val>, ghost dying: set<nat>, ghost blank: map<nat, seq<Val>>)
      requires Counted(View(cells, dying, blank), [v] + roots) && Busy(roots, dying, blank)
      modifies this
      ensures Shrunk(dying) && Busy(roots, dying, blank)
      ensures Released(old(View(cells, dying, blank)), View(cells, dying, blank), [v] + roots, roots)
      decreases Total(View(cells, dying, blank)), 1
    {
      if v.Imm? {
        ImmRoot(roots);
      } else {
        ReleaseObject(v.addr, roots, dying, blank);
      }
    }

    method ReleaseObject(a: nat, ghost roots: seq<Val>, ghost dying: set<nat>, ghost blank: map<nat, seq<Val>>)
      requires Counted(View(cells, dying, blank), [Ref(a)] + roots) && Busy(roots, dying, blank)
      modifies this
      ensures Shrunk(dying) && Busy(roots, dying, blank)
      ensures Released(old(View(cells, dying, blank)), View(cells, dying, blank), [Ref(a)] + roots, roots)
      decreases Total(View(cells, dying, blank)), 0
    {
      hide Released, Counted, Total, Held, Count, View;
      ghost var c0 := View(cells, dying, blank);
      SeenAlive(a, roots, dying, blank);
      LastIsPositive(c0, roots, a);
      ViewDecrement(cells, a, dying, blank);
      Decrement(a, dying, blank, roots);
      if cells[a].rc > 0 {
        DecrementOk(c0, roots, a);
        return;
      }
      assert a !in blank;
      LastReference(c0, roots, a);
      Dismantle(a, roots, dying, blank, c0);
    }

    /** The object being released is neither dying nor, at its last reference, being overwritten. */
    lemma SeenAlive(a: nat, roots: seq<Val>, dying: set<nat>, blank: map<nat, seq<Val>>)
      requires Counted(View(cells, dying, blank), [Ref(a)] + roots) && Busy(roots, dying, blank)
      ensures var c0 := View(cells, dying, blank);
              && IsLive(c0, a) && IsLive(cells, a) && a !in dying && cells[a].rc == c0[a].rc >= 1
              && (a in blank ==> cells[a].rc >= 2) && (a !in blank ==> c0[a] == cells[a])
    {
      RootIsLive(View(cells, dying, blank), Ref(a), roots);
    }

    method Decrement(a: nat, ghost dying: set<nat>, ghost blank: map<nat, seq<Val>>, ghost roots: seq<Val>)
      requires IsLive(cells, a) && a !in dying && Busy(roots, dying, blank)
      modifies this
      ensures cells == old(cells)[a := old(cells)[a].(rc := old(cells)[a].rc - 1)]
      ensures Shrunk(dying) && Busy(roots, dying, blank)
    {
      cells := cells[a := cells[a].(rc := cells[a].rc - 1)];
    }

    /** Release the children of `a`, whose count has reached zero, then free it. */
    method Dismantle(a: nat, ghost roots: seq<Val>, ghost dying: set<nat>, ghost blank: map<nat, seq<Val>>,
        ghost c0: Cells)
      requires IsLive(cells, a) && a !in dying && a !in blank && Busy(roots, dying, blank)
      requires Released(c0, View(cells, dying + {a}, blank), [Ref(a)] + roots, cells[a].kids + roots)
      modifies this
      ensures Shrunk(dying) && Busy(roots, dying, blank)
      ensures Released(c0, View(cells, dying, blank), [Ref(a)] + roots, roots)
      decreases Total(View(cells, dying + {a}, blank)), 3
    {
      hide Released;
      ReleaseKids(a, [Ref(a)] + roots, roots, dying, blank, c0);
      ghost var c1 := View(cells, dying + {a}, blank);
      assert cells[a].Live?;   // what is freed here has not been freed before
      cells := cells[a := Freed];
      assert View(cells, dying, blank) == c1;
    }

    lemma RootIsLive(c0: Cells, v: Val, roots: seq<Val>)
      requires Counted(c0, [v] + roots) && v.Ref?
      ensures IsLive(c0, v.addr) && c0[v.addr].rc >= 1 + Count(roots, v.addr)
    {
      CountConcat([v], roots, v.addr);
      assert RefsTo(c0, [v] + roots, v.addr) >= 1 + Count(roots, v.addr);
    }

    lemma ImmRoot(roots: seq<Val>)
      ensures forall a: nat :: Count([Imm] + roots, a) == Count(roots, a)
    {
      assert ([Imm] + roots)[1..] == roots;
    }

    lemma LastIsPositive(c0: Cells, roots: seq<Val>, a: nat)
      requires Counted(c0, [Ref(a)] + roots) && IsLive(c0, a)
      ensures c0[a].rc <= 1 ==> 0 <= Total(c0[a := Freed]) < Total(c0)
    {
      if c0[a].rc <= 1 {
        LastReference(c0, roots, a);
        LivePositive(c0[a := Freed], c0[a].kids + roots);
      }
    }

    /** The loop of release_value over the children of the dying object `a`. */
    method ReleaseKids(a: nat, ghost roots0: seq<Val>, ghost roots: seq<Val>, ghost dying: set<nat>,
        ghost blank: map<nat, seq<Val>>, ghost c0: Cells)
      requires IsLive(cells, a) && a !in dying && a !in blank && Busy(roots, dying, blank)
      requires Released(c0, View(cells, dying + {a}, blank), roots0, cells[a].kids + roots)
      modifies this
      ensures Shrunk(dying + {a}) && Busy(roots, dying, blank)
      ensures Released(c0, View(cells, dying + {a}, blank), roots0, roots)
      decreases Total(View(cells, dying + {a}, blank)), 2
    {
      hide Counted, View, Held, Count, Slack;
      ghost var gone := dying + {a};
      ghost var c1 := View(cells, gone, blank);
      var i := 0;
      while i < |cells[a].kids|
        invariant Shrunk(gone) && Busy(roots, gone, blank)
        invariant i <= |cells[a].kids|
        invariant Released(c0, View(cells, gone, blank), roots0, cells[a].kids[i..] + roots)
        invariant Total(View(cells, gone, blank)) <= Total(c1)
      {
        ghost var c2 := View(cells, gone, blank);
        ghost var rest := cells[a].kids[i + 1..] + roots;
        assert cells[a].kids[i..] + roots == [cells[a].kids[i]] + rest;
        LivePositive(c2, [cells[a].kids[i]] + rest);
        BusyMore(cells[a].kids[i + 1..], roots, gone, blank);
        Release(cells[a].kids[i], rest, gone, blank);
        ReleasedTrans(c0, c2, View(cells, gone, blank), roots0, [cells[a].kids[i]] + rest, rest);
        i := i + 1;
      }
      assert cells[a].kids[i..] + roots == roots;
    }

    lemma BusyMore(more: seq<Val>, roots: seq<Val>, dying: set<nat>, blank: map<nat, seq<Val>>)
      requires Busy(roots, dying, blank)
      ensures Busy(more + roots, dying, blank)
    {
      forall b | b in blank
        ensures Count(more + roots, b) >= 1
      {
        CountConcat(more, roots, b);
      }
    }
  }
}
