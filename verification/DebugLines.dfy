/**
 The pc-to-line table of stack traces: the Go engine searches it by halving, the C
 engine scans it. For which tables and pcs they name the same entry is stated exactly.
 */
module DebugLines {
  import opened Common
  import opened Container

  type Table = seq<DebugEntry>

  ghost predicate InOrder(t: Table) {
    forall i, j :: 0 <= i < j < |t| ==> t[i].pc <= t[j].pc
  }

  /** Entries at the start of the table that lie at or before `pc`. */
  function Reached(t: Table, pc: int): (k: nat)
    ensures k <= |t| && (forall i :: 0 <= i < k ==> t[i].pc <= pc) && (k < |t| ==> t[k].pc > pc)
  {
    if t == [] || t[0].pc > pc then 0 else 1 + Reached(t[1..], pc)
  }

  /** The line of the last entry reached, 0 before the first. */
  function LineFor(t: Table, k: nat): nat
    requires k <= |t|
  {
    if k == 0 then 0 else t[k - 1].line
  }

  /** get_line_number of the C engine. */
  method GetLineNumber(t: Table, pc: int) returns (line: nat)
    ensures line == LineFor(t, Reached(t, pc))
  {
    line := 0;
    var i := 0;
    while i < |t| && t[i].pc <= pc
      invariant i <= |t| && (forall j :: 0 <= j < i ==> t[j].pc <= pc) && line == LineFor(t, i)
    {
      line := t[i].line;
      i := i + 1;
    }
    ReachedIs(t, pc, i);
  }

  lemma ReachedIs(t: Table, pc: int, k: nat)
    requires k <= |t| && (forall i :: 0 <= i < k ==> t[i].pc <= pc) && (k < |t| ==> t[k].pc > pc)
    ensures Reached(t, pc) == k
  {
  }

  /** The binary search between lo and hi: how many entries precede where it ends, the last of them named. */
  function Halve(t: Table, pc: int, lo: nat, hi: int): (k: nat)
    requires 0 <= lo <= hi + 1 <= |t|
    ensures lo <= k <= hi + 1
    decreases hi + 1 - lo
  {
    if lo > hi then lo
    else
      var mid := (lo + hi) / 2;
      if t[mid].pc <= pc then Halve(t, pc, mid + 1, hi) else Halve(t, pc, lo, mid - 1)
  }

  /** lineAt of the Go engine. */
  method LineAt(t: Table, pc: int) returns (ans: nat)
    ensures ans == LineFor(t, Halve(t, pc, 0, |t| - 1))
  {
    var lo, hi := 0, |t| - 1;
    ans := 0;
    while lo <= hi
      invariant 0 <= lo <= hi + 1 <= |t|
      invariant ans == LineFor(t, lo) && Halve(t, pc, lo, hi) == Halve(t, pc, 0, |t| - 1)
      decreases hi + 1 - lo
    {
      var mid := (lo + hi) / 2;
      if t[mid].pc <= pc {
        ans := t[mid].line;
        lo := mid + 1;
      } else {
        hi := mid - 1;
      }
    }
  }

  /** Every entry at or before `pc` that the search probes is one the scan reaches. */
  predicate ProbesReached(t: Table, pc: int, lo: nat, hi: int)
    requires 0 <= lo <= hi + 1 <= |t|
    decreases hi + 1 - lo
  {
    lo <= hi ==>
      var mid := (lo + hi) / 2;
      if t[mid].pc <= pc then mid < Reached(t, pc) && ProbesReached(t, pc, mid + 1, hi)
      else ProbesReached(t, pc, lo, mid - 1)
  }

  /** On any table, the search and the scan name the same entry for `pc` exactly then. */
  lemma {:induction false} SameEntryIff(t: Table, pc: int, lo: nat, hi: int)
    requires 0 <= lo <= hi + 1 <= |t| && lo <= Reached(t, pc) <= hi + 1
    ensures Halve(t, pc, lo, hi) == Reached(t, pc) <==> ProbesReached(t, pc, lo, hi)
    decreases hi + 1 - lo
  {
    if lo <= hi {
      var mid := (lo + hi) / 2;
      if t[mid].pc > pc {
        SameEntryIff(t, pc, lo, mid - 1);
      } else if mid < Reached(t, pc) {
        SameEntryIff(t, pc, mid + 1, hi);
      }
    }
  }

  function Larger(a: int, b: int): int {
    if a >= b then a else b
  }

  function Smaller(bound: Option<int>, b: int): int {
    if bound.Some? && bound.value < b then bound.value else b
  }

  /**
   The table can be searched: the pcs that bring the search to an entry and are at or
   after it, which lie from `from` up to `to`, are at or after everything before it.
   */
  predicate Searchable(t: Table, lo: nat, hi: int, from: int, to: Option<int>)
    requires 0 <= lo <= hi + 1 <= |t|
    decreases hi + 1 - lo
  {
    lo <= hi ==>
      var mid := (lo + hi) / 2;
      var least := Larger(from, t[mid].pc);
      && ((to.Some? ==> least < to.value) ==> forall i :: 0 <= i < mid ==> t[i].pc <= least)
      && Searchable(t, mid + 1, hi, least, to)
      && Searchable(t, lo, mid - 1, from, Some(Smaller(to, t[mid].pc)))
  }

  predicate Within(pc: int, from: int, to: Option<int>) {
    from <= pc && (to.Some? ==> pc < to.value)
  }

  lemma {:induction false} SearchableProbes(t: Table, lo: nat, hi: int, from: int, to: Option<int>, pc: int)
    requires 0 <= lo <= hi + 1 <= |t| && Searchable(t, lo, hi, from, to) && Within(pc, from, to)
    ensures ProbesReached(t, pc, lo, hi)
    decreases hi + 1 - lo
  {
    if lo <= hi {
      var mid := (lo + hi) / 2;
      if t[mid].pc <= pc {
        SearchableProbes(t, mid + 1, hi, Larger(from, t[mid].pc), to, pc);
      } else {
        SearchableProbes(t, lo, mid - 1, from, Some(Smaller(to, t[mid].pc)), pc);
      }
    }
  }

  ghost predicate AllProbesReached(t: Table, lo: nat, hi: int, from: int, to: Option<int>)
    requires 0 <= lo <= hi + 1 <= |t|
  {
    forall pc {:trigger Within(pc, from, to)} :: Within(pc, from, to) ==> ProbesReached(t, pc, lo, hi)
  }

  /** The pcs that go on to either half of the search. */
  lemma ProbesHalve(t: Table, lo: nat, hi: int, from: int, to: Option<int>)
    requires 0 <= lo <= hi < |t| && AllProbesReached(t, lo, hi, from, to)
    ensures var mid := (lo + hi) / 2;
            && AllProbesReached(t, mid + 1, hi, Larger(from, t[mid].pc), to)
            && AllProbesReached(t, lo, mid - 1, from, Some(Smaller(to, t[mid].pc)))
  {
    hide Reached;
    var mid := (lo + hi) / 2;
    forall pc | Within(pc, Larger(from, t[mid].pc), to) ensures ProbesReached(t, pc, mid + 1, hi) {
      assert Within(pc, from, to);
    }
    forall pc | Within(pc, from, Some(Smaller(to, t[mid].pc))) ensures ProbesReached(t, pc, lo, mid - 1) {
      assert Within(pc, from, to);
    }
  }

  lemma {:induction false} ProbesSearchable(t: Table, lo: nat, hi: int, from: int, to: Option<int>)
    requires 0 <= lo <= hi + 1 <= |t| && AllProbesReached(t, lo, hi, from, to)
    ensures Searchable(t, lo, hi, from, to)
    decreases hi + 1 - lo
  {
    hide Reached;
    if lo <= hi {
      var mid := (lo + hi) / 2;
      var least := Larger(from, t[mid].pc);
      if to.Some? ==> least < to.value {
        assert Within(least, from, to);
        assert ProbesReached(t, least, lo, hi);
      }
      ProbesHalve(t, lo, hi, from, to);
      hide AllProbesReached;
      ProbesSearchable(t, mid + 1, hi, least, to);
      ProbesSearchable(t, lo, mid - 1, from, Some(Smaller(to, t[mid].pc)));
    }
  }

  ghost predicate SameEverywhere(t: Table) {
    forall pc: nat :: Halve(t, pc, 0, |t| - 1) == Reached(t, pc)
  }

  /** The two engines name the same entry for every pc exactly on the searchable tables. */
  lemma SameEverywhereIff(t: Table)
    ensures SameEverywhere(t) <==> Searchable(t, 0, |t| - 1, 0, None)
  {
    hide Reached, Halve, ProbesReached, Searchable;
    if Searchable(t, 0, |t| - 1, 0, None) {
      forall pc: nat ensures Halve(t, pc, 0, |t| - 1) == Reached(t, pc) {
        SearchableProbes(t, 0, |t| - 1, 0, None, pc);
        SameEntryIff(t, pc, 0, |t| - 1);
      }
    }
    if SameEverywhere(t) {
      forall pc | Within(pc, 0, None) ensures ProbesReached(t, pc, 0, |t| - 1) {
        var p: nat := pc;
        assert Halve(t, p, 0, |t| - 1) == Reached(t, p);
        SameEntryIff(t, pc, 0, |t| - 1);
      }
      ProbesSearchable(t, 0, |t| - 1, 0, None);
    }
  }

  lemma {:induction false} InOrderProbes(t: Table, pc: int, lo: nat, hi: int)
    requires InOrder(t) && 0 <= lo <= hi + 1 <= |t|
    ensures ProbesReached(t, pc, lo, hi)
    decreases hi + 1 - lo
  {
    hide Reached;
    if lo <= hi {
      var mid := (lo + hi) / 2;
      InOrderProbes(t, pc, mid + 1, hi);
      InOrderProbes(t, pc, lo, mid - 1);
    }
  }

  /** Tables in pc order, which the compiler writes, are searchable. */
  lemma InOrderSearchable(t: Table)
    requires InOrder(t)
    ensures Searchable(t, 0, |t| - 1, 0, None)
  {
    hide InOrder, ProbesReached, Searchable;
    forall pc | Within(pc, 0, None) ensures ProbesReached(t, pc, 0, |t| - 1) {
      InOrderProbes(t, pc, 0, |t| - 1);
    }
    ProbesSearchable(t, 0, |t| - 1, 0, None);
  }

  /** No two entries have the same line, and none has line 0. */
  ghost predicate LinesTell(t: Table) {
    && (forall i :: 0 <= i < |t| ==> t[i].line != 0)
    && forall i, j :: 0 <= i < j < |t| ==> t[i].line != t[j].line
  }

  /**
   The two engines on any table and pc: the same line when the probes are reached, for
   every pc on a searchable table, and otherwise lines that differ if lines tell entries apart.
   */
  method SameLine(t: Table, pc: nat) returns (goLine: nat, cLine: nat)
    ensures cLine == LineFor(t, Reached(t, pc))
    ensures ProbesReached(t, pc, 0, |t| - 1) ==> goLine == cLine
    ensures LinesTell(t) ==> (goLine == cLine <==> ProbesReached(t, pc, 0, |t| - 1))
    ensures Searchable(t, 0, |t| - 1, 0, None) ==> goLine == cLine
    ensures InOrder(t) ==> goLine == cLine
  {
    goLine := LineAt(t, pc);
    cLine := GetLineNumber(t, pc);
    SameEntryIff(t, pc, 0, |t| - 1);
    if Searchable(t, 0, |t| - 1, 0, None) {
      SearchableProbes(t, 0, |t| - 1, 0, None, pc);
    }
    if InOrder(t) {
      InOrderProbes(t, pc, 0, |t| - 1);
    }
  }

  /** Entries at 5, 1 and 9 looked up at 2: the search finds the second, the scan none. */
  lemma OutOfOrderDiffers()
    ensures var t := [DebugEntry(5, 10), DebugEntry(1, 20), DebugEntry(9, 30)];
            !ProbesReached(t, 2, 0, 2) && Halve(t, 2, 0, 2) == 2 && Reached(t, 2) == 0
  {
    var t := [DebugEntry(5, 10), DebugEntry(1, 20), DebugEntry(9, 30)];
    assert t[1].pc <= 2 && t[2].pc > 2;
    assert Halve(t, 2, 2, 2) == Halve(t, 2, 2, 1);
  }

  /** Order is not needed: entries at 1, 3 and 2 are searchable. */
  lemma OutOfOrderAgrees()
    ensures var t := [DebugEntry(1, 10), DebugEntry(3, 20), DebugEntry(2, 30)];
            !InOrder(t) && Searchable(t, 0, 2, 0, None)
  {
    var t := [DebugEntry(1, 10), DebugEntry(3, 20), DebugEntry(2, 30)];
    assert t[1].pc > t[2].pc;
    assert Searchable(t, 2, 2, 3, None) by {
      assert Searchable(t, 3, 2, 3, None) && Searchable(t, 2, 1, 3, Some(2));
    }
    assert Searchable(t, 0, 0, 0, Some(3)) by {
      assert Searchable(t, 1, 0, 1, Some(3)) && Searchable(t, 0, -1, 0, Some(1));
    }
  }
}
