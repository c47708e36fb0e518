/**
 What the round-robin pick guarantees: it fails exactly in a deadlock, a deadlock is a
 cycle of waiting tasks, and without spawns a ready task is picked within one round.
 */
module Fairness {
  import opened Common
  import opened Isa
  import opened Machine
  import opened Tasks
  import Decimal

  // ---- Deadlock ----

  /** Some task is ready, or will be when it wakes. */
  ghost predicate CanRun(s: System) {
    exists i :: 0 <= i < |s.tasks| && (Ready(s.tasks, i, s.now) || Asleep(s.tasks[i]))
  }

  lemma {:induction false} FirstReady(s: System, now: int, i: nat) returns (d: nat)
    requires WellFormed(s) && i < |s.tasks| && Ready(s.tasks, i, now)
    ensures d < |s.tasks| && Ready(s.tasks, d, now)
    ensures forall j :: 0 <= j < |s.tasks| && Skipped(s.cur, j, d) ==> !Ready(s.tasks, j, now)
    decreases Dist(s.cur, i, |s.tasks|)
  {
    if j :| 0 <= j < |s.tasks| && Skipped(s.cur, j, i) && Ready(s.tasks, j, now) {
      d := FirstReady(s, now, j);
    } else {
      d := i;
    }
  }

  /** Steps of a round-robin search from `c` until it tries `i`. */
  function Dist(c: nat, i: nat, n: nat): (d: nat)
    requires c < n && i < n
    ensures 1 <= d <= n
  {
    if i > c then i - c else i + n - c
  }

  /** Tasks that cannot be ready yet are all asleep past `now`. */
  lemma {:induction false} EarliestWake(s: System, k: nat) returns (i: nat)
    requires k <= |s.tasks| && exists j :: 0 <= j < k && Asleep(s.tasks[j])
    ensures i < k && Asleep(s.tasks[i])
    ensures forall j :: 0 <= j < k && Asleep(s.tasks[j]) ==> s.tasks[i].wakeAt.value <= s.tasks[j].wakeAt.value
  {
    if j :| 0 <= j < k - 1 && Asleep(s.tasks[j]) {
      i := EarliestWake(s, k - 1);
      if Asleep(s.tasks[k - 1]) && s.tasks[k - 1].wakeAt.value < s.tasks[i].wakeAt.value {
        i := k - 1;
      }
    } else {
      i := k - 1;
    }
  }

  function Woken(s: System, d: nat, now: int): System
    requires d < |s.tasks|
  {
    s.(cur := d, now := now, tasks := s.tasks[d := s.tasks[d].(wakeAt := None)])
  }

  /** Pick can succeed exactly when some task is ready or asleep. */
  lemma PickIffCanRun(s: System)
    requires WellFormed(s)
    ensures CanRun(s) <==> exists t :: Picked(s, t)
  {
    if t :| Picked(s, t) {
      assert Ready(s.tasks, t.cur, s.now) || Asleep(s.tasks[t.cur]);
    }
    if CanRun(s) {
      if i :| 0 <= i < |s.tasks| && Ready(s.tasks, i, s.now) {
        var d := FirstReady(s, s.now, i);
        assert Picked(s, Woken(s, d, s.now));
      } else {
        var i := EarliestWake(s, |s.tasks|);
        assert !Ready(s.tasks, i, s.now);
        assert Picked(s, Woken(s, i, s.tasks[i].wakeAt.value));
      }
    }
  }

  /** In a deadlock, where task `i` is after following `awaiting` `k` times. */
  function Chase(tasks: seq<Task>, i: nat, k: nat): (r: nat)
    requires i < |tasks| && !tasks[i].done && AllBlocked(tasks)
    ensures r < |tasks| && !tasks[r].done
  {
    if k == 0 then i
    else
      var j := Chase(tasks, i, k - 1);
      assert Blocked(tasks, j);
      tasks[j].awaiting.value
  }

  predicate Blocked(tasks: seq<Task>, i: nat)
    requires i < |tasks|
  {
    !tasks[i].done ==>
      tasks[i].awaiting.Some? && var f := tasks[i].awaiting.value; f < |tasks| && f != i && !tasks[f].done
  }

  /** Every live task awaits another live task. */
  predicate AllBlocked(tasks: seq<Task>) {
    forall i :: 0 <= i < |tasks| ==> Blocked(tasks, i)
  }

  /** When pick fails, the deadlock report is the whole truth: every live task awaits another. */
  lemma DeadlockBlocksAll(p: Program, s: System)
    requires AllWaiting(p, s) && !CanRun(s)
    ensures AllBlocked(s.tasks)
  {
    hide Decode;
    forall i | 0 <= i < |s.tasks| ensures Blocked(s.tasks, i) {
      assert Waiting(p, s, i);
      assert !Ready(s.tasks, i, s.now);
    }
  }

  lemma {:induction false} BelowCard(n: nat, s: set<nat>)
    requires forall x :: x in s ==> x < n
    ensures |s| <= n
  {
    if n == 0 {
      assert s == {};
    } else {
      BelowCard(n - 1, s - {n - 1});
    }
  }

  lemma {:induction false} Pigeonhole(xs: seq<nat>, n: nat, k: nat) returns (s: set<nat>, a: nat, b: nat)
    requires k <= |xs| && forall i :: 0 <= i < |xs| ==> xs[i] < n
    ensures forall x :: x in s <==> exists i :: 0 <= i < k && xs[i] == x
    ensures |s| == k || (a < b < k && xs[a] == xs[b])
  {
    if k == 0 {
      s, a, b := {}, 0, 0;
    } else {
      s, a, b := Pigeonhole(xs, n, k - 1);
      if xs[k - 1] in s {
        a :| 0 <= a < k - 1 && xs[a] == xs[k - 1];
        b := k - 1;
      }
      s := s + {xs[k - 1]};
    }
  }

  /** Following `awaiting` from the main task of a deadlock reaches a cycle of length at least 2. */
  lemma DeadlockCycle(p: Program, s: System) returns (a: nat, b: nat)
    requires AllWaiting(p, s) && !CanRun(s) && WellFormed(s) && !s.tasks[0].done
    ensures AllBlocked(s.tasks)
    ensures a + 2 <= b <= |s.tasks| && Chase(s.tasks, 0, a) == Chase(s.tasks, 0, b)
  {
    DeadlockBlocksAll(p, s);
    var n := |s.tasks|;
    var xs := seq(n + 1, k requires 0 <= k => Chase(s.tasks, 0, k));
    var hit;
    hit, a, b := Pigeonhole(xs, n, n + 1);
    BelowCard(n, hit);
    assert Chase(s.tasks, 0, a) == Chase(s.tasks, 0, b);
    assert Blocked(s.tasks, Chase(s.tasks, 0, a));
  }

  // ---- The deadlock report ----

  const DEADLOCK := "[Cryo Concurrency] deadlock: no task can make progress"

  /** Who is awaiting whom among the first `n` tasks, in task order. */
  function Waits(tasks: seq<Task>, n: nat): seq<(nat, nat)>
    requires n <= |tasks|
  {
    if n == 0 then []
    else
      var t := tasks[n - 1];
      Waits(tasks, n - 1) + if !t.done && t.awaiting.Some? then [(n - 1, t.awaiting.value)] else []
  }

  function Number(n: nat): string {
    var d := Decimal.Digits(n);
    seq(|d|, i requires 0 <= i < |d| => d[i] as char)
  }

  function WaitLine(w: (nat, nat)): string {
    "\n  task " + Number(w.0) + " is awaiting task " + Number(w.1) + ", which has not finished"
  }

  function Report(waits: seq<(nat, nat)>): string {
    if waits == [] then DEADLOCK else Report(DropLast(waits)) + WaitLine(Last(waits))
  }

  lemma NoWaits(tasks: seq<Task>)
    ensures Report(Waits(tasks, 0)) == DEADLOCK
  {
  }

  lemma ReportNext(tasks: seq<Task>, n: nat)
    requires n < |tasks|
    ensures var t := tasks[n];
            Report(Waits(tasks, n + 1)) == Report(Waits(tasks, n)) +
              if !t.done && t.awaiting.Some? then WaitLine((n, t.awaiting.value)) else ""
  {
    hide WaitLine;
    var ws, t := Waits(tasks, n), tasks[n];
    if !t.done && t.awaiting.Some? {
      assert DropLast(ws + [(n, t.awaiting.value)]) == ws;
    } else {
      assert Waits(tasks, n + 1) == ws;
    }
  }

  /** Two tasks awaiting each other, word for word. */
  lemma TwoTaskReport()
    ensures Report([(0, 1), (1, 0)]) == "[Cryo Concurrency] deadlock: no task can make progress"
              + ("\n  task " + "0" + " is awaiting task " + "1" + ", which has not finished")
              + ("\n  task " + "1" + " is awaiting task " + "0" + ", which has not finished")
  {
    assert Number(0) == "0" && Number(1) == "1";
    assert DropLast([(0, 1), (1, 0)]) == [(0, 1)] && DropLast([(0, 1)]) == [];
  }

  /** The report goes through the tasks in order. */
  lemma {:induction false} WaitsInOrder(tasks: seq<Task>, n: nat)
    requires n <= |tasks|
    ensures forall i, j :: 0 <= i < j < |Waits(tasks, n)| ==> Waits(tasks, n)[i].0 < Waits(tasks, n)[j].0
    ensures forall i :: 0 <= i < |Waits(tasks, n)| ==> Waits(tasks, n)[i].0 < n
  {
    if n > 0 {
      WaitsInOrder(tasks, n - 1);
    }
  }

  /** The report lists a pair exactly for the live tasks that await. */
  lemma {:induction false} WaitsExact(tasks: seq<Task>, n: nat, i: nat, f: nat)
    requires n <= |tasks|
    ensures (i, f) in Waits(tasks, n) <==> i < n && !tasks[i].done && tasks[i].awaiting == Some(f)
  {
    if n > 0 {
      WaitsExact(tasks, n - 1, i, f);
    }
  }

  /** Every live task awaits another live one, and the report lists exactly these pairs. */
  ghost predicate ReportTells(tasks: seq<Task>) {
    AllBlocked(tasks) &&
    forall i: nat, f: nat :: (i, f) in Waits(tasks, |tasks|) <==>
      i < |tasks| && !tasks[i].done && tasks[i].awaiting == Some(f)
  }

  /**
   In any run, when a task yields and pick fails: the report is the whole truth, and
   following `awaiting` from the main task reaches a cycle of length at least 2.
   */
  lemma RunDeadlock(p: Program, ops: Ops, millis: Value -> int, tr: seq<System>) returns (a: nat, b: nat)
    requires IsRun(p, ops, millis, tr) && WellFormed(Last(tr))
    requires var turn := TakeTurn(p, ops, millis, Last(tr)); turn.Yields? && !CanRun(turn.sys)
    ensures var tasks := TakeTurn(p, ops, millis, Last(tr)).sys.tasks;
            && tasks != [] && !tasks[0].done && ReportTells(tasks)
            && a + 2 <= b <= |tasks| && Chase(tasks, 0, a) == Chase(tasks, 0, b)
  {
    hide TakeTurn, Waits, Waiting;
    var s := Last(tr);
    RunInv(p, ops, millis, tr, |tr| - 1);
    TurnKeepsInv(p, ops, millis, s);
    var u := TakeTurn(p, ops, millis, s).sys;
    a, b := DeadlockCycle(p, u);
    forall i: nat, f: nat
      ensures (i, f) in Waits(u.tasks, |u.tasks|) <==>
                i < |u.tasks| && !u.tasks[i].done && u.tasks[i].awaiting == Some(f)
    {
      WaitsExact(u.tasks, |u.tasks|, i, f);
    }
  }

  // ---- Bounded waiting ----

  /** A step that hands over through pick. */
  ghost predicate HandsOver(p: Program, ops: Ops, millis: Value -> int, s: System, t: System)
    requires WellFormed(s)
  {
    var turn := TakeTurn(p, ops, millis, s);
    turn.Yields? && WellFormed(turn.sys) && Picked(turn.sys, t)
  }

  ghost function Picks(p: Program, ops: Ops, millis: Value -> int, tr: seq<System>, a: nat, b: nat): nat
    requires a <= b < |tr|
  {
    if a == b then 0
    else Picks(p, ops, millis, tr, a, b - 1) +
         if WellFormed(tr[b - 1]) && HandsOver(p, ops, millis, tr[b - 1], tr[b]) then 1 else 0
  }

  /** A ready task that is not running stays ready until it is picked. */
  lemma ReadyStable(p: Program, ops: Ops, millis: Value -> int, s: System, t: System, i: nat)
    requires Inv(p, s) && SysStep(p, ops, millis, s, t)
    requires i < |s.tasks| && i != s.cur && Ready(s.tasks, i, s.now)
    ensures i < |t.tasks| && (t.cur == i || Ready(t.tasks, i, t.now))
  {
    hide TakeTurn;
    StepUndisturbed(p, ops, millis, s, t, i);
    if s.tasks[i].awaiting.Some? && s.tasks[i].wakeAt == None {
      ResultFinal(p, ops, millis, s, t, s.tasks[i].awaiting.value);
    }
  }

  /** Passing over a ready task is impossible, so each pick brings the search closer to it. */
  lemma PickCloser(p: Program, ops: Ops, millis: Value -> int, s: System, t: System, i: nat)
    requires Inv(p, s) && HandsOver(p, ops, millis, s, t)
    requires i < |s.tasks| && i != s.cur && Ready(s.tasks, i, s.now) && t.cur != i
    ensures t.cur < |t.tasks| == |s.tasks| && Dist(t.cur, i, |s.tasks|) < Dist(s.cur, i, |s.tasks|)
  {
    hide TakeTurn;
    TurnKeepsOthers(p, ops, millis, s);
    var u := TakeTurn(p, ops, millis, s).sys;
    TurnKeepsReady(p, ops, millis, s, i);
    assert !Skipped(u.cur, i, t.cur);
  }

  lemma TurnKeepsReady(p: Program, ops: Ops, millis: Value -> int, s: System, i: nat)
    requires Inv(p, s) && TakeTurn(p, ops, millis, s).Yields?
    requires i < |s.tasks| && i != s.cur && Ready(s.tasks, i, s.now)
    ensures var u := TakeTurn(p, ops, millis, s).sys; i < |u.tasks| && Ready(u.tasks, i, s.now)
  {
    hide TakeTurn;
    TurnKeepsOthers(p, ops, millis, s);
  }

  /**
   Bounded waiting: in a run without spawns, a ready task that has not been picked by
   step `b` has been outrun by fewer picks than the search needs to reach it, at most
   one less than the number of tasks.
   */
  lemma {:induction false} PickedWithinOneRound(p: Program, ops: Ops, millis: Value -> int, tr: seq<System>,
      a: nat, b: nat, i: nat)
    requires IsRun(p, ops, millis, tr) && a <= b < |tr| && WellFormed(tr[a]) && i < |tr[a].tasks|
    requires forall k :: a <= k <= b ==> |tr[k].tasks| == |tr[a].tasks|
    requires i != tr[a].cur && Ready(tr[a].tasks, i, tr[a].now)
    requires forall k :: a < k <= b ==> tr[k].cur != i
    ensures WellFormed(tr[b]) && Ready(tr[b].tasks, i, tr[b].now)
    ensures Picks(p, ops, millis, tr, a, b) + Dist(tr[b].cur, i, |tr[a].tasks|) <= Dist(tr[a].cur, i, |tr[a].tasks|)
    ensures Picks(p, ops, millis, tr, a, b) < |tr[a].tasks| - 1
    decreases b
  {
    hide SysStep, HandsOver, Inv, Ready;
    if a < b {
      PickedWithinOneRound(p, ops, millis, tr, a, b - 1, i);
      RunInv(p, ops, millis, tr, b - 1);
      RunInv(p, ops, millis, tr, b);
      assert SysStep(p, ops, millis, tr[b - 1], tr[b]);
      ReadyStable(p, ops, millis, tr[b - 1], tr[b], i);
      if HandsOver(p, ops, millis, tr[b - 1], tr[b]) {
        PickCloser(p, ops, millis, tr[b - 1], tr[b], i);
      } else {
        SameTask(p, ops, millis, tr[b - 1], tr[b]);
      }
    }
  }

  lemma SameTask(p: Program, ops: Ops, millis: Value -> int, s: System, t: System)
    requires WellFormed(s) && SysStep(p, ops, millis, s, t) && !HandsOver(p, ops, millis, s, t)
    ensures t.cur == s.cur
  {
    hide TakeTurn;
    if !Ticked(s, t) {
      TurnKeepsOthers(p, ops, millis, s);
    }
  }
}
