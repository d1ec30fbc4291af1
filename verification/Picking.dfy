/** How the scheduler picks: the least pass of the stride queue, and the
    circular search of the process table for one level of the MLFQ. */
module Picking {
  import opened Common
  import opened Procs

  // ---------- The stride queue ----------

  /** The pick of the search through the queue from its first process on, with
      the bound and the pick so far. */
  function ScanQueue(ps: Table, queue: seq<int>, bound: nat, best: int): int
    requires forall k | 0 <= k < |queue| :: 0 <= queue[k] < |ps|
  {
    if queue == [] then best
    else
      var p := ps[queue[0]];
      if p.pass <= bound && p.state.Runnable? then ScanQueue(ps, queue[1..], p.pass, queue[0])
      else ScanQueue(ps, queue[1..], bound, best)
  }

  /** The search finds the least pass among the runnable processes that are not
      above the bound, and finds nothing only if there are none. */
  lemma {:induction false} ScanQueueFindsLeast(ps: Table, queue: seq<int>, bound: nat, best: int)
    requires forall k | 0 <= k < |queue| :: 0 <= queue[k] < |ps|
    requires best !in queue
    ensures var r := ScanQueue(ps, queue, bound, best);
      if r == best then forall i | i in queue && ps[i].state.Runnable? :: ps[i].pass > bound
      else r in queue && ps[r].state.Runnable? && ps[r].pass <= bound && forall i | i in queue && ps[i].state.Runnable? :: ps[r].pass <= ps[i].pass
    decreases |queue|
  {
    if queue != [] {
      var p := ps[queue[0]];
      assert forall i :: i in queue <==> i == queue[0] || i in queue[1..];
      if p.pass <= bound && p.state.Runnable? {
        if queue[0] in queue[1..] {
          ScanQueueAgain(ps, queue[1..], p.pass, queue[0]);
        } else {
          ScanQueueFindsLeast(ps, queue[1..], p.pass, queue[0]);
        }
      } else {
        ScanQueueFindsLeast(ps, queue[1..], bound, best);
      }
    }
  }

  /** Among equal passes the one furthest back in the queue is found. */
  lemma {:induction false} ScanQueueFindsLast(ps: Table, queue: seq<int>, bound: nat, best: int)
    requires (forall k | 0 <= k < |queue| :: 0 <= queue[k] < |ps|) && Distinct(queue) && best !in queue
    ensures var r := ScanQueue(ps, queue, bound, best);
      if r == best then forall i | i in queue && ps[i].state.Runnable? :: ps[i].pass > bound
      else r in queue && ps[r].pass <= bound && exists k | 0 <= k < |queue| :: queue[k] == r && PassedAfter(ps, queue, k)
    decreases |queue|
  {
    if queue != [] {
      var p, rest := ps[queue[0]], queue[1..];
      assert forall i :: i in queue <==> i == queue[0] || i in rest;
      var take := p.pass <= bound && p.state.Runnable?;
      var b, o := if take then p.pass else bound, if take then queue[0] else best;
      ScanQueueFindsLast(ps, rest, b, o);
      var r := ScanQueue(ps, rest, b, o);
      if r != o {
        var k :| 0 <= k < |rest| && rest[k] == r && PassedAfter(ps, rest, k);
        assert queue[k + 1] == r && PassedAfter(ps, queue, k + 1);
      } else if take {
        assert forall j | 0 < j < |queue| :: queue[j] == rest[j - 1] && queue[j] in rest;
        assert PassedAfter(ps, queue, 0);
      }
    }
  }

  /** Every runnable process behind position k of the queue has a greater pass. */
  predicate PassedAfter(ps: Table, queue: seq<int>, k: nat)
    requires k < |queue| && forall j | 0 <= j < |queue| :: 0 <= queue[j] < |ps|
  {
    forall j | k < j < |queue| && ps[queue[j]].state.Runnable? :: ps[queue[j]].pass > ps[queue[k]].pass
  }

  /** The same when the pick so far is met again. */
  lemma {:induction false} ScanQueueAgain(ps: Table, queue: seq<int>, bound: nat, best: int)
    requires forall k | 0 <= k < |queue| :: 0 <= queue[k] < |ps|
    requires 0 <= best < |ps| && ps[best].state.Runnable? && ps[best].pass == bound
    ensures var r := ScanQueue(ps, queue, bound, best);
      (r in queue || r == best) && 0 <= r < |ps| && ps[r].state.Runnable? && ps[r].pass <= bound
      && forall i | i in queue && ps[i].state.Runnable? :: ps[r].pass <= ps[i].pass
    decreases |queue|
  {
    if queue != [] {
      var p := ps[queue[0]];
      assert forall i :: i in queue <==> i == queue[0] || i in queue[1..];
      if p.pass <= bound && p.state.Runnable? {
        ScanQueueAgain(ps, queue[1..], p.pass, queue[0]);
      } else {
        ScanQueueAgain(ps, queue[1..], bound, best);
      }
    }
  }

  // ---------- The process table ----------

  function Next(i: nat): nat { if i < NPROC - 1 then i + 1 else 0 }

  predicate Eligible(p: Proc, level: nat) { p.state.Runnable? && p.level == level }

  /** What the circular search for one level finds in at most n slots from idx
      on, and where the next search starts. */
  function ScanTable(ps: Table, level: nat, idx: nat, n: nat): (int, nat)
    requires |ps| == NPROC && idx < NPROC
    decreases n
  {
    if n == 0 then (NONE, idx)
    else if Eligible(ps[idx], level) then (idx, Next(idx))
    else ScanTable(ps, level, Next(idx), n - 1)
  }

  /** How far slot i is ahead of slot idx on the circle. */
  function Ahead(idx: nat, i: nat): nat
    requires idx < NPROC && i < NPROC
  {
    if idx <= i then i - idx else i + NPROC - idx
  }

  /** The search finds the eligible slot that is the least far ahead, and finds
      nothing only if no slot within reach is eligible. */
  lemma {:induction false} ScanTableFindsFirst(ps: Table, level: nat, idx: nat, n: nat)
    requires |ps| == NPROC && idx < NPROC && n <= NPROC
    ensures var (r, idx') := ScanTable(ps, level, idx, n);
      && idx' < NPROC
      && (r == NONE ==> idx' == (idx + n) % NPROC && forall i: nat | i < NPROC && Ahead(idx, i) < n :: !Eligible(ps[i], level))
      && (r != NONE ==>
            && 0 <= r < NPROC && Eligible(ps[r], level) && idx' == Next(r) && Ahead(idx, r) < n
            && forall i: nat | i < NPROC && Ahead(idx, i) < Ahead(idx, r) :: !Eligible(ps[i], level))
    decreases n
  {
    if n != 0 && !Eligible(ps[idx], level) {
      ScanTableFindsFirst(ps, level, Next(idx), n - 1);
      forall i: nat | i < NPROC && i != idx
        ensures Ahead(idx, i) == Ahead(Next(idx), i) + 1
      {
      }
    }
  }

  /** One search of the table: what it saw and where it started. */
  datatype Search = Search(ps: Table, level: nat, idx: nat)

  function Pick(s: Search): int
    requires |s.ps| == NPROC && s.idx < NPROC
  {
    ScanTable(s.ps, s.level, s.idx, NPROC).0
  }

  /** One search that passes over the eligible slot b keeps it nearer than a,
      or makes it so by picking a. */
  lemma SearchStep(s: Search, a: nat, b: nat)
    requires |s.ps| == NPROC && s.idx < NPROC && a < NPROC && b < NPROC && a != b
    requires Pick(s) == a || (Eligible(s.ps[b], s.level) && Pick(s) != b && Ahead(s.idx, b) < Ahead(s.idx, a))
    ensures var idx' := ScanTable(s.ps, s.level, s.idx, NPROC).1; idx' < NPROC && Ahead(idx', b) < Ahead(idx', a)
  {
    ScanTableFindsFirst(s.ps, s.level, s.idx, NPROC);
    hide ScanTable;
  }
}
