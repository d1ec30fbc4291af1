/** The process table and what the MLFQ counters count (proc.h, proc.c). */
module Procs {
  import opened Common

  const NPROC := 64
  const STRIDE_DIVIDEND := 10000
  const NONE := -1                            // a null pointer into the table

  /** Level -1 as stored in an unsigned field: a process of the stride queue. */
  const STRIDE_LEVEL := 0xFFFF_FFFF

  datatype State = Unused | Embryo | Sleeping | Runnable | Running | Zombie

  datatype Proc = Proc(state: State, level: nat, timequant: nat, timeallot: nat, tickcount: nat,
                       share: int, stride: int, pass: nat,
                       pid: int, parent: int, chan: int, killed: bool)

  type Table = seq<Proc>

  predicate Active(p: Proc) { p.state.Runnable? || p.state.Running? }

  predicate Live(p: Proc) { Active(p) || p.state.Sleeping? }

  predicate ActiveAt(p: Proc, l: nat) { Active(p) && p.level == l }

  /** Yields between two calls of sched, at most. */
  function Quantum(level: nat): nat {
    if level == 0 then 20 else if level == 1 then 10 else 5
  }

  function StrideOfShare(share: int): int
    requires share > 0
  {
    STRIDE_DIVIDEND / share
  }

  predicate ProcOk(p: Proc) {
    && p.tickcount < TWO32 && p.pass < TWO32
    && (p.state.Embryo? ==> p.level == 2 && p.timequant == 5)
    && (Live(p) ==> (p.level <= 2 || p.level == STRIDE_LEVEL) && p.timequant == Quantum(p.level))
    && (Live(p) && p.level == STRIDE_LEVEL ==> 0 < p.share && p.stride == StrideOfShare(p.share))
  }

  predicate TableOk(ps: Table) {
    |ps| == NPROC && forall i | 0 <= i < NPROC :: ProcOk(ps[i])
  }

  /** A process in use has a pid of its own. */
  predicate PidsOk(ps: Table, nextpid: int) {
    && 0 < nextpid && (forall i | 0 <= i < |ps| :: ps[i].pid < nextpid)
    && (forall i, j | 0 <= i < j < |ps| && !ps[i].state.Unused? && !ps[j].state.Unused? :: ps[i].pid != ps[j].pid)
  }

  /** On one CPU, only the current process can be RUNNING, and it can run on in
      state RUNNABLE after a yield that did not call sched. */
  predicate CpuOk(ps: Table, cur: int) {
    && NONE <= cur < |ps| && (0 <= cur ==> Active(ps[cur]))
    && (forall i | 0 <= i < |ps| && ps[i].state.Running? :: i == cur)
  }

  // ---------- The counters ----------

  /** The number of RUNNABLE or RUNNING processes at a level. */
  function Count(ps: Table, l: nat): nat {
    if ps == [] then 0 else Count(ps[..|ps| - 1], l) + if ActiveAt(ps[|ps| - 1], l) then 1 else 0
  }

  function One(p: Proc, l: nat): nat { if ActiveAt(p, l) then 1 else 0 }

  predicate CountersOk(ps: Table, q: seq<int>, cnt: int) {
    && |q| == 3 && q[0] == Count(ps, 0) && q[1] == Count(ps, 1) && q[2] == Count(ps, 2)
    && cnt == q[0] + q[1] + q[2]
  }

  lemma {:induction false} CountChange(ps: Table, i: nat, p: Proc, l: nat)
    requires i < |ps|
    ensures Count(ps[i := p], l) == Count(ps, l) - One(ps[i], l) + One(p, l)
  {
    var n := |ps| - 1;
    if i == n {
      assert ps[i := p][..n] == ps[..n];
    } else {
      CountChange(ps[..n], i, p, l);
      assert ps[i := p][..n] == ps[..n][i := p];
    }
  }

  /** Counters that follow a change of one process stay right. */
  lemma CountersChange(ps: Table, i: nat, p: Proc, q: seq<int>, cnt: int, q': seq<int>, cnt': int)
    requires CountersOk(ps, q, cnt) && i < |ps| && |q'| == 3
    requires forall l | 0 <= l < 3 :: q'[l] == q[l] - One(ps[i], l) + One(p, l)
    requires cnt' == q'[0] + q'[1] + q'[2]
    ensures CountersOk(ps[i := p], q', cnt')
  {
    CountChange(ps, i, p, 0);
    CountChange(ps, i, p, 1);
    CountChange(ps, i, p, 2);
  }

  /** A counter is positive exactly when some process is there. */
  lemma {:induction false} CountPositive(ps: Table, l: nat)
    ensures Count(ps, l) > 0 <==> exists i :: 0 <= i < |ps| && ActiveAt(ps[i], l)
  {
    if ps != [] {
      var n := |ps| - 1;
      CountPositive(ps[..n], l);
      if Count(ps[..n], l) > 0 {
        var i :| 0 <= i < n && ActiveAt(ps[..n][i], l);
        assert ActiveAt(ps[i], l);
      } else {
        forall i | 0 <= i < n
          ensures !ActiveAt(ps[i], l)
        {
          assert ps[..n][i] == ps[i];
        }
      }
    }
  }

  /** The level the scheduler takes processes from. */
  function TopLevel(q: seq<int>): nat
    requires |q| == 3
  {
    if q[2] > 0 then 2 else if q[1] > 0 then 1 else 0
  }

  /** With right counters this is the highest level that has a process, and
      the counters together say whether there is one at all. */
  lemma TopLevelIsHighest(ps: Table, q: seq<int>, cnt: int)
    requires TableOk(ps) && CountersOk(ps, q, cnt)
    ensures forall i | 0 <= i < |ps| && Active(ps[i]) && ps[i].level != STRIDE_LEVEL :: ps[i].level <= TopLevel(q)
    ensures cnt > 0 <==> exists i :: 0 <= i < |ps| && ActiveAt(ps[i], TopLevel(q))
    ensures cnt > 0 <==> exists i :: 0 <= i < |ps| && Active(ps[i]) && ps[i].level != STRIDE_LEVEL
  {
    CountPositive(ps, 0);
    CountPositive(ps, 1);
    CountPositive(ps, 2);
    forall i | 0 <= i < |ps| && Active(ps[i]) && ps[i].level != STRIDE_LEVEL
      ensures ps[i].level <= TopLevel(q) && cnt > 0
    {
      assert ProcOk(ps[i]);
      assert ActiveAt(ps[i], ps[i].level);
    }
    if cnt > 0 {
      var i :| 0 <= i < |ps| && ActiveAt(ps[i], TopLevel(q));
      assert Active(ps[i]) && ps[i].level != STRIDE_LEVEL;
    }
  }
}
