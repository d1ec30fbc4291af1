/** What the scheduler's choices guarantee on one CPU: the best level and the
    least pass are served, and no client gets far ahead of another. */
module Fairness {
  import opened Common
  import opened Procs
  import opened StrideQueue
  import opened Picking
  import opened SchedSteps

  // ---------- One round of the scheduler ----------

  predicate InMlfq(p: Proc) { Active(p) && p.level != STRIDE_LEVEL }

  /** Some process of the MLFQ wants the CPU. */
  predicate MlfqHas(s: Sched) { exists i | 0 <= i < |s.procs| :: InMlfq(s.procs[i]) }

  /** Some process of the stride queue can run and is not behind the MLFQ or,
      if that is empty, not behind the head of the queue. */
  predicate StrideDue(s: Sched)
    requires forall k | 0 <= k < |s.queue| :: 0 <= s.queue[k] < |s.procs|
  {
    exists k | 0 <= k < |s.queue| ::
      && s.procs[s.queue[k]].state.Runnable?
      && s.procs[s.queue[k]].pass <= if MlfqHas(s) then s.mlfqPass else s.procs[s.queue[0]].pass
  }

  lemma MlfqCounted(s: Sched)
    requires Inv(s)
    ensures MlfqCount(s.procs) > 0 <==> MlfqHas(s)
    ensures forall i | 0 <= i < NPROC && InMlfq(s.procs[i]) :: s.procs[i].level <= Level(s.procs)
    ensures MlfqHas(s) ==> exists i | 0 <= i < NPROC :: ActiveAt(s.procs[i], Level(s.procs))
  {
    hide Members, SharesOk, Distinct, PidsOk, Count;
    var q := [Count(s.procs, 0), Count(s.procs, 1), Count(s.procs, 2)];
    TopLevelIsHighest(s.procs, q, q[0] + q[1] + q[2]);
    if MlfqHas(s) {
      var i :| 0 <= i < NPROC && InMlfq(s.procs[i]);
      assert Active(s.procs[i]) && s.procs[i].level != STRIDE_LEVEL;
    }
  }

  lemma QueueIn(s: Sched)
    requires Inv(s)
    ensures |s.procs| == NPROC && s.idx < NPROC && forall k | 0 <= k < |s.queue| :: 0 <= s.queue[k] < NPROC && s.procs[s.queue[k]].level == STRIDE_LEVEL
    ensures Distinct(s.queue) && NONE !in s.queue
  {
    forall k | 0 <= k < |s.queue|
      ensures 0 <= s.queue[k] < NPROC && s.procs[s.queue[k]].level == STRIDE_LEVEL
    {
      assert s.queue[k] in s.queue;
    }
  }

  /** A round puts the process it picks on the CPU and changes no other. */
  lemma RoundStarts(s: Sched)
    requires Inv(s) && s.cur == NONE
    ensures var s' := Scheduled(s);
      && NONE <= s'.cur < NPROC && s'.idx < NPROC
      && s' == s.(procs := if s'.cur == NONE then s.procs else s.procs[s'.cur := s.procs[s'.cur].(state := Running)], cur := s'.cur, idx := s'.idx)
      && (s'.cur != NONE ==> s.procs[s'.cur].state.Runnable?)
  {
    hide StridePick, MlfqPick, Members, SharesOk, Distinct, PidsOk;
    PicksInTable(s);
  }

  /** A stride process gets the CPU exactly if one is due.  It then has the
      least pass of all that can run, not more than the MLFQ's if that has a
      process, and those behind it in the queue have more. */
  lemma LeastPassServed(s: Sched)
    requires Inv(s) && s.cur == NONE
    ensures |s.procs| == NPROC && forall k | 0 <= k < |s.queue| :: 0 <= s.queue[k] < NPROC
    ensures Scheduled(s).cur in s.queue <==> StrideDue(s)
    ensures var c := Scheduled(s).cur;
      c in s.queue ==>
        && 0 <= c < NPROC && s.procs[c].state.Runnable? && Scheduled(s).idx == s.idx
        && (MlfqHas(s) ==> s.procs[c].pass <= s.mlfqPass)
        && (forall k | 0 <= k < |s.queue| && s.procs[s.queue[k]].state.Runnable? :: s.procs[c].pass <= s.procs[s.queue[k]].pass)
        && exists k | 0 <= k < |s.queue| :: s.queue[k] == c && PassedAfter(s.procs, s.queue, k)
  {
    hide Members, SharesOk, Distinct, PidsOk, Count, MlfqHas, PassedAfter, ScanTable, TableOk, ScanQueue, ProcOk, MlfqCount, Level;
    QueueIn(s);
    MlfqCounted(s);
    PicksInTable(s);
    SearchLeavesQueue(s);
    if s.queue != [] {
      var bound := if MlfqHas(s) then s.mlfqPass else s.procs[s.queue[0]].pass;
      ScanQueueFindsLeast(s.procs, s.queue, bound, NONE);
      ScanQueueFindsLast(s.procs, s.queue, bound, NONE);
      assert forall k | 0 <= k < |s.queue| :: s.queue[k] in s.queue;
    }
  }

  /** What the search of the table finds is no stride process. */
  lemma SearchLeavesQueue(s: Sched)
    requires Inv(s)
    ensures MlfqPick(s).0 !in s.queue
  {
    hide SharesOk, PidsOk, Distinct, ScanTable;
    PicksInTable(s);
    QueueIn(s);
  }

  /** Otherwise a process of the MLFQ gets the CPU exactly if it has one.  It is
      at the highest level that has one, no slot nearer to the search position
      is runnable there, and the next search starts behind it. */
  lemma MlfqServesTopLevel(s: Sched)
    requires Inv(s) && s.cur == NONE && Scheduled(s).cur !in s.queue
    ensures Scheduled(s).cur != NONE <==> MlfqHas(s)
    ensures Scheduled(s).cur == NONE ==> Scheduled(s).idx == s.idx
    ensures var c := Scheduled(s).cur;
      c != NONE ==>
        && 0 <= c < NPROC && s.procs[c].state.Runnable? && s.procs[c].level != STRIDE_LEVEL && s.idx < NPROC
        && (forall i | 0 <= i < NPROC && InMlfq(s.procs[i]) :: s.procs[i].level <= s.procs[c].level)
        && (forall i: nat | i < NPROC && Ahead(s.idx, i) < Ahead(s.idx, c) :: !(s.procs[i].state.Runnable? && s.procs[i].level == s.procs[c].level))
        && Scheduled(s).idx == (c + 1) % NPROC
  {
    hide Members, SharesOk, Distinct, PidsOk, Count, ScanTable, ScanQueue, ProcOk, MlfqCount, StridePick;
    SearchedRound(s);
    MlfqCounted(s);
    ScanTableFindsFirst(s.procs, Level(s.procs), s.idx, NPROC);
    hide Level;
    if MlfqHas(s) {
      var i :| 0 <= i < NPROC && ActiveAt(s.procs[i], Level(s.procs));
      assert Ahead(s.idx, i) < NPROC && Eligible(s.procs[i], Level(s.procs));
    }
  }

  /** A round that starts no stride process is a search of the table. */
  lemma SearchedRound(s: Sched)
    requires Inv(s) && s.cur == NONE && Scheduled(s).cur !in s.queue
    ensures |s.procs| == NPROC && s.idx < NPROC && (Scheduled(s).cur, Scheduled(s).idx) == MlfqPick(s)
    ensures var m := MlfqPick(s).0; m != NONE ==> 0 <= m < NPROC && MlfqHas(s) && s.procs[m].level != STRIDE_LEVEL
  {
    hide Members, SharesOk, Distinct, PidsOk, TableOk, MlfqPick, StridePick, Level, MlfqHas;
    QueueIn(s);
    PicksInTable(s);
    LevelSmall(s);
    if MlfqPick(s).0 != NONE { HasOne(s, MlfqPick(s).0); }
  }

  lemma HasOne(s: Sched, i: int)
    requires 0 <= i < |s.procs| && InMlfq(s.procs[i])
    ensures MlfqHas(s)
  {
  }

  lemma LevelSmall(s: Sched)
    ensures Level(s.procs) <= 2
  {
  }

  /** A process can run. */
  predicate CanRunSome(s: Sched) { exists i | 0 <= i < |s.procs| :: s.procs[i].state.Runnable? }

  /** The CPU stays idle exactly if the MLFQ has no process and every stride
      process that can run has a greater pass than the head of the queue. */
  lemma IdleExactly(s: Sched)
    requires Inv(s) && s.cur == NONE
    ensures |s.procs| == NPROC && forall k | 0 <= k < |s.queue| :: 0 <= s.queue[k] < NPROC
    ensures Scheduled(s).cur == NONE <==>
      !MlfqHas(s) && forall k | 0 <= k < |s.queue| && s.procs[s.queue[k]].state.Runnable? :: s.procs[s.queue[0]].pass < s.procs[s.queue[k]].pass
    ensures Scheduled(s).cur == NONE ==> Scheduled(s) == s
  {
    hide Inv, Scheduled, MlfqHas, PassedAfter;
    QueueIn(s);
    LeastPassServed(s);
    RoundStarts(s);
    if Scheduled(s).cur !in s.queue { MlfqServesTopLevel(s); }
  }

  /** Two stride processes: the head of the queue sleeps with pass 0, the other can run with pass 1000. */
  function SleepingHead(): Sched {
    var none := Proc(Unused, 0, 0, 0, 0, 0, 0, 0, 0, NONE, 0, false);
    var p := Proc(Sleeping, STRIDE_LEVEL, 5, 20, 0, 10, 1000, 0, 1, NONE, 7, false);
    var q := Proc(Runnable, STRIDE_LEVEL, 5, 20, 0, 10, 1000, 1000, 2, NONE, 0, false);
    Sched(seq(NPROC, i => if i == 0 then p else if i == 1 then q else none), [0, 1], 20, 0, 125, 0, 0, NONE, 3)
  }

  /** So a process that can run may be left waiting by an idle CPU, round after
      round, until the head of the queue wakes up. */
  lemma IdleDespiteWork()
    ensures Inv(SleepingHead()) && CanRunSome(SleepingHead()) && Scheduled(SleepingHead()) == SleepingHead()
  {
    var s := SleepingHead();
    HeadTable(s);
    hide Scheduled, SleepingHead, TableOk, PidsOk, CpuOk;
    IdleExactly(s);
  }

  lemma HeadShares(ps: Table)
    requires |ps| == NPROC && ps[0].share == 10 && ps[1].share == 10
    ensures SharesOk(ps, [0, 1], 20, 125, 0)
  {
    assert [0, 1][1..] == [1] && [1][1..] == [];
    assert Shares(ps, [1]) == 10 + Shares(ps, []);
  }

  lemma HeadTable(s: Sched)
    requires s == SleepingHead()
    ensures Inv(s) && CanRunSome(s) && s.cur == NONE && !MlfqHas(s) && s.queue == [0, 1]
    ensures |s.procs| == NPROC && s.procs[0].state.Sleeping? && s.procs[0].pass == 0 && s.procs[1].pass == 1000
  {
    hide SharesOk, StrideOfShare;
    assert StrideOfShare(10) == 1000 by { Tenth(); }
    HeadShares(s.procs);
    assert s.procs[1].state.Runnable?;
  }

  lemma Tenth()
    ensures StrideOfShare(10) == 1000
  {
  }

  // ---------- No slot is skipped ----------

  /** Step k of a run is a round that leaves the CPU to the MLFQ. */
  ghost predicate MlfqTurn(run: seq<Sched>, steps: seq<Step>, k: nat) {
    k < |steps| && k + 1 < |run| && steps[k].Schedule? && run[k + 1].cur !in run[k].queue
  }

  /** Slot b is runnable at the highest level that has a process of the MLFQ. */
  predicate AtTop(s: Sched, b: nat) {
    b < |s.procs| && s.procs[b].state.Runnable? && s.procs[b].level != STRIDE_LEVEL
    && forall i | 0 <= i < |s.procs| && InMlfq(s.procs[i]) :: s.procs[i].level <= s.procs[b].level
  }

  lemma TopIsEligible(s: Sched, b: nat)
    requires Inv(s) && AtTop(s, b)
    ensures b < NPROC && Eligible(s.procs[b], Level(s.procs))
  {
    MlfqCounted(s);
    hide Level, Members, SharesOk, Distinct, PidsOk;
    assert InMlfq(s.procs[b]);
    var i :| 0 <= i < NPROC && ActiveAt(s.procs[i], Level(s.procs));
    LevelSmall(s);
    assert InMlfq(s.procs[i]);
  }

  function SearchOf(s: Sched): Search { Search(s.procs, Level(s.procs), s.idx) }

  lemma RunStep(run: seq<Sched>, steps: seq<Step>, k: nat)
    requires IsRun(run, steps) && k < |steps|
    ensures Inv(run[k]) && Enabled(run[k], steps[k]) && run[k + 1] == Apply(run[k], steps[k])
  {
    hide Inv, Apply, Enabled, Initial;
    RunKeeps(run, steps, k);
  }

  /** Nothing but a search moves the search position. */
  lemma PositionStep(s: Sched, step: Step)
    requires Inv(s) && Enabled(s, step)
    ensures !step.Schedule? || Apply(s, step).cur in s.queue ==> Apply(s, step).idx == s.idx
  {
    hide ScanTable, StridePick, Level;
    if step.Schedule? { SearchLeavesQueue(s); QueueIn(s); }
  }

  lemma NearerStep(s: Sched, step: Step, a: nat, b: nat)
    requires Inv(s) && Enabled(s, step) && s.idx < NPROC && a < NPROC && b < NPROC && a != b
    requires var c := Apply(s, step).cur;
      if step.Schedule? && c !in s.queue then c == a || (AtTop(s, b) && c != b && Ahead(s.idx, b) < Ahead(s.idx, a))
      else Ahead(s.idx, b) < Ahead(s.idx, a)
    ensures Apply(s, step).idx < NPROC && Ahead(Apply(s, step).idx, b) < Ahead(Apply(s, step).idx, a)
  {
    hide TableOk, PidsOk, CpuOk, Members, Distinct, Shares, SharesOk, ScanTable, Ahead, StridePick, Level, Eligible, AtTop, Left;
    PositionStep(s, step);
    QueueIn(s);
    if step.Schedule? && Apply(s, step).cur !in s.queue {
      SearchedRound(s);
      if AtTop(s, b) { TopIsEligible(s, b); }
      SearchStep(SearchOf(s), a, b);
    }
  }

  /** While slot b is runnable at the top and passed over, it stays nearer than a. */
  lemma {:induction false} StaysNearer(run: seq<Sched>, steps: seq<Step>, a: nat, b: nat, i: nat, j: nat)
    requires IsRun(run, steps) && i < j < |run| && a < NPROC && b < NPROC && a != b
    requires MlfqTurn(run, steps, i) && run[i + 1].cur == a
    requires forall k | i < k < j && MlfqTurn(run, steps, k) :: AtTop(run[k], b) && run[k + 1].cur != b
    ensures run[j].idx < NPROC && Ahead(run[j].idx, b) < Ahead(run[j].idx, a)
    decreases j
  {
    hide Inv, Ahead, Level, Apply, Enabled, AtTop;
    RunStep(run, steps, j - 1);
    QueueIn(run[j - 1]);
    if i < j - 1 {
      StaysNearer(run, steps, a, b, i, j - 1);
    }
    assert MlfqTurn(run, steps, j - 1) <==> steps[j - 1].Schedule? && run[j].cur !in run[j - 1].queue;
    NearerStep(run[j - 1], steps[j - 1], a, b);
  }

  /** In every run, no slot that stays runnable at the top is skipped: between
      two rounds that give slot a the CPU, every other such slot has had it. */
  lemma NoSlotSkipped(run: seq<Sched>, steps: seq<Step>, a: nat, b: nat, i: nat, j: nat)
    requires IsRun(run, steps) && i < j < |steps| && a < NPROC && b < NPROC && a != b
    requires MlfqTurn(run, steps, i) && run[i + 1].cur == a && MlfqTurn(run, steps, j) && run[j + 1].cur == a
    requires forall k | i < k <= j && MlfqTurn(run, steps, k) :: AtTop(run[k], b)
    ensures exists k | i < k < j :: MlfqTurn(run, steps, k) && run[k + 1].cur == b
  {
    hide Inv, Ahead, Level, ScanTable, Scheduled;
    if forall k | i < k < j && MlfqTurn(run, steps, k) :: run[k + 1].cur != b {
      StaysNearer(run, steps, a, b, i, j);
      RunStep(run, steps, j);
      NotNearer(run[j], a, b);
      assert false;
    }
  }

  /** A round does not pass over a slot that is nearer. */
  lemma NotNearer(s: Sched, a: nat, b: nat)
    requires Inv(s) && s.cur == NONE && s.idx < NPROC && a < NPROC && b < NPROC && Scheduled(s).cur == a && a !in s.queue && AtTop(s, b)
    ensures !(Ahead(s.idx, b) < Ahead(s.idx, a))
  {
    hide Ahead, Scheduled, Members, SharesOk, Distinct, PidsOk;
    MlfqServesTopLevel(s);
    assert InMlfq(s.procs[a]) && InMlfq(s.procs[b]);
  }

  // ---------- Passes ----------

  // A client is a process of the stride queue, or NONE for the MLFQ as a whole.

  predicate Client(s: Sched, busy: bool, c: int) { c in s.queue || (c == NONE && busy) }

  function PassOf(s: Sched, c: int): int {
    if 0 <= c < |s.procs| then s.procs[c].pass else s.mlfqPass
  }

  function StrideOf(s: Sched, c: int): int {
    if 0 <= c < |s.procs| then s.procs[c].stride else s.mlfqStride
  }

  function Lead(s: Sched, p: int, q: int): int { PassOf(s, p) - PassOf(s, q) }

  /** Yields a client can make in one turn. */
  function Turns(c: int): nat { if c == NONE then 20 else 5 }

  function ClientOf(s: Sched): int { if s.cur in s.queue then s.cur else NONE }

  /** Every client wants the CPU; the MLFQ is a client or stays empty. */
  ghost predicate AllWant(s: Sched, busy: bool) {
    Inv(s) && (MlfqCount(s.procs) > 0 <==> busy) && forall c | c in s.queue :: Active(s.procs[c])
  }

  /** One step while the clients stay the same: a round of the scheduler, a
      yield whose pass does not wrap around, or anything a process of the MLFQ
      or an interrupt does to other processes of the MLFQ, including giving up
      the CPU. */
  ghost predicate FairStep(s: Sched, s': Sched)
    requires Inv(s)
  {
    || (s.cur == NONE && s' == Scheduled(s))
    || (0 <= s.cur && PassOf(s, ClientOf(s)) + StrideOf(s, ClientOf(s)) < TWO32 && exists ticks :: s' == Yielded(s, ticks))
    || (&& s'.queue == s.queue && s'.mlfqPass == s.mlfqPass && s'.mlfqStride == s.mlfqStride && |s'.procs| == |s.procs|
        && (forall c | c in s.queue && 0 <= c < |s.procs| :: s'.procs[c] == s.procs[c])
        && ((s'.cur == s.cur && (0 <= s.cur < |s.procs| ==> s'.procs[s.cur] == s.procs[s.cur])) || (s'.cur == NONE && s.cur !in s.queue)))
  }

  /** An upper bound for the yields left until the running process calls sched. */
  function LeftTurns(p: Proc): nat
    requires 0 < p.timequant
    ensures 1 <= LeftTurns(p) <= p.timequant
  {
    var m := p.tickcount % p.timequant;
    if m == 0 then 1 else p.timequant - m + 1
  }

  lemma NextTick(t: nat, q: nat)
    requires (q == 5 || q == 10 || q == 20) && t < TWO32 && t % q != 0
    ensures var t' := (t + 1) % TWO32; t' % q == 0 || t' % q == t % q + 1
  {
  }

  lemma FiveDivides(t: nat, q: nat)
    requires (q == 5 || q == 10 || q == 20) && t % 5 != 0
    ensures t % q != 0
  {
  }

  /** A yield that does not call sched leaves fewer yields, also when a boost
      falls into it. */
  lemma TurnsDecrease(s: Sched, ticks: nat)
    requires Inv(s) && 0 <= s.cur && !Resched(s, ticks)
    ensures 0 < s.procs[s.cur].timequant && 0 < Yielded(s, ticks).procs[s.cur].timequant
    ensures LeftTurns(Yielded(s, ticks).procs[s.cur]) < LeftTurns(s.procs[s.cur])
  {
    hide Members, SharesOk, Distinct, PidsOk;
    var p := s.procs[s.cur];
    assert ProcOk(p);
    var q := p.timequant;
    if BoostDue(ticks, s.boosted) && p.level != STRIDE_LEVEL {
      FiveDivides(p.tickcount, q);
    } else {
      NextTick(p.tickcount, q);
    }
  }

  /** What the run of a client may still add to its pass is within its turn. */
  ghost predicate WithinTurn(s: Sched, busy: bool) {
    0 <= s.cur < |s.procs| && 0 < s.procs[s.cur].timequant ==>
      forall q | Client(s, busy, q) && q != ClientOf(s) ::
        Lead(s, ClientOf(s), q) + LeftTurns(s.procs[s.cur]) * StrideOf(s, ClientOf(s)) <= Turns(ClientOf(s)) * StrideOf(s, ClientOf(s))
  }

  ghost predicate Bounded(s: Sched, s0: Sched, busy: bool) {
    forall p, q | Client(s, busy, p) && Client(s, busy, q) && p != q ::
      Lead(s, p, q) <= Max(Lead(s0, p, q), Turns(p) * StrideOf(s0, p))
  }

  ghost predicate SameClients(s: Sched, s0: Sched) {
    s.queue == s0.queue && |s.procs| == |s0.procs| && forall c | c in s.queue || c == NONE :: StrideOf(s, c) == StrideOf(s0, c)
  }

  lemma TimesLess(a: nat, b: nat, c: int)
    requires a <= b && 0 <= c
    ensures a * c <= b * c
  {
  }

  lemma StrideNotNegative(s: Sched, busy: bool, c: int)
    requires Inv(s) && Client(s, busy, c) && s.queue != []
    ensures 0 <= StrideOf(s, c)
  {
    hide StrideOfShare, Distinct, PidsOk, Shares;
    if c in s.queue {
      assert ProcOk(s.procs[c]);
      Quotient(s.procs[c].share);
    } else {
      Quotient(100 - s.share);
    }
  }

  // ---------- The steps ----------

  lemma QueueInTable(s: Sched)
    requires Inv(s)
    ensures |s.procs| == NPROC && forall c | c in s.queue :: 0 <= c < NPROC && InStride(s.procs[c])
  {
  }

  lemma TimeQuantum(s: Sched)
    requires Inv(s) && 0 <= s.cur
    ensures s.cur < NPROC && 0 < s.procs[s.cur].timequant <= Turns(ClientOf(s))
  {
    assert ProcOk(s.procs[s.cur]);
  }

  /** Picking changes no pass, and the picked client has the least one. */
  lemma PickLeast(s: Sched, busy: bool)
    requires AllWant(s, busy) && s.cur == NONE
    ensures var s' := Scheduled(s);
      && s'.queue == s.queue && |s'.procs| == |s.procs| && SameClients(s', s) && s'.cur < NPROC
      && (forall c | c in s.queue || c == NONE :: PassOf(s', c) == PassOf(s, c))
      && (0 <= s'.cur ==> Client(s', busy, ClientOf(s')) && forall q | Client(s', busy, q) :: Lead(s', ClientOf(s'), q) <= 0)
  {
    hide SharesOk, Distinct, PidsOk, MlfqCount, StridePick, MlfqPick, Scheduled, MlfqHas, Members, TableOk;
    LeastPassServed(s);
    RoundStarts(s);
    QueueInTable(s);
    MlfqCounted(s);
    var s' := Scheduled(s);
    if s'.cur !in s.queue { MlfqServesTopLevel(s); }
    forall c | c in s.queue
      ensures s.procs[c].state.Runnable? && exists k | 0 <= k < |s.queue| :: s.queue[k] == c
    {
      assert Active(s.procs[c]);
    }
  }

  lemma PickWithinTurn(s: Sched, busy: bool)
    requires AllWant(s, busy) && s.cur == NONE && Inv(Scheduled(s))
    ensures WithinTurn(Scheduled(s), busy)
  {
    hide Inv, Scheduled, StridePick, MlfqPick, MlfqCount;
    var s' := Scheduled(s);
    PickLeast(s, busy);
    if 0 <= s'.cur {
      TimeQuantum(s');
      QueueInTable(s');
      forall q | Client(s', busy, q) && q != ClientOf(s')
        ensures Lead(s', ClientOf(s'), q) + LeftTurns(s'.procs[s'.cur]) * StrideOf(s', ClientOf(s')) <= Turns(ClientOf(s')) * StrideOf(s', ClientOf(s'))
      {
        assert s'.queue != [];
        StrideNotNegative(s', busy, ClientOf(s'));
        TimesLess(LeftTurns(s'.procs[s'.cur]), Turns(ClientOf(s')), StrideOf(s', ClientOf(s')));
      }
    }
  }

  /** A yield adds its stride to the pass of the client that runs, if there is
      a queue, and changes no other pass. */
  lemma YieldPasses(s: Sched, ticks: nat)
    requires Inv(s) && 0 <= s.cur && PassOf(s, ClientOf(s)) + StrideOf(s, ClientOf(s)) < TWO32 && s.queue != []
    ensures var s' := Yielded(s, ticks);
      && SameClients(s', s)
      && PassOf(s', ClientOf(s)) == PassOf(s, ClientOf(s)) + StrideOf(s, ClientOf(s))
      && (forall c | (c in s.queue || c == NONE) && c != ClientOf(s) :: PassOf(s', c) == PassOf(s, c))
  {
    hide SharesOk, Distinct, PidsOk, TickedTable;
    var s' := Yielded(s, ticks);
    QueueInTable(s);
    StrideNotNegative(s, true, ClientOf(s));
    forall c | c in s.queue || c == NONE
      ensures StrideOf(s', c) == StrideOf(s, c)
      ensures PassOf(s', c) == if c == ClientOf(s) then PassOf(s, c) + StrideOf(s, c) else PassOf(s, c)
    {
      if c in s.queue { TickedTableOk(s, ticks, c); }
    }
  }

  lemma YieldWithinTurn(s: Sched, ticks: nat, busy: bool)
    requires Inv(s) && 0 <= s.cur && PassOf(s, ClientOf(s)) + StrideOf(s, ClientOf(s)) < TWO32 && s.queue != []
    requires WithinTurn(s, busy) && Client(s, busy, ClientOf(s))
    ensures WithinTurn(Yielded(s, ticks), busy)
    ensures forall q | Client(s, busy, q) && q != ClientOf(s) :: Lead(Yielded(s, ticks), ClientOf(s), q) <= Turns(ClientOf(s)) * StrideOf(s, ClientOf(s))
  {
    hide Inv, Yielded, Resched, Turns, LeftTurns;
    InTable(s);
    var s' := Yielded(s, ticks);
    YieldPasses(s, ticks);
    TimeQuantum(s);
    QueueInTable(s);
    StrideNotNegative(s, busy, ClientOf(s));
    YieldCur(s, ticks);
    var c := ClientOf(s);
    var n, st := LeftTurns(s.procs[s.cur]), StrideOf(s, c);
    TimesLess(1, n, st);
    if !Resched(s, ticks) {
      TurnsDecrease(s, ticks);
      TimesLess(LeftTurns(s'.procs[s.cur]), n - 1, st);
      assert (n - 1) * st == n * st - st;
      assert ClientOf(s') == c && StrideOf(s', c) == st && s'.cur == s.cur;
      forall q | Client(s', busy, q) && q != c
        ensures Lead(s', c, q) + LeftTurns(s'.procs[s'.cur]) * st <= Turns(c) * st
      {
        assert Lead(s', c, q) == Lead(s, c, q) + st;
      }
    } else {
      assert s'.cur == NONE;
    }
  }

  lemma YieldCur(s: Sched, ticks: nat)
    requires Inv(s) && 0 <= s.cur
    ensures var s' := Yielded(s, ticks); s'.cur == (if Resched(s, ticks) then NONE else s.cur) && |s'.procs| == |s.procs| && s'.queue == s.queue && s'.mlfqStride == s.mlfqStride
  {
  }

  /** One step keeps every lead within its bound. */
  lemma StepBounded(s: Sched, s': Sched, s0: Sched, busy: bool)
    requires AllWant(s, busy) && AllWant(s', busy) && FairStep(s, s')
    requires Bounded(s, s0, busy) && WithinTurn(s, busy) && SameClients(s, s0)
    ensures Bounded(s', s0, busy) && WithinTurn(s', busy) && SameClients(s', s0)
  {
    hide Inv, Scheduled, Yielded, Turns, MlfqCount, WithinTurn;
    InTable(s);
    QueueInTable(s);
    QueueInTable(s');
    if s.cur == NONE && s' == Scheduled(s) {
      PickLeast(s, busy);
      PickWithinTurn(s, busy);
      forall p, q | Client(s', busy, p) && Client(s', busy, q) && p != q
        ensures Lead(s', p, q) == Lead(s, p, q)
      {
      }
    } else if 0 <= s.cur && PassOf(s, ClientOf(s)) + StrideOf(s, ClientOf(s)) < TWO32 && exists ticks :: s' == Yielded(s, ticks) {
      var ticks :| s' == Yielded(s, ticks);
      StepBoundedYield(s, ticks, s0, busy);
    } else {
      StepBoundedOther(s, s', busy);
      forall p, q | Client(s', busy, p) && Client(s', busy, q) && p != q
        ensures Lead(s', p, q) == Lead(s, p, q)
      {
      }
    }
  }

  lemma StepBoundedOther(s: Sched, s': Sched, busy: bool)
    requires AllWant(s, busy) && AllWant(s', busy) && WithinTurn(s, busy)
    requires s'.queue == s.queue && s'.mlfqPass == s.mlfqPass && s'.mlfqStride == s.mlfqStride && |s'.procs| == |s.procs|
    requires forall c | c in s.queue && 0 <= c < |s.procs| :: s'.procs[c] == s.procs[c]
    requires (s'.cur == s.cur && (0 <= s.cur < |s.procs| ==> s'.procs[s.cur] == s.procs[s.cur])) || (s'.cur == NONE && s.cur !in s.queue)
    ensures WithinTurn(s', busy) && SameClients(s', s) && forall c | c in s.queue || c == NONE :: PassOf(s', c) == PassOf(s, c)
  {
    QueueInTable(s);
    hide Inv, MlfqCount, Turns, LeftTurns;
    if 0 <= s'.cur < |s.procs| && 0 < s'.procs[s'.cur].timequant {
      forall q | Client(s', busy, q) && q != ClientOf(s')
        ensures Lead(s', ClientOf(s'), q) + LeftTurns(s'.procs[s'.cur]) * StrideOf(s', ClientOf(s')) <= Turns(ClientOf(s')) * StrideOf(s', ClientOf(s'))
      {
        assert Client(s, busy, q) && ClientOf(s') == ClientOf(s);
      }
    }
  }

  lemma StepBoundedYield(s: Sched, ticks: nat, s0: Sched, busy: bool)
    requires AllWant(s, busy) && 0 <= s.cur && PassOf(s, ClientOf(s)) + StrideOf(s, ClientOf(s)) < TWO32
    requires Bounded(s, s0, busy) && WithinTurn(s, busy) && SameClients(s, s0)
    ensures var s' := Yielded(s, ticks); Bounded(s', s0, busy) && WithinTurn(s', busy) && SameClients(s', s0)
  {
    hide Inv, Yielded, MlfqCount, WithinTurn;
    InTable(s);
    var s', c := Yielded(s, ticks), ClientOf(s);
    QueueInTable(s);
    YieldCur(s, ticks);
    if s.queue == [] {
      OneClient(s', s0, busy);
    } else {
      MlfqIsClient(s, busy);
      YieldPasses(s, ticks);
      YieldWithinTurn(s, ticks, busy);
      StrideNotNegative(s, busy, c);
      forall p, q | Client(s', busy, p) && Client(s', busy, q) && p != q
        ensures Lead(s', p, q) <= Max(Lead(s0, p, q), Turns(p) * StrideOf(s0, p))
      {
        if p != c { assert Lead(s', p, q) <= Lead(s, p, q); }
      }
    }
  }

  lemma OneClient(s: Sched, s0: Sched, busy: bool)
    requires s.queue == []
    ensures Bounded(s, s0, busy) && WithinTurn(s, busy)
  {
  }

  /** A process that runs and is not in the queue makes the MLFQ a client. */
  lemma MlfqIsClient(s: Sched, busy: bool)
    requires AllWant(s, busy) && 0 <= s.cur
    ensures Client(s, busy, ClientOf(s))
  {
    if s.cur !in s.queue {
      assert ProcOk(s.procs[s.cur]);
      CountPositive(s.procs, s.procs[s.cur].level);
      assert ActiveAt(s.procs[s.cur], s.procs[s.cur].level);
    }
  }

  /** A run with fixed clients that always want the CPU. */
  ghost predicate FairRun(run: seq<Sched>, busy: bool) {
    && |run| > 0 && run[0].cur == NONE && (forall k | 0 <= k < |run| :: AllWant(run[k], busy))
    && forall k | 0 < k < |run| :: FairStep(run[k - 1], run[k])
  }

  lemma {:induction false} RunBounded(run: seq<Sched>, busy: bool, k: nat)
    requires FairRun(run, busy) && k < |run|
    ensures Bounded(run[k], run[0], busy) && WithinTurn(run[k], busy) && SameClients(run[k], run[0])
  {
    hide Inv;
    if k > 0 {
      RunBounded(run, busy, k - 1);
      StepBounded(run[k - 1], run[k], run[0], busy);
    }
  }

  /** Over every such run, no client's pass gets further ahead of another's than
      it was at the start, or than one turn takes it. */
  lemma LeadBounded(run: seq<Sched>, busy: bool, k: nat, p: int, q: int)
    requires FairRun(run, busy) && k < |run| && p != q && Client(run[0], busy, p) && Client(run[0], busy, q)
    ensures Lead(run[k], p, q) <= Max(Lead(run[0], p, q), Turns(p) * StrideOf(run[0], p))
  {
    hide Inv;
    RunBounded(run, busy, k);
  }

  /** A pass that wraps around does break the bound: a client that was within
      one turn falls behind every other one by almost the whole range, which is
      more than the other's turn and, unless that was almost the whole range
      already, more than its initial lead. */
  lemma WrapBreaksBound(s: Sched, ticks: nat, q: int, lead: int)
    requires Inv(s) && 0 <= s.cur && PassOf(s, ClientOf(s)) + StrideOf(s, ClientOf(s)) >= TWO32 && s.queue != []
    requires q != ClientOf(s) && (q in s.queue || q == NONE) && Lead(s, ClientOf(s), q) <= Turns(ClientOf(s)) * StrideOf(s, ClientOf(s))
    ensures Lead(Yielded(s, ticks), q, ClientOf(s)) == Lead(s, q, ClientOf(s)) + TWO32 - StrideOf(s, ClientOf(s))
    ensures lead < TWO32 - 21 * STRIDE_DIVIDEND ==>
      Lead(Yielded(s, ticks), q, ClientOf(s)) > Max(lead, Turns(q) * StrideOf(s, q))
  {
    hide Inv, TickedTable, Resched;
    InTable(s);
    QueueInTable(s);
    var c := ClientOf(s);
    StrideSmall(s, c);
    StrideSmall(s, q);
    WrapPasses(s, ticks, q);
    TimesLess(Turns(c), 20, StrideOf(s, c));
    TimesLess(Turns(q), 20, StrideOf(s, q));
  }

  lemma StrideSmall(s: Sched, c: int)
    requires Inv(s) && s.queue != [] && (c in s.queue || c == NONE)
    ensures 0 <= StrideOf(s, c) <= STRIDE_DIVIDEND && 0 <= PassOf(s, c) < TWO32
  {
    hide StrideOfShare, Distinct, PidsOk, Shares;
    if c in s.queue {
      assert ProcOk(s.procs[c]);
      Quotient(s.procs[c].share);
    } else {
      Quotient(100 - s.share);
    }
  }

  lemma Quotient(share: int)
    requires 0 < share
    ensures 0 <= StrideOfShare(share) <= STRIDE_DIVIDEND
  {
  }

  lemma WrapPasses(s: Sched, ticks: nat, q: int)
    requires Inv(s) && 0 <= s.cur && PassOf(s, ClientOf(s)) + StrideOf(s, ClientOf(s)) >= TWO32 && s.queue != []
    requires q != ClientOf(s) && (q in s.queue || q == NONE)
    ensures var s' := Yielded(s, ticks);
      PassOf(s', ClientOf(s)) == PassOf(s, ClientOf(s)) + StrideOf(s, ClientOf(s)) - TWO32 && PassOf(s', q) == PassOf(s, q)
  {
    hide SharesOk, Distinct, PidsOk, TickedTable;
    QueueInTable(s);
    StrideSmall(s, ClientOf(s));
    if ClientOf(s) != NONE { TickedTableOk(s, ticks, s.cur); }
    if q in s.queue { TickedTableOk(s, ticks, q); }
  }
}
