/** What the operations of the process table do for their callers: sleepers are
    woken by what they wait for and nothing else, processes that use up their
    time go down and come up again, shares are granted and given back. */
module SchedLaws {
  import opened Common
  import opened Procs
  import opened StrideQueue
  import opened SchedSteps

  // ---------- Sleeping and waking ----------

  /** A sleep followed by a wakeup of its channel: the process can run again as
      it was, with every other sleeper on the channel; nobody else changes. */
  lemma SleepThenWakeup(s: Sched, chan: int)
    requires Inv(s) && 0 <= s.cur
    ensures |s.procs| == NPROC && s.cur < NPROC && Slept(s, chan).cur == NONE
    ensures var ps := Woken(Slept(s, chan).procs, chan);
      && |ps| == NPROC && ps[s.cur] == s.procs[s.cur].(state := Runnable, chan := chan)
      && forall i | 0 <= i < NPROC && i != s.cur ::
           if s.procs[i].state.Sleeping? && s.procs[i].chan == chan then ps[i].state.Runnable? && ps[i] == s.procs[i].(state := Runnable)
           else ps[i] == s.procs[i]
  {
  }

  /** The channels an exit of the current process wakes: its parent's, and
      init's if a child is left as a zombie. */
  predicate ExitWakes(s: Sched, init: int, chan: int)
    requires 0 <= s.cur < |s.procs|
  {
    chan == s.procs[s.cur].parent || (chan == init && exists i | 0 <= i < |s.procs| :: s.procs[i].parent == s.cur && s.procs[i].state.Zombie?)
  }

  /** The step is one that wakes slot i, which sleeps on chan. */
  predicate Wakes(s: Sched, step: Step, i: nat, chan: int) {
    || step == Wakeup(chan) || step == Kill(i)
    || (step.Exit? && 0 <= s.cur < |s.procs| && ExitWakes(s, step.init, chan))
  }

  /** The table an exit leaves, slot by slot. */
  lemma ExitedAt(s: Sched, init: int, i: nat)
    requires Inv(s) && 0 <= s.cur && i < NPROC
    ensures |s.procs| == NPROC && s.cur < NPROC && |Exited(s, init).procs| == NPROC && Exited(s, init).cur == NONE
    ensures var p, p' := s.procs[i], Exited(s, init).procs[i];
      && p'.parent == (if p.parent == s.cur then init else p.parent)
      && p'.state == (if i == s.cur then Zombie else if p.state.Sleeping? && ExitWakes(s, init, p.chan) then Runnable else p.state)
      && p'.chan == p.chan && p'.level == p.level && p'.pid == p.pid && p'.share == p.share && p'.pass == p.pass
  {
    hide Members, SharesOk, Distinct, PidsOk, TableOk;
    InTable(s);
    CurActive(s);
    ZombiesStay(s.procs, s.procs[s.cur].parent, s.cur);
  }

  lemma ZombiesStay(ps: Table, chan: int, c: int)
    ensures ZombieChild(Woken(ps, chan), c) <==> ZombieChild(ps, c)
  {
    if ZombieChild(ps, c) {
      var i :| 0 <= i < |ps| && ps[i].parent == c && ps[i].state.Zombie?;
      assert Woken(ps, chan)[i] == ps[i];
    }
  }

  /** One step: a sleeper stays asleep on its channel or, exactly if the step
      is one that wakes it, can run. */
  lemma SleeperStep(s: Sched, step: Step, i: nat)
    requires Inv(s) && Enabled(s, step) && i < |s.procs| && s.procs[i].state.Sleeping?
    ensures i < |Apply(s, step).procs| && Apply(s, step).procs[i].chan == s.procs[i].chan
    ensures Apply(s, step).procs[i].state == if Wakes(s, step, i, s.procs[i].chan) then Runnable else Sleeping
  {
    hide Members, SharesOk, Distinct, PidsOk, StridePick, MlfqPick, Exited;
    InTable(s);
    if 0 <= s.cur { CurActive(s); }
    match step
    case Exit(init) => ExitedAt(s, init, i);
    case Schedule => PicksInTable(s);
    case Yield(ticks) => YieldAt(s, ticks, i);
    case _ =>
  }

  lemma YieldAt(s: Sched, ticks: nat, i: nat)
    requires Inv(s) && 0 <= s.cur && i < NPROC && i < |s.procs| && i != s.cur
    ensures |Yielded(s, ticks).procs| == |s.procs|
    ensures Yielded(s, ticks).procs[i] == if BoostDue(ticks, s.boosted) then BoostedProc(s.procs[i]) else s.procs[i]
  {
    hide Members, SharesOk, Distinct, PidsOk, TableOk, Ticked;
  }

  /** In every run, a process sleeps until a wakeup of its channel, a kill of
      its own or the exit it waits for, and no longer. */
  lemma {:induction false} SleepsUntilWoken(run: seq<Sched>, steps: seq<Step>, i: nat, j: nat, p: nat)
    requires IsRun(run, steps) && i <= j < |steps| && p < |run[i].procs| && run[i].procs[p].state.Sleeping?
    requires forall k | i <= k < j :: !Wakes(run[k], steps[k], p, run[i].procs[p].chan)
    ensures p < |run[j].procs| && run[j].procs[p].state.Sleeping? && run[j].procs[p].chan == run[i].procs[p].chan
    ensures p < |run[j + 1].procs| && (run[j + 1].procs[p].state.Runnable? <==> Wakes(run[j], steps[j], p, run[i].procs[p].chan))
    decreases j
  {
    hide Inv, Apply, Enabled, Wakes;
    if i < j {
      SleepsUntilWoken(run, steps, i, j - 1, p);
      RunKeeps(run, steps, j - 1);
      SleeperStep(run[j - 1], steps[j - 1], p);
    }
    RunKeeps(run, steps, j);
    SleeperStep(run[j], steps[j], p);
  }

  /** A killed process can run if it slept, and is marked; nobody else changes. */
  lemma KillReaches(s: Sched, i: nat)
    requires Inv(s) && i < NPROC
    ensures var s' := Killed(s, i);
      && |s'.procs| == |s.procs| == NPROC && s'.procs[i].killed && !s'.procs[i].state.Sleeping?
      && (s.procs[i].state.Sleeping? ==> s'.procs[i].state.Runnable?) && (!s.procs[i].state.Sleeping? ==> s'.procs[i].state == s.procs[i].state)
      && s' == s.(procs := s'.procs) && forall k | 0 <= k < NPROC && k != i :: s'.procs[k] == s.procs[k]
  {
  }

  /** Waiting for a zombie frees its slot, which allocproc can then take; giving
      up a new process does so too.  Nobody else changes. */
  lemma SlotFreed(s: Sched, i: nat, k: nat)
    requires Inv(s) && i < NPROC && k < NPROC
    ensures |Reaped(s, i).procs| == |Abandoned(s, i).procs| == |s.procs| == NPROC
    ensures var p := Reaped(s, i).procs[k];
      if k == i then p.state.Unused? && p.pid == 0 && p.parent == NONE && !p.killed else p == s.procs[k]
    ensures var p := Abandoned(s, i).procs[k]; if k == i then p.state.Unused? else p == s.procs[k]
  {
  }

  // ---------- Levels ----------

  /** A new process starts at the top level with its whole allotment. */
  lemma StartsAtTop(s: Sched, i: nat, parent: int)
    requires Inv(s) && i < NPROC && s.procs[i].state.Unused?
    ensures var s' := Readied(Allocated(s, i), i, parent);
      && |s'.procs| == NPROC && Inv(s') && s'.procs[i].state.Runnable? && s'.procs[i].parent == parent && i !in s'.queue
      && s'.procs[i].level == 2 && s'.procs[i].timequant == 5 && s'.procs[i].timeallot == 20 && s'.procs[i].tickcount == 0 && s'.procs[i].pass == 0
      && forall k | 0 <= k < NPROC && k != i :: s'.procs[k] == s.procs[k] && s'.procs[k].pid != s'.procs[i].pid
  {
    AllocatedKeeps(s, i);
    ReadiedKeeps(Allocated(s, i), i, parent);
  }

  /** Without a boost, a yield takes a process that has used up its allotment
      one level down, gives it the quantum of that level and calls sched; any
      other process of the MLFQ keeps its level, and the CPU as well unless its
      ticks are a multiple of its quantum. */
  lemma Demotion(s: Sched, ticks: nat)
    requires Inv(s) && 0 <= s.cur && (ticks - s.boosted) % TWO32 < 200
    ensures s.cur < |s.procs| && |Yielded(s, ticks).procs| == |s.procs|
    ensures var p, p' := s.procs[s.cur], Yielded(s, ticks).procs[s.cur];
      && p'.state.Runnable?
      && (0 < p.level <= 2 && p.tickcount >= p.timeallot ==>
            && p'.level == p.level - 1 && p'.tickcount == 0 && Yielded(s, ticks).cur == NONE
            && p'.timequant == (if p.level == 2 then 10 else 20) && p'.timeallot == (if p.level == 2 then 40 else p.timeallot))
      && (p.level == 0 || (p.level <= 2 && p.tickcount < p.timeallot) ==>
            && p.timequant > 0 && p'.level == p.level && p'.timequant == p.timequant && p'.tickcount == (p.tickcount + 1) % TWO32
            && (Yielded(s, ticks).cur == NONE <==> p.tickcount % p.timequant == 0))
      && (p.level == STRIDE_LEVEL ==> p'.level == p.level && p'.timequant == p.timequant)
  {
    hide Members, SharesOk, Distinct, PidsOk;
    CurActive(s);
    assert ProcOk(s.procs[s.cur]);
  }

  /** A yield 200 ticks after the last boost, or later, takes every process of
      the MLFQ that can run, the yielding one too, to the top level with its
      whole allotment, and the others nowhere. */
  lemma BoostRaises(s: Sched, ticks: nat, i: nat)
    requires Inv(s) && 0 <= s.cur && (ticks - s.boosted) % TWO32 >= 200 && i < NPROC
    ensures |s.procs| == |Yielded(s, ticks).procs| == NPROC && s.cur < NPROC && Yielded(s, ticks).boosted == ticks
    ensures var p, p' := s.procs[i], Yielded(s, ticks).procs[i];
      if (i == s.cur || p.state.Runnable?) && p.level != STRIDE_LEVEL
      then p'.state.Runnable? && p'.level == 2 && p'.timequant == 5 && p'.timeallot == 20 && p'.tickcount == 0
      else p'.level == p.level && p'.timequant == p.timequant && (i != s.cur ==> p' == p)
  {
    hide Members, SharesOk, Distinct, PidsOk;
    CurActive(s);
    assert ProcOk(s.procs[s.cur]);
  }

  // ---------- Shares ----------

  /** A positive request that keeps the sum within 80 is granted: the process
      leaves the MLFQ for the stride queue, its stride and the MLFQ's follow
      from the shares, and no other process changes. */
  lemma ShareGranted(s: Sched, share: int)
    requires Inv(s) && 0 <= s.cur && 0 < share && s.share + share <= 80
    ensures var s' := Shared(s, share);
      && |s'.procs| == |s.procs| == NPROC && s.cur < NPROC && s'.cur == s.cur
      && s'.share == s.share + share && s'.mlfqStride == 10000 / (100 - s.share - share)
      && s'.queue == (if s.cur in s.queue then s.queue else [s.cur] + s.queue)
      && s'.procs[s.cur] == s.procs[s.cur].(share := share, stride := 10000 / share, level := STRIDE_LEVEL, timequant := 5)
      && forall i | 0 <= i < NPROC && i != s.cur :: s'.procs[i] == s.procs[i]
  {
    CurActive(s);
    ShareNotNegative(s);
    Int32Sum(s.share, share);
    hide Members, SharesOk, Distinct, PidsOk, TableOk;
  }

  /** A request that is not positive or takes the sum above 80 changes nothing. */
  lemma ShareRefused(s: Sched, share: int)
    requires Inv(s) && 0 <= s.cur && -0x8000_0000 <= share < 0x8000_0000 && (share <= 0 || 80 < s.share + share < 0x8000_0000)
    ensures s.cur < |s.procs| && Shared(s, share) == s
  {
    CurActive(s);
    if 0 < share {
      ShareNotNegative(s);
      Int32Sum(s.share, share);
    }
  }

  /** A process that leaves gives back the share it asked for last: the sum is
      what it was before that request, and a process that was not in the queue
      leaves the queue as it was. */
  lemma ShareReturned(s: Sched, share: int, init: int)
    requires Inv(s) && 0 <= s.cur && 0 < share && s.share + share <= 80
    ensures s.cur < |s.procs| && Shared(s, share).cur == s.cur && Inv(Shared(s, share))
    ensures Exited(Shared(s, share), init).share == s.share
    ensures s.cur !in s.queue ==> Exited(Shared(s, share), init).queue == s.queue
  {
    hide Members, SharesOk, PidsOk, TableOk, Distinct, Orphaned;
    CurActive(s);
    ShareGranted(s, share);
    ShareNotNegative(s);
    SharedKeeps(s, share);
    var s1 := Shared(s, share);
    LeavingIsPossible(s1, init);
    if s.cur !in s.queue { FirstOut(s.queue, s.cur); }
  }

  lemma FirstOut(queue: seq<int>, c: int)
    requires c !in queue
    ensures Without([c] + queue, Index([c] + queue, c)) == queue
  {
    assert forall j | 0 < j < |[c] + queue| :: ([c] + queue)[j] in queue;
  }

  /** The reserved sum is the sum of the shares in use. */
  ghost predicate SumExact(s: Sched)
    requires forall k | 0 <= k < |s.queue| :: 0 <= s.queue[k] < |s.procs|
  {
    s.share == Shares(s.procs, s.queue)
  }

  /** A granted request keeps the reserved sum exact if and only if the process
      had no share before: a second request does not give the first one back. */
  lemma SecondShareLeaks(s: Sched, share: int)
    requires Inv(s) && 0 <= s.cur && 0 < share && s.share + share <= 80
    requires (forall k | 0 <= k < |s.queue| :: 0 <= s.queue[k] < |s.procs|) && SumExact(s)
    ensures s.cur < |s.procs| && forall k | 0 <= k < |Shared(s, share).queue| :: 0 <= Shared(s, share).queue[k] < |Shared(s, share).procs|
    ensures SumExact(Shared(s, share)) <==> s.cur !in s.queue
  {
    hide SharesOk, PidsOk, Distinct, Shares;
    CurActive(s);
    ShareGranted(s, share);
    SharedSum(s, Shared(s, share).procs[s.cur]);
    MembersInTable(s);
  }
}
