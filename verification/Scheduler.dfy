/** The scheduler's fields (ptable, mlfqstr) changed in place: every operation
    takes the step SchedSteps gives it, and keeps the MLFQ counters right and
    the stride queue one list. */
module Scheduler {
  import opened Common
  import opened Procs
  import opened StrideQueue
  import opened Picking
  import opened SchedSteps
  import opened Outcomes

  class Scheduler {
    var procs: Table
    var qlevels: seq<int>
    var mlfqCnt: int
    var links: seq<int>            // s_link of every slot
    var head: int                  // stride_head
    var share: int
    var mlfqPass: nat
    var mlfqStride: int
    var boosted: nat               // priboosttime
    var idx: nat                   // searchidx
    var cur: int                   // the process on the CPU
    var nextpid: int
    ghost var queue: seq<int>

    ghost function View(): Sched
      reads this
    {
      Sched(procs, queue, share, mlfqPass, mlfqStride, boosted, idx, cur, nextpid)
    }

    /** The counters count the RUNNABLE and RUNNING processes of each level. */
    ghost predicate Valid()
      reads this
    {
      Inv(View()) && CountersOk(procs, qlevels, mlfqCnt) && |links| == NPROC && Links(links, head, queue)
    }

    /** The zeroed table and pinit. */
    constructor ()
      ensures Valid() && Initial(View())
    {
      var none := Proc(Unused, 0, 0, 0, 0, 0, 0, 0, 0, NONE, 0, false);
      procs := seq(NPROC, _ => none);
      qlevels, mlfqCnt := [0, 0, 0], 0;
      links, head := seq(NPROC, _ => NONE), NONE;
      share, mlfqPass, mlfqStride, boosted := 0, 0, 0, 0;
      idx, cur, nextpid, queue := 0, NONE, 1, [];
      new;
      CountNone(procs, 0);
      CountNone(procs, 1);
      CountNone(procs, 2);
    }

    method MlfqRm(level: nat)
      requires |qlevels| == 3
      modifies this`qlevels, this`mlfqCnt
      ensures mlfqCnt == old(mlfqCnt) - 1
      ensures qlevels == if level <= 2 then old(qlevels)[level := old(qlevels)[level] - 1] else old(qlevels)
    {
      if level <= 2 { qlevels := qlevels[level := qlevels[level] - 1]; }
      mlfqCnt := mlfqCnt - 1;
    }

    method MlfqAdd(level: nat)
      requires |qlevels| == 3
      modifies this`qlevels, this`mlfqCnt
      ensures mlfqCnt == old(mlfqCnt) + 1
      ensures qlevels == if level <= 2 then old(qlevels)[level := old(qlevels)[level] + 1] else old(qlevels)
    {
      if level <= 2 { qlevels := qlevels[level := qlevels[level] + 1]; }
      mlfqCnt := mlfqCnt + 1;
    }

    /** Take the first unused slot for a new process. */
    method Allocproc() returns (r: int)
      requires Valid()
      modifies this`procs, this`nextpid
      ensures Valid()
      ensures r == NONE ==> View() == old(View()) && forall i | 0 <= i < NPROC :: !procs[i].state.Unused?
      ensures r != NONE ==> 0 <= r < NPROC && old(procs)[r].state.Unused? && View() == Allocated(old(View()), r)
      ensures r != NONE ==> forall j | 0 <= j < r :: !old(procs)[j].state.Unused?
    {
      hide Inv, Count, Links;
      InTable(View());
      for i := 0 to NPROC
        invariant procs == old(procs) && nextpid == old(nextpid) && forall j | 0 <= j < i :: !procs[j].state.Unused?
      {
        if procs[i].state.Unused? {
          AllocatedKeeps(View(), i);
          ghost var p := NewProc(procs[i], nextpid);
          CountersChange(procs, i, p, qlevels, mlfqCnt, qlevels, mlfqCnt);
          procs := procs[i := NewProc(procs[i], nextpid)];
          nextpid := nextpid + 1;
          return i;
        }
      }
      return NONE;
    }

    /** The end of fork: the new process can run.  Its level is never -1. */
    method Ready(i: nat, parent: int)
      requires Valid() && i < NPROC && procs[i].state.Embryo?
      modifies this`procs, this`qlevels, this`mlfqCnt
      ensures Valid() && View() == Readied(old(View()), i, parent)
    {
      hide Inv, Count, Links;
      ReadiedKeeps(View(), i, parent);
      InTable(View());
      EmbryoLevel(View(), i);
      ghost var ps, q, cnt := procs, qlevels, mlfqCnt;
      procs := procs[i := procs[i].(state := Runnable, parent := parent)];
      if procs[i].level != STRIDE_LEVEL {
        MlfqAdd(procs[i].level);
      }
      CountersChange(ps, i, procs[i], q, cnt, qlevels, mlfqCnt);
    }

    /** Wake up every process that sleeps on chan. */
    method Wakeup1(chan: int)
      requires Valid()
      modifies this`procs, this`qlevels, this`mlfqCnt
      ensures Valid() && View() == old(View()).(procs := Woken(old(procs), chan))
    {
      hide Inv, Count, Links;
      WokenKeeps(View(), chan);
      InTable(View());
      LiveLevels(View());
      for i := 0 to NPROC
        invariant |procs| == NPROC && CountersOk(procs, qlevels, mlfqCnt)
        invariant forall j | 0 <= j < NPROC :: procs[j] == if j < i then WokenProc(old(procs)[j], chan) else old(procs)[j]
      {
        if procs[i].state.Sleeping? && procs[i].chan == chan {
          ghost var ps, q, cnt := procs, qlevels, mlfqCnt;
          procs := procs[i := procs[i].(state := Runnable)];
          if procs[i].level != STRIDE_LEVEL {
            MlfqAdd(procs[i].level);
          }
          CountersChange(ps, i, procs[i], q, cnt, qlevels, mlfqCnt);
        }
      }
      assert procs == Woken(old(procs), chan);
    }

    /** Mark the process with this pid as killed and wake it up. */
    method Kill(pid: int) returns (r: int)
      requires Valid()
      modifies this`procs, this`qlevels, this`mlfqCnt
      ensures Valid()
      ensures r == NONE ==> View() == old(View()) && forall i | 0 <= i < NPROC :: procs[i].pid != pid
      ensures r != NONE ==> 0 <= r < NPROC && old(procs)[r].pid == pid && View() == Killed(old(View()), r)
      ensures r != NONE ==> forall j | 0 <= j < r :: old(procs)[j].pid != pid
    {
      hide Inv, Count, Links;
      InTable(View());
      LiveLevels(View());
      for i := 0 to NPROC
        invariant procs == old(procs) && qlevels == old(qlevels) && mlfqCnt == old(mlfqCnt)
        invariant forall j | 0 <= j < i :: procs[j].pid != pid
      {
        if procs[i].pid == pid {
          KilledKeeps(View(), i);
          ghost var ps, q, cnt := procs, qlevels, mlfqCnt;
          procs := procs[i := procs[i].(killed := true)];
          if procs[i].state.Sleeping? {
            procs := procs[i := procs[i].(state := Runnable)];
            if procs[i].level != STRIDE_LEVEL {
              MlfqAdd(procs[i].level);
            }
          }
          CountersChange(ps, i, procs[i], q, cnt, qlevels, mlfqCnt);
          assert procs == ps[i := KilledProc(ps[i])];
          return i;
        }
      }
      return NONE;
    }

    /** The current process goes to sleep; the scheduler takes over. */
    method Sleep(chan: int)
      requires Valid() && 0 <= cur
      modifies this`procs, this`qlevels, this`mlfqCnt, this`cur
      ensures Valid() && View() == Slept(old(View()), chan)
    {
      hide Inv, Count, Links;
      CurActive(View());
      SleptKeeps(View(), chan);
      LiveLevels(View());
      ghost var ps, q, cnt := procs, qlevels, mlfqCnt;
      procs := procs[cur := procs[cur].(chan := chan, state := Sleeping)];
      if procs[cur].level != STRIDE_LEVEL {
        MlfqRm(procs[cur].level);
      }
      CountersChange(ps, cur, procs[cur], q, cnt, qlevels, mlfqCnt);
      cur := NONE;
    }

    /** The list part of striderm: the links without the k-th process of the queue. */
    method Unlink(p: int, ghost k: nat)
      requires |links| == NPROC && Links(links, head, queue) && k < |queue| && queue[k] == p && 0 <= p < NPROC
      modifies this`links, this`head, this`queue
      ensures |links| == NPROC && Links(links, head, queue) && queue == Without(old(queue), k)
    {
      hide Links, Without;
      QueueInTable(links, head, queue);
      ghost var l0, q0, h0 := links, queue, head;
      UnlinkLinks(links, head, queue, k);
      var pptr := head;
      if pptr == p {
        FirstIsHead(links, head, queue, k);
        head := links[pptr];
      } else {
        ghost var j: nat := 0;
        HeadAt(links, head, queue);
        while pptr != NONE
          invariant pptr == At(q0, j) && j < k && links == l0
          modifies this`links
          decreases k - j
        {
          LinkAt(l0, h0, q0, j, k);
          if links[pptr] == p {
            links := links[pptr := links[p]];
            break;
          }
          pptr := links[pptr];
          j := j + 1;
        }
        UnlinkedForm(l0, queue, k);
      }
      links := links[p := NONE];
      queue := Without(queue, k);
    }

    /** Take process p out of the stride queue. */
    method Striderm(p: int)
      requires |links| == NPROC && Links(links, head, queue) && p in queue && |procs| == NPROC && share - procs[p].share < 100
      modifies this`links, this`head, this`share, this`mlfqStride, this`mlfqPass, this`queue
      ensures |links| == NPROC && Links(links, head, queue) && View() == Left(old(View()), p)
    {
      hide Links, Without;
      QueueInTable(links, head, queue);
      Unlink(p, Index(queue, p));
      share := share - procs[p].share;
      mlfqStride := STRIDE_DIVIDEND / (100 - share);
      EmptyHead(links, head, queue);
      if head == NONE { mlfqPass := 0; }
    }

    /** The children of the current process pass to init, which wakes up for a zombie. */
    method PassChildren(init: int)
      requires Valid() && 0 <= cur
      modifies this`procs, this`qlevels, this`mlfqCnt
      ensures Valid() && View() == old(View()).(procs := Adopted(old(procs), cur, init))
    {
      hide Inv, CountersOk, Links, Adopted, Reparented, Woken;
      InTable(View());
      ghost var ps := procs;
      AdoptNone(ps, cur, init);
      for i := 0 to NPROC
        invariant Valid() && View() == old(View()).(procs := AdoptedUpTo(ps, cur, init, i))
      {
        InTable(View());
        AdoptStep(ps, cur, init, i);
        if procs[i].parent == cur {
          ParentKeeps(View(), i, init);
          CountersSame(procs, i, procs[i].(parent := init), qlevels, mlfqCnt);
          procs := procs[i := procs[i].(parent := init)];
          if procs[i].state.Zombie? {
            Wakeup1(init);
          }
        }
      }
      AdoptAll(ps, cur, init);
    }

    /** The current process ends. */
    method Exit(init: int) returns (r: Outcome<()>)
      requires Valid() && 0 <= cur
      modifies this
      ensures r.Panic? <==> old(cur) == init
      ensures r.Panic? ==> View() == old(View())
      ensures r.Done? ==> Valid() && View() == Exited(old(View()), init)
    {
      hide Inv, Links, Adopted, Woken, Reparented, Left, Count;
      if cur == init { return Panic; }
      ghost var s0 := View();
      ExitedKeeps(s0, init);
      CurActive(s0);
      Wakeup1(procs[cur].parent);
      PassChildren(init);
      CurActive(View());
      LiveLevels(View());
      OrphanedCur(s0.procs, s0.cur, init);
      ghost var ps, q, cnt := procs, qlevels, mlfqCnt;
      var c := cur;
      if procs[cur].level == STRIDE_LEVEL { LeavingIsPossible(s0, init); }
      procs := procs[cur := procs[cur].(state := Zombie)];
      cur := NONE;
      if procs[c].level != STRIDE_LEVEL {
        MlfqRm(procs[c].level);
      } else {
        Striderm(c);
      }
      CountersChange(ps, c, procs[c], q, cnt, qlevels, mlfqCnt);
      return Done(());
    }

    /** The part of wait that frees a zombie child. */
    method Reap(i: nat)
      requires Valid() && i < NPROC && procs[i].state.Zombie?
      modifies this`procs
      ensures Valid() && View() == Reaped(old(View()), i)
    {
      hide Inv, Count, Links;
      InTable(View());
      ReapedKeeps(View(), i);
      CountersChange(procs, i, procs[i].(state := Unused, pid := 0, parent := NONE, killed := false), qlevels, mlfqCnt, qlevels, mlfqCnt);
      procs := procs[i := procs[i].(pid := 0, parent := NONE, killed := false, state := Unused)];
    }

    /** lowerlevel. */
    method Lowerlevel(p: nat)
      requires p < |procs| && CountersOk(procs, qlevels, mlfqCnt) && Active(procs[p])
      modifies this`procs, this`qlevels
      ensures procs == old(procs)[p := Lowered(old(procs)[p])] && CountersOk(procs, qlevels, mlfqCnt)
    {
      var level := procs[p].level;
      if level < 1 || level > 2 { return; }
      ghost var ps, q := procs, qlevels;
      qlevels := qlevels[level := qlevels[level] - 1];
      procs := procs[p := procs[p].(level := level - 1, tickcount := 0)];
      if level - 1 == 1 {
        procs := procs[p := procs[p].(timequant := 10, timeallot := 40)];
      } else {
        procs := procs[p := procs[p].(timequant := 20)];
      }
      qlevels := qlevels[level - 1 := qlevels[level - 1] + 1];
      assert procs == ps[p := Lowered(ps[p])];
      CountersChange(ps, p, procs[p], q, mlfqCnt, qlevels, mlfqCnt);
    }

    /** priboost: every runnable process of the MLFQ goes to the top level. */
    method Priboost()
      requires TableOk(procs) && CountersOk(procs, qlevels, mlfqCnt)
      modifies this`procs, this`qlevels
      ensures procs == Boosted(old(procs)) && CountersOk(procs, qlevels, mlfqCnt)
    {
      assert forall j | 0 <= j < NPROC :: ProcOk(procs[j]);
      for i := 0 to NPROC
        invariant |procs| == NPROC && CountersOk(procs, qlevels, mlfqCnt)
        invariant forall j | 0 <= j < NPROC :: procs[j] == if j < i then BoostedProc(old(procs)[j]) else old(procs)[j]
      {
        var p := procs[i];
        if p.state.Runnable? && p.level != STRIDE_LEVEL {
          ghost var ps, q := procs, qlevels;
          assert ProcOk(old(procs)[i]);
          qlevels := qlevels[p.level := qlevels[p.level] - 1];
          procs := procs[i := p.(level := 2, timequant := 5, timeallot := 20, tickcount := 0)];
          qlevels := qlevels[2 := qlevels[2] + 1];
          CountersChange(ps, i, procs[i], q, mlfqCnt, qlevels, mlfqCnt);
        }
      }
      assert procs == Boosted(old(procs));
    }

    /** The first part of yield: count the tick and lower the level when the allotment is used up. */
    method Tick() returns (lowered: bool)
      requires Valid() && 0 <= cur
      modifies this`procs, this`qlevels
      ensures 0 <= cur < |old(procs)| && procs == old(procs)[cur := Ticked(old(procs)[cur])]
      ensures CountersOk(procs, qlevels, mlfqCnt) && TableOk(procs) && lowered == UsedUp(old(procs)[cur])
    {
      hide Members, SharesOk, Distinct, Links;
      CurActive(View());
      var tickcount, level, timeallot := procs[cur].tickcount, procs[cur].level, procs[cur].timeallot;
      ghost var ps := procs;
      assert ProcOk(ps[cur]);
      TickedOk(ps[cur]);
      procs := procs[cur := procs[cur].(tickcount := (tickcount + 1) % TWO32, state := Runnable)];
      CountersChange(ps, cur, procs[cur], qlevels, mlfqCnt, qlevels, mlfqCnt);
      lowered := false;
      if level > 0 && tickcount >= timeallot {
        Lowerlevel(cur);
        lowered := true;
      }
      assert procs == ps[cur := Ticked(ps[cur])];
    }

    /** The middle part of yield: boost when it is due. */
    method Boost(ticks: nat)
      requires TableOk(procs) && CountersOk(procs, qlevels, mlfqCnt)
      modifies this`procs, this`qlevels, this`boosted
      ensures CountersOk(procs, qlevels, mlfqCnt)
      ensures procs == (if BoostDue(ticks, old(boosted)) then Boosted(old(procs)) else old(procs))
      ensures boosted == if BoostDue(ticks, old(boosted)) then ticks else old(boosted)
    {
      if (ticks - boosted) % TWO32 >= 200 {
        boosted := ticks;
        Priboost();
      }
    }

    /** The last part of yield: charge the tick to the stride process or to the MLFQ. */
    method Charge(level: nat)
      requires 0 <= cur < |procs| && CountersOk(procs, qlevels, mlfqCnt) && Links(links, head, queue)
      modifies this`procs, this`mlfqPass
      ensures CountersOk(procs, qlevels, mlfqCnt)
      ensures procs == (if queue != [] && level == STRIDE_LEVEL then old(procs)[cur := Charged(old(procs)[cur])] else old(procs))
      ensures mlfqPass == if queue != [] && level != STRIDE_LEVEL then (old(mlfqPass) + mlfqStride) % TWO32 else old(mlfqPass)
    {
      EmptyHead(links, head, queue);
      hide Links;
      if head != NONE {
        if level == STRIDE_LEVEL {
          CountersSame(procs, cur, Charged(procs[cur]), qlevels, mlfqCnt);
          procs := procs[cur := procs[cur].(pass := (procs[cur].pass + procs[cur].stride) % TWO32)];
        } else {
          mlfqPass := (mlfqPass + mlfqStride) % TWO32;
        }
      }
    }

    /** A process gives up the CPU for one round; it keeps it if its quantum is not used up. */
    method Yield(ticks: nat)
      requires Valid() && 0 <= cur
      modifies this`procs, this`qlevels, this`boosted, this`mlfqPass, this`cur
      ensures Valid() && View() == Yielded(old(View()), ticks)
    {
      hide Inv, CountersOk, Links, Ticked, TableOk, BoostDue, UsedUp, Boosted;
      ghost var s0 := View();
      CurActive(s0);
      YieldedKeeps(s0, ticks);
      TickedTableOk(s0, ticks, cur);
      var tickcount, level := procs[cur].tickcount, procs[cur].level;
      var lowered := Tick();
      Boost(ticks);
      assert procs == TickedTable(s0, ticks);
      Charge(level);
      if lowered || tickcount % procs[cur].timequant == 0 {
        cur := NONE;
      }
    }

    /** Move the current process from the MLFQ to the stride queue, unless it is there. */
    method Join()
      requires Valid() && 0 <= cur
      modifies this`qlevels, this`mlfqCnt, this`links, this`head, this`queue
      ensures |links| == NPROC && Links(links, head, queue) && queue == Joined(old(queue), cur) && |qlevels| == 3
      ensures cur < NPROC && forall l | 0 <= l < 3 :: qlevels[l] == old(qlevels)[l] - One(procs[cur], l)
      ensures mlfqCnt == qlevels[0] + qlevels[1] + qlevels[2]
    {
      hide Inv, Links, Count;
      ghost var s0 := View();
      CurActive(s0);
      QueueInTable(links, head, queue);
      HeadAt(links, head, queue);
      var pptr := head;
      ghost var j: nat := 0;
      while pptr != NONE
        invariant j <= |queue| && pptr == At(queue, j) && forall k | 0 <= k < j :: queue[k] != cur
        modifies {}
        decreases |queue| - j
      {
        LinkNext(links, head, queue, j);
        SamePid(s0, pptr);
        if procs[pptr].pid == procs[cur].pid { break; }
        pptr := links[pptr];
        j := j + 1;
      }
      if pptr == NONE {
        assert j == |queue|;
        assert cur !in queue;
        NotStride(s0);
        MlfqRm(procs[cur].level);
        PushLinks(links, head, queue, cur);
        NullLink(links, head, queue, cur);
        assert head == NONE ==> links == links[cur := head];
        if head != NONE {
          links := links[cur := head];
        }
        head := cur;
        queue := [cur] + queue;
      } else {
        assert cur in queue;
        IsStride(s0);
      }
    }

    /** The current process asks for a share of the CPU of its own. */
    method SetCpuShare(request: int) returns (ok: bool)
      requires Valid() && 0 <= cur && -0x8000_0000 <= request < 0x8000_0000
      modifies this
      ensures View() == Shared(old(View()), request) && ok == ShareFits(old(View()), request)
      ensures Valid() <==> !ShareOverflows(old(View()), request)
    {
      hide Inv, Links, Joined, Count;
      ghost var s0 := View();
      SharedKeeps(s0, request);
      CurActive(s0);
      if request <= 0 || Int32(share + request) > 80 { return false; }
      ghost var ps, q, cnt := procs, qlevels, mlfqCnt;
      Join();
      share := Int32(share + request);
      procs := procs[cur := procs[cur].(share := request, stride := STRIDE_DIVIDEND / request, level := STRIDE_LEVEL, timequant := 5)];
      mlfqStride := STRIDE_DIVIDEND / (100 - share);
      CountersChange(ps, cur, procs[cur], q, cnt, qlevels, mlfqCnt);
      return true;
    }

    /** The stride process to run, NONE if the MLFQ has its turn. */
    method PickStride() returns (newproc: int)
      requires Valid()
      ensures newproc == StridePick(View())
    {
      hide Inv, Links, Count;
      QueueInTable(links, head, queue);
      InTable(View());
      HeadAt(links, head, queue);
      EmptyHead(links, head, queue);
      newproc := NONE;
      if head != NONE {
        var sp := head;
        var minPass: nat := if mlfqCnt > 0 then mlfqPass else procs[head].pass;
        ghost var bound, j: nat := minPass, 0;
        assert queue[0..] == queue;
        while sp != NONE
          invariant j <= |queue| && sp == At(queue, j)
          invariant ScanQueue(procs, queue, bound, NONE) == ScanQueue(procs, queue[j..], minPass, newproc)
          decreases |queue| - j
        {
          LinkNext(links, head, queue, j);
          assert queue[j..][1..] == queue[j + 1..];
          if procs[sp].pass <= minPass && procs[sp].state.Runnable? {
            minPass := procs[sp].pass;
            newproc := sp;
          }
          sp := links[sp];
          j := j + 1;
        }
      }
    }

    /** The process of the MLFQ to run, NONE if there is none, and the search position afterwards. */
    method PickMlfq() returns (newproc: int, searchidx: nat)
      requires Valid()
      ensures (newproc, searchidx) == MlfqPick(View())
    {
      hide Members, SharesOk, Distinct, Links, PidsOk, Count;
      var level := if qlevels[2] > 0 then 2 else if qlevels[1] > 0 then 1 else 0;
      var cnt := 0;
      searchidx := idx;
      while true
        invariant 0 <= cnt <= 63 && searchidx < NPROC
        invariant MlfqPick(View()) == ScanTable(procs, level, searchidx, NPROC - cnt)
        decreases NPROC - cnt
      {
        var p := searchidx;
        searchidx := if searchidx < NPROC - 1 then searchidx + 1 else 0;
        if procs[p].state.Runnable? && procs[p].level == level {
          return p, searchidx;
        }
        if cnt >= 63 { break; }
        cnt := cnt + 1;
      }
      newproc := NONE;
    }

    /** One round of the scheduler, up to the switch to the process it picks. */
    method Schedule()
      requires Valid() && cur == NONE
      modifies this`procs, this`idx, this`cur
      ensures Valid() && View() == Scheduled(old(View()))
    {
      hide Inv, Links, StridePick, MlfqPick;
      ghost var s0 := View();
      ScheduledKeeps(s0);
      QueueInTable(links, head, queue);
      InTable(s0);
      PicksInTable(s0);
      var newproc := PickStride();
      if newproc == NONE {
        newproc, idx := PickMlfq();
      }
      if newproc != NONE {
        CountersChange(procs, newproc, procs[newproc].(state := Running), qlevels, mlfqCnt, qlevels, mlfqCnt);
        procs := procs[newproc := procs[newproc].(state := Running)];
        cur := newproc;
      }
    }
  }

  lemma CountNone(ps: Table, l: nat)
    requires forall i | 0 <= i < |ps| :: !Active(ps[i])
    ensures Count(ps, l) == 0
  {
    CountPositive(ps, l);
  }

  /** Changes that keep state and level keep the counters. */
  lemma CountersSame(ps: Table, i: nat, p: Proc, q: seq<int>, cnt: int)
    requires CountersOk(ps, q, cnt) && i < |ps| && p.state == ps[i].state && p.level == ps[i].level
    ensures CountersOk(ps[i := p], q, cnt)
  {
    CountersChange(ps, i, p, q, cnt, q, cnt);
  }

  lemma LinkNext(links: seq<int>, head: int, queue: seq<int>, j: nat)
    requires Links(links, head, queue) && j <= |queue| && At(queue, j) != NONE
    ensures j < |queue| && 0 <= queue[j] < |links| && links[queue[j]] == At(queue, j + 1)
  {
  }

  lemma NullLink(links: seq<int>, head: int, queue: seq<int>, p: int)
    requires Links(links, head, queue) && 0 <= p < |links| && p !in queue
    ensures links[p] == NONE
  {
  }

  /** A process of the queue with the current one's pid is the current one. */
  lemma SamePid(s: Sched, p: int)
    requires Inv(s) && p in s.queue && 0 <= s.cur
    ensures 0 <= p < NPROC && s.cur < NPROC && (s.procs[p].pid == s.procs[s.cur].pid <==> p == s.cur)
  {
  }

  lemma NotStride(s: Sched)
    requires Inv(s) && 0 <= s.cur && s.cur !in s.queue
    ensures s.cur < NPROC && s.procs[s.cur].level <= 2
  {
    assert ProcOk(s.procs[s.cur]);
  }

  lemma IsStride(s: Sched)
    requires Inv(s) && 0 <= s.cur && s.cur in s.queue
    ensures s.cur < NPROC && s.procs[s.cur].level == STRIDE_LEVEL
  {
  }

  // ---------- exit ----------

  /** The table when exit has passed on the children in the first i slots. */
  function AdoptedUpTo(ps: Table, c: int, init: int, i: nat): (r: Table)
    requires i <= |ps|
    ensures |r| == |ps|
  {
    var r := Reparented(ps[..i], c, init) + ps[i..];
    if ZombieChild(ps[..i], c) then Woken(r, init) else r
  }

  lemma AdoptNone(ps: Table, c: int, init: int)
    ensures AdoptedUpTo(ps, c, init, 0) == ps
  {
    assert Reparented(ps[..0], c, init) + ps[0..] == ps;
  }

  lemma AdoptAll(ps: Table, c: int, init: int)
    ensures AdoptedUpTo(ps, c, init, |ps|) == Adopted(ps, c, init)
  {
    assert ps[..|ps|] == ps && ps[|ps|..] == [];
    assert Reparented(ps, c, init) + [] == Reparented(ps, c, init);
  }

  lemma ZombieStep(ps: Table, c: int, i: nat)
    requires i < |ps|
    ensures ZombieChild(ps[..i + 1], c) <==> ZombieChild(ps[..i], c) || (ps[i].parent == c && ps[i].state.Zombie?)
  {
    if ZombieChild(ps[..i], c) {
      var j :| 0 <= j < i && ps[..i][j].parent == c && ps[..i][j].state.Zombie?;
      assert ps[..i + 1][j] == ps[..i][j];
    }
    if ZombieChild(ps[..i + 1], c) {
      var j :| 0 <= j <= i && ps[..i + 1][j].parent == c && ps[..i + 1][j].state.Zombie?;
      if j < i { assert ps[..i][j] == ps[j]; }
    }
    if ps[i].parent == c && ps[i].state.Zombie? {
      assert ps[..i + 1][i] == ps[i];
    }
  }

  lemma AdoptedAt(ps: Table, c: int, init: int, i: nat, j: nat)
    requires i <= |ps| && j < |ps|
    ensures var p := if j < i && ps[j].parent == c then ps[j].(parent := init) else ps[j];
      AdoptedUpTo(ps, c, init, i)[j] == if ZombieChild(ps[..i], c) then WokenProc(p, init) else p
  {
    hide ZombieChild, WokenProc;
  }

  /** One slot: a child is passed on, and wakes init up if it is a zombie. */
  lemma AdoptStep(ps: Table, c: int, init: int, i: nat)
    requires i < |ps|
    ensures var r := AdoptedUpTo(ps, c, init, i);
      && r[i].parent == ps[i].parent && (r[i].state.Zombie? <==> ps[i].state.Zombie?)
      && (var r1 := if r[i].parent == c then r[i := r[i].(parent := init)] else r;
          AdoptedUpTo(ps, c, init, i + 1) == if r[i].parent == c && r[i].state.Zombie? then Woken(r1, init) else r1)
  {
    ZombieStep(ps, c, i);
    AdoptedAt(ps, c, init, i, i);
    hide ZombieChild, AdoptedUpTo;
    var r, r' := AdoptedUpTo(ps, c, init, i), AdoptedUpTo(ps, c, init, i + 1);
    var r1 := if r[i].parent == c then r[i := r[i].(parent := init)] else r;
    var r2 := if r[i].parent == c && r[i].state.Zombie? then Woken(r1, init) else r1;
    forall j | 0 <= j < |ps|
      ensures r'[j] == r2[j]
    {
      AdoptedAt(ps, c, init, i, j);
      AdoptedAt(ps, c, init, i + 1, j);
    }
  }

  /** Passing on children does not change the exiting process's own state. */
  lemma OrphanedCur(ps: Table, c: int, init: int)
    requires 0 <= c < |ps| && Active(ps[c])
    ensures var p := Orphaned(ps, c, init)[c]; p.state == ps[c].state && p.level == ps[c].level && p.share == ps[c].share
  {
  }

  lemma EmbryoLevel(s: Sched, i: nat)
    requires Inv(s) && i < NPROC && s.procs[i].state.Embryo?
    ensures s.procs[i].level == 2
  {
    assert ProcOk(s.procs[i]);
  }

  lemma LiveLevels(s: Sched)
    requires Inv(s)
    ensures forall i | 0 <= i < NPROC && Live(s.procs[i]) :: s.procs[i].level <= 2 || s.procs[i].level == STRIDE_LEVEL
  {
    assert forall i | 0 <= i < NPROC :: ProcOk(s.procs[i]);
  }

  lemma QueueInTable(links: seq<int>, head: int, queue: seq<int>)
    requires Links(links, head, queue)
    ensures (forall k | 0 <= k < |queue| :: 0 <= queue[k] < |links|) && Distinct(queue)
    ensures forall i | i in queue :: 0 <= i < |links|
  {
  }

  lemma FirstIsHead(links: seq<int>, head: int, queue: seq<int>, k: nat)
    requires Links(links, head, queue) && k < |queue| && head == queue[k]
    ensures k == 0
  {
  }

  lemma HeadAt(links: seq<int>, head: int, queue: seq<int>)
    requires Links(links, head, queue)
    ensures head == At(queue, 0)
  {
  }

  lemma EmptyHead(links: seq<int>, head: int, queue: seq<int>)
    requires Links(links, head, queue)
    ensures head == NONE <==> queue == []
  {
    assert queue != [] ==> 0 <= queue[0];
  }

  /** Following the links before the k-th process: its predecessor is found. */
  lemma LinkAt(links: seq<int>, head: int, queue: seq<int>, j: nat, k: nat)
    requires Links(links, head, queue) && j < k < |queue|
    ensures 0 <= queue[j] < |links| && links[queue[j]] == At(queue, j + 1) && (links[queue[j]] == queue[k] <==> j + 1 == k)
  {
    assert j + 1 != k ==> queue[j + 1] != queue[k];
  }

  lemma UnlinkedForm(links: seq<int>, queue: seq<int>, k: nat)
    requires 0 < k < |queue| && forall j | 0 <= j < |queue| :: 0 <= queue[j] < |links|
    ensures Unlinked(links, queue, k) == links[queue[k - 1] := links[queue[k]]][queue[k] := NONE]
  {
  }
}
