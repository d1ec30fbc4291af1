/** The scheduler's data as one value and every step on it: each function is
    one region that ptable.lock makes atomic.  Runs have no threads and no
    semaphores. */
module SchedSteps {
  import opened Common
  import opened Procs
  import opened StrideQueue
  import opened Picking

  datatype Sched = Sched(procs: Table, queue: seq<int>, share: int, mlfqPass: nat, mlfqStride: int,
                         boosted: nat, idx: nat, cur: int, nextpid: int)

  ghost predicate Inv(s: Sched) {
    && TableOk(s.procs) && PidsOk(s.procs, s.nextpid) && CpuOk(s.procs, s.cur) && 0 <= s.idx < NPROC
    && Distinct(s.queue) && Members(s.procs, s.queue)
    && SharesOk(s.procs, s.queue, s.share, s.mlfqStride, s.mlfqPass)
  }

  /** pinit: an unused table and nothing in the stride queue. */
  predicate Initial(s: Sched) {
    && TableOk(s.procs) && (forall i | 0 <= i < NPROC :: s.procs[i].state.Unused? && s.procs[i].pid < 1)
    && s.queue == [] && s.share == 0 && s.mlfqPass == 0 && s.idx == 0 && s.cur == NONE && s.nextpid == 1
  }

  // ---------- Processes come and go ----------

  function NewProc(p: Proc, pid: int): Proc {
    p.(state := Embryo, level := 2, timequant := 5, timeallot := 20, tickcount := 0, share := 0, stride := -1, pass := 0, pid := pid)
  }

  /** allocproc takes slot i. */
  function Allocated(s: Sched, i: nat): Sched
    requires i < |s.procs|
  {
    s.(procs := s.procs[i := NewProc(s.procs[i], s.nextpid)], nextpid := s.nextpid + 1)
  }

  /** fork or userinit makes the new process in slot i runnable, or gives it up. */
  function Readied(s: Sched, i: nat, parent: int): Sched
    requires i < |s.procs|
  {
    s.(procs := s.procs[i := s.procs[i].(state := Runnable, parent := parent)])
  }

  function Abandoned(s: Sched, i: nat): Sched
    requires i < |s.procs|
  {
    s.(procs := s.procs[i := s.procs[i].(state := Unused)])
  }

  predicate WaitsOn(p: Proc, chan: int) { p.state.Sleeping? && p.chan == chan }

  function WokenProc(p: Proc, chan: int): Proc {
    if WaitsOn(p, chan) then p.(state := Runnable) else p
  }

  /** wakeup1. */
  function Woken(ps: Table, chan: int): (r: Table)
    ensures |r| == |ps| && forall i | 0 <= i < |ps| :: r[i] == WokenProc(ps[i], chan)
  {
    seq(|ps|, i requires 0 <= i < |ps| => WokenProc(ps[i], chan))
  }

  /** The children of slot c pass to init. */
  function Reparented(ps: Table, c: int, init: int): (r: Table)
    ensures |r| == |ps| && forall i | 0 <= i < |ps| :: r[i] == if ps[i].parent == c then ps[i].(parent := init) else ps[i]
  {
    seq(|ps|, i requires 0 <= i < |ps| => if ps[i].parent == c then ps[i].(parent := init) else ps[i])
  }

  predicate ZombieChild(ps: Table, c: int) {
    exists i | 0 <= i < |ps| :: ps[i].parent == c && ps[i].state.Zombie?
  }

  /** The same, and init wakes up if one of them is a zombie. */
  function Adopted(ps: Table, c: int, init: int): (r: Table)
    ensures |r| == |ps|
  {
    var ps1 := Reparented(ps, c, init);
    if ZombieChild(ps, c) then Woken(ps1, init) else ps1
  }

  /** The table exit leaves, with the current process still in its old state. */
  function Orphaned(ps: Table, c: int, init: int): (r: Table)
    requires 0 <= c < |ps|
    ensures |r| == |ps|
  {
    Adopted(Woken(ps, ps[c].parent), c, init)
  }

  /** Where a process stands in the queue. */
  ghost function Index(queue: seq<int>, p: int): (k: nat)
    requires p in queue
    ensures k < |queue| && queue[k] == p
  {
    var k: nat :| k < |queue| && queue[k] == p;
    k
  }

  /** striderm: a process leaves the stride queue and gives its share back. */
  ghost function Left(s: Sched, p: int): Sched
    requires p in s.queue && 0 <= p < |s.procs| && s.share - s.procs[p].share < 100
  {
    var q := Without(s.queue, Index(s.queue, p));
    var share := s.share - s.procs[p].share;
    s.(queue := q, share := share, mlfqStride := StrideOfShare(100 - share), mlfqPass := if q == [] then 0 else s.mlfqPass)
  }

  function Buried(s: Sched): Sched
    requires 0 <= s.cur < |s.procs|
  {
    s.(procs := s.procs[s.cur := s.procs[s.cur].(state := Zombie)], cur := NONE)
  }

  /** exit, up to the call of sched. */
  ghost function Exited(s: Sched, init: int): Sched
    requires Inv(s) && 0 <= s.cur
  {
    var ps := Orphaned(s.procs, s.cur, init);
    var s1 := Buried(s.(procs := ps));
    if s.procs[s.cur].level == STRIDE_LEVEL then
      LeavingIsPossible(s, init);
      Left(s1, s.cur)
    else s1
  }

  lemma LeavingIsPossible(s: Sched, init: int)
    requires Inv(s) && 0 <= s.cur && s.procs[s.cur].level == STRIDE_LEVEL
    ensures s.cur in s.queue && s.share - s.procs[s.cur].share < 100 && Orphaned(s.procs, s.cur, init)[s.cur].share == s.procs[s.cur].share
  {
    assert ProcOk(s.procs[s.cur]);
  }

  /** wait frees a zombie child. */
  function Reaped(s: Sched, i: nat): Sched
    requires i < |s.procs|
  {
    s.(procs := s.procs[i := s.procs[i].(state := Unused, pid := 0, parent := NONE, killed := false)])
  }

  /** sleep, up to the call of sched. */
  function Slept(s: Sched, chan: int): Sched
    requires 0 <= s.cur < |s.procs|
  {
    s.(procs := s.procs[s.cur := s.procs[s.cur].(state := Sleeping, chan := chan)], cur := NONE)
  }

  /** kill marks slot i and wakes it up. */
  function KilledProc(p: Proc): Proc {
    p.(killed := true, state := if p.state.Sleeping? then Runnable else p.state)
  }

  function Killed(s: Sched, i: nat): Sched
    requires i < |s.procs|
  {
    s.(procs := s.procs[i := KilledProc(s.procs[i])])
  }

  // ---------- Yielding ----------

  function Lowered(p: Proc): Proc {
    if p.level == 2 then p.(level := 1, tickcount := 0, timequant := 10, timeallot := 40)
    else if p.level == 1 then p.(level := 0, tickcount := 0, timequant := 20)
    else p
  }

  predicate Boostable(p: Proc) { p.state.Runnable? && p.level != STRIDE_LEVEL }

  function BoostedProc(p: Proc): Proc {
    if Boostable(p) then p.(level := 2, timequant := 5, timeallot := 20, tickcount := 0) else p
  }

  /** priboost. */
  function Boosted(ps: Table): (r: Table)
    ensures |r| == |ps| && forall i | 0 <= i < |ps| :: r[i] == BoostedProc(ps[i])
  {
    seq(|ps|, i requires 0 <= i < |ps| => BoostedProc(ps[i]))
  }

  /** The allotment is used up.  For a stride process the comparison of the
      unsigned level lets this pass too, and lowerlevel then does nothing. */
  predicate UsedUp(p: Proc) { p.level > 0 && p.tickcount >= p.timeallot }

  function Ticked(p: Proc): Proc {
    var p1 := p.(tickcount := (p.tickcount + 1) % TWO32, state := Runnable);
    if UsedUp(p) then Lowered(p1) else p1
  }

  predicate BoostDue(ticks: nat, boosted: nat) { (ticks - boosted) % TWO32 >= 200 }

  function TickedTable(s: Sched, ticks: nat): (r: Table)
    requires 0 <= s.cur < |s.procs|
    ensures |r| == |s.procs|
  {
    var ps := s.procs[s.cur := Ticked(s.procs[s.cur])];
    if BoostDue(ticks, s.boosted) then Boosted(ps) else ps
  }

  /** Whether this yield calls sched. */
  predicate Resched(s: Sched, ticks: nat)
    requires 0 <= s.cur < |s.procs|
  {
    var q := TickedTable(s, ticks)[s.cur].timequant;
    UsedUp(s.procs[s.cur]) || q == 0 || s.procs[s.cur].tickcount % q == 0
  }

  function Charged(p: Proc): Proc { p.(pass := (p.pass + p.stride) % TWO32) }

  function Yielded(s: Sched, ticks: nat): Sched
    requires 0 <= s.cur < |s.procs|
  {
    var ps := TickedTable(s, ticks);
    var strideTurn := s.procs[s.cur].level == STRIDE_LEVEL;
    s.(procs := if s.queue != [] && strideTurn then ps[s.cur := Charged(ps[s.cur])] else ps,
       mlfqPass := if s.queue != [] && !strideTurn then (s.mlfqPass + s.mlfqStride) % TWO32 else s.mlfqPass,
       boosted := if BoostDue(ticks, s.boosted) then ticks else s.boosted,
       cur := if Resched(s, ticks) then NONE else s.cur)
  }

  // ---------- Shares ----------

  /** A sum of two ints, wrapped around. */
  function Int32(x: int): int { (x + 0x8000_0000) % TWO32 - 0x8000_0000 }

  predicate ShareFits(s: Sched, share: int) { 0 < share && Int32(s.share + share) <= 80 }

  /** The queue with process c in it. */
  function Joined(queue: seq<int>, c: int): (q: seq<int>)
    ensures c in q && forall i :: i in q <==> i == c || i in queue
  {
    if c in queue then queue else [c] + queue
  }

  /** set_cpu_share. */
  function Shared(s: Sched, share: int): Sched
    requires 0 <= s.cur < |s.procs|
  {
    if !ShareFits(s, share) then s
    else
      s.(procs := s.procs[s.cur := s.procs[s.cur].(share := share, stride := StrideOfShare(share), level := STRIDE_LEVEL, timequant := 5)],
         queue := Joined(s.queue, s.cur),
         share := Int32(s.share + share),
         mlfqStride := StrideOfShare(100 - Int32(s.share + share)))
  }

  // ---------- The scheduler ----------

  function MlfqCount(ps: Table): nat { Count(ps, 0) + Count(ps, 1) + Count(ps, 2) }

  function Level(ps: Table): nat { TopLevel([Count(ps, 0), Count(ps, 1), Count(ps, 2)]) }

  /** The stride process that runs next, if one does. */
  function StridePick(s: Sched): int
    requires forall k | 0 <= k < |s.queue| :: 0 <= s.queue[k] < |s.procs|
  {
    if s.queue == [] then NONE
    else ScanQueue(s.procs, s.queue, if MlfqCount(s.procs) > 0 then s.mlfqPass else s.procs[s.queue[0]].pass, NONE)
  }

  function MlfqPick(s: Sched): (int, nat)
    requires |s.procs| == NPROC && s.idx < NPROC
  {
    ScanTable(s.procs, Level(s.procs), s.idx, NPROC)
  }

  function Started(s: Sched, p: int): Sched
    requires 0 <= p < |s.procs|
  {
    s.(procs := s.procs[p := s.procs[p].(state := Running)], cur := p)
  }

  /** One round of the scheduler, up to the switch to the process it picks. */
  ghost function Scheduled(s: Sched): Sched
    requires Inv(s)
  {
    PicksInTable(s);
    var p := StridePick(s);
    if p != NONE then Started(s, p)
    else
      var (m, idx) := MlfqPick(s);
      if m != NONE then Started(s.(idx := idx), m) else s.(idx := idx)
  }

  /** What is picked is a runnable process. */
  lemma PicksInTable(s: Sched)
    requires Inv(s)
    ensures var p := StridePick(s); p != NONE ==> p in s.queue && 0 <= p < NPROC && s.procs[p].state.Runnable?
    ensures var (m, idx) := MlfqPick(s);
      idx < NPROC && (m != NONE ==> 0 <= m < NPROC && s.procs[m].state.Runnable? && s.procs[m].level == Level(s.procs))
  {
    ScanTableFindsFirst(s.procs, Level(s.procs), s.idx, NPROC);
    if s.queue != [] {
      ScanQueueFindsLeast(s.procs, s.queue, if MlfqCount(s.procs) > 0 then s.mlfqPass else s.procs[s.queue[0]].pass, NONE);
    }
  }

  // ---------- Every step keeps the invariant ----------

  predicate InStride(p: Proc) { Live(p) && p.level == STRIDE_LEVEL }

  /** Changes that leave the stride processes what they are keep the queue and the shares. */
  lemma QueueFrame(s: Sched, ps: Table)
    requires |ps| == |s.procs| && Members(s.procs, s.queue) && SharesOk(s.procs, s.queue, s.share, s.mlfqStride, s.mlfqPass)
    requires forall i | 0 <= i < |ps| :: (InStride(ps[i]) <==> InStride(s.procs[i])) && (InStride(ps[i]) ==> ps[i].share == s.procs[i].share)
    ensures Members(ps, s.queue) && SharesOk(ps, s.queue, s.share, s.mlfqStride, s.mlfqPass)
  {
    forall k | 0 <= k < |s.queue|
      ensures ps[s.queue[k]].share == s.procs[s.queue[k]].share
    {
      assert s.queue[k] in s.queue;
    }
    SharesFrame(s.procs, ps, s.queue);
  }

  lemma AllocatedKeeps(s: Sched, i: nat)
    requires Inv(s) && i < NPROC && s.procs[i].state.Unused?
    ensures Inv(Allocated(s, i))
  {
    QueueFrame(s, Allocated(s, i).procs);
  }

  lemma AbandonedKeeps(s: Sched, i: nat)
    requires Inv(s) && i < NPROC && s.procs[i].state.Embryo?
    ensures Inv(Abandoned(s, i))
  {
    QueueFrame(s, Abandoned(s, i).procs);
  }

  /** A new process starts outside the queue, at level 2. */
  lemma ReadiedKeeps(s: Sched, i: nat, parent: int)
    requires Inv(s) && i < NPROC && s.procs[i].state.Embryo?
    ensures Inv(Readied(s, i, parent))
  {
    assert ProcOk(s.procs[i]);
    QueueFrame(s, Readied(s, i, parent).procs);
  }

  lemma ReapedKeeps(s: Sched, i: nat)
    requires Inv(s) && i < NPROC && s.procs[i].state.Zombie?
    ensures Inv(Reaped(s, i))
  {
    QueueFrame(s, Reaped(s, i).procs);
  }

  lemma SleptKeeps(s: Sched, chan: int)
    requires Inv(s) && 0 <= s.cur
    ensures Inv(Slept(s, chan))
  {
    assert ProcOk(s.procs[s.cur]);
    QueueFrame(s, Slept(s, chan).procs);
  }

  lemma WokenKeeps(s: Sched, chan: int)
    requires Inv(s)
    ensures Inv(s.(procs := Woken(s.procs, chan)))
  {
    var ps := Woken(s.procs, chan);
    assert forall i | 0 <= i < NPROC :: ProcOk(s.procs[i]) ==> ProcOk(ps[i]);
    QueueFrame(s, ps);
  }

  lemma KilledKeeps(s: Sched, i: nat)
    requires Inv(s) && i < NPROC
    ensures Inv(Killed(s, i))
  {
    assert ProcOk(s.procs[i]);
    QueueFrame(s, Killed(s, i).procs);
  }

  lemma ParentKeeps(s: Sched, i: nat, parent: int)
    requires Inv(s) && i < NPROC
    ensures Inv(s.(procs := s.procs[i := s.procs[i].(parent := parent)]))
  {
    assert ProcOk(s.procs[i]);
    QueueFrame(s, s.procs[i := s.procs[i].(parent := parent)]);
  }

  lemma ReparentedKeeps(s: Sched, c: int, init: int)
    requires Inv(s)
    ensures Inv(s.(procs := Reparented(s.procs, c, init)))
  {
    var ps := Reparented(s.procs, c, init);
    assert forall i | 0 <= i < NPROC :: ProcOk(s.procs[i]) ==> ProcOk(ps[i]);
    QueueFrame(s, ps);
  }

  lemma LeftMembers(s: Sched)
    requires Inv(s) && 0 <= s.cur && s.procs[s.cur].level == STRIDE_LEVEL && s.cur in s.queue && s.share - s.procs[s.cur].share < 100
    ensures var s' := Left(Buried(s), s.cur);
      Distinct(s'.queue) && Members(s'.procs, s'.queue) && SharesOk(s'.procs, s'.queue, s'.share, s'.mlfqStride, s'.mlfqPass)
  {
    var ps, k := Buried(s).procs, Index(s.queue, s.cur);
    WithoutMembers(s.queue, k);
    SharesWithout(ps, s.queue, k);
    SharesFrame(s.procs, ps, s.queue);
    assert ProcOk(s.procs[s.cur]);
    assert forall j | 0 <= j < |Without(s.queue, k)| :: Without(s.queue, k)[j] in s.queue;
    hide Distinct, TableOk, PidsOk, Without, Shares;
  }

  /** The rest of exit: the current process becomes a zombie and leaves. */
  lemma ZombieKeeps(s: Sched)
    requires Inv(s) && 0 <= s.cur
    requires s.procs[s.cur].level == STRIDE_LEVEL ==> s.cur in s.queue && s.share - s.procs[s.cur].share < 100
    ensures Inv(if s.procs[s.cur].level == STRIDE_LEVEL then Left(Buried(s), s.cur) else Buried(s))
  {
    hide Distinct, Members, SharesOk;
    if s.procs[s.cur].level == STRIDE_LEVEL {
      LeftMembers(s);
    } else {
      QueueFrame(s, Buried(s).procs);
    }
  }

  lemma ExitedKeeps(s: Sched, init: int)
    requires Inv(s) && 0 <= s.cur
    ensures Inv(Exited(s, init))
  {
    hide TableOk, PidsOk, Members, SharesOk, Distinct, CpuOk, Left;
    var c := s.cur;
    CurActive(s);
    var s1 := s.(procs := Woken(s.procs, s.procs[c].parent));
    WokenKeeps(s, s.procs[c].parent);
    var s2 := s1.(procs := Reparented(s1.procs, c, init));
    ReparentedKeeps(s1, c, init);
    WokenKeeps(s2, init);
    var s3 := s.(procs := Orphaned(s.procs, c, init));
    assert Inv(s3);
    if s.procs[c].level == STRIDE_LEVEL {
      LeavingIsPossible(s, init);
    }
    ZombieKeeps(s3);
  }

  lemma CurActive(s: Sched)
    requires Inv(s) && 0 <= s.cur
    ensures |s.procs| == NPROC && s.cur < NPROC && Active(s.procs[s.cur])
  {
  }

  lemma TickedOk(p: Proc)
    requires ProcOk(p) && Active(p)
    ensures ProcOk(Ticked(p)) && ProcOk(BoostedProc(Ticked(p))) && Ticked(p).state.Runnable?
    ensures InStride(p) <==> InStride(Ticked(p))
    ensures Ticked(p).share == p.share && Ticked(p).pid == p.pid && Ticked(p).pass == p.pass && Ticked(p).stride == p.stride
  {
  }

  lemma BoostedOk(p: Proc)
    requires ProcOk(p)
    ensures var b := BoostedProc(p); ProcOk(b) && b.state == p.state && b.pid == p.pid && b.share == p.share && b.pass == p.pass && b.stride == p.stride
    ensures InStride(p) <==> InStride(BoostedProc(p))
  {
  }

  /** The table a yield leaves, apart from the pass: process by process. */
  lemma TickedTableOk(s: Sched, ticks: nat, i: nat)
    requires Inv(s) && 0 <= s.cur && i < NPROC
    ensures var p, p' := s.procs[i], TickedTable(s, ticks)[i];
      && ProcOk(p') && p'.pid == p.pid && p'.share == p.share && p'.pass == p.pass && p'.stride == p.stride
      && p'.state == (if i == s.cur then Runnable else p.state) && (InStride(p) <==> InStride(p'))
  {
    hide Members, SharesOk, PidsOk, Distinct, Ticked, BoostedProc, InStride;
    assert ProcOk(s.procs[i]);
    if i == s.cur {
      TickedOk(s.procs[i]);
      BoostedOk(Ticked(s.procs[i]));
    } else {
      BoostedOk(s.procs[i]);
    }
  }

  lemma YieldedKeeps(s: Sched, ticks: nat)
    requires Inv(s) && 0 <= s.cur
    ensures Inv(Yielded(s, ticks))
  {
    hide TickedTable, InStride, Members, Distinct;
    var s' := Yielded(s, ticks);
    forall i: nat | i < NPROC
      ensures var p, p' := s.procs[i], s'.procs[i];
        && ProcOk(p') && p'.pid == p.pid && p'.share == p.share
        && p'.state == (if i == s.cur then Runnable else p.state) && (InStride(p) <==> InStride(p'))
    {
      TickedTableOk(s, ticks, i);
      if i == s.cur { ChargedOk(TickedTable(s, ticks)[i]); }
    }
    QueueFrame(s, s'.procs);
  }

  lemma ChargedOk(p: Proc)
    requires ProcOk(p)
    ensures ProcOk(Charged(p)) && (InStride(p) <==> InStride(Charged(p)))
  {
  }

  lemma ShareNotNegative(s: Sched)
    requires Inv(s)
    ensures 0 <= Shares(s.procs, s.queue) <= s.share <= 80
  {
    forall k | 0 <= k < |s.queue|
      ensures 0 < s.procs[s.queue[k]].share
    {
      assert s.queue[k] in s.queue && ProcOk(s.procs[s.queue[k]]);
    }
    SharesPositive(s.procs, s.queue);
  }

  /** The share a call of set_cpu_share adds overflows the sum. */
  predicate ShareOverflows(s: Sched, share: int) { 0 < share && s.share + share >= 0x8000_0000 }

  lemma MembersInTable(s: Sched)
    requires Inv(s)
    ensures forall k | 0 <= k < |s.queue| :: 0 <= s.queue[k] < NPROC && s.queue[k] in s.queue && 0 < s.procs[s.queue[k]].share
  {
    forall k | 0 <= k < |s.queue|
      ensures 0 < s.procs[s.queue[k]].share
    {
      assert s.queue[k] in s.queue && ProcOk(s.procs[s.queue[k]]);
    }
  }

  /** A process that takes level -1 is in the queue afterwards, once. */
  lemma JoinedMembers(ps: Table, queue: seq<int>, c: int, p: Proc)
    requires Distinct(queue) && Members(ps, queue) && 0 <= c < |ps| && InStride(p)
    ensures Distinct(Joined(queue, c)) && Members(ps[c := p], Joined(queue, c))
  {
    var q := Joined(queue, c);
    forall i | 0 <= i < |ps|
      ensures i in q <==> InStride(ps[c := p][i])
    {
    }
  }

  lemma SharedMembers(s: Sched, p: Proc)
    requires Inv(s) && 0 <= s.cur && InStride(p) && 0 < p.share
    ensures var queue := Joined(s.queue, s.cur);
      && Distinct(queue) && Members(s.procs[s.cur := p], queue) && queue != []
      && (forall k | 0 <= k < |queue| :: 0 <= queue[k] < NPROC && 0 < s.procs[s.cur := p][queue[k]].share)
  {
    var queue := Joined(s.queue, s.cur);
    MembersInTable(s);
    JoinedMembers(s.procs, s.queue, s.cur, p);
    hide TableOk, SharesOk, PidsOk, ProcOk, Members, Distinct, Joined, InStride;
    forall k | 0 <= k < |queue|
      ensures 0 <= queue[k] < NPROC && 0 < s.procs[s.cur := p][queue[k]].share
    {
      assert queue[k] in queue;
    }
  }

  lemma SharedPositive(s: Sched, p: Proc)
    requires Inv(s) && 0 <= s.cur && InStride(p) && 0 < p.share
    ensures var queue := Joined(s.queue, s.cur);
      (forall k | 0 <= k < |queue| :: 0 <= queue[k] < NPROC) && 0 <= Shares(s.procs[s.cur := p], queue)
  {
    hide Distinct, Members, Shares, PidsOk;
    SharedMembers(s, p);
    SharesPositive(s.procs[s.cur := p], Joined(s.queue, s.cur));
  }

  lemma SharedSum(s: Sched, p: Proc)
    requires Inv(s) && 0 <= s.cur && s.cur < |s.procs|
    ensures var queue := Joined(s.queue, s.cur);
      && (forall k | 0 <= k < |queue| :: 0 <= queue[k] < NPROC)
      && Shares(s.procs[s.cur := p], queue) == Shares(s.procs, s.queue) + p.share - if s.cur in s.queue then s.procs[s.cur].share else 0
  {
    MembersInTable(s);
    hide TableOk, Members, PidsOk, ProcOk;
    if s.cur in s.queue {
      SharesChange(s.procs, s.procs[s.cur := p], s.queue, s.cur);
    } else {
      SharesFrame(s.procs, s.procs[s.cur := p], s.queue);
      assert ([s.cur] + s.queue)[1..] == s.queue;
    }
  }

  lemma Int32Sum(a: int, b: int)
    requires 0 <= a <= 80 && 0 < b < 0x8000_0000
    ensures Int32(a + b) == if a + b < 0x8000_0000 then a + b else a + b - TWO32
  {
  }

  lemma SharedTable(s: Sched, share: int)
    requires Inv(s) && 0 <= s.cur && ShareFits(s, share)
    ensures var s' := Shared(s, share); TableOk(s'.procs) && PidsOk(s'.procs, s'.nextpid) && CpuOk(s'.procs, s'.cur)
  {
    assert ProcOk(s.procs[s.cur]);
    hide Members, Distinct, SharesOk;
  }

  /** set_cpu_share keeps the shares within the 80 percent exactly when the sum
      of the shares does not overflow. */
  lemma SharedKeeps(s: Sched, share: int)
    requires Inv(s) && 0 <= s.cur && -0x8000_0000 <= share < 0x8000_0000
    ensures Inv(Shared(s, share)) <==> !ShareOverflows(s, share)
  {
    hide Distinct, Members, Shares, Int32, TableOk, PidsOk, CpuOk;
    CurActive(s);
    ShareNotNegative(s);
    if 0 < share {
      Int32Sum(s.share, share);
      if ShareFits(s, share) {
        SharedFits(s, share);
      }
    }
  }

  lemma SharedFits(s: Sched, share: int)
    requires Inv(s) && 0 <= s.cur < |s.procs| && ShareFits(s, share) && Active(s.procs[s.cur]) && 0 <= Shares(s.procs, s.queue) <= s.share
    requires Int32(s.share + share) == if s.share + share < 0x8000_0000 then s.share + share else s.share + share - TWO32
    requires share < 0x8000_0000 && s.share <= 80
    ensures Inv(Shared(s, share)) <==> !ShareOverflows(s, share)
  {
    hide Distinct, Members, Int32, TableOk, PidsOk, CpuOk, Shares;
    var s' := Shared(s, share);
    SharedTable(s, share);
    SharedMembers(s, s'.procs[s.cur]);
    assert s'.queue != [] && Distinct(s'.queue) && Members(s'.procs, s'.queue);
    SharedRest(s, share);
  }

  lemma SharedRest(s: Sched, share: int)
    requires Inv(s) && 0 <= s.cur < |s.procs| && ShareFits(s, share) && Active(s.procs[s.cur]) && 0 <= Shares(s.procs, s.queue) <= s.share
    requires Int32(s.share + share) == if s.share + share < 0x8000_0000 then s.share + share else s.share + share - TWO32
    requires share < 0x8000_0000 && s.share <= 80
    ensures var s' := Shared(s, share); SharesOk(s'.procs, s'.queue, s'.share, s'.mlfqStride, s'.mlfqPass) <==> !ShareOverflows(s, share)
  {
    hide Distinct, Members, Int32, TableOk, PidsOk, CpuOk, Shares;
    var s' := Shared(s, share);
    SharedSum(s, s'.procs[s.cur]);
    SharedPositive(s, s'.procs[s.cur]);
    if s.cur in s.queue { MembersInTable(s); }
  }

  /** The smallest overflowing request after one of 10: accepted, and the sum is negative. */
  lemma OverflowAccepted(s: Sched)
    requires Inv(s) && 0 <= s.cur && s.share == 10
    ensures ShareFits(s, 0x7FFF_FFF6) && Shared(s, 0x7FFF_FFF6).share < 0 && !Inv(Shared(s, 0x7FFF_FFF6))
  {
    SharedKeeps(s, 0x7FFF_FFF6);
  }

  lemma StartedKeeps(s: Sched, p: int)
    requires Inv(s) && s.cur == NONE && 0 <= p < NPROC && s.procs[p].state.Runnable?
    ensures Inv(Started(s, p))
  {
    assert ProcOk(s.procs[p]);
    QueueFrame(s, Started(s, p).procs);
  }

  lemma ScheduledKeeps(s: Sched)
    requires Inv(s) && s.cur == NONE
    ensures Inv(Scheduled(s))
  {
    hide StridePick, MlfqPick, Members, Distinct, PidsOk;
    PicksInTable(s);
    var p := StridePick(s);
    if p != NONE {
      StartedKeeps(s, p);
    } else {
      var (m, idx) := MlfqPick(s);
      if m != NONE { StartedKeeps(s.(idx := idx), m); }
    }
  }

  // ---------- Runs ----------

  datatype Step = Alloc(i: nat) | Ready(i: nat, parent: int) | Abandon(i: nat) | Exit(init: int) | Reap(i: nat)
                | Sleep(chan: int) | Wakeup(chan: int) | Kill(i: nat) | Yield(ticks: nat) | Share(share: int) | Schedule

  /** When a step can be taken: steps of a process while it has the CPU, the
      scheduler while none has, and only shares whose sum does not overflow. */
  predicate Enabled(s: Sched, step: Step) {
    match step
    case Alloc(i) => i < |s.procs| && s.procs[i].state.Unused?
    case Ready(i, _) => i < |s.procs| && s.procs[i].state.Embryo?
    case Abandon(i) => i < |s.procs| && s.procs[i].state.Embryo?
    case Reap(i) => i < |s.procs| && s.procs[i].state.Zombie?
    case Kill(i) => i < |s.procs|
    case Wakeup(_) => true
    case Schedule => s.cur == NONE
    case Share(share) => 0 <= s.cur && -0x8000_0000 <= share < 0x8000_0000 && !ShareOverflows(s, share)
    case _ => 0 <= s.cur
  }

  ghost function Apply(s: Sched, step: Step): Sched
    requires Inv(s) && Enabled(s, step)
  {
    match step
    case Alloc(i) => Allocated(s, i)
    case Ready(i, parent) => Readied(s, i, parent)
    case Abandon(i) => Abandoned(s, i)
    case Exit(init) => Exited(s, init)
    case Reap(i) => Reaped(s, i)
    case Sleep(chan) => Slept(s, chan)
    case Wakeup(chan) => s.(procs := Woken(s.procs, chan))
    case Kill(i) => Killed(s, i)
    case Yield(ticks) => Yielded(s, ticks)
    case Share(share) => Shared(s, share)
    case Schedule => Scheduled(s)
  }

  lemma StepKeeps(s: Sched, step: Step)
    requires Inv(s) && Enabled(s, step)
    ensures Inv(Apply(s, step))
  {
    hide TableOk, PidsOk, CpuOk, Members, SharesOk, Distinct;
    InTable(s);
    match step
    case Alloc(i) => AllocatedKeeps(s, i);
    case Ready(i, parent) => ReadiedKeeps(s, i, parent);
    case Abandon(i) => AbandonedKeeps(s, i);
    case Exit(init) => ExitedKeeps(s, init);
    case Reap(i) => ReapedKeeps(s, i);
    case Sleep(chan) => SleptKeeps(s, chan);
    case Wakeup(chan) => WokenKeeps(s, chan);
    case Kill(i) => KilledKeeps(s, i);
    case Yield(ticks) => YieldedKeeps(s, ticks);
    case Share(share) => SharedKeeps(s, share);
    case Schedule => ScheduledKeeps(s);
  }

  lemma InTable(s: Sched)
    requires Inv(s)
    ensures |s.procs| == NPROC && s.cur < NPROC
  {
  }

  lemma InitialInv(s: Sched)
    requires Initial(s)
    ensures Inv(s)
  {
  }

  /** A run of steps from boot on. */
  ghost predicate IsRun(run: seq<Sched>, steps: seq<Step>) {
    && |run| == |steps| + 1 && Initial(run[0])
    && forall k | 0 <= k < |steps| :: Inv(run[k]) ==> Enabled(run[k], steps[k]) && run[k + 1] == Apply(run[k], steps[k])
  }

  lemma {:induction false} RunKeeps(run: seq<Sched>, steps: seq<Step>, k: nat)
    requires IsRun(run, steps) && k < |run|
    ensures Inv(run[k])
  {
    if k == 0 {
      InitialInv(run[0]);
    } else {
      RunKeeps(run, steps, k - 1);
      StepKeeps(run[k - 1], steps[k - 1]);
    }
  }

  /** In every state of every run: the queue has no process twice
      and holds the stride processes, their shares stay within the reserved
      sum, that within 80, and an empty queue has pass 0. */
  lemma StrideQueueSafe(run: seq<Sched>, steps: seq<Step>, k: nat)
    requires IsRun(run, steps) && k < |run|
    ensures var s := run[k];
      && |s.procs| == NPROC && (forall j | 0 <= j < |s.queue| :: 0 <= s.queue[j] < NPROC)
      && Distinct(s.queue) && (forall i | 0 <= i < NPROC :: i in s.queue <==> InStride(s.procs[i]))
      && 0 <= Shares(s.procs, s.queue) <= s.share <= 80 && 20 <= 100 - s.share
      && (s.queue == [] ==> s.mlfqPass == 0)
  {
    RunKeeps(run, steps, k);
    ShareNotNegative(run[k]);
  }
}
