/** The file system and the log together: what one transaction changes goes
    through the log, so that after any crash the disk holds a well-formed file
    system, namely one that a finished operation left. */
module CrashSafety {
  import opened Common
  import opened Bytes
  import opened BlockTree
  import opened BlockViews
  import opened InodeBlocks
  import J = Journal
  import R = JournalRuns
  import LS = LogSpace
  import O = OpenFiles
  import LB = LogBudget
  import opened FS = FileSystem
  import opened FileWrites
  import opened Truncation
  import opened Outcomes

  /** The inode blocks, in front of the free map. */
  predicate IsInodeBlock(sb: Super, n: nat, b: nat) {
    sb.inodestart <= b && IPB * (b - sb.inodestart) < n
  }

  /** Home block b of a stored file system; the log area counts as zero. */
  ghost function ImageAt(sb: Super, ar: J.Area, v: View, b: nat): Block
    requires WordsFit(v.ins) && b < |v.d|
  {
    if ar.Contains(b) then ZeroBlock()
    else if IsInodeBlock(sb, |v.ins|, b) then InodeBlock(v.ins, b - sb.inodestart)
    else v.d[b]
  }

  ghost function Image(sb: Super, ar: J.Area, v: View): (img: J.Disk)
    requires WordsFit(v.ins)
    ensures |img| == |v.d| && forall b: nat | b < |v.d| :: img[b] == ImageAt(sb, ar, v, b)
  {
    seq(|v.d|, b requires 0 <= b < |v.d| => ImageAt(sb, ar, v, b))
  }

  /** The layout mkfs makes: log, inode blocks, free map, in this order. */
  predicate LaidOut(sb: Super, ar: J.Area, n: nat) {
    ar.start + ar.size <= sb.inodestart <= sb.bmapstart && (n > 0 ==> sb.IBlock(n - 1) < sb.bmapstart)
  }

  /** The inodes of a well-formed file system fit into their records. */
  lemma InodesFit(sb: Super, v: View)
    requires MapOk(sb, v.d, v.own) && TreeOk(v.d, v.ins, v.own)
    ensures WordsFit(v.ins)
  {
    hide Used;
    forall i: nat | i < |v.ins|
      ensures InodeFits(v.ins[i])
    {
      forall s: nat | s < NSLOTS
        ensures v.ins[i].addrs[s] < TWO32
      {
        var p := Pos(i, s, Height(s), 0);
        assert Addr(v.d, v.ins, p) == v.ins[i].addrs[s];
        if v.ins[i].addrs[s] != 0 { assert v.ins[i].addrs[s] in v.own; }
      }
    }
  }

  /** A well-formed file system that fits the disk's layout. */
  ghost predicate FsOk(sb: Super, ar: J.Area, v: View) {
    MapOk(sb, v.d, v.own) && TreeOk(v.d, v.ins, v.own) && LaidOut(sb, ar, |v.ins|) && WordsFit(v.ins)
  }

  /** The home blocks img store the well-formed file system v. */
  ghost predicate Stores(sb: Super, ar: J.Area, img: J.Disk, v: View) {
    FsOk(sb, ar, v) && img == Image(sb, ar, v)
  }

  /** The blocks of a stored file system give back its inodes, its free map and
      its data and pointer blocks. */
  lemma StoredReadsBack(sb: Super, ar: J.Area, img: J.Disk, v: View)
    requires Stores(sb, ar, img, v)
    ensures |img| == |v.d| && forall b: nat | sb.bmapstart <= b < |img| :: img[b] == v.d[b]
    ensures forall i: nat | i < |v.ins| :: sb.IBlock(i) < |img| && ReadRecord(img[sb.IBlock(i)], i) == v.ins[i]
  {
    hide Used, TreeOk, ReadRecord, InodeBlock, WordsFit;
    forall i: nat | i < |v.ins|
      ensures sb.IBlock(i) < |img| && ReadRecord(img[sb.IBlock(i)], i) == v.ins[i]
    {
      assert i / IPB <= (|v.ins| - 1) / IPB;
      RecordReadsBack(v.ins, i);
      assert sb.IBlock(i) - sb.inodestart == i / IPB;
    }
    forall b: nat | sb.bmapstart <= b < |img|
      ensures img[b] == v.d[b]
    {
      assert !ar.Contains(b);
      assert !IsInodeBlock(sb, |v.ins|, b);
    }
  }

  /** What a transaction from v to v' has to log: every block and every inode it changes. */
  ghost predicate LoggedChange(sb: Super, v: View, v': View) {
    ChangesLogged(v.d, v'.d, v'.logged) && InodesLogged(sb, v.ins, v'.ins, v'.logged)
  }

  /** Then every home block it changes, inode blocks included, has been logged. */
  lemma TransactionLogged(sb: Super, ar: J.Area, v: View, v': View, b: nat)
    requires LoggedChange(sb, v, v') && WordsFit(v.ins) && WordsFit(v'.ins) && b < |v.d|
    ensures ImageAt(sb, ar, v', b) != ImageAt(sb, ar, v, b) ==> b in v'.logged
  {
    hide WordsFit, Packed;
    if b !in v'.logged && IsInodeBlock(sb, |v.ins|, b) {
      forall i: nat | i < |v.ins| && i / IPB == b - sb.inodestart
        ensures v'.ins[i] == v.ins[i]
      {
        assert sb.IBlock(i) == b;
      }
      SameRecords(v.ins, v'.ins, b - sb.inodestart, NPTR);
    }
  }

  // ---------- Operations in the log ----------

  /** pending, what an operation has logged last of each block, is complete: it
      has the new content of every home block that the transaction to v logs. */
  ghost predicate Finished(sb: Super, ar: J.Area, v: View, pending: map<nat, Block>)
    requires WordsFit(v.ins)
  {
    && (forall b | b in pending && b < |v.d| && !ar.Contains(b) :: pending[b] == ImageAt(sb, ar, v, b))
    && (forall b | b in v.logged && b < |v.d| && !ar.Contains(b) :: b in pending)
  }

  /** The cache shows v with the pending blocks laid over it. */
  ghost predicate Shows(sb: Super, ar: J.Area, v: View, pending: map<nat, Block>, s: J.Sys)
    requires WordsFit(v.ins)
  {
    && |s.disk| == |v.d|
    && forall b: nat | b < |v.d| && !ar.Contains(b) :: s.Read(b) == if b in pending then pending[b] else ImageAt(sb, ar, v, b)
  }

  /** An operation of the file system carried out through the log: if the cache
      showed the file system v, and the operation has logged all it had to, the
      cache shows v'. */
  lemma OperationReaches(sb: Super, ar: J.Area, v: View, v': View, pending: map<nat, Block>, s: J.Sys)
    requires LoggedChange(sb, v, v') && WordsFit(v.ins) && WordsFit(v'.ins)
    requires Shows(sb, ar, v, pending, s) && Finished(sb, ar, v', pending)
    ensures R.CachedImage(ar, s) == Image(sb, ar, v')
  {
    hide WordsFit, InodesLogged;
    forall b: nat | b < |v.d|
      ensures R.CachedImage(ar, s)[b] == ImageAt(sb, ar, v', b)
    {
      TransactionLogged(sb, ar, v, v', b);
    }
  }

  lemma ShowsImage(sb: Super, ar: J.Area, v: View, s: J.Sys)
    requires WordsFit(v.ins)
    ensures R.CachedImage(ar, s) == Image(sb, ar, v) <==> Shows(sb, ar, v, map[], s)
  {
    hide WordsFit;
    if Shows(sb, ar, v, map[], s) {
      assert R.CachedImage(ar, s) == Image(sb, ar, v);
    } else if |s.disk| == |v.d| {
      var b: nat :| b < |v.d| && !ar.Contains(b) && s.Read(b) != ImageAt(sb, ar, v, b);
      assert R.CachedImage(ar, s)[b] != Image(sb, ar, v)[b];
    }
  }

  /** How far a run has got with a list of operations that do not overlap. */
  datatype Prog = Prog(done: nat, committed: nat, open: bool, pending: map<nat, Block>, dead: bool)

  function Advance(p: Prog, step: J.Step): Prog {
    match step
    case Begin(_) => p.(open := true, pending := map[])
    case Write(_, b, x) => p.(pending := p.pending[b := x])
    case End(_) => p.(open := false, done := p.done + 1, committed := if p.pending == map[] then p.done + 1 else p.committed)
    case Commit => p.(committed := p.done)
    case Crash => p.(open := false, dead := true)
    case _ => p
  }

  function ProgAt(st: seq<J.Step>, i: nat): Prog
    requires i <= |st|
  {
    if i == 0 then Prog(0, 0, false, map[], false) else Advance(ProgAt(st, i - 1), st[i - 1])
  }

  /** The next step of a run that carries out the transactions between the
      states vs: one operation at a time, which before it ends has logged what it
      must, and none after a crash.  Blocks can be logged repeatedly, with any
      content in between; buffers come and go and crashes happen at any time. */
  ghost predicate Allowed(sb: Super, ar: J.Area, vs: seq<View>, p: Prog, step: J.Step) {
    match step
    case Begin(_) => !p.open && !p.dead && p.done + 1 < |vs|
    case Write(_, _, _) => p.open && !p.dead
    case End(_) => p.open && !p.dead && p.done + 1 < |vs| && WordsFit(vs[p.done + 1].ins) && Finished(sb, ar, vs[p.done + 1], p.pending)
    case _ => true
  }

  /** States of the file system with the transactions between them. */
  ghost predicate States(sb: Super, ar: J.Area, vs: seq<View>) {
    && vs != [] && (forall k | 0 <= k < |vs| :: FsOk(sb, ar, vs[k]))
    && forall k | 0 < k < |vs| :: LoggedChange(sb, vs[k - 1], vs[k])
  }

  ghost predicate Carries(sb: Super, ar: J.Area, vs: seq<View>, tr: seq<J.Sys>, st: seq<J.Step>) {
    && R.IsRun(ar, tr, st) && J.Inv(ar, tr[0]) && tr[0].phase.Running? && tr[0].ops == map[] && tr[0].lh == []
    && vs != [] && WordsFit(vs[0].ins) && R.CachedImage(ar, tr[0]) == Image(sb, ar, vs[0])
    && forall k | 0 <= k < |st| :: Allowed(sb, ar, vs, ProgAt(st, k), st[k])
  }

  // ---------- What such a run keeps ----------

  /** The cache shows the state reached, and what recovers is committed. */
  ghost predicate Live(sb: Super, ar: J.Area, vs: seq<View>, p: Prog, s: J.Sys)
    requires p.done < |vs| && WordsFit(vs[p.done].ins)
  {
    match s.phase
    case Running =>
      && p.committed == p.done && |s.ops| == (if p.open then 1 else 0) && (p.open ==> p.done + 1 < |vs|)
      && (s.lh == [] <==> !p.open || p.pending == map[])
      && Shows(sb, ar, vs[p.done], if p.open then p.pending else map[], s)
    case Copying(_) => !p.open && p.done == p.committed + 1 && Shows(sb, ar, vs[p.done], map[], s)
    case Installing(_) => !p.open && p.done == p.committed && Shows(sb, ar, vs[p.done], map[], s)
    case _ => false
  }

  ghost predicate Kept(sb: Super, ar: J.Area, vs: seq<View>, p: Prog, s: J.Sys) {
    && p.committed <= p.done <= p.committed + 1 && p.done < |vs| && WordsFit(vs[p.committed].ins) && WordsFit(vs[p.done].ins)
    && J.LogFits(ar, s.disk) && R.RecoveredImage(ar, s.disk) == Image(sb, ar, vs[p.committed])
    && (!p.dead ==> Live(sb, ar, vs, p, s))
    && (p.dead ==> !p.open && s.ops == map[] && (s.phase.Down? || s.phase.Recovering? || s.phase.Running?))
  }

  /** Installing copies home what the cache shows already. */
  lemma InstallReads(ar: J.Area, s: J.Sys, s': J.Sys, b: nat)
    requires J.Inv(ar, s) && J.Next(ar, s, s', J.InstallOne) && b < |s.disk| && s.phase.Installing?
    ensures |s'.disk| == |s.disk| && s'.Read(b) == s.Read(b)
  {
    J.DirtyIsHome(ar, s);
    hide J.Blocks, J.Header, J.DiskOk, Distinct, J.Pinned, J.Installed, J.LogFits;
  }

  /** Copying, committing and clearing write to the log area only. */
  lemma AreaReads(ar: J.Area, s: J.Sys, s': J.Sys, step: J.Step, b: nat)
    requires J.Inv(ar, s) && J.Next(ar, s, s', step) && b < |s.disk| && !ar.Contains(b)
    requires step.CopyOne? || step.Commit? || step.Clear?
    ensures |s'.disk| == |s.disk| && s'.Read(b) == s.Read(b)
  {
    hide J.Blocks, J.Header, J.DiskOk, J.CacheOk, Distinct, J.Pinned, J.Installed, J.Copied, J.PhaseOk;
  }

  /** Loading and recycling buffers changes nothing that is read. */
  lemma BufferReads(ar: J.Area, s: J.Sys, s': J.Sys, step: J.Step, b: nat)
    requires J.Inv(ar, s) && J.Next(ar, s, s', step) && b < |s.disk| && (step.Load? || step.Evict?)
    ensures |s'.disk| == |s.disk| && s'.Read(b) == s.Read(b)
  {
    hide J.DiskOk, J.ListOk, J.PhaseOk;
  }

  /** No step but Write changes what the cache shows of the home blocks, unless it loses the cache. */
  lemma ReadsKept(ar: J.Area, s: J.Sys, s': J.Sys, step: J.Step, b: nat)
    requires J.Inv(ar, s) && J.Next(ar, s, s', step) && b < |s.disk| && !ar.Contains(b)
    requires !step.Crash? && !step.ReadHead? && !s.phase.Recovering?
    ensures |s'.disk| == |s.disk| && s'.Read(b) == if step.Write? && step.b == b then step.x else s.Read(b)
  {
    hide J.Inv, J.Header;
    if step.InstallOne? {
      InstallReads(ar, s, s', b);
    } else if step.Load? || step.Evict? {
      BufferReads(ar, s, s', step, b);
    } else if step.CopyOne? || step.Commit? || step.Clear? {
      AreaReads(ar, s, s', step, b);
    }
  }

  lemma ShowsKept(sb: Super, ar: J.Area, v: View, pending: map<nat, Block>, s: J.Sys, s': J.Sys, step: J.Step)
    requires J.Inv(ar, s) && J.Next(ar, s, s', step) && WordsFit(v.ins) && Shows(sb, ar, v, pending, s)
    requires !step.Crash? && !step.ReadHead? && !s.phase.Recovering?
    ensures Shows(sb, ar, v, if step.Write? then pending[step.b := step.x] else pending, s')
  {
    hide J.Inv, J.Next, WordsFit, ImageAt;
    forall b: nat | b < |v.d| && !ar.Contains(b)
      ensures |s'.disk| == |s.disk| && s'.Read(b) == if step.Write? && step.b == b then step.x else s.Read(b)
    {
      ReadsKept(ar, s, s', step, b);
    }
    SameSize(ar, s, s', step);
  }

  lemma SameSize(ar: J.Area, s: J.Sys, s': J.Sys, step: J.Step)
    requires J.Inv(ar, s) && J.Next(ar, s, s', step)
    ensures |s'.disk| == |s.disk|
  {
    J.StepKeeps(ar, s, s', step);
  }

  /** What the steps of operations need and lead to. */
  lemma OpShape(ar: J.Area, s: J.Sys, s': J.Sys, step: J.Step)
    requires J.Next(ar, s, s', step)
    ensures step.Begin? ==> s.phase.Running? && s'.phase.Running? && s'.lh == s.lh && (|s.ops| == 0 ==> |s'.ops| == 1)
    ensures step.Write? ==> s.phase.Running? && s'.phase.Running? && s'.lh != [] && s.ops != map[] && |s'.ops| == |s.ops|
    ensures step.End? ==> s.phase.Running? && s.ops != map[] && s'.lh == s.lh
    ensures step.End? && |s.ops| == 1 ==> s'.ops == map[] && s'.phase == if s.lh == [] then J.Running else J.Copying(0)
  {
    hide J.Header, J.Blocks;
    if step.Begin? && |s.ops| == 0 {
      assert s.ops.Keys == {};
      assert s'.ops.Keys == {step.op};
    }
    if step.End? && |s.ops| == 1 {
      J.LastOp(s.ops, step.op);
    }
    if step.Write? && step.b !in s.lh {
      assert s'.ops.Keys == s.ops.Keys;
    }
  }

  /** The phases the other steps need and lead to. */
  lemma StepShape(ar: J.Area, s: J.Sys, s': J.Sys, step: J.Step)
    requires J.Inv(ar, s) && J.Next(ar, s, s', step)
    ensures step.Load? || step.Evict? ==> s'.phase == s.phase && s'.ops == s.ops && s'.lh == s.lh
    ensures step.CopyOne? ==> s.phase.Copying? && s'.phase.Copying?
    ensures step.Commit? ==> s.phase.Copying? && s'.phase.Installing?
    ensures step.InstallOne? ==> if s.phase.Installing? then s'.phase.Installing? else s.phase.Recovering? && s'.phase.Recovering?
    ensures step.Clear? ==> (s.phase.Installing? || s.phase.Recovering?) && s'.phase.Running? && s'.lh == []
    ensures step.Crash? ==> s'.phase.Down? && s'.ops == map[]
    ensures step.ReadHead? ==> s.phase.Down? && s'.phase.Recovering?
    ensures !s.phase.Running? ==> s.ops == map[] && s'.ops == map[]
  {
    hide J.Blocks, J.Header, J.DiskOk, J.CacheOk, J.ListOk, J.Pinned, J.Installed, J.Copied, J.LogFits, J.NoPanic;
  }

  lemma EndKept(sb: Super, ar: J.Area, vs: seq<View>, p: Prog, s: J.Sys, s': J.Sys, step: J.Step)
    requires States(sb, ar, vs) && Kept(sb, ar, vs, p, s) && J.Inv(ar, s) && J.Next(ar, s, s', step)
    requires step.End? && Allowed(sb, ar, vs, p, step)
    ensures Kept(sb, ar, vs, Advance(p, step), s')
  {
    hide J.Inv, J.Next, WordsFit, ImageAt, MapOk, TreeOk, LoggedChange, R.CachedImage, R.RecoveredImage, Image, Shows, Finished, J.LogFits;
    StepShape(ar, s, s', step);
    OpShape(ar, s, s', step);
    R.SameRecovered(ar, s, s', step);
    var v, v' := vs[p.done], vs[p.done + 1];
    assert LoggedChange(sb, vs[p.done + 1 - 1], vs[p.done + 1]);
    OperationReaches(sb, ar, v, v', p.pending, s);
    ShowsImage(sb, ar, v', s);
    ShowsKept(sb, ar, v', map[], s, s', step);
    if p.pending == map[] {
      ShowsImage(sb, ar, v, s);
    }
  }

  lemma StepKept(sb: Super, ar: J.Area, vs: seq<View>, p: Prog, s: J.Sys, s': J.Sys, step: J.Step)
    requires States(sb, ar, vs) && Kept(sb, ar, vs, p, s) && J.Inv(ar, s) && J.Next(ar, s, s', step)
    requires Allowed(sb, ar, vs, p, step)
    ensures Kept(sb, ar, vs, Advance(p, step), s')
  {
    hide J.Inv, J.Next, WordsFit, ImageAt, MapOk, TreeOk, LoggedChange, R.CachedImage, R.RecoveredImage, Image, Shows, Finished, J.LogFits, States;
    if step.End? {
      EndKept(sb, ar, vs, p, s, s', step);
    } else {
      StepShape(ar, s, s', step);
      OpShape(ar, s, s', step);
      R.SameRecovered(ar, s, s', step);
      if !p.dead && !step.Crash? {
        LiveKept(sb, ar, vs, p, s, s', step);
      }
    }
  }

  lemma LiveKept(sb: Super, ar: J.Area, vs: seq<View>, p: Prog, s: J.Sys, s': J.Sys, step: J.Step)
    requires Kept(sb, ar, vs, p, s) && J.Inv(ar, s) && J.Next(ar, s, s', step) && !p.dead && !step.Crash? && !step.End?
    requires Allowed(sb, ar, vs, p, step)
    ensures Live(sb, ar, vs, Advance(p, step), s')
    ensures step.Commit? ==> Image(sb, ar, vs[p.done]) == R.CachedImage(ar, s)
  {
    hide J.Inv, J.Next, WordsFit, ImageAt, R.CachedImage, R.RecoveredImage, Image, Shows, Finished, J.LogFits;
    StepShape(ar, s, s', step);
    OpShape(ar, s, s', step);
    assert !step.ReadHead?;
    if step.Write? { assert step.b in Advance(p, step).pending; }
    ShowsKept(sb, ar, vs[p.done], if p.open then p.pending else map[], s, s', step);
    ShowsImage(sb, ar, vs[p.done], s);
  }

  lemma StartKept(sb: Super, ar: J.Area, vs: seq<View>, tr: seq<J.Sys>, st: seq<J.Step>)
    requires Carries(sb, ar, vs, tr, st)
    ensures Kept(sb, ar, vs, ProgAt(st, 0), tr[0])
  {
    hide WordsFit, ImageAt, J.Next;
    var s := tr[0];
    ShowsImage(sb, ar, vs[0], s);
    CleanRecovers(ar, s);
  }

  /** With nothing logged, what recovers is what the cache shows. */
  lemma CleanRecovers(ar: J.Area, s: J.Sys)
    requires J.Inv(ar, s) && s.phase.Running? && s.lh == []
    ensures J.LogFits(ar, s.disk) && R.RecoveredImage(ar, s.disk) == R.CachedImage(ar, s)
  {
    forall b: nat | b < |s.disk|
      ensures J.Recovered(ar, s.disk, b) == s.Read(b)
    {
    }
  }

  // ---------- The theorems ----------

  lemma {:induction false} RunKept(sb: Super, ar: J.Area, vs: seq<View>, tr: seq<J.Sys>, st: seq<J.Step>, i: nat)
    requires States(sb, ar, vs) && Carries(sb, ar, vs, tr, st) && i < |tr|
    ensures J.Inv(ar, tr[i]) && Kept(sb, ar, vs, ProgAt(st, i), tr[i])
  {
    hide J.Inv, J.Next, Kept, States, Allowed;
    R.RunKeepsInv(ar, tr, st, i);
    if i == 0 {
      StartKept(sb, ar, vs, tr, st);
    } else {
      RunKept(sb, ar, vs, tr, st, i - 1);
      StepKept(sb, ar, vs, ProgAt(st, i - 1), tr[i - 1], tr[i], st[i - 1]);
    }
  }

  /** The file system survives: a run that carries out the transactions between
      the states vs, with crashes anywhere and recoveries interrupted any number
      of times, is always in a state from which recovery leaves a well-formed file
      system, namely the one of vs after the last committed operation.  That is
      the last one that ended, or the one before while its commit is under way.
      Whenever the system runs, the home blocks on the disk are that state. */
  lemma FileSystemSurvives(sb: Super, ar: J.Area, vs: seq<View>, tr: seq<J.Sys>, st: seq<J.Step>, i: nat)
    requires States(sb, ar, vs) && Carries(sb, ar, vs, tr, st) && i < |tr|
    ensures var p := ProgAt(st, i);
      && p.committed <= p.done <= p.committed + 1 && p.done < |vs|
      && J.LogFits(ar, tr[i].disk) && Stores(sb, ar, R.RecoveredImage(ar, tr[i].disk), vs[p.committed])
      && (tr[i].phase.Running? && !p.dead ==> p.committed == p.done)
      && (tr[i].phase.Running? ==> forall b: nat | J.IsHome(ar, tr[i], b) :: R.RecoveredImage(ar, tr[i].disk)[b] == tr[i].disk[b])
  {
    hide J.Inv, J.Next, Carries, Shows;
    RunKept(sb, ar, vs, tr, st, i);
    if tr[i].phase.Running? {
      forall b: nat | J.IsHome(ar, tr[i], b)
        ensures J.Recovered(ar, tr[i].disk, b) == tr[i].disk[b]
      {
        R.HomeIsRecovered(ar, tr[i], b);
      }
    }
  }

  // ---------- Writing and truncating a file ----------

  /** img stores a state in which the file has its old contents c with a whole
      number of chunks, or all n bytes, in place. */
  ghost predicate ChunksInPlace(sb: Super, ar: J.Area, img: J.Disk, vs: seq<View>, ino: nat, c: seq<Byte>, addr: seq<Byte>, start: nat, n: nat)
    requires n <= |addr|
  {
    exists k: nat | k < |vs| :: Stores(sb, ar, img, vs[k]) && O.FileHas(sb, vs[k], ino, O.Progress(c, addr, start, Min(k * LB.CHUNK, n)))
  }

  /** The states between the transactions of a write. */
  lemma {:induction false} WriteState(sb: Super, ar: J.Area, vs: seq<View>, ino: nat, c: seq<Byte>, addr: seq<Byte>, start: nat, n: nat, k: nat)
    requires k < |vs| && n <= |addr| && O.Transactions(sb, vs) && O.ChunkViews(sb, vs, ino, c, addr, start, n) && LaidOut(sb, ar, |vs[0].ins|)
    ensures FsOk(sb, ar, vs[k]) && |vs[k].ins| == |vs[0].ins|
  {
    hide O.Progress, Content, MapOk, TreeOk, WordsFit;
    assert O.FileHas(sb, vs[k], ino, O.Progress(c, addr, start, Min(k * LB.CHUNK, n)));
    InodesFit(sb, vs[k]);
    if k > 0 {
      WriteState(sb, ar, vs, ino, c, addr, start, n, k - 1);
      assert O.SmallTransaction(sb, vs[k - 1], vs[k]);
    }
  }

  /** A crash anywhere in a chunked write whose transactions go through the log
      leaves a whole number of chunks, or all bytes, in place. */
  lemma WriteSurvives(sb: Super, ar: J.Area, vs: seq<View>, ino: nat, c: seq<Byte>, addr: seq<Byte>, start: nat, n: nat,
                      tr: seq<J.Sys>, st: seq<J.Step>, i: nat)
    requires n <= |addr| && vs != [] && O.Transactions(sb, vs) && O.ChunkViews(sb, vs, ino, c, addr, start, n) && LaidOut(sb, ar, |vs[0].ins|)
    requires Carries(sb, ar, vs, tr, st) && i < |tr|
    ensures J.LogFits(ar, tr[i].disk) && ChunksInPlace(sb, ar, R.RecoveredImage(ar, tr[i].disk), vs, ino, c, addr, start, n)
  {
    hide O.FileHas, O.Progress, FsOk, J.Inv, Allowed;
    forall k | 0 <= k < |vs|
      ensures FsOk(sb, ar, vs[k])
    {
      WriteState(sb, ar, vs, ino, c, addr, start, n, k);
    }
    forall k | 0 < k < |vs|
      ensures LoggedChange(sb, vs[k - 1], vs[k])
    {
      assert O.SmallTransaction(sb, vs[k - 1], vs[k]);
    }
    FileSystemSurvives(sb, ar, vs, tr, st, i);
    var k := ProgAt(st, i).committed;
    assert O.FileHas(sb, vs[k], ino, O.Progress(c, addr, start, Min(k * LB.CHUNK, n)));
  }

  /** filewrite, and what is left of it after a crash: the states between its
      transactions, carried out through the log by any run, survive as above. */
  method FileWriteSurvives(f: O.OpenFile, addr: seq<Byte>, n: int) returns (r: Outcome<int>, ghost vs: seq<View>)
    requires f.Valid() && f.writable && 0 < n <= |addr| && n < TWO31
    modifies f`off, f.fs
    ensures r.Done? ==> f.Valid() && vs != [] && O.Stored(vs[0]) == old(O.Stored(f.fs.Snap())) && O.Stored(vs[|vs| - 1]) == O.Stored(f.fs.Snap())
    ensures r.Done? ==> forall ar: J.Area, tr: seq<J.Sys>, st: seq<J.Step>, i: nat |
        LaidOut(f.fs.sb, ar, |old(f.fs.inodes)|) && Carries(f.fs.sb, ar, vs, tr, st) && i < |tr| ::
        J.LogFits(ar, tr[i].disk) && ChunksInPlace(f.fs.sb, ar, R.RecoveredImage(ar, tr[i].disk), vs, f.ino, old(f.Bytes(f.ino)), addr, old(f.off), n)
  {
    hide Carries, ChunksInPlace, LaidOut, Content, MapOk, TreeOk, O.ChunkViews, O.Transactions, Splice, J.LogFits;
    ghost var c, start, sb, ino := f.Bytes(f.ino), f.off, f.fs.sb, f.ino;
    r, vs := f.FileWrite(addr, n);
    if r.Done? {
      forall ar: J.Area, tr: seq<J.Sys>, st: seq<J.Step>, i: nat |
        LaidOut(sb, ar, |old(f.fs.inodes)|) && Carries(sb, ar, vs, tr, st) && i < |tr|
        ensures J.LogFits(ar, tr[i].disk) && ChunksInPlace(sb, ar, R.RecoveredImage(ar, tr[i].disk), vs, ino, c, addr, start, n)
      {
        WriteSurvives(sb, ar, vs, ino, c, addr, start, n, tr, st, i);
      }
    }
  }

  /** itrunc as one operation of the log: after any crash either all of the file
      or nothing of it is there, and the other files are whole. */
  method TruncateSurvives(fs: FileSystem, ino: nat) returns (ghost v: View, ghost v': View)
    requires fs.Valid() && ino < |fs.inodes| && fs.dinodes == fs.inodes
    modifies fs
    ensures fs.Valid() && fs.dinodes == fs.inodes && v == old(fs.Snap()) && v' == fs.Snap() && |v'.ins| == |v.ins| > ino
    ensures Content(v', ino) == [] && forall i: nat | i < |v.ins| && i != ino :: Content(v', i) == Content(v, i)
    ensures OneOfTwo(fs.sb, v, v')
  {
    hide Content, MapOk, TreeOk, LoggedChange, OneOfTwo;
    v := fs.Snap();
    fs.BeginTransaction();
    ghost var v1 := fs.Snap();
    O.SameBytes(v1, v);
    var r := fs.Itrunc(ino);
    v' := fs.Snap();
    TruncationLogged(fs.sb, v, v1, v', ino, fs.dinodes);
    EitherSurvives(fs.sb, v, v');
  }

  /** Every run that carries out the one transaction leaves one of the two states, whenever it crashes. */
  ghost predicate OneOfTwo(sb: Super, v: View, v': View) {
    forall ar: J.Area, tr: seq<J.Sys>, st: seq<J.Step>, i: nat |
      LaidOut(sb, ar, |v.ins|) && Carries(sb, ar, [v, v'], tr, st) && i < |tr| ::
      J.LogFits(ar, tr[i].disk) && (Stores(sb, ar, R.RecoveredImage(ar, tr[i].disk), v) || Stores(sb, ar, R.RecoveredImage(ar, tr[i].disk), v'))
  }

  lemma EitherSurvives(sb: Super, v: View, v': View)
    requires MapOk(sb, v.d, v.own) && TreeOk(v.d, v.ins, v.own) && MapOk(sb, v'.d, v'.own) && TreeOk(v'.d, v'.ins, v'.own)
    requires LoggedChange(sb, v, v') && |v'.ins| == |v.ins|
    ensures OneOfTwo(sb, v, v')
  {
    InodesFit(sb, v);
    InodesFit(sb, v');
    hide Carries, Stores, LaidOut, MapOk, TreeOk, J.LogFits, LoggedChange, WordsFit;
    forall ar: J.Area, tr: seq<J.Sys>, st: seq<J.Step>, i: nat |
      LaidOut(sb, ar, |v.ins|) && Carries(sb, ar, [v, v'], tr, st) && i < |tr|
      ensures J.LogFits(ar, tr[i].disk) && (Stores(sb, ar, R.RecoveredImage(ar, tr[i].disk), v) || Stores(sb, ar, R.RecoveredImage(ar, tr[i].disk), v'))
    {
      TwoStates(sb, ar, v, v');
      FileSystemSurvives(sb, ar, [v, v'], tr, st, i);
    }
  }

  lemma TwoStates(sb: Super, ar: J.Area, v: View, v': View)
    requires FsOk(sb, ar, v) && FsOk(sb, ar, v') && LoggedChange(sb, v, v')
    ensures States(sb, ar, [v, v'])
  {
    hide FsOk, LoggedChange;
  }

  lemma TruncationLogged(sb: Super, v: View, v1: View, v': View, ino: nat, dins: seq<Inode>)
    requires O.Stored(v1) == O.Stored(v) && Truncated(sb, v1, v', ino) && dins == v1.ins[ino := v'.ins[ino]]
    requires ChangesLogged(v1.d, v'.d, v'.logged) && InodesLogged(sb, v1.ins, dins, v'.logged)
    ensures LoggedChange(sb, v, v') && |v'.ins| == |v.ins| && dins == v'.ins
  {
  }

  // ---------- Such runs exist ----------

  function BufsOf(m: J.Disk, bs: seq<nat>, k: nat): map<nat, J.Buf>
    requires k <= |bs| && forall i | 0 <= i < |bs| :: bs[i] < |m|
  {
    if k == 0 then map[] else BufsOf(m, bs, k - 1)[bs[k - 1] := J.Buf(m[bs[k - 1]], true)]
  }

  function PendingOf(m: J.Disk, bs: seq<nat>, k: nat): (r: map<nat, Block>)
    requires k <= |bs| && forall i | 0 <= i < |bs| :: bs[i] < |m|
    ensures forall b :: b in r <==> b in bs[..k]
    ensures forall b | b in r :: b < |m| && r[b] == m[b]
  {
    if k == 0 then map[] else PendingOf(m, bs, k - 1)[bs[k - 1] := m[bs[k - 1]]]
  }

  /** One operation has logged the first k blocks of bs with their content in m. */
  function Logging(d: J.Disk, m: J.Disk, bs: seq<nat>, k: nat): J.Sys
    requires k <= |bs| && forall i | 0 <= i < |bs| :: bs[i] < |m|
  {
    J.Sys(d, BufsOf(m, bs, k), bs[..k], map[0 := k], J.Running)
  }

  lemma {:induction false} ProgOfPrefix(st: seq<J.Step>, step: J.Step, i: nat)
    requires i <= |st|
    ensures ProgAt(st + [step], i) == ProgAt(st, i)
  {
    if i > 0 {
      ProgOfPrefix(st, step, i - 1);
    }
  }

  lemma LogsNext(ar: J.Area, d: J.Disk, m: J.Disk, bs: seq<nat>, k: nat)
    requires k < |bs| <= J.LOGSIZE && |bs| < ar.size && |m| == |d| && Distinct(bs)
    requires forall i | 0 <= i < |bs| :: bs[i] < |m| && !ar.Contains(bs[i])
    ensures J.Next(ar, Logging(d, m, bs, k), Logging(d, m, bs, k + 1), J.Write(0, bs[k], m[bs[k]]))
  {
    var s := Logging(d, m, bs, k);
    assert bs[k] !in bs[..k];
    assert bs[..k + 1] == bs[..k] + [bs[k]];
    assert map[0 := k][0 := k + 1] == map[0 := k + 1];
  }

  /** All steps of a run from the state s so far are as the operations between vs allow. */
  ghost predicate Prefix(sb: Super, ar: J.Area, vs: seq<View>, s: J.Sys, tr: seq<J.Sys>, st: seq<J.Step>) {
    R.IsRun(ar, tr, st) && tr[0] == s && forall k | 0 <= k < |st| :: Allowed(sb, ar, vs, ProgAt(st, k), st[k])
  }

  lemma PrefixNext(sb: Super, ar: J.Area, vs: seq<View>, s: J.Sys, tr: seq<J.Sys>, st: seq<J.Step>, s': J.Sys, step: J.Step)
    requires Prefix(sb, ar, vs, s, tr, st) && J.Next(ar, tr[|st|], s', step) && Allowed(sb, ar, vs, ProgAt(st, |st|), step)
    ensures Prefix(sb, ar, vs, s, tr + [s'], st + [step]) && ProgAt(st + [step], |st| + 1) == Advance(ProgAt(st, |st|), step)
  {
    hide J.Next, Allowed;
    forall k | 0 <= k <= |st|
      ensures ProgAt(st + [step], k) == ProgAt(st, k)
    {
      ProgOfPrefix(st, step, k);
    }
  }

  lemma LogsFirst(ar: J.Area, d: J.Disk, m: J.Disk, bs: seq<nat>)
    requires forall i | 0 <= i < |bs| :: bs[i] < |m|
    ensures J.Next(ar, J.Sys(d, map[], [], map[], J.Running), Logging(d, m, bs, 0), J.Begin(0))
  {
    assert bs[..0] == [];
  }

  lemma LogsLast(ar: J.Area, d: J.Disk, m: J.Disk, bs: seq<nat>)
    requires forall i | 0 <= i < |bs| :: bs[i] < |m|
    ensures var s := Logging(d, m, bs, |bs|);
      J.Next(ar, s, s.(ops := s.ops - {0}, phase := if |s.lh| > 0 then J.Copying(0) else J.Running), J.End(0))
  {
    assert |map[0 := |bs|]| == 1;
  }

  lemma EmptyPrefix(sb: Super, ar: J.Area, vs: seq<View>, s: J.Sys)
    ensures Prefix(sb, ar, vs, s, [s], [])
  {
  }

  lemma {:induction false} CanLog(sb: Super, ar: J.Area, vs: seq<View>, d: J.Disk, m: J.Disk, bs: seq<nat>, k: nat)
    returns (tr: seq<J.Sys>, st: seq<J.Step>)
    requires k <= |bs| <= J.LOGSIZE && |bs| < ar.size && |m| == |d| && Distinct(bs) && |vs| > 1
    requires forall i | 0 <= i < |bs| :: bs[i] < |m| && !ar.Contains(bs[i])
    ensures Prefix(sb, ar, vs, J.Sys(d, map[], [], map[], J.Running), tr, st) && |tr| == |st| + 1 && tr[|st|] == Logging(d, m, bs, k)
    ensures ProgAt(st, |st|) == Prog(0, 0, true, PendingOf(m, bs, k), false)
  {
    hide J.Next, Logging, Distinct, Prefix;
    var s0 := J.Sys(d, map[], [], map[], J.Running);
    var step;
    if k == 0 {
      EmptyPrefix(sb, ar, vs, s0);
      LogsFirst(ar, d, m, bs);
      tr, st, step := [s0], [], J.Begin(0);
    } else {
      tr, st := CanLog(sb, ar, vs, d, m, bs, k - 1);
      LogsNext(ar, d, m, bs, k - 1);
      step := J.Write(0, bs[k - 1], m[bs[k - 1]]);
    }
    PrefixNext(sb, ar, vs, s0, tr, st, Logging(d, m, bs, k), step);
    tr, st := tr + [Logging(d, m, bs, k)], st + [step];
  }

  lemma AllPending(sb: Super, ar: J.Area, v: View, bs: seq<nat>)
    requires WordsFit(v.ins) && forall i | 0 <= i < |bs| :: bs[i] < |v.d|
    requires forall b | b in v.logged && b < |v.d| && !ar.Contains(b) :: b in bs
    ensures Finished(sb, ar, v, PendingOf(Image(sb, ar, v), bs, |bs|))
  {
    assert bs[..|bs|] == bs;
  }

  lemma StartCarries(sb: Super, ar: J.Area, vs: seq<View>, d: J.Disk, tr: seq<J.Sys>, st: seq<J.Step>)
    requires J.DiskOk(ar, d) && J.Blocks(d[ar.start]) == [] && vs != [] && |d| == |vs[0].d| <= TWO32
    requires WordsFit(vs[0].ins) && forall b: nat | b < |d| && !ar.Contains(b) :: d[b] == ImageAt(sb, ar, vs[0], b)
    requires Prefix(sb, ar, vs, J.Sys(d, map[], [], map[], J.Running), tr, st)
    ensures Carries(sb, ar, vs, tr, st)
  {
    hide WordsFit, J.Next, J.Inv, ImageAt, J.DiskOk, Allowed;
    LS.FreshStart(ar, d);
    ShowsImage(sb, ar, vs[0], J.Sys(d, map[], [], map[], J.Running));
  }

  /** Every transaction whose home blocks fit into the log can be carried out:
      from a disk that stores v there is a run up to the end of the operation. */
  lemma TransactionCanRun(sb: Super, ar: J.Area, v: View, v': View, d: J.Disk, bs: seq<nat>) returns (tr: seq<J.Sys>, st: seq<J.Step>)
    requires |v'.d| == |v.d| && J.DiskOk(ar, d) && J.Blocks(d[ar.start]) == [] && |d| == |v.d| <= TWO32
    requires WordsFit(v.ins) && WordsFit(v'.ins) && forall b: nat | b < |d| && !ar.Contains(b) :: d[b] == ImageAt(sb, ar, v, b)
    requires |bs| <= J.LOGSIZE && |bs| < ar.size && Distinct(bs) && forall i | 0 <= i < |bs| :: bs[i] < |d| && !ar.Contains(bs[i])
    requires forall b | b in v'.logged && b < |d| && !ar.Contains(b) :: b in bs
    ensures Carries(sb, ar, [v, v'], tr, st) && |tr| == |st| + 1 && ProgAt(st, |st|).done == 1
  {
    hide WordsFit, LoggedChange, J.DiskOk, J.Next, Distinct, J.Blocks, Prefix, Carries, Finished, ImageAt, Logging, PendingOf, Image;
    var s0, m := J.Sys(d, map[], [], map[], J.Running), Image(sb, ar, v');
    tr, st := CanLog(sb, ar, [v, v'], d, m, bs, |bs|);
    var s := Logging(d, m, bs, |bs|);
    var s' := s.(ops := s.ops - {0}, phase := if |s.lh| > 0 then J.Copying(0) else J.Running);
    LogsLast(ar, d, m, bs);
    AllPending(sb, ar, v', bs);
    PrefixNext(sb, ar, [v, v'], s0, tr, st, s', J.End(0));
    tr, st := tr + [s'], st + [J.End(0)];
    StartCarries(sb, ar, [v, v'], d, tr, st);
  }
}
