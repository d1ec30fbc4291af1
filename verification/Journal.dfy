/** The redo log of log.c over the buffer cache, as a system of single-block
    disk writes that a crash may interrupt anywhere. */
module Journal {
  import opened Common
  import opened Bytes

  const LOGSIZE := MAXOPBLOCKS * 3

  type Disk = seq<Block>

  /** Where the log lives: its header block and the log blocks behind it. */
  datatype Area = Area(start: nat, size: nat) {
    predicate Contains(b: nat) { start <= b < start + size }
    function Slot(i: nat): nat { start + 1 + i }
  }

  // ---------- The header block ----------

  /** The block numbers recorded in a header block whose count is at most LOGSIZE. */
  function Blocks(h: Block): (bs: seq<nat>)
    ensures |bs| <= LOGSIZE
  {
    var n := if Word(h, 0) <= LOGSIZE then Word(h, 0) else LOGSIZE;
    seq(n, i requires 0 <= i < n => Word(h, 1 + i))
  }

  /** hb->block[i] = bs[i] for the first k entries. */
  function PutBlocks(h: Block, bs: seq<nat>, k: nat): Block
    requires k <= |bs| <= LOGSIZE && forall i | 0 <= i < |bs| :: bs[i] < TWO32
  {
    if k == 0 then h else PutWord(PutBlocks(h, bs, k - 1), k, bs[k - 1])
  }

  /** What write_head makes of the old header block h. */
  function Header(h: Block, bs: seq<nat>): Block
    requires |bs| <= LOGSIZE && forall i | 0 <= i < |bs| :: bs[i] < TWO32
  {
    PutBlocks(PutWord(h, 0, |bs|), bs, |bs|)
  }

  lemma {:induction false} WordOfPutBlocks(h: Block, bs: seq<nat>, k: nat, j: nat)
    requires k <= |bs| <= LOGSIZE && (forall i | 0 <= i < |bs| :: bs[i] < TWO32) && j <= LOGSIZE
    ensures Word(PutBlocks(h, bs, k), j) == if 1 <= j <= k then bs[j - 1] else Word(h, j)
  {
    if k > 0 {
      WordOfPutBlocks(h, bs, k - 1, j);
      WordOfPutWord(PutBlocks(h, bs, k - 1), k, bs[k - 1], j);
    }
  }

  /** A header that has been written reads back as the list it was written from. */
  lemma HeaderReadsBack(h: Block, bs: seq<nat>)
    requires |bs| <= LOGSIZE && forall i | 0 <= i < |bs| :: bs[i] < TWO32
    ensures Word(Header(h, bs), 0) == |bs| && Blocks(Header(h, bs)) == bs
  {
    hide Word, PutWord;
    var h1 := PutWord(h, 0, |bs|);
    WordOfPutWord(h, 0, |bs|, 0);
    WordOfPutBlocks(h1, bs, |bs|, 0);
    forall i | 0 <= i < |bs|
      ensures Word(Header(h, bs), 1 + i) == bs[i]
    {
      WordOfPutBlocks(h1, bs, |bs|, 1 + i);
    }
  }

  // ---------- What a disk recovers to ----------

  function IndexOf(bs: seq<nat>, b: nat): (i: nat)
    requires b in bs
    ensures i < |bs| && bs[i] == b && b !in bs[..i]
  {
    if bs[0] == b then 0 else 1 + IndexOf(bs[1..], b)
  }

  /** Home block b after recovery from disk d. */
  function Recovered(ar: Area, d: Disk, b: nat): Block
    requires b < |d| && ar.start + ar.size <= |d| && LogFits(ar, d)
  {
    var bs := Blocks(d[ar.start]);
    if b in bs then d[ar.Slot(IndexOf(bs, b))] else d[b]
  }

  predicate LogFits(ar: Area, d: Disk) {
    ar.start + ar.size <= |d| && ar.start < |d| && 1 + |Blocks(d[ar.start])| <= ar.size
  }

  // ---------- The system ----------

  datatype Buf = Buf(data: Block, dirty: bool)

  /** Running: operations may be open.  Copying(k): write_log has copied k
      blocks.  Installing(k): the header is on disk and install_trans has
      copied k blocks home.  Down: memory is lost.  Recovering(k): as
      Installing, after a crash. */
  datatype Phase = Running | Copying(k: nat) | Installing(k: nat) | Down | Recovering(k: nat)

  datatype Sys = Sys(
    disk: Disk,
    cache: map<nat, Buf>,
    lh: seq<nat>,              // log.lh.block[0 .. log.lh.n]
    ops: map<nat, nat>,        // open operations, with the number of blocks each has added to lh
    phase: Phase)
  {
    /** What bread(b) returns. */
    function Read(b: nat): Block
      requires b < |disk|
    {
      if b in cache then cache[b].data else disk[b]
    }
  }

  datatype Step =
    | Begin(op: nat) | Write(op: nat, b: nat, x: Block) | End(op: nat)
    | Load(b: nat) | Evict(b: nat)
    | CopyOne | Commit | InstallOne | Clear
    | Crash | ReadHead

  /** begin_op lets an operation in: no commit is running and its worst case fits. */
  predicate Admits(s: Sys) {
    s.phase.Running? && |s.lh| + (|s.ops| + 1) * MAXOPBLOCKS <= LOGSIZE
  }

  /** log_write does not panic. */
  predicate NoPanic(ar: Area, s: Sys) {
    |s.lh| < LOGSIZE && |s.lh| < ar.size - 1 && |s.ops| >= 1
  }

  predicate IsHome(ar: Area, s: Sys, b: nat) {
    b < |s.disk| && !ar.Contains(b)
  }

  ghost predicate Next(ar: Area, s: Sys, s': Sys, step: Step) {
    match step
    case Begin(op) =>
      && Admits(s) && op !in s.ops
      && s' == s.(ops := s.ops[op := 0])
    case Write(op, b, x) =>
      && s.phase.Running? && op in s.ops && NoPanic(ar, s) && IsHome(ar, s, b)
      && s' == s.(cache := s.cache[b := Buf(x, true)],
                  lh := if b in s.lh then s.lh else s.lh + [b],
                  ops := if b in s.lh then s.ops else s.ops[op := s.ops[op] + 1])
    case End(op) =>
      && s.phase.Running? && op in s.ops
      && s' == s.(ops := s.ops - {op}, phase := if |s.ops| == 1 && |s.lh| > 0 then Copying(0) else Running)
    case Load(b) =>
      && !s.phase.Down? && b < |s.disk| && b !in s.cache
      && s' == s.(cache := s.cache[b := Buf(s.disk[b], false)])
    case Evict(b) =>
      && b in s.cache && !s.cache[b].dirty
      && s' == s.(cache := s.cache - {b})
    case CopyOne =>
      && s.phase.Copying? && s.phase.k < |s.lh| && ar.Slot(s.phase.k) < |s.disk| && s.lh[s.phase.k] < |s.disk|
      && (var x, t := s.Read(s.lh[s.phase.k]), ar.Slot(s.phase.k);
          s' == s.(disk := s.disk[t := x], cache := s.cache[t := Buf(x, false)], phase := Copying(s.phase.k + 1)))
    case Commit =>
      && s.phase.Copying? && s.phase.k == |s.lh| <= LOGSIZE && ar.start < |s.disk|
      && (forall i | 0 <= i < |s.lh| :: s.lh[i] < TWO32)
      && (var h := Header(s.Read(ar.start), s.lh);
          s' == s.(disk := s.disk[ar.start := h], cache := s.cache[ar.start := Buf(h, false)], phase := Installing(0)))
    case InstallOne =>
      && (s.phase.Installing? || s.phase.Recovering?) && s.phase.k < |s.lh|
      && ar.Slot(s.phase.k) < |s.disk| && s.lh[s.phase.k] < |s.disk|
      && (var x, t := s.Read(ar.Slot(s.phase.k)), s.lh[s.phase.k];
          s' == s.(disk := s.disk[t := x], cache := s.cache[t := Buf(x, false)],
                   phase := if s.phase.Installing? then Installing(s.phase.k + 1) else Recovering(s.phase.k + 1)))
    case Clear =>
      && (s.phase.Installing? || s.phase.Recovering?) && s.phase.k == |s.lh| && ar.start < |s.disk|
      && (var h := Header(s.Read(ar.start), []);
          s' == s.(disk := s.disk[ar.start := h], cache := s.cache[ar.start := Buf(h, false)], lh := [], phase := Running))
    case Crash =>
      s' == Sys(s.disk, map[], [], map[], Down)
    case ReadHead =>
      && s.phase.Down? && ar.start < |s.disk|
      && s' == s.(lh := Blocks(s.disk[ar.start]), phase := Recovering(0))
  }

  // ---------- The invariant ----------

  /** The logged block numbers: distinct home blocks, few enough for the log. */
  ghost predicate ListOk(ar: Area, d: Disk, lh: seq<nat>) {
    && 1 + |lh| <= ar.size && ar.start + ar.size <= |d| <= TWO32 && |lh| <= LOGSIZE
    && Distinct(lh)
    && forall i | 0 <= i < |lh| :: lh[i] < |d| && !ar.Contains(lh[i])
  }

  /** A clean buffer holds what is on the disk. */
  ghost predicate CacheOk(d: Disk, cache: map<nat, Buf>) {
    forall b | b in cache :: b < |d| && (cache[b].dirty || cache[b].data == d[b])
  }

  /** The dirty buffers are those of the logged blocks from index k on. */
  ghost predicate Pinned(cache: map<nat, Buf>, lh: seq<nat>, k: nat) {
    && (forall i | k <= i < |lh| :: lh[i] in cache && cache[lh[i]].dirty)
    && (forall b | b in cache && cache[b].dirty :: exists i :: k <= i < |lh| && lh[i] == b)
  }

  ghost predicate AllClean(cache: map<nat, Buf>) {
    forall b | b in cache :: !cache[b].dirty
  }

  /** The first k log blocks hold what the cache holds for their home blocks. */
  ghost predicate Copied(ar: Area, s: Sys, k: nat)
    requires ListOk(ar, s.disk, s.lh)
  {
    forall i | 0 <= i < k && i < |s.lh| :: s.disk[ar.Slot(i)] == s.Read(s.lh[i])
  }

  /** The first k log blocks have reached their home blocks. */
  ghost predicate Installed(ar: Area, d: Disk, lh: seq<nat>, k: nat)
    requires ListOk(ar, d, lh)
  {
    forall i | 0 <= i < k && i < |lh| :: d[lh[i]] == d[ar.Slot(i)]
  }

  ghost predicate PhaseOk(ar: Area, s: Sys)
    requires ListOk(ar, s.disk, s.lh)
  {
    var onDisk := Blocks(s.disk[ar.start]);
    match s.phase
    case Running => onDisk == [] && Pinned(s.cache, s.lh, 0)
    case Copying(k) => onDisk == [] && Pinned(s.cache, s.lh, 0) && k <= |s.lh| && s.ops == map[] && Copied(ar, s, k)
    case Installing(k) =>
      && onDisk == s.lh && k <= |s.lh| && Pinned(s.cache, s.lh, k) && s.ops == map[]
      && Copied(ar, s, |s.lh|) && Installed(ar, s.disk, s.lh, k)
    case Down => s.cache == map[] && s.lh == [] && s.ops == map[]
    case Recovering(k) =>
      onDisk == s.lh && k <= |s.lh| && s.ops == map[] && AllClean(s.cache) && Installed(ar, s.disk, s.lh, k)
  }

  /** The header on disk describes a log that fits. */
  ghost predicate DiskOk(ar: Area, d: Disk) {
    && LogFits(ar, d) && Word(d[ar.start], 0) <= LOGSIZE && Distinct(Blocks(d[ar.start]))
    && forall i | 0 <= i < |Blocks(d[ar.start])| :: Blocks(d[ar.start])[i] < |d| && !ar.Contains(Blocks(d[ar.start])[i])
  }

  ghost predicate Inv(ar: Area, s: Sys) {
    ListOk(ar, s.disk, s.lh) && CacheOk(s.disk, s.cache) && DiskOk(ar, s.disk) && PhaseOk(ar, s)
  }

  // ---------- Every step keeps the invariant ----------

  lemma BeginStep(ar: Area, s: Sys, s': Sys, step: Step)
    requires Inv(ar, s) && Next(ar, s, s', step) && step.Begin?
    ensures Inv(ar, s')
  {
    hide Blocks, Header, ListOk, CacheOk, Pinned, DiskOk;
  }

  lemma EndStep(ar: Area, s: Sys, s': Sys, step: Step)
    requires Inv(ar, s) && Next(ar, s, s', step) && step.End?
    ensures Inv(ar, s')
  {
    hide Blocks, Header, ListOk, CacheOk, Pinned, DiskOk;
    if |s.ops| == 1 {
      LastOp(s.ops, step.op);
    }
  }

  lemma LastOp(ops: map<nat, nat>, op: nat)
    requires op in ops && |ops| == 1
    ensures ops - {op} == map[]
  {
    var rest := ops.Keys - {op};
    assert ops.Keys == rest + {op} && |rest| == 0;
  }

  lemma WriteStep(ar: Area, s: Sys, s': Sys, step: Step)
    requires Inv(ar, s) && Next(ar, s, s', step) && step.Write?
    ensures Inv(ar, s')
  {
    hide Blocks, Header;
    forall c | c in s'.cache && s'.cache[c].dirty
      ensures exists i :: 0 <= i < |s'.lh| && s'.lh[i] == c
    {
      if c == step.b && c !in s.lh {
        assert s'.lh[|s.lh|] == c;
      } else {
        var i :| 0 <= i < |s.lh| && s.lh[i] == c;
        assert s'.lh[i] == c;
      }
    }
  }

  lemma LoadStep(ar: Area, s: Sys, s': Sys, step: Step)
    requires Inv(ar, s) && Next(ar, s, s', step) && step.Load?
    ensures Inv(ar, s')
  {
    hide Blocks, Header, ListOk, Distinct, DiskOk;
    assert forall b: nat | b < |s.disk| :: s'.Read(b) == s.Read(b);
    SameReads(ar, s, s');
  }

  /** Only clean buffers are recycled, so no logged content is lost. */
  lemma EvictStep(ar: Area, s: Sys, s': Sys, step: Step)
    requires Inv(ar, s) && Next(ar, s, s', step) && step.Evict?
    ensures Inv(ar, s')
  {
    hide Blocks, Header, ListOk, Distinct, DiskOk;
    assert forall b: nat | b < |s.disk| :: s'.Read(b) == s.Read(b);
    SameReads(ar, s, s');
  }

  lemma SameReads(ar: Area, s: Sys, s': Sys)
    requires ListOk(ar, s.disk, s.lh) && s'.disk == s.disk && s'.lh == s.lh
    requires forall b: nat | b < |s.disk| :: s'.Read(b) == s.Read(b)
    ensures forall k :: Copied(ar, s, k) ==> Copied(ar, s', k)
  {
  }

  /** The dirty buffers belong to home blocks. */
  lemma DirtyIsHome(ar: Area, s: Sys)
    requires Inv(ar, s)
    ensures forall b | b in s.cache && s.cache[b].dirty :: b < |s.disk| && !ar.Contains(b)
  {
    hide Blocks, Header, Distinct, DiskOk, Copied, Installed;
  }

  /** Copying to the log area leaves the home blocks and what they recover to. */
  lemma CopyStep(ar: Area, s: Sys, s': Sys)
    requires Inv(ar, s) && Next(ar, s, s', CopyOne)
    ensures Inv(ar, s')
    ensures forall b: nat | IsHome(ar, s, b) :: s'.disk[b] == s.disk[b] && Recovered(ar, s'.disk, b) == Recovered(ar, s.disk, b)
  {
    hide Blocks, Header, Pinned;
    DirtyIsHome(ar, s);
    CopyPinned(s.cache, s'.cache, s.lh, ar.Slot(s.phase.k));
    assert forall i | 0 <= i < |s.lh| :: s'.Read(s.lh[i]) == s.Read(s.lh[i]);
  }

  lemma CopyPinned(cache: map<nat, Buf>, cache': map<nat, Buf>, lh: seq<nat>, t: nat)
    requires Pinned(cache, lh, 0) && (forall i | 0 <= i < |lh| :: lh[i] != t)
    requires cache'.Keys == cache.Keys + {t} && !cache'[t].dirty && forall b | b in cache && b != t :: cache'[b] == cache[b]
    ensures Pinned(cache', lh, 0)
  {
  }

  /** The one write that commits: from here on every home block recovers to
      what the cache held, which is the latest logged content. */
  lemma CommitStep(ar: Area, s: Sys, s': Sys)
    requires Inv(ar, s) && Next(ar, s, s', Commit)
    ensures Inv(ar, s')
    ensures forall b: nat | IsHome(ar, s, b) :: s'.disk[b] == s.disk[b] && Recovered(ar, s'.disk, b) == s.Read(b)
  {
    hide Blocks, Header, Recovered, Pinned;
    HeaderReadsBack(s.Read(ar.start), s.lh);
    DirtyIsHome(ar, s);
    CopyPinned(s.cache, s'.cache, s.lh, ar.start);
    assert forall i | 0 <= i < |s.lh| :: s'.Read(s.lh[i]) == s.Read(s.lh[i]);
    forall b: nat | IsHome(ar, s, b)
      ensures Recovered(ar, s'.disk, b) == s.Read(b)
    {
      CommitRecovered(ar, s, s', b);
    }
  }

  lemma CommitRecovered(ar: Area, s: Sys, s': Sys, b: nat)
    requires Inv(ar, s) && Next(ar, s, s', Commit) && IsHome(ar, s, b)
    requires Blocks(s'.disk[ar.start]) == s.lh
    ensures LogFits(ar, s'.disk) && Recovered(ar, s'.disk, b) == s.Read(b)
  {
    hide Blocks, Header;
    if b in s.lh {
      var i := IndexOf(s.lh, b);
      assert s.disk[ar.Slot(i)] == s.Read(s.lh[i]);
    }
  }

  lemma InstallInv(ar: Area, s: Sys, s': Sys)
    requires Inv(ar, s) && Next(ar, s, s', InstallOne)
    ensures Inv(ar, s')
  {
    hide Blocks, Header, Recovered, Pinned, CacheOk, Distinct;
    DirtyIsHome(ar, s);
    InstallReads(ar, s, s', s.phase.k);
    if s.phase.Installing? {
      InstallPinned(s.cache, s'.cache, s.lh, s.phase.k);
    }
  }

  /** Installing a block copies home what it recovers to anyway. */
  lemma InstallStep(ar: Area, s: Sys, s': Sys)
    requires Inv(ar, s) && Next(ar, s, s', InstallOne)
    ensures Inv(ar, s')
    ensures forall b: nat | IsHome(ar, s, b) :: Recovered(ar, s'.disk, b) == Recovered(ar, s.disk, b)
  {
    InstallInv(ar, s, s');
    hide Blocks, Header, Recovered, Pinned, CacheOk, Distinct, PhaseOk;
    forall b: nat | IsHome(ar, s, b)
      ensures Recovered(ar, s'.disk, b) == Recovered(ar, s.disk, b)
    {
      InstallRecovered(ar, s, s', b);
    }
  }

  lemma InstallReads(ar: Area, s: Sys, s': Sys, k: nat)
    requires ListOk(ar, s.disk, s.lh) && CacheOk(s.disk, s.cache) && k < |s.lh|
    requires ar.Slot(k) in s.cache ==> !s.cache[ar.Slot(k)].dirty
    requires s'.disk == s.disk[s.lh[k] := s.Read(ar.Slot(k))] && s'.lh == s.lh
    requires s'.cache == s.cache[s.lh[k] := Buf(s.Read(ar.Slot(k)), false)]
    ensures CacheOk(s'.disk, s'.cache) && s'.disk[s.lh[k]] == s.disk[ar.Slot(k)] == s'.Read(s.lh[k])
    ensures forall i | 0 <= i < |s.lh| && i != k :: s'.Read(s.lh[i]) == s.Read(s.lh[i]) && s'.disk[s.lh[i]] == s.disk[s.lh[i]]
    ensures forall b: nat | ar.Contains(b) :: s'.disk[b] == s.disk[b]
  {
  }

  lemma InstallRecovered(ar: Area, s: Sys, s': Sys, b: nat)
    requires Inv(ar, s) && Next(ar, s, s', InstallOne) && IsHome(ar, s, b)
    ensures LogFits(ar, s'.disk) && Recovered(ar, s'.disk, b) == Recovered(ar, s.disk, b)
  {
    hide Blocks, Header, CacheOk, Pinned;
  }

  lemma InstallPinned(cache: map<nat, Buf>, cache': map<nat, Buf>, lh: seq<nat>, k: nat)
    requires Pinned(cache, lh, k) && k < |lh| && Distinct(lh)
    requires cache'.Keys == cache.Keys + {lh[k]} && !cache'[lh[k]].dirty
    requires forall b | b in cache && b != lh[k] :: cache'[b] == cache[b]
    ensures Pinned(cache', lh, k + 1)
  {
  }

  /** Clearing the header when everything is installed changes nothing that recovery would see. */
  lemma ClearStep(ar: Area, s: Sys, s': Sys)
    requires Inv(ar, s) && Next(ar, s, s', Clear)
    ensures Inv(ar, s')
    ensures forall b: nat | IsHome(ar, s, b) :: s'.disk[b] == s.disk[b] && Recovered(ar, s'.disk, b) == Recovered(ar, s.disk, b)
  {
    hide Blocks, Header;
    HeaderReadsBack(s.Read(ar.start), []);
    forall b: nat | IsHome(ar, s, b) && b in s.lh
      ensures s.disk[b] == s.disk[ar.Slot(IndexOf(s.lh, b))]
    {
      var i := IndexOf(s.lh, b);
      assert s.disk[s.lh[i]] == s.disk[ar.Slot(i)];
    }
  }

  lemma CrashStep(ar: Area, s: Sys, s': Sys, step: Step)
    requires Inv(ar, s) && Next(ar, s, s', step) && (step.Crash? || step.ReadHead?)
    ensures Inv(ar, s') && s'.disk == s.disk
  {
    hide Blocks, Header;
  }

  /** Every step keeps the invariant, and every step but Commit keeps the home
      blocks that the disk recovers to. */
  lemma StepKeeps(ar: Area, s: Sys, s': Sys, step: Step)
    requires Inv(ar, s) && Next(ar, s, s', step)
    ensures Inv(ar, s') && |s'.disk| == |s.disk|
    ensures forall b: nat | IsHome(ar, s, b) ::
      Recovered(ar, s'.disk, b) == if step.Commit? then s.Read(b) else Recovered(ar, s.disk, b)
  {
    hide Blocks, Header, Recovered, PhaseOk, CacheOk, ListOk, IsHome;
    match step
    case Begin(_) => BeginStep(ar, s, s', step);
    case Write(_, _, _) => WriteStep(ar, s, s', step);
    case End(_) => EndStep(ar, s, s', step);
    case Load(_) => LoadStep(ar, s, s', step);
    case Evict(_) => EvictStep(ar, s, s', step);
    case CopyOne => CopyStep(ar, s, s');
    case Commit => CommitStep(ar, s, s');
    case InstallOne => InstallStep(ar, s, s');
    case Clear => ClearStep(ar, s, s');
    case Crash => CrashStep(ar, s, s', step);
    case ReadHead => CrashStep(ar, s, s', step);
  }
}
