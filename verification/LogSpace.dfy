/** The space accounting of begin_op and log_write. */
module LogSpace {
  import opened Common
  import opened Bytes
  import opened Journal
  import opened JournalRuns

  /** What the open operations may still add to the log. */
  ghost function Unspent(ops: map<nat, nat>): nat
    requires forall op | op in ops :: ops[op] <= MAXOPBLOCKS
    decreases |ops|
  {
    if ops == map[] then 0
    else
      var op :| op in ops;
      assert (ops - {op}).Keys == ops.Keys - {op};
      MAXOPBLOCKS - ops[op] + Unspent(ops - {op})
  }

  /** The sum does not depend on the order in which it is taken. */
  lemma {:induction false} UnspentSplit(ops: map<nat, nat>, op: nat)
    requires (forall o | o in ops :: ops[o] <= MAXOPBLOCKS) && op in ops
    ensures Unspent(ops) == MAXOPBLOCKS - ops[op] + Unspent(ops - {op})
    decreases |ops|
  {
    var o :| o in ops && Unspent(ops) == MAXOPBLOCKS - ops[o] + Unspent(ops - {o});
    assert (ops - {o}).Keys == ops.Keys - {o};
    if o != op {
      UnspentSplit(ops - {o}, op);
      assert (ops - {op}).Keys == ops.Keys - {op};
      UnspentSplit(ops - {op}, o);
      assert ops - {o} - {op} == ops - {op} - {o};
    }
  }

  lemma UnspentPut(ops: map<nat, nat>, op: nat, n: nat)
    requires (forall o | o in ops :: ops[o] <= MAXOPBLOCKS) && n <= MAXOPBLOCKS
    ensures Unspent(ops[op := n]) == MAXOPBLOCKS - n + Unspent(ops - {op})
  {
    UnspentSplit(ops[op := n], op);
    assert ops[op := n] - {op} == ops - {op};
  }

  lemma {:induction false} UnspentBound(ops: map<nat, nat>)
    requires forall o | o in ops :: ops[o] <= MAXOPBLOCKS
    ensures Unspent(ops) <= |ops| * MAXOPBLOCKS
    decreases |ops|
  {
    if ops != map[] {
      var op :| op in ops;
      UnspentSplit(ops, op);
      assert (ops - {op}).Keys == ops.Keys - {op};
      UnspentBound(ops - {op});
    }
  }

  /** The log has room for everything the open operations may still add. */
  ghost predicate Budget(s: Sys) {
    && (forall op | op in s.ops :: s.ops[op] <= MAXOPBLOCKS)
    && |s.lh| + Unspent(s.ops) <= LOGSIZE
  }

  lemma BudgetBegin(s: Sys, op: nat)
    requires Budget(s) && Admits(s) && op !in s.ops
    ensures Budget(s.(ops := s.ops[op := 0]))
  {
    UnspentPut(s.ops, op, 0);
    assert s.ops - {op} == s.ops;
    UnspentBound(s.ops);
  }

  lemma BudgetWrite(s: Sys, op: nat, b: nat)
    requires Budget(s) && op in s.ops && s.ops[op] < MAXOPBLOCKS
    ensures Budget(s.(lh := s.lh + [b], ops := s.ops[op := s.ops[op] + 1]))
  {
    UnspentPut(s.ops, op, s.ops[op] + 1);
    UnspentSplit(s.ops, op);
  }

  /** A step that adds a block to the log is within its operation's share. */
  predicate InShare(s: Sys, step: Step) {
    step.Write? && step.b !in s.lh && step.op in s.ops ==> s.ops[step.op] < MAXOPBLOCKS
  }

  ghost predicate SharesKept(tr: seq<Sys>, st: seq<Step>) {
    forall k | 0 <= k < |st| && k < |tr| :: InShare(tr[k], st[k])
  }

  /** Steps that are not an operation's add nothing to the log, or start over with no operation open. */
  lemma OtherStep(ar: Area, s: Sys, s': Sys, step: Step)
    requires Inv(ar, s) && Next(ar, s, s', step) && !step.Begin? && !step.Write? && !step.End?
    ensures (s'.ops == s.ops && |s'.lh| <= |s.lh|) || (s'.ops == map[] && |s'.lh| <= LOGSIZE)
  {
    hide Blocks, Header, DiskOk, CacheOk, Pinned, Copied, Installed, Distinct;
  }

  lemma BudgetStep(ar: Area, s: Sys, s': Sys, step: Step)
    requires Inv(ar, s) && Next(ar, s, s', step) && Budget(s) && InShare(s, step)
    ensures Budget(s')
  {
    hide Inv, Header, Unspent;
    match step
    case Begin(op) =>
      BudgetBegin(s, op);
    case Write(op, b, x) =>
      if b !in s.lh { BudgetWrite(s, op, b); }
    case End(op) =>
      UnspentSplit(s.ops, op);
    case _ =>
      OtherStep(ar, s, s', step);
      if s'.ops == map[] { NothingOpen(s'); }
  }

  lemma NothingOpen(s: Sys)
    requires s.ops == map[]
    ensures Unspent(s.ops) == 0
  {
  }

  /** In every run in which each operation adds at most MAXOPBLOCKS blocks, the
      budget is kept and a commit runs only when no operation is open. */
  lemma {:induction false} BudgetKept(ar: Area, tr: seq<Sys>, st: seq<Step>, i: nat)
    requires IsRun(ar, tr, st) && SharesKept(tr, st) && Inv(ar, tr[0]) && Budget(tr[0]) && i < |tr|
    ensures Inv(ar, tr[i]) && Budget(tr[i]) && Distinct(tr[i].lh)
    ensures !tr[i].phase.Running? ==> tr[i].ops == map[]
  {
    hide Next, Blocks, Unspent, CacheOk, Pinned, Copied, Installed, DiskOk;
    RunKeepsInv(ar, tr, st, i);
    if i > 0 {
      BudgetKept(ar, tr, st, i - 1);
      RunKeepsInv(ar, tr, st, i - 1);
      BudgetStep(ar, tr[i - 1], tr[i], st[i - 1]);
    }
  }

  /** log_write of a block that is new to the log, by an operation that has not
      used up its share: it panics if and only if the log area is too small for
      the blocks logged so far.  With an area of LOGSIZE + 1 blocks it never does. */
  lemma NewBlockPanics(ar: Area, s: Sys, op: nat)
    requires Budget(s) && op in s.ops && s.ops[op] < MAXOPBLOCKS
    ensures !NoPanic(ar, s) <==> ar.size <= |s.lh| + 1
    ensures ar.size >= LOGSIZE + 1 ==> NoPanic(ar, s)
  {
    UnspentSplit(s.ops, op);
    assert |s.ops.Keys| >= |{op}|;
  }

  /** With the area of LOGSIZE blocks that mkfs reserves, it panics exactly
      when all but one of the LOGSIZE entries are taken. */
  lemma MkfsAreaPanics(ar: Area, s: Sys, op: nat)
    requires Budget(s) && op in s.ops && s.ops[op] < MAXOPBLOCKS && ar.size == LOGSIZE
    ensures !NoPanic(ar, s) <==> |s.lh| == LOGSIZE - 1
  {
    NewBlockPanics(ar, s, op);
    UnspentSplit(s.ops, op);
  }

  // ---------- The panic is reachable ----------

  function FilledList(base: nat, n: nat): (lh: seq<nat>)
    ensures |lh| == n && forall i | 0 <= i < n :: lh[i] == base + i
  {
    if n == 0 then [] else FilledList(base, n - 1) + [base + n - 1]
  }

  function FilledCache(base: nat, n: nat): map<nat, Buf> {
    if n == 0 then map[] else FilledCache(base, n - 1)[base + n - 1 := Buf(ZeroBlock(), true)]
  }

  /** n blocks logged by three operations, ten each, from block `base` on. */
  ghost function Filled(d: Disk, base: nat, n: nat): Sys
    requires n <= LOGSIZE
  {
    Sys(d, FilledCache(base, n), FilledList(base, n),
        map[0 := Min(n, 10), 1 := if n < 10 then 0 else Min(n - 10, 10), 2 := if n < 20 then 0 else n - 20],
        Running)
  }

  lemma ThreeBegins(ar: Area, d: Disk) returns (tr: seq<Sys>, st: seq<Step>)
    ensures IsRun(ar, tr, st) && SharesKept(tr, st) && tr[0] == Sys(d, map[], [], map[], Running) && tr[|st|] == Filled(d, 0, 0)
  {
    var s0 := Sys(d, map[], [], map[], Running);
    var s1 := s0.(ops := s0.ops[0 := 0]);
    var s2 := s1.(ops := s1.ops[1 := 0]);
    var s3 := s2.(ops := s2.ops[2 := 0]);
    assert Next(ar, s0, s1, Begin(0)) && Next(ar, s1, s2, Begin(1)) && Next(ar, s2, s3, Begin(2));
    tr, st := [s0, s1, s2, s3], [Begin(0), Begin(1), Begin(2)];
  }

  /** Three operations that stay within their shares can fill the log up to its limits. */
  lemma {:induction false} CanFill(ar: Area, d: Disk, base: nat, n: nat) returns (tr: seq<Sys>, st: seq<Step>)
    requires ar.start + ar.size <= base && base + LOGSIZE <= |d|
    requires n <= LOGSIZE && n < ar.size
    ensures IsRun(ar, tr, st) && SharesKept(tr, st) && tr[0] == Sys(d, map[], [], map[], Running)
    ensures tr[|st|] == Filled(d, base, n)
  {
    hide Next, ZeroBlock;
    if n == 0 {
      tr, st := ThreeBegins(ar, d);
    } else {
      tr, st := CanFill(ar, d, base, n - 1);
      FillOne(ar, d, base, n);
      tr, st := tr + [Filled(d, base, n)], st + [Write((n - 1) / 10, base + n - 1, ZeroBlock())];
    }
  }

  lemma FillOne(ar: Area, d: Disk, base: nat, n: nat)
    requires ar.start + ar.size <= base && base + LOGSIZE <= |d|
    requires 0 < n <= LOGSIZE && n < ar.size
    ensures Next(ar, Filled(d, base, n - 1), Filled(d, base, n), Write((n - 1) / 10, base + n - 1, ZeroBlock()))
    ensures InShare(Filled(d, base, n - 1), Write((n - 1) / 10, base + n - 1, ZeroBlock()))
  {
    hide ZeroBlock;
    var s, s', op := Filled(d, base, n - 1), Filled(d, base, n), (n - 1) / 10;
    assert s'.ops == s.ops[op := s.ops[op] + 1];
  }

  lemma FreshStart(ar: Area, d: Disk)
    requires DiskOk(ar, d) && Blocks(d[ar.start]) == [] && |d| <= TWO32
    ensures Inv(ar, Sys(d, map[], [], map[], Running)) && Budget(Sys(d, map[], [], map[], Running))
  {
  }

  /** With the area mkfs reserves, a run in which every operation stays within
      its share reaches a state where logging one more block panics. */
  lemma PanicWithinShare(d: Disk) returns (ar: Area, tr: seq<Sys>, st: seq<Step>)
    requires 100 <= |d| <= TWO32 && Blocks(d[2]) == []
    ensures ar == Area(2, LOGSIZE) && IsRun(ar, tr, st) && SharesKept(tr, st) && Inv(ar, tr[0]) && Budget(tr[0]) && tr[0].ops == map[]
    ensures 2 in tr[|st|].ops && tr[|st|].ops[2] < MAXOPBLOCKS && !NoPanic(ar, tr[|st|])
  {
    ar := Area(2, LOGSIZE);
    FreshStart(ar, d);
    tr, st := CanFill(ar, d, 50, LOGSIZE - 1);
  }

  /** With any larger area, logging a block again, which adds nothing, still
      panics once all LOGSIZE entries are taken. */
  lemma PanicOnAbsorption(d: Disk, size: nat) returns (ar: Area, tr: seq<Sys>, st: seq<Step>)
    requires size > LOGSIZE && 2 + size + LOGSIZE <= |d| <= TWO32 && Blocks(d[2]) == []
    ensures ar == Area(2, size) && IsRun(ar, tr, st) && SharesKept(tr, st) && Inv(ar, tr[0]) && Budget(tr[0]) && tr[0].ops == map[]
    ensures 2 + size in tr[|st|].lh && 2 in tr[|st|].ops && !NoPanic(ar, tr[|st|])
  {
    ar := Area(2, size);
    FreshStart(ar, d);
    tr, st := CanFill(ar, d, 2 + size, LOGSIZE);
    assert tr[|st|].lh[0] == 2 + size;
  }
}
