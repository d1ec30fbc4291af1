/** log.c operating in place: each method's disk writes are steps of the
    system in Journal, recorded in a ghost history. */
module Log {
  import opened Common
  import opened Bytes
  import opened Journal
  import opened JournalRuns
  import opened Outcomes

  class Log {
    const ar: Area
    var disk: Disk
    var cache: map<nat, Buf>
    var lh: seq<nat>           // lh.block[..lh.n]
    var outstanding: nat
    var committing: bool
    ghost var ops: map<nat, nat>
    ghost var phase: Phase
    ghost var tr: seq<Sys>
    ghost var st: seq<Step>

    ghost function Snap(): Sys
      reads this
    {
      Sys(disk, cache, lh, ops, phase)
    }

    ghost predicate Valid()
      reads this
    {
      && Inv(ar, Snap()) && outstanding == |ops|
      && IsRun(ar, tr, st) && Inv(ar, tr[0]) && tr[|st|] == Snap()
      && (phase.Copying? || phase.Installing? ==> committing)
      && (committing ==> outstanding == 0 && !phase.Down? && !phase.Recovering?)
    }

    /** Power-up: only the disk is there. */
    constructor (ar: Area, image: Disk)
      requires DiskOk(ar, image) && |image| <= TWO32
      ensures Valid() && phase.Down? && disk == image && st == []
    {
      this.ar, disk, cache, lh, outstanding, committing := ar, image, map[], [], 0, false;
      ops, phase, tr, st := map[], Down, [Sys(image, map[], [], map[], Down)], [];
    }

    /** Append the current state to the history. */
    ghost method Record(step: Step)
      requires IsRun(ar, tr, st) && Inv(ar, tr[0]) && Inv(ar, tr[|st|]) && Next(ar, tr[|st|], Snap(), step)
      modifies this`tr, this`st
      ensures tr == old(tr) + [Snap()] && st == old(st) + [step]
      ensures IsRun(ar, tr, st) && tr[0] == old(tr)[0] && tr[|st|] == Snap() && Inv(ar, Snap())
      ensures |disk| == |old(tr)[|old(st)|].disk|
      ensures forall b: nat | IsHome(ar, old(tr)[|old(st)|], b) ::
        Recovered(ar, disk, b) == if step.Commit? then old(tr)[|old(st)|].Read(b) else Recovered(ar, old(tr)[|old(st)|].disk, b)
    {
      hide Inv, Next, Recovered;
      StepKeeps(ar, tr[|st|], Snap(), step);
      tr, st := tr + [Snap()], st + [step];
    }

    /** Return the contents of a block, from the cache or from the disk. */
    method Bread(b: nat) returns (x: Block)
      requires Valid() && !phase.Down? && b < |disk|
      modifies this`cache, this`tr, this`st
      ensures Valid() && b in cache && x == cache[b].data == old(Snap().Read(b))
      ensures forall c: nat | c < |disk| :: Snap().Read(c) == old(Snap().Read(c))
      ensures old(tr) <= tr && old(st) <= st && forall k | |old(st)| <= k < |st| :: !st[k].Commit? && !st[k].Crash?
    {
      hide Inv;
      if b !in cache {
        cache := cache[b := Buf(disk[b], false)];
        Record(Load(b));
      }
      x := cache[b].data;
    }

    /** One turn of the loop of begin_op: let the operation in, or sleep. */
    method BeginOp(ghost op: nat) returns (ok: bool)
      requires Valid() && !phase.Down? && !phase.Recovering? && op !in ops
      modifies this`outstanding, this`ops, this`tr, this`st
      ensures Valid() && ok == (!committing && old(Admits(Snap())))
      ensures Snap() == if ok then old(Snap()).(ops := old(ops)[op := 0]) else old(Snap())
    {
      hide Inv, Next, IsRun;
      if committing {
        ok := false;
      } else if |lh| + (outstanding + 1) * MAXOPBLOCKS > LOGSIZE {
        ok := false;
      } else {
        AdmitStep(ar, Snap(), op);
        outstanding := outstanding + 1;
        ops := ops[op := 0];
        Record(Begin(op));
        ok := true;
      }
    }

    /** Log a block the caller has modified. */
    method LogWrite(ghost op: nat, b: nat, x: Block) returns (r: Outcome<()>)
      requires Valid() && phase.Running? && IsHome(ar, Snap(), b) && op in ops
      modifies this`cache, this`lh, this`ops, this`tr, this`st
      ensures Valid() && disk == old(disk) && phase == old(phase)
      ensures r.Panic? <==> !old(NoPanic(ar, Snap()))
      ensures r.Panic? ==> Snap() == old(Snap())
      ensures r.Done? ==> b in lh && cache == old(cache)[b := Buf(x, true)] && (lh == old(lh) || lh == old(lh) + [b])
    {
      hide Inv;
      if |lh| >= LOGSIZE || |lh| >= ar.size - 1 { return Panic; }
      if outstanding < 1 { return Panic; }
      var i := 0;
      while i < |lh| && lh[i] != b
        invariant 0 <= i <= |lh| && b !in lh[..i]
      {
        i := i + 1;
      }
      if i == |lh| {
        ops := ops[op := ops[op] + 1];
        lh := lh + [b];
      }
      cache := cache[b := Buf(x, true)];
      Record(Write(op, b, x));
      return Done(());
    }

    /** The history from step i on has no Commit and no Crash. */
    ghost predicate Quiet(i: nat)
      reads this
    {
      i <= |st| && forall k | i <= k < |st| :: !st[k].Commit? && !st[k].Crash?
    }

    /** Write the content of a logged block to slot tail. */
    method StoreSlot(tail: nat, from: Block)
      requires Valid() && phase == Copying(tail) && tail < |lh|
      requires ar.Slot(tail) < |disk| && lh[tail] < |disk| && from == Snap().Read(lh[tail])
      modifies this`disk, this`cache, this`phase, this`tr, this`st
      ensures Valid() && phase == Copying(tail + 1) && |disk| == |old(disk)|
      ensures forall b: nat | IsHome(ar, Snap(), b) :: disk[b] == old(disk)[b] && Snap().Read(b) == old(Snap().Read(b))
      ensures tr == old(tr) + [Snap()] && st == old(st) + [CopyOne]
    {
      hide Inv, Recovered, Next, IsRun;
      LogBounds(ar, Snap());
      CopyNext(ar, Snap(), from);
      cache := cache[ar.Slot(tail) := Buf(from, false)];
      disk := disk[ar.Slot(tail) := from];
      phase := Copying(tail + 1);
      Record(CopyOne);
    }

    /** One round of write_log. */
    method CopyBlock(tail: nat)
      requires Valid() && phase == Copying(tail) && tail < |lh|
      modifies this`disk, this`cache, this`phase, this`tr, this`st
      ensures Valid() && phase == Copying(tail + 1) && |disk| == |old(disk)|
      ensures forall b: nat | IsHome(ar, Snap(), b) :: disk[b] == old(disk)[b] && Snap().Read(b) == old(Snap().Read(b))
      ensures old(tr) <= tr && old(st) <= st && Quiet(|old(st)|)
    {
      hide Inv, Recovered, Next, IsRun;
      LogBounds(ar, Snap());
      var to := Bread(ar.Slot(tail));
      var from := Bread(lh[tail]);
      StoreSlot(tail, from);
    }

    /** Copy modified blocks from cache to log. */
    method WriteLog()
      requires Valid() && phase == Copying(0)
      modifies this`disk, this`cache, this`phase, this`tr, this`st
      ensures Valid() && phase == Copying(|lh|) && |disk| == |old(disk)|
      ensures forall b: nat | IsHome(ar, Snap(), b) :: disk[b] == old(disk)[b] && Snap().Read(b) == old(Snap().Read(b))
      ensures old(tr) <= tr && old(st) <= st && Quiet(|old(st)|)
    {
      hide Inv;
      var tail := 0;
      CopyingIn(ar, Snap());
      while tail < |lh|
        invariant 0 <= tail <= |lh| && Valid() && phase == Copying(tail) && |disk| == |old(disk)|
        invariant forall b: nat | IsHome(ar, Snap(), b) :: disk[b] == old(disk)[b] && Snap().Read(b) == old(Snap().Read(b))
        invariant old(tr) <= tr && old(st) <= st && Quiet(|old(st)|)
      {
        CopyBlock(tail);
        tail := tail + 1;
      }
    }

    /** Copy the in-memory header over a header block. */
    method FillHead(hb: Block) returns (h: Block)
      requires |lh| <= LOGSIZE && forall i | 0 <= i < |lh| :: lh[i] < TWO32
      ensures h == Header(hb, lh)
    {
      hide PutWord;
      h := PutWord(hb, 0, |lh|);
      var i := 0;
      while i < |lh|
        invariant 0 <= i <= |lh| && h == PutBlocks(PutWord(hb, 0, |lh|), lh, i)
      {
        h := PutWord(h, 1 + i, lh[i]);
        i := i + 1;
      }
    }

    /** Write a header with the first n logged blocks, where hb is the header block so far. */
    method StoreHead(n: nat, hb: Block)
      requires Valid() && (phase.Copying? || phase.Installing? || phase.Recovering?) && phase.k == |lh|
      requires n == (if phase.Copying? then |lh| else 0) && ar.start < |disk| && hb == Snap().Read(ar.start)
      modifies this`disk, this`cache, this`lh, this`phase, this`tr, this`st
      ensures Valid() && |disk| == |old(disk)| && LogFits(ar, disk)
      ensures tr == old(tr) + [Snap()] && st == old(st) + [if old(phase.Copying?) then Commit else Clear]
      ensures old(phase.Copying?) ==> phase == Installing(0) && lh == old(lh)
      ensures !old(phase.Copying?) ==> phase == Running && lh == []
      ensures forall b: nat | IsHome(ar, Snap(), b) :: disk[b] == old(disk)[b]
      ensures forall b: nat | IsHome(ar, Snap(), b) ::
        Recovered(ar, disk, b) == if old(phase.Copying?) then old(Snap().Read(b)) else old(Recovered(ar, disk, b))
    {
      hide Inv, Recovered, Next, Header, IsRun;
      LogBounds(ar, Snap());
      ghost var lh0, step := lh, if phase.Copying? then Commit else Clear;
      HeadNext(ar, Snap(), hb);
      lh := lh[..n];
      assert lh == if phase.Copying? then lh0 else [];
      var h := FillHead(hb);
      cache := cache[ar.start := Buf(h, false)];
      disk := disk[ar.start := h];
      phase := if phase.Copying? then Installing(0) else Running;
      Record(step);
      LogBounds(ar, Snap());
    }

    /** Write the first n in-memory header entries to disk.  With n == lh.n
        after write_log this is the commit; with n == 0 after install_trans it
        erases the transaction. */
    method WriteHead(n: nat)
      requires Valid() && (phase.Copying? || phase.Installing? || phase.Recovering?) && phase.k == |lh|
      requires n == if phase.Copying? then |lh| else 0
      modifies this`disk, this`cache, this`lh, this`phase, this`tr, this`st
      ensures Valid() && |disk| == |old(disk)| && old(tr) <= tr && old(st) <= st
      ensures old(phase.Copying?) ==> phase == Installing(0) && lh == old(lh) && st[|st| - 1] == Commit
      ensures !old(phase.Copying?) ==> phase == Running && lh == [] && Quiet(|old(st)|)
      ensures forall b: nat | IsHome(ar, Snap(), b) :: disk[b] == old(disk)[b]
      ensures forall b: nat | IsHome(ar, Snap(), b) ::
        Recovered(ar, disk, b) == if old(phase.Copying?) then old(Snap().Read(b)) else old(Recovered(ar, disk, b))
    {
      hide Inv, Recovered, Next, Header, IsRun;
      LogBounds(ar, Snap());
      var hb := Bread(ar.start);
      StoreHead(n, hb);
    }

    /** Write what slot tail holds to its home block. */
    method StoreHome(tail: nat, lbuf: Block)
      requires Valid() && (phase == Installing(tail) || phase == Recovering(tail)) && tail < |lh|
      requires ar.Slot(tail) < |disk| && lh[tail] < |disk| && lbuf == Snap().Read(ar.Slot(tail))
      modifies this`disk, this`cache, this`phase, this`tr, this`st
      ensures Valid() && phase == (if old(phase).Installing? then Installing(tail + 1) else Recovering(tail + 1))
      ensures |disk| == |old(disk)| && tr == old(tr) + [Snap()] && st == old(st) + [InstallOne]
      ensures LogFits(ar, disk) && forall b: nat | IsHome(ar, Snap(), b) :: Recovered(ar, disk, b) == old(Recovered(ar, disk, b))
    {
      hide Inv, Recovered, Next, IsRun;
      LogBounds(ar, Snap());
      InstallNext(ar, Snap(), lbuf);
      cache := cache[lh[tail] := Buf(lbuf, false)];
      disk := disk[lh[tail] := lbuf];
      phase := if phase.Installing? then Installing(tail + 1) else Recovering(tail + 1);
      Record(InstallOne);
      LogBounds(ar, Snap());
    }

    /** One round of install_trans. */
    method InstallBlock(tail: nat)
      requires Valid() && (phase == Installing(tail) || phase == Recovering(tail)) && tail < |lh|
      modifies this`disk, this`cache, this`phase, this`tr, this`st
      ensures Valid() && phase == (if old(phase).Installing? then Installing(tail + 1) else Recovering(tail + 1))
      ensures |disk| == |old(disk)| && old(tr) <= tr && old(st) <= st && Quiet(|old(st)|)
      ensures forall b: nat | IsHome(ar, Snap(), b) :: Recovered(ar, disk, b) == old(Recovered(ar, disk, b))
    {
      hide Inv, Recovered, Next, IsRun;
      LogBounds(ar, Snap());
      var lbuf := Bread(ar.Slot(tail));
      var dbuf := Bread(lh[tail]);
      StoreHome(tail, lbuf);
    }

    /** Copy committed blocks from log to their home location. */
    method InstallTrans()
      requires Valid() && (phase == Installing(0) || phase == Recovering(0))
      modifies this`disk, this`cache, this`phase, this`tr, this`st
      ensures Valid() && phase == (if old(phase).Installing? then Installing(|lh|) else Recovering(|lh|))
      ensures |disk| == |old(disk)| && old(tr) <= tr && old(st) <= st && Quiet(|old(st)|)
      ensures forall b: nat | IsHome(ar, Snap(), b) :: Recovered(ar, disk, b) == old(Recovered(ar, disk, b))
    {
      hide Inv, Recovered, IsRun;
      LogBounds(ar, Snap());
      var tail := 0;
      while tail < |lh|
        invariant 0 <= tail <= |lh| && Valid() && phase == (if old(phase).Installing? then Installing(tail) else Recovering(tail))
        invariant |disk| == |old(disk)| && old(tr) <= tr && old(st) <= st && Quiet(|old(st)|)
        invariant LogFits(ar, disk) && forall b: nat | IsHome(ar, Snap(), b) :: Recovered(ar, disk, b) == old(Recovered(ar, disk, b))
      {
        InstallBlock(tail);
        LogBounds(ar, Snap());
        tail := tail + 1;
      }
    }

    /** Write the transaction to the log, commit it, install it and erase it:
        every home block ends up with what the cache held for it. */
    method CommitTx()
      requires Valid() && committing && phase == (if lh == [] then Running else Copying(0))
      modifies this`disk, this`cache, this`lh, this`phase, this`tr, this`st
      ensures Valid() && phase == Running && lh == [] && |disk| == |old(disk)| && old(tr) <= tr && old(st) <= st
      ensures forall b: nat | IsHome(ar, Snap(), b) :: disk[b] == old(Snap().Read(b))
    {
      hide Inv, Recovered, IsRun;
      if |lh| > 0 {
        WriteLog();
        WriteHead(|lh|);
        InstallTrans();
        WriteHead(0);
      }
      Quiescent(ar, Snap());
    }

    /** Close an operation; the last one commits. */
    method EndOp(ghost op: nat) returns (r: Outcome<()>)
      requires Valid() && phase.Running? && op in ops
      modifies this
      ensures Valid() && r.Done? && ops == old(ops) - {op} && phase.Running? && !committing
      ensures |disk| == |old(disk)| && old(tr) <= tr && old(st) <= st
      ensures |old(ops)| > 1 ==> disk == old(disk) && lh == old(lh)
      ensures |old(ops)| == 1 ==> lh == [] && forall b: nat | IsHome(ar, Snap(), b) :: disk[b] == old(Snap().Read(b))
    {
      hide Inv, Recovered, Next, IsRun;
      EndNext(ar, Snap(), op);
      outstanding := outstanding - 1;
      if committing { return Panic; }
      ops := ops - {op};
      if outstanding == 0 {
        committing := true;
        phase := if |lh| > 0 then Copying(0) else Running;
        Record(End(op));
        CommitTx();
        committing := false;
      } else {
        Record(End(op));
      }
      return Done(());
    }

    /** Power loss: memory is gone. */
    method LosePower()
      requires Valid()
      modifies this`cache, this`lh, this`outstanding, this`committing, this`ops, this`phase, this`tr, this`st
      ensures Valid() && phase.Down? && disk == old(disk) && tr == old(tr) + [Snap()] && st == old(st) + [Crash]
    {
      hide Inv, Recovered, IsRun;
      cache, lh, outstanding, committing, ops, phase := map[], [], 0, false, map[], Down;
      Record(Crash);
    }

    /** recover_from_log: install what was committed, then clear the log. */
    method RecoverFromLog()
      requires Valid() && phase.Down?
      modifies this`disk, this`cache, this`lh, this`phase, this`tr, this`st
      ensures Valid() && phase == Running && lh == [] && |disk| == |old(disk)| && old(tr) <= tr && old(st) <= st
      ensures forall b: nat | IsHome(ar, Snap(), b) :: disk[b] == old(Recovered(ar, disk, b))
    {
      hide Inv, Recovered, Next, IsRun;
      ReadHeadNext(ar, Snap());
      var h := disk[ar.start];
      lh := Blocks(h);
      phase := Recovering(0);
      Record(ReadHead);
      InstallTrans();
      WriteHead(0);
      Quiescent(ar, Snap());
    }
  }

  lemma EndNext(ar: Area, s: Sys, op: nat)
    requires s.phase.Running? && op in s.ops
    ensures |s.ops - {op}| == |s.ops| - 1
    ensures Next(ar, s, s.(ops := s.ops - {op}, phase := if |s.ops| == 1 && |s.lh| > 0 then Copying(0) else Running), End(op))
  {
    assert (s.ops - {op}).Keys == s.ops.Keys - {op};
  }

  lemma ReadHeadNext(ar: Area, s: Sys)
    requires Inv(ar, s) && s.phase.Down?
    ensures ar.start < |s.disk| && Next(ar, s, s.(lh := Blocks(s.disk[ar.start]), phase := Recovering(0)), ReadHead)
  {
    hide Blocks;
  }

  lemma InstallNext(ar: Area, s: Sys, x: Block)
    requires Inv(ar, s) && (s.phase.Installing? || s.phase.Recovering?) && s.phase.k < |s.lh|
    requires ar.Slot(s.phase.k) < |s.disk| && s.lh[s.phase.k] < |s.disk| && x == s.Read(ar.Slot(s.phase.k))
    ensures var t := s.lh[s.phase.k];
      Next(ar, s, s.(disk := s.disk[t := x], cache := s.cache[t := Buf(x, false)],
                     phase := if s.phase.Installing? then Installing(s.phase.k + 1) else Recovering(s.phase.k + 1)), InstallOne)
  {
    hide Inv;
  }

  /** With nothing logged, cache, disk and recovered disk agree. */
  lemma Quiescent(ar: Area, s: Sys)
    requires Inv(ar, s) && s.phase.Running? && s.lh == []
    ensures forall b: nat | IsHome(ar, s, b) :: s.disk[b] == s.Read(b) == Recovered(ar, s.disk, b)
  {
    hide Blocks;
  }

  /** Facts about positions that the methods index with. */
  lemma LogBounds(ar: Area, s: Sys)
    requires Inv(ar, s)
    ensures ar.start < ar.start + ar.size <= |s.disk| <= TWO32 && |s.lh| <= LOGSIZE && LogFits(ar, s.disk)
    ensures forall i | 0 <= i < |s.lh| :: ar.Slot(i) < |s.disk| && s.lh[i] < |s.disk| && s.lh[i] < TWO32 && IsHome(ar, s, s.lh[i])
  {
    hide Blocks;
  }

  lemma CopyNext(ar: Area, s: Sys, x: Block)
    requires Inv(ar, s) && s.phase.Copying? && s.phase.k < |s.lh| && s.lh[s.phase.k] < |s.disk| && x == s.Read(s.lh[s.phase.k])
    requires ar.Slot(s.phase.k) < |s.disk|
    ensures var t := ar.Slot(s.phase.k);
      var s' := s.(disk := s.disk[t := x], cache := s.cache[t := Buf(x, false)], phase := Copying(s.phase.k + 1));
      && Next(ar, s, s', CopyOne)
      && forall b: nat | IsHome(ar, s, b) :: s'.disk[b] == s.disk[b] && s'.Read(b) == s.Read(b)
  {
    hide Inv, Recovered;
    LogBounds(ar, s);
    SlotsAreLog(ar, s);
  }

  lemma SlotsAreLog(ar: Area, s: Sys)
    requires Inv(ar, s)
    ensures forall i | 0 <= i < |s.lh| :: ar.Contains(ar.Slot(i))
  {
    hide Blocks;
  }

  lemma HeadNext(ar: Area, s: Sys, hb: Block)
    requires Inv(ar, s) && ar.start < |s.disk| && hb == s.Read(ar.start)
    requires (s.phase.Copying? || s.phase.Installing? || s.phase.Recovering?) && s.phase.k == |s.lh| <= LOGSIZE
    requires forall i | 0 <= i < |s.lh| :: s.lh[i] < TWO32
    ensures var bs := if s.phase.Copying? then s.lh else [];
      var h := Header(hb, bs);
      var s' := s.(disk := s.disk[ar.start := h], cache := s.cache[ar.start := Buf(h, false)], lh := bs,
                   phase := if s.phase.Copying? then Installing(0) else Running);
      && Next(ar, s, s', if s.phase.Copying? then Commit else Clear)
      && forall b: nat | IsHome(ar, s, b) :: s'.disk[b] == s.disk[b]
  {
    hide Inv, Header, Recovered;
    LogBounds(ar, s);
  }

  lemma CopyingIn(ar: Area, s: Sys)
    requires Inv(ar, s) && s.phase.Copying?
    ensures s.phase.k <= |s.lh|
  {
  }

  lemma AdmitStep(ar: Area, s: Sys, op: nat)
    requires Admits(s) && op !in s.ops
    ensures Next(ar, s, s.(ops := s.ops[op := 0]), Begin(op)) && |s.ops[op := 0]| == |s.ops| + 1
  {
    assert s.ops[op := 0].Keys == s.ops.Keys + {op};
  }
}
