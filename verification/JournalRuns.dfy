/** Whole runs of the redo log, with crashes anywhere and recoveries that may
    crash and start again. */
module JournalRuns {
  import opened Common
  import opened Bytes
  import opened Journal

  ghost predicate IsRun(ar: Area, tr: seq<Sys>, st: seq<Step>) {
    |tr| == |st| + 1 && forall i | 0 <= i < |st| :: Next(ar, tr[i], tr[i + 1], st[i])
  }

  lemma {:induction false} RunKeepsInv(ar: Area, tr: seq<Sys>, st: seq<Step>, i: nat)
    requires IsRun(ar, tr, st) && Inv(ar, tr[0]) && i < |tr|
    ensures Inv(ar, tr[i]) && |tr[i].disk| == |tr[0].disk|
  {
    hide Inv, Next;
    if i > 0 {
      RunKeepsInv(ar, tr, st, i - 1);
      StepKeeps(ar, tr[i - 1], tr[i], st[i - 1]);
    }
  }

  /** Without a Commit the home blocks recovery yields do not change. */
  lemma {:induction false} QuietRun(ar: Area, tr: seq<Sys>, st: seq<Step>, i: nat, j: nat, b: nat)
    requires IsRun(ar, tr, st) && Inv(ar, tr[0]) && i <= j < |tr| && IsHome(ar, tr[0], b)
    requires forall k | i <= k < j :: !st[k].Commit?
    ensures Inv(ar, tr[i]) && Inv(ar, tr[j]) && |tr[i].disk| == |tr[j].disk| == |tr[0].disk|
    ensures Recovered(ar, tr[j].disk, b) == Recovered(ar, tr[i].disk, b)
    decreases j - i
  {
    hide Recovered, Next, PhaseOk, CacheOk, ListOk;
    RunKeepsInv(ar, tr, st, i);
    RunKeepsInv(ar, tr, st, j);
    if i < j {
      QuietRun(ar, tr, st, i, j - 1, b);
      StepKeeps(ar, tr[j - 1], tr[j], st[j - 1]);
    }
  }

  /** While operations run and while write_log copies, the disk itself holds
      the home blocks that recovery would yield. */
  lemma HomeIsRecovered(ar: Area, s: Sys, b: nat)
    requires Inv(ar, s) && (s.phase.Running? || s.phase.Copying?) && IsHome(ar, s, b)
    ensures Recovered(ar, s.disk, b) == s.disk[b]
  {
  }

  /** The content the cache gives a block at a Commit: the logged content, or the old block. */
  lemma ReadAtCommit(ar: Area, s: Sys, b: nat)
    requires Inv(ar, s) && s.phase.Copying? && IsHome(ar, s, b)
    ensures s.ops == map[]
    ensures b in s.lh ==> b in s.cache && s.Read(b) == s.cache[b].data
    ensures b !in s.lh ==> s.Read(b) == s.disk[b]
  {
    hide Blocks, DiskOk, Distinct;
  }

  /** Crash atomicity, old side: a run without a Commit, however often it
      crashes, leaves every home block as it was. */
  lemma NothingWithoutCommit(ar: Area, tr: seq<Sys>, st: seq<Step>, b: nat)
    requires IsRun(ar, tr, st) && Inv(ar, tr[0]) && tr[0].phase.Running? && tr[|st|].phase.Running?
    requires forall k | 0 <= k < |st| :: !st[k].Commit?
    requires IsHome(ar, tr[0], b)
    ensures |tr[|st|].disk| == |tr[0].disk| && tr[|st|].disk[b] == tr[0].disk[b]
  {
    hide Recovered, Next, PhaseOk, CacheOk, ListOk, DiskOk;
    QuietRun(ar, tr, st, 0, |st|, b);
    HomeIsRecovered(ar, tr[0], b);
    HomeIsRecovered(ar, tr[|st|], b);
  }

  /** Crash atomicity, new side: once the header of a transaction has reached
      the disk, every later state in which the system runs again, after any
      number of crashes and interrupted recoveries, has every logged block new
      and every other home block as it was before the commit. */
  lemma EverythingAfterCommit(ar: Area, tr: seq<Sys>, st: seq<Step>, c: nat, b: nat)
    requires IsRun(ar, tr, st) && Inv(ar, tr[0]) && tr[|st|].phase.Running?
    requires c < |st| && st[c].Commit? && forall k | c < k < |st| :: !st[k].Commit?
    requires IsHome(ar, tr[0], b)
    ensures |tr[|st|].disk| == |tr[c].disk| == |tr[0].disk| && tr[c].ops == map[]
    ensures b in tr[c].lh ==> b in tr[c].cache && tr[|st|].disk[b] == tr[c].cache[b].data
    ensures b !in tr[c].lh ==> tr[|st|].disk[b] == tr[c].disk[b]
  {
    hide Recovered, PhaseOk, CacheOk, ListOk, DiskOk;
    RunKeepsInv(ar, tr, st, c);
    StepKeeps(ar, tr[c], tr[c + 1], st[c]);
    QuietRun(ar, tr, st, c + 1, |st|, b);
    HomeIsRecovered(ar, tr[|st|], b);
    ReadAtCommit(ar, tr[c], b);
  }

  /** A logged home block does not change on disk before the header is written. */
  lemma NoEarlyHomeWrite(ar: Area, tr: seq<Sys>, st: seq<Step>, i: nat, j: nat, b: nat)
    requires IsRun(ar, tr, st) && Inv(ar, tr[0]) && i <= j < |tr| && IsHome(ar, tr[0], b)
    requires forall k | i <= k < j :: !st[k].Commit?
    requires (tr[i].phase.Running? || tr[i].phase.Copying?) && (tr[j].phase.Running? || tr[j].phase.Copying?)
    ensures |tr[i].disk| == |tr[j].disk| == |tr[0].disk| && tr[j].disk[b] == tr[i].disk[b]
  {
    hide Recovered, Next, PhaseOk, CacheOk, ListOk, DiskOk;
    QuietRun(ar, tr, st, i, j, b);
    HomeIsRecovered(ar, tr[i], b);
    HomeIsRecovered(ar, tr[j], b);
  }

  /** From one log_write of a block to the next, or to the Commit, the cache
      keeps what was logged: it is what write_log copies. */
  lemma {:induction false} LatestContentCommitted(ar: Area, tr: seq<Sys>, st: seq<Step>, w: nat, c: nat)
    requires IsRun(ar, tr, st) && Inv(ar, tr[0]) && w < c <= |st| && st[w].Write?
    requires forall k | w < k < c :: !st[k].Crash? && !st[k].Commit? && !(st[k].Write? && st[k].b == st[w].b)
    ensures st[w].b in tr[c].lh && st[w].b in tr[c].cache && tr[c].cache[st[w].b] == Buf(st[w].x, true)
    ensures tr[c].phase.Running? || tr[c].phase.Copying?
    decreases c - w
  {
    hide Inv, Next;
    if w + 1 == c {
      WrittenIsThere(ar, tr[w], tr[c], st[w]);
    } else {
      LatestContentCommitted(ar, tr, st, w, c - 1);
      RunKeepsInv(ar, tr, st, c - 1);
      KeptByStep(ar, tr[c - 1], tr[c], st[c - 1], st[w].b);
    }
  }

  lemma WrittenIsThere(ar: Area, s: Sys, s': Sys, step: Step)
    requires Next(ar, s, s', step) && step.Write?
    ensures step.b in s'.lh && step.b in s'.cache && s'.cache[step.b] == Buf(step.x, true) && s'.phase.Running?
  {
    hide Blocks, Header;
  }

  lemma KeptByStep(ar: Area, s: Sys, s': Sys, step: Step, b: nat)
    requires Inv(ar, s) && Next(ar, s, s', step) && (s.phase.Running? || s.phase.Copying?)
    requires b in s.lh && b in s.cache && s.cache[b].dirty
    requires !step.Crash? && !step.Commit? && !(step.Write? && step.b == b)
    ensures b in s'.lh && b in s'.cache && s'.cache[b] == s.cache[b] && (s'.phase.Running? || s'.phase.Copying?)
  {
    hide Recovered, Blocks, Header, DiskOk;
  }

  // ---------- Consistency of what is stored ----------

  /** The home blocks as the cache shows them; the log area counts as zero. */
  ghost function CachedImage(ar: Area, s: Sys): Disk {
    seq(|s.disk|, b requires 0 <= b < |s.disk| => if ar.Contains(b) then ZeroBlock() else s.Read(b))
  }

  /** The home blocks as recovery would leave them. */
  ghost function RecoveredImage(ar: Area, d: Disk): Disk
    requires LogFits(ar, d)
  {
    seq(|d|, b requires 0 <= b < |d| => if ar.Contains(b) then ZeroBlock() else Recovered(ar, d, b))
  }

  lemma StateFits(ar: Area, s: Sys)
    requires Inv(ar, s)
    ensures LogFits(ar, s.disk)
  {
    hide Blocks, Distinct;
  }

  lemma SameRecovered(ar: Area, s: Sys, s': Sys, step: Step)
    requires Inv(ar, s) && Next(ar, s, s', step)
    ensures LogFits(ar, s.disk) && LogFits(ar, s'.disk)
    ensures RecoveredImage(ar, s'.disk) == if step.Commit? then CachedImage(ar, s) else RecoveredImage(ar, s.disk)
  {
    hide Recovered, Next, PhaseOk, CacheOk, ListOk, DiskOk;
    StepKeeps(ar, s, s', step);
    StateFits(ar, s);
    StateFits(ar, s');
    assert forall b: nat | b < |s.disk| && !ar.Contains(b) :: IsHome(ar, s, b);
  }

  /** While a commit is prepared, only buffers that hold what is on the disk
      come and go: the cached home blocks do not change. */
  lemma CopyingKeepsImage(ar: Area, s: Sys, s': Sys, step: Step)
    requires Inv(ar, s) && Next(ar, s, s', step) && s.phase.Copying? && s'.phase.Copying?
    ensures CachedImage(ar, s') == CachedImage(ar, s)
  {
    hide Blocks, Header, DiskOk, Distinct, Recovered;
    forall b: nat | b < |s.disk| && !ar.Contains(b)
      ensures s'.Read(b) == s.Read(b)
    {
    }
  }

  /** What the disk recovers to satisfies P, and what is being committed does. */
  ghost predicate Holds(ar: Area, P: Disk -> bool, s: Sys) {
    LogFits(ar, s.disk) && P(RecoveredImage(ar, s.disk)) && (s.phase.Copying? ==> P(CachedImage(ar, s)))
  }

  lemma HoldsStep(ar: Area, P: Disk -> bool, s: Sys, s': Sys, step: Step)
    requires Inv(ar, s) && Next(ar, s, s', step) && Holds(ar, P, s)
    requires step.End? && |s.ops| == 1 ==> P(CachedImage(ar, s'))
    ensures Holds(ar, P, s')
  {
    SameRecovered(ar, s, s', step);
    hide Recovered, RecoveredImage, CachedImage, Inv;
    if s'.phase.Copying? && s.phase.Copying? {
      CopyingKeepsImage(ar, s, s', step);
    }
  }

  /** Crash consistency for every property of the stored blocks: if P holds of
      the blocks recovery starts from, and of the cached blocks each time the
      last open operation ends, then in every state of every run, crashes and
      interrupted recoveries included, P holds of what recovery leaves; and
      whenever the system runs again, of the home blocks on the disk. */
  lemma {:induction false} ConsistentAfterCrashes(ar: Area, tr: seq<Sys>, st: seq<Step>, P: Disk -> bool, i: nat)
    requires IsRun(ar, tr, st) && Inv(ar, tr[0]) && Holds(ar, P, tr[0]) && i < |tr|
    requires forall k | 0 <= k < |st| :: st[k].End? && |tr[k].ops| == 1 ==> P(CachedImage(ar, tr[k + 1]))
    ensures Inv(ar, tr[i]) && Holds(ar, P, tr[i])
    ensures tr[i].phase.Running? ==> forall b: nat | IsHome(ar, tr[i], b) :: RecoveredImage(ar, tr[i].disk)[b] == tr[i].disk[b]
  {
    hide Recovered, Next, PhaseOk, CacheOk, ListOk, DiskOk, Holds, CachedImage;
    if i > 0 {
      ConsistentAfterCrashes(ar, tr, st, P, i - 1);
      HoldsStep(ar, P, tr[i - 1], tr[i], st[i - 1]);
    }
    RunKeepsInv(ar, tr, st, i);
    HoldsFits(ar, P, tr[i]);
    if tr[i].phase.Running? {
      forall b: nat | IsHome(ar, tr[i], b)
        ensures Recovered(ar, tr[i].disk, b) == tr[i].disk[b]
      {
        HomeIsRecovered(ar, tr[i], b);
      }
    }
  }

  lemma HoldsFits(ar: Area, P: Disk -> bool, s: Sys)
    requires Holds(ar, P, s)
    ensures LogFits(ar, s.disk) && P(RecoveredImage(ar, s.disk))
  {
  }
}
