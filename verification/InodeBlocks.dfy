/** The inode blocks of the disk: eight records of sixteen words each, of which
    the third is the size and the rest are the addresses.  (The first two hold
    type, device numbers and link count, which the model does not use.) */
module InodeBlocks {
  import opened Common
  import opened Bytes
  import opened BlockTree

  const RECORD := NPTR / IPB          // words of a record
  const SIZEWORD := 2
  const ADDRWORD := 3

  predicate WordsFit(ins: seq<Inode>) {
    forall i: nat | i < |ins| :: InodeFits(ins[i])
  }

  predicate InodeFits(x: Inode) {
    x.size < TWO32 && forall s: nat | s < NSLOTS :: x.addrs[s] < TWO32
  }

  /** Word f of the record of inode i. */
  function RecordWord(ins: seq<Inode>, i: nat, f: nat): nat {
    if i >= |ins| then 0
    else if f == SIZEWORD then ins[i].size
    else if ADDRWORD <= f < ADDRWORD + NSLOTS then ins[i].addrs[f - ADDRWORD]
    else 0
  }

  function BlockWord(ins: seq<Inode>, k: nat, w: nat): nat {
    RecordWord(ins, IPB * k + w / RECORD, w % RECORD)
  }

  lemma BlockWordFits(ins: seq<Inode>, k: nat, w: nat)
    requires WordsFit(ins)
    ensures BlockWord(ins, k, w) < TWO32
  {
    var i := IPB * k + w / RECORD;
    if i < |ins| { assert InodeFits(ins[i]); }
  }

  /** The k-th inode block with its first n words filled in. */
  function Packed(ins: seq<Inode>, k: nat, n: nat): Block
    requires WordsFit(ins) && n <= NPTR
  {
    if n == 0 then ZeroBlock()
    else
      BlockWordFits(ins, k, n - 1);
      PutWord(Packed(ins, k, n - 1), n - 1, BlockWord(ins, k, n - 1))
  }

  function InodeBlock(ins: seq<Inode>, k: nat): Block
    requires WordsFit(ins)
  {
    Packed(ins, k, NPTR)
  }

  function ReadSlots(b: Block, base: nat): (r: Slots)
    requires base + ADDRWORD + NSLOTS <= NPTR
    ensures forall s: nat | s < NSLOTS :: r[s] == Word(b, base + ADDRWORD + s)
  {
    var r := seq(NSLOTS, s requires 0 <= s < NSLOTS => Word(b, base + ADDRWORD + s));
    assert forall s: nat | s < NSLOTS :: r[s] == Word(b, base + ADDRWORD + s) >= 0;
    r
  }

  /** The record of inode i in the block that holds it. */
  function ReadRecord(b: Block, i: nat): Inode {
    var base := RECORD * (i % IPB);
    Inode(Word(b, base + SIZEWORD), ReadSlots(b, base))
  }

  lemma {:induction false} WordOfPacked(ins: seq<Inode>, k: nat, n: nat, w: nat)
    requires WordsFit(ins) && n <= NPTR && w < NPTR
    ensures Word(Packed(ins, k, n), w) == if w < n then BlockWord(ins, k, w) else 0
    decreases n
  {
    hide Word, PutWord, BlockWord;
    if n == 0 {
      WordOfZero(w);
    } else {
      WordOfPacked(ins, k, n - 1, w);
      BlockWordFits(ins, k, n - 1);
      WordOfPutWord(Packed(ins, k, n - 1), n - 1, BlockWord(ins, k, n - 1), w);
    }
  }

  lemma RecordIndex(i: nat, f: nat)
    requires f < RECORD
    ensures RECORD * (i % IPB) + f < NPTR
    ensures IPB * (i / IPB) + (RECORD * (i % IPB) + f) / RECORD == i && (RECORD * (i % IPB) + f) % RECORD == f
  {
    assert RECORD == 16 && IPB == 8;
  }

  lemma RecordWordAt(ins: seq<Inode>, i: nat, f: nat)
    requires WordsFit(ins) && i < |ins| && f < RECORD
    ensures RECORD * (i % IPB) + f < NPTR
    ensures Word(InodeBlock(ins, i / IPB), RECORD * (i % IPB) + f) == RecordWord(ins, i, f)
  {
    hide Word, Packed, RecordWord;
    RecordIndex(i, f);
    WordOfPacked(ins, i / IPB, NPTR, RECORD * (i % IPB) + f);
  }

  /** What iupdate writes is what ilock reads. */
  lemma RecordReadsBack(ins: seq<Inode>, i: nat)
    requires WordsFit(ins) && i < |ins|
    ensures ReadRecord(InodeBlock(ins, i / IPB), i) == ins[i]
  {
    hide Word, InodeBlock;
    var r := ReadRecord(InodeBlock(ins, i / IPB), i);
    RecordWordAt(ins, i, SIZEWORD);
    forall s: nat | s < NSLOTS
      ensures r.addrs[s] == ins[i].addrs[s]
    {
      RecordWordAt(ins, i, ADDRWORD + s);
    }
    assert r.addrs == ins[i].addrs;
  }

  lemma SameWord(ins: seq<Inode>, ins': seq<Inode>, k: nat, w: nat)
    requires |ins'| == |ins| && w < NPTR && forall i: nat | i < |ins| && i / IPB == k :: ins'[i] == ins[i]
    ensures BlockWord(ins', k, w) == BlockWord(ins, k, w)
  {
    assert (IPB * k + w / RECORD) / IPB == k;
  }

  /** A block depends on its own eight inodes only. */
  lemma {:induction false} SameRecords(ins: seq<Inode>, ins': seq<Inode>, k: nat, n: nat)
    requires WordsFit(ins) && WordsFit(ins') && |ins'| == |ins| && n <= NPTR
    requires forall i: nat | i < |ins| && i / IPB == k :: ins'[i] == ins[i]
    ensures Packed(ins', k, n) == Packed(ins, k, n)
    decreases n
  {
    hide BlockWord, PutWord, WordsFit;
    if n > 0 {
      SameRecords(ins, ins', k, n - 1);
      SameWord(ins, ins', k, n - 1);
    }
  }
}
