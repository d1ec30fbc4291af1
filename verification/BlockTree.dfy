/** The inode block tree of fs.c as values: 10 direct slots and three roots of
    height 1, 2 and 3 with fan-out 128, and the free map it is allocated from.

    A node of the forest is named by its position, not by its address: `lvl`
    is its height above the data blocks and `idx` its number among the nodes
    of that height below the same slot.  Address 0 means "not mapped". */
module BlockTree {
  import opened Common
  import opened Bytes

  const NDIRECT := 10
  const NINDIRECT := NPTR
  const NDINDIRECT := NPTR * NPTR
  const NTINDIRECT := NPTR * NPTR * NPTR
  const MAXFILE := NDIRECT + NINDIRECT + NDINDIRECT + NTINDIRECT
  const NSLOTS := NDIRECT + 3
  const BPB := BSIZE * 8     // free-map bits in a block
  const IPB := 8             // on-disk inodes in a block

  type Slots = s: seq<nat> | |s| == NSLOTS witness seq(NSLOTS, _ => 0)

  datatype Inode = Inode(size: nat, addrs: Slots)

  type Disk = seq<Block>

  // ---------- Layout and free map ----------

  /** The part of the superblock the block layer uses. */
  datatype Super = Super(size: nat, inodestart: nat, bmapstart: nat) {
    /** First block after the free map: mkfs gives the map size / BPB + 1 blocks. */
    function DataStart(): nat { bmapstart + size / BPB + 1 }
    function BBlock(b: nat): nat { b / BPB + bmapstart }
    function IBlock(i: nat): nat { i / IPB + inodestart }
  }

  predicate Used(sb: Super, d: Disk, b: nat)
    requires b < sb.size && sb.DataStart() <= |d|
  {
    Bit(d[sb.BBlock(b)][b % BPB / 8], b % 8)
  }

  predicate Layout(sb: Super, d: Disk) {
    0 < sb.DataStart() <= sb.size <= |d| && sb.size <= TWO32
  }

  /** bp->data[bi/8] |= m on the map block of b. */
  function MarkUsed(sb: Super, d: Disk, b: nat): (d': Disk)
    requires b < sb.size && sb.DataStart() <= |d|
    ensures |d'| == |d|
  {
    var x := d[sb.BBlock(b)];
    SetBitIsByte(x[b % BPB / 8], b % 8);
    d[sb.BBlock(b) := x[b % BPB / 8 := SetBit(x[b % BPB / 8], b % 8)]]
  }

  /** bp->data[bi/8] &= ~m on the map block of b. */
  function MarkFree(sb: Super, d: Disk, b: nat): (d': Disk)
    requires b < sb.size && sb.DataStart() <= |d|
    ensures |d'| == |d|
  {
    var x := d[sb.BBlock(b)];
    d[sb.BBlock(b) := x[b % BPB / 8 := ClearBit(x[b % BPB / 8], b % 8)]]
  }

  /** Two blocks with the same map block, byte and bit are the same block. */
  lemma SameBit(b: nat, c: nat)
    requires b / BPB == c / BPB && b % BPB / 8 == c % BPB / 8 && b % 8 == c % 8
    ensures b == c
  {
    ModMod(b);
    ModMod(c);
  }

  lemma ModMod(b: nat)
    ensures b % BPB % 8 == b % 8
  {
    var q, r := b / BPB, b % BPB;
    assert b == 8 * (512 * q) + r;
  }

  /** Marking a block changes its own bit of the map only. */
  lemma UsedAfterMark(sb: Super, d: Disk, b: nat, c: nat)
    requires b < sb.size && c < sb.size && sb.DataStart() <= |d|
    ensures Used(sb, MarkUsed(sb, d, b), c) == (c == b || Used(sb, d, c))
    ensures Used(sb, MarkFree(sb, d, b), c) == (c != b && Used(sb, d, c))
  {
    if b / BPB == c / BPB && b % BPB / 8 == c % BPB / 8 {
      var x := d[sb.BBlock(b)][b % BPB / 8];
      BitOfSetBit(x, b % 8, c % 8);
      BitOfClearBit(x, b % 8, c % 8);
      if b % 8 == c % 8 {
        SameBit(b, c);
      }
    }
  }

  /** A write outside the map leaves every bit of the map alone. */
  lemma UsedAfterWrite(sb: Super, d: Disk, a: nat, x: Block, c: nat)
    requires c < sb.size && sb.DataStart() <= a < |d|
    ensures Used(sb, d[a := x], c) == Used(sb, d, c)
  {
  }

  // ---------- Positions ----------

  datatype Pos = Pos(ino: nat, slot: nat, lvl: nat, idx: nat)

  function Height(slot: nat): nat {
    if slot < NDIRECT then 0 else slot - NDIRECT + 1
  }

  /** Nodes h levels below a root. */
  function Cap(h: nat): (c: nat)
    ensures c > 0
  {
    if h == 0 then 1 else NPTR * Cap(h - 1)
  }

  predicate ValidPos(p: Pos, inodes: nat) {
    p.ino < inodes && p.slot < NSLOTS && p.lvl <= Height(p.slot) && p.idx < Cap(Height(p.slot) - p.lvl)
  }

  function Parent(p: Pos): (q: Pos)
    requires p.lvl < Height(p.slot)
    ensures ValidPos(p, p.ino + 1) ==> ValidPos(q, p.ino + 1)
  {
    Pos(p.ino, p.slot, p.lvl + 1, p.idx / NPTR)
  }

  function Child(p: Pos, i: nat): (q: Pos)
    requires 0 < p.lvl <= Height(p.slot) && i < NPTR
    ensures q.ino == p.ino && q.slot == p.slot && q.lvl == p.lvl - 1 && q.idx % NPTR == i && Parent(q) == p
    ensures ValidPos(p, p.ino + 1) ==> ValidPos(q, p.ino + 1)
  {
    Pos(p.ino, p.slot, p.lvl - 1, p.idx * NPTR + i)
  }

  /** The node at height l above p. */
  function Anc(p: Pos, l: nat): (q: Pos)
    requires p.lvl <= l <= Height(p.slot)
    ensures q.ino == p.ino && q.slot == p.slot && q.lvl == l && (p.lvl == l ==> q == p)
    decreases l - p.lvl
  {
    if p.lvl == l then p else Anc(Parent(p), l)
  }

  lemma {:induction false} ParentOfAnc(p: Pos, l: nat)
    requires p.lvl <= l < Height(p.slot)
    ensures Parent(Anc(p, l)) == Anc(p, l + 1)
    decreases l - p.lvl
  {
    if p.lvl < l {
      ParentOfAnc(Parent(p), l);
    }
  }

  /** The indices bmap follows at the three levels are the digits of the block number in base 128. */
  lemma Digits(n: nat)
    ensures n / NPTR / NPTR == n / (NPTR * NPTR)
    ensures n % (NPTR * NPTR) / NPTR == n / NPTR % NPTR
    ensures n % (NPTR * NPTR) % NPTR == n % NPTR
  {
    assert n % (NPTR * NPTR) == n - NPTR * (NPTR * (n / (NPTR * NPTR)));
  }

  /** The root of a tree is the ancestor of every position below it. */
  lemma {:induction false} RootOf(p: Pos)
    requires ValidPos(p, p.ino + 1)
    ensures Anc(p, Height(p.slot)) == Pos(p.ino, p.slot, Height(p.slot), 0)
    decreases Height(p.slot) - p.lvl
  {
    if p.lvl < Height(p.slot) {
      RootOf(Parent(p));
    }
  }

  /** The entry of Anc(t, l) followed on the way to t. */
  lemma ChildOfAnc(t: Pos, l: nat)
    requires t.lvl < l <= Height(t.slot)
    ensures Child(Anc(t, l), Anc(t, l - 1).idx % NPTR) == Anc(t, l - 1)
  {
    ParentOfAnc(t, l - 1);
  }

  /** The address stored for a node: in its root slot or in the pointer block
      of its parent. */
  function Addr(d: Disk, ins: seq<Inode>, p: Pos): nat
    decreases Height(p.slot) - p.lvl
  {
    if !ValidPos(p, |ins|) then
      0
    else if p.lvl == Height(p.slot) then
      ins[p.ino].addrs[p.slot]
    else
      var a := Addr(d, ins, Parent(p));
      if 0 < a < |d| then Word(d[a], p.idx % NPTR) else 0
  }

  /** The data block holding file block bn. */
  function FilePos(ino: nat, bn: nat): (p: Pos)
    requires bn < MAXFILE
    ensures p.ino == ino && p.lvl == 0 && ValidPos(p, ino + 1)
  {
    assert Cap(2) == NPTR * Cap(1);
    if bn < NDIRECT then Pos(ino, bn, 0, 0)
    else if bn < NDIRECT + NINDIRECT then Pos(ino, NDIRECT, 0, bn - NDIRECT)
    else if bn < NDIRECT + NINDIRECT + NDINDIRECT then Pos(ino, NDIRECT + 1, 0, bn - NDIRECT - NINDIRECT)
    else Pos(ino, NDIRECT + 2, 0, bn - NDIRECT - NINDIRECT - NDINDIRECT)
  }

  /** The root slot of file block bn and the entries followed below it. */
  lemma PathOfFileBlock(ino: nat, bn: nat)
    requires bn < MAXFILE
    ensures var t := FilePos(ino, bn);
      var h := Height(t.slot);
      && Anc(t, 0) == t && Anc(t, h) == Pos(ino, t.slot, h, 0)
      && (bn < NDIRECT ==> t.slot == bn && h == 0)
      && (NDIRECT <= bn < NDIRECT + NINDIRECT ==> t.slot == NDIRECT && h == 1 && t.idx % NPTR == bn - NDIRECT)
      && (var n := bn - NDIRECT - NINDIRECT;
          0 <= n < NDINDIRECT ==>
            && t.slot == NDIRECT + 1 && h == 2
            && Anc(t, 1).idx % NPTR == n / 128 && t.idx % NPTR == n % 128)
      && (var n := bn - NDIRECT - NINDIRECT - NDINDIRECT;
          0 <= n ==>
            && t.slot == NDIRECT + 2 && h == 3
            && Anc(t, 2).idx % NPTR == n / (128 * 128)
            && Anc(t, 1).idx % NPTR == n % (128 * 128) / 128
            && t.idx % NPTR == n % (128 * 128) % 128)
  {
    var t := FilePos(ino, bn);
    RootOf(t);
    Digits(t.idx);
    if Height(t.slot) >= 2 {
      assert Anc(t, 1) == Parent(t);
      if Height(t.slot) == 3 {
        ParentOfAnc(t, 1);
      }
    }
  }

  /** Address of file block bn, 0 when it is not mapped. */
  function Lookup(d: Disk, ins: seq<Inode>, ino: nat, bn: nat): nat
    requires bn < MAXFILE
  {
    Addr(d, ins, FilePos(ino, bn))
  }

  // ---------- Ownership ----------

  type Owner = map<nat, Pos>

  /** `own` is the inverse of Addr.  Since it is a function, two positions
      never hold one address: all trees of all inodes are disjoint, and no
      block occurs twice in one tree. */
  ghost predicate Inverse(d: Disk, ins: seq<Inode>, own: Owner) {
    && (forall p | Addr(d, ins, p) != 0 ::
          Addr(d, ins, p) in own && own[Addr(d, ins, p)] == p)
    && (forall b | b in own :: 0 < b < |d| && Addr(d, ins, own[b]) == b)
  }

  /** The blocks marked used are the metadata blocks (boot block, superblock,
      log, inode blocks and the map itself) and exactly the tree nodes.  Block
      0 is metadata, so balloc never returns 0. */
  ghost predicate MapOk(sb: Super, d: Disk, own: Owner) {
    && Layout(sb, d)
    && (forall b | b in own :: sb.DataStart() <= b < sb.size)
    && (forall b: nat | b < sb.size :: Used(sb, d, b) <==> b < sb.DataStart() || b in own)
  }

  /** Every file block that holds a byte of the file is mapped. */
  ghost predicate NoHoles(d: Disk, ins: seq<Inode>) {
    forall i: nat, bn: nat | i < |ins| && bn < MAXFILE && bn * BSIZE < ins[i].size :: Lookup(d, ins, i, bn) != 0
  }

  ghost predicate TreeOk(d: Disk, ins: seq<Inode>, own: Owner) {
    && Inverse(d, ins, own)
    && (forall i: nat | i < |ins| :: ins[i].size <= MAXFILE * BSIZE)
    && NoHoles(d, ins)
  }

  // ---------- Addresses under change ----------

  /** Addresses depend only on the roots and on the pointer blocks. */
  lemma {:induction false} AddrFrame(d: Disk, d': Disk, ins: seq<Inode>, ins': seq<Inode>, own: Owner, q: Pos)
    requires Inverse(d, ins, own)
    requires |d'| == |d| && |ins'| == |ins|
    requires q.ino < |ins| ==> ins'[q.ino].addrs == ins[q.ino].addrs
    requires forall b | b in own && own[b].lvl > 0 :: d'[b] == d[b]
    ensures Addr(d', ins', q) == Addr(d, ins, q)
    decreases Height(q.slot) - q.lvl
  {
    if ValidPos(q, |ins|) && q.lvl < Height(q.slot) {
      AddrFrame(d, d', ins, ins', own, Parent(q));
    }
  }

  /** Above a mapped node everything is mapped. */
  lemma {:induction false} MappedAbove(d: Disk, ins: seq<Inode>, p: Pos, l: nat)
    requires p.lvl <= l <= Height(p.slot) && Addr(d, ins, p) != 0
    ensures Addr(d, ins, Anc(p, l)) != 0
    decreases l - p.lvl
  {
    if p.lvl < l {
      MappedAbove(d, ins, Parent(p), l);
    }
  }

  /** A data position that is not the first below its ancestor shares it with its predecessor. */
  lemma SameAnc(t: Pos, k: nat)
    requires ValidPos(t, t.ino + 1) && t.lvl == 0 && k <= Height(t.slot) && t.idx % Cap(k) != 0
    ensures Anc(t.(idx := t.idx - 1), k) == Anc(t, k)
  {
    var t' := t.(idx := t.idx - 1);
    assert Cap(2) == NPTR * Cap(1);
    if k == 1 {
      assert Parent(t') == Parent(t);
    } else if k == 2 {
      Digits(t.idx);
      Digits(t.idx - 1);
      assert Parent(Parent(t')) == Parent(Parent(t));
    } else if k == 3 {
      RootOf(t);
      RootOf(t');
    }
  }

  /** If every earlier block of the file is mapped and the node at height k
      above file block bn is not, then bn is the first block below that node. */
  lemma UnmappedIsFirst(d: Disk, ins: seq<Inode>, ino: nat, bn: nat, k: nat)
    requires bn < MAXFILE && k <= Height(FilePos(ino, bn).slot)
    requires forall m: nat | m < bn :: Lookup(d, ins, ino, m) != 0
    requires Addr(d, ins, Anc(FilePos(ino, bn), k)) == 0
    ensures FilePos(ino, bn).idx % Cap(k) == 0
  {
    var t := FilePos(ino, bn);
    if t.idx % Cap(k) != 0 {
      SameAnc(t, k);
      assert FilePos(ino, bn - 1) == t.(idx := t.idx - 1);
      assert Lookup(d, ins, ino, bn - 1) != 0;
      MappedAbove(d, ins, FilePos(ino, bn - 1), k);
    }
  }

  /** A mapped pointer block holds the addresses of its children. */
  lemma AddrOfChild(d: Disk, ins: seq<Inode>, own: Owner, p: Pos, i: nat)
    requires Inverse(d, ins, own) && p.lvl > 0 && i < NPTR && Addr(d, ins, p) != 0
    ensures ValidPos(p, |ins|) && Addr(d, ins, p) < |d|
    ensures Addr(d, ins, Child(p, i)) == Word(d[Addr(d, ins, p)], i)
  {
  }

  /** Below an unmapped node nothing is mapped. */
  lemma UnmappedBelow(d: Disk, ins: seq<Inode>, q: Pos)
    requires q.lvl < Height(q.slot) && Addr(d, ins, Parent(q)) == 0
    ensures Addr(d, ins, q) == 0
  {
  }

  /** Storing the address of a zeroed unowned block in an empty entry of a
      pointer block maps that one position and no other. */
  lemma {:induction false} AddrAfterLink(d: Disk, d': Disk, ins: seq<Inode>, own: Owner,
                                         p: Pos, i: nat, f: nat, q: Pos)
    requires Inverse(d, ins, own) && ValidPos(p, |ins|)
    requires Linked(d, d', ins, own, p, i, f)
    ensures Addr(d', ins, q) == if q == Child(p, i) then f else Addr(d, ins, q)
    decreases Height(q.slot) - q.lvl
  {
    if ValidPos(q, |ins|) && q.lvl < Height(q.slot) {
      var r := Parent(q);
      var a := Addr(d, ins, p);
      AddrAfterLink(d, d', ins, own, p, i, f, r);
      if r == Child(p, i) {
        WordOfZero(q.idx % NPTR);
      } else if Addr(d, ins, r) == a {
        assert r == p;
        WordOfPutWord(d[a], i, f, q.idx % NPTR);
      }
    }
  }

  /** d' is d with f, an unowned block now zeroed, stored in the empty entry i
      of the pointer block of p.  Blocks outside the trees are not constrained. */
  ghost predicate Linked(d: Disk, d': Disk, ins: seq<Inode>, own: Owner, p: Pos, i: nat, f: nat)
    requires ValidPos(p, |ins|)
  {
    && p.lvl > 0 && i < NPTR && Addr(d, ins, p) in own && Addr(d, ins, Child(p, i)) == 0
    && 0 < f < |d| && f < TWO32 && f !in own
    && |d'| == |d| && d'[f] == ZeroBlock()
    && var a := Addr(d, ins, p);
       a < |d| && d'[a] == PutWord(d[a], i, f) && forall b | b in own && b != a && b < |d| :: d'[b] == d[b]
  }

  /** If one unmapped position t becomes mapped to an unowned block f and no
      other position changes, the trees stay disjoint and without holes. */
  lemma MapOneMore(d: Disk, d': Disk, ins: seq<Inode>, ins': seq<Inode>, own: Owner, t: Pos, f: nat)
    requires TreeOk(d, ins, own) && ValidPos(t, |ins|) && Addr(d, ins, t) == 0
    requires |d'| == |d| && 0 < f < |d| && f !in own
    requires |ins'| == |ins| && forall i: nat | i < |ins| :: ins'[i].size == ins[i].size
    requires forall q :: Addr(d', ins', q) == if q == t then f else Addr(d, ins, q)
    ensures TreeOk(d', ins', own[f := t])
  {
    hide Addr;
    assert NoHoles(d', ins') by {
      forall i: nat, bn: nat | i < |ins| && bn < MAXFILE && bn * BSIZE < ins[i].size
        ensures Lookup(d', ins', i, bn) != 0
      {
        assert Lookup(d, ins, i, bn) != 0;
      }
    }
  }

  /** If no address changes, the trees stay as they are. */
  lemma SameAddrsKeepTree(d: Disk, d': Disk, ins: seq<Inode>, own: Owner)
    requires TreeOk(d, ins, own) && |d'| == |d|
    requires forall q :: Addr(d', ins, q) == Addr(d, ins, q)
    ensures TreeOk(d', ins, own)
  {
    hide Addr;
    forall i: nat, bn: nat | i < |ins| && bn < MAXFILE && bn * BSIZE < ins[i].size
      ensures Lookup(d', ins, i, bn) != 0
    {
      assert Lookup(d, ins, i, bn) != 0;
    }
  }

  /** Linking a fresh block keeps the trees. */
  lemma LinkKeepsTree(d: Disk, d': Disk, ins: seq<Inode>, own: Owner, p: Pos, i: nat, f: nat)
    requires TreeOk(d, ins, own) && ValidPos(p, |ins|) && Linked(d, d', ins, own, p, i, f)
    ensures TreeOk(d', ins, own[f := Child(p, i)])
    ensures Addr(d', ins, Child(p, i)) == f
    ensures forall q | q != Child(p, i) :: Addr(d', ins, q) == Addr(d, ins, q)
  {
    var t := Child(p, i);
    forall q
      ensures Addr(d', ins, q) == if q == t then f else Addr(d, ins, q)
    {
      AddrAfterLink(d, d', ins, own, p, i, f, q);
    }
    MapOneMore(d, d', ins, ins, own, t, f);
  }

  /** The same for an empty root slot of an inode. */
  ghost predicate Rooted(d: Disk, d': Disk, ins: seq<Inode>, ins': seq<Inode>, own: Owner, ino: nat, slot: nat, f: nat) {
    && ino < |ins| && slot < NSLOTS && ins[ino].addrs[slot] == 0
    && 0 < f < |d| && f !in own
    && |d'| == |d| && d'[f] == ZeroBlock() && (forall b | b in own && b < |d| :: d'[b] == d[b])
    && ins' == ins[ino := ins[ino].(addrs := ins[ino].addrs[slot := f])]
  }

  lemma {:induction false} AddrAfterRoot(d: Disk, d': Disk, ins: seq<Inode>, ins': seq<Inode>, own: Owner,
                                         ino: nat, slot: nat, f: nat, q: Pos)
    requires Inverse(d, ins, own) && Rooted(d, d', ins, ins', own, ino, slot, f)
    ensures Addr(d', ins', q) == if q == Pos(ino, slot, Height(slot), 0) then f else Addr(d, ins, q)
    decreases Height(q.slot) - q.lvl
  {
    if ValidPos(q, |ins|) && q.lvl < Height(q.slot) {
      AddrAfterRoot(d, d', ins, ins', own, ino, slot, f, Parent(q));
      if Parent(q) == Pos(ino, slot, Height(slot), 0) {
        WordOfZero(q.idx % NPTR);
      }
    } else if ValidPos(q, |ins|) {
      assert q.idx == 0;
    }
  }

  lemma RootKeepsTree(d: Disk, d': Disk, ins: seq<Inode>, ins': seq<Inode>, own: Owner, ino: nat, slot: nat, f: nat)
    requires TreeOk(d, ins, own) && Rooted(d, d', ins, ins', own, ino, slot, f)
    ensures TreeOk(d', ins', own[f := Pos(ino, slot, Height(slot), 0)])
    ensures Addr(d', ins', Pos(ino, slot, Height(slot), 0)) == f
    ensures forall q | q != Pos(ino, slot, Height(slot), 0) :: Addr(d', ins', q) == Addr(d, ins, q)
  {
    var t := Pos(ino, slot, Height(slot), 0);
    forall q
      ensures Addr(d', ins', q) == if q == t then f else Addr(d, ins, q)
    {
      AddrAfterRoot(d, d', ins, ins', own, ino, slot, f, q);
    }
    MapOneMore(d, d', ins, ins', own, t, f);
  }

  /** Distinct file blocks have distinct positions. */
  lemma FilePosInjective(i: nat, m: nat, j: nat, n: nat)
    requires m < MAXFILE && n < MAXFILE && FilePos(i, m) == FilePos(j, n)
    ensures i == j && m == n
  {
  }
}
