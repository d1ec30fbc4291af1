/** What itrunc frees: the nodes below each root of one inode, each once. */
module Truncation {
  import opened Bytes
  import opened BlockTree
  import opened BlockViews

  /** d' is d with exactly the blocks of s marked free; only the free map has changed. */
  ghost predicate Freed(sb: Super, d: Disk, d': Disk, s: set<nat>) {
    && Layout(sb, d) && |d'| == |d|
    && (forall b: nat | sb.DataStart() <= b < |d| :: d'[b] == d[b])
    && (forall b: nat | b < sb.size :: Used(sb, d', b) <==> Used(sb, d, b) && b !in s)
  }

  lemma FreedTrans(sb: Super, d: Disk, d1: Disk, d2: Disk, s: set<nat>, s1: set<nat>)
    requires Freed(sb, d, d1, s) && Freed(sb, d1, d2, s1)
    ensures Freed(sb, d, d2, s + s1)
  {
    hide Used;
  }

  lemma MarkFreeIsFreed(sb: Super, d: Disk, b: nat)
    requires Layout(sb, d) && b < sb.size
    ensures Freed(sb, d, MarkFree(sb, d, b), {b})
  {
    hide Used, Bit, ClearBit;
    var d' := MarkFree(sb, d, b);
    forall c: nat | c < sb.size
      ensures Used(sb, d', c) <==> Used(sb, d, c) && c != b
    {
      UsedAfterMark(sb, d, b, c);
    }
  }

  /** q is p or lies below p. */
  ghost predicate Under(q: Pos, p: Pos) {
    q.ino == p.ino && q.slot == p.slot && q.lvl <= p.lvl <= Height(q.slot) && Anc(q, p.lvl) == p
  }

  /** q lies below one of the first j children of p. */
  ghost predicate UnderFirst(q: Pos, p: Pos, j: nat) {
    Under(q, p) && q.lvl < p.lvl && Anc(q, p.lvl - 1).idx % NPTR < j
  }

  ghost function Subtree(own: Owner, p: Pos): set<nat> {
    set b | b in own && Under(own[b], p)
  }

  ghost function SubtreeFirst(own: Owner, p: Pos, j: nat): set<nat> {
    set b | b in own && UnderFirst(own[b], p, j)
  }

  lemma UnderChild(q: Pos, p: Pos, j: nat)
    requires 0 < p.lvl <= Height(p.slot) && j < NPTR
    ensures Under(q, Child(p, j)) <==> Under(q, p) && q.lvl < p.lvl && Anc(q, p.lvl - 1).idx % NPTR == j
  {
    if q.slot == p.slot && q.lvl < p.lvl {
      ParentOfAnc(q, p.lvl - 1);
    }
  }

  lemma SubtreeNext(own: Owner, p: Pos, j: nat)
    requires 0 < p.lvl <= Height(p.slot) && j < NPTR
    ensures SubtreeFirst(own, p, j + 1) == SubtreeFirst(own, p, j) + Subtree(own, Child(p, j))
    ensures SubtreeFirst(own, p, j) !! Subtree(own, Child(p, j))
  {
    hide Anc, Height, Cap;
    forall b | b in own
      ensures UnderFirst(own[b], p, j + 1) <==> UnderFirst(own[b], p, j) || Under(own[b], Child(p, j))
      ensures !(UnderFirst(own[b], p, j) && Under(own[b], Child(p, j)))
    {
      UnderChild(own[b], p, j);
    }
  }

  /** A node and all that is below its children: the whole subtree. */
  lemma SubtreeWhole(d: Disk, ins: seq<Inode>, own: Owner, p: Pos, a: nat)
    requires Inverse(d, ins, own) && Addr(d, ins, p) == a != 0
    ensures Subtree(own, p) == SubtreeFirst(own, p, NPTR) + {a}
    ensures a !in SubtreeFirst(own, p, NPTR)
  {
    hide Cap;
    assert own[a] == p;
    forall b | b in own
      ensures Under(own[b], p) <==> UnderFirst(own[b], p, NPTR) || b == a
    {
      if Under(own[b], p) && own[b].lvl == p.lvl {
        assert own[b] == p;
      }
    }
  }

  /** Nothing lies below an empty entry. */
  lemma SubtreeEmpty(d: Disk, ins: seq<Inode>, own: Owner, p: Pos)
    requires Inverse(d, ins, own) && Addr(d, ins, p) == 0
    ensures Subtree(own, p) == {}
  {
    forall b | b in own
      ensures !Under(own[b], p)
    {
      if Under(own[b], p) {
        MappedAbove(d, ins, own[b], p.lvl);
      }
    }
  }

  lemma SubtreeNone(own: Owner, p: Pos)
    ensures SubtreeFirst(own, p, 0) == {}
  {
  }

  lemma SubtreeOfChild(own: Owner, p: Pos, j: nat)
    requires 0 < p.lvl <= Height(p.slot) && j < NPTR
    ensures Subtree(own, Child(p, j)) <= Subtree(own, p)
  {
    hide Anc, Height, Cap;
    forall b | b in own
      ensures Under(own[b], Child(p, j)) ==> Under(own[b], p)
    {
      UnderChild(own[b], p, j);
    }
  }

  /** Nodes are data-area blocks, and leaves have nothing below them. */
  lemma NodeInRange(sb: Super, v: View, p: Pos)
    requires MapOk(sb, v.d, v.own) && Inverse(v.d, v.ins, v.own) && v.At(p) != 0
    ensures sb.DataStart() <= v.At(p) < sb.size <= |v.d| && p.lvl <= Height(p.slot)
    ensures p.lvl == 0 ==> SubtreeFirst(v.own, p, NPTR) == {}
    ensures forall b | b in Subtree(v.own, p) :: b < sb.size
  {
    hide Used, Cap;
    assert v.At(p) in v.own;
  }

  /** The blocks of inode ino below its first n slots. */
  ghost function SlotsFirst(own: Owner, ino: nat, n: nat): set<nat> {
    set b | b in own && own[b].ino == ino && own[b].slot < n
  }

  lemma SlotsNext(d: Disk, ins: seq<Inode>, own: Owner, ino: nat, n: nat)
    requires Inverse(d, ins, own) && ino < |ins| && n < NSLOTS
    ensures SlotsFirst(own, ino, n + 1) == SlotsFirst(own, ino, n) + Subtree(own, Pos(ino, n, Height(n), 0))
    ensures SlotsFirst(own, ino, n) !! Subtree(own, Pos(ino, n, Height(n), 0))
  {
    hide Anc;
    forall b | b in own
      ensures own[b].ino == ino && own[b].slot == n <==> Under(own[b], Pos(ino, n, Height(n), 0))
    {
      if own[b].ino == ino && own[b].slot == n {
        RootOf(own[b]);
      }
    }
  }

  /** A root slot and the tree below it. */
  lemma SlotRoot(sb: Super, v: View, ino: nat, slot: nat)
    requires MapOk(sb, v.d, v.own) && Inverse(v.d, v.ins, v.own) && ino < |v.ins| && slot < NSLOTS
    ensures v.At(Pos(ino, slot, Height(slot), 0)) == v.ins[ino].addrs[slot]
    ensures Height(slot) == if slot < NDIRECT then 0 else slot - NDIRECT + 1
    ensures forall b | b in Subtree(v.own, Pos(ino, slot, Height(slot), 0)) :: b < sb.size && Used(sb, v.d, b)
  {
    hide Used;
  }

  lemma NothingFreed(sb: Super, v: View, ino: nat)
    requires MapOk(sb, v.d, v.own)
    ensures Freed(sb, v.d, v.d, SlotsFirst(v.own, ino, 0))
  {
    hide Used;
  }

  /** The owners left when inode ino has none. */
  ghost function WithoutInode(own: Owner, ino: nat): Owner {
    map b | b in own && own[b].ino != ino :: own[b]
  }

  /** The view after itrunc has freed everything and reset the inode. */
  ghost predicate Truncated(sb: Super, v: View, v': View, ino: nat) {
    && ino < |v.ins| && Freed(sb, v.d, v'.d, SlotsFirst(v.own, ino, NSLOTS))
    && v'.ins == v.ins[ino := Inode(0, seq(NSLOTS, _ => 0))] && v'.own == WithoutInode(v.own, ino)
  }

  lemma {:induction false} AddrAfterTrunc(sb: Super, v: View, v': View, ino: nat, q: Pos)
    requires Inverse(v.d, v.ins, v.own) && MapOk(sb, v.d, v.own) && Truncated(sb, v, v', ino)
    ensures v'.At(q) == if q.ino == ino then 0 else v.At(q)
    decreases Height(q.slot) - q.lvl
  {
    hide Used, Word, Cap;
    if ValidPos(q, |v.ins|) && q.lvl < Height(q.slot) {
      AddrAfterTrunc(sb, v, v', ino, Parent(q));
    }
  }

  /** After itrunc the inode is empty, its blocks are free, the other trees
      and files are what they were, and the free map is exact again. */
  lemma TruncKeeps(sb: Super, v: View, v': View, ino: nat)
    requires MapOk(sb, v.d, v.own) && TreeOk(v.d, v.ins, v.own) && Truncated(sb, v, v', ino)
    ensures MapOk(sb, v'.d, v'.own) && TreeOk(v'.d, v'.ins, v'.own)
    ensures Content(v', ino) == [] && forall i: nat | i < |v.ins| && i != ino :: Content(v', i) == Content(v, i)
  {
    hide Addr, Cap, Height, Used, FilePos;
    forall q
      ensures Addr(v'.d, v'.ins, q) == if q.ino == ino then 0 else Addr(v.d, v.ins, q)
    {
      AddrAfterTrunc(sb, v, v', ino, q);
    }
    TruncTree(v, v', ino);
    TruncMap(sb, v, v', ino);
    forall i: nat | i < |v.ins| && i != ino
      ensures Content(v', i) == Content(v, i)
    {
      TruncContent(sb, v, v', ino, i);
    }
  }

  lemma TruncTree(v: View, v': View, ino: nat)
    requires TreeOk(v.d, v.ins, v.own) && ino < |v.ins| && |v'.d| == |v.d|
    requires v'.ins == v.ins[ino := Inode(0, seq(NSLOTS, _ => 0))] && v'.own == WithoutInode(v.own, ino)
    requires forall q: Pos :: Addr(v'.d, v'.ins, q) == if q.ino == ino then 0 else Addr(v.d, v.ins, q)
    ensures TreeOk(v'.d, v'.ins, v'.own)
  {
    hide Addr, Cap, Height;
    forall i: nat, bn: nat | i < |v'.ins| && bn < MAXFILE && bn * BSIZE < v'.ins[i].size
      ensures Lookup(v'.d, v'.ins, i, bn) != 0
    {
      assert Lookup(v.d, v.ins, i, bn) != 0;
    }
  }

  lemma TruncMap(sb: Super, v: View, v': View, ino: nat)
    requires MapOk(sb, v.d, v.own) && Inverse(v.d, v.ins, v.own) && Truncated(sb, v, v', ino)
    ensures MapOk(sb, v'.d, v'.own)
  {
    hide Cap, Height, Used;
    forall b | b in v.own
      ensures b in SlotsFirst(v.own, ino, NSLOTS) <==> b !in v'.own
    {
      assert Addr(v.d, v.ins, v.own[b]) == b != 0;
    }
  }

  lemma TruncContent(sb: Super, v: View, v': View, ino: nat, i: nat)
    requires MapOk(sb, v.d, v.own) && TreeOk(v.d, v.ins, v.own) && Truncated(sb, v, v', ino) && i < |v.ins| && i != ino
    requires forall q: Pos :: Addr(v'.d, v'.ins, q) == if q.ino == ino then 0 else Addr(v.d, v.ins, q)
    ensures Content(v', i) == Content(v, i)
  {
    hide Addr, Cap, Height, Used;
    forall k: nat | k < v.ins[i].size
      ensures ByteAt(v', i, k) == ByteAt(v, i, k)
    {
      assert Lookup(v.d, v.ins, i, k / BSIZE) != 0;
      assert Lookup(v'.d, v'.ins, i, k / BSIZE) == Lookup(v.d, v.ins, i, k / BSIZE);
    }
  }

  /** Between v and v' only file ino has gained blocks, and nothing has been freed. */
  ghost predicate Grown(v: View, v': View, ino: nat) {
    && (forall b | b in v.own :: b in v'.own && v'.own[b] == v.own[b])
    && (forall b | b in v'.own && b !in v.own :: v'.own[b].ino == ino)
  }

  /** Truncating a file that was empty, after any growth, restores the free map. */
  lemma TruncUndoesGrowth(sb: Super, v: View, v1: View, v2: View, ino: nat)
    requires MapOk(sb, v.d, v.own) && MapOk(sb, v1.d, v1.own) && TreeOk(v1.d, v1.ins, v1.own)
    requires forall b | b in v.own :: v.own[b].ino != ino
    requires Grown(v, v1, ino) && Truncated(sb, v1, v2, ino)
    ensures forall b: nat | b < sb.size :: Used(sb, v2.d, b) <==> Used(sb, v.d, b)
  {
    TruncKeeps(sb, v1, v2, ino);
    hide Used, TreeOk;
  }
}
