/** How many distinct blocks one chunk of filewrite hands to the log. */
module LogBudget {
  import opened Common
  import opened Bytes
  import opened BlockTree
  import opened BlockViews
  import opened FileWrites

  const CHUNK := (MAXOPBLOCKS - 1 - 1 - 2) / 2 * 512   // bytes filewrite gives to one transaction

  /** The block at height l on the path to file block bn. */
  ghost function NodeOf(v: View, ino: nat, bn: nat, l: nat): nat {
    if bn < MAXFILE && l <= Height(FilePos(ino, bn).slot) then v.At(Anc(FilePos(ino, bn), l)) else 0
  }

  /** First file block past the end of a file. */
  function FirstNew(size: nat): nat { (size + BSIZE - 1) / BSIZE }

  /** bn is the first file block below some pointer block of height 1. */
  predicate Crosses(bn: nat) { bn >= NDIRECT && (bn - NDIRECT) % NPTR == 0 }

  /** Of three consecutive file blocks, the one that starts a new pointer block, if any. */
  function Crossing(c: nat): nat {
    if Crosses(c) then c else if Crosses(c + 1) then c + 1 else c + 2
  }

  lemma FirstBelowCrosses(ino: nat, bn: nat, l: nat)
    requires bn < MAXFILE && 0 < l <= Height(FilePos(ino, bn).slot) && FilePos(ino, bn).idx % Cap(l) == 0
    ensures Crosses(bn)
  {
    var t := FilePos(ino, bn);
    assert Cap(2) == NPTR * Cap(1);
    if l == 2 {
      Digits(t.idx);
    }
    if l == 3 {
      assert t.idx < Cap(3) && t.idx == 0;
    }
  }

  /** Blocks below the same pointer block of height 1. */
  lemma SameLeaf(v: View, ino: nat, bn: nat)
    requires 0 < bn < MAXFILE && !Crosses(bn) && Height(FilePos(ino, bn).slot) > 0
    ensures NodeOf(v, ino, bn, 1) == NodeOf(v, ino, bn - 1, 1)
  {
    var t := FilePos(ino, bn);
    assert Cap(1) == NPTR;
    SameAnc(t, 1);
    assert FilePos(ino, bn - 1) == t.(idx := t.idx - 1);
  }

  ghost function DataNodes(v: View, ino: nat, lo: nat): set<nat> {
    {NodeOf(v, ino, lo, 0), NodeOf(v, ino, lo + 1, 0), NodeOf(v, ino, lo + 2, 0), NodeOf(v, ino, lo + 3, 0)}
  }

  ghost function PtrNodes(v: View, ino: nat, c: nat): set<nat> {
    {NodeOf(v, ino, c, 1), NodeOf(v, ino, Crossing(c), 1), NodeOf(v, ino, Crossing(c), 2), NodeOf(v, ino, Crossing(c), 3)}
  }

  ghost function NewNodes(v: View, ino: nat, c: nat): set<nat> {
    {NodeOf(v, ino, c, 0), NodeOf(v, ino, c + 1, 0), NodeOf(v, ino, c + 2, 0),
     NodeOf(v, ino, Crossing(c), 1), NodeOf(v, ino, Crossing(c), 2), NodeOf(v, ino, Crossing(c), 3)}
  }

  lemma RangeOfChunk(size: nat, off: nat, end: nat, bn: nat)
    requires InRange(bn, off, end) && off <= size && end <= off + CHUNK
    ensures off / BSIZE <= bn <= off / BSIZE + 3
    ensures bn * BSIZE >= size ==> FirstNew(size) <= bn <= FirstNew(size) + 2
  {
  }

  lemma CrossingUnique(c: nat, bn: nat)
    requires c <= bn <= c + 2 && Crosses(bn)
    ensures bn == Crossing(c)
  {
  }

  /** Three consecutive file blocks lie below at most two pointer blocks of height 1. */
  lemma LeafOf(v: View, ino: nat, c: nat, bn: nat)
    requires c <= bn <= c + 2 && bn < MAXFILE && Height(FilePos(ino, bn).slot) > 0
    ensures NodeOf(v, ino, bn, 1) == NodeOf(v, ino, c, 1) || NodeOf(v, ino, bn, 1) == NodeOf(v, ino, Crossing(c), 1)
  {
    hide NodeOf, Cap, Anc;
    if Crosses(bn) {
      CrossingUnique(c, bn);
    } else if bn > c {
      SameLeaf(v, ino, bn);
      if Crosses(bn - 1) {
        CrossingUnique(c, bn - 1);
      } else if bn - 1 > c {
        assert Height(FilePos(ino, bn - 1).slot) > 0;
        SameLeaf(v, ino, bn - 1);
      }
    }
  }

  lemma LoggedNode(v: View, ino: nat, size: nat, off: nat, end: nat, bn: nat, b: nat)
    requires Inverse(v.d, v.ins, v.own) && b in v.own && MayLog(ino, size, off, end, bn, v.own[b])
    requires off <= size && end <= off + CHUNK
    ensures b in DataNodes(v, ino, off / BSIZE) + PtrNodes(v, ino, FirstNew(size))
  {
    hide Addr, Anc, Cap, Height, FilePos, Crosses, Crossing, FirstNew, InRange;
    var q, lo, c := v.own[b], off / BSIZE, FirstNew(size);
    assert b == NodeOf(v, ino, bn, q.lvl);
    hide NodeOf;
    RangeOfChunk(size, off, end, bn);
    if q.lvl == 1 {
      LeafOf(v, ino, c, bn);
    } else if q.lvl > 1 {
      FirstBelowCrosses(ino, bn, q.lvl - 1);
      CrossingUnique(c, bn);
      HeightBound(ino, bn);
    }
  }

  lemma AllocatedNode(v: View, ino: nat, size: nat, off: nat, end: nat, bn: nat, b: nat)
    requires Inverse(v.d, v.ins, v.own) && b in v.own && MayAlloc(ino, size, off, end, bn, v.own[b])
    requires off <= size && end <= off + CHUNK
    ensures b in NewNodes(v, ino, FirstNew(size))
  {
    hide Addr, Anc, Cap, Height, FilePos, Crosses, Crossing, FirstNew, InRange;
    var q, c := v.own[b], FirstNew(size);
    assert b == NodeOf(v, ino, bn, q.lvl);
    RangeOfChunk(size, off, end, bn);
    if q.lvl > 0 {
      FirstBelowCrosses(ino, bn, q.lvl);
      CrossingUnique(c, bn);
      HeightBound(ino, bn);
    }
  }

  lemma HeightBound(ino: nat, bn: nat)
    requires bn < MAXFILE
    ensures Height(FilePos(ino, bn).slot) <= 3
  {
  }

  /** A set inside a set display is no larger than the display is long. */
  lemma CardOf4(s: set<nat>, a: nat, b: nat, c: nat, d: nat)
    requires s <= {a, b, c, d}
    ensures |s| <= 4
  {
    var t := {a, b, c, d};
    SubsetSize(s, t);
    assert t == {a} + {b} + {c} + {d};
    assert |{a} + {b}| <= 2 && |{a} + {b} + {c}| <= 3;
  }

  lemma {:induction false} CardUnion(s: set<nat>, t: set<nat>)
    ensures |s + t| <= |s| + |t|
  {
    assert s + t == s + (t - s);
    SubsetSize(t - s, t);
  }

  ghost function MapBlocks(sb: Super, s: set<nat>): set<nat> {
    set x | x in s :: sb.BBlock(x)
  }

  lemma {:induction false} CardMapBlocks(sb: Super, s: set<nat>)
    ensures |MapBlocks(sb, s)| <= |s|
  {
    if s != {} {
      var x :| x in s;
      CardMapBlocks(sb, s - {x});
      assert MapBlocks(sb, s) == MapBlocks(sb, s - {x}) + {sb.BBlock(x)};
      CardUnion(MapBlocks(sb, s - {x}), {sb.BBlock(x)});
    }
  }

  /** One chunk of at most 3 * 512 bytes, starting at or before the end of the
      file, logs at most 4 data blocks, 4 pointer blocks and the inode block,
      and the free-map blocks of at most 6 allocations. */
  lemma ChunkLogs(sb: Super, v: View, v': View, ino: nat, off: nat, end: nat)
    requires ino < |v.ins| && off <= v.ins[ino].size && end <= off + CHUNK
    requires Inverse(v'.d, v'.ins, v'.own) && WriteLogs(sb, v, v', ino, off, end)
    ensures var added := set b | b in v'.own && b !in v.own;
      && |added| <= 6 && |MapBlocks(sb, added)| <= 6
      && |v'.logged - v.logged - MapBlocks(sb, added)| <= 9
      && |v'.logged - v.logged| <= 9 + |MapBlocks(sb, added)|
  {
    hide Addr, Anc, Cap, Height, FilePos, Crosses, Crossing, FirstNew, NodeOf, Inverse, MayLog, MayAlloc;
    var size := v.ins[ino].size;
    var lo, c := off / BSIZE, FirstNew(size);
    var added := set b | b in v'.own && b !in v.own;
    forall b | b in added
      ensures b in NewNodes(v', ino, c)
    {
      var bn: nat :| MayAlloc(ino, size, off, end, bn, v'.own[b]);
      AllocatedNode(v', ino, size, off, end, bn, b);
    }
    var rest := v'.logged - v.logged - MapBlocks(sb, added);
    forall b | b in rest
      ensures b in DataNodes(v', ino, lo) + PtrNodes(v', ino, c) + {sb.IBlock(ino)}
    {
      if b != sb.IBlock(ino) {
        var bn: nat :| MayLog(ino, size, off, end, bn, v'.own[b]);
        LoggedNode(v', ino, size, off, end, bn, b);
      }
    }
    ChunkSizes(v', ino, lo, c, sb.IBlock(ino));
    SubsetSize(added, NewNodes(v', ino, c));
    SubsetSize(rest, DataNodes(v', ino, lo) + PtrNodes(v', ino, c) + {sb.IBlock(ino)});
    CardMapBlocks(sb, added);
    assert v'.logged - v.logged <= rest + MapBlocks(sb, added);
    SubsetSize(v'.logged - v.logged, rest + MapBlocks(sb, added));
    CardUnion(rest, MapBlocks(sb, added));
  }

  lemma ChunkSizes(v: View, ino: nat, lo: nat, c: nat, i: nat)
    ensures |NewNodes(v, ino, c)| <= 6
    ensures |DataNodes(v, ino, lo) + PtrNodes(v, ino, c) + {i}| <= 9
  {
    hide NodeOf, Crossing;
    var x := Crossing(c);
    CardOf4(DataNodes(v, ino, lo), NodeOf(v, ino, lo, 0), NodeOf(v, ino, lo + 1, 0), NodeOf(v, ino, lo + 2, 0), NodeOf(v, ino, lo + 3, 0));
    CardOf4(PtrNodes(v, ino, c), NodeOf(v, ino, c, 1), NodeOf(v, ino, x, 1), NodeOf(v, ino, x, 2), NodeOf(v, ino, x, 3));
    CardUnion(DataNodes(v, ino, lo), PtrNodes(v, ino, c));
    CardUnion(DataNodes(v, ino, lo) + PtrNodes(v, ino, c), {i});
    var s, t := {NodeOf(v, ino, c, 0), NodeOf(v, ino, c + 1, 0), NodeOf(v, ino, c + 2, 0)}, {NodeOf(v, ino, x, 1), NodeOf(v, ino, x, 2), NodeOf(v, ino, x, 3)};
    assert NewNodes(v, ino, c) == s + t;
    CardOf3(NodeOf(v, ino, c, 0), NodeOf(v, ino, c + 1, 0), NodeOf(v, ino, c + 2, 0));
    CardOf3(NodeOf(v, ino, x, 1), NodeOf(v, ino, x, 2), NodeOf(v, ino, x, 3));
    CardUnion(s, t);
  }

  lemma CardOf3(a: nat, b: nat, c: nat)
    ensures |{a, b, c}| <= 3
  {
    assert {a, b, c} == {a} + {b} + {c};
    assert |{a} + {b}| <= 2;
  }

  /** Hence a chunk fits in one operation's share of the log whenever its
      allocations share one block of the free map. */
  lemma ChunkFits(sb: Super, v: View, v': View, ino: nat, off: nat, end: nat, m: nat)
    requires ino < |v.ins| && off <= v.ins[ino].size && end <= off + CHUNK
    requires Inverse(v'.d, v'.ins, v'.own) && WriteLogs(sb, v, v', ino, off, end)
    requires forall b | b in v'.own && b !in v.own :: sb.BBlock(b) == m
    ensures |v'.logged - v.logged| <= MAXOPBLOCKS
  {
    hide Inverse, WriteLogs;
    ChunkLogs(sb, v, v', ino, off, end);
    var added := set b | b in v'.own && b !in v.own;
    SubsetSize(MapBlocks(sb, added), {m});
  }
}
