/** When a write runs out of blocks: exactly if fewer are free than the nodes
    missing on the paths to the file blocks it touches. */
module DiskSpace {
  import opened Common
  import opened Bytes
  import opened BlockTree
  import opened BlockViews
  import opened FileWrites

  ghost function FreeBlocks(sb: Super, d: Disk): set<nat>
    requires Layout(sb, d)
  {
    set b: nat | b < sb.size && !Used(sb, d, b)
  }

  /** The node at height l on the path to file block bn. */
  ghost function Node(ino: nat, bn: nat, l: nat): Pos
    requires bn < MAXFILE
  {
    if l <= Height(FilePos(ino, bn).slot) then Anc(FilePos(ino, bn), l) else FilePos(ino, bn)
  }

  /** The nodes on the paths to the file blocks of [off, end) that are not mapped. */
  ghost function Missing(v: View, ino: nat, off: nat, end: nat): set<Pos> {
    set bn: nat, l: nat | bn < MAXFILE && l <= 3 && InRange(bn, off, end) && v.At(Node(ino, bn, l)) == 0 :: Node(ino, bn, l)
  }

  /** Between v and v' exactly the nodes in more have been mapped, to blocks that were free. */
  ghost predicate Fills(sb: Super, v: View, v': View, more: set<Pos>)
    requires Layout(sb, v.d) && Layout(sb, v'.d)
  {
    && (forall q :: v'.At(q) == 0 <==> v.At(q) == 0 && q !in more)
    && |FreeBlocks(sb, v'.d)| + |more| == |FreeBlocks(sb, v.d)|
  }

  lemma InMissing(v: View, ino: nat, off: nat, end: nat, bn: nat, l: nat)
    requires bn < MAXFILE && l <= Height(FilePos(ino, bn).slot) && InRange(bn, off, end) && v.At(Anc(FilePos(ino, bn), l)) == 0
    ensures Anc(FilePos(ino, bn), l) in Missing(v, ino, off, end)
  {
    hide Anc, InRange, View.At;
    HeightSmall(ino, bn);
    assert Node(ino, bn, l) == Anc(FilePos(ino, bn), l);
  }

  lemma HeightSmall(ino: nat, bn: nat)
    requires bn < MAXFILE
    ensures Height(FilePos(ino, bn).slot) <= 3
  {
  }

  // ---------- Counting ----------

  /** Blocks that stand for distinct positions are no more than the positions. */
  lemma {:induction false} NoMoreBlocks(own: Owner, s: set<nat>, ps: set<Pos>)
    requires forall b | b in s :: b in own && own[b] in ps
    requires forall b, c | b in s && c in s && own[b] == own[c] :: b == c
    ensures |s| <= |ps|
  {
    if s != {} {
      var b :| b in s;
      NoMoreBlocks(own, s - {b}, ps - {own[b]});
    }
  }

  /** Positions that blocks of s stand for are no more than those blocks. */
  lemma {:induction false} NoMorePositions(own: Owner, s: set<nat>, ps: set<Pos>)
    requires forall p | p in ps :: exists b | b in s :: b in own && own[b] == p
    ensures |ps| <= |s|
  {
    if ps != {} {
      var p :| p in ps;
      var b :| b in s && b in own && own[b] == p;
      forall q | q in ps - {p}
        ensures exists c | c in s - {b} :: c in own && own[c] == q
      {
        var c :| c in s && c in own && own[c] == q;
        assert c in s - {b};
      }
      NoMorePositions(own, s - {b}, ps - {p});
    }
  }

  ghost function Added(own: Owner, own': Owner): set<nat> {
    set b | b in own' && b !in own
  }

  ghost predicate Kept(own: Owner, own': Owner) {
    forall b | b in own :: b in own' && own'[b] == own[b]
  }

  /** The blocks allocated between two states were free, and are all that was. */
  lemma AddedWereFree(sb: Super, v: View, v': View)
    requires MapOk(sb, v.d, v.own) && MapOk(sb, v'.d, v'.own) && Kept(v.own, v'.own)
    ensures FreeBlocks(sb, v.d) == FreeBlocks(sb, v'.d) + Added(v.own, v'.own)
    ensures |FreeBlocks(sb, v.d)| == |FreeBlocks(sb, v'.d)| + |Added(v.own, v'.own)|
  {
    hide Used;
    var f, f', a := FreeBlocks(sb, v.d), FreeBlocks(sb, v'.d), Added(v.own, v'.own);
    assert f == f' + a;
    assert f' !! a;
  }

  /** Mapped positions stay mapped. */
  lemma StaysMapped(v: View, v': View, q: Pos)
    requires Inverse(v.d, v.ins, v.own) && Inverse(v'.d, v'.ins, v'.own) && Kept(v.own, v'.own)
    ensures v.At(q) != 0 ==> v'.At(q) == v.At(q)
  {
    hide Addr;
    if v.At(q) != 0 { assert v'.own[v.At(q)] == q; }
  }

  lemma OwnedIsMapped(v: View, b: nat)
    requires Inverse(v.d, v.ins, v.own) && b in v.own
    ensures v.At(v.own[b]) == b != 0
  {
  }

  lemma OwnerOf(v: View, b: nat)
    requires Inverse(v.d, v.ins, v.own) && b !in v.own
    ensures forall p :: v.At(p) == b ==> b == 0
  {
  }

  /** A new block is at a position that was not mapped. */
  lemma NewUnmapped(v: View, v': View, b: nat)
    requires Inverse(v.d, v.ins, v.own) && Inverse(v'.d, v'.ins, v'.own) && Kept(v.own, v'.own) && b in v'.own && b !in v.own
    ensures v.At(v'.own[b]) == 0
  {
    hide Inverse, View.At;
    OwnedIsMapped(v', b);
    StaysMapped(v, v', v'.own[b]);
    OwnerOf(v, b);
  }

  /** If all new blocks are at positions in more, they are at most as many. */
  lemma AddedFew(v: View, v': View, more: set<Pos>)
    requires Inverse(v'.d, v'.ins, v'.own) && forall b | b in v'.own && b !in v.own :: v'.own[b] in more
    ensures |Added(v.own, v'.own)| <= |more|
  {
    hide Addr;
    NoMoreBlocks(v'.own, Added(v.own, v'.own), more);
  }

  /** If moreover all of more is mapped, they are just as many. */
  lemma AddedAll(v: View, v': View, more: set<Pos>)
    requires Inverse(v.d, v.ins, v.own) && Inverse(v'.d, v'.ins, v'.own) && Kept(v.own, v'.own)
    requires forall p | p in more :: v.At(p) == 0 && v'.At(p) != 0
    ensures |more| <= |Added(v.own, v'.own)|
  {
    hide Addr;
    var s := Added(v.own, v'.own);
    forall p | p in more
      ensures exists b | b in s :: b in v'.own && v'.own[b] == p
    {
      var b := v'.At(p);
      assert b in v'.own && v'.own[b] == p && b in s;
    }
    NoMorePositions(v'.own, s, more);
  }

  // ---------- One file block ----------

  /** On the way to position t the blocks have run out: what has been mapped
      was missing on the path, and a node of the path still is. */
  ghost predicate PathStuck(v: View, v': View, t: Pos) {
    && Kept(v.own, v'.own)
    && (forall b | b in v'.own && b !in v.own :: OnPath(t, t.lvl, v'.own[b]))
    && exists l: nat | t.lvl <= l <= Height(t.slot) :: v'.At(Anc(t, l)) == 0
  }

  lemma StuckAtRoot(v: View, t: Pos)
    requires t.lvl <= Height(t.slot) && v.At(Anc(t, Height(t.slot))) == 0
    ensures PathStuck(v, v, t)
  {
    hide Addr, Anc, Height;
  }

  lemma StuckBelow(sb: Super, v: View, v': View, t: Pos, l: nat)
    requires t.lvl < l <= Height(t.slot) && PathMapped(sb, v, v', t, l) && v'.At(Anc(t, l - 1)) == 0
    ensures PathStuck(v, v', t)
  {
    hide Addr, Anc, Height;
  }

  // ---------- A write ----------

  /** What the rounds of a write have allocated was missing. */
  lemma NewWasMissing(sb: Super, v: View, v1: View, ino: nat, src: seq<Byte>, off: nat, tot: nat, end: nat, b: nat)
    requires Written(sb, v, v1, ino, src, off, tot) && TreeOk(v.d, v.ins, v.own) && off + tot <= end && b in v1.own && b !in v.own
    ensures v1.own[b] in Missing(v, ino, off, end)
  {
    hide Addr, Anc, Height, Cap, FilePos, MapOk, ByteAt, InRange, Missing, NoHoles;
    var q := v1.own[b];
    AllocStillExplained(ino, v.ins[ino].size, off, off + tot, end, q);
    var bn: nat :| MayAlloc(ino, v.ins[ino].size, off, end, bn, q);
    NewUnmapped(v, v1, b);
    InMissing(v, ino, off, end, bn, q.lvl);
  }

  /** A write that panics: there were too few free blocks at the start. */
  lemma TooFew(sb: Super, v: View, v1: View, v2: View, ino: nat, src: seq<Byte>, off: nat, tot: nat, end: nat)
    requires Written(sb, v, v1, ino, src, off, tot) && MapOk(sb, v.d, v.own) && TreeOk(v.d, v.ins, v.own)
    requires MapOk(sb, v2.d, v2.own) && TreeOk(v2.d, v2.ins, v2.own) && forall b: nat | b < sb.size :: Used(sb, v2.d, b)
    requires off + tot < end && (off + tot) / BSIZE < MAXFILE && PathStuck(v1, v2, FilePos(ino, (off + tot) / BSIZE))
    ensures |FreeBlocks(sb, v.d)| < |Missing(v, ino, off, end)|
  {
    hide Addr, Anc, Height, Cap, FilePos, MapOk, ByteAt, Missing, NoHoles, Used, Inverse, FreeBlocks;
    var bn, more := (off + tot) / BSIZE, Missing(v, ino, off, end);
    var t := FilePos(ino, bn);
    assert t.lvl == 0 by { FileIsLeaf(ino, bn); }
    assert InRange(bn, off, end);
    var l: nat :| t.lvl <= l <= Height(t.slot) && v2.At(Anc(t, l)) == 0;
    var q := Anc(t, l);
    KeptTwice(v.own, v1.own, v2.own);
    StaysMapped(v, v2, q);
    InMissing(v, ino, off, end, bn, l);
    forall b | b in v2.own && b !in v.own
      ensures v2.own[b] in more - {q}
    {
      OwnedIsMapped(v2, b);
      if b in v1.own {
        NewWasMissing(sb, v, v1, ino, src, off, tot, end, b);
      } else {
        NewUnmapped(v, v2, b);
        InMissing(v, ino, off, end, bn, v2.own[b].lvl);
      }
    }
    AddedFew(v, v2, more - {q});
    AddedWereFree(sb, v, v2);
    Laid(sb, v2);
    NoneFree(sb, v2.d);
  }

  lemma Laid(sb: Super, v: View)
    requires MapOk(sb, v.d, v.own)
    ensures Layout(sb, v.d)
  {
  }

  lemma FileIsLeaf(ino: nat, bn: nat)
    requires bn < MAXFILE
    ensures FilePos(ino, bn).lvl == 0
  {
  }

  lemma KeptTwice(own: Owner, own1: Owner, own2: Owner)
    requires Kept(own1, own2) && forall b | b in own :: b in own1 && own1[b] == own[b]
    ensures Kept(own, own2)
  {
  }

  lemma NoneFree(sb: Super, d: Disk)
    requires Layout(sb, d) && forall b: nat | b < sb.size :: Used(sb, d, b)
    ensures FreeBlocks(sb, d) == {}
  {
  }

  /** A missing node has been mapped once the write has reached its file block. */
  lemma MissingGetsMapped(sb: Super, v: View, v1: View, ino: nat, src: seq<Byte>, off: nat, tot: nat, p: Pos)
    requires Written(sb, v, v1, ino, src, off, tot) && p in Missing(v, ino, off, off + tot)
    ensures v.At(p) == 0 && v1.At(p) != 0
  {
    hide Addr, Anc, Height, Cap, FilePos, MapOk, TreeOk, ByteAt;
    var bn: nat, l: nat :| bn < MAXFILE && l <= 3 && InRange(bn, off, off + tot) && v.At(Node(ino, bn, l)) == 0 && p == Node(ino, bn, l);
    assert Lookup(v1.d, v1.ins, ino, bn) != 0;
    if l <= Height(FilePos(ino, bn).slot) { MappedAbove(v1.d, v1.ins, FilePos(ino, bn), l); }
  }

  /** A write that succeeds maps exactly the missing nodes, each to a block that was free. */
  lemma FillsRange(sb: Super, v: View, v1: View, v': View, ino: nat, src: seq<Byte>, off: nat)
    requires Written(sb, v, v1, ino, src, off, |src|) && MapOk(sb, v.d, v.own) && TreeOk(v.d, v.ins, v.own) && ino < |v1.ins|
    requires v'.d == v1.d && v'.own == v1.own && Inverse(v'.d, v'.ins, v'.own) && MapOk(sb, v'.d, v'.own)
    ensures Fills(sb, v, v', Missing(v, ino, off, off + |src|)) && |FreeBlocks(sb, v.d)| >= |Missing(v, ino, off, off + |src|)|
  {
    hide Addr, Anc, Height, Cap, FilePos, MapOk, ByteAt, Missing, NoHoles, Used, Inverse, FreeBlocks, View.At, Lookup, AllocExplained;
    var more := Missing(v, ino, off, off + |src|);
    Laid(sb, v);
    Laid(sb, v');
    forall q
      ensures v'.At(q) == 0 <==> v.At(q) == 0 && q !in more
    {
      SameOwners(v1, v', q);
      StaysMapped(v, v1, q);
      if q in more {
        MissingGetsMapped(sb, v, v1, ino, src, off, |src|, q);
      } else if v1.At(q) != 0 {
        MappedIsOwned(v1, q);
        if v1.At(q) in v.own { OwnedIsMapped(v, v1.At(q)); }
        else { NewWasMissing(sb, v, v1, ino, src, off, |src|, off + |src|, v1.At(q)); }
      }
    }
    forall b | b in v'.own && b !in v.own
      ensures v'.own[b] in more
    {
      NewWasMissing(sb, v, v1, ino, src, off, |src|, off + |src|, b);
    }
    forall p | p in more
      ensures v.At(p) == 0 && v'.At(p) != 0
    {
      MissingGetsMapped(sb, v, v1, ino, src, off, |src|, p);
    }
    AddedFew(v, v', more);
    AddedAll(v, v', more);
    AddedWereFree(sb, v, v');
  }

  lemma MappedIsOwned(v: View, q: Pos)
    requires Inverse(v.d, v.ins, v.own) && v.At(q) != 0
    ensures v.At(q) in v.own && v.own[v.At(q)] == q
  {
  }

  /** Two states with one ownership map the same. */
  lemma SameOwners(v: View, v': View, q: Pos)
    requires Inverse(v.d, v.ins, v.own) && Inverse(v'.d, v'.ins, v'.own) && v'.own == v.own
    ensures v'.At(q) == v.At(q)
  {
    hide Inverse, View.At;
    StaysMapped(v, v', q);
    StaysMapped(v', v, q);
  }

  // ---------- Several writes in a row ----------

  lemma RangeSplits(bn: nat, a: nat, b: nat, c: nat)
    requires a <= b <= c
    ensures InRange(bn, a, c) <==> InRange(bn, a, b) || InRange(bn, b, c)
  {
  }

  /** What the second write lacks is what both together lacked, less what the first has mapped. */
  lemma MissingSplits(sb: Super, v: View, v1: View, ino: nat, a: nat, b: nat, c: nat)
    requires a <= b <= c && Layout(sb, v.d) && Layout(sb, v1.d) && Fills(sb, v, v1, Missing(v, ino, a, b))
    ensures Missing(v, ino, a, c) == Missing(v, ino, a, b) + Missing(v1, ino, b, c)
    ensures |Missing(v, ino, a, c)| == |Missing(v, ino, a, b)| + |Missing(v1, ino, b, c)|
  {
    hide InRange, View.At, Node, FreeBlocks;
    var m, m1, m2 := Missing(v, ino, a, c), Missing(v, ino, a, b), Missing(v1, ino, b, c);
    forall bn: nat
      ensures InRange(bn, a, c) <==> InRange(bn, a, b) || InRange(bn, b, c)
    {
      RangeSplits(bn, a, b, c);
    }
    forall q | q in m
      ensures q in m1 || q in m2
    {
      var bn: nat, l: nat :| bn < MAXFILE && l <= 3 && InRange(bn, a, c) && v.At(Node(ino, bn, l)) == 0 && q == Node(ino, bn, l);
    }
    forall q | q in m2
      ensures q in m && q !in m1
    {
      var bn: nat, l: nat :| bn < MAXFILE && l <= 3 && InRange(bn, b, c) && v1.At(Node(ino, bn, l)) == 0 && q == Node(ino, bn, l);
    }
    assert m == m1 + m2;
    assert m1 !! m2;
  }

  /** So two writes in a row map what both together lacked. */
  lemma FillsTwice(sb: Super, v: View, v1: View, v2: View, ino: nat, a: nat, b: nat, c: nat)
    requires a <= b <= c && Layout(sb, v.d) && Layout(sb, v1.d) && Layout(sb, v2.d)
    requires Fills(sb, v, v1, Missing(v, ino, a, b)) && Fills(sb, v1, v2, Missing(v1, ino, b, c))
    ensures Fills(sb, v, v2, Missing(v, ino, a, c))
  {
    hide Missing, View.At, FreeBlocks;
    MissingSplits(sb, v, v1, ino, a, b, c);
  }

  /** Nothing is missing below the end of a file. */
  lemma NothingMissing(sb: Super, v: View, ino: nat, a: nat)
    requires MapOk(sb, v.d, v.own) && TreeOk(v.d, v.ins, v.own) && ino < |v.ins| && a <= v.ins[ino].size
    ensures Missing(v, ino, a, a) == {} && Layout(sb, v.d) && Fills(sb, v, v, {})
  {
    hide Addr, Anc, Height, Cap, FilePos, Used, Inverse, FreeBlocks;
    forall bn: nat, l: nat | bn < MAXFILE && l <= 3 && InRange(bn, a, a)
      ensures v.At(Node(ino, bn, l)) != 0
    {
      assert Lookup(v.d, v.ins, ino, bn) != 0;
      if l <= Height(FilePos(ino, bn).slot) { MappedAbove(v.d, v.ins, FilePos(ino, bn), l); }
    }
  }

  lemma {:induction false} FewerPositions(s: set<Pos>, t: set<Pos>)
    requires s <= t
    ensures |s| <= |t|
  {
    if s != {} {
      var p :| p in s;
      FewerPositions(s - {p}, t - {p});
    }
  }

  /** A longer range lacks no fewer. */
  lemma MoreMissing(v: View, ino: nat, off: nat, end: nat, end': nat)
    requires end <= end'
    ensures |Missing(v, ino, off, end)| <= |Missing(v, ino, off, end')|
  {
    hide Node, View.At;
    forall q | q in Missing(v, ino, off, end)
      ensures q in Missing(v, ino, off, end')
    {
      var bn: nat, l: nat :| bn < MAXFILE && l <= 3 && InRange(bn, off, end) && v.At(Node(ino, bn, l)) == 0 && q == Node(ino, bn, l);
      assert InRange(bn, off, end');
    }
    FewerPositions(Missing(v, ino, off, end), Missing(v, ino, off, end'));
  }
}
