/** What writei has done after each of its chunks: the bytes it has placed,
    the bytes it has kept, the blocks it has allocated and logged. */
module FileWrites {
  import opened Common
  import opened Bytes
  import opened BlockTree
  import opened BlockViews
  import opened Truncation

  /** File block bn holds a byte of [off, end). */
  predicate InRange(bn: nat, off: nat, end: nat) {
    off < (bn + 1) * BSIZE && bn * BSIZE < end
  }

  /** Writing [off, end) of a file of the given size may log node q, because
      of file block bn: its data block always, a pointer block only above a
      block past the end of the file, and then only if bn is the first block
      below the entry written. */
  ghost predicate MayLog(ino: nat, size: nat, off: nat, end: nat, bn: nat, q: Pos) {
    && bn < MAXFILE && InRange(bn, off, end)
    && q.lvl <= Height(FilePos(ino, bn).slot) && q == Anc(FilePos(ino, bn), q.lvl)
    && (q.lvl == 0 || (bn * BSIZE >= size && FilePos(ino, bn).idx % Cap(q.lvl - 1) == 0))
  }

  /** It may allocate node q because of bn: bn is past the end of the file and
      the first block below q. */
  ghost predicate MayAlloc(ino: nat, size: nat, off: nat, end: nat, bn: nat, q: Pos) {
    && bn < MAXFILE && InRange(bn, off, end) && bn * BSIZE >= size
    && q.lvl <= Height(FilePos(ino, bn).slot) && q == Anc(FilePos(ino, bn), q.lvl)
    && FilePos(ino, bn).idx % Cap(q.lvl) == 0
  }

  ghost predicate LogExplained(ino: nat, size: nat, off: nat, end: nat, q: Pos) {
    exists bn: nat :: MayLog(ino, size, off, end, bn, q)
  }

  ghost predicate AllocExplained(ino: nat, size: nat, off: nat, end: nat, q: Pos) {
    exists bn: nat :: MayAlloc(ino, size, off, end, bn, q)
  }


  /** v' is v after the bytes src[..tot] have been placed at off in file ino. */
  ghost predicate Written(sb: Super, v: View, v': View, ino: nat, src: seq<Byte>, off: nat, tot: nat) {
    && SameFiles(v, v', ino) && tot <= |src|
    && MapOk(sb, v'.d, v'.own) && TreeOk(v'.d, v'.ins, v'.own)
    && (forall bn: nat | bn < MAXFILE && bn * BSIZE < Max(v.ins[ino].size, off + tot) :: Lookup(v'.d, v'.ins, ino, bn) != 0)
    && (forall i: nat, k: nat | i < |v.ins| && k < v.ins[i].size && !(i == ino && off <= k < off + tot) ::
          ByteAt(v', i, k) == ByteAt(v, i, k))
    && (forall k: nat | off <= k < off + tot :: ByteAt(v', ino, k) == src[k - off])
    && (off + tot <= v.ins[ino].size ==> v'.ins == v.ins)
    && (forall b | b in v.own :: b in v'.own && v'.own[b] == v.own[b])
    && (forall b | b in v'.own && b !in v.own ::
          AllocExplained(ino, v.ins[ino].size, off, off + tot, v'.own[b]))
    && (forall b | b in v'.logged && b !in v.logged ::
          MapOfNew(sb, v, v', b) || (b in v'.own && LogExplained(ino, v.ins[ino].size, off, off + tot, v'.own[b])))
  }

  /** memmove(data + o, s, |s|). */
  function PutBytes(b: Block, o: nat, s: seq<Byte>): Block
    requires o + |s| <= BSIZE
  {
    b[..o] + s + b[o + |s|..]
  }

  /** One round of the loop of writei, from v1 (tot bytes placed) over v2 (the
      file block mapped) to v3 (m more bytes placed and the block logged). */
  ghost predicate Round(sb: Super, v: View, v1: View, v2: View, v3: View, ino: nat, src: seq<Byte>, off: nat, tot: nat, m: nat) {
    var bn := (off + tot) / BSIZE;
    && Written(sb, v, v1, ino, src, off, tot)
    && bn < MAXFILE && 0 < m && tot + m <= |src| && (off + tot) % BSIZE + m <= BSIZE
    && ino < |v.ins| && off <= v.ins[ino].size
    && PathMapped(sb, v1, v2, FilePos(ino, bn), 0)
    && MapOk(sb, v2.d, v2.own) && TreeOk(v2.d, v2.ins, v2.own)
    && 0 < Lookup(v2.d, v2.ins, ino, bn) < |v2.d|
    && (var a := Lookup(v2.d, v2.ins, ino, bn);
        v3 == WriteView(v2, ino, bn, PutBytes(v2.d[a], (off + tot) % BSIZE, src[tot..tot + m])).(logged := v2.logged + {a}))
  }

  /** A byte of a block that was mapped before the round and is not overwritten. */
  lemma KeptByte(sb: Super, v1: View, v2: View, ino: nat, bn: nat, o: nat, s: seq<Byte>, i: nat, k: nat)
    requires TreeOk(v1.d, v1.ins, v1.own) && MapOk(sb, v2.d, v2.own) && TreeOk(v2.d, v2.ins, v2.own)
    requires bn < MAXFILE && PathMapped(sb, v1, v2, FilePos(ino, bn), 0) && 0 < Lookup(v2.d, v2.ins, ino, bn) < |v2.d|
    requires o + |s| <= BSIZE && k / BSIZE < MAXFILE && Lookup(v1.d, v1.ins, i, k / BSIZE) != 0
    requires !(i == ino && k / BSIZE == bn && o <= k % BSIZE < o + |s|)
    ensures ByteAt(WriteView(v2, ino, bn, PutBytes(v2.d[Lookup(v2.d, v2.ins, ino, bn)], o, s)), i, k) == ByteAt(v1, i, k)
  {
    hide Addr, Used, Anc, Cap, Height, FilePos;
    var a := Lookup(v2.d, v2.ins, ino, bn);
    DataWriteBytes(sb, v2, ino, bn, PutBytes(v2.d[a], o, s), i, k);
    MappedBlockStays(sb, v1, v2, FilePos(ino, bn), i, k / BSIZE);
  }

  /** A byte of the file, old or already placed, lies in a mapped block. */
  lemma RoundMapped(sb: Super, v: View, v1: View, ino: nat, src: seq<Byte>, off: nat, tot: nat, i: nat, k: nat)
    requires Written(sb, v, v1, ino, src, off, tot) && (off + tot) / BSIZE < MAXFILE
    requires i < |v.ins| && (k < v.ins[i].size || (i == ino && k < off + tot))
    ensures TreeOk(v1.d, v1.ins, v1.own) && k / BSIZE < MAXFILE && Lookup(v1.d, v1.ins, i, k / BSIZE) != 0
  {
    hide Addr, Used, Anc, Cap, Height, FilePos, MapOk, ByteAt, Inverse;
  }

  /** Bytes after a round. */
  lemma RoundByte(sb: Super, v: View, v1: View, v2: View, v3: View, ino: nat, src: seq<Byte>, off: nat, tot: nat, m: nat,
                  i: nat, k: nat)
    requires Round(sb, v, v1, v2, v3, ino, src, off, tot, m)
    requires i < |v.ins| && (k < v.ins[i].size || (i == ino && k < off + tot + m))
    ensures ByteAt(v3, i, k) == if i == ino && off + tot <= k < off + tot + m then src[k - off] else ByteAt(v1, i, k)
  {
    hide Addr, Used, Anc, Cap, Height, FilePos, PathMapped, MapOk, TreeOk, Written;
    var bn, o := (off + tot) / BSIZE, (off + tot) % BSIZE;
    var a := Lookup(v2.d, v2.ins, ino, bn);
    var s := src[tot..tot + m];
    if i == ino && off + tot <= k < off + tot + m {
      assert k / BSIZE == bn && k % BSIZE == o + (k - off - tot);
      DataWriteBytes(sb, v2, ino, bn, PutBytes(v2.d[a], o, s), i, k);
    } else {
      RoundMapped(sb, v, v1, ino, src, off, tot, i, k);
      assert k == BSIZE * (k / BSIZE) + k % BSIZE && off + tot == BSIZE * bn + o;
      KeptByte(sb, v1, v2, ino, bn, o, s, i, k);
    }
  }

  /** File blocks after a round: those mapped stay, and the written one is mapped. */
  lemma RoundLookup(sb: Super, v: View, v1: View, v2: View, v3: View, ino: nat, src: seq<Byte>, off: nat, tot: nat, m: nat,
                    n: nat)
    requires Round(sb, v, v1, v2, v3, ino, src, off, tot, m)
    requires n < MAXFILE && n * BSIZE < Max(v.ins[ino].size, off + tot + m)
    ensures Lookup(v3.d, v3.ins, ino, n) != 0
  {
    hide Addr, Used, Anc, Cap, Height, FilePos, PathMapped, MapOk, Inverse, NoHoles, Written;
    var bn, o := (off + tot) / BSIZE, (off + tot) % BSIZE;
    var a := Lookup(v2.d, v2.ins, ino, bn);
    DataWriteKeepsTree(sb, v2, ino, bn, PutBytes(v2.d[a], o, src[tot..tot + m]));
    assert v3.At(FilePos(ino, n)) == v2.At(FilePos(ino, n));
    if n * BSIZE < Max(v.ins[ino].size, off + tot) {
      RoundMapped(sb, v, v1, ino, src, off, tot, ino, n * BSIZE);
      MappedBlockStays(sb, v1, v2, FilePos(ino, bn), ino, n);
    } else {
      assert n == bn;
    }
  }

  /** A node on the path to the file block being written that was not mapped. */
  lemma RoundFirst(sb: Super, v: View, v1: View, ino: nat, src: seq<Byte>, off: nat, tot: nat, k: nat)
    requires Written(sb, v, v1, ino, src, off, tot) && (off + tot) / BSIZE < MAXFILE
    requires k <= Height(FilePos(ino, (off + tot) / BSIZE).slot)
    requires v1.At(Anc(FilePos(ino, (off + tot) / BSIZE), k)) == 0
    ensures (off + tot) / BSIZE * BSIZE >= v.ins[ino].size
    ensures FilePos(ino, (off + tot) / BSIZE).idx % Cap(k) == 0
  {
    hide Addr, Used, Anc, Cap, Height, FilePos, PathMapped, MapOk, TreeOk, ByteAt;
    var bn := (off + tot) / BSIZE;
    if bn * BSIZE < v.ins[ino].size {
      assert Lookup(v1.d, v1.ins, ino, bn) != 0;
      MappedAbove(v1.d, v1.ins, FilePos(ino, bn), k);
    }
    UnmappedIsFirst(v1.d, v1.ins, ino, bn, k);
  }

  lemma AllocStillExplained(ino: nat, size: nat, off: nat, end: nat, end': nat, q: Pos)
    requires AllocExplained(ino, size, off, end, q) && end <= end'
    ensures AllocExplained(ino, size, off, end', q)
  {
    hide Anc, Cap, Height, FilePos;
    var bn: nat :| MayAlloc(ino, size, off, end, bn, q);
    assert MayAlloc(ino, size, off, end', bn, q);
  }

  lemma LogStillExplained(ino: nat, size: nat, off: nat, end: nat, end': nat, q: Pos)
    requires LogExplained(ino, size, off, end, q) && end <= end'
    ensures LogExplained(ino, size, off, end', q)
  {
    hide Anc, Cap, Height, FilePos;
    var bn: nat :| MayLog(ino, size, off, end, bn, q);
    assert MayLog(ino, size, off, end', bn, q);
  }

  /** Blocks allocated by a round. */
  lemma RoundOwn(sb: Super, v: View, v1: View, v2: View, v3: View, ino: nat, src: seq<Byte>, off: nat, tot: nat, m: nat,
                 b: nat)
    requires Round(sb, v, v1, v2, v3, ino, src, off, tot, m) && b in v3.own && b !in v.own
    ensures AllocExplained(ino, v.ins[ino].size, off, off + tot + m, v3.own[b])
  {
    hide Addr, Used, Anc, Cap, Height, FilePos, MapOk, TreeOk, ByteAt, PutBytes, NoHoles;
    var bn := (off + tot) / BSIZE;
    if b in v1.own {
      AllocStillExplained(ino, v.ins[ino].size, off, off + tot, off + tot + m, v1.own[b]);
    } else {
      var q := v2.own[b];
      RoundFirst(sb, v, v1, ino, src, off, tot, q.lvl);
      assert MayAlloc(ino, v.ins[ino].size, off, off + tot + m, bn, q);
    }
  }

  /** Blocks logged by a round. */
  lemma RoundLogged(sb: Super, v: View, v1: View, v2: View, v3: View, ino: nat, src: seq<Byte>, off: nat, tot: nat, m: nat,
                    b: nat)
    requires Round(sb, v, v1, v2, v3, ino, src, off, tot, m) && b in v3.logged && b !in v.logged && !MapOfNew(sb, v, v3, b)
    ensures b in v3.own && LogExplained(ino, v.ins[ino].size, off, off + tot + m, v3.own[b])
  {
    hide Addr, Used, Anc, Cap, Height, MapOk, ByteAt, PutBytes, NoHoles;
    var bn := (off + tot) / BSIZE;
    var t := FilePos(ino, bn);
    if b in v1.logged {
      LogStillExplained(ino, v.ins[ino].size, off, off + tot, off + tot + m, v1.own[b]);
    } else if b in v2.logged {
      var q := v2.own[b];
      RoundFirst(sb, v, v1, ino, src, off, tot, if q.lvl == 0 then 0 else q.lvl - 1);
      assert MayLog(ino, v.ins[ino].size, off, off + tot + m, bn, q);
    } else {
      assert v2.own[b] == t == Anc(t, 0);
      assert MayLog(ino, v.ins[ino].size, off, off + tot + m, bn, t);
    }
  }

  /** A round below the end of the file changes no inode. */
  lemma RoundInodes(sb: Super, v: View, v1: View, v2: View, v3: View, ino: nat, src: seq<Byte>, off: nat, tot: nat, m: nat)
    requires Round(sb, v, v1, v2, v3, ino, src, off, tot, m) && off + tot + m <= v.ins[ino].size
    ensures v3.ins == v.ins
  {
    hide Addr, Used, Anc, Cap, Height, FilePos, MapOk, TreeOk, ByteAt, PutBytes, Inverse;
    var bn := (off + tot) / BSIZE;
    assert Lookup(v1.d, v1.ins, ino, bn) != 0;
  }

  /** A round keeps the progress made and adds m bytes to it. */
  lemma RoundKeeps(sb: Super, v: View, v1: View, v2: View, v3: View, ino: nat, src: seq<Byte>, off: nat, tot: nat, m: nat)
    requires Round(sb, v, v1, v2, v3, ino, src, off, tot, m)
    ensures Written(sb, v, v3, ino, src, off, tot + m)
  {
    hide Addr, Used, Anc, Cap, Height, FilePos, MapOk, TreeOk, ByteAt, PutBytes, Lookup, PathMapped;
    RoundFrame(sb, v, v1, v2, v3, ino, src, off, tot, m);
    forall n: nat | n < MAXFILE && n * BSIZE < Max(v.ins[ino].size, off + tot + m)
      ensures Lookup(v3.d, v3.ins, ino, n) != 0
    {
      RoundLookup(sb, v, v1, v2, v3, ino, src, off, tot, m, n);
    }
    forall i: nat, k: nat | i < |v.ins| && k < v.ins[i].size && !(i == ino && off <= k < off + tot + m)
      ensures ByteAt(v3, i, k) == ByteAt(v, i, k)
    {
      RoundByte(sb, v, v1, v2, v3, ino, src, off, tot, m, i, k);
    }
    forall k: nat | off <= k < off + tot + m
      ensures ByteAt(v3, ino, k) == src[k - off]
    {
      RoundByte(sb, v, v1, v2, v3, ino, src, off, tot, m, ino, k);
    }
    if off + tot + m <= v.ins[ino].size {
      RoundInodes(sb, v, v1, v2, v3, ino, src, off, tot, m);
    }
    forall b | b in v3.own && b !in v.own
      ensures AllocExplained(ino, v.ins[ino].size, off, off + tot + m, v3.own[b])
    {
      RoundOwn(sb, v, v1, v2, v3, ino, src, off, tot, m, b);
    }
    forall b | b in v3.logged && b !in v.logged && !MapOfNew(sb, v, v3, b)
      ensures b in v3.own && LogExplained(ino, v.ins[ino].size, off, off + tot + m, v3.own[b])
    {
      RoundLogged(sb, v, v1, v2, v3, ino, src, off, tot, m, b);
    }
  }

  lemma RoundFrame(sb: Super, v: View, v1: View, v2: View, v3: View, ino: nat, src: seq<Byte>, off: nat, tot: nat, m: nat)
    requires Round(sb, v, v1, v2, v3, ino, src, off, tot, m)
    ensures SameFiles(v, v3, ino) && forall b | b in v.own :: b in v3.own && v3.own[b] == v.own[b]
    ensures MapOk(sb, v3.d, v3.own) && TreeOk(v3.d, v3.ins, v3.own)
  {
    hide Addr, Used, Anc, Cap, Height, MapOk, ByteAt, PutBytes, NoHoles, Inverse, Lookup;
    var bn, o := (off + tot) / BSIZE, (off + tot) % BSIZE;
    var a := Lookup(v2.d, v2.ins, ino, bn);
    DataWriteKeepsTree(sb, v2, ino, bn, PutBytes(v2.d[a], o, src[tot..tot + m]));
  }

  /** The view after ip->size has been set. */
  ghost function Resized(v: View, ino: nat, size: nat): View
    requires ino < |v.ins|
  {
    v.(ins := v.ins[ino := v.ins[ino].(size := size)])
  }

  /** Setting the size moves no address; the trees stay if every block below it is mapped. */
  lemma ResizeKeepsTree(v: View, ino: nat, size: nat)
    requires TreeOk(v.d, v.ins, v.own) && ino < |v.ins| && size <= MAXFILE * BSIZE
    requires forall bn: nat | bn < MAXFILE && bn * BSIZE < size :: Lookup(v.d, v.ins, ino, bn) != 0
    ensures var v' := Resized(v, ino, size);
      && TreeOk(v'.d, v'.ins, v'.own)
      && forall q :: Addr(v'.d, v'.ins, q) == Addr(v.d, v.ins, q)
  {
    hide Addr, Cap, Height;
    var v' := Resized(v, ino, size);
    forall q
      ensures Addr(v'.d, v'.ins, q) == Addr(v.d, v.ins, q)
    {
      AddrFrame(v.d, v.d, v.ins, v'.ins, v.own, q);
    }
    forall i: nat, bn: nat | i < |v'.ins| && bn < MAXFILE && bn * BSIZE < v'.ins[i].size
      ensures Lookup(v'.d, v'.ins, i, bn) != 0
    {
      assert Lookup(v.d, v.ins, i, bn) != 0;
    }
  }

  /** v' is v1 with the size of file ino raised to reach `end` and its inode block logged. */
  ghost predicate Sized(sb: Super, v1: View, v': View, ino: nat, end: nat)
    requires ino < |v1.ins|
  {
    v'.d == v1.d && v'.own == v1.own && v'.logged <= v1.logged + {sb.IBlock(ino)} && v'.ins == v1.ins[ino := v1.ins[ino].(size := Max(v1.ins[ino].size, end))]
  }

  /** When all of src has been placed and the size set, the file is the old
      file spliced with src, and every other file is what it was. */
  lemma WrittenIsSplice(sb: Super, v: View, v1: View, v': View, ino: nat, src: seq<Byte>, off: nat)
    requires Written(sb, v, v1, ino, src, off, |src|) && ino < |v1.ins| && Sized(sb, v1, v', ino, off + |src|)
    requires off <= v.ins[ino].size && off + |src| <= MAXFILE * BSIZE
    ensures MapOk(sb, v'.d, v'.own) && TreeOk(v'.d, v'.ins, v'.own)
    ensures Content(v', ino) == Splice(Content(v, ino), off, src)
    ensures forall i: nat | i < |v.ins| && i != ino :: v'.ins[i] == v.ins[i] && Content(v', i) == Content(v, i)
    ensures WriteLogs(sb, v, v', ino, off, off + |src|)
  {
    hide Addr, Cap, Height, Used, MapOk, Anc, FilePos, Inverse;
    ResizeKeepsTree(v1, ino, Max(v.ins[ino].size, off + |src|));
    assert forall i: nat, k: nat :: ByteAt(v', i, k) == ByteAt(v1, i, k);
  }

  lemma WrittenFrame(sb: Super, v: View, v': View, ino: nat, src: seq<Byte>, off: nat, tot: nat)
    requires Written(sb, v, v', ino, src, off, tot)
    ensures SameFiles(v, v', ino) && MapOk(sb, v'.d, v'.own) && TreeOk(v'.d, v'.ins, v'.own)
    ensures off + tot <= v.ins[ino].size ==> v'.ins == v.ins
  {
    hide Addr, Cap, Height, Used, Anc, FilePos, Inverse, ByteAt;
  }

  /** The blocks a whole writei of [off, end) allocates and logs. */
  ghost predicate WriteLogs(sb: Super, v: View, v': View, ino: nat, off: nat, end: nat)
    requires ino < |v.ins|
  {
    && (forall b | b in v.own :: b in v'.own && v'.own[b] == v.own[b])
    && (forall b | b in v'.own && b !in v.own :: AllocExplained(ino, v.ins[ino].size, off, end, v'.own[b]))
    && (forall b | b in v'.logged && b !in v.logged ::
          || MapOfNew(sb, v, v', b) || b == sb.IBlock(ino)
          || (b in v'.own && LogExplained(ino, v.ins[ino].size, off, end, v'.own[b])))
  }

  lemma NothingWritten(sb: Super, v: View, ino: nat, src: seq<Byte>, off: nat)
    requires MapOk(sb, v.d, v.own) && TreeOk(v.d, v.ins, v.own) && ino < |v.ins| && off <= v.ins[ino].size
    ensures Written(sb, v, v, ino, src, off, 0)
  {
    hide Addr, Cap, Height, Used, Anc, FilePos, Inverse, ByteAt;
  }

  /** A write gives new blocks to its own file only. */
  lemma WriteGrows(sb: Super, v: View, v': View, ino: nat, off: nat, end: nat)
    requires ino < |v.ins| && WriteLogs(sb, v, v', ino, off, end)
    ensures Grown(v, v', ino)
  {
    hide Anc, Cap, Height, FilePos;
  }

  /** Splicing in two pieces, one after the other, is splicing once. */
  lemma SpliceTwice(c: seq<Byte>, off: nat, s: seq<Byte>, t: seq<Byte>)
    requires off <= |c|
    ensures Splice(Splice(c, off, s), off + |s|, t) == Splice(c, off, s + t)
  {
  }
}
