/** How the block layer of fs.c moves from one state to another: mapping the
    path to a file block, writing a data block, and what that does to the
    bytes of every file. */
module BlockViews {
  import opened Bytes
  import opened BlockTree

  // ---------- Relations between two states ----------

  /** What the block layer sees of the file system. */
  datatype View = View(d: Disk, ins: seq<Inode>, own: Owner, logged: set<nat>) {
    ghost function At(p: Pos): nat { Addr(d, ins, p) }
  }

  /** No inode but ino changes, and no size. */
  ghost predicate SameFiles(v: View, v': View, ino: nat) {
    && |v'.d| == |v.d| && |v'.ins| == |v.ins| && ino < |v.ins|
    && v'.ins[ino].size == v.ins[ino].size
    && forall i: nat | i < |v.ins| && i != ino :: v'.ins[i] == v.ins[i]
  }

  /** Old blocks keep their owners, and old data blocks their contents. */
  ghost predicate KeepsData(v: View, v': View) {
    && (forall b | b in v.own :: b in v'.own && v'.own[b] == v.own[b])
    && (forall b | b in v.own && v.own[b].lvl == 0 && b < |v.d| && b < |v'.d| :: v'.d[b] == v.d[b])
  }

  /** b is the free-map block of a block allocated between v and v'. */
  ghost predicate MapOfNew(sb: Super, v: View, v': View, b: nat) {
    exists x :: x in v'.own && x !in v.own && sb.BBlock(x) == b
  }

  /** Position p has been mapped: to a fresh zeroed block if it was not. */
  ghost predicate Mapped(sb: Super, v: View, v': View, p: Pos) {
    && v'.At(p) != 0
    && (v.At(p) != 0 ==> v' == v)
    && (v.At(p) == 0 ==>
          && SameFiles(v, v', p.ino) && KeepsData(v, v')
          && (forall q | q != p :: v'.At(q) == v.At(q))
          && v'.At(p) < |v'.d| && v'.d[v'.At(p)] == ZeroBlock()
          && (forall b | b in v'.own && b !in v.own :: v'.own[b] == p)
          && (forall b | b in v'.logged && b !in v.logged :: MapOfNew(sb, v, v', b) || (b in v'.own && LoggedFor(v'.own[b], p))))
  }

  /** Mapping p logs the new block and the pointer block that holds its address. */
  ghost predicate LoggedFor(q: Pos, p: Pos) {
    q == p || (p.lvl < Height(p.slot) && q == Parent(p))
  }

  /** The path from the root down to height l above data position t has been
      mapped.  A pointer block is logged only if the entry followed in it was
      empty, which includes every new pointer block. */
  ghost predicate PathMapped(sb: Super, v: View, v': View, t: Pos, l: nat)
    requires t.lvl <= l <= Height(t.slot)
  {
    && SameFiles(v, v', t.ino) && KeepsData(v, v')
    && v'.At(Anc(t, l)) != 0
    && (v.At(Anc(t, l)) != 0 ==> v' == v)
    && (v.At(Anc(t, l)) == 0 ==> v'.At(Anc(t, l)) < |v'.d| && v'.d[v'.At(Anc(t, l))] == ZeroBlock())
    && (forall q | v'.At(q) != v.At(q) :: OnPath(t, l, q) && v.At(q) == 0)
    && (forall b | b in v'.own && b !in v.own :: OnPath(t, l, v'.own[b]) && v.At(v'.own[b]) == 0)
    && (forall b | b in v'.logged && b !in v.logged :: MapOfNew(sb, v, v', b) || (b in v'.own && EntryNew(v, t, l, v'.own[b])))
  }

  ghost predicate OnPath(t: Pos, l: nat, q: Pos) {
    t.lvl <= l <= q.lvl <= Height(t.slot) && q == Anc(t, q.lvl)
  }

  /** q is on the path, and the path step below it (or q, at the bottom) was not mapped. */
  ghost predicate EntryNew(v: View, t: Pos, l: nat, q: Pos) {
    OnPath(t, l, q) && v.At(Anc(t, if q.lvl == l then l else q.lvl - 1)) == 0
  }

  /** Following the path one level further down. */
  lemma PathExtends(sb: Super, v: View, v1: View, v2: View, t: Pos, l: nat)
    requires t.lvl < l <= Height(t.slot)
    requires PathMapped(sb, v, v1, t, l) && Mapped(sb, v1, v2, Anc(t, l - 1))
    ensures PathMapped(sb, v, v2, t, l - 1)
  {
    hide Addr, Anc, ZeroBlock, Cap, Height, ValidPos;
    ParentOfAnc(t, l - 1);
    var p := Anc(t, l - 1);
    if v.At(Anc(t, l)) == 0 {
      UnmappedBelow(v.d, v.ins, p);
    }
    assert v1.At(p) == v.At(p);
    if v.At(p) == 0 {
      PathExtendsOwn(sb, v, v1, v2, t, l);
      forall b | b in v2.logged && b !in v.logged && !MapOfNew(sb, v, v2, b)
        ensures b in v2.own && EntryNew(v, t, l - 1, v2.own[b])
      {
        PathExtendsLogged(sb, v, v1, v2, t, l, b);
      }
      forall q | v2.At(q) != v.At(q)
        ensures OnPath(t, l - 1, q) && v.At(q) == 0
      {
        if q != p {
          assert v1.At(q) == v2.At(q);
        }
      }
    }
  }

  lemma PathStarts(sb: Super, v: View, v': View, t: Pos)
    requires t.lvl <= Height(t.slot) && t.ino < |v.ins| && Mapped(sb, v, v', Anc(t, Height(t.slot)))
    ensures PathMapped(sb, v, v', t, Height(t.slot))
  {
    hide Addr, Anc, ZeroBlock, Cap, Height;
  }

  /** If file position t is mapped, so is every step of its path, and mapping it changes nothing. */
  lemma WholePathMapped(sb: Super, v: View, t: Pos)
    requires t.lvl <= Height(t.slot) && v.At(t) != 0
    ensures forall l: nat | t.lvl <= l <= Height(t.slot) :: v.At(Anc(t, l)) != 0
    ensures forall v': View, l: nat | t.lvl <= l <= Height(t.slot) && PathMapped(sb, v, v', t, l) :: v' == v
    ensures forall v': View, l: nat | t.lvl <= l <= Height(t.slot) && Mapped(sb, v, v', Anc(t, l)) :: v' == v
  {
    forall l: nat | t.lvl <= l <= Height(t.slot)
      ensures v.At(Anc(t, l)) != 0
    {
      MappedAbove(v.d, v.ins, t, l);
    }
  }

  /** The next step of a mapped path. */
  lemma PathNode(sb: Super, v: View, v': View, t: Pos, l: nat)
    requires t.lvl < l <= Height(t.slot) && PathMapped(sb, v, v', t, l)
    ensures v'.At(Anc(t, l)) != 0 && Child(Anc(t, l), Anc(t, l - 1).idx % NPTR) == Anc(t, l - 1)
  {
    ChildOfAnc(t, l);
  }

  lemma AlreadyMapped(sb: Super, v: View, p: Pos)
    requires v.At(p) != 0
    ensures Mapped(sb, v, v, p)
  {
  }

  lemma PathExtendsOwn(sb: Super, v: View, v1: View, v2: View, t: Pos, l: nat)
    requires t.lvl < l <= Height(t.slot)
    requires PathMapped(sb, v, v1, t, l) && Mapped(sb, v1, v2, Anc(t, l - 1))
    requires v1.At(Anc(t, l - 1)) == v.At(Anc(t, l - 1)) == 0
    ensures forall b | b in v2.own && b !in v.own :: OnPath(t, l - 1, v2.own[b]) && v.At(v2.own[b]) == 0
  {
    hide Addr, Anc, ZeroBlock, Cap, Height;
    forall b | b in v2.own && b !in v.own
      ensures OnPath(t, l - 1, v2.own[b]) && v.At(v2.own[b]) == 0
    {
      if b in v1.own {
        assert v2.own[b] == v1.own[b];
      }
    }
  }

  lemma PathExtendsLogged(sb: Super, v: View, v1: View, v2: View, t: Pos, l: nat, b: nat)
    requires t.lvl < l <= Height(t.slot)
    requires PathMapped(sb, v, v1, t, l) && Mapped(sb, v1, v2, Anc(t, l - 1))
    requires v1.At(Anc(t, l - 1)) == v.At(Anc(t, l - 1)) == 0
    requires b in v2.logged && b !in v.logged && !MapOfNew(sb, v, v2, b)
    ensures b in v2.own && EntryNew(v, t, l - 1, v2.own[b])
  {
    hide Addr, Anc, ZeroBlock, Cap, Height, ValidPos, SameFiles, View.At;
    ParentOfAnc(t, l - 1);
    if b in v1.logged {
      assert v2.own[b] == v1.own[b];
    }
  }

  // ---------- Write-ahead logging ----------

  /** Every block that differs between two disks has been passed to the log. */
  ghost predicate ChangesLogged(d: Disk, d': Disk, logged: set<nat>) {
    |d'| == |d| && forall b: nat | b < |d| && d'[b] != d[b] :: b in logged
  }

  lemma AllocatedLogged(sb: Super, d: Disk, b: nat)
    requires b < sb.size && Layout(sb, d)
    ensures ChangesLogged(d, Allocated(sb, d, b), {sb.BBlock(b), b})
  {
  }

  /** So has the block of every inode record that differs. */
  ghost predicate InodesLogged(sb: Super, ins: seq<Inode>, ins': seq<Inode>, logged: set<nat>) {
    |ins'| == |ins| && forall i: nat | i < |ins| && ins'[i] != ins[i] :: sb.IBlock(i) in logged
  }

  // ---------- Mappings of file blocks ----------

  /** Distinct file blocks, of one file or of two, are in distinct disk blocks. */
  lemma LookupInjective(v: View, i: nat, m: nat, j: nat, n: nat)
    requires Inverse(v.d, v.ins, v.own) && m < MAXFILE && n < MAXFILE
    requires Lookup(v.d, v.ins, i, m) == Lookup(v.d, v.ins, j, n) != 0
    ensures i == j && m == n
  {
    hide Addr, Cap, Height;
    var p, q := FilePos(i, m), FilePos(j, n);
    assert v.own[v.At(p)] == p && v.own[v.At(q)] == q;
    FilePosInjective(i, m, j, n);
  }

  /** bmap maps at most its own file block, to a zeroed block that was free;
      every other file block of every inode keeps its address.  Asked again,
      it returns the same address and changes nothing. */
  lemma BmapMapsOne(sb: Super, v: View, v': View, ino: nat, bn: nat)
    requires bn < MAXFILE && PathMapped(sb, v, v', FilePos(ino, bn), 0)
    requires MapOk(sb, v.d, v.own) && TreeOk(v.d, v.ins, v.own)
    requires MapOk(sb, v'.d, v'.own) && TreeOk(v'.d, v'.ins, v'.own)
    ensures forall i: nat, m: nat | m < MAXFILE && (i != ino || m != bn) ::
      Lookup(v'.d, v'.ins, i, m) == Lookup(v.d, v.ins, i, m)
    ensures Lookup(v.d, v.ins, ino, bn) != 0 ==> v' == v
    ensures Lookup(v.d, v.ins, ino, bn) == 0 ==>
      var a := Lookup(v'.d, v'.ins, ino, bn);
      0 < a < sb.size && v'.d[a] == ZeroBlock() && !Used(sb, v.d, a)
    ensures forall v'': View | PathMapped(sb, v', v'', FilePos(ino, bn), 0) :: v'' == v'
  {
    hide Addr, Cap, Height, Used, ZeroBlock, NoHoles;
    var t := FilePos(ino, bn);
    forall i: nat, m: nat | m < MAXFILE && (i != ino || m != bn)
      ensures Lookup(v'.d, v'.ins, i, m) == Lookup(v.d, v.ins, i, m)
    {
      var q := FilePos(i, m);
      if v'.At(q) != v.At(q) {
        FilePosInjective(i, m, ino, bn);
      }
    }
    if v.At(t) == 0 {
      var a := v'.At(t);
      assert v'.own[a] == t && a !in v.own;
    }
  }

  // ---------- File contents ----------

  /** Byte k of file i. */
  function ByteAt(v: View, i: nat, k: nat): Byte {
    if k / BSIZE < MAXFILE then
      var a := Lookup(v.d, v.ins, i, k / BSIZE);
      if a < |v.d| then v.d[a][k % BSIZE] else 0
    else 0
  }

  /** A file as the flat byte sequence it stands for. */
  function Content(v: View, i: nat): (c: seq<Byte>)
    requires i < |v.ins|
    ensures |c| == v.ins[i].size
  {
    seq(v.ins[i].size, k requires k >= 0 => ByteAt(v, i, k))
  }

  /** c with the bytes at off replaced by src, extended if src reaches past its end. */
  function Splice(c: seq<Byte>, off: nat, src: seq<Byte>): (r: seq<Byte>)
    requires off <= |c|
    ensures |r| == if off + |src| > |c| then off + |src| else |c|
  {
    c[..off] + src + if off + |src| < |c| then c[off + |src|..] else []
  }

  /** bmap returns a block of the disk. */
  lemma BmapReaches(sb: Super, v: View, v': View, ino: nat, bn: nat)
    requires bn < MAXFILE && PathMapped(sb, v, v', FilePos(ino, bn), 0) && TreeOk(v'.d, v'.ins, v'.own)
    ensures 0 < Lookup(v'.d, v'.ins, ino, bn) < |v'.d| && SameFiles(v, v', ino)
  {
    hide Addr, Cap, Height, NoHoles;
  }

  /** Bytes of a file that do not cross a block boundary are a slice of one mapped disk block. */
  lemma BytesOfBlock(v: View, ino: nat, k: nat, m: nat)
    requires TreeOk(v.d, v.ins, v.own) && ino < |v.ins|
    requires 0 < m && k + m <= v.ins[ino].size && k % BSIZE + m <= BSIZE
    ensures k / BSIZE < MAXFILE && 0 < Lookup(v.d, v.ins, ino, k / BSIZE) < |v.d|
    ensures Content(v, ino)[k..k + m] == v.d[Lookup(v.d, v.ins, ino, k / BSIZE)][k % BSIZE..k % BSIZE + m]
  {
    hide Addr, Cap, Height, FilePos;
    var s, x := Content(v, ino)[k..k + m], v.d[Lookup(v.d, v.ins, ino, k / BSIZE)];
    forall j | 0 <= j < m
      ensures s[j] == x[k % BSIZE..k % BSIZE + m][j]
    {
      assert (k + j) / BSIZE == k / BSIZE && (k + j) % BSIZE == k % BSIZE + j;
    }
  }

  /** A mapped file block keeps its address and its bytes when another block is mapped. */
  lemma MappedBlockStays(sb: Super, v: View, v': View, t: Pos, i: nat, bn: nat)
    requires Inverse(v.d, v.ins, v.own) && t.lvl == 0 && PathMapped(sb, v, v', t, 0)
    requires bn < MAXFILE && Lookup(v.d, v.ins, i, bn) != 0
    ensures Lookup(v'.d, v'.ins, i, bn) == Lookup(v.d, v.ins, i, bn) < |v.d|
    ensures v'.d[Lookup(v.d, v.ins, i, bn)] == v.d[Lookup(v.d, v.ins, i, bn)]
  {
    hide Addr, Anc, ZeroBlock, Cap, Height;
    var q := FilePos(i, bn);
    assert v.At(q) in v.own && v.own[v.At(q)] == q;
    assert v'.At(q) == v.At(q);
  }

  /** The view after the data block of file block bn has been overwritten. */
  ghost function WriteView(v: View, ino: nat, bn: nat, x: Block): View
    requires bn < MAXFILE && Lookup(v.d, v.ins, ino, bn) < |v.d|
  {
    v.(d := v.d[Lookup(v.d, v.ins, ino, bn) := x])
  }

  /** Writing a data block changes no address. */
  lemma DataWriteKeepsTree(sb: Super, v: View, ino: nat, bn: nat, x: Block)
    requires MapOk(sb, v.d, v.own) && TreeOk(v.d, v.ins, v.own)
    requires bn < MAXFILE && Lookup(v.d, v.ins, ino, bn) != 0
    ensures Lookup(v.d, v.ins, ino, bn) in v.own && Lookup(v.d, v.ins, ino, bn) < |v.d|
    ensures var v' := WriteView(v, ino, bn, x);
      && MapOk(sb, v'.d, v'.own) && TreeOk(v'.d, v'.ins, v'.own)
      && (forall q :: v'.At(q) == v.At(q))
  {
    hide Addr, Cap, Height, Used;
    var t := FilePos(ino, bn);
    var a := v.At(t);
    assert a in v.own && v.own[a] == t;
    var v' := v.(d := v.d[a := x]);
    WriteKeepsMap(sb, v.d, v.own, a, x);
    forall q
      ensures Addr(v'.d, v.ins, q) == Addr(v.d, v.ins, q)
    {
      AddrFrame(v.d, v'.d, v.ins, v.ins, v.own, q);
    }
    SameAddrsKeepTree(v.d, v'.d, v.ins, v.own);
  }

  /** It changes the bytes of that one file block. */
  lemma DataWriteBytes(sb: Super, v: View, ino: nat, bn: nat, x: Block, i: nat, k: nat)
    requires MapOk(sb, v.d, v.own) && TreeOk(v.d, v.ins, v.own)
    requires bn < MAXFILE && 0 < Lookup(v.d, v.ins, ino, bn) < |v.d|
    ensures ByteAt(WriteView(v, ino, bn, x), i, k) == if i == ino && k / BSIZE == bn then x[k % BSIZE] else ByteAt(v, i, k)
  {
    DataWriteKeepsTree(sb, v, ino, bn, x);
    hide Addr, Cap, Height, Used;
    if k / BSIZE < MAXFILE {
      var q, t := FilePos(i, k / BSIZE), FilePos(ino, bn);
      assert WriteView(v, ino, bn, x).At(q) == v.At(q);
      if v.At(q) == v.At(t) {
        assert v.own[v.At(q)] == q && v.own[v.At(t)] == t;
        FilePosInjective(i, k / BSIZE, ino, bn);
      }
    }
  }

  // ---------- Allocation steps ----------

  /** The disk after balloc has returned f. */
  function Allocated(sb: Super, d: Disk, f: nat): (d': Disk)
    requires f < sb.size && sb.DataStart() <= |d| && f < |d|
    ensures |d'| == |d|
  {
    MarkUsed(sb, d, f)[f := ZeroBlock()]
  }

  /** balloc marks f and nothing else; with f given an owner the map is right again. */
  lemma AllocatedMap(sb: Super, d: Disk, own: Owner, f: nat, p: Pos)
    requires MapOk(sb, d, own) && f < sb.size && !Used(sb, d, f)
    ensures MapOk(sb, Allocated(sb, d, f), own[f := p])
    ensures f !in own && sb.DataStart() <= f && Allocated(sb, d, f)[f] == ZeroBlock()
    ensures forall b: nat | b in own :: Allocated(sb, d, f)[b] == d[b]
  {
    hide Used;
    var d1, own' := MarkUsed(sb, d, f), own[f := p];
    forall b: nat | b < sb.size
      ensures Used(sb, d1, b) <==> b < sb.DataStart() || b in own'
    {
      UsedAfterMark(sb, d, f, b);
    }
    assert MapOk(sb, d1, own');
    WriteKeepsMap(sb, d1, own', f, ZeroBlock());
  }

  /** A write to a data-area block keeps the map. */
  lemma WriteKeepsMap(sb: Super, d: Disk, own: Owner, a: nat, x: Block)
    requires MapOk(sb, d, own) && sb.DataStart() <= a < |d|
    ensures MapOk(sb, d[a := x], own)
  {
    var d' := d[a := x];
    forall b: nat | b < sb.size
      ensures Used(sb, d', b) == Used(sb, d, b)
    {
      UsedAfterWrite(sb, d, a, x, b);
    }
  }

  /** The view after f has been allocated and stored in entry i of the pointer block of p. */
  ghost function LinkView(sb: Super, v: View, p: Pos, i: nat, f: nat): View
    requires f < sb.size && Layout(sb, v.d) && 0 < v.At(p) < |v.d| && 0 < p.lvl <= Height(p.slot) && i < NPTR
  {
    var d1 := Allocated(sb, v.d, f);
    View(d1[v.At(p) := PutWord(d1[v.At(p)], i, f)], v.ins, v.own[f := Child(p, i)],
         v.logged + {sb.BBlock(f), f} + {v.At(p)})
  }

  /** Mapping t to f and nothing else, said with raw facts. */
  lemma MappedBy(sb: Super, v: View, v': View, t: Pos, f: nat, a: nat)
    requires v.At(t) == 0 && v'.At(t) == f && forall q | q != t :: v'.At(q) == v.At(q)
    requires SameFiles(v, v', t.ino)
    requires 0 < f < |v'.d| && f !in v.own && v'.own == v.own[f := t] && v'.d[f] == ZeroBlock()
    requires forall b | b in v.own && v.own[b].lvl == 0 && b < |v.d| :: v'.d[b] == v.d[b]
    requires v'.logged <= v.logged + {sb.BBlock(f), f} + {a} && f < sb.size
    requires a == f || (a in v.own && LoggedFor(v.own[a], t))
    ensures Mapped(sb, v, v', t)
  {
    hide Addr, ZeroBlock, Height, Cap;
  }

  /** Both halves of the invariant after f has been allocated and linked. */
  lemma LinkStep(sb: Super, v: View, p: Pos, i: nat, f: nat)
    requires MapOk(sb, v.d, v.own) && TreeOk(v.d, v.ins, v.own) && 0 < p.lvl <= Height(p.slot) && i < NPTR
    requires 0 < v.At(p) < |v.d| && v.At(Child(p, i)) == 0
    requires f < sb.size && !Used(sb, v.d, f)
    ensures var v' := LinkView(sb, v, p, i, f);
      && MapOk(sb, v'.d, v'.own) && TreeOk(v'.d, v'.ins, v'.own)
      && v'.At(Child(p, i)) == f && Mapped(sb, v, v', Child(p, i))
  {
    LinkViewFrame(sb, v, p, i, f);
    hide Used, Word, PutWord, Cap, Addr, Allocated, Height, ZeroBlock, ValidPos;
    var v' := LinkView(sb, v, p, i, f);
    LinkKeepsTree(v.d, v'.d, v.ins, v.own, p, i, f);
    MappedBy(sb, v, v', Child(p, i), f, v.At(p));
  }

  lemma LinkViewFrame(sb: Super, v: View, p: Pos, i: nat, f: nat)
    requires MapOk(sb, v.d, v.own) && Inverse(v.d, v.ins, v.own) && 0 < p.lvl <= Height(p.slot) && i < NPTR
    requires 0 < v.At(p) < |v.d| && v.At(Child(p, i)) == 0
    requires f < sb.size && !Used(sb, v.d, f)
    ensures var v' := LinkView(sb, v, p, i, f);
      && f !in v.own && ValidPos(p, |v.ins|) && MapOk(sb, v'.d, v'.own) && Linked(v.d, v'.d, v.ins, v.own, p, i, f)
  {
    var a, d1, t := v.At(p), Allocated(sb, v.d, f), Child(p, i);
    AllocatedMap(sb, v.d, v.own, f, t);
    AddrOfChild(v.d, v.ins, v.own, p, i);
    hide Used, Word, PutWord, Cap, Addr, Allocated, Height, ZeroBlock, ValidPos;
    var v' := LinkView(sb, v, p, i, f);
    assert a in v.own && v.own[a] == p;
    WriteKeepsMap(sb, d1, v'.own, a, v'.d[a]);
  }

  /** The view after f has been allocated and stored in a root slot. */
  ghost function RootView(sb: Super, v: View, ino: nat, slot: nat, f: nat): View
    requires f < sb.size && Layout(sb, v.d) && ino < |v.ins| && slot < NSLOTS
  {
    View(Allocated(sb, v.d, f), v.ins[ino := v.ins[ino].(addrs := v.ins[ino].addrs[slot := f])],
         v.own[f := Pos(ino, slot, Height(slot), 0)], v.logged + {sb.BBlock(f), f})
  }

  lemma RootStep(sb: Super, v: View, ino: nat, slot: nat, f: nat)
    requires MapOk(sb, v.d, v.own) && TreeOk(v.d, v.ins, v.own)
    requires ino < |v.ins| && slot < NSLOTS && v.ins[ino].addrs[slot] == 0
    requires f < sb.size && !Used(sb, v.d, f)
    ensures var v', t := RootView(sb, v, ino, slot, f), Pos(ino, slot, Height(slot), 0);
      && MapOk(sb, v'.d, v'.own) && TreeOk(v'.d, v'.ins, v'.own)
      && v'.At(t) == f && Mapped(sb, v, v', t)
  {
    var v', t := RootView(sb, v, ino, slot, f), Pos(ino, slot, Height(slot), 0);
    assert v.At(t) == 0;
    AllocatedMap(sb, v.d, v.own, f, t);
    hide Used, Cap, Addr, Allocated, Height, ZeroBlock;
    assert Rooted(v.d, v'.d, v.ins, v'.ins, v.own, ino, slot, f);
    RootKeepsTree(v.d, v'.d, v.ins, v'.ins, v.own, ino, slot, f);
    MappedBy(sb, v, v', t, f, f);
  }

  /** Bit bi of the map block of b, for b at a block boundary of the map. */
  lemma UsedBit(sb: Super, d: Disk, b: nat, bi: nat)
    requires Layout(sb, d) && b % BPB == 0 && bi < BPB && b + bi < sb.size
    ensures sb.BBlock(b) == sb.BBlock(b + bi) < |d|
    ensures Used(sb, d, b + bi) == Bit(d[sb.BBlock(b)][bi / 8], bi % 8)
  {
    assert (b + bi) % BPB == bi;
    ModMod(b + bi);
  }
}
