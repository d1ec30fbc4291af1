/** The block and inode layer of fs.c, operating in place. */
module FileSystem {
  import opened Common
  import opened Bytes
  import opened BlockTree
  import opened BlockViews
  import opened FileWrites
  import opened Truncation
  import opened DiskSpace
  import opened Outcomes

  lemma SameSlice(src: seq<Byte>, n: nat, i: nat, m: nat)
    requires i + m <= n <= |src|
    ensures src[..n][i..i + m] == src[i..i + m]
  {
  }

  lemma UnchangedLogged(d: Disk, logged: set<nat>)
    ensures ChangesLogged(d, d, logged)
  {
  }

  lemma MoreLogged(d: Disk, d': Disk, some: set<nat>, logged: set<nat>)
    requires ChangesLogged(d, d', some) && some <= logged
    ensures ChangesLogged(d, d', logged)
  {
  }

  class FileSystem {
    const sb: Super
    var disk: Disk             // block contents as bread returns them
    var inodes: seq<Inode>     // in-core inodes, by inode number
    var dinodes: seq<Inode>    // the records held in the inode blocks
    var logged: set<nat>       // blocks passed to log_write
    ghost var own: Owner

    ghost predicate Valid()
      reads this
    {
      MapOk(sb, disk, own) && TreeOk(disk, inodes, own) && |dinodes| == |inodes|
    }

    /** A well-formed disk image. */
    constructor (sb: Super, image: Disk, inodes: seq<Inode>, ghost own: Owner)
      requires MapOk(sb, image, own) && TreeOk(image, inodes, own)
      ensures Valid() && Snap() == View(image, inodes, own, {}) && dinodes == inodes
    {
      this.sb, this.disk, this.inodes, this.dinodes, this.logged, this.own := sb, image, inodes, inodes, {}, own;
    }

    /** begin_op: nothing has been logged for the new transaction. */
    method BeginTransaction()
      modifies this`logged
      ensures logged == {}
    {
      logged := {};
    }

    /** The first clear bit in the map block that starts with block b. */
    method ScanMap(b: nat) returns (bi: nat)
      requires Layout(sb, disk) && b % BPB == 0 && b < sb.size
      ensures bi <= BPB && (bi < BPB && b + bi < sb.size ==> !Used(sb, disk, b + bi))
      ensures bi < BPB ==> b + bi <= sb.size
      ensures forall c: nat | b <= c < b + bi && c < sb.size :: Used(sb, disk, c)
    {
      hide Used, Bit;
      bi := 0;
      while bi < BPB && b + bi < sb.size
        invariant 0 <= bi <= BPB && b + bi <= sb.size
        invariant forall c: nat | b <= c < b + bi && c < sb.size :: Used(sb, disk, c)
      {
        UsedBit(sb, disk, b, bi);
        if !Bit(disk[sb.BBlock(b)][bi / 8], bi % 8) { break; }
        bi := bi + 1;
      }
    }

    /** Allocate a zeroed disk block: the lowest free one. */
    method Balloc() returns (r: Outcome<nat>)
      requires Layout(sb, disk)
      modifies this`disk, this`logged
      ensures r.Panic? ==> disk == old(disk) && logged == old(logged) && forall b: nat | b < sb.size :: Used(sb, disk, b)
      ensures r.Done? ==>
        && r.value < sb.size && !Used(sb, old(disk), r.value)
        && (forall b: nat | b < r.value :: Used(sb, old(disk), b))
        && disk == Allocated(sb, old(disk), r.value)
        && logged == old(logged) + {sb.BBlock(r.value), r.value}
      ensures old(logged) <= logged && ChangesLogged(old(disk), disk, logged)
    {
      hide Used, MarkUsed, ChangesLogged;
      UnchangedLogged(disk, logged);
      var b := 0;
      while b < sb.size
        invariant b % BPB == 0
        invariant disk == old(disk) && logged == old(logged)
        invariant forall c: nat | c < b && c < sb.size :: Used(sb, disk, c)
      {
        var bi := ScanMap(b);
        if bi < BPB && b + bi < sb.size {
          disk := MarkUsed(sb, disk, b + bi);
          logged := logged + {sb.BBlock(b + bi)};
          disk := disk[b + bi := ZeroBlock()];
          logged := logged + {b + bi};
          AllocatedLogged(sb, old(disk), b + bi);
          MoreLogged(old(disk), disk, {sb.BBlock(b + bi), b + bi}, logged);
          return Done(b + bi);
        }
        b := b + BPB;
      }
      return Panic;
    }

    ghost function Snap(): View
      reads this
    {
      View(disk, inodes, own, logged)
    }

    /** A root slot of an inode, filled with a fresh zeroed block when empty. */
    method RootOrAlloc(ino: nat, slot: nat) returns (r: Outcome<nat>)
      requires Valid() && ino < |inodes| && slot < NSLOTS
      modifies this`disk, this`inodes, this`logged, this`own
      ensures Valid() && |inodes| == |old(inodes)|
      ensures r.Panic? ==> Snap() == old(Snap()) && forall b: nat | b < sb.size :: Used(sb, disk, b)
      ensures Addr(old(disk), old(inodes), Pos(ino, slot, Height(slot), 0)) != 0 ==> r.Done?
      ensures r.Done? ==> r.value == Addr(disk, inodes, Pos(ino, slot, Height(slot), 0))
      ensures r.Done? ==> Mapped(sb, old(Snap()), Snap(), Pos(ino, slot, Height(slot), 0))
      ensures old(logged) <= logged && ChangesLogged(old(disk), disk, logged)
    {
      var addr := inodes[ino].addrs[slot];
      assert addr == Addr(disk, inodes, Pos(ino, slot, Height(slot), 0));
      hide Addr, Used, Allocated, Cap, Height;
      if addr == 0 {
        var f := Balloc();
        if f.Panic? { return Panic; }
        addr := f.value;
        RootStep(sb, old(Snap()), ino, slot, addr);
        inodes := inodes[ino := inodes[ino].(addrs := inodes[ino].addrs[slot := addr])];
        own := own[addr := Pos(ino, slot, Height(slot), 0)];
        assert Snap() == RootView(sb, old(Snap()), ino, slot, addr);
      }
      return Done(addr);
    }

    /** One level of bmap: follow the entry for data position t in the pointer
        block at height l of its path, linking a fresh zeroed block when the
        entry is empty. */
    method LoadOrAlloc(a: nat, i: nat, ghost v: View, ghost t: Pos, ghost l: nat) returns (r: Outcome<nat>)
      requires Valid() && t.lvl < l <= Height(t.slot) && i == Anc(t, l - 1).idx % NPTR
      requires PathMapped(sb, v, Snap(), t, l) && a == Addr(disk, inodes, Anc(t, l))
      modifies this`disk, this`logged, this`own
      ensures Valid()
      ensures r.Panic? ==> PathStuck(v, Snap(), t) && forall b: nat | b < sb.size :: Used(sb, disk, b)
      ensures Addr(old(disk), inodes, Anc(t, l - 1)) != 0 ==> r.Done?
      ensures r.Done? ==> r.value == Addr(disk, inodes, Anc(t, l - 1)) && PathMapped(sb, v, Snap(), t, l - 1)
      ensures old(logged) <= logged && ChangesLogged(old(disk), disk, logged)
    {
      hide Addr, Used, Word, PutWord, Allocated, Cap, Height, Anc, ValidPos, Mapped, NoHoles, PathMapped, PathStuck;
      ghost var p := Anc(t, l);
      PathNode(sb, v, Snap(), t, l);
      AddrOfChild(disk, inodes, own, p, i);
      var addr := Word(disk[a], i);
      if addr == 0 {
        var f := Balloc();
        if f.Panic? {
          StuckBelow(sb, v, Snap(), t, l);
          return Panic;
        }
        addr := f.value;
        LinkStep(sb, old(Snap()), p, i, addr);
        disk := disk[a := PutWord(disk[a], i, addr)];
        logged := logged + {a};
        own := own[addr := Child(p, i)];
        assert Snap() == LinkView(sb, old(Snap()), p, i, addr);
      } else {
        AlreadyMapped(sb, Snap(), Anc(t, l - 1));
      }
      PathExtends(sb, v, old(Snap()), Snap(), t, l);
      return Done(addr);
    }

    /** Return the disk block address of block bn of inode ino, allocating it
        and the pointer blocks above it as needed. */
    method Bmap(ino: nat, bn: nat) returns (r: Outcome<nat>)
      requires Valid() && ino < |inodes|
      modifies this`disk, this`inodes, this`logged, this`own
      ensures Valid() && |inodes| == |old(inodes)|
      ensures r.Panic? ==> bn >= MAXFILE || (PathStuck(old(Snap()), Snap(), FilePos(ino, bn)) && forall b: nat | b < sb.size :: Used(sb, disk, b))
      ensures bn < MAXFILE && Lookup(old(disk), old(inodes), ino, bn) != 0 ==> r.Done? && Snap() == old(Snap())
      ensures r.Done? ==> bn < MAXFILE && r.value == Lookup(disk, inodes, ino, bn)
      ensures r.Done? ==> PathMapped(sb, old(Snap()), Snap(), FilePos(ino, bn), 0)
      ensures old(logged) <= logged && ChangesLogged(old(disk), disk, logged)
    {
      hide PathMapped, PathStuck, Mapped, TreeOk, MapOk, Addr, Anc, Cap, Height, FilePos, Used, ValidPos;
      ghost var v := Snap();
      if bn >= MAXFILE { return Panic; }
      ghost var t := FilePos(ino, bn);
      PathOfFileBlock(ino, bn);
      if Lookup(disk, inodes, ino, bn) != 0 { WholePathMapped(sb, v, t); }
      if bn < NDIRECT {
        r := RootOrAlloc(ino, bn);
        if r.Panic? { StuckAtRoot(v, t); return; }
        PathStarts(sb, v, Snap(), t);
        return;
      }
      var n := bn - NDIRECT;

      if n < NINDIRECT {
        r := RootOrAlloc(ino, NDIRECT);
        if r.Panic? { StuckAtRoot(v, t); return; }
        PathStarts(sb, v, Snap(), t);
        r := LoadOrAlloc(r.value, n, v, t, 1);
        return;
      }
      n := n - NINDIRECT;

      if n < NDINDIRECT {
        r := RootOrAlloc(ino, NDIRECT + 1);
        if r.Panic? { StuckAtRoot(v, t); return; }
        PathStarts(sb, v, Snap(), t);
        r := LoadOrAlloc(r.value, n / 128, v, t, 2);
        if r.Panic? { return; }
        r := LoadOrAlloc(r.value, n % 128, v, t, 1);
        return;
      }
      n := n - NDINDIRECT;

      r := RootOrAlloc(ino, NDIRECT + 2);
      if r.Panic? { StuckAtRoot(v, t); return; }
      PathStarts(sb, v, Snap(), t);
      r := LoadOrAlloc(r.value, n / (128 * 128), v, t, 3);
      if r.Panic? { return; }
      r := LoadOrAlloc(r.value, n % (128 * 128) / 128, v, t, 2);
      if r.Panic? { return; }
      r := LoadOrAlloc(r.value, n % (128 * 128) % 128, v, t, 1);
    }

    /** Copy a modified in-memory inode to disk. */
    method Iupdate(ino: nat)
      requires ino < |inodes| == |dinodes|
      modifies this`dinodes, this`logged
      ensures dinodes == old(dinodes)[ino := inodes[ino]] && logged == old(logged) + {sb.IBlock(ino)}
    {
      dinodes := dinodes[ino := inodes[ino]];
      logged := logged + {sb.IBlock(ino)};
    }

    /** Read data from inode: the n bytes at off, cut off at the end of the
        file.  Every block read is mapped, so nothing is allocated. */
    method Readi(ino: nat, off: nat, n: nat) returns (ret: int, dst: seq<Byte>)
      requires Valid() && ino < |inodes| && off < TWO32 && n < TWO32
      modifies this`disk, this`inodes, this`logged, this`own
      ensures Snap() == old(Snap())
      ensures ret == if off > inodes[ino].size || off + n >= TWO32 then -1 else Min(n, inodes[ino].size - off)
      ensures dst == if ret == -1 then [] else Content(Snap(), ino)[off..off + ret]
    {
      hide PathMapped, MapOk, Addr, Anc, Cap, Height, FilePos, Used, ValidPos, Lookup, Inverse, NoHoles, ByteAt;
      if off > inodes[ino].size || (off + n) % TWO32 < off {
        return -1, [];
      }
      ret := if off + n > inodes[ino].size then inodes[ino].size - off else n;
      dst := [];
      var tot := 0;
      ghost var v := Snap();
      while tot < ret
        invariant 0 <= tot <= ret && off + ret <= v.ins[ino].size
        invariant Snap() == v
        invariant dst == Content(v, ino)[off..off + tot]
      {
        var m := Min(ret - tot, BSIZE - (off + tot) % BSIZE);
        BytesOfBlock(v, ino, off + tot, m);
        var a := Bmap(ino, (off + tot) / BSIZE);
        dst := dst + disk[a.value][(off + tot) % BSIZE..(off + tot) % BSIZE + m];
        tot := tot + m;
      }
    }

    /** Write data to inode: n bytes of src at off.  A write that starts past
        the end of the file, wraps around or passes the largest file size is
        refused and changes nothing.  Any other write panics exactly if fewer
        blocks are free than the nodes its file blocks lack. */
    method Writei(ino: nat, src: seq<Byte>, off: nat, n: nat) returns (r: Outcome<int>)
      requires Valid() && ino < |inodes| && n <= |src| && off < TWO32 && n < TWO32
      modifies this
      ensures Valid() && |inodes| == |old(inodes)|
      ensures r.Panic? <==>
        && off <= old(inodes[ino].size) && off + n <= MAXFILE * BSIZE
        && |FreeBlocks(sb, old(disk))| < |Missing(old(Snap()), ino, off, off + n)|
      ensures r.Panic? ==> forall b: nat | b < sb.size :: Used(sb, disk, b)
      ensures off > old(inodes[ino].size) || off + n > MAXFILE * BSIZE ==>
        r == Done(-1) && Snap() == old(Snap()) && dinodes == old(dinodes)
      ensures off <= old(inodes[ino].size) && off + n <= MAXFILE * BSIZE && r.Done? ==>
        && r == Done(n)
        && Content(Snap(), ino) == Splice(old(Content(Snap(), ino)), off, src[..n])
        && (forall i: nat | i < |inodes| && i != ino :: inodes[i] == old(inodes)[i] && Content(Snap(), i) == old(Content(Snap(), i)))
        && WriteLogs(sb, old(Snap()), Snap(), ino, off, off + n)
        && Fills(sb, old(Snap()), Snap(), Missing(old(Snap()), ino, off, off + n))
      ensures r.Done? && old(dinodes == inodes) ==> dinodes == inodes
      ensures old(logged) <= logged && ChangesLogged(old(disk), disk, logged)
      ensures InodesLogged(sb, old(dinodes), dinodes, logged)
    {
      hide PathMapped, MapOk, Addr, Anc, Cap, Height, FilePos, Used, ValidPos, Lookup, Inverse, NoHoles, ByteAt, Content, Written, WriteLogs, PathStuck, Missing, FreeBlocks, Fills;
      if off > inodes[ino].size || (off + n) % TWO32 < off {
        return Done(-1);
      }
      if off + n > MAXFILE * BSIZE {
        return Done(-1);
      }
      ghost var v, s := Snap(), src[..n];
      NothingWritten(sb, v, ino, s, off);
      var tot := 0;
      while tot < n
        invariant 0 <= tot <= n && Valid()
        invariant Written(sb, v, Snap(), ino, s, off, tot)
        invariant dinodes == old(dinodes) && |inodes| == |v.ins|
        invariant old(logged) <= logged && ChangesLogged(v.d, disk, logged)
      {
        ghost var v1 := Snap();
        var a := Bmap(ino, (off + tot) / BSIZE);
        if a.Panic? {
          TooFew(sb, v, v1, Snap(), ino, s, off, tot, off + n);
          return Panic;
        }
        ghost var v2 := Snap();
        BmapReaches(sb, v1, v2, ino, (off + tot) / BSIZE);
        var m := Min(n - tot, BSIZE - (off + tot) % BSIZE);
        disk := disk[a.value := PutBytes(disk[a.value], (off + tot) % BSIZE, src[tot..tot + m])];
        logged := logged + {a.value};
        SameSlice(src, n, tot, m);
        RoundKeeps(sb, v, v1, v2, Snap(), ino, s, off, tot, m);
        tot := tot + m;
        WrittenFrame(sb, v, Snap(), ino, s, off, tot);
      }
      WrittenFrame(sb, v, Snap(), ino, s, off, n);
      ghost var v1 := Snap();
      if n > 0 && off + n > inodes[ino].size {
        inodes := inodes[ino := inodes[ino].(size := off + n)];
        Iupdate(ino);
      }
      WrittenIsSplice(sb, v, v1, Snap(), ino, s, off);
      FillsRange(sb, v, v1, Snap(), ino, s, off);
      return Done(n);
    }

    /** Free a disk block; freeing a free block panics. */
    method Bfree(b: nat) returns (r: Outcome<()>)
      requires Layout(sb, disk) && b < sb.size
      modifies this`disk, this`logged
      ensures r.Panic? <==> !Used(sb, old(disk), b)
      ensures r.Done? ==> disk == MarkFree(sb, old(disk), b) && logged == old(logged) + {sb.BBlock(b)}
      ensures old(logged) <= logged && ChangesLogged(old(disk), disk, logged)
    {
      ModMod(b);
      var bi := b % BPB;
      if !Bit(disk[sb.BBlock(b)][bi / 8], bi % 8) { return Panic; }
      disk := MarkFree(sb, disk, b);
      logged := logged + {sb.BBlock(b)};
      return Done(());
    }

    /** Free the tree of height lvl whose root block is a: the blocks below
        each non-empty entry, then the pointer block.  The view v is that of
        the start of itrunc; the freed pointer blocks keep their contents. */
    method FreeTree(a: nat, lvl: nat, ghost v: View, ghost p: Pos) returns (r: Outcome<()>)
      requires MapOk(sb, v.d, v.own) && Inverse(v.d, v.ins, v.own)
      requires Addr(v.d, v.ins, p) == a != 0 && p.lvl == lvl
      requires Layout(sb, disk) && |disk| == |v.d| && forall b: nat | sb.DataStart() <= b < |disk| :: disk[b] == v.d[b]
      requires forall b | b in Subtree(v.own, p) :: Used(sb, disk, b)
      modifies this`disk, this`logged
      ensures r.Done? && Freed(sb, old(disk), disk, Subtree(v.own, p))
      ensures old(logged) <= logged && ChangesLogged(old(disk), disk, logged)
      decreases lvl
    {
      hide Used, Addr, Cap, Height, Word, Inverse, Subtree, SubtreeFirst;
      NodeInRange(sb, v, p);
      SubtreeWhole(v.d, v.ins, v.own, p, a);
      ghost var d0 := disk;
      if lvl > 0 {
        var j := 0;
        SubtreeNone(v.own, p);
        while j < NPTR
          invariant 0 <= j <= NPTR
          invariant Freed(sb, d0, disk, SubtreeFirst(v.own, p, j))
          invariant old(logged) <= logged && ChangesLogged(d0, disk, logged)
        {
          var c := Word(disk[a], j);
          AddrOfChild(v.d, v.ins, v.own, p, j);
          SubtreeNext(v.own, p, j);
          ghost var d1 := disk;
          if c != 0 {
            SubtreeOfChild(v.own, p, j);
            r := FreeTree(c, lvl - 1, v, Child(p, j));
            FreedTrans(sb, d0, d1, disk, SubtreeFirst(v.own, p, j), Subtree(v.own, Child(p, j)));
          } else {
            SubtreeEmpty(v.d, v.ins, v.own, Child(p, j));
          }
          j := j + 1;
        }
      }
      ghost var d1 := disk;
      r := Bfree(a);
      MarkFreeIsFreed(sb, d1, a);
      FreedTrans(sb, d0, d1, disk, SubtreeFirst(v.own, p, NPTR), {a});
    }

    /** itrunc has dealt with the slots below n. */
    ghost predicate FreedUpTo(v: View, ino: nat, n: nat)
      reads this
    {
      && MapOk(sb, v.d, v.own) && Inverse(v.d, v.ins, v.own) && ino < |v.ins| && n <= NSLOTS
      && Freed(sb, v.d, disk, SlotsFirst(v.own, ino, n))
      && |inodes| == |v.ins| && inodes == v.ins[ino := inodes[ino]]
      && forall s: nat | s < NSLOTS :: inodes[ino].addrs[s] == if s < n then 0 else v.ins[ino].addrs[s]
    }

    method FreeSlot(ino: nat, slot: nat, ghost v: View) returns (r: Outcome<()>)
      requires slot < NSLOTS && FreedUpTo(v, ino, slot)
      modifies this`disk, this`logged, this`inodes
      ensures r.Done? && FreedUpTo(v, ino, slot + 1)
      ensures old(logged) <= logged && ChangesLogged(old(disk), disk, logged)
    {
      hide Used, Addr, Cap, Height, Inverse, SlotsFirst, Subtree;
      ghost var p, d := Pos(ino, slot, Height(slot), 0), disk;
      SlotRoot(sb, v, ino, slot);
      SlotsNext(v.d, v.ins, v.own, ino, slot);
      var a := inodes[ino].addrs[slot];
      r := Done(());
      if a != 0 {
        r := FreeTree(a, if slot < NDIRECT then 0 else slot - NDIRECT + 1, v, p);
        FreedTrans(sb, v.d, d, disk, SlotsFirst(v.own, ino, slot), Subtree(v.own, p));
        inodes := inodes[ino := inodes[ino].(addrs := inodes[ino].addrs[slot := 0])];
      } else {
        SubtreeEmpty(v.d, v.ins, v.own, p);
      }
    }

    /** Truncate inode: free exactly its data and pointer blocks, each once, so
        that the "freeing free block" panic is never reached. */
    method Itrunc(ino: nat) returns (r: Outcome<()>)
      requires Valid() && ino < |inodes|
      modifies this
      ensures r.Done? && Valid()
      ensures Truncated(sb, old(Snap()), Snap(), ino)
      ensures dinodes == old(dinodes)[ino := inodes[ino]]
      ensures Content(Snap(), ino) == [] && forall i: nat | i < |inodes| && i != ino :: Content(Snap(), i) == old(Content(Snap(), i))
      ensures old(logged) <= logged && ChangesLogged(old(disk), disk, logged)
      ensures InodesLogged(sb, old(dinodes), dinodes, logged)
    {
      hide Used, Addr, Cap, Height, Inverse, Content;
      ghost var v := Snap();
      NothingFreed(sb, v, ino);
      var i := 0;
      while i < NDIRECT
        invariant 0 <= i <= NDIRECT && FreedUpTo(v, ino, i)
        invariant old(logged) <= logged && ChangesLogged(v.d, disk, logged)
        invariant dinodes == old(dinodes) && own == v.own
      {
        r := FreeSlot(ino, i, v);
        i := i + 1;
      }
      r := FreeSlot(ino, NDIRECT, v);
      r := FreeSlot(ino, NDIRECT + 1, v);
      r := FreeSlot(ino, NDIRECT + 2, v);
      inodes := inodes[ino := inodes[ino].(size := 0)];
      own := WithoutInode(own, ino);
      assert inodes[ino].addrs == seq(NSLOTS, _ => 0);
      Iupdate(ino);
      TruncKeeps(sb, v, Snap(), ino);
    }
  }
}
