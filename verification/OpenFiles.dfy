/** Reads and writes through an open file of file.c that refers to an inode. */
module OpenFiles {
  import opened Common
  import opened Bytes
  import opened BlockTree
  import opened BlockViews
  import opened FileWrites
  import opened LogBudget
  import opened DiskSpace
  import opened FileSystem
  import opened Outcomes

  const MAXBYTES := MAXFILE * BSIZE

  /** The conversion of a C int to uint. */
  function ToUint(x: int): (u: nat)
    requires -TWO31 <= x < TWO31
    ensures u < TWO32
  {
    if x < 0 then x + TWO32 else x
  }

  /** Bytes placed by a chunked write of n bytes at off: all of them if they
      fit, otherwise the whole chunks that do. */
  function Placed(size: nat, off: nat, n: nat): (p: nat)
    requires size <= MAXBYTES
    ensures p <= n
  {
    if off > size then 0
    else if off + n <= MAXBYTES then n
    else (MAXBYTES - off) / CHUNK * CHUNK
  }

  /** All n bytes are placed exactly if they start within the file and end
      within the largest file; otherwise the greatest number of whole chunks
      that does, if they start within the file, and nothing if not. */
  lemma PlacedMost(size: nat, off: nat, n: nat)
    requires size <= MAXBYTES && 0 < n
    ensures Placed(size, off, n) == n <==> off <= size && off + n <= MAXBYTES
    ensures off > size ==> Placed(size, off, n) == 0
    ensures off <= size && off + n > MAXBYTES ==>
      var p := Placed(size, off, n);
      p % 1536 == 0 && off + p <= MAXBYTES < off + p + 1536
  {
    assert CHUNK == 1536;
  }

  /** One transaction of a write, from v to v', where v'.logged is what it has
      logged: at most 6 allocations, at most 9 blocks besides the free-map blocks
      of those, and every block and inode that has changed. */
  ghost predicate SmallTransaction(sb: Super, v: View, v': View) {
    var added := set b | b in v'.own && b !in v.own;
    && |added| <= 6 && |v'.logged| <= 9 + |MapBlocks(sb, added)| <= MAXOPBLOCKS - 1 + |added|
    && ChangesLogged(v.d, v'.d, v'.logged) && InodesLogged(sb, v.ins, v'.ins, v'.logged)
  }

  /** Views before, between and after the transactions of a write. */
  ghost predicate Transactions(sb: Super, vs: seq<View>) {
    forall k | 0 < k < |vs| :: SmallTransaction(sb, vs[k - 1], vs[k])
  }

  /** A well-formed file system in which the file has contents c. */
  ghost predicate FileHas(sb: Super, v: View, ino: nat, c: seq<Byte>) {
    ino < |v.ins| && MapOk(sb, v.d, v.own) && TreeOk(v.d, v.ins, v.own) && Content(v, ino) == c
  }

  /** After k transactions of a write, k whole chunks have been placed, or all n bytes. */
  ghost predicate ChunkViews(sb: Super, vs: seq<View>, ino: nat, c: seq<Byte>, addr: seq<Byte>, start: nat, n: nat)
    requires n <= |addr|
  {
    forall k: nat | k < |vs| :: FileHas(sb, vs[k], ino, Progress(c, addr, start, Min(k * CHUNK, n)))
  }

  lemma MoreChunks(sb: Super, vs: seq<View>, v: View, ino: nat, c: seq<Byte>, addr: seq<Byte>, start: nat, n: nat)
    requires n <= |addr| && ChunkViews(sb, vs, ino, c, addr, start, n) && FileHas(sb, v, ino, Progress(c, addr, start, Min(|vs| * CHUNK, n)))
    ensures ChunkViews(sb, vs + [v], ino, c, addr, start, n)
  {
    hide FileHas, Progress;
  }

  /** The file system apart from the record of what is logged. */
  ghost function Stored(v: View): View { v.(logged := {}) }

  /** The free blocks are fewer than the nodes that the bytes from off to end lack. */
  ghost predicate OutOfSpace(sb: Super, v: View, ino: nat, off: nat, end: nat) {
    Layout(sb, v.d) && |FreeBlocks(sb, v.d)| < |Missing(v, ino, off, end)|
  }

  /** The nodes lacking from off to end, and no others, have been mapped. */
  ghost predicate Filled(sb: Super, v: View, v': View, ino: nat, off: nat, end: nat) {
    Layout(sb, v.d) && Layout(sb, v'.d) && Fills(sb, v, v', Missing(v, ino, off, end))
  }

  lemma SameSpace(sb: Super, v: View, w: View, ino: nat, off: nat, end: nat)
    requires Stored(v) == Stored(w)
    ensures Missing(v, ino, off, end) == Missing(w, ino, off, end) && v.d == w.d
  {
    hide Node, InRange;
  }

  lemma SameFills(sb: Super, v: View, w: View, v': View, more: set<Pos>)
    requires Stored(v) == Stored(w) && Layout(sb, v.d) && Layout(sb, v'.d) && Fills(sb, v, v', more)
    ensures Fills(sb, w, v', more)
  {
    hide FreeBlocks, Addr;
    assert forall q :: w.At(q) == v.At(q);
  }

  lemma FilledNone(sb: Super, v: View, ino: nat, off: nat)
    requires MapOk(sb, v.d, v.own) && TreeOk(v.d, v.ins, v.own) && ino < |v.ins| && off <= v.ins[ino].size
    ensures Filled(sb, v, v, ino, off, off)
  {
    hide MapOk, TreeOk, Fills, Missing;
    NothingMissing(sb, v, ino, off);
  }

  lemma FilledNext(sb: Super, v: View, v1: View, v2: View, ino: nat, a: nat, b: nat, c: nat)
    requires a <= b <= c && Filled(sb, v, v1, ino, a, b) && Filled(sb, v1, v2, ino, b, c)
    ensures Filled(sb, v, v2, ino, a, c)
  {
    hide Fills, Missing;
    FillsTwice(sb, v, v1, v2, ino, a, b, c);
  }

  /** A later chunk that lacks blocks: the whole write lacks them. */
  lemma StillTooFew(sb: Super, v: View, v1: View, ino: nat, a: nat, b: nat, c: nat, end: nat)
    requires a <= b <= c <= end && Filled(sb, v, v1, ino, a, b) && OutOfSpace(sb, v1, ino, b, c)
    ensures OutOfSpace(sb, v, ino, a, end)
  {
    hide FreeBlocks, View.At, Missing;
    MissingSplits(sb, v, v1, ino, a, b, c);
    MoreMissing(v, ino, a, c, end);
  }

  lemma EnoughWas(sb: Super, v: View, v': View, ino: nat, a: nat, b: nat)
    requires Filled(sb, v, v', ino, a, b)
    ensures !OutOfSpace(sb, v, ino, a, b)
  {
    hide FreeBlocks, View.At, Missing;
  }

  /** A chunk that fits is within what the write places. */
  lemma ChunkWithinPlaced(size: nat, off: nat, n: nat, k: nat, i: nat, n1: nat)
    requires size <= MAXBYTES && off <= size && i < n && i == Min(k * CHUNK, n) && n1 == (if n - i > CHUNK then CHUNK else n - i)
    requires off + i + n1 <= MAXBYTES
    ensures i + n1 <= Placed(size, off, n)
  {
    assert CHUNK == 1536;
    if off + n > MAXBYTES {
      assert (k + 1) * 1536 <= MAXBYTES - off;
      assert (MAXBYTES - off) / 1536 >= k + 1;
    }
  }

  /** The loop stops at a chunk that does not fit exactly where Placed says. */
  lemma StopsAtPlaced(size: nat, off: nat, n: nat, k: nat, i: nat, n1: nat)
    requires size <= MAXBYTES && off <= size && i < n && i == Min(k * CHUNK, n) && n1 == (if n - i > CHUNK then CHUNK else n - i)
    requires off + i <= MAXBYTES < off + i + n1
    ensures Placed(size, off, n) == i
  {
    WholeChunks(MAXBYTES - off, k);
  }

  lemma WholeChunks(m: nat, k: nat)
    requires k * CHUNK <= m < k * CHUNK + CHUNK
    ensures m / CHUNK * CHUNK == k * CHUNK
  {
    assert CHUNK == 1536;
    assert m / 1536 == k;
  }

  /** What the chunk loop has made of file contents c after i bytes. */
  ghost function Progress(c: seq<Byte>, addr: seq<Byte>, off: nat, i: nat): seq<Byte>
    requires i <= |addr|
  {
    if off <= |c| then Splice(c, off, addr[..i]) else c
  }

  lemma ProgressNext(c: seq<Byte>, addr: seq<Byte>, off: nat, i: nat, n1: nat)
    requires off <= |c| && i + n1 <= |addr|
    ensures Splice(Progress(c, addr, off, i), off + i, addr[i..][..n1]) == Progress(c, addr, off, i + n1)
  {
    SpliceTwice(c, off, addr[..i], addr[i..][..n1]);
    assert addr[..i] + addr[i..][..n1] == addr[..i + n1];
  }

  class OpenFile {
    const fs: FileSystem
    const ino: nat
    const readable: bool
    const writable: bool
    var off: nat

    ghost predicate Valid()
      reads this, fs
    {
      fs.Valid() && ino < |fs.inodes| && off < TWO32 && fs.dinodes == fs.inodes
    }

    constructor (fs: FileSystem, ino: nat, readable: bool, writable: bool)
      requires fs.Valid() && ino < |fs.inodes| && fs.dinodes == fs.inodes
      ensures Valid() && this.fs == fs && this.ino == ino && this.readable == readable && this.writable == writable
      ensures off == 0
    {
      this.fs, this.ino, this.readable, this.writable, this.off := fs, ino, readable, writable, 0;
    }

    ghost function Bytes(i: nat): seq<Byte>
      requires fs.Valid() && i < |fs.inodes|
      reads this, fs
    {
      Content(fs.Snap(), i)
    }

    /** One chunk: a transaction of its own. */
    method WriteChunk(src: seq<Byte>, at: nat, n: nat) returns (w: Outcome<int>)
      requires Valid() && n <= |src| && at < TWO32 && n <= CHUNK
      modifies fs
      ensures fs.Valid() && |fs.inodes| == |old(fs.inodes)| && (w.Done? ==> Valid())
      ensures w.Panic? <==> at <= |old(Bytes(ino))| && at + n <= MAXBYTES && OutOfSpace(fs.sb, old(fs.Snap()), ino, at, at + n)
      ensures w.Panic? ==> forall b: nat | b < fs.sb.size :: Used(fs.sb, fs.disk, b)
      ensures at > |old(Bytes(ino))| || at + n > MAXBYTES ==> w == Done(-1) && Stored(fs.Snap()) == old(Stored(fs.Snap())) && Bytes(ino) == old(Bytes(ino))
      ensures at <= |old(Bytes(ino))| && at + n <= MAXBYTES && w.Done? ==>
        && w == Done(n) && Bytes(ino) == Splice(old(Bytes(ino)), at, src[..n])
        && SmallTransaction(fs.sb, old(fs.Snap()), fs.Snap())
        && Filled(fs.sb, old(fs.Snap()), fs.Snap(), ino, at, at + n)
      ensures w.Done? ==> forall i: nat | i < |fs.inodes| && i != ino :: Bytes(i) == old(Bytes(i))
    {
      hide Content, MapOk, Inverse, NoHoles, Used, WriteLogs, SmallTransaction, Splice, ChangesLogged, InodesLogged, Fills, Missing, FreeBlocks;
      ghost var v0 := fs.Snap();
      fs.BeginTransaction();
      ghost var v1 := fs.Snap();
      SameBytes(v1, v0);
      SameSpace(fs.sb, v1, v0, ino, at, at + n);
      Laid(fs.sb, v0);
      w := fs.Writei(ino, src, at, n);
      if w.Done? {
        if w.value < 0 {
          SameBytes(fs.Snap(), v0);
        } else {
          ChunkIsSmall(fs.sb, v1, fs.Snap(), ino, at, at + n);
          SmallFrom(fs.sb, v1, v0, fs.Snap());
          Laid(fs.sb, fs.Snap());
          SameFills(fs.sb, v1, v0, fs.Snap(), Missing(v0, ino, at, at + n));
        }
      }
    }

    /** The loop of filewrite and pos_write: n bytes at position start, each
        chunk in its own transaction.  Returns the number of bytes placed. */
    method WriteChunks(addr: seq<Byte>, n: nat, start: nat) returns (r: Outcome<nat>, ghost vs: seq<View>)
      requires Valid() && n <= |addr| && n < TWO31 && start < TWO32
      modifies fs
      ensures fs.Valid() && |fs.inodes| == |old(fs.inodes)| && (r.Done? ==> Valid())
      ensures r.Panic? <==> start <= |old(Bytes(ino))| && OutOfSpace(fs.sb, old(fs.Snap()), ino, start, start + Placed(|old(Bytes(ino))|, start, n))
      ensures r.Panic? ==> forall b: nat | b < fs.sb.size :: Used(fs.sb, fs.disk, b)
      ensures r.Done? ==>
        && r.value == Placed(|old(Bytes(ino))|, start, n)
        && Bytes(ino) == Progress(old(Bytes(ino)), addr, start, r.value)
        && (r.value == 0 ==> Stored(fs.Snap()) == old(Stored(fs.Snap())))
        && (forall i: nat | i < |fs.inodes| && i != ino :: Bytes(i) == old(Bytes(i)))
      ensures r.Done? ==> |vs| > 0 && Stored(vs[0]) == old(Stored(fs.Snap())) && Stored(vs[|vs| - 1]) == Stored(fs.Snap()) && Transactions(fs.sb, vs)
      ensures r.Done? ==> ChunkViews(fs.sb, vs, ino, old(Bytes(ino)), addr, start, n)
    {
      hide Content, MapOk, Inverse, NoHoles, Used, SmallTransaction, Splice, Placed, Transactions, ChunkViews, Filled, OutOfSpace;
      vs := [fs.Snap()];
      NoTransaction(fs.sb, fs.Snap());
      ghost var c, v := Bytes(ino), fs.Snap();
      var i := 0;
      ProgressStarts(c, addr, start);
      FirstView(fs.sb, v, ino, c, addr, start, n);
      if start <= |c| { FilledNone(fs.sb, v, ino, start); }
      while i < n
        invariant Valid() && |fs.inodes| == |v.ins|
        invariant 0 <= i <= n
        invariant i > 0 ==> start <= |c| && start + i <= MAXBYTES
        invariant Bytes(ino) == Progress(c, addr, start, i)
        invariant forall j: nat | j < |fs.inodes| && j != ino :: Bytes(j) == old(Bytes(j))
        invariant i == 0 ==> Stored(fs.Snap()) == Stored(v)
        invariant |vs| > 0 && vs[0] == v && Stored(vs[|vs| - 1]) == Stored(fs.Snap()) && Transactions(fs.sb, vs)
        invariant start <= |c| ==> Filled(fs.sb, v, fs.Snap(), ino, start, start + i)
        invariant i == Min((|vs| - 1) * CHUNK, n) && ChunkViews(fs.sb, vs, ino, c, addr, start, n)
      {
        var n1 := if n - i > CHUNK then CHUNK else n - i;
        ghost var v1 := fs.Snap();
        var w := WriteChunk(addr[i..], start + i, n1);
        if w.Panic? {
          ChunkWithinPlaced(|c|, start, n, |vs| - 1, i, n1);
          StillTooFew(fs.sb, v, v1, ino, start, start + i, start + i + n1, start + Placed(|c|, start, n));
          return Panic, vs;
        }
        if w.value < 0 {
          if start <= |c| {
            StopsAtPlaced(|c|, start, n, |vs| - 1, i, n1);
            EnoughWas(fs.sb, v, v1, ino, start, start + i);
          } else {
            PlacedNone(|c|, start, n);
          }
          return Done(i), vs;
        }
        FilledNext(fs.sb, v, v1, fs.Snap(), ino, start, start + i, start + i + n1);
        NextView(fs.sb, v1, fs.Snap(), vs, ino, c, addr, start, n, i, n1);
        vs := vs + [fs.Snap()];
        i := i + w.value;
      }
      PlacedAll(|c|, start, n);
      if start <= |c| { EnoughWas(fs.sb, v, fs.Snap(), ino, start, start + i); }
      r := Done(i);
    }

    /** Write to the file at its offset.  A write that succeeds is one splice of
        all n bytes; one that fails has spliced in the whole chunks that fit and
        moved the offset past them.  It panics exactly if there are fewer free
        blocks than the bytes it would place lack. */
    method FileWrite(addr: seq<Byte>, n: int) returns (r: Outcome<int>, ghost vs: seq<View>)
      requires Valid() && n <= |addr| && -TWO31 <= n < TWO31
      modifies this`off, fs
      ensures fs.Valid() && |fs.inodes| == |old(fs.inodes)| && (r.Done? ==> Valid())
      ensures r.Panic? <==>
        && writable && n > 0 && old(off) <= |old(Bytes(ino))|
        && OutOfSpace(fs.sb, old(fs.Snap()), ino, old(off), old(off) + Placed(|old(Bytes(ino))|, old(off), n))
      ensures !writable || n <= 0 ==>
        r == Done(if writable && n == 0 then 0 else -1) && off == old(off) && fs.Snap() == old(fs.Snap())
      ensures r.Done? && writable && n > 0 ==>
        var p := Placed(|old(Bytes(ino))|, old(off), n);
        && r == Done(if p == n then n else -1)
        && Bytes(ino) == (if old(off) <= |old(Bytes(ino))| then Splice(old(Bytes(ino)), old(off), addr[..p]) else old(Bytes(ino)))
        && off == old(off) + p
        && (forall i: nat | i < |fs.inodes| && i != ino :: Bytes(i) == old(Bytes(i)))
      ensures r.Done? ==> |vs| > 0 && Stored(vs[0]) == old(Stored(fs.Snap())) && Stored(vs[|vs| - 1]) == Stored(fs.Snap()) && Transactions(fs.sb, vs)
      ensures r.Done? && writable && n > 0 ==> ChunkViews(fs.sb, vs, ino, old(Bytes(ino)), addr, old(off), n)
      ensures r.Done? && writable && n > 0 && old(off) <= |old(Bytes(ino))| && old(off) + n <= MAXBYTES ==> r == Done(n) && Bytes(ino) == Splice(old(Bytes(ino)), old(off), addr[..n])
    {
      hide Content, MapOk, Inverse, NoHoles, Used, Splice, Transactions, ChunkViews, OutOfSpace;
      vs := [fs.Snap()];
      NoTransaction(fs.sb, fs.Snap());
      if !writable || n <= 0 {
        return Done(if writable && n == 0 then n else -1), vs;
      }
      var w, ws := WriteChunks(addr, n, off);
      if w.Panic? { return Panic, ws; }
      off := off + w.value;
      return Done(if w.value == n then n else -1), ws;
    }

    /** Write at a given position: as FileWrite, but the offset stays.  A
        negative position is past the end of every file. */
    method PosWrite(addr: seq<Byte>, n: int, pos: int) returns (r: Outcome<int>)
      requires Valid() && n <= |addr| && -TWO31 <= n < TWO31 && -TWO31 <= pos < TWO31
      modifies fs
      ensures fs.Valid() && |fs.inodes| == |old(fs.inodes)| && (r.Done? ==> Valid())
      ensures r.Panic? <==>
        && writable && n > 0 && 0 <= pos <= |old(Bytes(ino))|
        && OutOfSpace(fs.sb, old(fs.Snap()), ino, pos, pos + Placed(|old(Bytes(ino))|, pos, n))
      ensures !writable || n <= 0 || pos < 0 ==>
        r == Done(if writable && n == 0 then 0 else -1) && Stored(fs.Snap()) == old(Stored(fs.Snap()))
      ensures r.Done? && writable && n > 0 && pos >= 0 ==>
        var p := Placed(|old(Bytes(ino))|, pos, n);
        && r == Done(if p == n then n else -1)
        && Bytes(ino) == (if pos <= |old(Bytes(ino))| then Splice(old(Bytes(ino)), pos, addr[..p]) else old(Bytes(ino)))
        && (forall i: nat | i < |fs.inodes| && i != ino :: Bytes(i) == old(Bytes(i)))
      ensures r.Done? && writable && n > 0 && 0 <= pos <= |old(Bytes(ino))| && pos + n <= MAXBYTES ==> r == Done(n) && Bytes(ino) == Splice(old(Bytes(ino)), pos, addr[..n])
    {
      hide Content, MapOk, Inverse, NoHoles, Used, Splice, Transactions, ChunkViews, OutOfSpace;
      if !writable || n <= 0 {
        return Done(if writable && n == 0 then n else -1);
      }
      var w, ws := WriteChunks(addr, n, ToUint(pos));
      if w.Panic? { return Panic; }
      return Done(if w.value == n then n else -1);
    }

    /** Read at the offset and move it past the bytes read. */
    method FileRead(n: int) returns (r: int, dst: seq<Byte>)
      requires Valid() && -TWO31 <= n < TWO31
      modifies this`off, fs
      ensures Valid() && fs.Snap() == old(fs.Snap())
      ensures r == if !readable || old(off) > |Bytes(ino)| || old(off) + ToUint(n) >= TWO32 then -1
                   else Min(ToUint(n), |Bytes(ino)| - old(off))
      ensures off == old(off) + |dst|
      ensures dst == if r == -1 then [] else Bytes(ino)[old(off)..old(off) + r]
    {
      if !readable { return -1, []; }
      r, dst := fs.Readi(ino, off, ToUint(n));
      if r > 0 { off := off + r; }
    }

    /** Read at a given position; the offset stays. */
    method PosRead(n: int, pos: int) returns (r: int, dst: seq<Byte>)
      requires Valid() && -TWO31 <= n < TWO31 && -TWO31 <= pos < TWO31
      modifies fs
      ensures Valid() && fs.Snap() == old(fs.Snap())
      ensures r == if !readable || ToUint(pos) > |Bytes(ino)| || ToUint(pos) + ToUint(n) >= TWO32 then -1
                   else Min(ToUint(n), |Bytes(ino)| - pos)
      ensures dst == if r == -1 then [] else Bytes(ino)[pos..pos + r]
    {
      if !readable { return -1, []; }
      r, dst := fs.Readi(ino, ToUint(pos), ToUint(n));
    }
  }

  lemma ProgressStarts(c: seq<Byte>, addr: seq<Byte>, off: nat)
    ensures Progress(c, addr, off, 0) == c
  {
  }

  lemma PlacedNone(size: nat, off: nat, n: nat)
    requires size < off && size <= MAXBYTES
    ensures Placed(size, off, n) == 0
  {
  }

  lemma PlacedAll(size: nat, off: nat, n: nat)
    requires size <= MAXBYTES && (n > 0 ==> off <= size && off + n <= MAXBYTES)
    ensures Placed(size, off, n) == n
  {
  }

  /** One more chunk. */
  lemma NextView(sb: Super, v: View, v': View, vs: seq<View>, ino: nat, c: seq<Byte>, addr: seq<Byte>, start: nat, n: nat, i: nat, n1: nat)
    requires n <= |addr| && vs != [] && ChunkViews(sb, vs, ino, c, addr, start, n) && Transactions(sb, vs) && Stored(vs[|vs| - 1]) == Stored(v)
    requires i < n && i == Min((|vs| - 1) * CHUNK, n) && n1 == (if n - i > CHUNK then CHUNK else n - i) && start <= |c|
    requires SmallTransaction(sb, v, v') && FileHas(sb, v', ino, Splice(Progress(c, addr, start, i), start + i, addr[i..][..n1]))
    ensures Transactions(sb, vs + [v']) && ChunkViews(sb, vs + [v'], ino, c, addr, start, n)
    ensures i + n1 == Min(|vs| * CHUNK, n) && Content(v', ino) == Progress(c, addr, start, i + n1)
  {
    hide Progress, Splice, SmallTransaction, Transactions, ChunkViews, TreeOk, MapOk, Content;
    SmallFrom(sb, v, vs[|vs| - 1], v');
    OneMore(sb, vs, v');
    ProgressNext(c, addr, start, i, n1);
    MoreChunks(sb, vs, v', ino, c, addr, start, n);
  }

  lemma FirstView(sb: Super, v: View, ino: nat, c: seq<Byte>, addr: seq<Byte>, start: nat, n: nat)
    requires n <= |addr| && FileHas(sb, v, ino, Progress(c, addr, start, 0))
    ensures ChunkViews(sb, [v], ino, c, addr, start, n)
  {
    hide FileHas, Progress;
  }

  lemma NoTransaction(sb: Super, v: View)
    ensures Transactions(sb, [v])
  {
  }

  lemma OneMore(sb: Super, vs: seq<View>, v: View)
    requires vs != [] && Transactions(sb, vs) && SmallTransaction(sb, vs[|vs| - 1], v)
    ensures Transactions(sb, vs + [v])
  {
    hide SmallTransaction;
  }

  /** What was logged before does not matter. */
  lemma SmallFrom(sb: Super, v: View, w: View, v': View)
    requires SmallTransaction(sb, v, v') && Stored(v) == Stored(w)
    ensures SmallTransaction(sb, w, v')
  {
  }

  lemma SameBytes(v: View, w: View)
    requires Stored(v) == Stored(w)
    ensures forall i: nat | i < |v.ins| :: Content(v, i) == Content(w, i)
  {
  }

  lemma ChunkIsSmall(sb: Super, v: View, v': View, ino: nat, off: nat, end: nat)
    requires ino < |v.ins| && off <= v.ins[ino].size && end <= off + CHUNK
    requires TreeOk(v'.d, v'.ins, v'.own) && WriteLogs(sb, v, v', ino, off, end) && v.logged == {}
    requires ChangesLogged(v.d, v'.d, v'.logged) && InodesLogged(sb, v.ins, v'.ins, v'.logged)
    ensures SmallTransaction(sb, v, v')
  {
    hide WriteLogs, Inverse, NoHoles, ChangesLogged, InodesLogged;
    ChunkLogs(sb, v, v', ino, off, end);
    assert v'.logged - v.logged == v'.logged;
    CardMapBlocks(sb, set b | b in v'.own && b !in v.own);
  }
}
