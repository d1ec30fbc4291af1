/** The buffer cache of bio.c.  Each method is one region that runs under
    bcache.lock or under the sleep-lock of a buffer; any interleaving of calls
    by any number of processes is a sequence of them. */
module BufCache {
  import opened Common
  import opened Bytes
  import opened Rings
  import opened Outcomes

  const NBUF := 30
  const HEAD := NBUF     // index of bcache.head in the link arrays

  datatype Buf = Buf(dev: nat, blockno: nat, valid: bool, dirty: bool, refcnt: nat, locked: bool, data: Block)

  predicate Tagged(b: Buf, dev: nat, blockno: nat) {
    b.dev == dev && b.blockno == blockno
  }

  /** A buffer that may be recycled. */
  predicate Free(b: Buf) {
    b.refcnt == 0 && !b.dirty
  }

  /** Everything about one buffer that does not involve the list. */
  ghost predicate BufOk(b: Buf, disk: seq<Block>) {
    && (b.locked ==> b.refcnt > 0)
    && (b.dirty ==> b.valid)
    && (b.valid ==> b.dev == 1 && b.blockno < |disk|)
    && (b.valid && !b.dirty && !b.locked ==> b.data == disk[b.blockno])
  }

  /** No two buffers stand for one block; the tag (0,0) of unused buffers aside. */
  ghost predicate Unique(bufs: seq<Buf>) {
    forall i, j | 0 <= i < j < |bufs| :: Tagged(bufs[i], bufs[j].dev, bufs[j].blockno) ==> Tagged(bufs[i], 0, 0)
  }

  /** The list is in order of last final release, most recent first. */
  ghost predicate ByStamp(order: seq<nat>, stamp: seq<nat>, clock: nat) {
    && |stamp| == NBUF && (forall b | 0 <= b < NBUF :: stamp[b] < clock)
    && (forall i | 0 <= i < |order| :: order[i] < NBUF)
    && (forall i, j | 0 <= i < j < |order| :: stamp[order[i]] > stamp[order[j]])
  }

  /** A list of NBUF distinct buffers has them all. */
  lemma ListHasAll(order: seq<nat>, b: nat)
    requires Distinct(order) && |order| == NBUF && (forall i | 0 <= i < |order| :: order[i] < NBUF) && b < NBUF
    ensures b in order
  {
    hide Distinct, Range;
    if b !in order {
      var s := set i | 0 <= i < |order| :: order[i];
      ImageSize(order);
      InImage(order, s);
      SubsetSize(s, Range(0, NBUF) - {b});
    }
  }

  lemma InImage(order: seq<nat>, s: set<nat>)
    requires s == set i | 0 <= i < |order| :: order[i]
    ensures forall x :: x in s ==> x in order
  {
  }

  lemma {:induction false} ImageSize(order: seq<nat>)
    requires Distinct(order)
    ensures |set i | 0 <= i < |order| :: order[i]| == |order|
  {
    if order != [] {
      var n := |order| - 1;
      ImageSize(order[..n]);
      assert (set i | 0 <= i < |order| :: order[i]) == (set i | 0 <= i < n :: order[..n][i]) + {order[n]};
    }
  }

  // ---------- Sequences of calls ----------

  /** One call of one of the methods below, by whichever process. */
  datatype Call = Get(dev: nat, blockno: nat) | Acquire(b: nat) | Read(b: nat) | Change(b: nat, x: Block)
                | LogWrite(b: nat) | Write(b: nat) | Release(b: nat) | Drop(b: nat)

  datatype Cache = Cache(bufs: seq<Buf>, disk: seq<Block>)

  /** A hit adds a reference; a miss takes a buffer without references or logged content. */
  ghost predicate Gets(bufs: seq<Buf>, bufs': seq<Buf>, dev: nat, blockno: nat, b: nat) {
    b < |bufs| && if Tagged(bufs[b], dev, blockno) then bufs' == bufs[b := bufs[b].(refcnt := bufs[b].refcnt + 1)]
    else bufs[b].refcnt == 0 && !bufs[b].dirty && bufs' == bufs[b := Buf(dev, blockno, false, false, 1, false, bufs[b].data)]
  }

  /** What a call does to the buffers and the disk, if it does not panic. */
  ghost predicate Moves(s: Cache, c: Call, s': Cache) {
    match c
    case Get(dev, blockno) => s'.disk == s.disk && exists b: nat :: Gets(s.bufs, s'.bufs, dev, blockno, b)
    case Acquire(b) => b < |s.bufs| && s.bufs[b].refcnt > 0 && !s.bufs[b].locked && s' == s.(bufs := s.bufs[b := s.bufs[b].(locked := true)])
    case Read(b) =>
      && b < |s.bufs| && s.bufs[b].locked
      && if s.bufs[b].valid then s' == s
         else s.bufs[b].blockno < |s.disk| && s' == s.(bufs := s.bufs[b := s.bufs[b].(valid := true, data := s.disk[s.bufs[b].blockno])])
    case Change(b, x) => b < |s.bufs| && s.bufs[b].locked && s' == s.(bufs := s.bufs[b := s.bufs[b].(data := x)])
    case LogWrite(b) => b < |s.bufs| && s.bufs[b].locked && s' == s.(bufs := s.bufs[b := s.bufs[b].(dirty := true)])
    case Write(b) =>
      && b < |s.bufs| && s.bufs[b].locked && s.bufs[b].blockno < |s.disk|
      && s' == Cache(s.bufs[b := s.bufs[b].(dirty := false, valid := true)], s.disk[s.bufs[b].blockno := s.bufs[b].data])
    case Release(b) => b < |s.bufs| && s.bufs[b].locked && s' == s.(bufs := s.bufs[b := s.bufs[b].(locked := false)])
    case Drop(b) => b < |s.bufs| && s.bufs[b].refcnt > 0 && s' == s.(bufs := s.bufs[b := s.bufs[b].(refcnt := s.bufs[b].refcnt - 1)])
  }

  ghost predicate IsRun(states: seq<Cache>, calls: seq<Call>) {
    |states| == |calls| + 1 && forall k | 0 <= k < |calls| :: Moves(states[k], calls[k], states[k + 1])
  }

  /** One call: a dirty valid buffer stays one for its block until it is
      written, and its holder alone changes its data. */
  lemma DirtyStep(s: Cache, c: Call, s': Cache, b: nat)
    requires Moves(s, c, s') && b < |s.bufs| && s.bufs[b].dirty && s.bufs[b].valid && c != Write(b)
    ensures b < |s'.bufs| && s'.bufs[b].dirty && s'.bufs[b].valid && Tagged(s'.bufs[b], s.bufs[b].dev, s.bufs[b].blockno)
    ensures s'.bufs[b].data == s.bufs[b].data || (s.bufs[b].locked && exists x :: c == Change(b, x))
  {
    match c
    case Get(dev, blockno) =>
      var g: nat :| Gets(s.bufs, s'.bufs, dev, blockno, g);
    case Change(g, x) =>
      assert g == b ==> c == Change(b, x);
    case _ =>
  }

  /** Over any sequence of calls: until it is written, a buffer with logged
      content stands for the same block, and keeps the content unless its
      holder changes it. */
  lemma {:induction false} DirtySurvives(states: seq<Cache>, calls: seq<Call>, i: nat, j: nat, b: nat)
    requires IsRun(states, calls) && i <= j < |states| && b < |states[i].bufs| && states[i].bufs[b].dirty && states[i].bufs[b].valid
    requires forall k | i <= k < j :: calls[k] != Write(b)
    ensures b < |states[j].bufs| && states[j].bufs[b].dirty && states[j].bufs[b].valid
    ensures Tagged(states[j].bufs[b], states[i].bufs[b].dev, states[i].bufs[b].blockno)
    ensures (forall k | i <= k < j :: !calls[k].Change? || calls[k].b != b) ==> states[j].bufs[b].data == states[i].bufs[b].data
    decreases j
  {
    hide Moves;
    if i < j {
      DirtySurvives(states, calls, i, j - 1, b);
      DirtyStep(states[j - 1], calls[j - 1], states[j], b);
    }
  }

  /** So what the log has written to a buffer is what the commit writes to its block. */
  lemma LoggedIsWritten(states: seq<Cache>, calls: seq<Call>, i: nat, j: nat, b: nat)
    requires IsRun(states, calls) && i <= j < |calls| && b < |states[i].bufs| && states[i].bufs[b].dirty && states[i].bufs[b].valid
    requires calls[j] == Write(b) && forall k | i <= k < j :: calls[k] != Write(b) && (!calls[k].Change? || calls[k].b != b)
    ensures var n := states[i].bufs[b].blockno;
      n < |states[j + 1].disk| && states[j + 1].disk[n] == states[i].bufs[b].data && states[j + 1].disk == states[j].disk[n := states[j + 1].disk[n]]
  {
    DirtySurvives(states, calls, i, j, b);
    assert Moves(states[j], calls[j], states[j + 1]);
  }

  class BufCache {
    var bufs: seq<Buf>
    var next: seq<nat>
    var prev: seq<nat>
    var disk: seq<Block>
    ghost var order: seq<nat>     // the list from head.next on
    ghost var stamp: seq<nat>     // time of the last final release
    ghost var clock: nat

    ghost predicate Valid()
      reads this
    {
      && |bufs| == NBUF && |next| == NBUF + 1 && |order| == NBUF
      && Ring(next, prev, [HEAD] + order) && ByStamp(order, stamp, clock)
      && Unique(bufs) && forall i | 0 <= i < NBUF :: BufOk(bufs[i], disk)
    }

    ghost function State(): Cache
      reads this
    {
      Cache(bufs, disk)
    }

    /** Create the list of buffers. */
    constructor (image: seq<Block>)
      ensures Valid() && disk == image && forall i | 0 <= i < NBUF :: bufs[i].refcnt == 0 && !bufs[i].dirty && !bufs[i].valid && Tagged(bufs[i], 0, 0)
    {
      bufs := seq(NBUF, _ => Buf(0, 0, false, false, 0, false, ZeroBlock()));
      disk := image;
      var nx: seq<nat>, pv: seq<nat> := seq(NBUF + 1, _ => HEAD), seq(NBUF + 1, _ => HEAD);
      ghost var ring: seq<nat> := [HEAD];
      var b := 0;
      while b < NBUF
        invariant 0 <= b <= NBUF && |nx| == NBUF + 1 && Ring(nx, pv, ring)
        invariant |ring| == b + 1 && ring[0] == HEAD && forall i | 0 < i <= b :: ring[i] == b - i
      {
        LinkFront(nx, pv, ring, b);
        nx := nx[b := nx[HEAD]];
        pv := pv[b := HEAD];
        pv := pv[nx[HEAD] := b];
        nx := nx[HEAD := b];
        ring := [HEAD, b] + ring[1..];
        b := b + 1;
      }
      next, prev := nx, pv;
      order, stamp, clock := ring[1..], seq(NBUF, i => i), NBUF;
      assert [HEAD] + ring[1..] == ring;
    }

    /** Position and list order of a buffer reached by a scan. */
    ghost predicate At(b: nat, i: int)
      reads this
    {
      |order| == NBUF && -1 <= i <= NBUF && b == if 0 <= i < NBUF then order[i] else HEAD
    }

    /** Look through the cache for a block, forwards from the most recently
        used; failing that, recycle backwards from the least recently used. */
    method Bget(dev: nat, blockno: nat) returns (r: Outcome<nat>, hit: bool)
      requires Valid()
      modifies this`bufs
      ensures Valid()
      ensures hit <==> exists b :: 0 <= b < NBUF && Tagged(old(bufs)[b], dev, blockno)
      ensures hit ==> r.Done?
      ensures r.Panic? <==> !hit && forall b | 0 <= b < NBUF :: old(bufs)[b].refcnt > 0 || old(bufs)[b].dirty
      ensures r.Panic? ==> bufs == old(bufs)
      ensures r.Done? ==> r.value < NBUF
      ensures r.Done? && hit ==>
        && Tagged(old(bufs)[r.value], dev, blockno)
        && bufs == old(bufs)[r.value := old(bufs)[r.value].(refcnt := old(bufs)[r.value].refcnt + 1)]
      ensures r.Done? && !hit ==>
        && old(bufs)[r.value].refcnt == 0 && !old(bufs)[r.value].dirty
        && (forall b | 0 <= b < NBUF && old(bufs)[b].refcnt == 0 && !old(bufs)[b].dirty :: stamp[r.value] <= stamp[b])
        && bufs == old(bufs)[r.value := Buf(dev, blockno, false, false, 1, false, old(bufs)[r.value].data)]
      ensures r.Done? ==> Moves(old(State()), Get(dev, blockno), State())
    {
      hide Ring, BufOk;
      ghost var i := 0;
      ScanStart(next, prev, order);
      var b := next[HEAD];
      while b != HEAD
        invariant 0 <= i && At(b, i) && bufs == old(bufs)
        invariant forall j | 0 <= j < i :: !Tagged(bufs[order[j]], dev, blockno)
        decreases NBUF - i
      {
        if Tagged(bufs[b], dev, blockno) {
          bufs := bufs[b := bufs[b].(refcnt := bufs[b].refcnt + 1)];
          TouchKeeps(old(bufs), bufs, disk, b);
          assert Gets(old(bufs), bufs, dev, blockno, b);
          return Done(b), true;
        }
        ScanForward(next, prev, order, i);
        b := next[b];
        i := i + 1;
      }
      NoneTagged(bufs, order, next, prev, dev, blockno);
      i := NBUF - 1;
      b := prev[HEAD];
      while b != HEAD
        invariant At(b, i) && bufs == old(bufs)
        invariant forall j | i < j < NBUF :: !Free(bufs[order[j]])
        decreases i
      {
        if Free(bufs[b]) {
          Oldest(bufs, order, next, prev, stamp, clock, i);
          bufs := bufs[b := Buf(dev, blockno, false, false, 1, false, bufs[b].data)];
          RecycleKeeps(old(bufs), bufs, disk, b);
          assert Gets(old(bufs), bufs, dev, blockno, b);
          return Done(b), false;
        }
        ScanBackward(next, prev, order, i);
        b := prev[b];
        i := i - 1;
      }
      NoneFree(bufs, order, next, prev);
      return Panic, false;
    }

    /** acquiresleep on a buffer the caller holds a reference to. */
    method Lock(b: nat)
      requires Valid() && b < NBUF && bufs[b].refcnt > 0 && !bufs[b].locked
      modifies this`bufs
      ensures Valid() && bufs == old(bufs)[b := old(bufs)[b].(locked := true)]
      ensures bufs[b].valid && !bufs[b].dirty ==> bufs[b].data == disk[bufs[b].blockno]
      ensures Moves(old(State()), Acquire(b), State())
    {
      hide Ring, ByStamp;
      bufs := bufs[b := bufs[b].(locked := true)];
    }

    /** The rest of bread: read the block in if the buffer does not hold it. */
    method Fill(b: nat) returns (r: Outcome<()>)
      requires Valid() && b < NBUF && bufs[b].locked
      modifies this`bufs
      ensures Valid()
      ensures r.Panic? <==> !old(bufs)[b].valid && (old(bufs)[b].dev != 1 || old(bufs)[b].blockno >= |disk|)
      ensures r.Panic? || old(bufs)[b].valid ==> bufs == old(bufs)
      ensures r.Done? && !old(bufs)[b].valid ==>
        bufs == old(bufs)[b := old(bufs)[b].(valid := true, data := disk[old(bufs)[b].blockno])]
      ensures r.Done? ==> Moves(old(State()), Read(b), State())
    {
      hide Ring, ByStamp;
      if bufs[b].valid { return Done(()); }
      if bufs[b].dev != 1 || bufs[b].blockno >= |disk| { return Panic; }
      bufs := bufs[b := bufs[b].(valid := true, data := disk[bufs[b].blockno])];
      return Done(());
    }

    /** The holder of the lock changes the data. */
    method Modify(b: nat, x: Block)
      requires Valid() && b < NBUF && bufs[b].locked && bufs[b].valid
      modifies this`bufs
      ensures Valid() && bufs == old(bufs)[b := old(bufs)[b].(data := x)]
      ensures Moves(old(State()), Change(b, x), State())
    {
      hide Ring, ByStamp;
      bufs := bufs[b := bufs[b].(data := x)];
    }

    /** log_write: mark the buffer so that it is not recycled. */
    method MarkDirty(b: nat)
      requires Valid() && b < NBUF && bufs[b].locked && bufs[b].valid
      modifies this`bufs
      ensures Valid() && bufs == old(bufs)[b := old(bufs)[b].(dirty := true)]
      ensures Moves(old(State()), LogWrite(b), State())
    {
      hide Ring, ByStamp;
      bufs := bufs[b := bufs[b].(dirty := true)];
    }

    /** Write the buffer to its block; no other buffer stands for that block, so
        every other clean buffer still agrees with the disk. */
    method Bwrite(b: nat) returns (r: Outcome<()>)
      requires Valid() && b < NBUF
      modifies this`bufs, this`disk
      ensures Valid()
      ensures r.Panic? <==> !old(bufs)[b].locked || old(bufs)[b].dev != 1 || old(bufs)[b].blockno >= |old(disk)|
      ensures r.Panic? ==> bufs == old(bufs) && disk == old(disk)
      ensures r.Done? ==>
        && bufs == old(bufs)[b := old(bufs)[b].(dirty := false, valid := true)]
        && disk == old(disk)[bufs[b].blockno := bufs[b].data]
      ensures r.Done? ==> Moves(old(State()), Write(b), State())
    {
      hide Ring, ByStamp;
      if !bufs[b].locked { return Panic; }
      if bufs[b].dev != 1 || bufs[b].blockno >= |disk| { return Panic; }
      disk := disk[bufs[b].blockno := bufs[b].data];
      bufs := bufs[b := bufs[b].(dirty := false, valid := true)];
      return Done(());
    }

    /** First half of brelse.  The cache stays right exactly if the holder has
        written back or marked dirty what it changed. */
    method Unlock(b: nat) returns (r: Outcome<()>)
      requires Valid() && b < NBUF
      modifies this`bufs
      ensures bufs == old(bufs)[b := old(bufs)[b].(locked := false)]
      ensures r.Panic? <==> !old(bufs)[b].locked
      ensures r.Panic? ==> Valid()
      ensures r.Done? ==> (Valid() <==> (old(bufs)[b].valid && !old(bufs)[b].dirty ==> old(bufs)[b].data == disk[old(bufs)[b].blockno]))
      ensures r.Done? ==> Moves(old(State()), Release(b), State())
    {
      hide Ring, ByStamp;
      if !bufs[b].locked {
        assert bufs == bufs[b := bufs[b].(locked := false)];
        return Panic;
      }
      bufs := bufs[b := bufs[b].(locked := false)];
      assert Valid() ==> BufOk(bufs[b], disk);
      return Done(());
    }

    /** Second half of brelse: drop the caller's reference; the last one moves
        the buffer to the front of the list. */
    method Put(b: nat)
      requires Valid() && b < NBUF && bufs[b].refcnt > if bufs[b].locked then 1 else 0
      modifies this`bufs, this`next, this`prev, this`order, this`stamp, this`clock
      ensures Valid() && bufs == old(bufs)[b := old(bufs)[b].(refcnt := old(bufs)[b].refcnt - 1)]
      ensures bufs[b].refcnt > 0 ==> order == old(order) && stamp == old(stamp)
      ensures bufs[b].refcnt == 0 ==>
        && stamp == old(stamp)[b := old(clock)] && clock == old(clock) + 1
        && multiset(order) == multiset(old(order)) && order[0] == b
      ensures Moves(old(State()), Drop(b), State())
    {
      hide Ring, ByStamp, BufOk, Unique;
      bufs := bufs[b := bufs[b].(refcnt := bufs[b].refcnt - 1)];
      UntouchKeeps(old(bufs), bufs, disk, b);
      if bufs[b].refcnt == 0 {
        MoveToFront(b);
      }
    }

    /** Take b out of the list and put it back behind the head. */
    method MoveToFront(b: nat)
      requires |next| == NBUF + 1 && |order| == NBUF && Ring(next, prev, [HEAD] + order) && ByStamp(order, stamp, clock) && b < NBUF
      modifies this`next, this`prev, this`order, this`stamp, this`clock
      ensures |next| == NBUF + 1 && |order| == NBUF && Ring(next, prev, [HEAD] + order) && ByStamp(order, stamp, clock)
      ensures stamp == old(stamp)[b := old(clock)] && clock == old(clock) + 1
      ensures multiset(order) == multiset(old(order)) && order[0] == b
    {
      hide Ring, ByStamp, Without, Distinct;
      OrderHas(next, prev, order, b);
      ghost var p :| 0 <= p < NBUF && order[p] == b;
      ghost var rest := [HEAD] + Without(order, p);
      TakeOut(next, prev, order, p);
      FrontStamps(order, stamp, clock, p, b);
      prev := prev[next[b] := prev[b]];
      next := next[prev[b] := next[b]];
      PutFront(next, prev, rest, b);
      next := next[b := next[HEAD]];
      prev := prev[b := HEAD];
      prev := prev[next[HEAD] := b];
      next := next[HEAD := b];
      order := [b] + Without(order, p);
      assert [HEAD, b] + rest[1..] == [HEAD] + order;
      stamp, clock := stamp[b := clock], clock + 1;
    }
  }

  /** The rest of the ring when the element at position p of the list is taken out. */
  lemma RestOfRing(order: seq<nat>, p: nat)
    requires p < |order| && Distinct([HEAD] + order)
    ensures Without([HEAD] + order, p + 1) == [HEAD] + Without(order, p)
    ensures order[p] != HEAD && order[p] !in [HEAD] + Without(order, p)
    ensures multiset([order[p]] + Without(order, p)) == multiset(order)
  {
    var ring, rest := [HEAD] + order, [HEAD] + Without(order, p);
    assert ring[p + 1] == order[p] && ring[0] == HEAD;
    forall i | 0 <= i < |rest|
      ensures rest[i] != order[p]
    {
      assert rest[i] == ring[if i < p + 1 then i else i + 1];
    }
    assert order == order[..p] + [order[p]] + order[p + 1..];
  }

  /** The first two assignments of the move take the element at position p out. */
  lemma TakeOut(next: seq<nat>, prev: seq<nat>, order: seq<nat>, p: nat)
    requires Ring(next, prev, [HEAD] + order) && p < |order| == NBUF && |next| == NBUF + 1 && order[p] < NBUF
    ensures var b := order[p];
      && |prev| == NBUF + 1 && next[b] <= NBUF && prev[b] <= NBUF && next[b] != b
      && Ring(next[prev[b] := next[b]], prev[next[b] := prev[b]], [HEAD] + Without(order, p)) && b !in [HEAD] + Without(order, p)
    ensures multiset([order[p]] + Without(order, p)) == multiset(order) && |Without(order, p)| == |order| - 1
  {
    var ring := [HEAD] + order;
    RingFacts(next, prev, ring, p + 1);
    RestOfRing(order, p);
    Unlink(next, prev, ring, p + 1);
    hide Ring, Distinct;
    assert ring[p + 1] == order[p];
  }

  /** The other four put it in behind the head. */
  lemma PutFront(next: seq<nat>, prev: seq<nat>, rest: seq<nat>, b: nat)
    requires Ring(next, prev, rest) && rest != [] && rest[0] == HEAD && |next| == NBUF + 1 && b < NBUF && b !in rest
    ensures |prev| == NBUF + 1 && next[HEAD] <= NBUF
    ensures Ring(next[b := next[HEAD]][HEAD := b], prev[b := HEAD][next[HEAD] := b], [HEAD, b] + rest[1..])
  {
    LinkFront(next, prev, rest, b);
    hide Distinct;
  }

  lemma RingFacts(next: seq<nat>, prev: seq<nat>, ring: seq<nat>, i: nat)
    requires Ring(next, prev, ring) && 0 < i < |ring|
    ensures Distinct(ring) && |prev| == |next| && ring[i] < |next| && next[ring[i]] < |next| && prev[ring[i]] < |next|
    ensures next[ring[i]] != ring[i] && ring[0] != ring[i] && ring[0] < |next|
  {
    PrevAt(next, prev, ring, i);
    assert next[ring[i]] == ring[Succ(i, |ring|)];
  }

  lemma FrontStamps(order: seq<nat>, stamp: seq<nat>, clock: nat, p: nat, b: nat)
    requires ByStamp(order, stamp, clock) && p < |order| == NBUF && order[p] == b
    ensures |stamp| == NBUF && b < NBUF && ByStamp([b] + Without(order, p), stamp[b := clock], clock + 1)
  {
    var o := [b] + Without(order, p);
    forall i | 0 <= i < |o|
      ensures o[i] == order[if i == 0 then p else if i <= p then i - 1 else i]
    {
    }
  }

  lemma UntouchKeeps(bufs: seq<Buf>, bufs': seq<Buf>, disk: seq<Block>, b: nat)
    requires b < |bufs| && Unique(bufs) && (forall i | 0 <= i < |bufs| :: BufOk(bufs[i], disk))
    requires bufs[b].refcnt > (if bufs[b].locked then 1 else 0)
    requires bufs' == bufs[b := bufs[b].(refcnt := bufs[b].refcnt - 1)]
    ensures Unique(bufs') && forall i | 0 <= i < |bufs'| :: BufOk(bufs'[i], disk)
  {
  }

  lemma ScanStart(next: seq<nat>, prev: seq<nat>, order: seq<nat>)
    requires Ring(next, prev, [HEAD] + order) && |order| == NBUF && |next| == NBUF + 1
    ensures |prev| == NBUF + 1 && next[HEAD] == order[0] && prev[HEAD] == order[NBUF - 1] && order[0] != HEAD && order[NBUF - 1] != HEAD
  {
    var ring := [HEAD] + order;
    assert next[ring[0]] == ring[1];
    PrevAt(next, prev, ring, 0);
    assert ring[0] != ring[1] && ring[0] != ring[NBUF];
  }

  lemma ScanForward(next: seq<nat>, prev: seq<nat>, order: seq<nat>, i: nat)
    requires Ring(next, prev, [HEAD] + order) && i < |order| == NBUF
    ensures order[i] < |next| && next[order[i]] == if i + 1 < NBUF then order[i + 1] else HEAD
  {
    var ring := [HEAD] + order;
    assert ring[i + 1] == order[i] && next[ring[i + 1]] == ring[Succ(i + 1, |ring|)];
  }

  lemma ScanBackward(next: seq<nat>, prev: seq<nat>, order: seq<nat>, i: nat)
    requires Ring(next, prev, [HEAD] + order) && i < |order| == NBUF
    ensures order[i] < |prev| && prev[order[i]] == if i > 0 then order[i - 1] else HEAD
  {
    var ring := [HEAD] + order;
    assert ring[i + 1] == order[i];
    PrevAt(next, prev, ring, i + 1);
  }

  /** All buffers of a ring of NBUF + 1 elements are in it. */
  lemma OrderHas(next: seq<nat>, prev: seq<nat>, order: seq<nat>, b: nat)
    requires Ring(next, prev, [HEAD] + order) && |order| == NBUF && |next| == NBUF + 1 && b < NBUF
    ensures b in order
  {
    var ring := [HEAD] + order;
    forall i, j | 0 <= i < j < |order|
      ensures order[i] != order[j]
    {
      assert ring[i + 1] != ring[j + 1];
    }
    forall i | 0 <= i < |order|
      ensures order[i] < NBUF
    {
      assert ring[0] != ring[i + 1] && ring[i + 1] < |next|;
    }
    ListHasAll(order, b);
  }

  lemma NoneTagged(bufs: seq<Buf>, order: seq<nat>, next: seq<nat>, prev: seq<nat>, dev: nat, blockno: nat)
    requires |bufs| == NBUF && Ring(next, prev, [HEAD] + order) && |order| == NBUF && |next| == NBUF + 1
    requires forall j | 0 <= j < NBUF :: order[j] < NBUF && !Tagged(bufs[order[j]], dev, blockno)
    ensures forall b | 0 <= b < NBUF :: !Tagged(bufs[b], dev, blockno)
  {
    hide Ring;
    forall b | 0 <= b < NBUF
      ensures !Tagged(bufs[b], dev, blockno)
    {
      OrderHas(next, prev, order, b);
    }
  }

  lemma NoneFree(bufs: seq<Buf>, order: seq<nat>, next: seq<nat>, prev: seq<nat>)
    requires |bufs| == NBUF && Ring(next, prev, [HEAD] + order) && |order| == NBUF && |next| == NBUF + 1
    requires forall j | 0 <= j < NBUF :: order[j] < NBUF && !Free(bufs[order[j]])
    ensures forall b | 0 <= b < NBUF :: !Free(bufs[b])
  {
    hide Ring;
    forall b | 0 <= b < NBUF
      ensures !Free(bufs[b])
    {
      OrderHas(next, prev, order, b);
    }
  }

  /** The first eligible buffer from the back is the one released longest ago. */
  lemma Oldest(bufs: seq<Buf>, order: seq<nat>, next: seq<nat>, prev: seq<nat>, stamp: seq<nat>, clock: nat, i: nat)
    requires |bufs| == NBUF && Ring(next, prev, [HEAD] + order) && |order| == NBUF && |next| == NBUF + 1
    requires ByStamp(order, stamp, clock) && i < NBUF && forall j | i < j < NBUF :: !Free(bufs[order[j]])
    ensures forall b | 0 <= b < NBUF && bufs[b].refcnt == 0 && !bufs[b].dirty :: stamp[order[i]] <= stamp[b]
  {
    hide Ring;
    forall b | 0 <= b < NBUF && bufs[b].refcnt == 0 && !bufs[b].dirty
      ensures stamp[order[i]] <= stamp[b]
    {
      OrderHas(next, prev, order, b);
      var j :| 0 <= j < NBUF && order[j] == b;
      assert j <= i;
    }
  }

  lemma TouchKeeps(bufs: seq<Buf>, bufs': seq<Buf>, disk: seq<Block>, b: nat)
    requires b < |bufs| && Unique(bufs) && forall i | 0 <= i < |bufs| :: BufOk(bufs[i], disk)
    requires bufs' == bufs[b := bufs[b].(refcnt := bufs[b].refcnt + 1)]
    ensures Unique(bufs') && forall i | 0 <= i < |bufs'| :: BufOk(bufs'[i], disk)
  {
  }

  lemma RecycleKeeps(bufs: seq<Buf>, bufs': seq<Buf>, disk: seq<Block>, b: nat)
    requires b < |bufs| && Unique(bufs) && (forall i | 0 <= i < |bufs| :: BufOk(bufs[i], disk)) && Free(bufs[b])
    requires |bufs'| == |bufs| && bufs'[b].refcnt == 1 && !bufs'[b].valid && !bufs'[b].dirty && !bufs'[b].locked
    requires forall i | 0 <= i < |bufs| && i != b :: bufs'[i] == bufs[i] && !Tagged(bufs[i], bufs'[b].dev, bufs'[b].blockno)
    ensures Unique(bufs') && forall i | 0 <= i < |bufs'| :: BufOk(bufs'[i], disk)
  {
  }
}
