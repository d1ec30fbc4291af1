/** malloc and free of umalloc.c, relinking headers in place. */
module Umalloc {
  import opened Common
  import opened FreeList

  const HEADER := 8          // sizeof(Header)
  const NULL := -1
  const MINCORE := 4096

  /** Units asked for by malloc(nbytes), in 32-bit unsigned arithmetic. */
  function Nunits(nbytes: nat): (n: nat)
    ensures 0 < n <= TWO32 / HEADER
  {
    (nbytes + HEADER - 1) % TWO32 / HEADER + 1
  }

  /** The units behind the header hold nbytes bytes exactly when the sum does not wrap around. */
  lemma BigEnough(nbytes: nat)
    requires nbytes < TWO32
    ensures (Nunits(nbytes) - 1) * HEADER >= nbytes <==> nbytes <= TWO32 - HEADER
  {
    if nbytes <= TWO32 - HEADER {
      assert (nbytes + HEADER - 1) % TWO32 == nbytes + HEADER - 1;
    } else {
      assert (nbytes + HEADER - 1) % TWO32 == nbytes + HEADER - 1 - TWO32;
    }
  }

  /** The smallest request that wraps gets a block with no room at all. */
  lemma TooSmall()
    ensures Nunits(TWO32 - HEADER + 1) == 1
  {
  }

  datatype Result =
    | Block(addr: nat)    // a pointer to the unit behind the header
    | Null                // sbrk has failed
    | Corrupt             // sbrk was given a byte count that is not positive as an int, and gave no memory

  /** What sbrk answers: no memory, or memory from gap units above the break
      that malloc saw last, which other callers of sbrk may have moved. */
  datatype Reply = Refused | Granted(gap: nat)

  /** The byte count of morecore, as the int that sbrk takes. */
  function SbrkArg(nu: nat): int {
    var x := nu * HEADER % TWO32;
    if x < TWO31 then x else x - TWO32
  }

  function CoreUnits(n: nat): (u: nat)
    ensures u >= n && u >= 4096 && (u == n || u == 4096)
  {
    if n < MINCORE then MINCORE else n
  }

  /** sbrk is asked for the memory malloc needs exactly when the request is below 2^31 bytes. */
  lemma SbrkArgRight(n: nat)
    requires 0 < n <= TWO32 / HEADER
    ensures SbrkArg(CoreUnits(n)) == CoreUnits(n) * HEADER <==> n < TWO31 / HEADER
    ensures SbrkArg(CoreUnits(n)) > 0 <==> n < TWO31 / HEADER
  {
  }

  /** Every free block between freep and p, going up and round, is too small. */
  ghost predicate Passed(size: seq<nat>, free: set<nat>, freep: int, p: nat, n: nat) {
    forall t | t in free && t < |size| && (if p > freep then freep < t < p else t > freep || t < p) :: size[t] < n
  }

  /** The block at addr is the end of the first free block behind freep that has n units. */
  ghost predicate EndOfFirst(size: seq<nat>, free: set<nat>, freep: int, n: nat, addr: int) {
    exists p | p in free && p < |size| :: size[p] >= n && addr == p + size[p] - n && Passed(size, free, freep, p, n)
  }

  class Heap {
    var ptr: seq<nat>
    var size: seq<nat>
    var freep: int
    ghost var h: Shape

    ghost function Mem(): Units
      reads this
    {
      Units(ptr, size)
    }

    ghost predicate Valid()
      reads this
    {
      if freep == NULL then |ptr| == |size| > 0 && h == Shape({0}, map[], map[])
      else HeapOk(Mem(), h) && freep >= 0 && freep in h.free
    }

    /** Unit 0 is base; memory up to the break belongs to the program. */
    constructor (brk: nat)
      requires brk > 0
      ensures Valid() && h.live == map[] && h.cover == map[] && freep == NULL
    {
      ptr, size, freep := seq(brk, _ => 0), seq(brk, _ => 0), NULL;
      h := Shape({0}, map[], map[]);
    }

    /** The program writes a unit behind the header of a block it holds. */
    method Store(u: nat, x: nat, y: nat)
      requires Valid() && u in h.cover && h.cover[u] in h.live && h.cover[u] != u
      modifies this`ptr, this`size
      ensures Valid() && ptr == old(ptr)[u := x] && size == old(size)[u := y]
    {
      hide HeapOk;
      InteriorWrite(Mem(), h, u, x, y);
      ptr, size := ptr[u := x], size[u := y];
    }

    /** The search of free(): the free block after which bp belongs. */
    method Predecessor(bp: nat) returns (p: nat)
      requires HeapOk(Mem(), h) && 0 <= freep && freep in h.free && bp in h.live
      ensures Precedes(Mem(), h.free, p, bp)
    {
      hide HeapOk, Precedes;
      p := freep;
      NextOf(Mem(), h, p, bp);
      while !(bp > p && bp < ptr[p])
        invariant p in h.free && p < |ptr|
        decreases if p > bp then 1 else 0, |ptr| - p
      {
        NextOf(Mem(), h, p, bp);
        if p >= ptr[p] && (bp > p || bp < ptr[p]) { break; }
        p := ptr[p];
        NextOf(Mem(), h, p, bp);
      }
      NextOf(Mem(), h, p, bp);
    }

    /** Put a block back on the free list, merging it with its neighbours. */
    method Free(ap: nat)
      requires Valid() && freep != NULL && ap > 0 && ap - 1 in h.live
      modifies this
      ensures Valid() && freep != NULL && |ptr| == |old(ptr)|
      ensures h.live == old(h.live) - {ap - 1} && h.cover.Keys == old(h.cover.Keys)
      ensures exists w :: w in h.free && w < |size| && size[w] >= old(h.live)[ap - 1]
    {
      hide HeapOk, FreedShape, Freed;
      var bp := ap - 1;
      var p := Predecessor(bp);
      NextOf(Mem(), h, p, bp);
      FreeKeeps(Mem(), h, p, bp);
      FreedHolds(Mem(), h, p, bp);
      ghost var m := Mem();
      Relink(p, bp);
      freep := p;
      h := FreedShape(m, h, p, bp);
    }

    /** The assignments of free() once the predecessor is known. */
    method Relink(p: nat, bp: nat)
      requires p < |ptr| == |size| && bp < |ptr| && ptr[p] < |ptr|
      modifies this`ptr, this`size
      ensures Mem() == old(Freed(Mem(), p, bp))
    {
      if bp + size[bp] == ptr[p] {
        size := size[bp := size[bp] + size[ptr[p]]];
        ptr := ptr[bp := ptr[ptr[p]]];
      } else {
        ptr := ptr[bp := ptr[p]];
      }
      if p + size[p] == bp {
        size := size[p := size[p] + size[bp]];
        ptr := ptr[p := ptr[bp]];
      } else {
        ptr := ptr[p := bp];
      }
    }

    /** Some free block is large enough. */
    ghost predicate Fits(n: nat)
      reads this
    {
      exists w :: w in h.free && w < |size| && size[w] >= n
    }

    /** Ask the system for memory: fresh units above the break. */
    method Sbrk(nu: nat, reply: Reply) returns (r: Result)
      requires Valid() && freep != NULL && nu > 0
      modifies this`ptr, this`size, this`h
      ensures r.Corrupt? <==> SbrkArg(nu) <= 0
      ensures r.Null? <==> SbrkArg(nu) > 0 && reply.Refused?
      ensures !r.Block? ==> ptr == old(ptr) && size == old(size) && h == old(h)
      ensures r.Block? ==>
        && reply.Granted? && r.addr == |old(ptr)| + reply.gap && |ptr| == r.addr + nu
        && HeapOk(Mem(), h) && freep in h.free && h.free == old(h.free)
        && r.addr !in old(h.live) && h.live == old(h.live)[r.addr := nu]
        && h.cover.Keys == old(h.cover.Keys) + Span(r.addr, nu)
    {
      hide HeapOk;
      if SbrkArg(nu) <= 0 { return Corrupt; }
      if reply.Refused? { return Null; }
      GrowKeeps(Mem(), h, reply.gap, nu);
      var st := |size| + reply.gap;
      ghost var m := Mem();
      var g := GrownUnits(Units(ptr, size), reply.gap, nu);
      ptr, size := g.ptr, g.size;
      h := GrownShape(m, h, reply.gap, nu);
      return Block(st);
    }

    /** Add at least n units to the free list. */
    method Morecore(n: nat, reply: Reply) returns (r: Result)
      requires Valid() && freep != NULL && n > 0
      modifies this
      ensures Valid() && freep != NULL && h.live == old(h.live)
      ensures r.Corrupt? <==> SbrkArg(CoreUnits(n)) <= 0
      ensures r.Null? <==> SbrkArg(CoreUnits(n)) > 0 && reply.Refused?
      ensures !r.Block? ==> ptr == old(ptr) && size == old(size) && h == old(h) && freep == old(freep)
      ensures r.Block? ==> r.addr == freep && Fits(n)
      ensures r.Block? ==> reply.Granted? && var st := |old(ptr)| + reply.gap;
        |ptr| == st + CoreUnits(n) && h.cover.Keys == old(h.cover.Keys) + Span(st, CoreUnits(n))
    {
      hide HeapOk;
      var nu := CoreUnits(n);
      var p := Sbrk(nu, reply);
      if !p.Block? { return p; }
      Free(p.addr + 1);
      return Block(freep);
    }

    /** Cut n units out of the free block p, which has that many, behind prevp. */
    method Take(prevp: nat, p: nat, n: nat) returns (addr: nat)
      requires Valid() && freep != NULL && prevp in h.free && p in h.free && prevp < |ptr| && ptr[prevp] == p
      requires 0 < n && p < |size| && n <= size[p]
      modifies this
      ensures Valid() && freep == prevp && addr > 0 && |ptr| == |old(ptr)|
      ensures addr - 1 !in old(h.live) && h.live == old(h.live)[addr - 1 := n] && h.cover.Keys == old(h.cover.Keys)
      ensures addr - 1 == p + old(size)[p] - n
    {
      hide HeapOk;
      FitIsBlock(Mem(), h, p);
      ScanAt(Mem(), h, prevp);
      if size[p] == n {
        TakeWhole(Mem(), h, prevp);
        ptr := ptr[prevp := ptr[p]];
        assert Mem() == old(Mem()).(ptr := old(ptr)[prevp := old(ptr)[p]]);
        h := Shape(h.free - {p}, h.live[p := n], h.cover);
        addr := p + 1;
      } else {
        TakeTail(Mem(), h, p, n);
        h := TailShape(Mem(), h, p, n);
        size := size[p := size[p] - n];
        var q := p + size[p];
        size := size[q := n];
        assert Mem() == TailUnits(old(Mem()), p, n);
        addr := q + 1;
      }
      freep := prevp;
    }

    /** The first call of malloc makes base the free list. */
    method Start(n: nat)
      requires Valid() && n > 0
      modifies this`ptr, this`size, this`freep
      ensures Valid() && freep != NULL && |ptr| == |old(ptr)| && Fits(n) == old(freep != NULL && Fits(n))
      ensures Fits(n) ==> size == old(size) && freep == old(freep)
    {
      hide HeapOk;
      if freep == NULL {
        StartOk(Mem());
        ptr, size, freep := ptr[0 := 0], size[0 := 0], 0;
        assert !Fits(n);
      }
    }

    /** A block that is large enough is one that fits. */
    lemma FitsHere(p: nat, n: nat)
      requires p in h.free && p < |size| && size[p] >= n
      ensures Fits(n)
    {
    }

    lemma PassedNext(p: nat, n: nat)
      requires HeapOk(Mem(), h) && 0 <= freep && freep in h.free && p in h.free
      requires p == freep || (p < |size| && Passed(size, h.free, freep, p, n) && size[p] < n)
      ensures p < |ptr| && Passed(size, h.free, freep, ptr[p], n)
    {
      hide HeapOk;
      ScanAt(Mem(), h, p);
    }

    /** Once round the list without success, nothing fits. */
    lemma NothingFits(n: nat)
      requires 0 <= freep < |size| && Passed(size, h.free, freep, freep, n) && size[freep] < n
      ensures !Fits(n)
    {
    }

    /** malloc can use what is free already. */
    ghost predicate Has(nbytes: nat)
      reads this
    {
      freep != NULL && Fits(Nunits(nbytes))
    }

    /** Allocate nunits units.  The block is fresh and the blocks allocated
        before are untouched.  What is free is used if a block of it is large
        enough, from the end of the first one behind freep; otherwise the units sbrk grants join the heap, and only if it
        is refused, or asked for a count that is not positive, malloc fails.
        The search goes round the list once, or once more after sbrk. */
    method Malloc(nbytes: nat, reply: Reply) returns (r: Result)
      requires Valid() && nbytes < TWO32
      modifies this
      ensures Valid()
      ensures r.Block? ==> r.addr > 0 && r.addr - 1 !in old(h.live) && h.live == old(h.live)[r.addr - 1 := Nunits(nbytes)]
      ensures !r.Block? ==> h.live == old(h.live) && h.cover == old(h.cover) && h.free == old(h.free)
      ensures r.Corrupt? <==> !old(Has(nbytes)) && Nunits(nbytes) >= TWO31 / HEADER
      ensures r.Null? <==> !old(Has(nbytes)) && Nunits(nbytes) < TWO31 / HEADER && reply.Refused?
      ensures old(Has(nbytes)) ==> h.cover.Keys == old(h.cover.Keys) && |ptr| == |old(ptr)|
      ensures old(Has(nbytes)) ==> r.Block? && EndOfFirst(old(size), old(h.free), old(freep), Nunits(nbytes), r.addr - 1)
      ensures !old(Has(nbytes)) && r.Block? ==> reply.Granted? && var st := |old(ptr)| + reply.gap;
        |ptr| == st + CoreUnits(Nunits(nbytes)) && h.cover.Keys == old(h.cover.Keys) + Span(st, CoreUnits(Nunits(nbytes)))
    {
      hide HeapOk, Nunits, Span, CoreUnits, SbrkArg, Fits, Passed, IsNext;
      var nunits := Nunits(nbytes);
      Start(nunits);
      ghost var fits, keys, brk := Fits(nunits), h.cover.Keys, |ptr|;
      var prevp: nat := freep;
      ScanAt(Mem(), h, prevp);
      var p := ptr[prevp];
      var grown := false;
      ScanAt(Mem(), h, p);
      PassedNext(prevp, nunits);
      while true
        invariant Valid() && freep != NULL && prevp in h.free && p in h.free && prevp < |ptr| && p < |ptr| == |size| && ptr[prevp] == p
        invariant Passed(size, h.free, freep, p, nunits)
        invariant h.live == old(h.live)
        invariant !grown ==> fits == Fits(nunits) && h == old(h) && |ptr| == brk
        invariant !grown && fits ==> size == old(size) && freep == old(freep)
        invariant grown ==> Fits(nunits) && !fits && nunits < TWO31 / HEADER && reply.Granted? && |ptr| == brk + reply.gap + CoreUnits(nunits)
        invariant grown ==> h.cover.Keys == keys + Span(brk + reply.gap, CoreUnits(nunits))
        decreases if grown then 0 else 1, if p > freep then 1 else 0, |ptr| - p
      {
        if size[p] >= nunits {
          FitsHere(p, nunits);
          var addr := Take(prevp, p, nunits);
          return Block(addr);
        }
        ScanAt(Mem(), h, p);
        if p == freep {
          NothingFits(nunits);
          var q := Morecore(nunits, reply);
          SbrkArgRight(nunits);
          if !q.Block? { return q; }
          grown := true;
          p := q.addr;
        }
        prevp := p;
        ScanAt(Mem(), h, p);
        PassedNext(p, nunits);
        p := ptr[p];
        ScanAt(Mem(), h, p);
      }
    }
  }

  lemma FitIsBlock(m: Units, h: Shape, p: nat)
    requires HeapOk(m, h) && p in h.free && p < |m.size| && m.size[p] > 0
    ensures |m.ptr| == |m.size| && p != 0 && p !in h.live
  {
  }

  lemma StartOk(m: Units)
    requires |m.ptr| == |m.size| > 0
    ensures HeapOk(Units(m.ptr[0 := 0], m.size[0 := 0]), Shape({0}, map[], map[]))
  {
  }

  /** Where the search of malloc() goes from p. */
  lemma ScanAt(m: Units, h: Shape, p: nat)
    requires HeapOk(m, h) && p in h.free
    ensures p < |m.ptr| == |m.size| && m.ptr[p] in h.free && m.ptr[p] < |m.ptr| && IsNext(h.free, p, m.ptr[p])
  {
    NextIn(h.free, p, m.ptr[p]);
  }

  /** Where the search of free() stands at p. */
  lemma NextOf(m: Units, h: Shape, p: nat, bp: nat)
    requires HeapOk(m, h) && p in h.free && bp in h.live
    ensures p < |m.ptr| == |m.size| && m.ptr[p] in h.free && m.ptr[p] < |m.ptr|
    ensures bp < |m.ptr| && m.size[bp] == h.live[bp] && p != bp && m.ptr[p] != bp && (p >= m.ptr[p] ==> m.ptr[p] == 0)
    ensures p < bp && (bp < m.ptr[p] || m.ptr[p] == 0) ==> Precedes(m, h.free, p, bp)
  {
    NextIn(h.free, p, m.ptr[p]);
  }
}
