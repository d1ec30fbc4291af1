/** The heap of umalloc.c as an array of header units, and what insertion,
    merging, splitting and unlinking do to it.

    Unit 0 is `base`; the units obtained from sbrk lie above it. */
module FreeList {

  /** The two words of every header unit. */
  datatype Units = Units(ptr: seq<nat>, size: seq<nat>)

  /** free: the free blocks and base.
      live: the allocated blocks, with their sizes.
      cover: for every unit obtained from sbrk, the block it lies in. */
  datatype Shape = Shape(free: set<nat>, live: map<nat, nat>, cover: map<nat, nat>)

  predicate IsBlock(h: Shape, s: nat) {
    s in h.live || (s != 0 && s in h.free)
  }

  /** n is the free block next after s in address order, or base after the last one. */
  ghost predicate IsNext(free: set<nat>, s: nat, n: nat) {
    && n in free
    && (n > s ==> forall t | t in free :: t <= s || t >= n)
    && (n <= s ==> n == 0 && forall t | t in free :: t <= s)
  }

  /** The free list is one cycle through base and all free blocks in address order. */
  ghost predicate Cycle(m: Units, free: set<nat>) {
    && |m.ptr| == |m.size| && 0 in free && 0 < |m.ptr| && m.size[0] == 0
    && (forall s | s in free :: s < |m.ptr| && IsNext(free, s, m.ptr[s]))
  }

  /** The units of block s belong to s. */
  ghost predicate Filled(size: seq<nat>, cover: map<nat, nat>, s: nat) {
    && 0 < s < |size| && size[s] > 0 && s + size[s] <= |size|
    && forall u: nat | s <= u < s + size[s] :: u in cover && cover[u] == s
  }

  /** Unit u lies in the block the cover names for it. */
  ghost predicate InBlock(size: seq<nat>, h: Shape, u: nat) {
    u in h.cover && IsBlock(h, h.cover[u]) && h.cover[u] < |size| && h.cover[u] <= u < h.cover[u] + size[h.cover[u]]
  }

  /** Every unit obtained from sbrk lies in exactly one block, free or allocated. */
  ghost predicate Partition(m: Units, h: Shape) {
    && |m.ptr| == |m.size|
    && (forall s: nat | IsBlock(h, s) :: Filled(m.size, h.cover, s))
    && (forall u | u in h.cover :: InBlock(m.size, h, u))
    && (forall s | s in h.live :: s !in h.free && s < |m.size| && m.size[s] == h.live[s])
  }

  /** A free block does not end where the next one starts. */
  ghost predicate Apart(m: Units, s: nat)
    requires |m.ptr| == |m.size| && s < |m.ptr|
  {
    m.ptr[s] != 0 ==> s + m.size[s] < m.ptr[s]
  }

  /** No two free blocks are adjacent. */
  ghost predicate Coalesced(m: Units, free: set<nat>)
    requires Cycle(m, free)
  {
    forall s | s in free :: Apart(m, s)
  }

  ghost predicate HeapOk(m: Units, h: Shape) {
    Cycle(m, h.free) && Partition(m, h) && Coalesced(m, h.free)
  }

  /** Two blocks of a partition do not overlap. */
  lemma Disjoint(m: Units, h: Shape, s: nat, t: nat)
    requires Partition(m, h) && IsBlock(h, s) && IsBlock(h, t) && s < t
    ensures s < |m.size| && s + m.size[s] <= t
  {
    assert Filled(m.size, h.cover, s) && Filled(m.size, h.cover, t);
    assert t in h.cover && h.cover[t] == t;
  }

  /** p is the free block after which bp belongs. */
  predicate Precedes(m: Units, free: set<nat>, p: nat, bp: nat) {
    p in free && p < |m.ptr| && p < bp && (bp < m.ptr[p] || m.ptr[p] == 0)
  }

  // ---------- Insertion ----------

  /** A block bp becomes free behind p. */
  function Inserted(m: Units, p: nat, bp: nat): Units
    requires p < |m.ptr| && bp < |m.ptr|
  {
    m.(ptr := m.ptr[bp := m.ptr[p]][p := bp])
  }

  /** The successor of every block after bp has gone in behind p. */
  lemma InsertNext(free: set<nat>, p: nat, pn: nat, bp: nat, s: nat, n: nat)
    requires p in free && s in free && IsNext(free, p, pn) && IsNext(free, s, n)
    requires p < bp && (bp < pn || pn == 0) && bp !in free
    ensures IsNext(free + {bp}, p, bp) && IsNext(free + {bp}, bp, pn)
    ensures s != p ==> IsNext(free + {bp}, s, n)
  {
    if s != p {
      if s < p { assert n <= p; }
    }
  }

  lemma InsertCycle(m: Units, free: set<nat>, p: nat, bp: nat)
    requires Cycle(m, free) && Precedes(m, free, p, bp) && bp !in free && bp < |m.ptr|
    ensures Cycle(Inserted(m, p, bp), free + {bp})
  {
    hide IsNext;
    var m', free' := Inserted(m, p, bp), free + {bp};
    InsertNext(free, p, m.ptr[p], bp, p, m.ptr[p]);
    forall s | s in free && s != p
      ensures IsNext(free', s, m'.ptr[s])
    {
      InsertNext(free, p, m.ptr[p], bp, s, m.ptr[s]);
    }
  }

  lemma InsertPartition(m: Units, h: Shape, p: nat, bp: nat)
    requires Partition(m, h) && p < |m.ptr| && bp in h.live
    ensures bp < |m.ptr|
    ensures Partition(Inserted(m, p, bp), Shape(h.free + {bp}, h.live - {bp}, h.cover))
  {
    assert IsBlock(h, bp);
    var h' := Shape(h.free + {bp}, h.live - {bp}, h.cover);
    assert forall s: nat :: IsBlock(h', s) <==> IsBlock(h, s);
  }

  // ---------- Merging ----------

  /** x swallows its successor in the list, which starts where x ends. */
  function Merged(m: Units, x: nat): Units
    requires x < |m.ptr| == |m.size| && m.ptr[x] < |m.ptr|
  {
    var y := m.ptr[x];
    Units(m.ptr[x := m.ptr[y]], m.size[x := m.size[x] + m.size[y]])
  }

  function MergedShape(h: Shape, x: nat, y: nat): Shape {
    Shape(h.free - {y}, h.live, map u | u in h.cover :: if h.cover[u] == y then x else h.cover[u])
  }

  /** The successor of every block after y, the successor of x, has gone. */
  lemma RemoveNext(free: set<nat>, x: nat, y: nat, yn: nat, s: nat, n: nat)
    requires x in free && y in free && s in free && IsNext(free, x, y) && IsNext(free, y, yn) && IsNext(free, s, n)
    requires x < y && s != y
    ensures IsNext(free - {y}, x, yn)
    ensures s != x ==> IsNext(free - {y}, s, n)
  {
    if s != x {
      if s < x { assert n <= x; } else { assert s > y; }
    }
  }

  lemma NextIn(free: set<nat>, s: nat, n: nat)
    requires IsNext(free, s, n)
    ensures n in free && (n <= s ==> n == 0)
  {
  }

  /** Unlinking the successor of x. */
  lemma RemoveCycle(m: Units, m': Units, free: set<nat>, x: nat)
    requires Cycle(m, free) && x in free && x < m.ptr[x] && m.ptr[x] < |m.ptr|
    requires m'.ptr == m.ptr[x := m.ptr[m.ptr[x]]] && |m'.size| == |m.size| && m'.size[0] == 0
    ensures Cycle(m', free - {m.ptr[x]})
  {
    hide IsNext;
    var y := m.ptr[x];
    NextIn(free, x, y);
    RemoveNext(free, x, y, m.ptr[y], x, y);
    forall s | s in free && s != y && s != x
      ensures IsNext(free - {y}, s, m.ptr[s])
    {
      RemoveNext(free, x, y, m.ptr[y], s, m.ptr[s]);
    }
  }

  lemma MergeFilled(m: Units, h: Shape, x: nat, s: nat)
    requires Partition(m, h) && x in h.free && 0 < x < |m.ptr| && m.ptr[x] in h.free && m.ptr[x] == x + m.size[x] < |m.ptr|
    requires IsBlock(h, s) && s != m.ptr[x]
    ensures Filled(Merged(m, x).size, MergedShape(h, x, m.ptr[x]).cover, s)
  {
    var y := m.ptr[x];
    assert IsBlock(h, x) && IsBlock(h, y);
    assert Filled(m.size, h.cover, x) && Filled(m.size, h.cover, y) && Filled(m.size, h.cover, s);
    if s != x {
      assert s < x ==> s + m.size[s] <= x by { if s < x { Disjoint(m, h, s, x); } }
      assert s > y ==> y + m.size[y] <= s by { if s > y { Disjoint(m, h, y, s); } }
      assert s > x ==> x + m.size[x] <= s by { if s > x { Disjoint(m, h, x, s); } }
    }
  }

  lemma MergePartition(m: Units, h: Shape, x: nat)
    requires Partition(m, h) && x in h.free && 0 < x < |m.ptr| && m.ptr[x] in h.free && m.ptr[x] == x + m.size[x]
    ensures m.ptr[x] < |m.ptr| && Partition(Merged(m, x), MergedShape(h, x, m.ptr[x]))
  {
    var y := m.ptr[x];
    assert IsBlock(h, x) && IsBlock(h, y);
    assert Filled(m.size, h.cover, x) && Filled(m.size, h.cover, y);
    hide Filled, InBlock;
    var m', h' := Merged(m, x), MergedShape(h, x, y);
    assert forall s: nat :: IsBlock(h', s) <==> IsBlock(h, s) && s != y;
    forall s: nat | IsBlock(h', s)
      ensures Filled(m'.size, h'.cover, s)
    {
      MergeFilled(m, h, x, s);
    }
    forall u | u in h'.cover
      ensures InBlock(m'.size, h', u)
    {
      MergeCover(m, h, x, u);
    }
  }

  lemma MergeCover(m: Units, h: Shape, x: nat, u: nat)
    requires Partition(m, h) && x in h.free && 0 < x < |m.ptr| && m.ptr[x] in h.free && m.ptr[x] == x + m.size[x] < |m.ptr| && u in h.cover
    ensures InBlock(Merged(m, x).size, MergedShape(h, x, m.ptr[x]), u)
  {
    assert InBlock(m.size, h, u);
    assert IsBlock(h, x) && Filled(m.size, h.cover, x);
  }

  // ---------- Freeing a block ----------

  /** The links and sizes free() leaves, given the predecessor p it found. */
  function Freed(m: Units, p: nat, bp: nat): (r: Units)
    requires p < |m.ptr| == |m.size| && bp < |m.ptr| && m.ptr[p] < |m.ptr|
    ensures |r.ptr| == |r.size| == |m.ptr|
  {
    var n := m.ptr[p];
    var up := bp + m.size[bp] == n;
    var m1 := if up then Units(m.ptr[bp := m.ptr[n]], m.size[bp := m.size[bp] + m.size[n]]) else m.(ptr := m.ptr[bp := n]);
    if p + m1.size[p] == bp then Units(m1.ptr[p := m1.ptr[bp]], m1.size[p := m1.size[p] + m1.size[bp]])
    else m1.(ptr := m1.ptr[p := bp])
  }

  /** The shape that goes with it. */
  function FreedShape(m: Units, h: Shape, p: nat, bp: nat): Shape
    requires p < |m.ptr| == |m.size| && bp < |m.ptr|
  {
    var n := m.ptr[p];
    var h1 := Shape(h.free + {bp}, h.live - {bp}, h.cover);
    var h2 := if bp + m.size[bp] == n then MergedShape(h1, bp, n) else h1;
    if p + m.size[p] == bp then MergedShape(h2, p, bp) else h2
  }

  /** The links after insertion and the merger with the following block. */
  function FreedUp(m: Units, p: nat, bp: nat): Units
    requires p < |m.ptr| == |m.size| && bp < |m.ptr| && m.ptr[p] < |m.ptr|
  {
    if bp + m.size[bp] == m.ptr[p] then Merged(Inserted(m, p, bp), bp) else Inserted(m, p, bp)
  }

  lemma FreedInTwo(m: Units, p: nat, bp: nat)
    requires p < |m.ptr| == |m.size| && bp < |m.ptr| && m.ptr[p] < |m.ptr|
    requires p < bp && (bp < m.ptr[p] || m.ptr[p] == 0) && (p == 0 ==> m.size[p] == 0) && m.size[bp] > 0
    ensures var m1 := FreedUp(m, p, bp);
      m1.ptr[p] == bp && m1.size[p] == m.size[p] &&
      Freed(m, p, bp) == if p + m.size[p] == bp then Merged(m1, p) else m1
  {
    var m1, n := FreedUp(m, p, bp), m.ptr[p];
    if bp + m.size[bp] == n {
      FreedBoth(m, p, bp);
    } else if p + m.size[p] == bp {
      assert Freed(m, p, bp).ptr == m.ptr[bp := n][p := n] == Merged(m1, p).ptr;
    }
  }

  lemma FreedBoth(m: Units, p: nat, bp: nat)
    requires p < |m.ptr| == |m.size| && bp < |m.ptr| && m.ptr[p] < |m.ptr|
    requires p < bp < m.ptr[p] && bp + m.size[bp] == m.ptr[p]
    ensures var m1 := FreedUp(m, p, bp);
      m1.ptr[p] == bp && m1.size[p] == m.size[p] &&
      Freed(m, p, bp) == if p + m.size[p] == bp then Merged(m1, p) else m1
  {
    var m1, n := FreedUp(m, p, bp), m.ptr[p];
    var nn, sz := m.ptr[n], m.size[bp] + m.size[n];
    assert m1.ptr == m.ptr[bp := nn][p := bp];
    assert m1.size == m.size[bp := sz];
    if p + m.size[p] == bp {
      assert Merged(m1, p).ptr == m.ptr[bp := nn][p := nn];
      assert Merged(m1, p).size == m.size[bp := sz][p := m.size[p] + sz];
    }
  }

  /** Insertion followed by the mergers with both neighbours is what free() does. */
  lemma FreedIsMerged(m: Units, h: Shape, p: nat, bp: nat)
    requires HeapOk(m, h) && bp in h.live && bp < |m.ptr| && Precedes(m, h.free, p, bp)
    ensures m.ptr[p] < |m.ptr|
    ensures Cycle(Freed(m, p, bp), FreedShape(m, h, p, bp).free) && Partition(Freed(m, p, bp), FreedShape(m, h, p, bp))
  {
    hide IsNext, Coalesced, Freed;
    var n := m.ptr[p];
    NextIn(h.free, p, n);
    var mA, hA := Inserted(m, p, bp), Shape(h.free + {bp}, h.live - {bp}, h.cover);
    InsertCycle(m, h.free, p, bp);
    InsertPartition(m, h, p, bp);
    assert IsBlock(h, bp);
    FreedInTwo(m, p, bp);
    var mB, hB := mA, hA;
    if bp + m.size[bp] == n {
      mB, hB := Merged(mA, bp), MergedShape(hA, bp, n);
      RemoveCycle(mA, mB, hA.free, bp);
      MergePartition(mA, hA, bp);
    }
    if p + m.size[p] == bp {
      RemoveCycle(mB, Merged(mB, p), hB.free, p);
      MergePartition(mB, hB, p);
    }
  }

  /** After free() the block is gone from the allocated ones, nothing else
      allocated has changed, and no two free blocks are adjacent. */
  lemma FreeKeeps(m: Units, h: Shape, p: nat, bp: nat)
    requires HeapOk(m, h) && bp in h.live && Precedes(m, h.free, p, bp)
    ensures bp < |m.ptr| && m.ptr[p] < |m.ptr|
    ensures HeapOk(Freed(m, p, bp), FreedShape(m, h, p, bp)) && p in FreedShape(m, h, p, bp).free
    ensures FreedShape(m, h, p, bp).live == h.live - {bp} && FreedShape(m, h, p, bp).cover.Keys == h.cover.Keys
  {
    hide IsNext;
    assert IsBlock(h, bp);
    FreedIsMerged(m, h, p, bp);
    var m', free' := Freed(m, p, bp), FreedShape(m, h, p, bp).free;
    forall s | s in free'
      ensures Apart(m', s)
    {
      if s == p || s == bp {
        FreedApart(m, h, p, bp);
      } else {
        assert Apart(m, s);
      }
    }
  }

  lemma FreedApart(m: Units, h: Shape, p: nat, bp: nat)
    requires HeapOk(m, h) && bp in h.live && bp < |m.ptr| && Precedes(m, h.free, p, bp) && m.ptr[p] < |m.ptr|
    ensures Apart(Freed(m, p, bp), p) && Apart(Freed(m, p, bp), bp)
  {
    hide IsNext;
    var n := m.ptr[p];
    assert IsBlock(h, bp);
    NextIn(h.free, p, n);
    if n != 0 {
      Disjoint(m, h, bp, n);
      assert Apart(m, n);
    }
    if p != 0 {
      Disjoint(m, h, p, bp);
    }
  }

  // ---------- Allocating a block ----------

  /** Unlink a free block of the right size behind prev. */
  lemma TakeWhole(m: Units, h: Shape, prev: nat)
    requires HeapOk(m, h) && prev in h.free && m.ptr[prev] != 0
    ensures m.ptr[prev] < |m.ptr|
    ensures var p := m.ptr[prev];
      HeapOk(m.(ptr := m.ptr[prev := m.ptr[p]]), Shape(h.free - {p}, h.live[p := m.size[p]], h.cover))
  {
    hide IsNext;
    var p := m.ptr[prev];
    NextIn(h.free, prev, p);
    var m', h' := m.(ptr := m.ptr[prev := m.ptr[p]]), Shape(h.free - {p}, h.live[p := m.size[p]], h.cover);
    RemoveCycle(m, m', h.free, prev);
    NextIn(h.free, p, m.ptr[p]);
    assert forall s: nat :: IsBlock(h', s) <==> IsBlock(h, s);
    assert Partition(m', h');
    forall s | s in h'.free
      ensures Apart(m', s)
    {
      assert Apart(m, s) && Apart(m, p);
    }
  }

  /** Cut the last n units off a free block p. */
  function TailUnits(m: Units, p: nat, n: nat): Units
    requires p < |m.size| && 0 < n < m.size[p] && p + m.size[p] <= |m.size|
  {
    m.(size := m.size[p := m.size[p] - n][p + m.size[p] - n := n])
  }

  function TailShape(m: Units, h: Shape, p: nat, n: nat): Shape
    requires p < |m.size| && n < m.size[p]
  {
    var q := p + m.size[p] - n;
    Shape(h.free, h.live[q := n], map u | u in h.cover :: if q <= u < q + n then q else h.cover[u])
  }

  /** The cut is inside p, so no block starts there. */
  lemma TailFresh(m: Units, h: Shape, p: nat, n: nat)
    requires Partition(m, h) && p in h.free && 0 < p < |m.size| && 0 < n < m.size[p]
    ensures p + m.size[p] <= |m.size| && !IsBlock(h, p + m.size[p] - n) && p !in h.live
    ensures forall u: nat | p <= u < p + m.size[p] :: u in h.cover && h.cover[u] == p
  {
    var q := p + m.size[p] - n;
    assert IsBlock(h, p);
    if IsBlock(h, q) {
      Disjoint(m, h, p, q);
    }
  }

  lemma TailPartition(m: Units, h: Shape, p: nat, n: nat)
    requires Partition(m, h) && p in h.free && 0 < p < |m.size| && 0 < n < m.size[p]
    ensures p + m.size[p] <= |m.size| && Partition(TailUnits(m, p, n), TailShape(m, h, p, n))
  {
    hide Filled, InBlock;
    var q := p + m.size[p] - n;
    TailFresh(m, h, p, n);
    var m', h' := TailUnits(m, p, n), TailShape(m, h, p, n);
    assert forall s: nat :: IsBlock(h', s) <==> IsBlock(h, s) || s == q;
    forall s: nat | IsBlock(h', s)
      ensures Filled(m'.size, h'.cover, s)
    {
      TailFilled(m, h, p, n, s);
    }
    forall u | u in h'.cover
      ensures InBlock(m'.size, h', u)
    {
      TailIn(m, h, p, n, u);
    }
  }

  lemma TailFilled(m: Units, h: Shape, p: nat, n: nat, s: nat)
    requires Partition(m, h) && p in h.free && 0 < p < |m.size| && 0 < n < m.size[p] && p + m.size[p] <= |m.size|
    requires IsBlock(h, s) || s == p + m.size[p] - n
    ensures Filled(TailUnits(m, p, n).size, TailShape(m, h, p, n).cover, s)
  {
    TailFresh(m, h, p, n);
    if IsBlock(h, s) {
      assert Filled(m.size, h.cover, s);
    }
  }

  lemma TailIn(m: Units, h: Shape, p: nat, n: nat, u: nat)
    requires Partition(m, h) && p in h.free && 0 < p < |m.size| && 0 < n < m.size[p] && p + m.size[p] <= |m.size|
    requires u in h.cover
    ensures InBlock(TailUnits(m, p, n).size, TailShape(m, h, p, n), u)
  {
    TailFresh(m, h, p, n);
    assert InBlock(m.size, h, u);
  }

  lemma TakeTail(m: Units, h: Shape, p: nat, n: nat)
    requires HeapOk(m, h) && p in h.free && 0 < p < |m.size| && 0 < n < m.size[p]
    ensures p + m.size[p] <= |m.size| && HeapOk(TailUnits(m, p, n), TailShape(m, h, p, n))
    ensures p + m.size[p] - n !in h.live && TailShape(m, h, p, n).cover.Keys == h.cover.Keys
  {
    hide IsNext, Partition;
    TailFresh(m, h, p, n);
    TailPartition(m, h, p, n);
    var m' := TailUnits(m, p, n);
    forall s | s in h.free
      ensures Apart(m', s)
    {
      assert Apart(m, s);
    }
  }

  // ---------- More memory ----------

  /** sbrk has moved the break from |size| over a gap (units taken by other
      callers of sbrk) to a region of nu units, whose header has been set. */
  function GrownUnits(m: Units, gap: nat, nu: nat): Units
    requires nu > 0
  {
    Units(m.ptr + seq(gap + nu, _ => 0), m.size + seq(gap, _ => 0) + [nu] + seq(nu - 1, _ => 0))
  }

  function Span(st: nat, nu: nat): (s: set<nat>)
    ensures forall u: nat :: u in s <==> st <= u < st + nu
  {
    if nu == 0 then {} else Span(st, nu - 1) + {st + nu - 1}
  }

  function GrownShape(m: Units, h: Shape, gap: nat, nu: nat): Shape {
    var st := |m.size| + gap;
    Shape(h.free, h.live[st := nu], h.cover + map u | u in Span(st, nu) :: st)
  }

  lemma GrowFilled(m: Units, h: Shape, m': Units, gap: nat, nu: nat, s: nat)
    requires Partition(m, h) && nu > 0 && |m'.size| == |m.size| + gap + nu && s < |m'.size|
    requires (forall s | 0 <= s < |m.size| :: m'.size[s] == m.size[s]) && m'.size[|m.size| + gap] == nu
    requires IsBlock(h, s) || (s == |m.size| + gap && 0 < s)
    ensures Filled(m'.size, GrownShape(m, h, gap, nu).cover, s)
  {
    if IsBlock(h, s) { assert Filled(m.size, h.cover, s); }
  }

  lemma GrowCover(m: Units, h: Shape, m': Units, gap: nat, nu: nat, u: nat)
    requires Partition(m, h) && nu > 0 && |m'.size| == |m.size| + gap + nu
    requires (forall s | 0 <= s < |m.size| :: m'.size[s] == m.size[s]) && m'.size[|m.size| + gap] == nu
    requires u in GrownShape(m, h, gap, nu).cover
    ensures InBlock(m'.size, GrownShape(m, h, gap, nu), u)
  {
    if u !in Span(|m.size| + gap, nu) { assert InBlock(m.size, h, u); }
  }

  lemma NoBlockAbove(m: Units, h: Shape, s: nat)
    requires Partition(m, h)
    ensures s >= |m.size| ==> !IsBlock(h, s)
  {
    if IsBlock(h, s) { assert Filled(m.size, h.cover, s); }
  }

  lemma GrowPartition(m: Units, h: Shape, m': Units, gap: nat, nu: nat)
    requires Partition(m, h) && nu > 0 && 0 < |m.size| && |m'.ptr| == |m'.size| == |m.size| + gap + nu
    requires (forall s | 0 <= s < |m.size| :: m'.size[s] == m.size[s]) && m'.size[|m.size| + gap] == nu
    requires forall s | s in h.free :: s < |m.size|
    ensures Partition(m', GrownShape(m, h, gap, nu)) && !IsBlock(h, |m.size| + gap)
  {
    hide Filled, InBlock;
    var st, h' := |m.size| + gap, GrownShape(m, h, gap, nu);
    NoBlockAbove(m, h, st);
    assert forall s: nat :: IsBlock(h', s) <==> IsBlock(h, s) || s == st;
    forall s: nat | IsBlock(h', s)
      ensures Filled(m'.size, h'.cover, s)
    {
      NoBlockAbove(m, h, s);
      GrowFilled(m, h, m', gap, nu, s);
    }
    forall u | u in h'.cover
      ensures InBlock(m'.size, h', u)
    {
      GrowCover(m, h, m', gap, nu, u);
    }
  }

  lemma GrowKeeps(m: Units, h: Shape, gap: nat, nu: nat)
    requires HeapOk(m, h) && nu > 0
    ensures HeapOk(GrownUnits(m, gap, nu), GrownShape(m, h, gap, nu)) && |m.size| + gap !in h.live
    ensures |m.ptr| == |m.size| && GrownShape(m, h, gap, nu).cover.Keys == h.cover.Keys + Span(|m.size| + gap, nu)
  {
    hide IsNext, Partition, GrownShape;
    var m' := GrownUnits(m, gap, nu);
    assert forall s | 0 <= s < |m.size| :: m'.size[s] == m.size[s] && m'.ptr[s] == m.ptr[s];
    GrowPartition(m, h, m', gap, nu);
    GrownFree(m, h, gap, nu);
    forall s | s in h.free
      ensures Apart(m', s)
    {
      assert Apart(m, s);
    }
  }

  lemma GrownFree(m: Units, h: Shape, gap: nat, nu: nat)
    ensures GrownShape(m, h, gap, nu).free == h.free
    ensures GrownShape(m, h, gap, nu).cover.Keys == h.cover.Keys + Span(|m.size| + gap, nu)
  {
  }

  /** The block that the units of bp belong to after free(bp) is at least as large. */
  lemma FreedHolds(m: Units, h: Shape, p: nat, bp: nat)
    requires bp < |m.ptr| == |m.size| && Precedes(m, h.free, p, bp) && m.ptr[p] < |m.ptr|
    ensures var w := if p + m.size[p] == bp then p else bp;
      w in FreedShape(m, h, p, bp).free && w < |m.ptr| && Freed(m, p, bp).size[w] >= m.size[bp]
  {
  }

  /** Writing a unit that is not the header of a block leaves the heap intact. */
  lemma InteriorWrite(m: Units, h: Shape, u: nat, x: nat, y: nat)
    requires HeapOk(m, h) && u in h.cover && h.cover[u] in h.live && h.cover[u] != u
    ensures u < |m.ptr| == |m.size| && HeapOk(Units(m.ptr[u := x], m.size[u := y]), h)
  {
    hide IsNext;
    assert InBlock(m.size, h, u);
    assert Filled(m.size, h.cover, h.cover[u]);
    assert IsBlock(h, u) ==> Filled(m.size, h.cover, u);
    assert !IsBlock(h, u);
    var m' := Units(m.ptr[u := x], m.size[u := y]);
    assert u !in h.free;
    forall s: nat | IsBlock(h, s)
      ensures Filled(m'.size, h.cover, s)
    {
      assert Filled(m.size, h.cover, s);
    }
    forall v | v in h.cover
      ensures InBlock(m'.size, h, v)
    {
      assert InBlock(m.size, h, v);
    }
    forall s | s in h.free
      ensures Apart(m', s)
    {
      assert Apart(m, s);
    }
  }

  // ---------- One cycle ----------

  /** Following k links from p. */
  function Walk(m: Units, p: nat, k: nat): nat {
    if k == 0 then p else
      var q := Walk(m, p, k - 1);
      if q < |m.ptr| then m.ptr[q] else q
  }

  /** The links from base reach every free block. */
  lemma BaseReaches(m: Units, free: set<nat>, s: nat) returns (k: nat)
    requires Cycle(m, free) && s in free
    ensures Walk(m, 0, k) == s
  {
    k := 0;
    var x := 0;
    while x != s
      invariant x in free && x <= s && Walk(m, 0, k) == x
      decreases s - x
    {
      assert IsNext(free, x, m.ptr[x]);
      x, k := m.ptr[x], k + 1;
    }
  }

  /** The links from every free block lead back to base. */
  lemma LeadsToBase(m: Units, free: set<nat>, s: nat) returns (k: nat)
    requires Cycle(m, free) && s in free
    ensures k > 0 && Walk(m, s, k) == 0
  {
    k := 1;
    var x := m.ptr[s];
    assert IsNext(free, s, x) && Walk(m, s, 0) == s;
    while x != 0
      invariant x in free && k > 0 && Walk(m, s, k) == x
      decreases |m.ptr| - x
    {
      assert IsNext(free, x, m.ptr[x]);
      x, k := m.ptr[x], k + 1;
      if x == 0 { return; }
    }
  }
}
