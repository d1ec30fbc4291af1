/** Page tables and the page allocator (vm.c, kalloc.c), changed in place.
    Addresses are page numbers: physical frames and virtual pages. */
module Vm {
  import opened PageTables
  import opened AddressSpaces
  import opened FrameCounts
  import opened Outcomes

  function RoundUp(sz: nat): nat { (sz + PGSIZE - 1) / PGSIZE }

  class Vm {
    const first: nat               // the first frame after the kernel
    const top: nat                 // PHYSTOP / PGSIZE
    ghost const pool: set<nat>     // the frames handed to the allocator
    var mem: Memory
    var free: seq<nat>             // kmem.freelist
    ghost var own: Owner

    ghost predicate Valid()
      reads this
    {
      && Inv(mem, own) && PoolOk(pool, free, own)
      && 0 < first && top <= |mem| && forall f | f in pool :: first <= f < top
    }

    /** kinit: free every whole page between two kernel addresses. */
    constructor (image: Memory, vstart: nat, vend: nat)
      requires 0 < vstart && vend <= |image| * PGSIZE
      ensures Valid() && own == map[] && |mem| == |image|
      ensures forall f: nat :: f in pool <==> vstart <= f * PGSIZE && (f + 1) * PGSIZE <= vend
    {
      var p := RoundUp(vstart);
      var list: seq<nat>, m: Memory := [], image;
      ghost var got: set<nat> := {};
      while (p + 1) * PGSIZE <= vend
        invariant RoundUp(vstart) <= p && |m| == |image|
        invariant forall f: nat :: f in got <==> RoundUp(vstart) <= f < p && (f + 1) * PGSIZE <= vend
        invariant (forall f | f in list :: f in got) && (forall f | f in got :: f in list)
        invariant forall i, j | 0 <= i < j < |list| :: list[i] != list[j]
        decreases vend - p * PGSIZE
      {
        m := m[p := JunkPage()];
        list := [p] + list;
        got := got + {p};
        p := p + 1;
      }
      mem, free, own, pool := m, list, map[], got;
      first, top := RoundUp(vstart), |image|;
    }

    /** Allocate one page; 0 if there is none. */
    method Kalloc() returns (f: nat)
      requires Valid()
      modifies this`free, this`own
      ensures Valid() && (f == 0 <==> old(free) == [])
      ensures f == 0 ==> free == old(free) && own == old(own)
      ensures f != 0 ==> f == old(free)[0] && free == old(free)[1..] && f !in old(own) && own == old(own)[f := Lent]
    {
      hide Pte;
      if free == [] { return 0; }
      f := free[0];
      assert f in free;
      ChangeLent(mem, own, own[f := Lent]);
      free := free[1..];
      own := own[f := Lent];
      assert forall g | g in old(free) && g != f :: g in free;
    }

    /** Free the page at a physical address; it must be one that Kalloc gave and
        that nothing maps.  Any other address panics. */
    method Kfree(pa: nat) returns (r: Outcome<()>)
      requires Valid()
      requires pa % PGSIZE == 0 && first <= pa / PGSIZE < top ==> pa / PGSIZE in own && own[pa / PGSIZE] == Lent
      modifies this`free, this`own, this`mem
      ensures Valid() && (r.Panic? <==> pa % PGSIZE != 0 || pa / PGSIZE < first || pa / PGSIZE >= top)
      ensures r.Panic? ==> free == old(free) && own == old(own) && mem == old(mem)
      ensures r.Done? ==>
        var f := pa / PGSIZE;
        f < |old(mem)| && free == [f] + old(free) && own == old(own) - {f} && mem == old(mem)[f := JunkPage()]
    {
      if pa % PGSIZE != 0 || pa / PGSIZE < first || pa / PGSIZE >= top { return Panic; }
      r := FreeFrame(pa / PGSIZE);
    }

    /** The same for a frame that is in use. */
    method FreeFrame(f: nat) returns (r: Outcome<()>)
      requires Valid() && f in own && own[f] == Lent
      modifies this`free, this`own, this`mem
      ensures Valid() && r.Done? && f < |old(mem)|
      ensures free == [f] + old(free) && own == old(own) - {f} && mem == old(mem)[f := JunkPage()]
    {
      hide Pte;
      OtherWrite(mem, mem[f := JunkPage()], own);
      ChangeLent(mem[f := JunkPage()], own, own - {f});
      mem := mem[f := JunkPage()];
      free := [f] + free;
      own := own - {f};
      return Done(());
    }

    /** The page table that covers page v, made if asked for and missing; 0 if there is none. */
    method Walkpgdir(d: nat, v: nat, alloc: bool) returns (t: nat)
      requires Valid() && IsDir(own, d) && v < ALLPAGES
      modifies this`mem, this`free, this`own
      ensures Valid() && IsDir(own, d) && |mem| == |old(mem)|
      ensures t == 0 ==> mem == old(mem) && free == old(free) && own == old(own) && !Present(mem[d][v / NENTRIES])
      ensures t == 0 <==> !HasTable(old(mem), d, v / NENTRIES) && (!alloc || old(free) == [])
      ensures |free| == |old(free)| - if t == 0 || HasTable(old(mem), d, v / NENTRIES) then 0 else 1
      ensures TablesGrow(old(mem), mem, d, if t == 0 then {} else {v / NENTRIES})
      ensures t != 0 ==> Present(mem[d][v / NENTRIES]) && FrameOf(mem[d][v / NENTRIES]) == t && t < |mem| && t in own
      ensures !alloc || old(d < |mem| && Present(mem[d][v / NENTRIES])) ==> mem == old(mem) && free == old(free) && own == old(own)
      ensures own == old(own) || (t !in old(own) && t != 0 && own == old(own)[t := Table(d, v / NENTRIES)])
      ensures forall e: nat, x: nat | old(IsDir(own, e)) && x < ALLPAGES :: Pte(mem, e, x) == Pte(old(mem), e, x)
      ensures forall f | f in old(own) && f != d && f < |mem| :: mem[f] == old(mem)[f]
    {
      hide Pte, Present, FrameOf, Entry, UsersOk, PoolOk;
      FramesIn(mem, own);
      NoneMissing(mem, d, 0);
      if Present(mem[d][v / NENTRIES]) {
        t := FrameOf(mem[d][v / NENTRIES]);
        TableIn(mem, own, pool, free, d, v);
        HasAlready(mem, d, v / NENTRIES);
      } else {
        if !alloc { return 0; }
        t := Kalloc();
        if t == 0 { return 0; }
        FramesIn(mem, own);
        LinkTable(mem, own, d, v / NENTRIES, t);
        RenamePool(pool, free, own, t, Table(d, v / NENTRIES));
        hide TablesOk;
        mem := mem[t := ZeroPage()];
        mem := mem[d := mem[d][v / NENTRIES := Entry(t, PTE_W + PTE_U)]];
        own := own[t := Table(d, v / NENTRIES)];
        LinkedTable(old(mem), mem, d, v / NENTRIES, Entry(t, PTE_W + PTE_U));
      }
    }

    /** One round of mappages: map frame f at page v.  Mapping a page twice
        panics; without memory for a page table nothing is changed. */
    method MapPage(d: nat, v: nat, f: nat, perm: nat) returns (r: Outcome<bool>)
      requires Valid() && IsDir(own, d) && v < ALLPAGES && perm < PGSIZE
      requires v < USERPAGES ==> f in own && own[f] == Lent
      modifies this`mem, this`free, this`own
      ensures Valid() && IsDir(own, d) && |mem| == |old(mem)|
      ensures r.Panic? <==> Present(Pte(old(mem), d, v))
      ensures r != Done(true) ==> mem == old(mem) && free == old(free) && own == old(own)
      ensures r == Done(false) <==> !HasTable(old(mem), d, v / NENTRIES) && old(free) == []
      ensures r == Done(true) ==> |free| == |old(free)| - if HasTable(old(mem), d, v / NENTRIES) then 0 else 1
      ensures r == Done(true) ==> TablesGrow(old(mem), mem, d, {v / NENTRIES})
      ensures r == Done(true) ==>
        && OnlyPte(old(mem), mem, old(own), d, v, Entry(f, perm))
        && (v < USERPAGES ==> f in own && own[f] == User(d, v) && TablesAdded(old(own), own[f := Lent], d))
        && (v >= USERPAGES ==> TablesAdded(old(own), own, d))
        && (forall g | g in old(own) && (old(own)[g].Lent? || old(own)[g].User?) && g < |mem| :: mem[g] == old(mem)[g])
    {
      hide Pte, Entry, Present, FrameOf, TablesOk, UsersOk, PoolOk;
      NoTable(mem, own, d, v);
      var t := Walkpgdir(d, v, true);
      if t == 0 { return Done(false); }
      ghost var m1, own1 := mem, own;
      PteOf(mem, d, v, t);
      if Present(mem[t][v % NENTRIES]) { return Panic; }
      SetPteOnly(mem, own, d, v, Entry(f, perm));
      mem := mem[t := mem[t][v % NENTRIES := Entry(f, perm)]];
      if v < USERPAGES {
        MapUser(m1, mem, own, d, v, f, perm);
        RenameLent(mem, own, f, User(d, v));
        RenamePool(pool, free, own, f, User(d, v));
        own := own[f := User(d, v)];
      } else {
        MapKernel(m1, mem, own, d, v, Entry(f, perm));
      }
      return Done(true);
    }

    /** Clear the entry of page v and free its page, if it is mapped. */
    method UnmapPage(d: nat, v: nat, t: nat)
      requires Valid() && IsDir(own, d) && v < USERPAGES
      requires Present(mem[d][v / NENTRIES]) && FrameOf(mem[d][v / NENTRIES]) == t < |mem|
      modifies this`mem, this`free, this`own
      ensures Valid() && IsDir(own, d) && |mem| == |old(mem)|
      ensures OnlyPte(old(mem), mem, own, d, v, if Present(Pte(old(mem), d, v)) then 0 else Pte(old(mem), d, v))
      ensures own == UnmapRange(old(own), d, v, v + 1)
      ensures forall g | g in own && (own[g].Lent? || own[g].User?) && g < |mem| :: mem[g] == old(mem)[g]
    {
      hide Pte, Present, FrameOf, TablesOk, UsersOk, PoolOk, UnmapRange;
      NoTable(mem, own, d, v);
      PteOf(mem, d, v, t);
      UnmapOne(mem, own, d, v);
      var pte := mem[t][v % NENTRIES];
      if Present(pte) {
        var f := FrameOf(pte);
        ghost var m0 := mem;
        SetPteOnly(mem, own, d, v, 0);
        mem := mem[t := mem[t][v % NENTRIES := 0]];
        UnmapUser(m0, mem, own, d, v);
        ToLent(mem, own, pool, free, f);
        own := own[f := Lent];
        ghost var m1, own1 := mem, own;
        var r := FreeFrame(f);
        assert own == own1 - {f};
        JunkKeeps(m1, mem, own1, f);
      }
    }

    /** Unmap and free the user pages from newsz up to oldsz.  Skipping the rest
        of a missing page table gives what a scan page by page would. */
    method Deallocuvm(d: nat, oldsz: nat, newsz: nat) returns (r: nat)
      requires Valid() && IsDir(own, d) && oldsz <= KERNBASE
      modifies this`mem, this`free, this`own
      ensures Valid() && r == (if newsz >= oldsz then oldsz else newsz)
      ensures Unmapped(old(mem), old(own), mem, own, d, RoundUp(newsz), RoundUp(oldsz))
    {
      hide Pte, FrameOf, TablesOk, UsersOk, PoolOk, UnmapRange;
      ghost var m0, own0, lo := mem, own, RoundUp(newsz);
      UnmapNone(own, d, lo, RoundUp(oldsz));
      if newsz >= oldsz {
        return oldsz;
      }
      var a := RoundUp(newsz);
      UnmapNone(own, d, lo, lo);
      while a * PGSIZE < oldsz
        invariant lo <= a && Valid() && Unmapped(m0, own0, mem, own, d, lo, a)
        invariant a > RoundUp(oldsz) ==> UnmapRange(own0, d, lo, a) == UnmapRange(own0, d, lo, RoundUp(oldsz))
        invariant forall v: nat | RoundUp(oldsz) <= v < a && v < ALLPAGES :: !Present(Pte(m0, d, v))
        decreases oldsz - a * PGSIZE
      {
        ghost var m1, own1 := mem, own;
        var t := Walkpgdir(d, a, false);
        if t == 0 {
          SkipTable(mem, own, d, a);
          var next := (a / NENTRIES + 1) * NENTRIES;
          UnmapTwice(own0, d, lo, a, next);
          SkipPast(own0, own, d, lo, a, next, RoundUp(oldsz));
          a := next - 1;
        } else {
          UnmapTwice(own0, d, lo, a, a + 1);
          UnmapSub(own, d, a, a + 1);
          UnmapSub(own0, d, lo, a + 1);
          UnmapPage(d, a, t);
        }
        a := a + 1;
      }
      return newsz;
    }

    /** The end of an allocuvm that fails: unmap the pages mapped so far and free
        the frame f that could not be mapped, if there is one. */
    method Undo(d: nat, oldsz: nat, newsz: nat, f: nat, ghost m0: Memory, ghost own0: Owner, ghost a: nat)
      requires Valid() && IsDir(own, d) && RoundUp(oldsz) <= a <= RoundUp(newsz) && newsz < KERNBASE
      requires Grown(m0, own0, mem, own, d, RoundUp(oldsz), a, f) && f !in own0 && (f != 0 ==> f in own && own[f] == Lent)
      modifies this`mem, this`free, this`own
      ensures Valid() && forall v: nat | RoundUp(oldsz) <= v < RoundUp(newsz) :: !Present(Pte(mem, d, v))
      ensures Restored(m0, own0, mem, own, d, 0) <==> forall v: nat | RoundUp(oldsz) <= v < RoundUp(newsz) :: !Present(Pte(m0, d, v))
    {
      hide Pte, Present, FrameOf, TablesOk, UsersOk, PoolOk, UnmapRange, Grown, Restored, Unmapped, JunkPage;
      ghost var m1, own1, lo, hi := mem, own, RoundUp(oldsz), RoundUp(newsz);
      ghost var clear := forall v: nat | RoundUp(oldsz) <= v < RoundUp(newsz) :: !Present(Pte(m0, d, v));
      NotZero(pool, free, own, first);
      var back := Deallocuvm(d, newsz, oldsz);
      if clear { GrownUndo(m0, own0, m1, own1, mem, own, d, lo, a, hi, f); }
      ghost var m2, own2 := mem, own;
      if f != 0 {
        StillLent(m1, own1, mem, own, d, lo, hi, f);
        var freed := FreeFrame(f);
        NotZero(pool, free, own, first);
        JunkKeeps(m2, mem, own2, f);
        if clear { RestoredFree(m0, own0, m2, own2, mem, own, d, f); }
      }
      RangeGone(m1, own1, m2, own2, mem, d, lo, hi);
      if !clear { NotRestored(m0, own0, mem, own, d, lo, hi); }
    }

    /** Grow a process from oldsz to newsz bytes.  If nothing is mapped there it
        succeeds exactly if there are enough free frames; otherwise the pages
        mapped so far are unmapped and freed again. */
    method Allocuvm(d: nat, oldsz: nat, newsz: nat) returns (r: Outcome<nat>)
      requires Valid() && IsDir(own, d)
      modifies this`mem, this`free, this`own
      ensures Valid()
      ensures newsz >= KERNBASE || newsz < oldsz ==>
        r == Done(if newsz >= KERNBASE then 0 else oldsz) && mem == old(mem) && own == old(own)
      ensures oldsz <= newsz < KERNBASE && (forall v: nat | RoundUp(oldsz) <= v < RoundUp(newsz) :: !Present(Pte(old(mem), d, v))) ==>
        if |old(free)| >= FramesFor(old(mem), d, RoundUp(oldsz), RoundUp(newsz))
        then r == Done(newsz) && Grown(old(mem), old(own), mem, own, d, RoundUp(oldsz), RoundUp(newsz), 0)
        else r == Done(0) && Restored(old(mem), old(own), mem, own, d, 0)
      ensures 0 < newsz && oldsz <= newsz < KERNBASE && r == Done(0) ==>
        && |old(free)| < FramesFor(old(mem), d, RoundUp(oldsz), RoundUp(newsz))
        && (forall v: nat | RoundUp(oldsz) <= v < RoundUp(newsz) :: !Present(Pte(mem, d, v)))
        && (Restored(old(mem), old(own), mem, own, d, 0) <==>
            forall v: nat | RoundUp(oldsz) <= v < RoundUp(newsz) :: !Present(Pte(old(mem), d, v)))
      ensures oldsz <= newsz < KERNBASE && RoundUp(oldsz) < RoundUp(newsz) && old(free) == [] ==> r == Done(0)
      ensures r.Done? && oldsz <= newsz < KERNBASE && |old(free)| >= FramesFor(old(mem), d, RoundUp(oldsz), RoundUp(newsz)) ==>
        forall v: nat | RoundUp(oldsz) <= v < RoundUp(newsz) :: !Present(Pte(old(mem), d, v))
    {
      hide Pte, Present, FrameOf, Entry, OnlyPte, TablesAdded, TablesOk, UsersOk, PoolOk, UnmapRange, Grown, Restored, Unmapped, JunkPage;
      hide HasTable, MissingTables, TablesGrow, OthersKept;
      if newsz >= KERNBASE { return Done(0); }
      if newsz < oldsz { return Done(oldsz); }
      ghost var m0, own0, lo := mem, own, RoundUp(oldsz);
      NotZero(pool, free, own, first);
      GrownNone(mem, own, d, lo);
      NoneMissing(mem, d, lo);
      var a := RoundUp(oldsz);
      while a * PGSIZE < newsz
        invariant lo <= a <= RoundUp(newsz) && Valid() && IsDir(own, d) && Grown(m0, own0, mem, own, d, lo, a, 0)
        invariant forall v: nat | lo <= v < a :: !Present(Pte(m0, d, v))
        invariant TablesGrow(m0, mem, d, MissingTables(m0, d, lo, a)) && |free| + FramesFor(m0, d, lo, a) == |old(free)|
        decreases newsz - a * PGSIZE
      {
        ghost var own1, m1 := own, mem;
        NotZero(pool, free, own, first);
        MissingGrows(m0, d, lo, a, RoundUp(newsz));
        MissingGrows(m0, d, lo, a + 1, RoundUp(newsz));
        TableCount(m0, mem, d, lo, a);
        var f := Kalloc();
        if f == 0 {
          Undo(d, oldsz, newsz, 0, m0, own0, a);
          return Done(0);
        }
        assert own - {f} == own1;
        GrownFresh(m0, own0, mem, own1, d, lo, a, f);
        NoTable(mem, own, d, a);
        GrownHold(m0, own0, mem, own, d, lo, a, f);
        NotZero(pool, free, own, first);
        mem := mem[f := ZeroPage()];
        SameTables(m0, m1, mem, d, MissingTables(m0, d, lo, a));
        TableCount(m0, mem, d, lo, a);
        m1, own1 := mem, own;
        var ok := MapPage(d, a, f, PTE_W + PTE_U);
        if ok.Panic? { return Panic; }
        if !ok.value {
          Undo(d, oldsz, newsz, f, m0, own0, a);
          return Done(0);
        }
        NotZero(pool, free, own, first);
        GrownNext(m0, own0, m1, own1, mem, own, d, lo, a, f);
        TableStep(m0, m1, mem, d, lo, a);
        a := a + 1;
      }
      return Done(newsz);
    }

    /** Free the page tables and every user page of a directory, and the directory itself. */
    method Freevm(d: nat) returns (r: Outcome<()>)
      requires Valid() && (d == 0 || IsDir(own, d))
      modifies this`mem, this`free, this`own
      ensures Valid() && (r.Panic? <==> d == 0)
      ensures d != 0 ==> own == WithoutDir(old(own), d) && OthersKept(old(mem), WithoutDir(old(own), d), mem, d)
      ensures d == 0 ==> mem == old(mem) && own == old(own) && free == old(free)
    {
      hide Pte, FrameOf, TablesOk, UsersOk, PoolOk, UnmapRange, Unmapped, RetiredFrom, WithoutDir, OthersKept;
      if d == 0 { return Panic; }
      NotZero(pool, free, own, first);
      ghost var m0, own0 := mem, own;
      var z := Deallocuvm(d, KERNBASE, 0);
      ghost var m1, own1 := mem, own;
      UserPartGone(m0, own0, mem, own, d);
      RetirePool(mem, own, pool, free, d);
      own := RetiredFrom(own, d, 0);
      for i := 0 to NENTRIES
        invariant Valid() && own == RetiredFrom(own1, d, i) && OthersKept(m0, WithoutDir(own0, d), mem, d)
        invariant d in own && own[d] == Lent && d < |mem| && |mem| == |m1| && d < |m1| && mem[d] == m1[d]
      {
        RetireStep(m1, own1, d, i);
        RetireKeeps(m1, own0, own1, d, i);
        FramesIn(mem, own);
        if Present(mem[d][i]) {
          var t := FrameOf(mem[d][i]);
          ghost var m2, own2 := mem, own;
          var freed := FreeFrame(t);
          JunkOthers(m0, WithoutDir(own0, d), m2, own2, mem, d, t);
        }
      }
      RetireEnd(m0, own0, m1, own1, d);
      RetireKeeps(m1, own0, own1, d, NENTRIES);
      ghost var m2, own2 := mem, own;
      var freed := FreeFrame(d);
      JunkOthers(m0, WithoutDir(own0, d), m2, own2, mem, d, d);
      return Done(());
    }

    /** Map n kernel pages from va on to the frames from pa on.  It fails only
        if there are fewer free frames than missing page tables. */
    method Mappages(d: nat, va: nat, n: nat, pa: nat, perm: nat) returns (r: Outcome<bool>)
      requires Valid() && IsDir(own, d) && USERPAGES <= va && 0 < n && va + n <= ALLPAGES && perm < PGSIZE
      modifies this`mem, this`free, this`own
      ensures Valid() && IsDir(own, d)
      ensures (forall v: nat | va <= v < va + n :: !Present(Pte(old(mem), d, v))) ==> r.Done?
      ensures r == Done(true) ==> Ranged(old(mem), old(own), mem, own, d, va, n, pa, perm)
      ensures r == Done(true) ==>
        var more := MissingTables(old(mem), d, va, va + n); |free| + |more| == |old(free)| && TablesGrow(old(mem), mem, d, more)
      ensures r == Done(false) ==> |old(free)| < |MissingTables(old(mem), d, va, va + n)|
      ensures r == Done(false) ==> exists k | 0 <= k < n :: Ranged(old(mem), old(own), mem, own, d, va, k, pa, perm)
    {
      hide Pte, Entry, Present, FrameOf, TablesOk, UsersOk, PoolOk, Ranged, TablesAdded, HasTable, MissingTables, TablesGrow;
      ghost var m0, own0 := mem, own;
      NoneMissing(mem, d, va);
      RangedNone(mem, own, d, va, pa, perm);
      var k := 0;
      while true
        invariant Valid() && IsDir(own, d) && 0 <= k < n && Ranged(m0, own0, mem, own, d, va, k, pa, perm)
        invariant TablesGrow(m0, mem, d, MissingTables(m0, d, va, va + k)) && |free| + |MissingTables(m0, d, va, va + k)| == |old(free)|
        decreases n - k
      {
        ghost var m1, own1 := mem, own;
        RangedAhead(m0, own0, mem, own, d, va, k, pa, perm);
        TableCount(m0, mem, d, va, va + k);
        MissingGrows(m0, d, va, va + k + 1, va + n);
        var ok := MapPage(d, va + k, pa + k, perm);
        if ok.Panic? { return Panic; }
        if !ok.value { return Done(false); }
        RangedNext(m0, own0, m1, own1, mem, own, d, va, k, pa, perm);
        TableStep(m0, m1, mem, d, va, va + k);
        k := k + 1;
        if k == n { break; }
      }
      return Done(true);
    }

    /** A new address space with the kernel part only; 0, and nothing kept, if
        and only if there are fewer than 65 free frames. */
    method Setupkvm(data: nat) returns (d: nat)
      requires Valid() && USERPAGES + EXTMEM < data < USERPAGES + PHYSTOP
      modifies this`mem, this`free, this`own
      ensures Valid()
      ensures d == 0 <==> |old(free)| < 65
      ensures d == 0 ==> own == old(own) && OthersKept(old(mem), old(own), mem, 0)
      ensures d != 0 ==> |free| == |old(free)| - 65 && forall i: nat :: HasTable(mem, d, i) <==> KernelTable(i)
      ensures d != 0 ==> Space(old(mem), old(own), mem, own, d, 0) && forall v: nat | v < ALLPAGES :: Pte(mem, d, v) == KernelPte(data, 4, v)
    {
      hide Pte, Entry, Present, FrameOf, TablesOk, UsersOk, PoolOk, Ranged, TablesAdded, WithoutDir, OthersKept, Space, KernelPte;
      hide HasTable, MissingTables, MappedTables, KernelTable;
      ghost var m0, own0 := mem, own;
      d := Kalloc();
      SameOthers(mem, own, own0);
      if d == 0 { return; }
      FramesIn(mem, own);
      NewSpace(mem, own0, d);
      NewPool(pool, free, own, d);
      mem := mem[d := ZeroPage()];
      own := own[d := Dir];
      KernelNone(data, mem, d);
      NoneMapped(data, mem, d);
      MappedAll(data);
      for k := 0 to 4
        invariant |free| + 1 + |MappedTables(data, k)| == |old(free)| && forall i: nat :: HasTable(mem, d, i) <==> i in MappedTables(data, k)
        invariant Valid() && IsDir(own, d) && Space(m0, own0, mem, own, d, 0)
        invariant forall v: nat | v < ALLPAGES :: Pte(mem, d, v) == KernelPte(data, k, v)
      {
        ghost var m1, own1 := mem, own;
        var e := KernelMap(data)[k];
        KernelAhead(data, k);
        MappedNext(data, mem, d, k);
        MappedGrows(data, k + 1);
        var ok := Mappages(d, e.virt, e.physEnd - e.physStart, e.physStart, e.perm);
        if !ok.value {
          ghost var j :| 0 <= j < e.physEnd - e.physStart && Ranged(m1, own1, mem, own, d, e.virt, j, e.physStart, e.perm);
          SpaceRanged(m0, own0, m1, own1, mem, own, d, e.virt, j, e.physStart, e.perm);
          ghost var m2, own2 := mem, own;
          NotZero(pool, free, own, first);
          var freed := Freevm(d);
          SpaceGone(m0, own0, m2, own2, mem, d);
          return 0;
        }
        SpaceRanged(m0, own0, m1, own1, mem, own, d, e.virt, e.physEnd - e.physStart, e.physStart, e.perm);
        KernelNext(m1, own1, mem, own, d, data, k);
      }
    }

    /** Copy page i of d into a frame of its own, mapped in c with the same flags. */
    method CopyPage(d: nat, c: nat, i: nat, data: nat, ghost m0: Memory, ghost own0: Owner) returns (r: Outcome<bool>)
      requires Valid() && 0 !in own && Copied(m0, own0, mem, own, d, c, i, data, 0) && Inv(m0, own0) && IsDir(own0, d) && d != 0 && i < USERPAGES
      modifies this`mem, this`free, this`own
      ensures Valid() && (r.Panic? ==> !Present(Pte(m0, d, i)))
      ensures r == Done(true) ==> Copied(m0, own0, mem, own, d, c, i + 1, data, 0)
      ensures r == Done(true) ==>
        && |free| == |old(free)| - (if HasTable(old(mem), c, i / NENTRIES) then 1 else 2)
        && TablesGrow(old(mem), mem, c, {i / NENTRIES})
      ensures r == Done(false) ==> |old(free)| < if HasTable(old(mem), c, i / NENTRIES) then 1 else 2
      ensures r == Done(false) ==> Space(m0, own0, mem, own, c, 0)
    {
      hide Pte, Entry, Present, FrameOf, FlagsOf, TablesOk, UsersOk, PoolOk, TablesAdded, OthersKept, Space, KernelPte, Copied, OnlyPte;
      hide HasTable, TablesGrow;
      CopiedHas(m0, own0, mem, own, d, c, i, data, 0);
      NoTable(mem, own, d, i);
      var t := Walkpgdir(d, i, false);
      if t == 0 { return Panic; }
      PteOf(mem, d, i, t);
      var pte := mem[t][i % NENTRIES];
      if !Present(pte) { return Panic; }
      ghost var own1 := own;
      var f := Kalloc();
      if f == 0 { return Done(false); }
      NoTable(mem, own, c, i);
      assert f in own;
      CopyHold(m0, own0, mem, own1, d, c, i, data, f, mem[FrameOf(pte)]);
      NoneMissing(mem, c, 0);
      ghost var m1 := mem;
      mem := mem[f := mem[FrameOf(pte)]];
      SameTables(m1, m1, mem, c, {});
      GrowTwice(m1, m1, mem, c, {});
      m1, own1 := mem, own;
      FlagsSmall(pte);
      var ok := MapPage(c, i, f, FlagsOf(pte));
      if !ok.value {
        var kept := FreeFrame(f);
        CopyDrop(m0, own0, m1, own1, d, c, i, data, f);
      } else {
        CopyNext(m0, own0, m1, own1, mem, own, d, c, i, data, f, pte);
        GrowTwice(old(mem), m1, mem, c, {i / NENTRIES});
      }
      return ok;
    }

    /** A copy of the first sz bytes of an address space, in frames of its own.
        With all pages present the result is 0, and nothing is kept, if and only
        if there are fewer free frames than the copy takes; with an absent page
        it is 0 or a panic. */
    method Copyuvm(d: nat, sz: nat, data: nat) returns (r: Outcome<nat>)
      requires Valid() && IsDir(own, d) && sz <= KERNBASE && USERPAGES + EXTMEM < data < USERPAGES + PHYSTOP
      modifies this`mem, this`free, this`own
      ensures Valid()
      ensures (forall v: nat | v < RoundUp(sz) :: Present(Pte(old(mem), d, v))) ==> r.Done?
      ensures r == Done(0) ==> |old(free)| < SpaceFrames(RoundUp(sz)) && own == old(own) && OthersKept(old(mem), old(own), mem, 0)
      ensures |old(free)| < SpaceFrames(RoundUp(sz)) ==> r == Done(0) || r.Panic?
      ensures r.Done? && r.value != 0 ==>
        && Copied(old(mem), old(own), mem, own, d, r.value, RoundUp(sz), data, 0)
        && forall v: nat | v < RoundUp(sz) :: FrameOf(Pte(mem, r.value, v)) !in old(own)
      ensures r.Done? && r.value != 0 ==> forall v: nat | v < RoundUp(sz) :: Present(Pte(old(mem), d, v))
    {
      hide Pte, Entry, Present, FrameOf, TablesOk, UsersOk, PoolOk, WithoutDir, OthersKept, Space, KernelPte, Copied;
      hide HasTable, TablesGrow, KernelTable, UserTables, SpaceTables;
      ghost var m0, own0 := mem, own;
      NotZero(pool, free, own, first);
      var c := Setupkvm(data);
      SpaceFramesGrow(0, RoundUp(sz));
      if c == 0 { return Done(0); }
      NoUserTables(mem, c);
      CopiedNone(m0, own0, mem, own, d, c, data);
      var i := 0;
      while i * PGSIZE < sz
        invariant 0 <= i <= RoundUp(sz) && Valid() && Copied(m0, own0, mem, own, d, c, i, data, 0)
        invariant SpaceTables(mem, c, i) && |free| + SpaceFrames(i) == |old(free)|
        decreases sz - i * PGSIZE
      {
        NotZero(pool, free, own, first);
        ghost var m1 := mem;
        SpaceFramesGrow(i + 1, RoundUp(sz));
        var ok := CopyPage(d, c, i, data, m0, own0);
        UserTableStep(m1, mem, c, i);
        if ok.Panic? { return Panic; }
        if !ok.value {
          NotZero(pool, free, own, first);
          SpaceDir(m0, own0, mem, own, c, 0);
          ghost var own1 := own;
          m1 := mem;
          var freed := Freevm(c);
          SpaceGone(m0, own0, m1, own1, mem, c);
          return Done(0);
        }
        i := i + 1;
      }
      CopyFresh(m0, own0, mem, own, d, c, i, data);
      CopyPresent(m0, own0, mem, own, d, c, i, data);
      return Done(c);
    }
  }

  /** A mapped page is lost: growing over it without free memory fails, as it
      should, and the page is not mapped any more. */
  method PageLost(vm: Vm, d: nat, oldsz: nat, newsz: nat, ghost v: nat) returns (r: Outcome<nat>)
    requires vm.Valid() && IsDir(vm.own, d) && vm.free == [] && oldsz <= newsz < KERNBASE
    requires RoundUp(oldsz) <= v < RoundUp(newsz) && Present(Pte(vm.mem, d, v))
    modifies vm
    ensures r == Done(0) && !Present(Pte(vm.mem, d, v)) && !Restored(old(vm.mem), old(vm.own), vm.mem, vm.own, d, 0)
  {
    hide Pte, Inv, PoolOk, Restored, Grown;
    r := vm.Allocuvm(d, oldsz, newsz);
  }
}
