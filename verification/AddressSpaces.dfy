/** What growing, shrinking, copying and freeing an address space do to page
    tables and frames, as values. */
module AddressSpaces {
  import opened PageTables

  const PTE_W := 2
  const PTE_U := 4

  /** A freed page is filled with ones. */
  function JunkPage(): Page { seq(NENTRIES, _ => 0x0101_0101) }

  /** The mappings of d after the user pages in [lo, hi) have been unmapped. */
  ghost predicate Unmapped(m0: Memory, own0: Owner, mem: Memory, own: Owner, d: nat, lo: nat, hi: nat) {
    && IsDir(own, d) && |mem| == |m0| && own == UnmapRange(own0, d, lo, hi)
    && (forall v: nat | v < ALLPAGES :: Pte(mem, d, v) == if lo <= v < hi && Present(Pte(m0, d, v)) then 0 else Pte(m0, d, v))
    && (forall e: nat, v: nat | e != d && IsDir(own0, e) && v < ALLPAGES :: Pte(mem, e, v) == Pte(m0, e, v))
    && (forall g | g in own && (own[g].Lent? || own[g].User?) && g < |mem| :: mem[g] == m0[g])
  }

  /** What a change to directory d leaves alone. */
  ghost predicate OthersKept(m0: Memory, own0: Owner, mem: Memory, d: nat) {
    && |mem| == |m0|
    && (forall e: nat, v: nat | e != d && IsDir(own0, e) && v < ALLPAGES :: Pte(mem, e, v) == Pte(m0, e, v))
    && (forall g | g in own0 && (own0[g].Lent? || own0[g].User?) && g < |mem| :: mem[g] == m0[g])
  }

  /** The pages [lo, hi) of d have been mapped, to zeroed frames of their own,
      and nothing else has changed except that d may have more page tables and
      that frame x, if not 0, has been allocated. */
  ghost predicate Grown(m0: Memory, own0: Owner, mem: Memory, own: Owner, d: nat, lo: nat, hi: nat, x: nat) {
    && OthersKept(m0, own0, mem, d) && TablesAdded(own0, UnmapRange(own - {x}, d, lo, hi), d)
    && (forall v: nat | v < ALLPAGES && !(lo <= v < hi) :: Pte(mem, d, v) == Pte(m0, d, v))
    && (forall v: nat | lo <= v < hi :: Present(Pte(mem, d, v)) && FlagsOf(Pte(mem, d, v)) == PTE_W + PTE_U + 1)
    && (forall f | f in own && own[f].User? && own[f].dir == d && lo <= own[f].v < hi && f < |mem| :: mem[f] == ZeroPage())
  }

  /** d maps what it mapped before, and only page tables for d, and frame x, have been allocated. */
  ghost predicate Restored(m0: Memory, own0: Owner, mem: Memory, own: Owner, d: nat, x: nat) {
    && OthersKept(m0, own0, mem, d) && TablesAdded(own0, own - {x}, d)
    && (forall v: nat | v < ALLPAGES ::
          (Present(Pte(mem, d, v)) <==> Present(Pte(m0, d, v))) && (Present(Pte(m0, d, v)) ==> Pte(mem, d, v) == Pte(m0, d, v)))
  }

  lemma GrownNone(mem: Memory, own: Owner, d: nat, lo: nat)
    requires 0 !in own
    ensures Grown(mem, own, mem, own, d, lo, lo, 0)
  {
    hide Pte;
    assert own - {0} == own;
    UnmapNone(own, d, lo, lo);
    assert OthersKept(mem, own, mem, d);
  }

  /** Holding a fresh zeroed frame changes no mapping. */
  lemma GrownHold(m0: Memory, own0: Owner, mem: Memory, own: Owner, d: nat, lo: nat, a: nat, f: nat)
    requires Grown(m0, own0, mem, own - {f}, d, lo, a, 0) && Inv(mem, own) && IsDir(own, d) && a < ALLPAGES
    requires f in own && own[f] == Lent && f !in own0 && 0 !in own && f < |mem|
    ensures Inv(mem[f := ZeroPage()], own) && Grown(m0, own0, mem[f := ZeroPage()], own, d, lo, a, f)
    ensures Pte(mem[f := ZeroPage()], d, a) == Pte(m0, d, a)
  {
    hide Pte, UsersOk;
    var mem' := mem[f := ZeroPage()];
    OtherWrite(mem, mem', own);
    assert own - {f} - {0} == own - {f};
    assert forall e: nat | IsDir(own0, e) :: IsDir(UnmapRange(own - {f}, d, lo, a), e) && IsDir(own, e);
    assert OthersKept(m0, own0, mem', d);
  }

  /** Frame 0 is never allocated, so it can stand for "none". */
  lemma NotZero(pool: set<nat>, free: seq<nat>, own: Owner, first: nat)
    requires PoolOk(pool, free, own) && 0 < first && forall f | f in pool :: first <= f
    ensures 0 !in own
  {
  }

  /** A frame that is free now was not in use at the start either. */
  lemma GrownFresh(m0: Memory, own0: Owner, mem: Memory, own: Owner, d: nat, lo: nat, a: nat, f: nat)
    requires Grown(m0, own0, mem, own, d, lo, a, 0) && f !in own
    ensures f !in own0
  {
    hide Pte;
  }

  /** One more page mapped: the owners. */
  lemma GrownOwners(own0: Owner, own1: Owner, own2: Owner, d: nat, lo: nat, a: nat, f: nat)
    requires TablesAdded(own0, UnmapRange(own1 - {f}, d, lo, a), d) && lo <= a
    requires f in own1 && own1[f] == Lent && f in own2 && own2[f] == User(d, a) && TablesAdded(own1, own2[f := Lent], d) && 0 !in own2
    requires forall g | g in own1 :: own1[g] != User(d, a)
    ensures TablesAdded(own0, UnmapRange(own2 - {0}, d, lo, a + 1), d)
  {
    var u1, u2 := UnmapRange(own1 - {f}, d, lo, a), UnmapRange(own2 - {0}, d, lo, a + 1);
    forall g | g in own0
      ensures g in u2 && u2[g] == own0[g]
    {
      assert g in u1;
    }
    forall g | g in u2 && g !in own0
      ensures u2[g].Table? && u2[g].dir == d
    {
      assert g != f && g in own2[f := Lent];
      if g in own1 {
        assert g in u1;
      }
    }
  }

  lemma NoUserAt(mem: Memory, own: Owner, d: nat, v: nat)
    requires UsersOk(mem, own) && !Present(Pte(mem, d, v))
    ensures forall g | g in own :: own[g] != User(d, v)
  {
    hide Pte;
  }

  lemma GrownNext(m0: Memory, own0: Owner, m1: Memory, own1: Owner, m2: Memory, own2: Owner, d: nat, lo: nat, a: nat, f: nat)
    requires Grown(m0, own0, m1, own1, d, lo, a, f) && UsersOk(m1, own1) && IsDir(own1, d) && lo <= a < USERPAGES
    requires f in own1 && own1[f] == Lent && f < |m1| && m1[f] == ZeroPage() && f !in own0 && !Present(Pte(m1, d, a)) && 0 !in own2
    requires |m2| == |m1| && OnlyPte(m1, m2, own1, d, a, Entry(f, PTE_W + PTE_U))
    requires f in own2 && own2[f] == User(d, a) && TablesAdded(own1, own2[f := Lent], d)
    requires forall g | g in own1 && (own1[g].Lent? || own1[g].User?) && g < |m2| :: m2[g] == m1[g]
    ensures Grown(m0, own0, m2, own2, d, lo, a + 1, 0)
  {
    hide Pte, UsersOk;
    NoUserAt(m1, own1, d, a);
    GrownOwners(own0, own1, own2, d, lo, a, f);
    assert forall g | g in own0 :: g in UnmapRange(own1 - {f}, d, lo, a);
    forall g | g in own2 && own2[g].User? && own2[g].dir == d && lo <= own2[g].v < a + 1 && g < |m2|
      ensures m2[g] == ZeroPage()
    {
      if g != f {
        assert g in own2[f := Lent] && g in own1;
      }
    }
  }

  lemma GrownUndo(m0: Memory, own0: Owner, m1: Memory, own1: Owner, m2: Memory, own2: Owner, d: nat, lo: nat, a: nat, hi: nat, x: nat)
    requires Grown(m0, own0, m1, own1, d, lo, a, x) && UsersOk(m1, own1) && IsDir(own1, d) && lo <= a <= hi <= ALLPAGES
    requires Unmapped(m1, own1, m2, own2, d, lo, hi) && (x in own1 ==> own1[x] == Lent) && x !in own0
    requires forall v: nat | lo <= v < hi :: !Present(Pte(m0, d, v))
    ensures Restored(m0, own0, m2, own2, d, x)
  {
    hide Pte;
    var u1 := UnmapRange(own1 - {x}, d, lo, a);
    forall g | g in own1 && own1[g].User? && own1[g].dir == d
      ensures !(a <= own1[g].v < hi)
    {
      assert Present(Pte(m1, d, own1[g].v));
    }
    assert own2 - {x} == u1;
    forall g | g in own0
      ensures g in u1
    {
    }
  }

  /** Undoing the growth leaves none of the pages of the range. */
  lemma RangeGone(m1: Memory, own1: Owner, m2: Memory, own2: Owner, m3: Memory, d: nat, lo: nat, hi: nat)
    requires Unmapped(m1, own1, m2, own2, d, lo, hi) && hi <= ALLPAGES
    requires forall v: nat | v < ALLPAGES :: Pte(m3, d, v) == Pte(m2, d, v)
    ensures forall v: nat | lo <= v < hi :: !Present(Pte(m3, d, v))
  {
    hide Pte;
  }

  /** So pages of the range that were mapped before are lost. */
  lemma NotRestored(m0: Memory, own0: Owner, mem: Memory, own: Owner, d: nat, lo: nat, hi: nat)
    requires hi <= ALLPAGES && exists v: nat | lo <= v < hi :: Present(Pte(m0, d, v))
    requires forall v: nat | lo <= v < hi :: !Present(Pte(mem, d, v))
    ensures !Restored(m0, own0, mem, own, d, 0)
  {
    hide Pte;
    var v: nat :| lo <= v < hi && Present(Pte(m0, d, v));
    assert !Present(Pte(mem, d, v));
  }

  lemma StillLent(m1: Memory, own1: Owner, m2: Memory, own2: Owner, d: nat, lo: nat, hi: nat, f: nat)
    requires Unmapped(m1, own1, m2, own2, d, lo, hi) && f in own1 && own1[f] == Lent
    ensures f in own2 && own2[f] == Lent && IsDir(own2, d)
  {
    hide Pte;
  }

  lemma RestoredFree(m0: Memory, own0: Owner, m2: Memory, own2: Owner, m3: Memory, own3: Owner, d: nat, f: nat)
    requires Restored(m0, own0, m2, own2, d, f) && Inv(m2, own2) && IsDir(own2, d) && f in own2 && own2[f] == Lent && f !in own0
    requires own3 == own2 - {f} && m3 == m2[f := JunkPage()] && 0 !in own3
    ensures Restored(m0, own0, m3, own3, d, 0)
  {
    OtherWrite(m2, m3, own2);
    hide Pte, Inv;
    assert own3 - {0} == own3;
    assert forall e: nat | IsDir(own0, e) :: e in own2 - {f};
  }

  lemma UnmapSub(own: Owner, d: nat, lo: nat, hi: nat)
    ensures forall g | g in UnmapRange(own, d, lo, hi) :: g in own && UnmapRange(own, d, lo, hi)[g] == own[g]
    ensures forall e: nat | IsDir(own, e) :: IsDir(UnmapRange(own, d, lo, hi), e)
  {
  }

  lemma UnmapNone(own: Owner, d: nat, lo: nat, hi: nat)
    ensures lo >= hi ==> UnmapRange(own, d, lo, hi) == own
  {
  }

  /** A jump over a missing page table passes no mapped page, also beyond the end of the range. */
  lemma SkipPast(own0: Owner, own: Owner, d: nat, lo: nat, a: nat, next: nat, hi: nat)
    requires own == UnmapRange(own0, d, lo, a) && UnmapRange(own, d, a, next) == own && lo <= a < hi && a < next
    requires UnmapRange(own0, d, lo, next) == UnmapRange(UnmapRange(own0, d, lo, a), d, a, next)
    ensures next > hi ==> UnmapRange(own0, d, lo, next) == UnmapRange(own0, d, lo, hi)
  {
    if next > hi {
      UnmapTwice(own0, d, lo, a, hi);
      assert UnmapRange(own, d, a, hi) == own by {
        forall f | f in own
          ensures !(own[f].User? && own[f].dir == d && a <= own[f].v < hi)
        {
          assert f in UnmapRange(own, d, a, next);
        }
      }
    }
  }

  /** A user page whose entry has been cleared is an ordinary allocated frame. */
  lemma ToLent(mem: Memory, own: Owner, pool: set<nat>, free: seq<nat>, f: nat)
    requires TablesOk(mem, own) && f in own && own[f].User? && UsersOk(mem, own - {f}) && PoolOk(pool, free, own)
    ensures Inv(mem, own[f := Lent]) && PoolOk(pool, free, own[f := Lent])
  {
    hide Pte;
    assert TablesOk(mem, own - {f});
    ChangeLent(mem, own - {f}, own[f := Lent]);
  }

  lemma JunkKeeps(mem: Memory, mem': Memory, own: Owner, f: nat)
    requires Inv(mem, own) && f in own && own[f] == Lent && mem' == mem[f := JunkPage()]
    ensures forall d: nat, v: nat | IsDir(own, d) && v < ALLPAGES :: Pte(mem', d, v) == Pte(mem, d, v)
  {
    OtherWrite(mem, mem', own);
  }

  lemma RenamePool(pool: set<nat>, free: seq<nat>, own: Owner, f: nat, u: Use)
    requires PoolOk(pool, free, own) && f in own
    ensures PoolOk(pool, free, own[f := u])
  {
  }

  /** own' is own with page tables for d added. */
  ghost predicate TablesAdded(own: Owner, own': Owner, d: nat) {
    && (forall g | g in own :: g in own' && own'[g] == own[g])
    && (forall g | g in own' && g !in own :: own'[g].Table? && own'[g].dir == d)
  }

  lemma NoTable(mem: Memory, own: Owner, d: nat, v: nat)
    requires TablesOk(mem, own) && IsDir(own, d) && v < ALLPAGES
    ensures d < |mem| && (!Present(mem[d][v / NENTRIES]) ==> !Present(Pte(mem, d, v)))
    ensures forall g | g in own :: g < |mem|
  {
  }

  lemma PteOf(mem: Memory, d: nat, v: nat, t: nat)
    requires d < |mem| && v < ALLPAGES && Present(mem[d][v / NENTRIES]) && FrameOf(mem[d][v / NENTRIES]) == t < |mem|
    ensures Pte(mem, d, v) == mem[t][v % NENTRIES]
  {
  }

  /** A lent frame that becomes a user page was no table. */
  lemma RenameLent(mem: Memory, own: Owner, f: nat, u: Use)
    requires TablesOk(mem, own) && f in own && own[f] == Lent && u.User?
    ensures TablesOk(mem, own[f := u])
  {
    hide Present, FrameOf;
  }

  lemma TableIn(mem: Memory, own: Owner, pool: set<nat>, free: seq<nat>, d: nat, v: nat)
    requires TablesOk(mem, own) && PoolOk(pool, free, own) && IsDir(own, d) && v < ALLPAGES && Present(mem[d][v / NENTRIES])
    ensures FrameOf(mem[d][v / NENTRIES]) in own && FrameOf(mem[d][v / NENTRIES]) in pool && FrameOf(mem[d][v / NENTRIES]) < |mem|
  {
  }

  // ---------- Freeing an address space ----------

  /** The directory d being taken apart: its user pages are gone, its frame and
      its tables serve no mapping, and the tables below i have been freed. */
  ghost function RetiredFrom(own: Owner, d: nat, i: nat): Owner {
    map f | f in own && !(own[f].Table? && own[f].dir == d && own[f].i < i) ::
      if f == d || (own[f].Table? && own[f].dir == d) then Lent else own[f]
  }

  lemma UserPartGone(m0: Memory, own0: Owner, mem: Memory, own: Owner, d: nat)
    requires Unmapped(m0, own0, mem, own, d, 0, USERPAGES) && Inv(m0, own0) && IsDir(own0, d)
    ensures own == UnmapRange(own0, d, 0, USERPAGES) && d in own
    ensures forall f | f in own :: !(own[f].User? && own[f].dir == d)
    ensures OthersKept(m0, WithoutDir(own0, d), mem, d) && IsDir(own, d)
  {
    hide Pte;
    forall f | f in own
      ensures !(own[f].User? && own[f].dir == d)
    {
      assert own0[f] == own[f];
    }
    assert forall g | g in WithoutDir(own0, d) :: g in own && own[g] == own0[g];
  }

  lemma RetirePool(mem: Memory, own: Owner, pool: set<nat>, free: seq<nat>, d: nat)
    requires Inv(mem, own) && IsDir(own, d) && PoolOk(pool, free, own)
    requires forall f | f in own :: !(own[f].User? && own[f].dir == d)
    ensures Inv(mem, RetiredFrom(own, d, 0)) && PoolOk(pool, free, RetiredFrom(own, d, 0))
    ensures d in RetiredFrom(own, d, 0) && RetiredFrom(own, d, 0)[d] == Lent && d < |mem|
  {
    hide Pte;
    assert RetiredFrom(own, d, 0) == Retired(own, d);
    Retire(mem, own, d);
  }

  lemma RetireStep(mem: Memory, own: Owner, d: nat, i: nat)
    requires TablesOk(mem, own) && IsDir(own, d) && d < |mem| && i < NENTRIES
    ensures var r, t := RetiredFrom(own, d, i), FrameOf(mem[d][i]);
      if Present(mem[d][i]) then t in r && t != d && r[t] == Lent && RetiredFrom(own, d, i + 1) == r - {t}
      else RetiredFrom(own, d, i + 1) == r
    ensures d in RetiredFrom(own, d, i + 1) && RetiredFrom(own, d, i + 1)[d] == Lent
  {
    var r, r' := RetiredFrom(own, d, i), RetiredFrom(own, d, i + 1);
    forall f | f in own && own[f] == Table(d, i)
      ensures Present(mem[d][i]) && f == FrameOf(mem[d][i])
    {
    }
    if Present(mem[d][i]) {
      var t := FrameOf(mem[d][i]);
      assert own[t] == Table(d, i);
      forall f | f in own
        ensures f in r' <==> f in r && f != t
      {
      }
      assert r' == r - {t};
    } else {
      assert r' == r;
    }
  }

  /** Nothing that belongs to another directory is touched. */
  lemma RetireKeeps(mem: Memory, own0: Owner, own: Owner, d: nat, i: nat)
    requires TablesOk(mem, own) && own == UnmapRange(own0, d, 0, USERPAGES) && IsDir(own, d) && d < |mem|
    ensures forall g | g in WithoutDir(own0, d) :: g in RetiredFrom(own, d, i) && RetiredFrom(own, d, i)[g] == WithoutDir(own0, d)[g]
    ensures d !in WithoutDir(own0, d)
    ensures i < NENTRIES && Present(mem[d][i]) ==> FrameOf(mem[d][i]) !in WithoutDir(own0, d)
  {
  }

  lemma FramesIn(mem: Memory, own: Owner)
    requires TablesOk(mem, own)
    ensures forall g | g in own :: g < |mem|
  {
  }

  lemma RetireEnd(m0: Memory, own0: Owner, mem: Memory, own: Owner, d: nat)
    requires TablesOk(mem, own) && own == UnmapRange(own0, d, 0, USERPAGES) && UsersOk(m0, own0)
    ensures RetiredFrom(own, d, NENTRIES) - {d} == WithoutDir(own0, d)
  {
    hide Pte;
    var r, w := RetiredFrom(own, d, NENTRIES) - {d}, WithoutDir(own0, d);
    forall f | f in own0
      ensures f in r <==> f in w
      ensures f in r ==> r[f] == w[f]
    {
      if f in own && own[f].Table? {
        assert own[f].i < NENTRIES;
      }
    }
  }

  /** Filling a frame that serves no mapping with junk. */
  lemma JunkOthers(m0: Memory, own0: Owner, mem: Memory, own: Owner, mem': Memory, d: nat, f: nat)
    requires OthersKept(m0, own0, mem, d) && Inv(mem, own) && f in own && own[f] == Lent && f !in own0
    requires mem' == mem[f := JunkPage()] && forall g | g in own0 :: g in own && own[g] == own0[g]
    ensures OthersKept(m0, own0, mem', d)
  {
    JunkKeeps(mem, mem', own, f);
    hide Pte, UsersOk;
  }

  // ---------- The kernel part of an address space ----------

  /** k kernel pages from va on have been mapped to the frames from pa on. */
  ghost predicate Ranged(m0: Memory, own0: Owner, mem: Memory, own: Owner, d: nat, va: nat, k: nat, pa: nat, perm: nat)
    requires perm < PGSIZE
  {
    && OthersKept(m0, own0, mem, d) && TablesAdded(own0, own, d)
    && forall v: nat | v < ALLPAGES :: Pte(mem, d, v) == if va <= v < va + k then Entry(pa + (v - va), perm) else Pte(m0, d, v)
  }

  lemma RangedNone(mem: Memory, own: Owner, d: nat, va: nat, pa: nat, perm: nat)
    requires perm < PGSIZE
    ensures Ranged(mem, own, mem, own, d, va, 0, pa, perm)
  {
    hide Pte;
  }

  lemma RangedAhead(m0: Memory, own0: Owner, mem: Memory, own: Owner, d: nat, va: nat, k: nat, pa: nat, perm: nat)
    requires perm < PGSIZE && Ranged(m0, own0, mem, own, d, va, k, pa, perm) && va + k < ALLPAGES
    ensures Pte(mem, d, va + k) == Pte(m0, d, va + k)
  {
    hide Pte;
  }

  lemma RangedNext(m0: Memory, own0: Owner, m1: Memory, own1: Owner, m2: Memory, own2: Owner, d: nat, va: nat, k: nat, pa: nat, perm: nat)
    requires perm < PGSIZE && Ranged(m0, own0, m1, own1, d, va, k, pa, perm) && IsDir(own1, d) && |m2| == |m1|
    requires OnlyPte(m1, m2, own1, d, va + k, Entry(pa + k, perm)) && TablesAdded(own1, own2, d)
    requires forall g | g in own1 && (own1[g].Lent? || own1[g].User?) && g < |m2| :: m2[g] == m1[g]
    ensures Ranged(m0, own0, m2, own2, d, va, k + 1, pa, perm)
  {
    hide Pte, Entry, Present;
    assert forall e: nat | IsDir(own0, e) :: IsDir(own1, e);
  }

  const EXTMEM := 0x100000 / PGSIZE
  const PHYSTOP := 0xE00_0000 / PGSIZE
  const DEVSPACE := 0xFE00_0000 / PGSIZE

  /** One kernel mapping: pages from virt on, for the frames [physStart, physEnd). */
  datatype Kmap = Kmap(virt: nat, physStart: nat, physEnd: nat, perm: nat)

  /** The kernel's mappings; data is the first page of the kernel's writable data. */
  function KernelMap(data: nat): (m: seq<Kmap>)
    requires USERPAGES + EXTMEM < data < USERPAGES + PHYSTOP
    ensures |m| == 4 && forall k | 0 <= k < 4 ::
      && USERPAGES <= m[k].virt && m[k].physStart < m[k].physEnd
      && m[k].virt + (m[k].physEnd - m[k].physStart) <= ALLPAGES && m[k].perm < PGSIZE
  {
    [Kmap(USERPAGES, 0, EXTMEM, PTE_W),
     Kmap(USERPAGES + EXTMEM, EXTMEM, data - USERPAGES, 0),
     Kmap(data, data - USERPAGES, PHYSTOP, PTE_W),
     Kmap(DEVSPACE, DEVSPACE, ALLPAGES, PTE_W)]
  }

  /** The entry of page v once the first k mappings are in place: memory up to
      PHYSTOP is mapped at KERNBASE, the device area at itself, and only the
      kernel's text is not writable. */
  function KernelPte(data: nat, k: nat, v: nat): nat {
    if USERPAGES <= v < USERPAGES + EXTMEM && 0 < k then Entry(v - USERPAGES, PTE_W)
    else if USERPAGES + EXTMEM <= v < data && 1 < k then Entry(v - USERPAGES, 0)
    else if USERPAGES + EXTMEM <= v && data <= v < USERPAGES + PHYSTOP && 2 < k then Entry(v - USERPAGES, PTE_W)
    else if DEVSPACE <= v < ALLPAGES && 3 < k then Entry(v, PTE_W)
    else 0
  }

  /** The entries bit by bit (1 present, 2 writable, 4 for user programs): the
      kernel's text is read-only, the rest of the kernel part is writable, and
      none of it is open to user programs. */
  lemma KernelBits(data: nat, v: nat)
    requires 0x80100 < data < 0x8E000 && v < 0x10_0000
    ensures var e := KernelPte(data, 4, v);
      if 0x80000 <= v < 0x8E000 then e / 4096 == v - 0x80000 && e % 4096 == if 0x80100 <= v < data then 1 else 3
      else if 0xFE000 <= v then e / 4096 == v && e % 4096 == 3
      else e == 0
  {
  }

  lemma KernelNone(data: nat, mem: Memory, d: nat)
    requires forall v: nat | v < ALLPAGES :: Pte(mem, d, v) == 0
    ensures forall v: nat | v < ALLPAGES :: Pte(mem, d, v) == KernelPte(data, 0, v)
  {
    hide Pte;
  }

  /** The mappings do not overlap. */
  lemma KernelAhead(data: nat, k: nat)
    requires USERPAGES + EXTMEM < data < USERPAGES + PHYSTOP && k < 4
    ensures var e := KernelMap(data)[k];
      forall v: nat | e.virt <= v < e.virt + (e.physEnd - e.physStart) :: KernelPte(data, k, v) == 0 && !Present(KernelPte(data, k, v))
  {
  }

  lemma KernelNext(m0: Memory, own0: Owner, mem: Memory, own: Owner, d: nat, data: nat, k: nat)
    requires USERPAGES + EXTMEM < data < USERPAGES + PHYSTOP && k < 4
    requires var e := KernelMap(data)[k]; Ranged(m0, own0, mem, own, d, e.virt, e.physEnd - e.physStart, e.physStart, e.perm)
    requires forall v: nat | v < ALLPAGES :: Pte(m0, d, v) == KernelPte(data, k, v)
    ensures forall v: nat | v < ALLPAGES :: Pte(mem, d, v) == KernelPte(data, k + 1, v)
  {
    hide Pte, Entry;
  }

  /** A new directory d, with what belongs to it, has been made, and frame x
      allocated; nothing else has changed. */
  ghost predicate Space(m0: Memory, own0: Owner, mem: Memory, own: Owner, d: nat, x: nat) {
    && d !in own0 && IsDir(own, d) && OthersKept(m0, own0, mem, 0)
    && (forall g | g in own0 :: g in own && own[g] == own0[g])
    && (forall g | g in own && g !in own0 :: g == x || BelongsTo(own[g], g, d))
  }

  lemma SameOthers(mem: Memory, own: Owner, own0: Owner)
    ensures OthersKept(mem, own0, mem, 0)
  {
    hide Pte;
  }

  lemma NewPool(pool: set<nat>, free: seq<nat>, own: Owner, d: nat)
    requires PoolOk(pool, free, own) && d in own
    ensures PoolOk(pool, free, own[d := Dir])
  {
  }

  lemma NewSpace(mem: Memory, own0: Owner, d: nat)
    requires Inv(mem, own0[d := Lent]) && d !in own0 && d < |mem|
    ensures var mem', own' := mem[d := ZeroPage()], own0[d := Lent][d := Dir];
      Inv(mem', own') && Space(mem, own0, mem', own', d, 0) && forall v: nat | v < ALLPAGES :: Pte(mem', d, v) == 0
  {
    hide Pte, UsersOk;
    NewDir(mem, mem[d := ZeroPage()], own0[d := Lent], d);
  }

  lemma SpaceRanged(m0: Memory, own0: Owner, m1: Memory, own1: Owner, m2: Memory, own2: Owner, d: nat, va: nat, k: nat, pa: nat, perm: nat)
    requires Space(m0, own0, m1, own1, d, 0) && perm < PGSIZE && Ranged(m1, own1, m2, own2, d, va, k, pa, perm)
    ensures Space(m0, own0, m2, own2, d, 0)
  {
    hide Pte, Entry;
  }

  /** Freeing the new address space gives back all that was taken for it. */
  lemma SpaceGone(m0: Memory, own0: Owner, m1: Memory, own1: Owner, m2: Memory, d: nat)
    requires Space(m0, own0, m1, own1, d, 0) && Inv(m0, own0) && OthersKept(m1, WithoutDir(own1, d), m2, d) && 0 !in own1
    ensures WithoutDir(own1, d) == own0 && OthersKept(m0, own0, m2, 0)
  {
    hide Pte;
    var w := WithoutDir(own1, d);
    forall g | g in own0
      ensures g in w && w[g] == own0[g]
    {
    }
    assert w == own0;
  }

  // ---------- Copying an address space ----------

  /** Two entries with equal flags for frames with equal contents. */
  ghost predicate SamePage(m0: Memory, e0: nat, mem: Memory, e: nat) {
    && Present(e) && FlagsOf(e) == FlagsOf(e0)
    && FrameOf(e) < |mem| && FrameOf(e0) < |m0| && mem[FrameOf(e)] == m0[FrameOf(e0)]
  }

  /** c is a new address space whose first n pages are copies of those of d. */
  ghost predicate Copied(m0: Memory, own0: Owner, mem: Memory, own: Owner, d: nat, c: nat, n: nat, data: nat, x: nat) {
    && Space(m0, own0, mem, own, c, x)
    && (forall v: nat | v < n :: SamePage(m0, Pte(m0, d, v), mem, Pte(mem, c, v)))
    && (forall v: nat | n <= v < ALLPAGES :: Pte(mem, c, v) == KernelPte(data, 4, v))
  }

  lemma CopiedNone(m0: Memory, own0: Owner, mem: Memory, own: Owner, d: nat, c: nat, data: nat)
    requires Space(m0, own0, mem, own, c, 0) && forall v: nat | v < ALLPAGES :: Pte(mem, c, v) == KernelPte(data, 4, v)
    ensures Copied(m0, own0, mem, own, d, c, 0, data, 0)
  {
    hide Pte, KernelPte, Space;
  }

  /** The original is as it was. */
  lemma CopiedHas(m0: Memory, own0: Owner, mem: Memory, own: Owner, d: nat, c: nat, n: nat, data: nat, x: nat)
    requires Copied(m0, own0, mem, own, d, c, n, data, x) && Inv(m0, own0) && IsDir(own0, d) && d != 0 && n < USERPAGES
    ensures Space(m0, own0, mem, own, c, x) && IsDir(own, d) && IsDir(own, c) && c != d && |mem| == |m0|
    ensures Pte(mem, d, n) == Pte(m0, d, n) && !Present(Pte(mem, c, n))
    ensures Present(Pte(m0, d, n)) ==> FrameOf(Pte(m0, d, n)) < |mem| && mem[FrameOf(Pte(m0, d, n))] == m0[FrameOf(Pte(m0, d, n))]
  {
    hide Pte;
  }

  lemma SpaceDir(m0: Memory, own0: Owner, mem: Memory, own: Owner, c: nat, x: nat)
    requires Space(m0, own0, mem, own, c, x)
    ensures IsDir(own, c)
  {
    hide Pte;
  }

  lemma FlagsSmall(e: nat)
    ensures FlagsOf(e) < PGSIZE
  {
  }

  /** A space and a frame that is handed out. */
  lemma SpaceLent(m0: Memory, own0: Owner, mem: Memory, own: Owner, c: nat, f: nat, mem': Memory)
    requires Space(m0, own0, mem, own, c, 0) && 0 !in own && f !in own
    requires |mem'| == |mem| && forall g: nat | g < |mem| && g != f :: mem'[g] == mem[g]
    requires forall d: nat, v: nat | IsDir(own[f := Lent], d) && v < ALLPAGES :: Pte(mem', d, v) == Pte(mem, d, v)
    ensures Space(m0, own0, mem', own[f := Lent], c, f) && f !in own0
  {
    hide Pte;
  }

  lemma SpaceHold(m0: Memory, own0: Owner, mem: Memory, own: Owner, c: nat, f: nat, page: Page)
    requires Space(m0, own0, mem, own, c, 0) && 0 !in own && Inv(mem, own[f := Lent]) && f !in own && f < |mem|
    ensures Space(m0, own0, mem[f := page], own[f := Lent], c, f) && Inv(mem[f := page], own[f := Lent]) && f !in own0
    ensures IsDir(own, c) && forall v: nat | v < ALLPAGES :: Pte(mem[f := page], c, v) == Pte(mem, c, v)
  {
    hide Pte, UsersOk, Space;
    OtherWrite(mem, mem[f := page], own[f := Lent]);
    SpaceLent(m0, own0, mem, own, c, f, mem[f := page]);
    SpaceDir(m0, own0, mem, own, c, 0);
  }

  /** Filling a fresh frame disturbs neither address space. */
  lemma CopyHold(m0: Memory, own0: Owner, mem: Memory, own: Owner, d: nat, c: nat, n: nat, data: nat, f: nat, page: Page)
    requires Copied(m0, own0, mem, own, d, c, n, data, 0) && n < USERPAGES && 0 !in own
    requires Inv(mem, own) && Inv(mem, own[f := Lent]) && f !in own && f < |mem|
    ensures var mem' := mem[f := page];
      && Inv(mem', own[f := Lent]) && Copied(m0, own0, mem', own[f := Lent], d, c, n, data, f)
      && Pte(mem', c, n) == Pte(mem, c, n) && f !in own0
  {
    hide Pte, FrameOf, TablesOk, KernelPte, Present, FlagsOf, Space;
    var mem' := mem[f := page];
    SpaceHold(m0, own0, mem, own, c, f, page);
    forall v: nat | v < n
      ensures SamePage(m0, Pte(m0, d, v), mem', Pte(mem', c, v))
    {
      assert SamePage(m0, Pte(m0, d, v), mem, Pte(mem, c, v));
      assert own[FrameOf(Pte(mem, c, v))] == User(c, v);
    }
  }

  lemma CopyDrop(m0: Memory, own0: Owner, mem: Memory, own: Owner, d: nat, c: nat, n: nat, data: nat, f: nat)
    requires Copied(m0, own0, mem, own, d, c, n, data, f) && Inv(mem, own) && f in own && own[f] == Lent && f !in own0 && f < |mem|
    ensures Space(m0, own0, mem[f := JunkPage()], own - {f}, c, 0)
  {
    JunkKeeps(mem, mem[f := JunkPage()], own, f);
    hide Pte, UsersOk;
  }

  lemma SpaceNext(m0: Memory, own0: Owner, m1: Memory, own1: Owner, m2: Memory, own2: Owner, c: nat, n: nat, f: nat, e: nat)
    requires Space(m0, own0, m1, own1, c, f) && f !in own0 && |m2| == |m1|
    requires f in own1 && own1[f] == Lent && OnlyPte(m1, m2, own1, c, n, e)
    requires f in own2 && own2[f] == User(c, n) && TablesAdded(own1, own2[f := Lent], c)
    requires forall g | g in own1 && (own1[g].Lent? || own1[g].User?) && g < |m2| :: m2[g] == m1[g]
    ensures Space(m0, own0, m2, own2, c, 0)
  {
    hide Pte;
  }

  lemma CopyNext(m0: Memory, own0: Owner, m1: Memory, own1: Owner, m2: Memory, own2: Owner, d: nat, c: nat, n: nat, data: nat, f: nat, e: nat)
    requires Copied(m0, own0, m1, own1, d, c, n, data, f) && UsersOk(m1, own1) && IsDir(own1, c) && n < USERPAGES && f !in own0 && |m2| == |m1|
    requires f in own1 && own1[f] == Lent && FlagsOf(e) < PGSIZE && OnlyPte(m1, m2, own1, c, n, Entry(f, FlagsOf(e)))
    requires f in own2 && own2[f] == User(c, n) && TablesAdded(own1, own2[f := Lent], c)
    requires forall g | g in own1 && (own1[g].Lent? || own1[g].User?) && g < |m2| :: m2[g] == m1[g]
    requires Present(e) && e == Pte(m0, d, n) && f < |m1| && FrameOf(e) < |m0| && m1[f] == m0[FrameOf(e)]
    ensures Copied(m0, own0, m2, own2, d, c, n + 1, data, 0)
  {
    SpaceNext(m0, own0, m1, own1, m2, own2, c, n, f, Entry(f, FlagsOf(e)));
    FlagsKept(e);
    hide Pte, FrameOf, KernelPte, Space, FlagsOf, Present, TablesAdded;
    forall v: nat | v < n + 1
      ensures SamePage(m0, Pte(m0, d, v), m2, Pte(m2, c, v))
    {
      if v < n {
        assert SamePage(m0, Pte(m0, d, v), m1, Pte(m1, c, v));
        assert own1[FrameOf(Pte(m1, c, v))] == User(c, v);
      }
    }
  }

  lemma FlagsKept(e: nat)
    requires Present(e)
    ensures FlagsOf(e) - FlagsOf(e) % 2 + 1 == FlagsOf(e)
  {
    OddFlags(e);
    hide FlagsOf;
  }

  /** Only present pages are copied. */
  lemma CopyPresent(m0: Memory, own0: Owner, mem: Memory, own: Owner, d: nat, c: nat, n: nat, data: nat)
    requires Copied(m0, own0, mem, own, d, c, n, data, 0)
    ensures forall v: nat | v < n :: Present(Pte(m0, d, v))
  {
    hide Pte, Space, KernelPte;
    forall v: nat | v < n
      ensures Present(Pte(m0, d, v))
    {
      assert SamePage(m0, Pte(m0, d, v), mem, Pte(mem, c, v));
      PresentByFlags(Pte(m0, d, v), Pte(mem, c, v));
    }
  }

  lemma PresentByFlags(e0: nat, e: nat)
    requires Present(e) && FlagsOf(e) == FlagsOf(e0)
    ensures Present(e0)
  {
    OddFlags(e);
    OddFlags(e0);
    hide FlagsOf;
  }

  lemma OddFlags(e: nat)
    ensures FlagsOf(e) % 2 == e % 2
  {
    var q, r := e / PGSIZE, e % PGSIZE;
    assert e == 2 * (2048 * q) + r;
  }

  /** The copy shares no frame with anything that existed before. */
  lemma CopyFresh(m0: Memory, own0: Owner, mem: Memory, own: Owner, d: nat, c: nat, n: nat, data: nat)
    requires Copied(m0, own0, mem, own, d, c, n, data, 0) && Inv(mem, own) && Inv(m0, own0) && n <= USERPAGES
    ensures forall v: nat | v < n :: FrameOf(Pte(mem, c, v)) !in own0
  {
    hide Pte;
    forall v: nat | v < n
      ensures FrameOf(Pte(mem, c, v)) !in own0
    {
      assert SamePage(m0, Pte(m0, d, v), mem, Pte(mem, c, v));
      assert own[FrameOf(Pte(mem, c, v))] == User(c, v);
    }
  }
}
