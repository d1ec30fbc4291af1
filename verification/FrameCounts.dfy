/** How many frames growing, making and copying an address space take: one for
    each page, and one for each page table that is not there yet. */
module FrameCounts {
  import opened Common
  import opened PageTables
  import opened AddressSpaces

  /** Directory d has its i-th page table. */
  predicate HasTable(mem: Memory, d: nat, i: nat) {
    d < |mem| && i < NENTRIES && Present(mem[d][i])
  }

  /** The page tables that pages [lo, hi) of d lie in and that are missing. */
  ghost function MissingTables(mem: Memory, d: nat, lo: nat, hi: nat): set<nat> {
    set v: nat | lo <= v < hi && !HasTable(mem, d, v / NENTRIES) :: v / NENTRIES
  }

  /** The frames that mapping new pages at [lo, hi) of d takes. */
  ghost function FramesFor(mem: Memory, d: nat, lo: nat, hi: nat): nat
    requires lo <= hi
  {
    hi - lo + |MissingTables(mem, d, lo, hi)|
  }

  /** d has the page tables it had, and those in more. */
  ghost predicate TablesGrow(m0: Memory, mem: Memory, d: nat, more: set<nat>) {
    forall i: nat :: HasTable(mem, d, i) <==> HasTable(m0, d, i) || i in more
  }

  lemma NoneMissing(mem: Memory, d: nat, lo: nat)
    ensures MissingTables(mem, d, lo, lo) == {} && TablesGrow(mem, mem, d, {})
  {
  }

  /** Writes to other frames leave the page tables of d. */
  lemma SameTables(m0: Memory, m1: Memory, m2: Memory, d: nat, more: set<nat>)
    requires TablesGrow(m0, m1, d, more) && |m2| == |m1| && (d < |m1| ==> m2[d] == m1[d])
    ensures TablesGrow(m0, m2, d, more)
  {
  }

  lemma GrowTwice(m0: Memory, m1: Memory, m2: Memory, d: nat, more: set<nat>)
    requires TablesGrow(m0, m1, d, {}) && TablesGrow(m1, m2, d, more)
    ensures TablesGrow(m0, m2, d, more) && forall i: nat :: HasTable(m1, d, i) <==> HasTable(m0, d, i)
  {
    hide HasTable;
  }

  lemma HasAlready(mem: Memory, d: nat, i: nat)
    requires d < |mem| && i < NENTRIES && Present(mem[d][i])
    ensures HasTable(mem, d, i) && TablesGrow(mem, mem, d, {i})
  {
  }

  lemma LinkedTable(mem: Memory, mem': Memory, d: nat, i: nat, e: nat)
    requires d < |mem| == |mem'| && i < NENTRIES && Present(e) && mem'[d] == mem[d][i := e]
    ensures TablesGrow(mem, mem', d, {i})
  {
  }

  lemma MissingNext(mem: Memory, d: nat, lo: nat, a: nat)
    requires lo <= a
    ensures MissingTables(mem, d, lo, a + 1) == MissingTables(mem, d, lo, a) + if HasTable(mem, d, a / NENTRIES) then {} else {a / NENTRIES}
  {
    hide HasTable;
  }

  /** Mapping page a takes a table exactly when that is the first use of one that was missing. */
  lemma TableStep(m0: Memory, m1: Memory, m2: Memory, d: nat, lo: nat, a: nat)
    requires lo <= a < ALLPAGES && TablesGrow(m0, m1, d, MissingTables(m0, d, lo, a)) && TablesGrow(m1, m2, d, {a / NENTRIES})
    ensures TablesGrow(m0, m2, d, MissingTables(m0, d, lo, a + 1))
  {
    hide HasTable;
    MissingNext(m0, d, lo, a);
    hide MissingTables;
  }

  lemma TableCount(m0: Memory, m1: Memory, d: nat, lo: nat, a: nat)
    requires lo <= a && TablesGrow(m0, m1, d, MissingTables(m0, d, lo, a))
    ensures |MissingTables(m0, d, lo, a + 1)| == |MissingTables(m0, d, lo, a)| + if HasTable(m1, d, a / NENTRIES) then 0 else 1
  {
    hide HasTable;
    MissingNext(m0, d, lo, a);
    hide MissingTables;
  }

  lemma MissingGrows(mem: Memory, d: nat, lo: nat, a: nat, hi: nat)
    requires a <= hi
    ensures |MissingTables(mem, d, lo, a)| <= |MissingTables(mem, d, lo, hi)|
  {
    SubsetSize(MissingTables(mem, d, lo, a), MissingTables(mem, d, lo, hi));
  }

  /** At most every table of the range is missing. */
  lemma FewTables(mem: Memory, d: nat, lo: nat, hi: nat)
    requires lo < hi
    ensures |MissingTables(mem, d, lo, hi)| <= (hi - 1) / NENTRIES - lo / NENTRIES + 1
  {
    SubsetSize(MissingTables(mem, d, lo, hi), Range(lo / NENTRIES, (hi - 1) / NENTRIES + 1));
  }

  // ---------- A new address space ----------

  /** The page tables for memory up to PHYSTOP, mapped at KERNBASE, and for the device area. */
  predicate KernelTable(i: nat) { 512 <= i < 568 || 1016 <= i < 1024 }

  const KERNELTABLES := 56 + 8

  /** The page tables that the first k kernel mappings use. */
  ghost function MappedTables(data: nat, k: nat): set<nat> {
    set v: nat | v < ALLPAGES && KernelPte(data, k, v) != 0 :: v / NENTRIES
  }

  lemma NoneMapped(data: nat, mem: Memory, d: nat)
    requires d < |mem| && mem[d] == ZeroPage()
    ensures MappedTables(data, 0) == {} && forall i: nat :: !HasTable(mem, d, i)
  {
  }

  /** Page v is one of the k-th mapping. */
  predicate InMap(data: nat, k: nat, v: nat)
    requires USERPAGES + EXTMEM < data < USERPAGES + PHYSTOP && k < 4
  {
    var e := KernelMap(data)[k];
    e.virt <= v < e.virt + (e.physEnd - e.physStart)
  }

  lemma InMapNext(data: nat, k: nat, v: nat)
    requires USERPAGES + EXTMEM < data < USERPAGES + PHYSTOP && k < 4 && v < ALLPAGES
    ensures KernelPte(data, k + 1, v) != 0 <==> KernelPte(data, k, v) != 0 || InMap(data, k, v)
  {
  }

  /** The next mapping takes the tables it needs that are not there. */
  lemma MappedNext(data: nat, mem: Memory, d: nat, k: nat)
    requires USERPAGES + EXTMEM < data < USERPAGES + PHYSTOP && k < 4
    requires forall i: nat :: HasTable(mem, d, i) <==> i in MappedTables(data, k)
    ensures var e := KernelMap(data)[k];
      var more := MissingTables(mem, d, e.virt, e.virt + (e.physEnd - e.physStart));
      MappedTables(data, k + 1) == MappedTables(data, k) + more && |MappedTables(data, k + 1)| == |MappedTables(data, k)| + |more|
  {
    hide HasTable, KernelPte, KernelMap;
    var e := KernelMap(data)[k];
    var t, t', more := MappedTables(data, k), MappedTables(data, k + 1), MissingTables(mem, d, e.virt, e.virt + (e.physEnd - e.physStart));
    forall v: nat | v < ALLPAGES
      ensures KernelPte(data, k + 1, v) != 0 <==> KernelPte(data, k, v) != 0 || InMap(data, k, v)
    {
      InMapNext(data, k, v);
    }
    forall i | i in t'
      ensures i in t || i in more
    {
      var v: nat :| v < ALLPAGES && KernelPte(data, k + 1, v) != 0 && v / NENTRIES == i;
      if KernelPte(data, k, v) == 0 && !HasTable(mem, d, i) { assert InMap(data, k, v) && v / NENTRIES in more; }
    }
    forall i | i in more
      ensures i in t'
    {
      var v: nat :| e.virt <= v < e.virt + (e.physEnd - e.physStart) && !HasTable(mem, d, v / NENTRIES) && v / NENTRIES == i;
      assert v < ALLPAGES && InMap(data, k, v) && KernelPte(data, k + 1, v) != 0;
    }
    forall i | i in t
      ensures i in t'
    {
      var v: nat :| v < ALLPAGES && KernelPte(data, k, v) != 0 && v / NENTRIES == i;
      assert KernelPte(data, k + 1, v) != 0;
    }
    assert t' == t + more;
    assert t !! more;
  }

  /** Together they use 64 tables, wherever the kernel's data begins. */
  lemma MappedAll(data: nat)
    requires USERPAGES + EXTMEM < data < USERPAGES + PHYSTOP
    ensures |MappedTables(data, 4)| == KERNELTABLES && forall i: nat :: i in MappedTables(data, 4) <==> KernelTable(i)
  {
    hide Range, KernelPte;
    var t := MappedTables(data, 4);
    forall i: nat
      ensures i in t <==> KernelTable(i)
    {
      if KernelTable(i) {
        KernelAt(data, i * NENTRIES);
        assert i * NENTRIES / NENTRIES == i;
      }
      if i in t {
        var v: nat :| v < ALLPAGES && KernelPte(data, 4, v) != 0 && v / NENTRIES == i;
        KernelAt(data, v);
      }
    }
    assert t == Range(512, 568) + Range(1016, 1024);
  }

  lemma KernelAt(data: nat, v: nat)
    requires USERPAGES + EXTMEM < data < USERPAGES + PHYSTOP && v < ALLPAGES
    ensures KernelPte(data, 4, v) != 0 <==> KernelTable(v / NENTRIES)
  {
    KernelBits(data, v);
  }

  lemma MappedGrows(data: nat, k: nat)
    requires USERPAGES + EXTMEM < data < USERPAGES + PHYSTOP && k <= 4
    ensures |MappedTables(data, k)| <= KERNELTABLES
  {
    MappedAll(data);
    forall v: nat | v < ALLPAGES && KernelPte(data, k, v) != 0
      ensures KernelPte(data, 4, v) != 0
    {
    }
    hide KernelPte;
    SubsetSize(MappedTables(data, k), MappedTables(data, 4));
  }

  /** The page tables for the first n user pages. */
  function UserTables(n: nat): nat { (n + NENTRIES - 1) / NENTRIES }

  /** The frames of a new address space with n user pages: directory, tables, pages. */
  function SpaceFrames(n: nat): nat { 1 + KERNELTABLES + UserTables(n) + n }

  /** c has the kernel's page tables and those of its first n user pages. */
  ghost predicate SpaceTables(mem: Memory, c: nat, n: nat) {
    forall i: nat :: HasTable(mem, c, i) <==> KernelTable(i) || i < UserTables(n)
  }

  lemma NoUserTables(mem: Memory, c: nat)
    requires forall i: nat :: HasTable(mem, c, i) <==> KernelTable(i)
    ensures SpaceTables(mem, c, 0) && UserTables(0) == 0
  {
    hide HasTable;
  }

  /** One more user page needs a new table exactly if it is the first of its table. */
  lemma UserTableStep(m0: Memory, mem: Memory, c: nat, n: nat)
    requires SpaceTables(m0, c, n) && n < USERPAGES
    ensures UserTables(n + 1) == UserTables(n) + if HasTable(m0, c, n / NENTRIES) then 0 else 1
    ensures TablesGrow(m0, mem, c, {n / NENTRIES}) ==> SpaceTables(mem, c, n + 1)
  {
    hide HasTable;
    var i := n / NENTRIES;
    assert !KernelTable(i);
    assert UserTables(n) == (if n % NENTRIES == 0 then i else i + 1) && UserTables(n + 1) == i + 1;
  }

  lemma SpaceFramesGrow(n: nat, m: nat)
    requires n <= m
    ensures SpaceFrames(n) <= SpaceFrames(m)
  {
  }
}
