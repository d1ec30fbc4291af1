/** Two-level page tables over the page pool, as values: which frame is used
    for what, and what linking a page table, setting an entry and clearing one
    do to the mappings of every address space. */
module PageTables {

  const NENTRIES := 1024          // NPDENTRIES and NPTENTRIES
  const PGSIZE := 4096
  const KERNBASE := 0x8000_0000
  const USERPAGES := KERNBASE / PGSIZE        // user virtual page numbers are below
  const ALLPAGES := NENTRIES * NENTRIES

  type Page = p: seq<nat> | |p| == NENTRIES witness seq(NENTRIES, _ => 0)

  type Memory = seq<Page>         // physical memory by frame number, a page as 32-bit words

  function ZeroPage(): (p: Page)
    ensures forall i | 0 <= i < NENTRIES :: p[i] == 0
  {
    seq(NENTRIES, _ => 0)
  }

  // A directory or table entry: frame number, then twelve flag bits of which
  // the lowest is PTE_P.
  predicate Present(e: nat) { e % 2 == 1 }
  function FrameOf(e: nat): nat { e / PGSIZE }
  function FlagsOf(e: nat): nat { e % PGSIZE }

  /** pa | perm | PTE_P. */
  function Entry(frame: nat, perm: nat): (e: nat)
    requires perm < PGSIZE
    ensures Present(e) && FrameOf(e) == frame && FlagsOf(e) == perm - perm % 2 + 1
  {
    frame * PGSIZE + perm - perm % 2 + 1
  }

  /** The page table entry of virtual page v in directory d, 0 if there is no table. */
  function Pte(mem: Memory, d: nat, v: nat): nat {
    if d < |mem| && v < ALLPAGES && Present(mem[d][v / NENTRIES]) && FrameOf(mem[d][v / NENTRIES]) < |mem|
    then mem[FrameOf(mem[d][v / NENTRIES])][v % NENTRIES] else 0
  }

  /** What an allocated frame is used for.  Lent: by other parts of the kernel. */
  datatype Use = Lent | Dir | Table(dir: nat, i: nat) | User(dir: nat, v: nat)

  type Owner = map<nat, Use>

  predicate IsDir(own: Owner, d: nat) {
    d in own && own[d] == Dir
  }

  /** The page tables of every directory are frames of their own. */
  ghost predicate TablesOk(mem: Memory, own: Owner) {
    && (forall f | f in own :: f < |mem|)
    && (forall d: nat, i: nat | IsDir(own, d) && i < NENTRIES && Present(mem[d][i]) ::
          FrameOf(mem[d][i]) in own && own[FrameOf(mem[d][i])] == Table(d, i))
    && (forall t | t in own && own[t].Table? ::
          IsDir(own, own[t].dir) && own[t].i < NENTRIES
          && Present(mem[own[t].dir][own[t].i]) && FrameOf(mem[own[t].dir][own[t].i]) == t)
  }

  /** The user pages of every directory are frames of their own. */
  ghost predicate UsersOk(mem: Memory, own: Owner) {
    && (forall d: nat, v: nat | IsDir(own, d) && v < USERPAGES && Present(Pte(mem, d, v)) ::
          FrameOf(Pte(mem, d, v)) in own && own[FrameOf(Pte(mem, d, v))] == User(d, v))
    && (forall f | f in own && own[f].User? ::
          IsDir(own, own[f].dir) && own[f].v < USERPAGES
          && Present(Pte(mem, own[f].dir, own[f].v)) && FrameOf(Pte(mem, own[f].dir, own[f].v)) == f)
  }

  /** Every frame of the pool is either on the free list, once, or in use. */
  ghost predicate PoolOk(pool: set<nat>, free: seq<nat>, own: Owner) {
    && (forall i, j | 0 <= i < j < |free| :: free[i] != free[j])
    && (forall f | f in free :: f in pool && f !in own)
    && (forall f | f in pool :: f in own || f in free)
    && (forall f | f in own :: f in pool)
  }

  ghost predicate Inv(mem: Memory, own: Owner) {
    TablesOk(mem, own) && UsersOk(mem, own)
  }

  // ---------- Changes ----------

  /** Frames that are neither directories nor tables do not matter. */
  lemma PteFrame(mem: Memory, mem': Memory, own: Owner, d: nat, v: nat)
    requires TablesOk(mem, own) && |mem'| == |mem| && IsDir(own, d) && v < ALLPAGES
    requires forall f | f in own && (own[f].Dir? || own[f].Table?) && f < |mem| :: mem'[f] == mem[f]
    ensures Pte(mem', d, v) == Pte(mem, d, v)
  {
  }

  /** A zeroed frame linked as a page table maps nothing. */
  lemma LinkTable(mem: Memory, own: Owner, d: nat, i: nat, t: nat)
    requires Inv(mem, own) && IsDir(own, d) && i < NENTRIES && !Present(mem[d][i])
    requires t in own && own[t] == Lent
    ensures var mem' := mem[t := ZeroPage()][d := mem[d][i := Entry(t, 6)]];
      && Inv(mem', own[t := Table(d, i)])
      && (forall e: nat, v: nat | IsDir(own, e) && v < ALLPAGES :: Pte(mem', e, v) == Pte(mem, e, v))
  {
    var mem', own' := mem[t := ZeroPage()][d := mem[d][i := Entry(t, 6)]], own[t := Table(d, i)];
    forall e: nat, v: nat | IsDir(own, e) && v < ALLPAGES
      ensures Pte(mem', e, v) == Pte(mem, e, v)
    {
      if e == d && v / NENTRIES == i {
        assert Pte(mem', e, v) == mem'[t][v % NENTRIES] == 0;
      }
    }
    assert TablesOk(mem', own');
  }

  /** Writing a page table entry changes the mapping of one page of one directory. */
  lemma SetPte(mem: Memory, own: Owner, d: nat, v: nat, e: nat, d': nat, v': nat)
    requires TablesOk(mem, own) && IsDir(own, d) && IsDir(own, d') && v < ALLPAGES && v' < ALLPAGES
    requires Present(mem[d][v / NENTRIES])
    ensures FrameOf(mem[d][v / NENTRIES]) < |mem|
    ensures var t := FrameOf(mem[d][v / NENTRIES]);
      Pte(mem[t := mem[t][v % NENTRIES := e]], d', v') == if d' == d && v' == v then e else Pte(mem, d', v')
  {
  }

  /** What the entry write does to the tables: nothing. */
  lemma SetPteTables(mem: Memory, own: Owner, d: nat, v: nat, e: nat)
    requires TablesOk(mem, own) && IsDir(own, d) && v < ALLPAGES && Present(mem[d][v / NENTRIES])
    ensures FrameOf(mem[d][v / NENTRIES]) < |mem|
    ensures var t := FrameOf(mem[d][v / NENTRIES]);
      TablesOk(mem[t := mem[t][v % NENTRIES := e]], own) && t in own && own[t] == Table(d, v / NENTRIES)
  {
  }

  ghost predicate OnlyPte(mem: Memory, mem': Memory, own: Owner, d: nat, v: nat, e: nat) {
    forall d': nat, v': nat | IsDir(own, d') && v' < ALLPAGES ::
      Pte(mem', d', v') == if d' == d && v' == v then e else Pte(mem, d', v')
  }

  lemma SetPteOnly(mem: Memory, own: Owner, d: nat, v: nat, e: nat)
    requires TablesOk(mem, own) && IsDir(own, d) && v < ALLPAGES && Present(mem[d][v / NENTRIES])
    ensures FrameOf(mem[d][v / NENTRIES]) < |mem|
    ensures var t := FrameOf(mem[d][v / NENTRIES]);
      var mem' := mem[t := mem[t][v % NENTRIES := e]];
      TablesOk(mem', own) && OnlyPte(mem, mem', own, d, v, e) && t in own && own[t] == Table(d, v / NENTRIES)
  {
    SetPteTables(mem, own, d, v, e);
    hide Pte, TablesOk;
    var t := FrameOf(mem[d][v / NENTRIES]);
    forall d': nat, v': nat | IsDir(own, d') && v' < ALLPAGES
      ensures Pte(mem[t := mem[t][v % NENTRIES := e]], d', v') == if d' == d && v' == v then e else Pte(mem, d', v')
    {
      SetPte(mem, own, d, v, e, d', v');
    }
  }

  /** Mapping a frame nobody maps at a user page that is not mapped. */
  lemma MapUser(mem: Memory, mem': Memory, own: Owner, d: nat, v: nat, f: nat, perm: nat)
    requires UsersOk(mem, own) && IsDir(own, d) && v < USERPAGES && perm < PGSIZE
    requires OnlyPte(mem, mem', own, d, v, Entry(f, perm)) && !Present(Pte(mem, d, v))
    requires f in own && own[f] == Lent
    ensures UsersOk(mem', own[f := User(d, v)])
  {
    hide Pte, Entry, Present, FrameOf;
  }

  /** Entries above KERNBASE own nothing. */
  lemma MapKernel(mem: Memory, mem': Memory, own: Owner, d: nat, v: nat, e: nat)
    requires UsersOk(mem, own) && IsDir(own, d) && USERPAGES <= v < ALLPAGES && OnlyPte(mem, mem', own, d, v, e)
    ensures UsersOk(mem', own)
  {
    hide Pte, Entry, Present, FrameOf;
  }

  /** Clearing the entry of a mapped user page. */
  lemma UnmapUser(mem: Memory, mem': Memory, own: Owner, d: nat, v: nat)
    requires UsersOk(mem, own) && IsDir(own, d) && v < USERPAGES && Present(Pte(mem, d, v)) && OnlyPte(mem, mem', own, d, v, 0)
    ensures var f := FrameOf(Pte(mem, d, v));
      f in own && own[f] == User(d, v) && UsersOk(mem', own - {f})
  {
    hide Pte, Entry, FrameOf;
  }

  /** Changes outside the directories and tables change no mapping. */
  lemma OtherWrite(mem: Memory, mem': Memory, own: Owner)
    requires Inv(mem, own) && |mem'| == |mem|
    requires forall f | f in own && (own[f].Dir? || own[f].Table?) :: mem'[f] == mem[f]
    ensures Inv(mem', own)
    ensures forall d: nat, v: nat | IsDir(own, d) && v < ALLPAGES :: Pte(mem', d, v) == Pte(mem, d, v)
  {
    forall d: nat, v: nat | IsDir(own, d) && v < ALLPAGES
      ensures Pte(mem', d, v) == Pte(mem, d, v)
    {
      PteFrame(mem, mem', own, d, v);
    }
  }

  /** Giving a frame that maps nothing a new use, or taking one back. */
  lemma ChangeLent(mem: Memory, own: Owner, own': Owner)
    requires Inv(mem, own)
    requires forall f | f in own' :: f < |mem| && ((f in own && own'[f] == own[f]) || own'[f] == Lent)
    requires forall f | f in own && !own[f].Lent? :: f in own' && own'[f] == own[f]
    ensures Inv(mem, own')
  {
    hide Pte;
  }

  /** A zeroed frame as a directory maps nothing. */
  lemma NewDir(mem: Memory, mem': Memory, own: Owner, d: nat)
    requires Inv(mem, own) && d in own && own[d] == Lent && mem' == mem[d := ZeroPage()]
    ensures Inv(mem', own[d := Dir])
    ensures forall v: nat | v < ALLPAGES :: Pte(mem', d, v) == 0
    ensures forall e: nat, v: nat | IsDir(own, e) && v < ALLPAGES :: Pte(mem', e, v) == Pte(mem, e, v)
  {
    OtherWrite(mem, mem', own);
    forall v: nat | v < ALLPAGES
      ensures Pte(mem', d, v) == 0
    {
      ZeroDir(mem', d, v);
    }
    NewDirTables(mem', own, d);
    hide Pte, TablesOk, ZeroPage;
  }

  lemma ZeroDir(mem: Memory, d: nat, v: nat)
    requires d < |mem| && mem[d] == ZeroPage() && v < ALLPAGES
    ensures Pte(mem, d, v) == 0
  {
  }

  lemma NewDirTables(mem: Memory, own: Owner, d: nat)
    requires TablesOk(mem, own) && d in own && own[d] == Lent && mem[d] == ZeroPage()
    ensures TablesOk(mem, own[d := Dir])
  {
  }

  // ---------- Ranges and whole address spaces ----------

  /** own without the user pages of d in [lo, hi). */
  function UnmapRange(own: Owner, d: nat, lo: nat, hi: nat): Owner {
    map f | f in own && !(own[f].User? && own[f].dir == d && lo <= own[f].v < hi) :: own[f]
  }

  /** Without a page table there are no user pages to unmap. */
  lemma SkipTable(mem: Memory, own: Owner, d: nat, v: nat)
    requires Inv(mem, own) && IsDir(own, d) && v < USERPAGES && !Present(mem[d][v / NENTRIES])
    ensures var next := (v / NENTRIES + 1) * NENTRIES;
      && (forall x: nat | v <= x < next :: Pte(mem, d, x) == 0)
      && UnmapRange(own, d, v, next) == own
  {
    var next := (v / NENTRIES + 1) * NENTRIES;
    assert forall x: nat | v <= x < next :: x / NENTRIES == v / NENTRIES;
    forall f | f in own && own[f].User? && own[f].dir == d
      ensures !(v <= own[f].v < next)
    {
      assert Present(Pte(mem, d, own[f].v));
    }
  }

  lemma UnmapTwice(own: Owner, d: nat, lo: nat, mid: nat, hi: nat)
    requires lo <= mid <= hi
    ensures UnmapRange(UnmapRange(own, d, lo, mid), d, mid, hi) == UnmapRange(own, d, lo, hi)
  {
  }

  lemma UnmapOne(mem: Memory, own: Owner, d: nat, v: nat)
    requires UsersOk(mem, own) && IsDir(own, d) && v < USERPAGES
    ensures UnmapRange(own, d, v, v + 1) == if Present(Pte(mem, d, v)) then own - {FrameOf(Pte(mem, d, v))} else own
  {
    hide Pte;
    var own' := UnmapRange(own, d, v, v + 1);
    if Present(Pte(mem, d, v)) {
      var f := FrameOf(Pte(mem, d, v));
      assert own[f] == User(d, v);
      assert forall g | g in own :: g in own' <==> g != f;
      assert own' == own - {f};
    } else {
      assert own' == own;
    }
  }

  predicate BelongsTo(u: Use, f: nat, d: nat) {
    f == d || (u.Table? && u.dir == d) || (u.User? && u.dir == d)
  }

  /** own without the directory d and everything below it. */
  function WithoutDir(own: Owner, d: nat): Owner {
    map f | f in own && !BelongsTo(own[f], f, d) :: own[f]
  }

  /** The directory and its tables, once the user pages are gone, serve no mapping. */
  function Retired(own: Owner, d: nat): Owner {
    map f | f in own :: if f == d || (own[f].Table? && own[f].dir == d) then Lent else own[f]
  }

  lemma Retire(mem: Memory, own: Owner, d: nat)
    requires Inv(mem, own) && IsDir(own, d) && forall f | f in own :: !(own[f].User? && own[f].dir == d)
    ensures Inv(mem, Retired(own, d))
  {
    hide Pte;
  }
}
