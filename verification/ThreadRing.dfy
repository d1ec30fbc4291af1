/** The threads of one process: the list through t_link and the pointer to the
    thread that runs next (proc.c, lwp.c). */
module ThreadRing {
  import opened Common
  import opened Procs
  import opened StrideQueue
  import opened Outcomes

  /** The links spell out the list, which starts with the main thread. */
  ghost predicate Chain(links: seq<int>, main: int, list: seq<int>) {
    && list != [] && list[0] == main && Distinct(list)
    && (forall k | 0 <= k < |list| :: 0 <= list[k] < |links|)
    && (forall k | 0 <= k < |list| :: links[list[k]] == At(list, k + 1))
  }

  /** The k-th thread after the i-th one, around the circle. */
  function Around(list: seq<int>, i: nat, k: nat): int
    requires i < |list| && k <= |list|
  {
    if i + k < |list| then list[i + k] else list[i + k - |list|]
  }

  /** The step the loop takes: along the link, or back to the main thread. */
  lemma NextAround(links: seq<int>, main: int, list: seq<int>, i: nat, k: nat)
    requires Chain(links, main, list) && i < |list| && k < |list|
    ensures var t := Around(list, i, k); 0 <= t < |links| && Around(list, i, k + 1) == if links[t] == NONE then main else links[t]
  {
    var m := if i + k < |list| then i + k else i + k - |list|;
    assert links[list[m]] == At(list, m + 1);
  }

  lemma AroundReaches(list: seq<int>, i: nat, t: int) returns (k: nat)
    requires i < |list| && t in list
    ensures 1 <= k <= |list| && Around(list, i, k) == t
  {
    var j: nat :| j < |list| && list[j] == t;
    k := if i < j then j - i else j + |list| - i;
  }

  /** Going around, the i-th thread is met again only at the end. */
  lemma AroundBack(list: seq<int>, i: nat, k: nat)
    requires Distinct(list) && i < |list| && 1 <= k <= |list|
    ensures Around(list, i, k) == list[i] <==> k == |list|
  {
  }

  lemma AroundIn(list: seq<int>, i: nat, k: nat)
    requires i < |list| && k <= |list|
    ensures Around(list, i, k) in list
  {
  }

  lemma StartAround(list: seq<int>, i: nat)
    requires i < |list|
    ensures Around(list, i, 0) == list[i]
  {
  }

  lemma MainIn(links: seq<int>, main: int, list: seq<int>)
    requires Chain(links, main, list)
    ensures main in list && Distinct(list) && forall t | t in list :: 0 <= t < |links|
  {
    assert list[0] == main;
  }

  lemma IndexUnique(list: seq<int>, i: nat)
    requires Distinct(list) && i < |list|
    ensures forall j: nat | j < |list| && list[j] == list[i] :: j == i
  {
  }

  predicate CanRun(states: seq<State>, waiting: seq<int>, t: int) {
    0 <= t < |states| && t < |waiting| && states[t].Runnable? && waiting[t] == -1
  }

  /** t is the first thread after the i-th that can run; the i-th comes last. */
  ghost predicate FirstReady(list: seq<int>, states: seq<State>, waiting: seq<int>, i: nat, t: int)
    requires i < |list|
  {
    exists k | 1 <= k <= |list| ::
      t == Around(list, i, k) && CanRun(states, waiting, t) && forall j | 1 <= j < k :: !CanRun(states, waiting, Around(list, i, j))
  }

  /** The pointer to the next thread once p is out of the list: as it was, or,
      if it was p, the first thread after p that can run. */
  ghost predicate AfterRemoval(list: seq<int>, states: seq<State>, waiting: seq<int>, next: int, p: int, next': int) {
    if next != p then next' == next
    else if forall t | t in list :: !CanRun(states, waiting, t) then next' == NONE
    else forall i: nat | i < |list| && list[i] == p :: FirstReady(list, states, waiting, i, next')
  }

  class ThreadGroup {
    const main: int
    var states: seq<State>
    var waiting: seq<int>          // waiting_tid of every slot
    var links: seq<int>            // t_link of every slot
    var next: int                  // next_t of the group
    var count: int                 // thread_count of the main thread
    ghost var list: seq<int>

    /** The list is a list, and next points into it. */
    ghost predicate Ring()
      reads this
    {
      && Chain(links, main, list) && (next == NONE || next in list)
      && |states| == |links| == |waiting| == NPROC
    }

    ghost predicate Valid()
      reads this
    {
      Ring() && count == |list|
    }

    predicate Ready(t: int)
      reads this
    {
      CanRun(states, waiting, t)
    }

    /** A process with its main thread only. */
    constructor (main: int, states: seq<State>, waiting: seq<int>, links: seq<int>)
      requires 0 <= main < NPROC && |states| == |waiting| == |links| == NPROC && links[main] == NONE
      ensures Valid() && this.main == main && list == [main] && this.states == states && this.waiting == waiting && count == 1
    {
      this.main, this.states, this.waiting, this.links := main, states, waiting, links;
      next, count, list := NONE, 1, [main];
    }

    /** Choose the thread to run next. */
    method UpdateNext() returns (r: int)
      requires Ring()
      modifies this`next
      ensures Ring()
      ensures r == -1 <==> forall t | t in list :: !Ready(t)
      ensures r == -1 ==> next == NONE
      ensures r != -1 ==> r == 0 && forall i: nat | i < |list| && list[i] == (if old(next) == NONE then main else old(next)) :: FirstReady(list, states, waiting, i, next)
    {
      hide Chain, Around;
      var t := if next == NONE then main else next;
      MainIn(links, main, list);
      ghost var i: nat :| i < |list| && list[i] == t;
      StartAround(list, i);
      ghost var k := 1;
      NextAround(links, main, list, i, 0);
      var t' := if links[t] == NONE then main else links[t];
      while t' != t
        invariant 1 <= k <= |list| && t' == Around(list, i, k) && next == old(next)
        invariant forall j | 1 <= j < k :: !Ready(Around(list, i, j))
        decreases |list| - k
      {
        AroundBack(list, i, k);
        AroundIn(list, i, k);
        if Ready(t') {
          next := t';
          IndexUnique(list, i);
          return 0;
        }
        NextAround(links, main, list, i, k);
        t' := if links[t'] == NONE then main else links[t'];
        k := k + 1;
      }
      AroundBack(list, i, k);
      AroundIn(list, i, k);
      if Ready(t') {
        next := t';
        IndexUnique(list, i);
        return 0;
      }
      next := NONE;
      forall x | x in list
        ensures !Ready(x)
      {
        var m := AroundReaches(list, i, x);
      }
      return -1;
    }

    /** thread_swtch: run the thread chosen before, whatever its state is now, and choose the next one. */
    method Switch() returns (t: int)
      requires Ring()
      modifies this`next, this`states
      ensures Ring() && t == old(next)
      ensures states == if t == NONE then old(states) else old(states)[t := Running]
      ensures (forall x | x in list :: !old(Ready(x))) <==> next == NONE
      ensures next != NONE ==>
        forall i: nat | i < |list| && list[i] == (if t == NONE then main else t) :: FirstReady(list, old(states), waiting, i, next)
    {
      hide Chain;
      MainIn(links, main, list);
      t := next;
      var r := UpdateNext();
      if r != -1 {
        ghost var k: nat :| k < |list| && list[k] == if t == NONE then main else t;
        assert FirstReady(list, states, waiting, k, next);
      }
      if t != NONE {
        states := states[t := Running];
      }
    }

    /** The list part of thread_create: p becomes a thread of the group.  With
        other threads there but none to run next, the null pointer is followed. */
    method ThreadCreate(p: int) returns (r: Outcome<()>)
      requires Valid() && 0 <= p < NPROC && p !in list
      modifies this`links, this`next, this`count, this`states, this`list
      ensures r.Panic? <==> old(count) > 1 && old(next) == NONE
      ensures r.Done? ==> Valid() && count == old(count) + 1 && states == old(states)[p := Runnable]
      ensures r.Done? && old(count) == 1 ==> list == [main, p] && next == p
      ensures r.Done? && old(count) > 1 ==> next == old(next) && exists i: nat | i < |old(list)| :: old(list)[i] == next && list == Inserted(old(list), i, p)
    {
      hide Chain;
      MainIn(links, main, list);
      if count == 1 {
        next := p;
        StartRing(links, main, list, p);
        links := links[main := p];
        links := links[p := NONE];
        list := [main, p];
      } else {
        if next == NONE { return Panic; }
        ghost var i: nat :| i < |list| && list[i] == next;
        InsertChain(links, main, list, i, p);
        InsertKeeps(list, i, p);
        links := links[p := links[next]];
        links := links[next := p];
        list := Inserted(list, i, p);
      }
      count := count + 1;
      states := states[p := Runnable];
      return Done(());
    }

    /** Take thread p, which has exited, out of the list. */
    method RmThread(p: int)
      requires Ring() && p in list && !Ready(p)
      modifies this`next, this`links, this`list
      ensures Ring() && next != p
      ensures AfterRemoval(old(list), states, waiting, old(next), p, next)
      ensures p == main ==> list == old(list)
      ensures p != main ==> exists k: nat | k < |old(list)| :: old(list)[k] == p && list == Without(old(list), k)
    {
      hide Chain, Distinct, FirstReady, Without;
      MainIn(links, main, list);
      if next == p {
        var r := UpdateNext();
        if r != -1 {
          ghost var i: nat :| i < |list| && list[i] == p;
          assert FirstReady(list, states, waiting, i, next);
        }
        NextIsReady(r);
      }
      ghost var l0, q0 := links, list;
      var pptr := main;
      ghost var j: nat := 0;
      ghost var k: nat :| k < |list| && list[k] == p;
      StartChain(l0, main, q0);
      while pptr != NONE
        invariant j <= |q0| && pptr == At(q0, j) && links == l0 && (k == 0 || j < k) && (k != 0 ==> pptr != NONE)
        modifies this`links
        decreases |q0| - j
      {
        ChainNext(l0, main, q0, j, k);
        if links[pptr] == p {
          links := links[pptr := links[p]];
          links := links[p := NONE];
          break;
        }
        pptr := links[pptr];
        j := j + 1;
      }
      if p != main {
        UnlinkChain(l0, main, q0, k);
        WithoutNext(q0, k, next, main, l0);
        list := Without(list, k);
      }
    }

    lemma NextIsReady(r: int)
      requires r == -1 ==> next == NONE
      requires r != -1 ==> exists i: nat | i < |list| :: FirstReady(list, states, waiting, i, next)
      ensures next == NONE || Ready(next)
    {
    }

    /** The list part of thread_exit for thread p with thread number tid.  The
        count matches the list again exactly when it is not the main thread that
        exits.  A main thread that waits for p can run again. */
    method ThreadExit(p: int, tid: int)
      requires Valid() && p in list
      modifies this`links, this`next, this`count, this`states, this`waiting, this`list
      ensures Valid() <==> p != main
      ensures count == old(count) - 1 && next != p && (next == NONE || next in list) && states == old(states)[p := Zombie]
      ensures AfterRemoval(old(list), states, old(waiting), old(next), p, next)
      ensures p != main ==> exists k: nat | k < |old(list)| :: old(list)[k] == p && list == Without(old(list), k)
      ensures 0 <= main < NPROC && waiting == if old(waiting)[main] == tid then old(waiting)[main := -1] else old(waiting)
    {
      hide Chain, Distinct, Without;
      MainIn(links, main, list);
      ghost var q0 := list;
      states := states[p := Zombie];
      count := count - 1;
      RmThread(p);
      if p != main {
        ghost var k: nat :| k < |q0| && q0[k] == p && list == Without(q0, k);
        WithoutAt(q0, k, 0);
      }
      if waiting[main] == tid {
        waiting := waiting[main := -1];
      }
    }
  }

  /** The null pointer is reached: main thread 0 starts thread 1 and yields to
      it, thread 1 goes to sleep, and thread 0 runs again and joins it.  Nothing
      can run next then, but the switch goes to the thread chosen before, thread
      0 itself, whose next thread_create finds no next thread. */
  method NullPointerReached() returns (r: Outcome<()>)
    ensures r.Panic?
  {
    hide Chain, FirstReady, Around;
    var g := new ThreadGroup(0, seq(NPROC, i => if i == 0 then Running else Unused), seq(NPROC, _ => -1), seq(NPROC, _ => NONE));
    r := g.ThreadCreate(1);
    g.states := g.states[0 := Runnable];
    ghost var s1 := g.states;
    assert g.Ready(0) && g.list[1] == 1;
    var t := g.Switch();
    MainOfTwo(g.list, s1, g.waiting, 1, g.next);
    g.states := g.states[1 := Sleeping];
    ghost var s2 := g.states;
    assert g.Ready(0) && g.list[0] == 0;
    t := g.Switch();
    MainOfTwo(g.list, s2, g.waiting, 0, g.next);
    g.waiting := g.waiting[0 := 1];
    g.states := g.states[0 := Runnable];
    t := g.Switch();
    r := g.ThreadCreate(2);
  }

  lemma MainOfTwo(list: seq<int>, states: seq<State>, waiting: seq<int>, i: nat, t: int)
    requires list == [0, 1] && i < 2 && FirstReady(list, states, waiting, i, t) && CanRun(states, waiting, 0)
    requires i == 0 ==> !CanRun(states, waiting, 1)
    ensures t == 0
  {
    assert Around(list, 1, 1) == 0;
  }

  function Inserted(list: seq<int>, i: nat, p: int): seq<int>
    requires i < |list|
  {
    list[..i + 1] + [p] + list[i + 1..]
  }

  lemma StartRing(links: seq<int>, main: int, list: seq<int>, p: int)
    requires Chain(links, main, list) && |list| == 1 && 0 <= p < |links| && p !in list
    ensures Chain(links[main := p][p := NONE], main, [main, p])
  {
  }

  lemma Differ(list: seq<int>, j: nat, k: nat)
    requires Distinct(list) && j < |list| && k < |list| && j != k
    ensures list[j] != list[k]
  {
  }

  lemma InsertedAt(list: seq<int>, i: nat, p: int, k: nat)
    requires i < |list|
    ensures |Inserted(list, i, p)| == |list| + 1
    ensures At(Inserted(list, i, p), k) == if k <= i then At(list, k) else if k == i + 1 then p else At(list, k - 1)
  {
  }

  lemma InsertAt(links: seq<int>, main: int, list: seq<int>, i: nat, p: int, k: nat)
    requires Chain(links, main, list) && i < |list| && 0 <= p < |links| && p !in list && k <= |list|
    ensures |Inserted(list, i, p)| == |list| + 1 && 0 <= Inserted(list, i, p)[k] < |links|
    ensures links[p := links[list[i]]][list[i] := p][Inserted(list, i, p)[k]] == At(Inserted(list, i, p), k + 1)
  {
    hide Inserted, Distinct;
    InsertedAt(list, i, p, k);
    InsertedAt(list, i, p, k + 1);
    assert list[i] in list;
    if k != i + 1 {
      var k0 := if k <= i then k else k - 1;
      assert list[k0] in list;
      if k0 != i { Differ(list, k0, i); }
      assert links[list[k0]] == At(list, k0 + 1);
    }
  }

  lemma InsertDistinct(list: seq<int>, i: nat, p: int)
    requires Distinct(list) && i < |list| && p !in list
    ensures Distinct(Inserted(list, i, p))
  {
  }

  lemma InsertChain(links: seq<int>, main: int, list: seq<int>, i: nat, p: int)
    requires Chain(links, main, list) && i < |list| && 0 <= p < |links| && p !in list
    ensures Chain(links[p := links[list[i]]][list[i] := p], main, Inserted(list, i, p))
  {
    var l', q' := links[p := links[list[i]]][list[i] := p], Inserted(list, i, p);
    InsertDistinct(list, i, p);
    hide Distinct;
    forall k | 0 <= k < |q'|
      ensures 0 <= q'[k] < |l'| && l'[q'[k]] == At(q', k + 1)
    {
      InsertAt(links, main, list, i, p, k);
    }
  }

  lemma InsertKeeps(list: seq<int>, i: nat, p: int)
    requires i < |list|
    ensures Inserted(list, i, p)[i] == list[i] && list[i] in Inserted(list, i, p)
  {
  }

  lemma StartChain(links: seq<int>, main: int, list: seq<int>)
    requires Chain(links, main, list)
    ensures main == At(list, 0) != NONE && forall k: nat | k < |list| && list[k] == main :: k == 0
  {
  }

  lemma ChainNext(links: seq<int>, main: int, list: seq<int>, j: nat, k: nat)
    requires Chain(links, main, list) && j <= |list| && At(list, j) != NONE && k < |list| && (k == 0 || j < k)
    ensures j < |list| && 0 <= list[j] < |links| && links[list[j]] == At(list, j + 1)
    ensures links[list[j]] == list[k] <==> j + 1 == k
    ensures j + 1 < k ==> At(list, j + 1) != NONE
  {
    assert 0 <= list[k];
  }

  lemma WithoutAt(list: seq<int>, k: nat, j: nat)
    requires k < |list|
    ensures |Without(list, k)| == |list| - 1 && At(Without(list, k), j) == At(list, if j < k then j else j + 1)
  {
  }

  lemma UnlinkAt(links: seq<int>, main: int, list: seq<int>, k: nat, j: nat)
    requires Chain(links, main, list) && 0 < k < |list| && j < |Without(list, k)|
    ensures 0 <= list[k] < |links| && 0 <= list[k - 1] < |links| && 0 <= Without(list, k)[j] < |links|
    ensures links[list[k - 1] := links[list[k]]][list[k] := NONE][Without(list, k)[j]] == At(Without(list, k), j + 1)
  {
    hide Without, Distinct;
    var j0 := if j < k then j else j + 1;
    WithoutAt(list, k, j);
    WithoutAt(list, k, j + 1);
    Differ(list, j0, k);
    if j0 + 1 != k { Differ(list, j0, k - 1); }
    assert links[list[j0]] == At(list, j0 + 1) && links[list[k]] == At(list, k + 1);
  }

  lemma UnlinkChain(links: seq<int>, main: int, list: seq<int>, k: nat)
    requires Chain(links, main, list) && 0 < k < |list|
    ensures 0 <= list[k] < |links| && 0 <= list[k - 1] < |links|
    ensures Chain(links[list[k - 1] := links[list[k]]][list[k] := NONE], main, Without(list, k))
  {
    WithoutMembers(list, k);
    var l', w := links[list[k - 1] := links[list[k]]][list[k] := NONE], Without(list, k);
    assert w != [] && w[0] == main;
    hide Distinct, Without;
    forall j | 0 <= j < |w|
      ensures 0 <= w[j] < |l'| && l'[w[j]] == At(w, j + 1)
    {
      UnlinkAt(links, main, list, k, j);
    }
  }

  lemma WithoutNext(list: seq<int>, k: nat, next: int, main: int, links: seq<int>)
    requires Chain(links, main, list) && k < |list| && (next == NONE || next in list) && next != list[k]
    ensures next == NONE || next in Without(list, k)
  {
    WithoutMembers(list, k);
  }
}
