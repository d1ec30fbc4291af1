/** The stride queue: a list linked through the process table, and the shares
    of its members. */
module StrideQueue {
  import opened Common
  import opened Procs

  /** The k-th process of the queue, or the null pointer that ends it. */
  function At(queue: seq<int>, k: nat): int {
    if k < |queue| then queue[k] else NONE
  }

  /** The links spell out the queue, and nothing else is linked: so the list
      that starts at head is acyclic. */
  ghost predicate Links(links: seq<int>, head: int, queue: seq<int>) {
    && Distinct(queue) && (forall k | 0 <= k < |queue| :: 0 <= queue[k] < |links|)
    && head == At(queue, 0)
    && (forall k | 0 <= k < |queue| :: links[queue[k]] == At(queue, k + 1))
    && (forall i | 0 <= i < |links| && i !in queue :: links[i] == NONE)
  }

  /** The queue holds exactly the living processes with level -1. */
  predicate Members(ps: Table, queue: seq<int>) {
    forall i | 0 <= i < |ps| :: i in queue <==> Live(ps[i]) && ps[i].level == STRIDE_LEVEL
  }

  /** The shares of the processes in a queue. */
  function Shares(ps: Table, queue: seq<int>): int
    requires forall k | 0 <= k < |queue| :: 0 <= queue[k] < |ps|
  {
    if queue == [] then 0 else ps[queue[0]].share + Shares(ps, queue[1..])
  }

  predicate SharesOk(ps: Table, queue: seq<int>, share: int, mlfqStride: int, mlfqPass: nat) {
    && (forall k | 0 <= k < |queue| :: 0 <= queue[k] < |ps|)
    && Shares(ps, queue) <= share <= 80
    && mlfqPass < TWO32 && (queue == [] ==> mlfqPass == 0)
    && (queue != [] ==> mlfqStride == StrideOfShare(100 - share))
  }

  lemma WithoutMembers(queue: seq<int>, k: nat)
    requires k < |queue| && Distinct(queue)
    ensures Distinct(Without(queue, k))
    ensures forall i :: i in Without(queue, k) <==> i in queue && i != queue[k]
  {
    var w := Without(queue, k);
    forall i | i in queue && i != queue[k]
      ensures i in w
    {
      var j :| 0 <= j < |queue| && queue[j] == i;
      assert w[if j < k then j else j - 1] == i;
    }
  }

  /** The links after striderm has unlinked the k-th process of the queue. */
  function Unlinked(links: seq<int>, queue: seq<int>, k: nat): (l: seq<int>)
    requires k < |queue| && forall j | 0 <= j < |queue| :: 0 <= queue[j] < |links|
    ensures |l| == |links|
  {
    var p := queue[k];
    (if k == 0 then links else links[queue[k - 1] := links[p]])[p := NONE]
  }

  lemma UnlinkIn(links: seq<int>, head: int, queue: seq<int>, k: nat, j: nat)
    requires Links(links, head, queue) && k < |queue| && j < |Without(queue, k)|
    ensures Unlinked(links, queue, k)[Without(queue, k)[j]] == At(Without(queue, k), j + 1)
  {
    var j0 := if j < k then j else j + 1;
    assert Without(queue, k)[j] == queue[j0] != queue[k];
    assert k > 0 && j0 + 1 != k ==> queue[j0] != queue[k - 1];
  }

  lemma UnlinkOut(links: seq<int>, head: int, queue: seq<int>, k: nat)
    requires Links(links, head, queue) && k < |queue|
    ensures forall i | 0 <= i < |links| && (i == queue[k] || i !in queue) :: Unlinked(links, queue, k)[i] == NONE
    ensures At(Without(queue, k), 0) == if k == 0 then links[queue[0]] else head
  {
    assert k > 0 ==> queue[k - 1] in queue;
  }

  lemma UnlinkLinks(links: seq<int>, head: int, queue: seq<int>, k: nat)
    requires Links(links, head, queue) && k < |queue|
    ensures Links(Unlinked(links, queue, k), if k == 0 then links[queue[0]] else head, Without(queue, k))
  {
    hide Distinct, Unlinked, Without;
    var w := Without(queue, k);
    WithoutMembers(queue, k);
    UnlinkOut(links, head, queue, k);
    assert forall j | 0 <= j < |w| :: w[j] in queue;
    forall j | 0 <= j < |w|
      ensures Unlinked(links, queue, k)[w[j]] == At(w, j + 1)
    {
      UnlinkIn(links, head, queue, k, j);
    }
  }

  lemma PushAt(links: seq<int>, head: int, queue: seq<int>, p: int, k: nat)
    requires Links(links, head, queue) && 0 <= p < |links| && p !in queue && k <= |queue|
    ensures 0 <= ([p] + queue)[k] < |links| && links[p := head][([p] + queue)[k]] == At([p] + queue, k + 1)
  {
    if k > 0 {
      assert ([p] + queue)[k] == queue[k - 1] && queue[k - 1] in queue;
    }
  }

  lemma PushDistinct(queue: seq<int>, p: int)
    requires Distinct(queue) && p !in queue
    ensures Distinct([p] + queue)
  {
  }

  lemma PushLinks(links: seq<int>, head: int, queue: seq<int>, p: int)
    requires Links(links, head, queue) && 0 <= p < |links| && p !in queue
    ensures Links(links[p := head], p, [p] + queue)
  {
    var q' := [p] + queue;
    PushDistinct(queue, p);
    hide Distinct;
    forall k | 0 <= k < |q'|
      ensures 0 <= q'[k] < |links| && links[p := head][q'[k]] == At(q', k + 1)
    {
      PushAt(links, head, queue, p, k);
    }
  }

  // ---------- Shares ----------

  lemma {:induction false} SharesFrame(ps: Table, ps': Table, queue: seq<int>)
    requires |ps'| == |ps| && forall k | 0 <= k < |queue| :: 0 <= queue[k] < |ps| && ps'[queue[k]].share == ps[queue[k]].share
    ensures Shares(ps', queue) == Shares(ps, queue)
  {
    if queue != [] {
      SharesFrame(ps, ps', queue[1..]);
    }
  }

  lemma {:induction false} SharesWithout(ps: Table, queue: seq<int>, k: nat)
    requires k < |queue| && forall j | 0 <= j < |queue| :: 0 <= queue[j] < |ps|
    ensures Shares(ps, Without(queue, k)) == Shares(ps, queue) - ps[queue[k]].share
  {
    if k == 0 {
      assert Without(queue, 0) == queue[1..];
    } else {
      SharesWithout(ps, queue[1..], k - 1);
      assert Without(queue, k) == [queue[0]] + Without(queue[1..], k - 1);
      assert Without(queue, k)[1..] == Without(queue[1..], k - 1);
    }
  }

  /** Giving a member another share. */
  lemma {:induction false} SharesChange(ps: Table, ps': Table, queue: seq<int>, p: int)
    requires |ps'| == |ps| && Distinct(queue) && p in queue
    requires forall k | 0 <= k < |queue| :: 0 <= queue[k] < |ps| && (queue[k] != p ==> ps'[queue[k]].share == ps[queue[k]].share)
    ensures Shares(ps', queue) == Shares(ps, queue) - ps[p].share + ps'[p].share
  {
    if queue[0] == p {
      SharesFrame(ps, ps', queue[1..]);
    } else {
      SharesChange(ps, ps', queue[1..], p);
    }
  }

  lemma {:induction false} SharesPositive(ps: Table, queue: seq<int>)
    requires forall k | 0 <= k < |queue| :: 0 <= queue[k] < |ps| && 0 < ps[queue[k]].share
    ensures 0 <= Shares(ps, queue)
  {
    if queue != [] {
      SharesPositive(ps, queue[1..]);
    }
  }
}
