/** Circular doubly linked lists held in two arrays of links. */
module Rings {
  import opened Common

  function Succ(i: nat, n: nat): nat {
    if i + 1 >= n then 0 else i + 1
  }

  /** Following `next` from ring[0] visits ring in order and comes back;
      `prev` goes the other way round. */
  ghost predicate Ring(next: seq<nat>, prev: seq<nat>, ring: seq<nat>) {
    && 0 < |ring| && |next| == |prev| && Distinct(ring)
    && (forall i | 0 <= i < |ring| :: ring[i] < |next|)
    && (forall i | 0 <= i < |ring| :: next[ring[i]] == ring[Succ(i, |ring|)])
    && (forall i | 0 <= i < |ring| :: prev[ring[Succ(i, |ring|)]] == ring[i])
  }

  /** The predecessor link, by position. */
  lemma PrevAt(next: seq<nat>, prev: seq<nat>, ring: seq<nat>, i: nat)
    requires Ring(next, prev, ring) && i < |ring|
    ensures prev[ring[i]] == ring[if i == 0 then |ring| - 1 else i - 1]
  {
    var j := if i == 0 then |ring| - 1 else i - 1;
    assert Succ(j, |ring|) == i;
  }

  /** Taking out the element at position p. */
  lemma Unlink(next: seq<nat>, prev: seq<nat>, ring: seq<nat>, p: nat)
    requires Ring(next, prev, ring) && 0 < p < |ring|
    ensures var b := ring[p];
      && prev[b] < |next| && next[b] < |prev|
      && Ring(next[prev[b] := next[b]], prev[next[b] := prev[b]], Without(ring, p))
  {
    PrevAt(next, prev, ring, p);
    var b, ring' := ring[p], Without(ring, p);
    var next', prev' := next[prev[b] := next[b]], prev[next[b] := prev[b]];
    forall i | 0 <= i < |ring'|
      ensures next'[ring'[i]] == ring'[Succ(i, |ring'|)] && prev'[ring'[Succ(i, |ring'|)]] == ring'[i]
    {
      var o := if i < p then i else i + 1;      // position of ring'[i] in ring
      assert ring'[i] == ring[o];
      if i == p - 1 {
        assert ring[Succ(p, |ring|)] == ring'[Succ(i, |ring'|)];
      } else {
        assert ring'[Succ(i, |ring'|)] == ring[Succ(o, |ring|)];
      }
    }
  }

  /** Putting b in right behind ring[0]. */
  lemma LinkFront(next: seq<nat>, prev: seq<nat>, ring: seq<nat>, b: nat)
    requires Ring(next, prev, ring) && b < |next| && b !in ring
    ensures var h := ring[0];
      next[h] < |next| && Ring(next[b := next[h]][h := b], prev[b := h][next[h] := b], [h, b] + ring[1..])
  {
    var h := ring[0];
    var ring' := [h, b] + ring[1..];
    var next', prev' := next[b := next[h]][h := b], prev[b := h][next[h] := b];
    forall i | 0 <= i < |ring'|
      ensures next'[ring'[i]] == ring'[Succ(i, |ring'|)] && prev'[ring'[Succ(i, |ring'|)]] == ring'[i]
    {
      if i == 1 {
        assert next[h] == ring[Succ(0, |ring|)] == ring'[Succ(1, |ring'|)];
      } else if i > 1 {
        assert ring'[i] == ring[i - 1] && ring'[Succ(i, |ring'|)] == ring[Succ(i - 1, |ring|)];
      }
    }
  }
}
