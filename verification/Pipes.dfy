/** The pipe of pipe.c: a ring of bytes with two counters that wrap around.
    Every method is one region under the pipe's lock; a write or read that has
    to sleep goes on in a later region, with other calls in between. */
module Pipes {
  import opened Common
  import opened Bytes

  const PIPESIZE := 512

  /** How a region ends: the call returns a count or -1, or it sleeps. */
  datatype End = Returns(n: int) | Fails | Sleeps

  /** Where the k-th byte of the pipe is kept. */
  function Slot(k: nat): (i: nat)
    ensures i < PIPESIZE
  {
    k % PIPESIZE
  }

  /** The ring index of a byte does not depend on the counter's wrap-around. */
  lemma RingIndex(n: nat)
    ensures n % TWO32 % PIPESIZE == Slot(n) && (n % TWO32 + 1) % TWO32 == (n + 1) % TWO32
  {
    var q := n / TWO32;
    assert n == q * TWO32 + n % TWO32;
    assert q * TWO32 == (q * 0x80_0000) * PIPESIZE;
    SkipMultiple(q * 0x80_0000, n % TWO32);
  }

  lemma {:induction false} SkipMultiple(k: nat, r: nat)
    ensures (k * PIPESIZE + r) % PIPESIZE == r % PIPESIZE
  {
    if k > 0 {
      SkipMultiple(k - 1, r);
      assert k * PIPESIZE + r == ((k - 1) * PIPESIZE + r) + PIPESIZE;
    }
  }

  /** The tests on the wrapped counters compare the true ones. */
  lemma CountersCompare(r: nat, w: nat)
    requires r <= w <= r + PIPESIZE
    ensures r % TWO32 == w % TWO32 <==> r == w
    ensures w % TWO32 == (r % TWO32 + PIPESIZE) % TWO32 <==> w == r + PIPESIZE
  {
  }

  /** Bytes less than PIPESIZE apart have slots of their own. */
  lemma OwnSlots(r: nat, j: nat, k: nat)
    requires r <= j < k < r + PIPESIZE
    ensures Slot(j) != Slot(k)
  {
  }

  class Pipe {
    const data: array<Byte>
    var nread: nat
    var nwrite: nat
    var readopen: bool
    var writeopen: bool
    ghost var appended: seq<Byte>      // every byte ever written
    ghost var taken: seq<Byte>         // every byte ever read

    ghost predicate Valid()
      reads this, data
    {
      && data.Length == PIPESIZE
      && |taken| <= |appended| <= |taken| + PIPESIZE && taken == appended[..|taken|]
      && nread == |taken| % TWO32 && nwrite == |appended| % TWO32
      && forall k: nat | |taken| <= k < |appended| :: data[Slot(k)] == appended[k]
    }

    constructor ()
      ensures Valid() && fresh(data) && appended == taken == [] && readopen && writeopen
    {
      data := new Byte[PIPESIZE](_ => 0);
      nread, nwrite, readopen, writeopen := 0, 0, true, true;
      appended, taken := [], [];
    }

    /** Append one byte to a pipe that is not full. */
    method Put(b: Byte)
      requires Valid() && |appended| < |taken| + PIPESIZE
      modifies this`nwrite, this`appended, data
      ensures Valid() && appended == old(appended) + [b]
    {
      hide Slot;
      RingIndex(|appended|);
      forall k: nat | |taken| <= k < |appended|
        ensures Slot(k) != Slot(|appended|)
      {
        OwnSlots(|taken|, k, |appended|);
      }
      data[nwrite % PIPESIZE] := b;
      nwrite := (nwrite + 1) % TWO32;
      appended := appended + [b];
    }

    /** Take the oldest byte of a pipe that is not empty. */
    method Take() returns (b: Byte)
      requires Valid() && |taken| < |appended|
      modifies this`nread, this`taken
      ensures Valid() && b == appended[|old(taken)|] && taken == old(taken) + [b]
    {
      hide Slot;
      RingIndex(|taken|);
      b := data[nread % PIPESIZE];
      nread := (nread + 1) % TWO32;
      assert appended[..|taken| + 1] == taken + [b];
      taken := taken + [b];
    }

    /** pipewrite, from byte i of the request up to its return or its next sleep:
        it stops early only when the pipe is full. */
    method Write(bytes: seq<Byte>, n: int, i: nat, killed: bool) returns (r: End, i': nat)
      requires Valid() && i <= Max(n, 0) <= |bytes|
      modifies this`nwrite, this`appended, data
      ensures Valid() && i <= i' <= Max(n, 0) && appended == old(appended) + bytes[i..i']
      ensures r.Returns? <==> i' == Max(n, 0)
      ensures r.Returns? ==> r.n == n
      ensures !r.Returns? ==> |appended| == |taken| + PIPESIZE && (r.Fails? <==> !readopen || killed)
    {
      i' := i;
      while i' < n
        invariant Valid() && i <= i' <= Max(n, 0) && appended == old(appended) + bytes[i..i']
      {
        CountersCompare(|taken|, |appended|);
        if nwrite == (nread + PIPESIZE) % TWO32 {
          return (if !readopen || killed then Fails else Sleeps), i';
        }
        Put(bytes[i']);
        i' := i' + 1;
      }
      return Returns(n), i';
    }

    /** piperead, from its start or wake-up to its return or its next sleep: it
        takes what there is, up to n bytes, and waits only for an empty pipe
        whose write end is open. */
    method Read(n: int, killed: bool) returns (r: End, out: seq<Byte>)
      requires Valid()
      modifies this`nread, this`taken
      ensures Valid() && taken == old(taken) + out && out == appended[|old(taken)|..|taken|]
      ensures r.Returns? <==> |old(taken)| < |appended| || !writeopen
      ensures !r.Returns? ==> out == [] && (r.Fails? <==> killed)
      ensures r.Returns? ==> r.n == |out| == (if n <= 0 then 0 else if n <= |appended| - |old(taken)| then n else |appended| - |old(taken)|)
      ensures 0 < n && r == Returns(0) ==> taken == appended && !writeopen
    {
      out := [];
      CountersCompare(|taken|, |appended|);
      if nread == nwrite && writeopen {
        return (if killed then Fails else Sleeps), [];
      }
      var i := 0;
      while i < n
        invariant Valid() && 0 <= i && (0 < n ==> i <= n) && (n <= 0 ==> i == 0) && |out| == i && taken == old(taken) + out && out == appended[|old(taken)|..|taken|]
      {
        CountersCompare(|taken|, |appended|);
        if nread == nwrite { break; }
        var b := Take();
        out := out + [b];
        i := i + 1;
      }
      return Returns(i), out;
    }

    /** Close one end; the pipe is freed with the second. */
    method Close(writable: bool) returns (freed: bool)
      requires Valid()
      modifies this`readopen, this`writeopen
      ensures Valid() && freed == (!readopen && !writeopen)
      ensures writeopen == (old(writeopen) && !writable) && readopen == (old(readopen) && writable)
    {
      if writable { writeopen := false; } else { readopen := false; }
      return !readopen && !writeopen;
    }
  }
}
