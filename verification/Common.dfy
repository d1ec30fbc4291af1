/** Constants of the kernel and small facts that several modules share. */
module Common {

  const TWO31 := 0x8000_0000
  const TWO32 := 0x1_0000_0000      // 32-bit unsigned arithmetic wraps here
  const MAXOPBLOCKS := 10           // blocks an operation may add to the log

  function Min(a: nat, b: nat): nat { if a < b then a else b }

  function Max(a: int, b: int): int { if a < b then b else a }

  ghost predicate Distinct<T>(s: seq<T>) {
    forall i, j | 0 <= i < j < |s| :: s[i] != s[j]
  }

  /** s without its k-th element. */
  function Without<T>(s: seq<T>, k: nat): seq<T>
    requires k < |s|
  {
    s[..k] + s[k + 1..]
  }

  /** The numbers from lo up to hi. */
  function Range(lo: nat, hi: nat): (s: set<nat>)
    ensures |s| == (if lo < hi then hi - lo else 0) && forall x: nat :: x in s <==> lo <= x < hi
    decreases hi
  {
    if lo >= hi then {} else Range(lo, hi - 1) + {hi - 1}
  }

  lemma {:induction false} SubsetSize(s: set<nat>, t: set<nat>)
    requires s <= t
    ensures |s| <= |t|
  {
    if s != {} {
      var x :| x in s;
      SubsetSize(s - {x}, t - {x});
    }
  }
}
