/** Disk blocks as byte sequences, the little-endian 32-bit words a pointer
    block or a log header is read as, and the bits of a free-map byte. */
module Bytes {
  import opened Common

  const BSIZE := 512
  const NPTR := 128          // words in a block: BSIZE / sizeof(uint)

  type Byte = x: int | 0 <= x < 256
  type Block = s: seq<Byte> | |s| == BSIZE witness seq(BSIZE, _ => 0)

  /** A block after memset(data, 0, BSIZE). */
  function ZeroBlock(): (b: Block)
    ensures forall k: nat | k < BSIZE :: b[k] == 0
  {
    seq(BSIZE, _ => 0)
  }

  /** ((uint*)data)[i] on a little-endian machine. */
  function Word(b: Block, i: nat): (w: nat)
    requires i < NPTR
  {
    var b0: int, b1: int, b2: int, b3: int := b[4 * i], b[4 * i + 1], b[4 * i + 2], b[4 * i + 3];
    b0 + 0x100 * b1 + 0x1_0000 * b2 + 0x100_0000 * b3
  }

  /** ((uint*)data)[i] = v. */
  function PutWord(b: Block, i: nat, v: nat): (b': Block)
    requires i < NPTR && v < TWO32
  {
    b[4 * i := v % 0x100]
     [4 * i + 1 := v / 0x100 % 0x100]
     [4 * i + 2 := v / 0x1_0000 % 0x100]
     [4 * i + 3 := v / 0x100_0000]
  }

  /** A stored word reads back, and no other word of the block moves. */
  lemma WordOfPutWord(b: Block, i: nat, v: nat, j: nat)
    requires i < NPTR && j < NPTR && v < TWO32
    ensures Word(PutWord(b, i, v), j) == if i == j then v else Word(b, j)
  {
    if i == j {
      assert v == v % 0x100 + 0x100 * (v / 0x100);
      assert v / 0x100 == v / 0x100 % 0x100 + 0x100 * (v / 0x1_0000);
      assert v / 0x1_0000 == v / 0x1_0000 % 0x100 + 0x100 * (v / 0x100_0000);
    }
  }

  /** Every word of a zeroed block is zero: a fresh pointer block is empty. */
  lemma WordOfZero(j: nat)
    requires j < NPTR
    ensures Word(ZeroBlock(), j) == 0
  {
  }

  /** (x & (1 << k)) != 0. */
  predicate Bit(x: nat, k: nat) {
    if k == 0 then x % 2 == 1 else Bit(x / 2, k - 1)
  }

  /** x | (1 << k). */
  function SetBit(x: nat, k: nat): (y: nat) {
    if k == 0 then x / 2 * 2 + 1 else SetBit(x / 2, k - 1) * 2 + x % 2
  }

  /** x & ~(1 << k). */
  function ClearBit(x: nat, k: nat): (y: nat)
    ensures y <= x
  {
    if k == 0 then x / 2 * 2 else ClearBit(x / 2, k - 1) * 2 + x % 2
  }

  lemma {:induction false} BitOfSetBit(x: nat, k: nat, j: nat)
    ensures Bit(SetBit(x, k), j) == (j == k || Bit(x, j))
  {
    if k > 0 && j > 0 {
      BitOfSetBit(x / 2, k - 1, j - 1);
      assert SetBit(x, k) / 2 == SetBit(x / 2, k - 1);
    }
  }

  lemma {:induction false} BitOfClearBit(x: nat, k: nat, j: nat)
    ensures Bit(ClearBit(x, k), j) == (j != k && Bit(x, j))
  {
    if k > 0 && j > 0 {
      BitOfClearBit(x / 2, k - 1, j - 1);
      assert ClearBit(x, k) / 2 == ClearBit(x / 2, k - 1);
    }
  }

  /** Setting one of the eight bits of a byte leaves a byte. */
  lemma SetBitIsByte(x: Byte, k: nat)
    requires k < 8
    ensures SetBit(x, k) < 256
  {
    SetBitBound(x, k, 256, 8);
  }

  lemma {:induction false} SetBitBound(x: nat, k: nat, n: nat, bits: nat)
    requires k < bits <= 8 && n == [1, 2, 4, 8, 16, 32, 64, 128, 256][bits] && x < n
    ensures SetBit(x, k) < n
  {
    if k > 0 {
      SetBitBound(x / 2, k - 1, n / 2, bits - 1);
    }
  }
}
