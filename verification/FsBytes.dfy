/** Disk blocks as bytes: the little-endian words of an indirect block, the bits of a bitmap block. */
module FsBytes {
  const BSIZE := 1024
  const NINDIRECT := 256   // BSIZE / sizeof(uint)
  const BPB := 8192        // bits per bitmap block
  const WORDMAX := 0x1_0000_0000

  type Byte = x: int | 0 <= x < 256
  type Block = b: seq<Byte> | |b| == BSIZE witness seq(BSIZE, _ => 0)

  function Zero(): (b: Block)
    ensures forall i :: 0 <= i < BSIZE ==> b[i] == 0
  {
    seq(BSIZE, _ => 0)
  }

  // ----- words

  /** ((uint*)data)[j] */
  function Word(b: Block, j: nat): (v: nat)
    requires j < NINDIRECT
    ensures v < WORDMAX
  {
    var b0: int, b1: int, b2: int, b3: int := b[4 * j], b[4 * j + 1], b[4 * j + 2], b[4 * j + 3];
    b0 + 0x100 * b1 + 0x1_0000 * b2 + 0x100_0000 * b3
  }

  function SetWord(b: Block, j: nat, v: nat): (r: Block)
    requires j < NINDIRECT && v < WORDMAX
    ensures Word(r, j) == v
    ensures forall i :: 0 <= i < NINDIRECT && i != j ==> Word(r, i) == Word(b, i)
  {
    var q1, q2, q3 := v / 0x100, v / 0x100 / 0x100, v / 0x100 / 0x100 / 0x100;
    b[4 * j := v % 0x100][4 * j + 1 := q1 % 0x100][4 * j + 2 := q2 % 0x100][4 * j + 3 := q3]
  }

  /** Words at, at + 1, ... become ws. */
  function SetWords(b: Block, at: nat, ws: seq<nat>): (r: Block)
    requires at + |ws| <= NINDIRECT && forall k :: 0 <= k < |ws| ==> ws[k] < WORDMAX
    ensures forall j :: 0 <= j < NINDIRECT ==> Word(r, j) == if at <= j < at + |ws| then ws[j - at] else Word(b, j)
    decreases |ws|
  {
    if ws == [] then b else SetWords(SetWord(b, at, ws[0]), at + 1, ws[1..])
  }

  /** A word is little-endian, and storing one changes its four bytes alone. */
  lemma WordBytes(b: Block, j: nat, v: nat)
    requires j < NINDIRECT && v < WORDMAX
    ensures var r := SetWord(b, j, v);
            && (var b0: int, b1: int, b2: int, b3: int := r[4 * j], r[4 * j + 1], r[4 * j + 2], r[4 * j + 3];
                v == b0 + 0x100 * b1 + 0x1_0000 * b2 + 0x100_0000 * b3)
            && Word(r, j) == v
            && forall x :: 0 <= x < BSIZE && !(4 * j <= x < 4 * j + 4) ==> r[x] == b[x]
  {
  }

  lemma ZeroWords()
    ensures forall j :: 0 <= j < NINDIRECT ==> Word(Zero(), j) == 0
  {
  }

  // ----- bits

  /** 1 << k */
  function Mask(k: nat): (m: nat)
    ensures m >= 1
  {
    if k == 0 then 1 else 2 * Mask(k - 1)
  }

  /** Bit k of x, counted from the low end: x & (1 << k) != 0. */
  predicate ByteBit(x: nat, k: nat) {
    if k == 0 then x % 2 == 1 else ByteBit(x / 2, k - 1)
  }

  lemma {:induction false} ByteSet(x: nat, k: nat)
    requires !ByteBit(x, k)
    ensures ByteBit(x + Mask(k), k)
    ensures forall j: nat :: j != k ==> ByteBit(x + Mask(k), j) == ByteBit(x, j)
    ensures forall n: nat :: k < n && x < Mask(n) ==> x + Mask(k) < Mask(n)
  {
    if k > 0 {
      ByteSet(x / 2, k - 1);
      assert (x + Mask(k)) / 2 == x / 2 + Mask(k - 1);
      forall n: nat | k < n && x < Mask(n)
        ensures x + Mask(k) < Mask(n)
      {
        assert x / 2 < Mask(n - 1);
      }
    }
  }

  lemma {:induction false} ByteClear(x: nat, k: nat)
    requires ByteBit(x, k)
    ensures 0 <= x - Mask(k) && !ByteBit(x - Mask(k), k)
    ensures forall j: nat :: j != k ==> ByteBit(x - Mask(k), j) == ByteBit(x, j)
  {
    if k > 0 {
      ByteClear(x / 2, k - 1);
      assert (x - Mask(k)) / 2 == x / 2 - Mask(k - 1);
    }
  }

  /** data[i/8] & (1 << i%8) */
  predicate Bit(b: Block, i: nat)
    requires i < BPB
  {
    ByteBit(b[i / 8], i % 8)
  }

  /** data[i/8] |= 1 << i%8, for a clear bit */
  function SetBit(b: Block, i: nat): (r: Block)
    requires i < BPB && !Bit(b, i)
    ensures Bit(r, i)
    ensures forall j :: 0 <= j < BPB && j != i ==> Bit(r, j) == Bit(b, j)
  {
    ByteSet(b[i / 8], i % 8);
    assert Mask(8) == 256;
    b[i / 8 := b[i / 8] + Mask(i % 8)]
  }

  /** data[i/8] &= ~(1 << i%8), for a set bit */
  function ClearBit(b: Block, i: nat): (r: Block)
    requires i < BPB && Bit(b, i)
    ensures !Bit(r, i)
    ensures forall j :: 0 <= j < BPB && j != i ==> Bit(r, j) == Bit(b, j)
  {
    ByteClear(b[i / 8], i % 8);
    b[i / 8 := b[i / 8] - Mask(i % 8)]
  }

  /**
   Bit i is bit i % 8, from the low end, of byte i / 8; setting or clearing it changes that byte
   alone, by its weight.
   */
  lemma BitByte(b: Block, i: nat)
    requires i < BPB
    ensures Bit(b, i) <==> b[i / 8] / Weight(i % 8) % 2 == 1
    ensures !Bit(b, i) ==> SetBit(b, i) == b[i / 8 := b[i / 8] + Weight(i % 8)]
    ensures Bit(b, i) ==> ClearBit(b, i) == b[i / 8 := b[i / 8] - Weight(i % 8)]
  {
    var x: nat, k := b[i / 8], i % 8;
    BitWeight(x, k);
  }

  /** 1, 2, 4, ..., 128 */
  function Weight(k: nat): nat
    requires k < 8
  {
    [1, 2, 4, 8, 16, 32, 64, 128][k]
  }

  lemma {:induction false} BitWeight(x: nat, k: nat)
    requires k < 8
    ensures (ByteBit(x, k) <==> x / Weight(k) % 2 == 1) && Mask(k) == Weight(k)
  {
    if k > 0 {
      BitWeight(x / 2, k - 1);
      assert Weight(k) == 2 * Weight(k - 1);
      Halved(x, Weight(k - 1));
    }
  }

  lemma Halved(x: nat, w: nat)
    requires w in {1, 2, 4, 8, 16, 32, 64}
    ensures x / (2 * w) == x / 2 / w
  {
  }
}
