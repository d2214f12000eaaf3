/** Disk blocks (kernel/fs.h): BSIZE bytes, seen as bytes, as little-endian
    32-bit words (log header, indirect block, inode) or as bits (free map). */
module Blocks {
  import opened Common

  const BSIZE := 1024
  const WORDS := BSIZE / 4
  const BPB := BSIZE * 8

  type Word = x: int | 0 <= x < 0x1_0000_0000
  type Bytes = s: seq<Byte> | |s| == BSIZE witness seq(BSIZE, _ => 0)
  datatype Block = Block(bytes: Bytes)

  /** memset(data, 0, BSIZE) */
  function ZeroBlock(): (b: Block)
    ensures forall i :: 0 <= i < BSIZE ==> b.bytes[i] == 0
  {
    Block(seq(BSIZE, (i: nat) => 0))
  }

  /** `((uint*)data)[i]` */
  function WordAt(b: Block, i: nat): Word
    requires i < WORDS
  {
    var b0: int, b1: int, b2: int, b3: int :=
      b.bytes[4 * i], b.bytes[4 * i + 1], b.bytes[4 * i + 2], b.bytes[4 * i + 3];
    b0 + 0x100 * b1 + 0x1_0000 * b2 + 0x100_0000 * b3
  }

  /** `((uint*)data)[i] = w` */
  function PutWord(b: Block, i: nat, w: Word): Block
    requires i < WORDS
  {
    Block(b.bytes[4 * i := w % 0x100]
                 [4 * i + 1 := w / 0x100 % 0x100]
                 [4 * i + 2 := w / 0x1_0000 % 0x100]
                 [4 * i + 3 := w / 0x100_0000])
  }

  lemma PutWordReads(b: Block, i: nat, w: Word, j: nat)
    requires i < WORDS && j < WORDS
    ensures WordAt(PutWord(b, i, w), j) == if i == j then w else WordAt(b, j)
  {
    BytesOfWord(w);
  }

  lemma BytesOfWord(w: Word)
    ensures w == w % 0x100 + 0x100 * (w / 0x100 % 0x100)
              + 0x1_0000 * (w / 0x1_0000 % 0x100) + 0x100_0000 * (w / 0x100_0000)
  {
    var h := w / 0x100;
    assert h / 0x100 == w / 0x1_0000 && h / 0x1_0000 == w / 0x100_0000;
  }

  lemma ZeroWords(i: nat)
    requires i < WORDS
    ensures WordAt(ZeroBlock(), i) == 0
  {
  }

  /** `x & (1 << k)`, as a truth value. */
  predicate Bit(x: nat, k: nat)
  {
    if k == 0 then x % 2 == 1 else Bit(x / 2, k - 1)
  }

  /** `x | (1 << k)` when v, `x & ~(1 << k)` otherwise. */
  function WithBit(x: nat, k: nat, v: bool): nat
  {
    if k == 0 then x / 2 * 2 + (if v then 1 else 0) else WithBit(x / 2, k - 1, v) * 2 + x % 2
  }

  function Pow2(w: nat): nat
  {
    if w == 0 then 1 else 2 * Pow2(w - 1)
  }

  lemma {:induction false} WithBitFits(x: nat, k: nat, v: bool, w: nat)
    requires k < w && x < Pow2(w)
    ensures WithBit(x, k, v) < Pow2(w)
  {
    if k > 0 {
      WithBitFits(x / 2, k - 1, v, w - 1);
    }
  }

  lemma {:induction false} WithBitReads(x: nat, k: nat, v: bool, l: nat)
    ensures Bit(WithBit(x, k, v), l) == if k == l then v else Bit(x, l)
  {
    if k > 0 && l > 0 {
      WithBitReads(x / 2, k - 1, v, l - 1);
    }
  }

  lemma {:induction false} ZeroBits(k: nat)
    ensures !Bit(0, k)
  {
    if k > 0 { ZeroBits(k - 1); }
  }

  /** `(data[i/8] & (1 << (i%8))) != 0` */
  predicate BitAt(b: Block, i: nat)
    requires i < BPB
  {
    Bit(b.bytes[i / 8], i % 8)
  }

  /** `data[i/8] |= m` when v, `data[i/8] &= ~m` otherwise. */
  function PutBit(b: Block, i: nat, v: bool): Block
    requires i < BPB
  {
    assert Pow2(8) == 256 by { assert Pow2(4) == 16; }
    WithBitFits(b.bytes[i / 8], i % 8, v, 8);
    Block(b.bytes[i / 8 := WithBit(b.bytes[i / 8], i % 8, v)])
  }

  lemma PutBitReads(b: Block, i: nat, v: bool, j: nat)
    requires i < BPB && j < BPB
    ensures BitAt(PutBit(b, i, v), j) == if i == j then v else BitAt(b, j)
  {
    if i / 8 == j / 8 {
      WithBitReads(b.bytes[i / 8], i % 8, v, j % 8);
    }
  }
}
