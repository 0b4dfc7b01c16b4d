/**
 Disk blocks as fixed-length byte strings, with the little-endian 32-bit words
 that the log header, the indirect blocks and the free bitmap are read through.
 */
module Bytes {

  const BSIZE := 1024
  const WORDS := BSIZE / 4

  type Byte = b: int | 0 <= b < 256
  type Word = w: int | 0 <= w < 0x1_0000_0000
  type Data = s: seq<Byte> | |s| == BSIZE witness seq(BSIZE, _ => 0)
  datatype Block = Block(data: Data)

  function ZeroBlock(): Block {
    Block(seq(BSIZE, _ => 0))
  }

  /** The i-th 32-bit word of a block. */
  function GetWord(b: Block, i: nat): Word
    requires i < WORDS
  {
    var b0: int, b1: int, b2: int, b3: int := b.data[4 * i], b.data[4 * i + 1], b.data[4 * i + 2], b.data[4 * i + 3];
    b0 + 0x100 * b1 + 0x1_0000 * b2 + 0x100_0000 * b3
  }

  /** Overwrites one word; every other word reads back as before. */
  function PutWord(b: Block, i: nat, w: Word): (r: Block)
    requires i < WORDS
    ensures GetWord(r, i) == w
    ensures forall j: nat :: j < WORDS && j != i ==> GetWord(r, j) == GetWord(b, j)
  {
    var q1 := w / 0x100;
    var q2 := q1 / 0x100;
    Block(b.data[4 * i := w % 0x100][4 * i + 1 := q1 % 0x100][4 * i + 2 := q2 % 0x100][4 * i + 3 := q2 / 0x100])
  }
}
