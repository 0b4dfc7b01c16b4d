/**
 Inodes and their on-disk form: sixteen little-endian words, sixteen inodes to a block.
 */
module Dinode {
  import opened Bytes

  const NDIRECT: nat := 12
  const DWORDS: nat := 16              // words of one on-disk inode
  const IPB: nat := WORDS / DWORDS     // inodes per block

  type Half = h: int | 0 <= h < 0x1_0000
  type Addrs = s: seq<Word> | |s| == NDIRECT + 1 witness seq(NDIRECT + 1, _ => 0)

  const NoAddrs: Addrs := [0, 0, 0, 0, 0, 0, 0, 0, 0, 0, 0, 0, 0]

  /** kind 0 is a free inode. */
  datatype Inode = Inode(kind: Half, major: Half, minor: Half, nlink: Half, size: Word, addrs: Addrs)

  const FREE_INODE := Inode(0, 0, 0, 0, 0, NoAddrs)

  /** Words w .. w + n of a block. */
  function Words(b: Block, w: nat, n: nat): (r: seq<Word>)
    requires w + n <= WORDS
    ensures |r| == n && forall j :: 0 <= j < n ==> r[j] == GetWord(b, w + j)
  {
    if n == 0 then [] else Words(b, w, n - 1) + [GetWord(b, w + n - 1)]
  }

  /** The first k of ws stored from word w on. */
  function PutWords(b: Block, w: nat, ws: seq<Word>, k: nat): (r: Block)
    requires k <= |ws| && w + k <= WORDS
    ensures forall j: nat {:trigger GetWord(r, j)} :: j < WORDS ==>
              GetWord(r, j) == if w <= j < w + k then ws[j - w] else GetWord(b, j)
  {
    if k == 0 then b else PutWord(PutWords(b, w, ws, k - 1), w + k - 1, ws[k - 1])
  }

  /** Two 16-bit fields as one little-endian word. */
  function Pack(lo: Half, hi: Half): (w: Word)
    ensures w % 0x1_0000 == lo && w / 0x1_0000 == hi
  {
    lo + 0x1_0000 * hi
  }

  /** struct dinode as words: type and major, minor and nlink, size, addrs. */
  function Encode(ino: Inode): (ws: seq<Word>)
    ensures |ws| == DWORDS
  {
    [Pack(ino.kind, ino.major), Pack(ino.minor, ino.nlink), ino.size] + ino.addrs
  }

  function Decode(ws: seq<Word>): Inode
    requires |ws| == DWORDS
  {
    Inode(ws[0] % 0x1_0000, ws[0] / 0x1_0000, ws[1] % 0x1_0000, ws[1] / 0x1_0000, ws[2], ws[3..])
  }

  lemma DecodeEncode(ino: Inode)
    ensures Decode(Encode(ino)) == ino
  {
    assert Encode(ino)[3..] == ino.addrs;
  }

  /** Inode s of an inode block. */
  function GetInode(b: Block, s: nat): Inode
    requires s < IPB
  {
    Decode(Words(b, DWORDS * s, DWORDS))
  }

  /** The block after inode s is stored in it. */
  function PutInode(b: Block, s: nat, ino: Inode): (r: Block)
    requires s < IPB
    ensures forall t: nat {:trigger GetInode(r, t)} :: t < IPB ==>
              GetInode(r, t) == if t == s then ino else GetInode(b, t)
  {
    var ws := Encode(ino);
    var r := PutWords(b, DWORDS * s, ws, DWORDS);
    PutInodeLaw(b, s, ino, ws, r);
    r
  }

  /** An inode stored reads back, and its neighbours read as before. */
  lemma PutInodeLaw(b: Block, s: nat, ino: Inode, ws: seq<Word>, r: Block)
    requires s < IPB && ws == Encode(ino) && r == PutWords(b, DWORDS * s, ws, DWORDS)
    ensures forall t: nat :: t < IPB ==> GetInode(r, t) == if t == s then ino else GetInode(b, t)
  {
    forall t: nat | t < IPB ensures GetInode(r, t) == if t == s then ino else GetInode(b, t) {
      if t == s {
        assert Words(r, DWORDS * s, DWORDS) == ws;
        DecodeEncode(ino);
      } else {
        assert Words(r, DWORDS * t, DWORDS) == Words(b, DWORDS * t, DWORDS);
      }
    }
  }

  /** A zeroed block holds free inodes. */
  lemma ZeroInode(s: nat)
    requires s < IPB
    ensures GetInode(ZeroBlock(), s) == FREE_INODE
  {
    assert Words(ZeroBlock(), DWORDS * s, DWORDS)[3..] == NoAddrs;
  }

  /** Two bytes, little-endian. */
  function GetHalf(b: Block, at: nat): int
    requires at + 1 < BSIZE
  {
    var lo: int, hi: int := b.data[at], b.data[at + 1];
    lo + 0x100 * hi
  }

  /** Four bytes, little-endian. */
  function GetLong(b: Block, at: nat): int
    requires at + 3 < BSIZE
  {
    GetHalf(b, at) + 0x1_0000 * GetHalf(b, at + 2)
  }

  lemma WordBytes(b: Block, i: nat)
    requires i < WORDS
    ensures GetWord(b, i) == GetLong(b, 4 * i)
    ensures GetWord(b, i) % 0x1_0000 == GetHalf(b, 4 * i) && GetWord(b, i) / 0x1_0000 == GetHalf(b, 4 * i + 2)
  {
    var lo, hi := GetHalf(b, 4 * i), GetHalf(b, 4 * i + 2);
    assert GetWord(b, i) == lo + 0x1_0000 * hi && 0 <= lo < 0x1_0000;
  }

  /**
   Where the fields of struct dinode lie: inode s from byte 64 * s on, two bytes each for the type,
   the device numbers and the link count, then four each for the size and the addresses.
   */
  lemma Layout(b: Block, s: nat)
    requires s < IPB
    ensures var ino, at := GetInode(b, s), 64 * s;
            && ino.kind == GetHalf(b, at) && ino.major == GetHalf(b, at + 2)
            && ino.minor == GetHalf(b, at + 4) && ino.nlink == GetHalf(b, at + 6)
            && ino.size == GetLong(b, at + 8)
            && forall k {:trigger ino.addrs[k]} :: 0 <= k <= NDIRECT ==> ino.addrs[k] == GetLong(b, at + 12 + 4 * k)
  {
    var w, ino := DWORDS * s, GetInode(b, s);
    WordBytes(b, w);
    WordBytes(b, w + 1);
    WordBytes(b, w + 2);
    forall k | 0 <= k <= NDIRECT ensures ino.addrs[k] == GetLong(b, 64 * s + 12 + 4 * k) {
      WordBytes(b, w + 3 + k);
    }
  }
}
