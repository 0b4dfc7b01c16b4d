/**
 A disk image written out in full. On it the transaction bound of a write is reached:
 there are four bitmap blocks with one free block under each, and a file whose next
 write of three blocks takes all four. And a write whose copy fails part of the way
 shows a byte that it neither reports nor logs.
 */
module TenBlocks {
  import opened Bytes
  import opened Bitmap
  import opened Dinode
  import opened Params
  import opened FsModel
  import RedoLog
  import Fs

  /** Inode blocks 32..36, bitmap blocks 37..40, data from 8191 on. */
  const SB := Super(24577, 64, 32, 37, 8191)

  const SIZE := 12287      // of the file: it ends inside its twelfth block

  /** Free are exactly 8191, 8192, 24575 and 24576, which have their marks in different bitmap blocks. */
  predicate Occupied(b: nat) {
    b < 8191 || 8193 <= b <= 24574
  }

  /** Slot k of inode i: the file is inode 1; inodes 2..62 hold runs of up to 269 blocks. */
  function SlotAddr(i: nat, k: nat): Word {
    if i == 1 then (if k < NDIRECT then 8193 + k else 0)
    else if 2 <= i <= 62 && k < 269 && 8205 + 269 * (i - 2) + k <= 24574 then 8205 + 269 * (i - 2) + k
    else 0
  }

  function PlaceOf(b: nat): Place
    requires 8193 <= b
  {
    if b < 8205 then Place(1, b - 8193) else Place(2 + (b - 8205) / 269, (b - 8205) % 269)
  }

  function SlotAddrs(i: nat): (a: Addrs)
    ensures forall k {:trigger a[k]} :: 0 <= k <= NDIRECT ==> a[k] == SlotAddr(i, k)
  {
    seq(NDIRECT + 1, k requires 0 <= k => SlotAddr(i, k))
  }

  function TheInode(i: nat): Inode {
    if 1 <= i <= 62 then Inode(2, 0, 0, 1, if i == 1 then SIZE else 0, SlotAddrs(i)) else FREE_INODE
  }

  function Inodes(n: nat): (it: seq<Inode>)
    ensures |it| == n && forall i {:trigger it[i]} :: 0 <= i < n ==> it[i] == TheInode(i)
  {
    seq(n, i requires 0 <= i < n => TheInode(i))
  }

  function WordBlock(ws: seq<Word>): (r: Block)
    requires |ws| <= WORDS
    ensures forall e: nat {:trigger GetWord(r, e)} :: e < |ws| ==> GetWord(r, e) == ws[e]
  {
    if ws == [] then ZeroBlock() else PutWord(WordBlock(ws[..|ws| - 1]), |ws| - 1, ws[|ws| - 1])
  }

  function Entry(i: nat, e: nat): Word {
    SlotAddr(i, NDIRECT + 1 + e)
  }

  function Entries(i: nat): (ws: seq<Word>)
    ensures |ws| == WORDS && forall e {:trigger ws[e]} :: 0 <= e < WORDS ==> ws[e] == Entry(i, e)
  {
    seq(WORDS, e requires 0 <= e => Entry(i, e))
  }

  /** The indirect block of inode i. */
  function IndirectBlock(i: nat): (r: Block)
    ensures forall e: nat {:trigger GetWord(r, e)} :: e < WORDS ==> GetWord(r, e) == Entry(i, e)
  {
    WordBlock(Entries(i))
  }

  function InodeBlock(it: seq<Inode>): (r: Block)
    requires |it| <= IPB
    ensures forall t: nat {:trigger GetInode(r, t)} :: t < |it| ==> GetInode(r, t) == it[t]
  {
    if it == [] then ZeroBlock() else PutInode(InodeBlock(it[..|it| - 1]), |it| - 1, it[|it| - 1])
  }

  /** Every bit set but the last of an even block and the first of an odd one. */
  function BitmapByte(q: nat, j: nat): Byte {
    if q % 2 == 0 && j == BSIZE - 1 then 0x7f else if q % 2 == 1 && j == 0 then 0xfe else 0xff
  }

  function BitmapBlock(q: nat): (r: Block)
    ensures forall j {:trigger r.data[j]} :: 0 <= j < BSIZE ==> r.data[j] == BitmapByte(q, j)
  {
    Block(seq(BSIZE, j requires 0 <= j => BitmapByte(q, j)))
  }

  predicate IsIndirect(b: nat) {
    b >= 8205 && (b - 8205) % 269 == NDIRECT
  }

  function BlockAt(b: nat): Block {
    if 32 <= b < 36 then InodeBlock(Inodes(64)[IPB * (b - 32)..IPB * (b - 32) + IPB])
    else if 37 <= b < 41 then BitmapBlock(b - 37)
    else if IsIndirect(b) then IndirectBlock((b - 8205) / 269 + 2)
    else ZeroBlock()
  }

  function Image(n: nat): (d: Disk)
    ensures |d| == n && forall b {:trigger d[b]} :: 0 <= b < n ==> d[b] == BlockAt(b)
  {
    seq(n, b requires 0 <= b < n => BlockAt(b))
  }

  function Owners(): Owner {
    map b: nat | 8193 <= b <= 24574 :: PlaceOf(b)
  }

  // ------------------------------------------------------------ the image is consistent

  lemma ImageSuper(d: Disk)
    requires |d| == SB.size
    ensures SuperOk(SB, d)
  {
  }

  lemma ByteBits(k: nat)
    requires k < 8
    ensures Test(0xff, k) && (Test(0x7f, k) <==> k != 7) && (Test(0xfe, k) <==> k != 0)
  {
    assert Test(0xff, 0) && Test(0xff, 1) && Test(0xff, 2) && Test(0xff, 3);
    assert Test(0xff, 4) && Test(0xff, 5) && Test(0xff, 6) && Test(0xff, 7);
    assert Test(0x7f, 0) && Test(0x7f, 1) && Test(0x7f, 2) && Test(0x7f, 3);
    assert Test(0x7f, 4) && Test(0x7f, 5) && Test(0x7f, 6) && !Test(0x7f, 7);
    assert !Test(0xfe, 0) && Test(0xfe, 1) && Test(0xfe, 2) && Test(0xfe, 3);
    assert Test(0xfe, 4) && Test(0xfe, 5) && Test(0xfe, 6) && Test(0xfe, 7);
  }

  lemma BitmapBits(q: nat, bi: nat)
    requires bi < BPB
    ensures BitAt(BitmapBlock(q), bi) <==> bi != if q % 2 == 0 then BPB - 1 else 0
  {
    ByteBits(bi % 8);
    assert BitmapBlock(q).data[bi / 8] == BitmapByte(q, bi / 8);
  }

  lemma BitmapAt(q: nat)
    requires q < 4
    ensures BlockAt(37 + q) == BitmapBlock(q)
  {
  }

  lemma OccupiedBit(b: nat, q: nat, bi: nat)
    requires q < 4 && bi < BPB && b == BPB * q + bi < SB.size
    ensures Occupied(b) <==> bi != if q % 2 == 0 then BPB - 1 else 0
  {
  }

  lemma MarkPlace(b: nat)
    requires b < SB.size
    ensures BBlock(SB, b) == 37 + b / BPB && b / BPB < 4 && b == BPB * (b / BPB) + b % BPB
  {
  }

  lemma ImageMarks(d: Disk, b: nat)
    requires d == Image(SB.size) && SuperOk(SB, d) && b < SB.size
    ensures Used(SB, d, b) <==> Occupied(b)
  {
    MarkPlace(b);
    ImageBit(d, b, b / BPB, b % BPB, d[BBlock(SB, b)]);
  }

  lemma ImageBit(d: Disk, b: nat, q: nat, bi: nat, blk: Block)
    requires d == Image(SB.size) && q < 4 && bi < BPB && b == BPB * q + bi < SB.size && blk == d[37 + q]
    ensures BitAt(blk, bi) <==> Occupied(b)
  {
    BitmapAt(q);
    BitmapBits(q, bi);
    OccupiedBit(b, q, bi);
  }

  lemma InodeBlockAt(q: nat, lo: nat, part: seq<Inode>)
    requires q < 4 && lo == IPB * q && |part| == IPB && part == Inodes(64)[lo..lo + IPB]
    ensures BlockAt(32 + q) == InodeBlock(part)
  {
  }

  lemma InodeInBlock(it: seq<Inode>, lo: nat, t: nat, i: nat, part: seq<Inode>, blk: Block)
    requires t < IPB && i == lo + t && lo + IPB <= |it| && part == it[lo..lo + IPB] && blk == InodeBlock(part)
    ensures GetInode(blk, t) == it[i]
  {
    assert part[t] == it[i];
  }

  lemma InodePlace(i: nat)
    requires i < 64
    ensures IBlock(SB, i) == 32 + i / IPB && i / IPB < 4 && IPB * (i / IPB) + i % IPB == i
  {
  }

  lemma ImageInode(d: Disk, it: seq<Inode>, i: nat)
    requires d == Image(SB.size) && SuperOk(SB, d) && it == Inodes(64) && i < 64
    ensures InodeStored(SB, d, it, i)
  {
    InodePlace(i);
    var q := i / IPB;
    var part := it[IPB * q..IPB * q + IPB];
    InodeBlockAt(q, IPB * q, part);
    InodeInBlock(it, IPB * q, i % IPB, i, part, d[32 + q]);
  }

  function IndirectOf(i: nat): nat
    requires 2 <= i
  {
    8205 + 269 * (i - 2) + NDIRECT
  }

  lemma IndirectAt(i: nat, ind: nat)
    requires 2 <= i <= 62 && ind == IndirectOf(i)
    ensures ind < SB.size && IsIndirect(ind) && (ind - 8205) / 269 + 2 == i
  {
    DivMod(i - 2, NDIRECT);
  }

  lemma BlockAtIndirect(i: nat, ind: nat)
    requires 41 <= ind && IsIndirect(ind) && (ind - 8205) / 269 + 2 == i
    ensures BlockAt(ind) == IndirectBlock(i)
  {
  }

  lemma ImageAddr(d: Disk, i: nat, k: nat)
    requires d == Image(SB.size) && i < 64 && k < NSLOTS
    ensures Addr(d, TheInode(i), k) == SlotAddr(i, k)
  {
    if 2 <= i <= 62 && k > NDIRECT {
      var ind := IndirectOf(i);
      IndirectAt(i, ind);
      BlockAtIndirect(i, ind);
      assert SlotAddrs(i)[NDIRECT] == ind && d[ind] == BlockAt(ind);
      assert GetWord(IndirectBlock(i), k - NDIRECT - 1) == Entry(i, k - NDIRECT - 1);
    } else if i == 1 && k > NDIRECT {
      assert SlotAddrs(i)[NDIRECT] == 0;
    } else if 1 <= i <= 62 {
      assert SlotAddrs(i)[k] == SlotAddr(i, k);
    }
  }

  lemma DivMod(a: nat, k: nat)
    requires k < 269
    ensures (269 * a + k) / 269 == a && (269 * a + k) % 269 == k
  {
  }

  lemma SlotPlace(i: nat, k: nat)
    requires k < NSLOTS && SlotAddr(i, k) != 0
    ensures 8193 <= SlotAddr(i, k) <= 24574 && PlaceOf(SlotAddr(i, k)) == Place(i, k)
  {
    if i != 1 {
      DivMod(i - 2, k);
    }
  }

  lemma PlaceSlot(b: nat)
    requires 8193 <= b <= 24574
    ensures var p := PlaceOf(b); p.inum < 64 && p.slot < NSLOTS && SlotAddr(p.inum, p.slot) == b
  {
  }

  lemma ImageOwnership(d: Disk, it: seq<Inode>, ow: Owner)
    requires d == Image(SB.size) && it == Inodes(64) && ow == Owners()
    ensures Ownership(SB, d, it, ow, {})
  {
    forall i, k | 0 <= i < |it| && 0 <= k < NSLOTS ensures Claims(d, it, ow, i, k) {
      ImageAddr(d, i, k);
      if SlotAddr(i, k) != 0 {
        SlotPlace(i, k);
      }
    }
    forall b | b in ow ensures Placed(SB, d, it, ow, b) {
      PlaceSlot(b);
      ImageAddr(d, ow[b].inum, ow[b].slot);
    }
    ImageSuper(d);
    forall b | 0 <= b < SB.size ensures Marked(SB, d, ow, {}, b) {
      ImageMarks(d, b);
    }
  }

  lemma ImageFile(d: Disk, i: nat)
    requires d == Image(SB.size) && i < 64
    ensures InodeOk(d, TheInode(i))
  {
    var ino := TheInode(i);
    forall bn: nat | bn * BSIZE < ino.size ensures HasBlock(d, ino, bn) {
      ImageAddr(d, i, Slot(bn));
    }
  }

  lemma ImageSound(d: Disk, it: seq<Inode>, ow: Owner)
    requires d == Image(SB.size) && it == Inodes(64) && ow == Owners()
    ensures Sound(SB, Snapshot(d, it, ow))
  {
    ImageOwnership(d, it, ow);
    forall i | 0 <= i < |it| ensures InodeStored(SB, d, it, i) {
      ImageInode(d, it, i);
    }
    forall i | 0 <= i < |it| ensures InodeOk(d, it[i]) {
      ImageFile(d, i);
    }
  }

  // ------------------------------------------------------------ the write

  /** A block that only now has an owner is one of the four that were free. */
  lemma WasFree(d: Disk, it: seq<Inode>, ow: Owner, b: nat)
    requires Ownership(SB, d, it, ow, {}) && b in ow && b !in Owners()
    ensures b == 8191 || b == 8192 || b == 24575 || b == 24576
  {
    assert Placed(SB, d, it, ow, b);
  }

  /** A slot of the file past the direct ones, if it has a block, has one that was free. */
  lemma NewSlot(d: Disk, it: seq<Inode>, ow: Owner, k: nat)
    requires Ownership(SB, d, it, ow, {}) && OwnersKept(Owners(), ow) && |it| == 64
    requires NDIRECT <= k < NSLOTS && Addr(d, it[1], k) != 0
    ensures var a: int := Addr(d, it[1], k);
            && a in ow && ow[a] == Place(1, k) && a !in Owners()
            && (a == 8191 || a == 8192 || a == 24575 || a == 24576)
  {
    assert Claims(d, it, ow, 1, k);
    var a := Addr(d, it[1], k);
    if a in Owners() {
      assert ow[a] == PlaceOf(a);
      PlaceSlot(a);
    }
    WasFree(d, it, ow, a);
  }

  /** A file of 15359 bytes fills all four. */
  lemma LongFile(d: Disk, it: seq<Inode>, ow: Owner)
    requires Ownership(SB, d, it, ow, {}) && OwnersKept(Owners(), ow) && |it| == 64
    requires InodeOk(d, it[1]) && it[1].size == SIZE + 3 * BSIZE
    ensures 8191 in ow && 8192 in ow && 24575 in ow && 24576 in ow
  {
    assert HasBlock(d, it[1], 12) && HasBlock(d, it[1], 13) && HasBlock(d, it[1], 14);
    NewSlot(d, it, ow, 12);
    NewSlot(d, it, ow, 13);
    NewSlot(d, it, ow, 14);
    NewSlot(d, it, ow, 15);
  }

  lemma FullDisk(d: Disk, it: seq<Inode>, ow: Owner)
    requires Ownership(SB, d, it, ow, {}) && forall b :: 0 <= b < SB.size ==> Used(SB, d, b)
    ensures 8191 in ow && 8192 in ow && 24575 in ow && 24576 in ow
  {
    assert Marked(SB, d, ow, {}, 8191) && Marked(SB, d, ow, {}, 8192);
    assert Marked(SB, d, ow, {}, 24575) && Marked(SB, d, ow, {}, 24576);
  }

  lemma FourMaps()
    ensures BBlock(SB, 8191) == 37 && BBlock(SB, 8192) == 38 && BBlock(SB, 24575) == 39 && BBlock(SB, 24576) == 40
  {
  }

  /** Mounts the image and appends three blocks to the file: the operation logs exactly MAXOPBLOCKS blocks. */
  method WriteTen(src: seq<Byte>) returns (fs: Fs.Fs, r: int)
    requires |src| == 3 * BSIZE
    ensures fs.Valid() && fs.base == Snapshot(Image(SB.size), Inodes(64), Owners())
    ensures |fs.logged| == MAXOPBLOCKS
  {
    ImageSound(Image(SB.size), Inodes(64), Owners());
    fs := new Fs.Fs(SB, Image(SB.size), Inodes(64), Owners());
    fs.BeginOp();
    ghost var d0, it0 := fs.disk, fs.itable;
    ghost var first: nat;
    r, first := fs.Writei(1, src, SIZE, |src|);
    if r < |src| {
      FullDisk(fs.disk, fs.itable, fs.owner);
    } else {
      assert |Contents(fs.disk, fs.itable[1])| == SIZE + 3 * BSIZE;
      LongFile(fs.disk, fs.itable, fs.owner);
    }
    TenLogged(fs.disk, fs.itable, fs.owner, fs.base, fs.logged, fs.trace, first);
  }

  lemma TenLogged(d: Disk, it: seq<Inode>, ow: Owner, base: Snapshot, logged: set<nat>, trace: seq<RedoLog.Write>,
                  first: nat)
    requires Ownership(SB, d, it, ow, {}) && Recorded(SB, base, d, ow, logged, trace) && base.owner == Owners()
    requires IBlock(SB, 1) in logged && first in base.owner && first in logged
    requires 8191 in ow && 8192 in ow && 24575 in ow && 24576 in ow
    ensures |logged| >= MAXOPBLOCKS
  {
    FourMaps();
    Fs.TenBlocksLogged(SB, d, it, ow, base, logged, trace, 1, first, [8191, 8192, 24575, 24576]);
  }

  // ------------------------------------------------------------ a copy that fails part of the way

  lemma FileIsZero(d: Disk, p: nat)
    requires d == Image(SB.size) && p < BSIZE
    ensures ByteAt(d, TheInode(1), p) == 0
  {
    ImageAddr(d, 1, 0);
    assert d[8193] == BlockAt(8193) && BlockAt(8193) == ZeroBlock();
  }

  /**
   Two bytes are written over bytes 1 and 2 of the file, and the second cannot be copied in: writei
   reports no byte, the logged disk keeps the old ones, and a reader sees the first new one.
   */
  method UnreportedByte() returns (fs: Fs.Fs, r: int)
    ensures fs.Settled() && r == 0 && |fs.itable| == 64 && ByteAt(fs.disk, fs.itable[1], 1) == 0
    ensures ByteAt(Fs.Shown(fs.disk, fs.dirty), fs.itable[1], 1) == 65
  {
    ImageSound(Image(SB.size), Inodes(64), Owners());
    fs := new Fs.Fs(SB, Image(SB.size), Inodes(64), Owners());
    fs.BeginOp();
    ghost var d0, it0 := fs.disk, fs.itable;
    ghost var first: nat;
    var src: seq<Byte> := [65, 66];
    r, first := fs.Writei(1, src, 1, 1);
    FileIsZero(d0, 1);
    NothingChanged(d0, it0[1], fs.disk, fs.itable[1], src, r);
    Fs.UnloggedBytes(SB, fs.disk, fs.itable, fs.owner, 1, 1, src, 0, 1, fs.dirty, 1, 1);
  }

  lemma NothingChanged(d0: Disk, ino0: Inode, d: Disk, ino: Inode, src: seq<Byte>, r: int)
    requires r == 0 <= |src| && 1 < ino0.size
    requires Contents(d, ino) == Overwrite(Contents(d0, ino0), 1, src[..r])
    ensures ByteAt(d, ino, 1) == ByteAt(d0, ino0, 1)
  {
    assert Contents(d, ino)[1] == Contents(d0, ino0)[1];
  }
}
