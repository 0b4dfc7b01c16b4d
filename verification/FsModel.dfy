/**
 Inodes, block addresses and the free bitmap, as values over the logical disk:
 which block belongs to which slot of which inode, what each allocation, release
 and data write does to that, and what bytes a file holds.
 */
module FsModel {
  import opened Bytes
  import opened Bitmap
  import opened Dinode
  import opened Sets
  import RedoLog

  const NINDIRECT: nat := WORDS
  const MAXFILE: nat := NDIRECT + NINDIRECT
  const NSLOTS: nat := NDIRECT + 1 + NINDIRECT

  type Disk = seq<Block>

  datatype Super = Super(size: nat, ninodes: nat, inodestart: nat, bmapstart: nat, datastart: nat)

  predicate SuperOk(sb: Super, d: Disk) {
    && |d| == sb.size < 0x8000_0000
    && 0 < sb.inodestart && sb.inodestart + sb.ninodes / IPB + 1 <= sb.bmapstart
    && sb.bmapstart + sb.size / BPB + 1 <= sb.datastart <= sb.size
  }

  /** BBLOCK: the bitmap block holding the bit of block b. */
  function BBlock(sb: Super, b: nat): nat {
    b / BPB + sb.bmapstart
  }

  /** IBLOCK: the block holding inode i. */
  function IBlock(sb: Super, i: nat): nat {
    i / IPB + sb.inodestart
  }

  predicate Used(sb: Super, d: Disk, b: nat)
    requires SuperOk(sb, d) && b < sb.size
  {
    BitAt(d[BBlock(sb, b)], b % BPB)
  }

  lemma BitPlace(b: nat)
    ensures b % BPB / 8 == b / 8 % BSIZE && b % BPB % 8 == b % 8 && b / BPB == b / 8 / BSIZE
  {
    var q, r := b / BPB, b % BPB;
    assert b / 8 == BSIZE * q + r / 8;
  }

  /** The bit of block b is bit b % 8 of byte b / 8 of the bitmap blocks. */
  lemma UsedBit(sb: Super, d: Disk, b: nat)
    requires SuperOk(sb, d) && b < sb.size
    ensures Used(sb, d, b) <==> Test(d[sb.bmapstart + b / 8 / BSIZE].data[b / 8 % BSIZE], b % 8)
  {
    BitPlace(b);
  }

  /** Inodes of 64 bytes lie one after the other. */
  lemma InodePlace(sb: Super, i: nat)
    ensures (IBlock(sb, i) - sb.inodestart) * BSIZE + 64 * (i % IPB) == 64 * i
  {
    assert i == i / IPB * IPB + i % IPB;
  }

  // ------------------------------------------------------------ slots

  /**
   The address in slot k of an inode: 0..11 direct, 12 the indirect block itself,
   13.. the entries of the indirect block. 0 means no block.
   */
  function Addr(d: Disk, ino: Inode, k: nat): Word
    requires k < NSLOTS
  {
    if k <= NDIRECT then ino.addrs[k]
    else if ino.addrs[NDIRECT] == 0 || ino.addrs[NDIRECT] >= |d| then 0
    else GetWord(d[ino.addrs[NDIRECT]], k - NDIRECT - 1)
  }

  /** The slot of file block bn. */
  function Slot(bn: nat): nat {
    if bn < NDIRECT then bn else bn + 1
  }

  datatype Place = Place(inum: nat, slot: nat)
  type Owner = map<nat, Place>

  /** An address in a slot is recorded as belonging to that slot, hence to no other. */
  predicate Claims(d: Disk, itable: seq<Inode>, owner: Owner, i: nat, k: nat)
    requires i < |itable| && k < NSLOTS
  {
    var a := Addr(d, itable[i], k);
    a != 0 ==> a in owner && owner[a] == Place(i, k)
  }

  /** A recorded block is a data block and really is in its slot. */
  predicate Placed(sb: Super, d: Disk, itable: seq<Inode>, owner: Owner, b: nat)
    requires b in owner
  {
    && sb.datastart <= b < sb.size
    && owner[b].inum < |itable| && owner[b].slot < NSLOTS
    && Addr(d, itable[owner[b].inum], owner[b].slot) == b
  }

  /** The bitmap marks exactly metadata, owned blocks and blocks in transit. */
  predicate Marked(sb: Super, d: Disk, owner: Owner, transit: set<nat>, b: nat)
    requires SuperOk(sb, d) && b < sb.size
  {
    Used(sb, d, b) <==> b < sb.datastart || b in owner || b in transit
  }

  /**
   Block ownership. `transit` are blocks marked in the bitmap that no inode names at
   this instant; between operations it is empty.
   */
  predicate Ownership(sb: Super, d: Disk, itable: seq<Inode>, owner: Owner, transit: set<nat>) {
    && SuperOk(sb, d)
    && (forall i, k :: 0 <= i < |itable| && 0 <= k < NSLOTS ==> Claims(d, itable, owner, i, k))
    && (forall b {:trigger Placed(sb, d, itable, owner, b)} :: b in owner ==> Placed(sb, d, itable, owner, b))
    && (forall b :: 0 <= b < sb.size ==> Marked(sb, d, owner, transit, b))
    && (forall b :: b in transit ==> b !in owner && sb.datastart <= b < sb.size)
  }

  /** No two slots of the file system name the same block. */
  lemma AddressesDistinct(sb: Super, d: Disk, itable: seq<Inode>, owner: Owner, transit: set<nat>,
                          i: nat, k: nat, j: nat, l: nat)
    requires Ownership(sb, d, itable, owner, transit)
    requires i < |itable| && j < |itable| && k < NSLOTS && l < NSLOTS
    requires Addr(d, itable[i], k) != 0 && Addr(d, itable[i], k) == Addr(d, itable[j], l)
    ensures i == j && k == l
    ensures Addr(d, itable[i], k) < sb.size && Used(sb, d, Addr(d, itable[i], k))
  {
    assert Claims(d, itable, owner, i, k) && Claims(d, itable, owner, j, l);
    assert Placed(sb, d, itable, owner, Addr(d, itable[i], k));
    assert Marked(sb, d, owner, transit, Addr(d, itable[i], k));
  }

  // ------------------------------------------------------------ frames

  /** A change to block x that is nobody's indirect block leaves every slot alone. */
  lemma AddrFrame(d: Disk, d': Disk, ino: Inode, x: nat, k: nat)
    requires k < NSLOTS && x < |d| == |d'| && d' == d[x := d'[x]]
    requires ino.addrs[NDIRECT] == 0 || ino.addrs[NDIRECT] != x
    ensures Addr(d', ino, k) == Addr(d, ino, k)
  {
  }

  lemma NotIndirect(sb: Super, d: Disk, itable: seq<Inode>, owner: Owner, transit: set<nat>, x: nat)
    requires Ownership(sb, d, itable, owner, transit)
    requires x !in owner || owner[x].slot != NDIRECT
    ensures forall i :: 0 <= i < |itable| ==> itable[i].addrs[NDIRECT] == 0 || itable[i].addrs[NDIRECT] != x
  {
    forall i | 0 <= i < |itable| ensures itable[i].addrs[NDIRECT] == 0 || itable[i].addrs[NDIRECT] != x {
      assert Claims(d, itable, owner, i, NDIRECT);
    }
  }

  lemma MarkedFrame(sb: Super, d: Disk, d': Disk, owner: Owner, transit: set<nat>, x: nat, b: nat)
    requires SuperOk(sb, d) && sb.datastart <= x < sb.size == |d'| && d' == d[x := d'[x]]
    requires b < sb.size && Marked(sb, d, owner, transit, b)
    ensures SuperOk(sb, d') && Marked(sb, d', owner, transit, b)
  {
    assert BBlock(sb, b) < sb.datastart;
  }

  /** Writing a block that is no bitmap block and no indirect block changes no ownership. */
  lemma WriteKeepsOwnership(sb: Super, d: Disk, itable: seq<Inode>, owner: Owner, transit: set<nat>, x: nat, blk: Block)
    requires Ownership(sb, d, itable, owner, transit)
    requires sb.datastart <= x < sb.size && (x !in owner || owner[x].slot != NDIRECT)
    ensures Ownership(sb, d[x := blk], itable, owner, transit)
    ensures forall i, k :: 0 <= i < |itable| && 0 <= k < NSLOTS ==>
              Addr(d[x := blk], itable[i], k) == Addr(d, itable[i], k)
  {
    var d' := d[x := blk];
    NotIndirect(sb, d, itable, owner, transit, x);
    forall i, k | 0 <= i < |itable| && 0 <= k < NSLOTS
      ensures Addr(d', itable[i], k) == Addr(d, itable[i], k) && Claims(d', itable, owner, i, k)
    {
      AddrFrame(d, d', itable[i], x, k);
      assert Claims(d, itable, owner, i, k);
    }
    forall b | b in owner ensures Placed(sb, d', itable, owner, b) {
      assert Placed(sb, d, itable, owner, b);
    }
    forall b | 0 <= b < sb.size ensures Marked(sb, d', owner, transit, b) {
      assert Marked(sb, d, owner, transit, b);
      MarkedFrame(sb, d, d', owner, transit, x, b);
    }
  }

  /** The disk after balloc's or bfree's bitmap update. */
  function SetUsed(sb: Super, d: Disk, b: nat, v: bool): (r: Disk)
    requires SuperOk(sb, d) && b < sb.size
    ensures |r| == |d| && SuperOk(sb, r)
  {
    d[BBlock(sb, b) := PutBit(d[BBlock(sb, b)], b % BPB, v)]
  }

  lemma SetUsedBits(sb: Super, d: Disk, b: nat, v: bool, c: nat)
    requires SuperOk(sb, d) && b < sb.size && c < sb.size
    ensures Used(sb, SetUsed(sb, d, b, v), c) == if c == b then v else Used(sb, d, c)
  {
    if BBlock(sb, b) == BBlock(sb, c) && c != b {
      assert b % BPB != c % BPB;
    }
  }

  /** A bitmap update moves one block in or out of transit and touches nothing else. */
  lemma SetUsedOwnership(sb: Super, d: Disk, itable: seq<Inode>, owner: Owner, transit: set<nat>, transit': set<nat>,
                         b: nat, v: bool)
    requires Ownership(sb, d, itable, owner, transit)
    requires b < sb.size && (if v then !Used(sb, d, b) else b in transit)
    requires transit' == if v then transit + {b} else transit - {b}
    ensures sb.datastart <= b && b !in owner
    ensures Ownership(sb, SetUsed(sb, d, b, v), itable, owner, transit')
    ensures forall i, k :: 0 <= i < |itable| && 0 <= k < NSLOTS ==>
              Addr(SetUsed(sb, d, b, v), itable[i], k) == Addr(d, itable[i], k)
  {
    assert Marked(sb, d, owner, transit, b);
    var x := BBlock(sb, b);
    assert SetUsed(sb, d, b, v) == d[x := SetUsed(sb, d, b, v)[x]];
    MetaFrame(sb, d, itable, owner, transit, x, SetUsed(sb, d, b, v));
    SetUsedMarks(sb, d, owner, transit, transit', b, v);
  }

  /** Writing a metadata block moves no address. */
  lemma MetaFrame(sb: Super, d: Disk, itable: seq<Inode>, owner: Owner, transit: set<nat>, x: nat, d': Disk)
    requires Ownership(sb, d, itable, owner, transit) && x < sb.datastart
    requires |d'| == |d| && d' == d[x := d'[x]]
    ensures forall i, k :: 0 <= i < |itable| && 0 <= k < NSLOTS ==> Addr(d', itable[i], k) == Addr(d, itable[i], k)
    ensures forall i, k :: 0 <= i < |itable| && 0 <= k < NSLOTS ==> Claims(d', itable, owner, i, k)
    ensures forall b :: b in owner ==> Placed(sb, d', itable, owner, b)
  {
    assert x in owner ==> Placed(sb, d, itable, owner, x);
    NotIndirect(sb, d, itable, owner, transit, x);
    forall i, k | 0 <= i < |itable| && 0 <= k < NSLOTS
      ensures Addr(d', itable[i], k) == Addr(d, itable[i], k) && Claims(d', itable, owner, i, k)
    {
      AddrFrame(d, d', itable[i], x, k);
      assert Claims(d, itable, owner, i, k);
    }
    forall c | c in owner ensures Placed(sb, d', itable, owner, c) {
      assert Placed(sb, d, itable, owner, c);
    }
  }

  lemma SetUsedMarks(sb: Super, d: Disk, owner: Owner, transit: set<nat>, transit': set<nat>, b: nat, v: bool)
    requires SuperOk(sb, d) && forall c :: 0 <= c < sb.size ==> Marked(sb, d, owner, transit, c)
    requires sb.datastart <= b < sb.size && b !in owner
    requires transit' == if v then transit + {b} else transit - {b}
    ensures forall c :: 0 <= c < sb.size ==> Marked(sb, SetUsed(sb, d, b, v), owner, transit', c)
  {
    var d' := SetUsed(sb, d, b, v);
    forall c | 0 <= c < sb.size ensures Marked(sb, d', owner, transit', c) {
      assert Marked(sb, d, owner, transit, c);
      SetUsedBits(sb, d, b, v, c);
    }
  }

  // ------------------------------------------------------------ attaching and detaching blocks

  function SetAddr(ino: Inode, k: nat, a: Word): Inode
    requires k <= NDIRECT
  {
    ino.(addrs := ino.addrs[k := a])
  }

  lemma {:induction false} ZeroWords(i: nat)
    requires i < WORDS
    ensures GetWord(ZeroBlock(), i) == 0
  {
  }

  /** Slot k of inode i, and no other slot of any inode, now holds r. */
  predicate SlotSet(d: Disk, itable: seq<Inode>, d': Disk, itable': seq<Inode>, i: nat, k: nat, r: nat) {
    && |itable'| == |itable|
    && forall j, l :: 0 <= j < |itable| && 0 <= l < NSLOTS ==>
         Addr(d', itable'[j], l) == if j == i && l == k then r else Addr(d, itable[j], l)
  }

  lemma SameBitmap(sb: Super, d: Disk, d': Disk, b: nat)
    requires SuperOk(sb, d) && b < sb.size
    requires |d'| == |d| && forall x :: 0 <= x < sb.datastart ==> d'[x] == d[x]
    ensures Used(sb, d', b) == Used(sb, d, b)
  {
    assert BBlock(sb, b) < sb.datastart;
  }

  /** A block in transit put into an empty slot is owned by that slot. */
  lemma Attach(sb: Super, d: Disk, itable: seq<Inode>, owner: Owner, transit: set<nat>,
               d': Disk, itable': seq<Inode>, i: nat, k: nat, r: nat)
    requires Ownership(sb, d, itable, owner, transit)
    requires i < |itable| && k < NSLOTS && Addr(d, itable[i], k) == 0 && r in transit
    requires SlotSet(d, itable, d', itable', i, k, r)
    requires |d'| == |d| && forall b :: 0 <= b < sb.datastart ==> d'[b] == d[b]
    ensures Ownership(sb, d', itable', owner[r := Place(i, k)], transit - {r})
  {
    var owner' := owner[r := Place(i, k)];
    forall j, l | 0 <= j < |itable'| && 0 <= l < NSLOTS ensures Claims(d', itable', owner', j, l) {
      assert Claims(d, itable, owner, j, l);
    }
    assert Addr(d', itable'[i], k) == r;
    forall b | b in owner' ensures Placed(sb, d', itable', owner', b) {
      if b != r {
        assert Placed(sb, d, itable, owner, b);
        assert Place(i, k) != owner[b];
      }
    }
    forall b | 0 <= b < sb.size ensures Marked(sb, d', owner', transit - {r}, b) {
      assert Marked(sb, d, owner, transit, b);
      SameBitmap(sb, d, d', b);
    }
  }

  /** ip->addrs[k] = r for an empty direct slot, or, with a zeroed block, for the indirect slot. */
  lemma SetDirect(d: Disk, itable: seq<Inode>, i: nat, k: nat, r: Word)
    requires i < |itable| && k <= NDIRECT && itable[i].addrs[k] == 0 && r < |d|
    requires k == NDIRECT ==> d[r] == ZeroBlock()
    ensures SlotSet(d, itable, d, itable[i := SetAddr(itable[i], k, r)], i, k, r)
  {
    forall l | 0 <= l < NSLOTS
      ensures Addr(d, SetAddr(itable[i], k, r), l) == if l == k then r else Addr(d, itable[i], l)
    {
      if k == NDIRECT && l > NDIRECT {
        ZeroWords(l - NDIRECT - 1);
      }
    }
  }

  /** a[e] = r in the indirect block of inode i. */
  lemma SetEntry(sb: Super, d: Disk, itable: seq<Inode>, owner: Owner, transit: set<nat>, i: nat, e: nat, r: Word)
    requires Ownership(sb, d, itable, owner, transit)
    requires i < |itable| && e < NINDIRECT && itable[i].addrs[NDIRECT] != 0
    ensures var ind := itable[i].addrs[NDIRECT];
            && sb.datastart <= ind < |d| && ind in owner && owner[ind] == Place(i, NDIRECT)
            && SlotSet(d, itable, d[ind := PutWord(d[ind], e, r)], itable, i, NDIRECT + 1 + e, r)
  {
    var ind := itable[i].addrs[NDIRECT];
    assert Claims(d, itable, owner, i, NDIRECT) && Placed(sb, d, itable, owner, ind);
    var d' := d[ind := PutWord(d[ind], e, r)];
    forall j, l | 0 <= j < |itable| && 0 <= l < NSLOTS
      ensures Addr(d', itable[j], l) == if j == i && l == NDIRECT + 1 + e then r else Addr(d, itable[j], l)
    {
      if j == i {
        EntryAddr(d, itable[i], e, r, l);
      } else {
        assert Claims(d, itable, owner, j, NDIRECT);
        AddrFrame(d, d', itable[j], ind, l);
      }
    }
  }

  lemma EntryAddr(d: Disk, ino: Inode, e: nat, r: Word, l: nat)
    requires 0 < ino.addrs[NDIRECT] < |d| && e < NINDIRECT && l < NSLOTS
    ensures var ind := ino.addrs[NDIRECT];
            Addr(d[ind := PutWord(d[ind], e, r)], ino, l) == if l == NDIRECT + 1 + e then r else Addr(d, ino, l)
  {
  }

  /** A direct slot is cleared: its block is in transit until bfree unmarks it. */
  lemma DetachDirect(sb: Super, d: Disk, itable: seq<Inode>, owner: Owner, transit: set<nat>, i: nat, k: nat)
    requires Ownership(sb, d, itable, owner, transit)
    requires i < |itable| && k < NDIRECT && itable[i].addrs[k] != 0
    ensures var a := itable[i].addrs[k];
            && a in owner && a < sb.size && Used(sb, d, a)
            && Ownership(sb, d, itable[i := SetAddr(itable[i], k, 0)], owner - {a}, transit + {a})
  {
    var a := itable[i].addrs[k];
    assert Claims(d, itable, owner, i, k) && Placed(sb, d, itable, owner, a) && Marked(sb, d, owner, transit, a);
    var itable', owner' := itable[i := SetAddr(itable[i], k, 0)], owner - {a};
    forall j, l | 0 <= j < |itable'| && 0 <= l < NSLOTS ensures Claims(d, itable', owner', j, l) {
      assert Claims(d, itable, owner, j, l);
    }
    forall b | b in owner' ensures Placed(sb, d, itable', owner', b) {
      assert Placed(sb, d, itable, owner, b);
    }
    forall b | 0 <= b < sb.size ensures Marked(sb, d, owner', transit + {a}, b) {
      assert Marked(sb, d, owner, transit, b);
    }
  }

  /** The blocks an inode owns through its indirect block, the block itself included. */
  function ViaIndirect(owner: Owner, i: nat): set<nat> {
    set b | b in owner && owner[b].inum == i && owner[b].slot >= NDIRECT
  }

  /** The indirect slot is cleared: the block and all its entries are in transit. */
  lemma DetachIndirect(sb: Super, d: Disk, itable: seq<Inode>, owner: Owner, transit: set<nat>, i: nat)
    requires Ownership(sb, d, itable, owner, transit)
    requires i < |itable| && itable[i].addrs[NDIRECT] != 0
    ensures var gone := ViaIndirect(owner, i);
            Ownership(sb, d, itable[i := SetAddr(itable[i], NDIRECT, 0)], owner - gone, transit + gone)
  {
    var gone := ViaIndirect(owner, i);
    var itable', owner' := itable[i := SetAddr(itable[i], NDIRECT, 0)], owner - gone;
    forall j, l | 0 <= j < |itable'| && 0 <= l < NSLOTS ensures Claims(d, itable', owner', j, l) {
      assert Claims(d, itable, owner, j, l);
    }
    forall b | b in owner' ensures Placed(sb, d, itable', owner', b) {
      assert Placed(sb, d, itable, owner, b);
    }
    forall b | 0 <= b < sb.size ensures Marked(sb, d, owner', transit + gone, b) {
      assert Marked(sb, d, owner, transit, b);
    }
    forall b | b in transit + gone ensures b !in owner' && sb.datastart <= b < sb.size {
      if b in owner {
        assert Placed(sb, d, itable, owner, b);
      }
    }
  }

  // ------------------------------------------------------------ file contents

  /** Byte p of a file; 0 where no block is mapped. */
  function ByteAt(d: Disk, ino: Inode, p: nat): Byte {
    if p / BSIZE >= MAXFILE then 0
    else
      var a := Addr(d, ino, Slot(p / BSIZE));
      if a == 0 || a >= |d| then 0 else d[a].data[p % BSIZE]
  }

  function Prefix(d: Disk, ino: Inode, n: nat): (s: seq<Byte>)
    ensures |s| == n && forall p :: 0 <= p < n ==> s[p] == ByteAt(d, ino, p)
  {
    if n == 0 then [] else Prefix(d, ino, n - 1) + [ByteAt(d, ino, n - 1)]
  }

  /** The byte sequence a file is. */
  function Contents(d: Disk, ino: Inode): seq<Byte> {
    Prefix(d, ino, ino.size)
  }

  predicate HasBlock(d: Disk, ino: Inode, bn: nat) {
    bn < MAXFILE && Addr(d, ino, Slot(bn)) != 0
  }

  /**
   Byte p of a file is byte p % BSIZE of the block that the inode names for it, directly for the first twelve
   blocks and by a word of the indirect block for the others.
   */
  lemma WhichByte(d: Disk, ino: Inode, p: nat, a: nat)
    requires p < MAXFILE * BSIZE && 0 < a < |d|
    requires if p / BSIZE < 12 then ino.addrs[p / BSIZE] == a
             else 0 < ino.addrs[12] < |d| && GetLong(d[ino.addrs[12]], 4 * (p / BSIZE - 12)) == a
    ensures ByteAt(d, ino, p) == d[a].data[p % BSIZE]
  {
    if p / BSIZE >= 12 {
      WordBytes(d[ino.addrs[12]], p / BSIZE - 12);
    }
  }

  /** Every byte below n lies in a mapped block. */
  ghost predicate Mapped(d: Disk, ino: Inode, n: nat) {
    n <= MAXFILE * BSIZE && forall bn: nat :: bn * BSIZE < n ==> HasBlock(d, ino, bn)
  }

  /** Files have no holes, and a free inode holds nothing. */
  ghost predicate InodeOk(d: Disk, ino: Inode) {
    Mapped(d, ino, ino.size) && (ino.kind == 0 ==> ino.size == 0 && ino.addrs == NoAddrs)
  }

  /** memmove of a chunk into a block. */
  function Splice(blk: Block, at: nat, chunk: seq<Byte>): Block
    requires at + |chunk| <= BSIZE
  {
    Block(blk.data[..at] + chunk + blk.data[at + |chunk|..])
  }

  /** Writing a chunk into the block of offset off changes exactly those bytes of that file. */
  lemma SpliceBytes(sb: Super, d: Disk, itable: seq<Inode>, owner: Owner, transit: set<nat>,
                    i: nat, off: nat, chunk: seq<Byte>, p: nat)
    requires Ownership(sb, d, itable, owner, transit) && i < |itable|
    requires HasBlock(d, itable[i], off / BSIZE) && off % BSIZE + |chunk| <= BSIZE
    ensures var a := Addr(d, itable[i], Slot(off / BSIZE));
            && sb.datastart <= a < sb.size && a in owner && owner[a] == Place(i, Slot(off / BSIZE))
            && var d' := d[a := Splice(d[a], off % BSIZE, chunk)];
            ByteAt(d', itable[i], p) == if off <= p < off + |chunk| then chunk[p - off] else ByteAt(d, itable[i], p)
  {
    var a := Addr(d, itable[i], Slot(off / BSIZE));
    assert Claims(d, itable, owner, i, Slot(off / BSIZE)) && Placed(sb, d, itable, owner, a);
    var blk := Splice(d[a], off % BSIZE, chunk);
    WriteKeepsOwnership(sb, d, itable, owner, transit, a, blk);
    if p / BSIZE < MAXFILE {
      assert Claims(d, itable, owner, i, Slot(p / BSIZE));
      if p / BSIZE == off / BSIZE {
        assert blk.data[p % BSIZE] == if off <= p < off + |chunk| then chunk[p - off] else d[a].data[p % BSIZE];
      }
    }
  }

  /** A file whose blocks nobody wrote reads as before. */
  lemma OtherFileBytes(sb: Super, d: Disk, itable: seq<Inode>, owner: Owner, transit: set<nat>, x: nat, blk: Block,
                       j: nat, p: nat)
    requires Ownership(sb, d, itable, owner, transit) && j < |itable|
    requires x in owner && owner[x].inum != j && owner[x].slot != NDIRECT
    ensures x < |d| && ByteAt(d[x := blk], itable[j], p) == ByteAt(d, itable[j], p)
  {
    assert Placed(sb, d, itable, owner, x);
    WriteKeepsOwnership(sb, d, itable, owner, transit, x, blk);
    if p / BSIZE < MAXFILE {
      assert Claims(d, itable, owner, j, Slot(p / BSIZE));
    }
  }

  // ------------------------------------------------------------ growing a file

  /** Slot (j, k) is as it was, unless it was empty and belongs to inode i. */
  predicate SlotKept(d: Disk, itable: seq<Inode>, d': Disk, itable': seq<Inode>, i: nat, j: nat, k: nat)
    requires j < |itable| && |itable'| == |itable| && k < NSLOTS
  {
    (j == i && Addr(d, itable[j], k) == 0) || Addr(d', itable'[j], k) == Addr(d, itable[j], k)
  }

  predicate SameButAddrs(a: Inode, b: Inode) {
    b == a.(addrs := b.addrs)
  }

  /** Every owned block still belongs to its slot. */
  predicate OwnersKept(owner: Owner, owner': Owner) {
    forall x {:trigger x in owner'} {:trigger owner[x]} :: x in owner ==> x in owner' && owner'[x] == owner[x]
  }

  /** Inode i may have gained blocks; nothing that was mapped, and no other inode, changed. */
  predicate Grown(d: Disk, itable: seq<Inode>, owner: Owner, d': Disk, itable': seq<Inode>, owner': Owner, i: nat) {
    && |d'| == |d| && i < |itable| && |itable'| == |itable|
    && (forall j :: 0 <= j < |itable| && j != i ==> itable'[j] == itable[j])
    && SameButAddrs(itable[i], itable'[i])
    && (forall j, k :: 0 <= j < |itable| && 0 <= k < NSLOTS ==> SlotKept(d, itable, d', itable', i, j, k))
    && OwnersKept(owner, owner')
    && (forall x :: x in owner && owner[x].slot != NDIRECT && x < |d| ==> d'[x] == d[x])
  }

  lemma GrownRefl(d: Disk, itable: seq<Inode>, owner: Owner, i: nat)
    requires i < |itable|
    ensures Grown(d, itable, owner, d, itable, owner, i)
  {
  }

  lemma GrownTrans(d: Disk, it: seq<Inode>, ow: Owner, d1: Disk, it1: seq<Inode>, ow1: Owner,
                   d2: Disk, it2: seq<Inode>, ow2: Owner, i: nat)
    requires Grown(d, it, ow, d1, it1, ow1, i) && Grown(d1, it1, ow1, d2, it2, ow2, i)
    ensures Grown(d, it, ow, d2, it2, ow2, i)
  {
    forall j, k | 0 <= j < |it| && 0 <= k < NSLOTS ensures SlotKept(d, it, d2, it2, i, j, k) {
      assert SlotKept(d, it, d1, it1, i, j, k) && SlotKept(d1, it1, d2, it2, i, j, k);
    }
  }

  /** Growing keeps every mapped byte of every file. */
  lemma GrownBytes(sb: Super, d: Disk, itable: seq<Inode>, owner: Owner, transit: set<nat>,
                   d': Disk, itable': seq<Inode>, owner': Owner, i: nat, j: nat, p: nat)
    requires Ownership(sb, d, itable, owner, transit) && Grown(d, itable, owner, d', itable', owner', i)
    requires j < |itable| && (j != i || HasBlock(d, itable[j], p / BSIZE))
    ensures ByteAt(d', itable'[j], p) == ByteAt(d, itable[j], p)
  {
    if p / BSIZE < MAXFILE {
      var k := Slot(p / BSIZE);
      assert SlotKept(d, itable, d', itable', i, j, k) && Claims(d, itable, owner, j, k);
      if Addr(d, itable[j], k) != 0 {
        assert Placed(sb, d, itable, owner, Addr(d, itable[j], k));
      }
    }
  }

  lemma GrownMapped(d: Disk, itable: seq<Inode>, owner: Owner, d': Disk, itable': seq<Inode>, owner': Owner, i: nat,
                    j: nat, n: nat)
    requires Grown(d, itable, owner, d', itable', owner', i) && j < |itable| && Mapped(d, itable[j], n)
    ensures Mapped(d', itable'[j], n)
  {
    forall bn: nat | bn * BSIZE < n ensures HasBlock(d', itable'[j], bn) {
      assert HasBlock(d, itable[j], bn);
      assert SlotKept(d, itable, d', itable', i, j, Slot(bn));
    }
  }

  // ------------------------------------------------------------ allocation

  /** The disk after a successful balloc of r: marked, and zeroed. */
  function Allocated(sb: Super, d: Disk, r: nat): (d': Disk)
    requires SuperOk(sb, d) && r < sb.size
    ensures |d'| == |d|
  {
    SetUsed(sb, d, r, true)[r := ZeroBlock()]
  }

  lemma AllocatedOwnership(sb: Super, d: Disk, itable: seq<Inode>, owner: Owner, r: nat, d': Disk)
    requires Ownership(sb, d, itable, owner, {}) && r < sb.size && !Used(sb, d, r) && d' == Allocated(sb, d, r)
    ensures sb.datastart <= r && r !in owner && d'[r] == ZeroBlock()
    ensures Ownership(sb, d', itable, owner, {r})
    ensures forall i, k :: 0 <= i < |itable| && 0 <= k < NSLOTS ==> Addr(d', itable[i], k) == Addr(d, itable[i], k)
    ensures forall x :: x in owner ==> x < |d| && d'[x] == d[x]
  {
    SetUsedOwnership(sb, d, itable, owner, {}, {r}, r, true);
    MarkThenZero(sb, d, SetUsed(sb, d, r, true), itable, owner, r, ZeroBlock());
  }

  lemma MarkThenZero(sb: Super, d: Disk, d1: Disk, itable: seq<Inode>, owner: Owner, r: nat, zero: Block)
    requires Ownership(sb, d1, itable, owner, {r}) && |d1| == |d| && r !in owner
    requires forall b :: sb.datastart <= b < |d| ==> d1[b] == d[b]
    requires forall i, k :: 0 <= i < |itable| && 0 <= k < NSLOTS ==> Addr(d1, itable[i], k) == Addr(d, itable[i], k)
    ensures Ownership(sb, d1[r := zero], itable, owner, {r})
    ensures forall i, k :: 0 <= i < |itable| && 0 <= k < NSLOTS ==>
              Addr(d1[r := zero], itable[i], k) == Addr(d, itable[i], k)
    ensures forall x :: x in owner ==> x < |d| && d1[r := zero][x] == d[x]
  {
    WriteKeepsOwnership(sb, d1, itable, owner, {r}, r, zero);
    forall x | x in owner ensures x < |d| && d1[r := zero][x] == d[x] {
      assert Placed(sb, d1, itable, owner, x);
    }
  }

  /** balloc followed by ip->addrs[k] = r. */
  lemma GrowDirect(sb: Super, d: Disk, itable: seq<Inode>, owner: Owner, i: nat, k: nat, r: nat,
                   d': Disk, itable': seq<Inode>, owner': Owner)
    requires Ownership(sb, d, itable, owner, {}) && r < sb.size && !Used(sb, d, r)
    requires i < |itable| && k <= NDIRECT && itable[i].addrs[k] == 0
    requires d' == Allocated(sb, d, r)
    requires itable' == itable[i := SetAddr(itable[i], k, r)] && owner' == owner[r := Place(i, k)]
    ensures Ownership(sb, d', itable', owner', {}) && Grown(d, itable, owner, d', itable', owner', i)
    ensures Addr(d', itable'[i], k) == r && 0 < r && d'[r] == ZeroBlock() && r !in owner
    ensures forall l :: 0 <= l < NSLOTS && l != k ==> Addr(d', itable'[i], l) == Addr(d, itable[i], l)
  {
    AllocatedOwnership(sb, d, itable, owner, r, d');
    SetDirect(d', itable, i, k, r);
    Attach(sb, d', itable, owner, {r}, d', itable', i, k, r);
    assert {r} - {r} == {};
    forall j, l | 0 <= j < |itable| && 0 <= l < NSLOTS ensures SlotKept(d, itable, d', itable', i, j, l) {
      assert Addr(d', itable[j], l) == Addr(d, itable[j], l);
    }
  }

  /** balloc followed by a[e] = r in the indirect block. */
  lemma GrowEntry(sb: Super, d: Disk, itable: seq<Inode>, owner: Owner, i: nat, e: nat, r: nat,
                  d1: Disk, d': Disk, owner': Owner)
    requires Ownership(sb, d, itable, owner, {}) && r < sb.size && !Used(sb, d, r)
    requires i < |itable| && e < NINDIRECT && 0 < itable[i].addrs[NDIRECT] < |d|
    requires Addr(d, itable[i], NDIRECT + 1 + e) == 0
    requires d1 == Allocated(sb, d, r)
    requires var ind := itable[i].addrs[NDIRECT]; d' == d1[ind := PutWord(d1[ind], e, r)]
    requires owner' == owner[r := Place(i, NDIRECT + 1 + e)]
    ensures Ownership(sb, d', itable, owner', {}) && Grown(d, itable, owner, d', itable, owner', i)
    ensures Addr(d', itable[i], NDIRECT + 1 + e) == r && 0 < r && d'[r] == ZeroBlock()
    ensures forall l :: 0 <= l < NSLOTS && l != NDIRECT + 1 + e ==> Addr(d', itable[i], l) == Addr(d, itable[i], l)
    ensures r !in owner
    ensures d1[itable[i].addrs[NDIRECT]] == d[itable[i].addrs[NDIRECT]]
  {
    AllocatedOwnership(sb, d, itable, owner, r, d1);
    SetEntry(sb, d1, itable, owner, {r}, i, e, r);
    EntryGrown(sb, d, itable, owner, i, NDIRECT + 1 + e, r, d1, d', owner');
  }

  lemma EntryGrown(sb: Super, d: Disk, itable: seq<Inode>, owner: Owner, i: nat, k: nat, r: nat,
                   d1: Disk, d': Disk, owner': Owner)
    requires |d1| == |d| == |d'| && r !in owner && Ownership(sb, d1, itable, owner, {r})
    requires forall j, l :: 0 <= j < |itable| && 0 <= l < NSLOTS ==> Addr(d1, itable[j], l) == Addr(d, itable[j], l)
    requires forall x :: x in owner ==> x < |d| && d1[x] == d[x]
    requires i < |itable| && NDIRECT < k < NSLOTS && Addr(d, itable[i], k) == 0
    requires var ind := itable[i].addrs[NDIRECT];
             sb.datastart <= ind < |d| && ind in owner && owner[ind].slot == NDIRECT && d' == d1[ind := d'[ind]]
    requires SlotSet(d1, itable, d', itable, i, k, r)
    requires owner' == owner[r := Place(i, k)]
    ensures Ownership(sb, d', itable, owner', {}) && Grown(d, itable, owner, d', itable, owner', i)
    ensures Addr(d', itable[i], k) == r && 0 < r && d'[r] == d1[r]
    ensures forall l :: 0 <= l < NSLOTS && l != k ==> Addr(d', itable[i], l) == Addr(d, itable[i], l)
  {
    Attach(sb, d1, itable, owner, {r}, d', itable, i, k, r);
    assert {r} - {r} == {};
    EntryKept(d, itable, i, k, r, d1, d');
  }

  lemma EntryKept(d: Disk, itable: seq<Inode>, i: nat, k: nat, r: nat, d1: Disk, d': Disk)
    requires forall j, l :: 0 <= j < |itable| && 0 <= l < NSLOTS ==> Addr(d1, itable[j], l) == Addr(d, itable[j], l)
    requires i < |itable| && NDIRECT < k < NSLOTS && Addr(d, itable[i], k) == 0
    requires SlotSet(d1, itable, d', itable, i, k, r)
    ensures forall j, l :: 0 <= j < |itable| && 0 <= l < NSLOTS ==> SlotKept(d, itable, d', itable, i, j, l)
    ensures forall l :: 0 <= l < NSLOTS && l != k ==> Addr(d', itable[i], l) == Addr(d, itable[i], l)
  {
    forall j, l | 0 <= j < |itable| && 0 <= l < NSLOTS ensures SlotKept(d, itable, d', itable, i, j, l) {
      assert Addr(d1, itable[j], l) == Addr(d, itable[j], l);
    }
  }

  // ------------------------------------------------------------ a write in progress

  function Max(a: nat, b: nat): nat { if a < b then b else a }

  /** Byte p after tot bytes of src have gone to offset off. */
  predicate ByteWritten(d0: Disk, ino0: Inode, d: Disk, ino: Inode, off: nat, src: seq<Byte>, tot: nat, p: nat)
    requires tot <= |src|
  {
    ByteAt(d, ino, p) == if off <= p < off + tot then src[p - off] else ByteAt(d0, ino0, p)
  }

  predicate ByteKept(d0: Disk, ino0: Inode, d: Disk, ino: Inode, p: nat) {
    ByteAt(d, ino, p) == ByteAt(d0, ino0, p)
  }

  /** tot bytes written to inode i: exactly they differ, in that file alone. */
  ghost predicate Progress(d0: Disk, it0: seq<Inode>, d: Disk, it: seq<Inode>, i: nat, off: nat, src: seq<Byte>,
                           tot: nat) {
    && i < |it0| == |it| && tot <= |src|
    && SameButAddrs(it0[i], it[i]) && (forall j :: 0 <= j < |it0| && j != i ==> it[j] == it0[j])
    && (forall j :: 0 <= j < |it0| ==> Mapped(d, it[j], it0[j].size))
    && Mapped(d, it[i], Max(it0[i].size, off + tot))
    && (forall p: nat :: p < Max(it0[i].size, off + tot) ==> ByteWritten(d0, it0[i], d, it[i], off, src, tot, p))
    && (forall j, p: nat :: 0 <= j < |it0| && j != i ==> ByteKept(d0, it0[j], d, it[j], p))
  }

  lemma ProgressGrown(sb: Super, d0: Disk, it0: seq<Inode>, d: Disk, it: seq<Inode>, ow: Owner,
                      d': Disk, it': seq<Inode>, ow': Owner, i: nat, off: nat, src: seq<Byte>, tot: nat)
    requires Progress(d0, it0, d, it, i, off, src, tot) && Ownership(sb, d, it, ow, {})
    requires Grown(d, it, ow, d', it', ow', i)
    ensures Progress(d0, it0, d', it', i, off, src, tot)
  {
    forall j | 0 <= j < |it0| ensures Mapped(d', it'[j], it0[j].size) {
      GrownMapped(d, it, ow, d', it', ow', i, j, it0[j].size);
    }
    var hi := Max(it0[i].size, off + tot);
    GrownMapped(d, it, ow, d', it', ow', i, i, hi);
    forall p: nat | p < hi ensures ByteWritten(d0, it0[i], d', it'[i], off, src, tot, p) {
      assert ByteWritten(d0, it0[i], d, it[i], off, src, tot, p);
      assert HasBlock(d, it[i], p / BSIZE);
      GrownBytes(sb, d, it, ow, {}, d', it', ow', i, i, p);
    }
    forall j, p: nat | 0 <= j < |it0| && j != i ensures ByteKept(d0, it0[j], d', it'[j], p) {
      assert ByteKept(d0, it0[j], d, it[j], p);
      GrownBytes(sb, d, it, ow, {}, d', it', ow', i, j, p);
    }
  }

  /** A data write changes no mapping. */
  lemma MappedWrite(sb: Super, d: Disk, it: seq<Inode>, ow: Owner, x: nat, d': Disk, j: nat, n: nat)
    requires Ownership(sb, d, it, ow, {}) && j < |it| && Mapped(d, it[j], n)
    requires x in ow && ow[x].slot != NDIRECT && |d'| == |d| && x < |d| && d' == d[x := d'[x]]
    ensures Mapped(d', it[j], n)
  {
    assert Placed(sb, d, it, ow, x);
    WriteKeepsOwnership(sb, d, it, ow, {}, x, d'[x]);
    forall bn: nat | bn * BSIZE < n ensures HasBlock(d', it[j], bn) {
      assert HasBlock(d, it[j], bn);
    }
  }

  lemma MappedExtend(d: Disk, ino: Inode, lo: nat, off: nat, m: nat)
    requires Mapped(d, ino, Max(lo, off)) && HasBlock(d, ino, off / BSIZE)
    requires off % BSIZE + m <= BSIZE
    ensures Mapped(d, ino, Max(lo, off + m))
  {
    assert off / BSIZE < MAXFILE;
    forall bn: nat | bn * BSIZE < Max(lo, off + m) ensures HasBlock(d, ino, bn) {
      if bn * BSIZE >= Max(lo, off) {
        assert bn == off / BSIZE;
      }
    }
  }

  /** A chunk of src spliced into its block: byte p of the file before and after. */
  lemma ByteSpliced(sb: Super, d0: Disk, ino0: Inode, d: Disk, it: seq<Inode>, ow: Owner, i: nat, off0: nat,
                    src: seq<Byte>, tot: nat, m: nat, a: nat, d': Disk, p: nat)
    requires Ownership(sb, d, it, ow, {}) && i < |it| && tot + m <= |src|
    requires HasBlock(d, it[i], (off0 + tot) / BSIZE) && (off0 + tot) % BSIZE + m <= BSIZE
    requires a == Addr(d, it[i], Slot((off0 + tot) / BSIZE)) && a < |d|
    requires d' == d[a := Splice(d[a], (off0 + tot) % BSIZE, src[tot..tot + m])]
    requires off0 + tot <= p < off0 + tot + m || ByteWritten(d0, ino0, d, it[i], off0, src, tot, p)
    ensures ByteWritten(d0, ino0, d', it[i], off0, src, tot + m, p)
  {
    SpliceBytes(sb, d, it, ow, {}, i, off0 + tot, src[tot..tot + m], p);
  }

  /** The block a splice goes to is a data block of the file. */
  lemma SplicedBlock(sb: Super, d: Disk, it: seq<Inode>, ow: Owner, i: nat, bn: nat, a: nat)
    requires Ownership(sb, d, it, ow, {}) && i < |it| && HasBlock(d, it[i], bn) && a == Addr(d, it[i], Slot(bn))
    ensures sb.datastart <= a < sb.size && a in ow && ow[a] == Place(i, Slot(bn)) && Slot(bn) != NDIRECT
  {
    assert Claims(d, it, ow, i, Slot(bn)) && Placed(sb, d, it, ow, a);
  }

  lemma ProgressSplice(sb: Super, d0: Disk, it0: seq<Inode>, d: Disk, it: seq<Inode>, ow: Owner,
                       i: nat, off0: nat, src: seq<Byte>, tot: nat, m: nat, next: nat, a: nat, d': Disk)
    requires Progress(d0, it0, d, it, i, off0, src, tot) && Ownership(sb, d, it, ow, {})
    requires off0 <= it0[i].size && next == tot + m <= |src| && 0 < m
    requires HasBlock(d, it[i], (off0 + tot) / BSIZE) && (off0 + tot) % BSIZE + m <= BSIZE
    requires a == Addr(d, it[i], Slot((off0 + tot) / BSIZE)) && a < |d|
    requires d' == d[a := Splice(d[a], (off0 + tot) % BSIZE, src[tot..next])]
    ensures Ownership(sb, d', it, ow, {}) && Progress(d0, it0, d', it, i, off0, src, next)
  {
    var off := off0 + tot;
    SplicedBlock(sb, d, it, ow, i, off / BSIZE, a);
    WriteKeepsOwnership(sb, d, it, ow, {}, a, d'[a]);
    forall j | 0 <= j < |it0| ensures Mapped(d', it[j], it0[j].size) {
      MappedWrite(sb, d, it, ow, a, d', j, it0[j].size);
    }
    MappedExtend(d, it[i], it0[i].size, off, m);
    MappedWrite(sb, d, it, ow, a, d', i, Max(it0[i].size, off + m));
    forall p: nat | p < Max(it0[i].size, off + m) ensures ByteWritten(d0, it0[i], d', it[i], off0, src, next, p) {
      assert p < Max(it0[i].size, off) ==> ByteWritten(d0, it0[i], d, it[i], off0, src, tot, p);
      ByteSpliced(sb, d0, it0[i], d, it, ow, i, off0, src, tot, m, a, d', p);
    }
    forall j, p: nat | 0 <= j < |it0| && j != i ensures ByteKept(d0, it0[j], d', it[j], p) {
      assert ByteKept(d0, it0[j], d, it[j], p);
      OtherFileBytes(sb, d, it, ow, {}, a, d'[a], j, p);
    }
  }

  /** The bytes t put at offset off, extending s if they reach past its end. */
  function Overwrite(s: seq<Byte>, off: nat, t: seq<Byte>): seq<Byte>
    requires off <= |s|
  {
    s[..off] + t + if off + |t| <= |s| then s[off + |t|..] else []
  }

  /** Once the size is updated, the file is the overwritten byte sequence. */
  lemma ProgressDone(d0: Disk, it0: seq<Inode>, d: Disk, it: seq<Inode>, i: nat, off: nat, src: seq<Byte>, tot: nat,
                     ino: Inode)
    requires Progress(d0, it0, d, it, i, off, src, tot) && off <= it0[i].size
    requires ino.addrs == it[i].addrs && ino.size == Max(it0[i].size, off + tot)
    ensures Contents(d, ino) == Overwrite(Contents(d0, it0[i]), off, src[..tot])
    ensures Mapped(d, ino, ino.size)
  {
    SameAddrs(d, it[i], ino);
    ProgressContents(d0, it0, d, it, i, off, src, tot, ino);
    forall bn: nat | bn * BSIZE < ino.size ensures HasBlock(d, ino, bn) {
      assert HasBlock(d, it[i], bn);
    }
  }

  lemma ProgressContents(d0: Disk, it0: seq<Inode>, d: Disk, it: seq<Inode>, i: nat, off: nat, src: seq<Byte>, tot: nat,
                         ino: Inode)
    requires Progress(d0, it0, d, it, i, off, src, tot) && off <= it0[i].size
    requires ino.addrs == it[i].addrs && ino.size == Max(it0[i].size, off + tot)
    ensures Contents(d, ino) == Overwrite(Contents(d0, it0[i]), off, src[..tot])
  {
    var s := Overwrite(Contents(d0, it0[i]), off, src[..tot]);
    SameAddrs(d, it[i], ino);
    forall p | 0 <= p < ino.size ensures Contents(d, ino)[p] == s[p] {
      assert ByteWritten(d0, it0[i], d, it[i], off, src, tot, p);
      OverwriteAt(Contents(d0, it0[i]), off, src[..tot], p);
    }
  }

  lemma OverwriteAt(s: seq<Byte>, off: nat, t: seq<Byte>, p: nat)
    requires off <= |s| && p < Max(|s|, off + |t|)
    ensures |Overwrite(s, off, t)| == Max(|s|, off + |t|)
    ensures Overwrite(s, off, t)[p] == if off <= p < off + |t| then t[p - off] else s[p]
  {
  }

  lemma SameAddrs(d: Disk, a: Inode, b: Inode)
    requires a.addrs == b.addrs
    ensures forall k :: 0 <= k < NSLOTS ==> Addr(d, a, k) == Addr(d, b, k)
    ensures forall p: nat :: ByteAt(d, a, p) == ByteAt(d, b, p)
  {
  }

  /** Updating an inode without touching its addresses keeps the ownership. */
  lemma SameAddrsOwnership(sb: Super, d: Disk, it: seq<Inode>, ow: Owner, i: nat, ino: Inode)
    requires Ownership(sb, d, it, ow, {}) && i < |it| && ino.addrs == it[i].addrs
    ensures Ownership(sb, d, it[i := ino], ow, {})
  {
    var it' := it[i := ino];
    SameAddrs(d, it[i], ino);
    forall j, k | 0 <= j < |it'| && 0 <= k < NSLOTS ensures Claims(d, it', ow, j, k) {
      assert Claims(d, it, ow, j, k);
    }
    forall b | b in ow ensures Placed(sb, d, it', ow, b) {
      assert Placed(sb, d, it, ow, b);
    }
  }

  lemma OthersDone(d0: Disk, it0: seq<Inode>, d: Disk, it: seq<Inode>, i: nat, off: nat, src: seq<Byte>, tot: nat,
                   j: nat)
    requires Progress(d0, it0, d, it, i, off, src, tot) && j < |it0| && j != i && InodeOk(d0, it0[j])
    ensures Contents(d, it[j]) == Contents(d0, it0[j]) && InodeOk(d, it[j])
  {
    forall p | 0 <= p < it0[j].size ensures Contents(d, it[j])[p] == Contents(d0, it0[j])[p] {
      assert ByteKept(d0, it0[j], d, it[j], p);
    }
  }

  // ------------------------------------------------------------ releasing blocks

  /** A file reads the same when no data block changed and its inode did not. */
  lemma SameDataBytes(sb: Super, d: Disk, it: seq<Inode>, ow: Owner, transit: set<nat>, d': Disk, j: nat)
    requires Ownership(sb, d, it, ow, transit) && j < |it| && |d'| == |d|
    requires forall b :: sb.datastart <= b < |d| ==> d'[b] == d[b]
    ensures forall k :: 0 <= k < NSLOTS ==> Addr(d', it[j], k) == Addr(d, it[j], k)
    ensures forall p: nat :: ByteAt(d', it[j], p) == ByteAt(d, it[j], p)
  {
    assert Claims(d, it, ow, j, NDIRECT);
    assert it[j].addrs[NDIRECT] != 0 ==> Placed(sb, d, it, ow, it[j].addrs[NDIRECT]);
    forall p: nat ensures ByteAt(d', it[j], p) == ByteAt(d, it[j], p) {
      if p / BSIZE < MAXFILE {
        var a := Addr(d, it[j], Slot(p / BSIZE));
        assert Claims(d, it, ow, j, Slot(p / BSIZE));
        assert a != 0 ==> Placed(sb, d, it, ow, a);
      }
    }
  }

  lemma SameDataFile(sb: Super, d: Disk, it: seq<Inode>, ow: Owner, transit: set<nat>, d': Disk, j: nat)
    requires Ownership(sb, d, it, ow, transit) && j < |it| && |d'| == |d| && InodeOk(d, it[j])
    requires forall b :: sb.datastart <= b < |d| ==> d'[b] == d[b]
    ensures InodeOk(d', it[j]) && Contents(d', it[j]) == Contents(d, it[j])
  {
    SameDataBytes(sb, d, it, ow, transit, d', j);
    forall bn: nat | bn * BSIZE < it[j].size ensures HasBlock(d', it[j], bn) {
      assert HasBlock(d, it[j], bn);
    }
    assert Contents(d', it[j]) == Contents(d, it[j]);
  }

  /** A block in transit is unmarked by bfree, which finds it marked. */
  lemma Release(sb: Super, d: Disk, it: seq<Inode>, ow: Owner, transit: set<nat>, b: nat)
    requires Ownership(sb, d, it, ow, transit) && b in transit
    ensures b < sb.size && Used(sb, d, b)
    ensures Ownership(sb, SetUsed(sb, d, b, false), it, ow, transit - {b})
    ensures forall x :: sb.datastart <= x < |d| ==> SetUsed(sb, d, b, false)[x] == d[x]
  {
    assert Marked(sb, d, ow, transit, b);
    SetUsedOwnership(sb, d, it, ow, transit, transit - {b}, b, false);
  }

  /** Of the blocks reached through the indirect block, those still to free at entry e. */
  function Remaining(ow: Owner, i: nat, e: nat): set<nat> {
    set b | b in ow && ow[b].inum == i && (ow[b].slot == NDIRECT || ow[b].slot >= NDIRECT + 1 + e)
  }

  lemma RemainingStep(sb: Super, d: Disk, it: seq<Inode>, ow: Owner, i: nat, e: nat)
    requires Ownership(sb, d, it, ow, {}) && i < |it| && e < NINDIRECT
    ensures var a := Addr(d, it[i], NDIRECT + 1 + e);
            && (a != 0 ==> a in Remaining(ow, i, e) && Remaining(ow, i, e + 1) == Remaining(ow, i, e) - {a})
            && (a == 0 ==> Remaining(ow, i, e + 1) == Remaining(ow, i, e))
  {
    var a, k := Addr(d, it[i], NDIRECT + 1 + e), NDIRECT + 1 + e;
    assert Claims(d, it, ow, i, k);
    forall b | b in ow && ow[b] == Place(i, k) ensures b == a && a != 0 {
      assert Placed(sb, d, it, ow, b);
    }
    RemainingLess(ow, i, e, a);
  }

  lemma RemainingLess(ow: Owner, i: nat, e: nat, a: nat)
    requires forall b :: b in ow && ow[b] == Place(i, NDIRECT + 1 + e) ==> b == a && a != 0
    requires a != 0 ==> a in ow && ow[a] == Place(i, NDIRECT + 1 + e)
    ensures a != 0 ==> a in Remaining(ow, i, e) && Remaining(ow, i, e + 1) == Remaining(ow, i, e) - {a}
    ensures a == 0 ==> Remaining(ow, i, e + 1) == Remaining(ow, i, e)
  {
    forall b | b in ow && (b != a || a == 0) ensures ow[b].inum != i || ow[b].slot != NDIRECT + 1 + e {
      assert ow[b] == Place(ow[b].inum, ow[b].slot);
    }
  }

  lemma RemainingEnds(sb: Super, d: Disk, it: seq<Inode>, ow: Owner, i: nat)
    requires Ownership(sb, d, it, ow, {}) && i < |it| && it[i].addrs[NDIRECT] != 0
    ensures Remaining(ow, i, 0) == ViaIndirect(ow, i)
    ensures Remaining(ow, i, NINDIRECT) == {it[i].addrs[NDIRECT]}
  {
    assert Claims(d, it, ow, i, NDIRECT);
    forall b | b in Remaining(ow, i, NINDIRECT) ensures b == it[i].addrs[NDIRECT] {
      assert Placed(sb, d, it, ow, b);
    }
  }

  /** The owners left when inode i has given up slots below k. */
  function Without(ow: Owner, i: nat, k: nat): Owner {
    map b | b in ow && !(ow[b].inum == i && ow[b].slot < k) :: ow[b]
  }

  // ------------------------------------------------------------ counting

  function UsedBlocks(sb: Super, d: Disk): set<nat>
    requires SuperOk(sb, d)
  {
    set b: nat | b < sb.size && Used(sb, d, b)
  }

  /** The bitmap marks exactly the metadata blocks plus one block per owned slot. */
  lemma UsedCount(sb: Super, d: Disk, it: seq<Inode>, ow: Owner)
    requires Ownership(sb, d, it, ow, {})
    ensures |UsedBlocks(sb, d)| == sb.datastart + |ow|
  {
    forall b: nat ensures b in UsedBlocks(sb, d) <==> b in Below(sb.datastart) + ow.Keys {
      assert b < sb.size ==> Marked(sb, d, ow, {}, b);
      assert b in ow ==> Placed(sb, d, it, ow, b);
    }
    assert UsedBlocks(sb, d) == Below(sb.datastart) + ow.Keys;
    assert Below(sb.datastart) !! ow.Keys by {
      forall b | b in ow ensures b !in Below(sb.datastart) {
        assert Placed(sb, d, it, ow, b);
      }
    }
  }

  /** One block's worth of a file is a slice of that block. */
  lemma ReadChunk(d: Disk, ino: Inode, off: nat, m: nat)
    requires off + m <= ino.size && Mapped(d, ino, ino.size) && off % BSIZE + m <= BSIZE && 0 < m
    requires off / BSIZE < MAXFILE && 0 < Addr(d, ino, Slot(off / BSIZE)) < |d|
    ensures Contents(d, ino)[off..off + m]
         == d[Addr(d, ino, Slot(off / BSIZE))].data[off % BSIZE..off % BSIZE + m]
  {
    var s, t := Contents(d, ino)[off..off + m], d[Addr(d, ino, Slot(off / BSIZE))].data[off % BSIZE..off % BSIZE + m];
    forall p | 0 <= p < m ensures s[p] == t[p] {
      assert (off + p) / BSIZE == off / BSIZE && (off + p) % BSIZE == off % BSIZE + p;
    }
  }

  /** File j is as it was. */
  predicate SameFile(d0: Disk, it0: seq<Inode>, d: Disk, it: seq<Inode>, j: nat)
    requires j < |it0| && j < |it|
  {
    it[j] == it0[j] && Contents(d, it[j]) == Contents(d0, it[j])
  }

  predicate OthersSame(d0: Disk, it0: seq<Inode>, d: Disk, it: seq<Inode>, i: nat) {
    |it| == |it0| && forall j {:trigger SameFile(d0, it0, d, it, j)} :: 0 <= j < |it| && j != i ==>
          SameFile(d0, it0, d, it, j)
  }

  lemma OthersStep(d0: Disk, it0: seq<Inode>, d1: Disk, it1: seq<Inode>, d: Disk, it: seq<Inode>, i: nat)
    requires OthersSame(d0, it0, d1, it1, i) && OthersSame(d1, it1, d, it, i)
    ensures OthersSame(d0, it0, d, it, i)
  {
    forall j | 0 <= j < |it| && j != i ensures SameFile(d0, it0, d, it, j) {
      assert SameFile(d0, it0, d1, it1, j) && SameFile(d1, it1, d, it, j);
    }
  }

  // ------------------------------------------------------------ inodes on the disk

  predicate InodeStored(sb: Super, d: Disk, dinodes: seq<Inode>, i: nat)
    requires SuperOk(sb, d) && i < |dinodes| == sb.ninodes
  {
    GetInode(d[IBlock(sb, i)], i % IPB) == dinodes[i]
  }

  /** The inode blocks of the disk hold exactly these inodes. */
  ghost predicate Stored(sb: Super, d: Disk, dinodes: seq<Inode>) {
    && SuperOk(sb, d) && |dinodes| == sb.ninodes
    && forall i {:trigger InodeStored(sb, d, dinodes, i)} :: 0 <= i < |dinodes| ==> InodeStored(sb, d, dinodes, i)
  }

  /** The disk after iupdate or ialloc writes inode i. */
  function InodeWritten(sb: Super, d: Disk, i: nat, ino: Inode): (d': Disk)
    requires SuperOk(sb, d) && i < sb.ninodes
    ensures |d'| == |d|
  {
    d[IBlock(sb, i) := PutInode(d[IBlock(sb, i)], i % IPB, ino)]
  }

  lemma InodeBelow(sb: Super, d: Disk, i: nat)
    requires SuperOk(sb, d) && i < sb.ninodes
    ensures sb.inodestart <= IBlock(sb, i) < sb.bmapstart && i % IPB < IPB
  {
  }

  lemma SameInodeBlock(sb: Super, d: Disk, d': Disk, dinodes: seq<Inode>, i: nat)
    requires SuperOk(sb, d) && |d'| == |d| && i < |dinodes| == sb.ninodes && InodeStored(sb, d, dinodes, i)
    requires d'[IBlock(sb, i)] == d[IBlock(sb, i)]
    ensures InodeStored(sb, d', dinodes, i)
  {
  }

  /** The inodes that the inode blocks of the disk hold. */
  function DiskInodes(sb: Super, d: Disk): (it: seq<Inode>)
    requires SuperOk(sb, d)
    ensures |it| == sb.ninodes && Stored(sb, d, it)
  {
    seq(sb.ninodes, i requires 0 <= i < sb.ninodes => GetInode(d[IBlock(sb, i)], i % IPB))
  }

  lemma StoredInodes(sb: Super, d: Disk, dinodes: seq<Inode>)
    requires Stored(sb, d, dinodes)
    ensures dinodes == DiskInodes(sb, d)
  {
    forall i | 0 <= i < |dinodes| ensures dinodes[i] == DiskInodes(sb, d)[i] {
      assert InodeStored(sb, d, dinodes, i) && InodeStored(sb, d, DiskInodes(sb, d), i);
    }
  }

  /** A disk with the same inode blocks holds the same inodes. */
  lemma StoredElsewhere(sb: Super, d: Disk, dinodes: seq<Inode>, d': Disk)
    requires Stored(sb, d, dinodes) && |d'| == |d|
    requires forall x {:trigger d'[x]} :: sb.inodestart <= x < sb.bmapstart ==> d'[x] == d[x]
    ensures Stored(sb, d', dinodes)
  {
    forall i | 0 <= i < |dinodes| ensures InodeStored(sb, d', dinodes, i) {
      assert InodeStored(sb, d, dinodes, i);
      InodeBelow(sb, d, i);
      SameInodeBlock(sb, d, d', dinodes, i);
    }
  }

  lemma OtherInode(sb: Super, i: nat, j: nat)
    requires IBlock(sb, i) == IBlock(sb, j) && i != j
    ensures i % IPB != j % IPB
  {
  }

  /** iupdate and ialloc replace exactly one inode on the disk. */
  lemma StoredInode(sb: Super, d: Disk, dinodes: seq<Inode>, i: nat, ino: Inode, d': Disk, dinodes': seq<Inode>)
    requires Stored(sb, d, dinodes) && i < |dinodes| && d' == InodeWritten(sb, d, i, ino)
    requires dinodes' == dinodes[i := ino]
    ensures Stored(sb, d', dinodes')
  {
    forall j | 0 <= j < |dinodes'| ensures InodeStored(sb, d', dinodes', j) {
      assert InodeStored(sb, d, dinodes, j);
      InodeBelow(sb, d, j);
      InodeAfterWrite(sb, d, i, ino, d', j);
    }
  }

  lemma InodeAfterWrite(sb: Super, d: Disk, i: nat, ino: Inode, d': Disk, j: nat)
    requires SuperOk(sb, d) && i < sb.ninodes && j < sb.ninodes && d' == InodeWritten(sb, d, i, ino)
    ensures GetInode(d'[IBlock(sb, j)], j % IPB) == if j == i then ino else GetInode(d[IBlock(sb, j)], j % IPB)
  {
    var x, y := IBlock(sb, i), IBlock(sb, j);
    if x == y && j != i {
      OtherInode(sb, i, j);
    }
    InodeAfter(d, x, y, i % IPB, j % IPB, ino, d');
  }

  lemma InodeAfter(d: Disk, x: nat, y: nat, s: nat, t: nat, ino: Inode, d': Disk)
    requires x < |d| && y < |d| && s < IPB && t < IPB && d' == d[x := PutInode(d[x], s, ino)]
    ensures GetInode(d'[y], t) == if x == y && s == t then ino else GetInode(d[y], t)
  {
  }

  /** Writing an inode block changes no ownership and no file. */
  lemma InodeWriteKeeps(sb: Super, d: Disk, it: seq<Inode>, ow: Owner, i: nat, ino: Inode, d': Disk)
    requires Ownership(sb, d, it, ow, {}) && i < sb.ninodes && d' == InodeWritten(sb, d, i, ino)
    requires forall j {:trigger InodeOk(d, it[j])} :: 0 <= j < |it| ==> InodeOk(d, it[j])
    ensures Ownership(sb, d', it, ow, {})
    ensures forall j {:trigger InodeOk(d', it[j])} {:trigger Contents(d', it[j])} :: 0 <= j < |it| ==>
              InodeOk(d', it[j]) && Contents(d', it[j]) == Contents(d, it[j])
  {
    InodeBelow(sb, d, i);
    SameOwnership(sb, d, it, ow, d');
    forall j | 0 <= j < |it| ensures InodeOk(d', it[j]) && Contents(d', it[j]) == Contents(d, it[j]) {
      assert InodeOk(d, it[j]);
      SameDataFile(sb, d, it, ow, {}, d', j);
    }
  }

  /** The disk of a file system, the inodes on it and who owns its blocks. */
  datatype Snapshot = Snapshot(disk: Disk, dinodes: seq<Inode>, owner: Owner)

  /** A consistent image: one that can be mounted. */
  ghost predicate Sound(sb: Super, s: Snapshot) {
    && Ownership(sb, s.disk, s.dinodes, s.owner, {}) && Stored(sb, s.disk, s.dinodes)
    && forall i {:trigger InodeOk(s.disk, s.dinodes[i])} :: 0 <= i < |s.dinodes| ==> InodeOk(s.disk, s.dinodes[i])
  }

  /** A disk that marks exactly its metadata and whose inode blocks are zero is consistent: what mkfs starts from. */
  lemma EmptyFileSystem(sb: Super, d: Disk, itable: seq<Inode>)
    requires SuperOk(sb, d) && forall b :: 0 <= b < sb.size ==> (Used(sb, d, b) <==> b < sb.datastart)
    requires forall x :: sb.inodestart <= x < sb.bmapstart ==> d[x] == ZeroBlock()
    requires |itable| == sb.ninodes && forall i :: 0 <= i < |itable| ==> itable[i] == FREE_INODE
    ensures Sound(sb, Snapshot(d, itable, map[]))
  {
    forall i, k | 0 <= i < |itable| && 0 <= k < NSLOTS ensures Claims(d, itable, map[], i, k) {
      assert itable[i] == FREE_INODE;
    }
    forall i | 0 <= i < |itable| ensures InodeStored(sb, d, itable, i) {
      InodeBelow(sb, d, i);
      EmptyInode(sb, d, itable, i);
    }
  }

  lemma EmptyInode(sb: Super, d: Disk, itable: seq<Inode>, i: nat)
    requires SuperOk(sb, d) && i < |itable| == sb.ninodes && itable[i] == FREE_INODE && d[IBlock(sb, i)] == ZeroBlock()
    ensures InodeStored(sb, d, itable, i)
  {
    ZeroInode(i % IPB);
  }

  lemma SameAddr(sb: Super, d: Disk, it: seq<Inode>, ow: Owner, d': Disk, j: nat, k: nat)
    requires Ownership(sb, d, it, ow, {}) && j < |it| && k < NSLOTS && |d'| == |d|
    requires forall x {:trigger d'[x]} :: sb.datastart <= x < |d| ==> d'[x] == d[x]
    ensures Addr(d', it[j], k) == Addr(d, it[j], k)
  {
    var ind := it[j].addrs[NDIRECT];
    assert Claims(d, it, ow, j, NDIRECT);
    if ind != 0 {
      assert Placed(sb, d, it, ow, ind);
    }
  }

  lemma SameMark(sb: Super, d: Disk, d': Disk, b: nat)
    requires SuperOk(sb, d) && |d'| == |d| && b < sb.size
    requires forall x {:trigger d'[x]} :: sb.bmapstart <= x < |d| ==> d'[x] == d[x]
    ensures Used(sb, d', b) == Used(sb, d, b)
  {
    assert sb.bmapstart <= BBlock(sb, b) < sb.datastart;
  }

  /** The same blocks from the bitmap on mean the same ownership. */
  lemma SameOwnership(sb: Super, d: Disk, it: seq<Inode>, ow: Owner, d': Disk)
    requires Ownership(sb, d, it, ow, {}) && |d'| == |d|
    requires forall x {:trigger d'[x]} :: sb.bmapstart <= x < |d| ==> d'[x] == d[x]
    ensures Ownership(sb, d', it, ow, {})
  {
    forall j, k | 0 <= j < |it| && 0 <= k < NSLOTS ensures Claims(d', it, ow, j, k) {
      assert Claims(d, it, ow, j, k);
      SameAddr(sb, d, it, ow, d', j, k);
    }
    forall b | b in ow ensures Placed(sb, d', it, ow, b) {
      assert Placed(sb, d, it, ow, b);
      SameAddr(sb, d, it, ow, d', ow[b].inum, ow[b].slot);
    }
    forall b | 0 <= b < sb.size ensures Marked(sb, d', ow, {}, b) {
      assert Marked(sb, d, ow, {}, b);
      SameMark(sb, d, d', b);
    }
  }

  /** The same blocks from the data area on mean the same files. */
  lemma SameContents(sb: Super, s: Snapshot, d: Disk, j: nat)
    requires Sound(sb, s) && |d| == |s.disk| && j < |s.dinodes|
    requires forall x :: sb.datastart <= x < |d| ==> d[x] == s.disk[x]
    ensures InodeOk(d, s.dinodes[j]) && Contents(d, s.dinodes[j]) == Contents(s.disk, s.dinodes[j])
  {
    assert InodeOk(s.disk, s.dinodes[j]);
    SameDataFile(sb, s.disk, s.dinodes, s.owner, {}, d, j);
  }

  /** A disk that agrees from the inode blocks on holds the same file system, with the same contents in every file. */
  lemma SameFileSystem(sb: Super, s: Snapshot, d: Disk)
    requires Sound(sb, s) && |d| == |s.disk| && forall x :: sb.inodestart <= x < |d| ==> d[x] == s.disk[x]
    ensures Sound(sb, s.(disk := d))
    ensures forall i {:trigger Contents(d, s.dinodes[i])} :: 0 <= i < |s.dinodes| ==>
              Contents(d, s.dinodes[i]) == Contents(s.disk, s.dinodes[i])
  {
    SameOwnership(sb, s.disk, s.dinodes, s.owner, d);
    StoredElsewhere(sb, s.disk, s.dinodes, d);
    forall j | 0 <= j < |s.dinodes|
      ensures InodeOk(d, s.dinodes[j]) && Contents(d, s.dinodes[j]) == Contents(s.disk, s.dinodes[j])
    {
      SameContents(sb, s, d, j);
    }
  }

  /** Disk r holds file system s: its inodes, its ownership, and the contents of each of its files. */
  ghost predicate Holds(sb: Super, r: Disk, s: Snapshot) {
    && Sound(sb, s.(disk := r))
    && forall i {:trigger Contents(r, s.dinodes[i])} :: 0 <= i < |s.dinodes| ==>
         Contents(r, s.dinodes[i]) == Contents(s.disk, s.dinodes[i])
  }

  predicate SameFrom(lo: nat, d: Disk, d': Disk) {
    |d'| == |d| && forall b {:trigger d'[b]} :: lo <= b < |d| ==> d'[b] == d[b]
  }

  /** And so does a disk that agrees with one that holds it, from the inode blocks on. */
  lemma HoldsAgain(sb: Super, c: Disk, r: Disk, s: Snapshot)
    requires Holds(sb, c, s) && SameFrom(sb.inodestart, c, r)
    ensures Holds(sb, r, s)
  {
    SameFileSystem(sb, s.(disk := c), r);
    forall i | 0 <= i < |s.dinodes| ensures Contents(r, s.dinodes[i]) == Contents(s.disk, s.dinodes[i]) {
      assert Contents(r, s.dinodes[i]) == Contents(c, s.dinodes[i]);
    }
  }

  // ------------------------------------------------------------ what the operation logs

  /** The blocks that a sequence of log_write calls names. */
  function Blocks(ws: seq<RedoLog.Write>): (s: set<nat>)
    ensures forall k {:trigger ws[k]} :: 0 <= k < |ws| ==> ws[k].blockno in s
  {
    if ws == [] then {} else Blocks(ws[..|ws| - 1]) + {ws[|ws| - 1].blockno}
  }

  /** A block owned now was owned when the operation began, or it and its bitmap block are logged. */
  predicate NewKept(sb: Super, base: Owner, ow: Owner, logged: set<nat>, b: nat) {
    b in ow ==> b in base || (b in logged && BBlock(sb, b) in logged)
  }

  /**
   The operation began on the consistent image `base`; the disk is what its log_write
   calls, in order, made of it, and all of them name blocks past the log region.
   */
  ghost predicate Recorded(sb: Super, base: Snapshot, d: Disk, ow: Owner, logged: set<nat>, trace: seq<RedoLog.Write>) {
    && RedoLog.InRange(base.disk, trace) && d == RedoLog.Apply(base.disk, trace)
    && logged == Blocks(trace) && (forall b {:trigger b in logged} :: b in logged ==> sb.inodestart <= b)
    && (forall b {:trigger NewKept(sb, base.owner, ow, logged, b)} :: b in ow ==>
          NewKept(sb, base.owner, ow, logged, b))
  }

  /** A block is changed and logged. */
  lemma RecordWrite(sb: Super, base: Snapshot, d: Disk, ow: Owner, logged: set<nat>, trace: seq<RedoLog.Write>,
                    x: nat, blk: Block, d': Disk, logged': set<nat>, trace': seq<RedoLog.Write>)
    requires Recorded(sb, base, d, ow, logged, trace) && sb.inodestart <= x < |d| && d' == d[x := blk]
    requires logged' == logged + {x} && trace' == trace + [RedoLog.Write(x, blk)]
    ensures Recorded(sb, base, d', ow, logged', trace')
  {
    RedoLog.ApplyOne(base.disk, trace, RedoLog.Write(x, blk));
    assert trace'[..|trace'| - 1] == trace;
    forall b | b in ow ensures NewKept(sb, base.owner, ow, logged', b) {
      assert NewKept(sb, base.owner, ow, logged, b);
    }
  }

  /** The state an operation works in: its writes are recorded and the inode blocks hold the inodes. */
  ghost predicate Journaled(sb: Super, base: Snapshot, d: Disk, ow: Owner, logged: set<nat>, trace: seq<RedoLog.Write>,
                            dinodes: seq<Inode>) {
    Recorded(sb, base, d, ow, logged, trace) && Stored(sb, d, dinodes)
  }

  /** A block past the inode blocks is changed and logged. */
  lemma JournalWrite(sb: Super, base: Snapshot, d: Disk, ow: Owner, logged: set<nat>, trace: seq<RedoLog.Write>,
                     dinodes: seq<Inode>, x: nat, blk: Block, d': Disk, logged': set<nat>, trace': seq<RedoLog.Write>)
    requires Journaled(sb, base, d, ow, logged, trace, dinodes) && sb.bmapstart <= x < |d| && d' == d[x := blk]
    requires logged' == logged + {x} && trace' == trace + [RedoLog.Write(x, blk)]
    ensures Journaled(sb, base, d', ow, logged', trace', dinodes)
  {
    RecordWrite(sb, base, d, ow, logged, trace, x, blk, d', logged', trace');
    StoredElsewhere(sb, d, dinodes, d');
  }

  /** An inode is stored in its block, and the block is logged. */
  lemma JournalInode(sb: Super, base: Snapshot, d: Disk, ow: Owner, logged: set<nat>, trace: seq<RedoLog.Write>,
                     dinodes: seq<Inode>, i: nat, ino: Inode, d': Disk, logged': set<nat>, trace': seq<RedoLog.Write>)
    requires Journaled(sb, base, d, ow, logged, trace, dinodes) && i < |dinodes| && d' == InodeWritten(sb, d, i, ino)
    requires logged' == logged + {IBlock(sb, i)}
    requires trace' == trace + [RedoLog.Write(IBlock(sb, i), d'[IBlock(sb, i)])]
    ensures Journaled(sb, base, d', ow, logged', trace', dinodes[i := ino])
  {
    InodeBelow(sb, d, i);
    RecordWrite(sb, base, d, ow, logged, trace, IBlock(sb, i), d'[IBlock(sb, i)], d', logged', trace');
    StoredInode(sb, d, dinodes, i, ino, d', dinodes[i := ino]);
  }

  /** A block that was allocated and logged gets an owner. */
  lemma RecordOwner(sb: Super, base: Snapshot, d: Disk, ow: Owner, logged: set<nat>, trace: seq<RedoLog.Write>,
                    b: nat, place: Place, ow': Owner)
    requires Recorded(sb, base, d, ow, logged, trace) && ow' == ow[b := place] && b in logged && BBlock(sb, b) in logged
    ensures Recorded(sb, base, d, ow', logged, trace)
  {
    forall c | c in ow' ensures NewKept(sb, base.owner, ow', logged, c) {
      assert c != b ==> NewKept(sb, base.owner, ow, logged, c);
    }
  }

  /** Blocks that lose their owner need no record for it. */
  lemma RecordFewer(sb: Super, base: Snapshot, d: Disk, ow: Owner, logged: set<nat>, trace: seq<RedoLog.Write>,
                    ow': Owner)
    requires Recorded(sb, base, d, ow, logged, trace) && ow'.Keys <= ow.Keys
    ensures Recorded(sb, base, d, ow', logged, trace)
  {
    forall c | c in ow' ensures NewKept(sb, base.owner, ow', logged, c) {
      assert NewKept(sb, base.owner, ow, logged, c);
    }
  }

  lemma RecordStart(sb: Super, base: Snapshot)
    ensures Recorded(sb, base, base.disk, base.owner, {}, [])
  {
  }
}
