/**
 The inode layer of fs.c, running on the logical disk that the cache and the log
 provide. `itable` holds the in-memory inodes; the inode blocks of the disk hold
 what iupdate last wrote, which is `dinodes`. `trace` hands the log_write calls on to
 the log. For the specification only, `owner` records which slot each data block
 belongs to, and `logged` the blocks that were logged.
 */
module Fs {
  import opened Bytes
  import opened Bitmap
  import opened Dinode
  import opened Params
  import opened FsModel
  import opened Sets
  import opened Space
  import RedoLog

  /** balloc's inner loop: the first clear bit below a limit. */
  method FirstClear(bp: Block, limit: nat) returns (bi: nat)
    requires limit <= BPB
    ensures bi <= limit && forall j :: 0 <= j < bi ==> BitAt(bp, j)
    ensures bi < limit ==> !BitAt(bp, bi)
  {
    bi := 0;
    while bi < limit
      invariant bi <= limit && forall j :: 0 <= j < bi ==> BitAt(bp, j)
    {
      if !BitAt(bp, bi) {
        return;
      }
      bi := bi + 1;
    }
  }

  lemma SameBitmapBlock(sb: Super, d: Disk, b: nat, bi: nat)
    requires SuperOk(sb, d) && b % BPB == 0 && bi < BPB && b + bi < sb.size
    ensures BBlock(sb, b + bi) == BBlock(sb, b) && (b + bi) % BPB == bi
    ensures Used(sb, d, b + bi) == BitAt(d[BBlock(sb, b)], bi)
  {
  }

  /** Every block below n is in use. */
  predicate AllUsed(sb: Super, d: Disk, n: nat)
    requires SuperOk(sb, d) && n <= sb.size
  {
    forall c :: 0 <= c < n ==> Used(sb, d, c)
  }

  lemma MetadataMarked(sb: Super, d: Disk, it: seq<Inode>, ow: Owner)
    requires Ownership(sb, d, it, ow, {})
    ensures AllUsed(sb, d, sb.datastart)
  {
    forall b | 0 <= b < sb.datastart ensures Used(sb, d, b) {
      assert Marked(sb, d, ow, {}, b);
    }
  }

  /** Bits 0 .. n of a bitmap block that starts at block b are the marks of b .. b + n. */
  lemma ScannedBits(sb: Super, d: Disk, b: nat, n: nat)
    requires SuperOk(sb, d) && b % BPB == 0 && n <= BPB && b + n <= sb.size && b < sb.size
    requires AllUsed(sb, d, b) && forall j :: 0 <= j < n ==> BitAt(d[BBlock(sb, b)], j)
    ensures AllUsed(sb, d, b + n)
  {
    forall c | b <= c < b + n ensures Used(sb, d, c) {
      SameBitmapBlock(sb, d, b, c - b);
    }
  }

  class Fs {
    const sb: Super
    var disk: Disk
    var itable: seq<Inode>
    var trace: seq<RedoLog.Write>     // the log_write calls of the transaction, with what they log
    var dirty: map<nat, Block>        // buffers that a failed copy has changed and nothing has logged
    ghost var dinodes: seq<Inode>
    ghost var owner: Owner
    ghost var logged: set<nat>
    ghost var base: Snapshot      // the file system when the transaction began
    ghost var mark: seq<RedoLog.Write>    // the log_write calls before the current operation

    /** Exclusive block ownership; and the disk changed by logged writes only. */
    ghost predicate Consistent()
      reads this
    {
      Ownership(sb, disk, itable, owner, {}) && |itable| == |dinodes| && AllLogged()
    }

    /** And what buffers hold is what was logged. */
    ghost predicate Owned()
      reads this
    {
      Consistent() && dirty == map[]
    }

    ghost predicate AllLogged()
      reads this
    {
      && Journaled(sb, base, disk, owner, logged, trace, dinodes) && mark <= trace
      && forall b :: b in dirty ==> sb.datastart <= b
    }

    /** Between operations: owned blocks, files without holes, and inodes written back. */
    ghost predicate Settled()
      reads this
    {
      && Consistent()
      && (forall i {:trigger InodeOk(disk, itable[i])} :: 0 <= i < |itable| ==> InodeOk(disk, itable[i]))
      && dinodes == itable
    }

    ghost predicate Valid()
      reads this
    {
      Settled() && dirty == map[]
    }

    ghost predicate Full()
      reads this
      requires SuperOk(sb, disk)
    {
      forall b :: 0 <= b < sb.size ==> Used(sb, disk, b)
    }

    /** Mounting a consistent image. */
    constructor (sb: Super, disk: Disk, inodes: seq<Inode>, ghost owner: Owner)
      requires Sound(sb, Snapshot(disk, inodes, owner))
      ensures Valid() && base == Snapshot(disk, inodes, owner)
      ensures this.sb == sb && this.disk == disk && itable == inodes && this.owner == owner && logged == {}
    {
      this.sb, this.disk, itable, trace, dirty := sb, disk, inodes, [], map[];
      this.owner, dinodes, logged, base := owner, inodes, {}, Snapshot(disk, inodes, owner);
      mark := [];
      new;
      RecordStart(sb, base);
    }

    /** A new transaction has logged nothing. */
    method BeginOp()
      requires Valid()
      modifies this`logged, this`trace, this`base, this`mark
      ensures Valid() && logged == {} && trace == [] && base == Snapshot(disk, itable, owner)
    {
      trace, mark := [], [];
      logged, base := {}, Snapshot(disk, dinodes, owner);
      RecordStart(sb, base);
    }

    /** An operation joins the open transaction. */
    ghost method JoinOp()
      requires Valid()
      modifies this`mark
      ensures Valid() && mark == trace
    {
      mark := trace;
    }

    /** A buffer past the inode blocks is changed and passed to log_write. */
    method LogWrite(x: nat, blk: Block)
      requires AllLogged() && sb.bmapstart <= x < |disk|
      modifies this`disk, this`logged, this`trace
      ensures AllLogged() && disk == old(disk)[x := blk] && logged == old(logged) + {x}
      ensures trace == old(trace) + [RedoLog.Write(x, blk)]
    {
      disk := disk[x := blk];
      logged := logged + {x};
      trace := trace + [RedoLog.Write(x, blk)];
      JournalWrite(sb, base, old(disk), owner, old(logged), old(trace), dinodes, x, blk, disk, logged, trace);
    }

    /** balloc's inner loop: the first free block from b, or the end of b's bitmap block. */
    method ScanBlock(b: nat) returns (r: nat)
      requires SuperOk(sb, disk) && b % BPB == 0 && b < sb.size && AllUsed(sb, disk, b)
      ensures b <= r <= Min(b + BPB, sb.size) && AllUsed(sb, disk, r)
      ensures r < Min(b + BPB, sb.size) ==> !Used(sb, disk, r)
    {
      var limit := Min(sb.size - b, BPB);
      var bi := FirstClear(disk[BBlock(sb, b)], limit);
      ScannedBits(sb, disk, b, bi);
      if bi < limit {
        SameBitmapBlock(sb, disk, b, bi);
      }
      r := b + bi;
    }

    /** balloc's search: the lowest free block, or sb.size. */
    method FindFree() returns (r: nat)
      requires SuperOk(sb, disk)
      ensures r <= sb.size && AllUsed(sb, disk, r)
      ensures r < sb.size ==> !Used(sb, disk, r)
    {
      r := 0;
      while r < sb.size
        invariant r <= sb.size && AllUsed(sb, disk, r) && (r % BPB == 0 || r == sb.size)
      {
        var b := r;
        r := ScanBlock(b);
        if r < Min(b + BPB, sb.size) {
          return;
        }
      }
    }

    /** The lowest free block, marked and zeroed; 0 when every block is in use. */
    method Balloc() returns (r: nat)
      requires AllLogged() && AllUsed(sb, disk, sb.datastart)
      modifies this`disk, this`logged, this`trace
      ensures AllLogged() && (r == 0 ==> unchanged(this))
      ensures r == 0 <==> forall b :: 0 <= b < sb.size ==> Used(sb, old(disk), b)
      ensures r != 0 ==> r < sb.size && !Used(sb, old(disk), r) && forall b :: 0 <= b < r ==> Used(sb, old(disk), b)
      ensures r != 0 ==> disk == Allocated(sb, old(disk), r) && logged == old(logged) + {BBlock(sb, r), r}
    {
      r := FindFree();
      if r == sb.size {
        return 0;
      }
      MarkBlock(r);
      LogWrite(r, ZeroBlock());
    }

    method MarkBlock(r: nat)
      requires AllLogged() && r < sb.size
      modifies this`disk, this`logged, this`trace
      ensures AllLogged() && disk == SetUsed(sb, old(disk), r, true) && logged == old(logged) + {BBlock(sb, r)}
    {
      LogWrite(BBlock(sb, r), PutBit(disk[BBlock(sb, r)], r % BPB, true));
    }

    /** Clears the bit of b; "freeing free block" when it is already clear. */
    method Bfree(b: nat) returns (ok: bool)
      requires AllLogged() && b < sb.size
      modifies this`disk, this`logged, this`trace
      ensures AllLogged() && (ok <==> Used(sb, old(disk), b))
      ensures ok ==> disk == SetUsed(sb, old(disk), b, false) && logged == old(logged) + {BBlock(sb, b)}
      ensures !ok ==> unchanged(this)
    {
      var bp := disk[BBlock(sb, b)];
      var bi := b % BPB;
      if !BitAt(bp, bi) {
        return false;
      }
      LogWrite(BBlock(sb, b), PutBit(bp, bi, false));
      return true;
    }

    /** balloc into an empty slot of ip->addrs. */
    method BallocInto(i: nat, k: nat) returns (addr: nat)
      requires Owned() && i < |itable| && k <= NDIRECT && itable[i].addrs[k] == 0
      modifies this`disk, this`itable, this`owner, this`logged, this`trace
      ensures Owned() && Grown(old(disk), old(itable), old(owner), disk, itable, owner, i)
      ensures addr == itable[i].addrs[k]
      ensures forall l :: 0 <= l < NSLOTS && l != k ==> Addr(disk, itable[i], l) == Addr(old(disk), old(itable)[i], l)
      ensures addr == 0 ==> Full() && unchanged(this)
      ensures addr != 0 ==> logged == old(logged) + {addr, BBlock(sb, addr)}
    {
      MetadataMarked(sb, disk, itable, owner);
      addr := Balloc();
      if addr == 0 {
        return;
      }
      RecordOwner(sb, base, disk, owner, logged, trace, addr, Place(i, k), owner[addr := Place(i, k)]);
      itable := itable[i := SetAddr(itable[i], k, addr)];
      owner := owner[addr := Place(i, k)];
      GrowDirect(sb, old(disk), old(itable), old(owner), i, k, addr, disk, itable, owner);
    }

    /** The entry of the indirect block, allocated if it is empty. */
    method BmapEntry(i: nat, e: nat) returns (addr: nat)
      requires Owned() && i < |itable| && e < NINDIRECT && itable[i].addrs[NDIRECT] != 0
      modifies this`disk, this`owner, this`logged, this`trace
      ensures Owned() && Grown(old(disk), old(itable), old(owner), disk, itable, owner, i)
      ensures addr == Addr(disk, itable[i], NDIRECT + 1 + e)
      ensures addr == 0 ==> Full()
      ensures Addr(old(disk), itable[i], NDIRECT + 1 + e) != 0 || addr == 0 ==> unchanged(this)
      ensures Addr(old(disk), itable[i], NDIRECT + 1 + e) == 0 && addr != 0 ==> addr in logged
      ensures old(logged) <= logged <= old(logged) + Logs(sb, addr) + {itable[i].addrs[NDIRECT]}
      ensures forall l {:trigger Addr(disk, itable[i], l)} :: 0 <= l < NSLOTS && l != NDIRECT + 1 + e ==>
                Addr(disk, itable[i], l) == Addr(old(disk), itable[i], l)
    {
      var ind := itable[i].addrs[NDIRECT];
      assert Claims(disk, itable, owner, i, NDIRECT) && Placed(sb, disk, itable, owner, ind);
      addr := GetWord(disk[ind], e);
      if addr == 0 {
        addr := BallocEntry(i, e, ind);
      } else {
        GrownRefl(disk, itable, owner, i);
      }
    }

    /** balloc into an empty entry of the indirect block. */
    method BallocEntry(i: nat, e: nat, ind: nat) returns (addr: nat)
      requires Owned() && i < |itable| && e < NINDIRECT && ind == itable[i].addrs[NDIRECT] && 0 < ind < |disk|
      requires sb.datastart <= ind && Addr(disk, itable[i], NDIRECT + 1 + e) == 0
      modifies this`disk, this`owner, this`logged, this`trace
      ensures Owned() && Grown(old(disk), old(itable), old(owner), disk, itable, owner, i)
      ensures addr == Addr(disk, itable[i], NDIRECT + 1 + e)
      ensures addr == 0 ==> Full() && unchanged(this)
      ensures addr != 0 ==> logged == old(logged) + {BBlock(sb, addr), addr} + {ind}
      ensures forall l {:trigger Addr(disk, itable[i], l)} :: 0 <= l < NSLOTS && l != NDIRECT + 1 + e ==>
                Addr(disk, itable[i], l) == Addr(old(disk), itable[i], l)
    {
      MetadataMarked(sb, disk, itable, owner);
      addr := Balloc();
      if addr == 0 {
        GrownRefl(disk, itable, owner, i);
        return;
      }
      AttachEntry(i, e, ind, addr, old(disk));
    }

    /** Block r, just allocated on disk d, becomes entry e of the indirect block. */
    method AttachEntry(i: nat, e: nat, ind: nat, r: nat, ghost d: Disk)
      requires AllLogged() && dirty == map[] && |itable| == |dinodes| && Ownership(sb, d, itable, owner, {})
      requires i < |itable| && e < NINDIRECT && ind == itable[i].addrs[NDIRECT] && 0 < ind < |d| && sb.datastart <= ind
      requires Addr(d, itable[i], NDIRECT + 1 + e) == 0 && 0 < r < sb.size && !Used(sb, d, r)
      requires disk == Allocated(sb, d, r) && r in logged && BBlock(sb, r) in logged
      modifies this`disk, this`owner, this`logged, this`trace
      ensures Owned() && Grown(d, itable, old(owner), disk, itable, owner, i)
      ensures r == Addr(disk, itable[i], NDIRECT + 1 + e) && logged == old(logged) + {ind}
      ensures forall l {:trigger Addr(disk, itable[i], l)} :: 0 <= l < NSLOTS && l != NDIRECT + 1 + e ==>
                Addr(disk, itable[i], l) == Addr(d, itable[i], l)
    {
      ghost var d1, ow1 := disk, owner;
      LogWrite(ind, PutWord(disk[ind], e, r));
      owner := owner[r := Place(i, NDIRECT + 1 + e)];
      RecordOwner(sb, base, disk, ow1, logged, trace, r, Place(i, NDIRECT + 1 + e), owner);
      GrowEntry(sb, d, itable, ow1, i, e, r, d1, disk, owner);
    }

    /** bmap beyond the direct blocks. */
    method BmapIndirect(i: nat, e: nat) returns (addr: nat)
      requires Owned() && i < |itable| && e < NINDIRECT
      modifies this`disk, this`itable, this`owner, this`logged, this`trace
      ensures Owned() && Grown(old(disk), old(itable), old(owner), disk, itable, owner, i)
      ensures addr == Addr(disk, itable[i], NDIRECT + 1 + e)
      ensures addr == 0 ==> Full()
      ensures if Addr(old(disk), old(itable)[i], NDIRECT + 1 + e) != 0 then unchanged(this)
              else addr != 0 ==> addr in logged
      ensures old(logged) <= logged <= old(logged) + Logs(sb, addr) + IndirectBlocks(sb, itable[i])
      ensures OnlySlots(old(disk), old(itable)[i], disk, itable[i], NDIRECT + e)
    {
      GrownRefl(disk, itable, owner, i);
      addr := itable[i].addrs[NDIRECT];
      if addr == 0 {
        addr := BallocInto(i, NDIRECT);
        if addr == 0 {
          return;
        }
      }
      ghost var d1, it1, ow1 := disk, itable, owner;
      addr := BmapEntry(i, e);
      GrownTrans(old(disk), old(itable), old(owner), d1, it1, ow1, disk, itable, owner, i);
    }

    /**
     The address of file block bn, allocating it, and the indirect block, if there is
     none; 0 only when the disk is full. Nothing that was mapped moves.
     */
    method Bmap(i: nat, bn: nat) returns (addr: nat)
      requires Owned() && i < |itable| && bn < MAXFILE
      modifies this`disk, this`itable, this`owner, this`logged, this`trace
      ensures Owned() && Grown(old(disk), old(itable), old(owner), disk, itable, owner, i)
      ensures addr == Addr(disk, itable[i], Slot(bn))
      ensures addr == 0 ==> Full()
      ensures if Addr(old(disk), old(itable)[i], Slot(bn)) != 0 then unchanged(this) else addr != 0 ==> addr in logged
      ensures old(logged) <= logged <= old(logged) + Logs(sb, addr) + IndirectBlocks(sb, itable[i])
      ensures OnlySlots(old(disk), old(itable)[i], disk, itable[i], bn)
    {
      if bn < NDIRECT {
        addr := itable[i].addrs[bn];
        if addr == 0 {
          addr := BallocInto(i, bn);
        } else {
          GrownRefl(disk, itable, owner, i);
        }
      } else {
        addr := BmapIndirect(i, bn - NDIRECT);
      }
    }

    /** bmap in the loop of writei: what has been written stays, and only slots of file block bn are filled. */
    method MapBlock(i: nat, off0: nat, src: seq<Byte>, tot: nat, bn: nat, hi: nat, ghost d0: Disk,
                    ghost it0: seq<Inode>)
      returns (a: nat)
      requires Owned() && Progress(d0, it0, disk, itable, i, off0, src, tot) && bn < MAXFILE && hi == bn + 1
      modifies this`disk, this`itable, this`owner, this`logged, this`trace
      ensures Owned() && Progress(d0, it0, disk, itable, i, off0, src, tot)
      ensures OwnersKept(old(owner), owner) && old(logged) <= logged
      ensures IndirectBlocks(sb, old(itable)[i]) <= IndirectBlocks(sb, itable[i])
      ensures Slots(old(disk), old(itable), disk, itable, i, bn, hi)
      ensures a == Addr(disk, itable[i], Slot(bn)) && (a == 0 ==> Full())
      ensures var had := HasBlock(old(disk), old(itable)[i], bn);
              && logged <= old(logged) + {a} + NewMap(sb, had, a) + IndirectBlocks(sb, itable[i])
              && (if had then a != 0 && unchanged(this) else a != 0 ==> a in logged)
    {
      a := Bmap(i, bn);
      ProgressGrown(sb, d0, it0, old(disk), old(itable), old(owner), disk, itable, owner, i, off0, src, tot);
      IndirectGrown(sb, old(disk), old(itable), old(owner), disk, itable, owner, i);
      BmapSlots(old(disk), old(itable), old(owner), disk, itable, owner, i, bn, hi);
    }

    /**
     One turn of writei's loop: from tot bytes written to `next`, within one block, or no further
     because the disk is full or because byte `fault` of src cannot be copied in. The bytes before
     that one have been copied into the buffer, which is not logged.
     */
    method WriteOne(i: nat, off0: nat, src: seq<Byte>, tot: nat, bn: nat, hi: nat, fault: nat, ghost d0: Disk,
                    ghost it0: seq<Inode>)
      returns (next: nat, ghost addr: nat)
      requires Owned() && Progress(d0, it0, disk, itable, i, off0, src, tot)
      requires tot < |src| && off0 <= it0[i].size && off0 + |src| <= MAXFILE * BSIZE
      requires bn == (off0 + tot) / BSIZE && hi == bn + 1
      modifies this`disk, this`itable, this`owner, this`logged, this`trace, this`dirty
      ensures Consistent() && Progress(d0, it0, disk, itable, i, off0, src, next)
      ensures OwnersKept(old(owner), owner) && old(logged) <= logged
      ensures IndirectBlocks(sb, old(itable)[i]) <= IndirectBlocks(sb, itable[i])
      ensures next == tot || next == tot + Min(|src| - tot, BSIZE - (off0 + tot) % BSIZE)
      ensures next != tot ==> dirty == map[] && !(tot <= fault < next)
      ensures Slots(old(disk), old(itable), disk, itable, i, bn, hi)
      ensures addr == Addr(disk, itable[i], Slot(bn))
      ensures var had := HasBlock(old(disk), old(itable)[i], bn);
              && logged <= old(logged) + {addr} + NewMap(sb, had, addr) + IndirectBlocks(sb, itable[i])
              && (next == tot ==>
                    || Stopped(disk, itable[i], off0, src, tot, fault, dirty)
                    || (Full() && dirty == map[] && !had && !HasBlock(disk, itable[i], bn)))
              && (next != tot ==> addr in logged && (had ==> addr in old(owner)))
              && InLog(dirty, old(logged), logged, had)
              && (had && next == tot ==> disk == old(disk) && itable == old(itable))
    {
      var a := MapBlock(i, off0, src, tot, bn, hi, d0, it0);
      addr := a;
      if a == 0 {
        return tot, 0;
      }
      ghost var d1, it1 := disk, itable;
      next := CopyStep(i, off0, src, tot, fault, a, (off0 + tot) % BSIZE, d0, it0);
      SlotsSame(old(disk), old(itable), d1, it1, disk, itable, i, bn, hi);
    }

    /** The copy of one turn, to byte `at` of block a. */
    method CopyStep(i: nat, off0: nat, src: seq<Byte>, tot: nat, fault: nat, a: nat, at: nat, ghost d0: Disk,
                    ghost it0: seq<Inode>)
      returns (next: nat)
      requires Owned() && Progress(d0, it0, disk, itable, i, off0, src, tot) && tot < |src|
      requires off0 <= it0[i].size && at == (off0 + tot) % BSIZE
      requires HasBlock(disk, itable[i], (off0 + tot) / BSIZE)
      requires a == Addr(disk, itable[i], Slot((off0 + tot) / BSIZE))
      modifies this`disk, this`logged, this`trace, this`dirty
      ensures Consistent() && Progress(d0, it0, disk, itable, i, off0, src, next) && a in owner
      ensures SameSlots(old(disk), itable, disk, itable)
      ensures if tot <= fault < tot + Min(|src| - tot, BSIZE - at) then
                && next == tot && Stopped(disk, itable[i], off0, src, tot, fault, dirty)
                && disk == old(disk) && logged == old(logged) && forall b :: b in dirty ==> b == a
              else next == tot + Min(|src| - tot, BSIZE - at) && dirty == map[] && logged == old(logged) + {a}
    {
      var m := Min(|src| - tot, BSIZE - at);
      next := tot + m;
      if tot <= fault < next {
        CopyFails(i, off0, src, tot, fault, a, at);
        return tot;
      }
      CopyIn(i, off0, src, tot, m, next, a, at, d0, it0);
    }

    /** A copy that fails at byte `fault`: the bytes before it are in the buffer of block a. */
    method CopyFails(i: nat, off0: nat, src: seq<Byte>, tot: nat, fault: nat, a: nat, at: nat)
      requires Owned() && i < |itable| && tot <= fault < |src|
      requires at == (off0 + tot) % BSIZE && at + (fault - tot) < BSIZE
      requires HasBlock(disk, itable[i], (off0 + tot) / BSIZE)
      requires a == Addr(disk, itable[i], Slot((off0 + tot) / BSIZE))
      modifies this`dirty
      ensures Consistent() && Stopped(disk, itable[i], off0, src, tot, fault, dirty) && a in owner
    {
      SplicedBlock(sb, disk, itable, owner, i, (off0 + tot) / BSIZE, a);
      if tot < fault {
        dirty := map[a := Splice(disk[a], at, src[tot..fault])];
      }
    }

    /** A copy that succeeds: m bytes of src into block a, which is then logged. */
    method CopyIn(i: nat, off0: nat, src: seq<Byte>, tot: nat, m: nat, next: nat, a: nat, at: nat, ghost d0: Disk,
                  ghost it0: seq<Inode>)
      requires Owned() && Progress(d0, it0, disk, itable, i, off0, src, tot) && next == tot + m <= |src|
      requires 0 < m && off0 <= it0[i].size && at == (off0 + tot) % BSIZE && at + m <= BSIZE
      requires HasBlock(disk, itable[i], (off0 + tot) / BSIZE)
      requires a == Addr(disk, itable[i], Slot((off0 + tot) / BSIZE))
      modifies this`disk, this`logged, this`trace
      ensures Owned() && Progress(d0, it0, disk, itable, i, off0, src, next) && a in owner
      ensures logged == old(logged) + {a} && SameSlots(old(disk), itable, disk, itable)
    {
      SplicedBlock(sb, disk, itable, owner, i, (off0 + tot) / BSIZE, a);
      ghost var d1 := disk;
      LogWrite(a, Splice(disk[a], at, src[tot..next]));
      ProgressSplice(sb, d0, it0, d1, itable, owner, i, off0, src, tot, m, next, a, disk);
      DataWriteSlots(sb, d1, itable, owner, a, disk);
    }

    /** The same turn, from tot bytes written to `next`, with the blocks it logs added to the account. */
    method WriteTurn(i: nat, off0: nat, src: seq<Byte>, tot: nat, fault: nat, ghost d0: Disk, ghost it0: seq<Inode>,
                     ghost l0: set<nat>, ghost ow0: Owner, ghost data0: set<nat>, ghost maps0: set<nat>,
                     ghost first0: nat)
      returns (next: nat, ghost data: set<nat>, ghost maps: set<nat>, ghost first: nat)
      requires Owned() && tot < |src| && i < |it0| && off0 <= it0[i].size && off0 + |src| <= MAXFILE * BSIZE
      requires Writing(sb, d0, it0, ow0, l0, disk, itable, owner, logged, i, off0, src, tot, fault, data0, maps0,
                       first0)
      modifies this`disk, this`itable, this`owner, this`logged, this`trace, this`dirty
      ensures Consistent() && tot <= next <= |src|
      ensures if next == tot then
                WroteBlocks(sb, d0, it0, ow0, l0, disk, itable, owner, logged, i, off0, src, tot, fault, dirty, data,
                            maps, first)
              else
                && dirty == map[]
                && Writing(sb, d0, it0, ow0, l0, disk, itable, owner, logged, i, off0, src, next, fault, data, maps,
                           first)
    {
      var bn := (off0 + tot) / BSIZE;
      ghost var d1, it1, ow1, was, had := disk, itable, owner, logged, HasBlock(disk, itable[i], bn);
      ghost var addr;
      next, addr := WriteOne(i, off0, src, tot, bn, bn + 1, fault, d0, it0);
      first := if tot == 0 then addr else first0;
      data, maps := data0 + {addr}, maps0 + NewMap(sb, had, addr);
      OneTurn(sb, d0, it0, ow0, l0, d1, it1, ow1, was, disk, itable, owner, logged, i, off0, src, tot, next, bn, bn + 1,
              fault, addr, had, dirty, data0, maps0, first0, data, maps, first);
    }

    /**
     The loop of writei. It stops early only when the disk is full or a copy fails.
     `data` and `maps` are the data blocks and the bitmap blocks it logged.
     */
    method WriteBlocks(i: nat, off0: nat, src: seq<Byte>, fault: nat)
      returns (tot: nat, ghost data: set<nat>, ghost maps: set<nat>, ghost first: nat)
      requires Owned() && i < |itable| && off0 <= itable[i].size && off0 + |src| <= MAXFILE * BSIZE
      requires forall j {:trigger InodeOk(disk, itable[j])} :: 0 <= j < |itable| ==> InodeOk(disk, itable[j])
      modifies this`disk, this`itable, this`owner, this`logged, this`trace, this`dirty
      ensures Consistent()
      ensures WroteBlocks(sb, old(disk), old(itable), old(owner), old(logged), disk, itable, owner, logged, i, off0,
                          src, tot, fault, dirty, data, maps, first)
    {
      tot, data, maps, first := 0, {}, {}, 0;
      ghost var d0, it0, l0, ow0 := disk, itable, logged, owner;
      WritingStart(sb, d0, it0, ow0, l0, i, off0, src, fault);
      while tot < |src|
        invariant Owned() && tot <= |src|
        invariant Writing(sb, d0, it0, ow0, l0, disk, itable, owner, logged, i, off0, src, tot, fault, data, maps,
                          first)
      {
        var next: nat;
        next, data, maps, first := WriteTurn(i, off0, src, tot, fault, d0, it0, l0, ow0, data, maps, first);
        if next == tot {
          return;
        }
        tot := next;
      }
      WritingDone(sb, d0, it0, ow0, l0, disk, itable, owner, logged, i, off0, src, fault, data, maps, first);
    }

    /** The inode's place in its block is overwritten and the block logged. */
    method StoreInode(i: nat, ino: Inode)
      requires AllLogged() && i < |dinodes|
      modifies this`disk, this`dinodes, this`logged, this`trace
      ensures AllLogged() && dinodes == old(dinodes)[i := ino] && disk == InodeWritten(sb, old(disk), i, ino)
      ensures logged == old(logged) + {IBlock(sb, i)}
    {
      InodeBelow(sb, disk, i);
      var b := IBlock(sb, i);
      disk := InodeWritten(sb, disk, i, ino);
      logged := logged + {b};
      trace := trace + [RedoLog.Write(b, disk[b])];
      dinodes := dinodes[i := ino];
      JournalInode(sb, base, old(disk), owner, old(logged), old(trace), old(dinodes), i, ino, disk, logged, trace);
    }

    /** Writes the in-memory inode back; no file changes by that. */
    method Iupdate(i: nat)
      requires Consistent() && i < |itable|
      requires forall j {:trigger InodeOk(disk, itable[j])} :: 0 <= j < |itable| ==> InodeOk(disk, itable[j])
      modifies this`disk, this`dinodes, this`logged, this`trace
      ensures Consistent() && dinodes == old(dinodes)[i := itable[i]]
      ensures disk == InodeWritten(sb, old(disk), i, itable[i])
      ensures logged == old(logged) + {IBlock(sb, i)}
      ensures forall j {:trigger InodeOk(disk, itable[j])} {:trigger Contents(disk, itable[j])} :: 0 <= j < |itable| ==>
                InodeOk(disk, itable[j]) && Contents(disk, itable[j]) == Contents(old(disk), itable[j])
      ensures old(Full()) ==> Full()
    {
      StoreInode(i, itable[i]);
      InodeWriteKeeps(sb, old(disk), itable, owner, i, itable[i], disk);
      SameMarks(sb, old(disk), i, itable[i], disk);
    }

    /**
     writei, for 32-bit off and n: -1 for an offset past the end or a file too large;
     otherwise the file is overwritten by the first r bytes of src, where r is determined
     by byte `fault`, which cannot be copied in, and by the blocks that the file has and the
     disk has free; every other file is untouched, and a write of at most three blocks logs
     at most MAXOPBLOCKS blocks. A buffer is left changed and not logged exactly when the
     write gets to byte `fault` and that is not the first byte of its step.
     */
    method Writei(i: nat, src: seq<Byte>, off: Word, fault: nat) returns (r: int, ghost first: nat)
      requires Valid() && i < |itable| && itable[i].kind != 0 && |src| < 0x1_0000_0000
      modifies this`disk, this`itable, this`dinodes, this`owner, this`logged, this`trace, this`dirty
      ensures Settled() && OwnersKept(old(owner), owner)
      ensures r == -1 <==> off > old(itable)[i].size || off + |src| > MAXFILE * BSIZE
      ensures r == -1 ==> unchanged(this)
      ensures r != -1 ==> 0 <= r <= |src| && |itable| == |old(itable)|
      ensures r != -1 ==> Contents(disk, itable[i]) == Overwrite(Contents(old(disk), old(itable)[i]), off, src[..r])
      ensures r != -1 ==> SameButSize(old(itable)[i], itable[i])
      ensures OthersSame(old(disk), old(itable), disk, itable, i)
      ensures r != -1 ==>
                Wrote(sb, old(disk), old(itable), |old(owner)|, old(logged), disk, itable, logged, i, off, src,
                                r, fault, dirty)
      ensures off + |src| <= old(itable)[i].size ==> r != -1
      ensures |src| <= 3 * BSIZE ==> |logged| <= |old(logged)| + MAXOPBLOCKS
      ensures r != -1 ==> IBlock(sb, i) in logged
      ensures r > 0 && off % BSIZE != 0 ==> first in old(owner) && first in logged
    {
      var bad := OutOfRange(i, off, |src|);
      if bad {
        return -1, 0;
      }
      r, first := WriteAndUpdate(i, src, off, fault);
    }

    /** The checks of writei, in 32-bit arithmetic. */
    method OutOfRange(i: nat, off: Word, n: Word) returns (bad: bool)
      requires Valid() && i < |itable|
      ensures bad <==> off > itable[i].size || off + n > MAXFILE * BSIZE
      ensures itable[i].size <= MAXFILE * BSIZE
    {
      assert InodeOk(disk, itable[i]);
      if off > itable[i].size || (off + n) % 0x1_0000_0000 < off {
        return true;
      }
      if (off + n) % 0x1_0000_0000 > MAXFILE * BSIZE {
        return true;
      }
      return false;
    }

    /** writei after its checks. */
    method WriteAndUpdate(i: nat, src: seq<Byte>, off: nat, fault: nat) returns (tot: nat, ghost first: nat)
      requires Valid() && i < |itable| && itable[i].kind != 0
      requires off <= itable[i].size && off + |src| <= MAXFILE * BSIZE
      modifies this`disk, this`itable, this`dinodes, this`owner, this`logged, this`trace, this`dirty
      ensures Settled() && tot <= |src| && |itable| == |old(itable)| && OwnersKept(old(owner), owner)
      ensures Contents(disk, itable[i]) == Overwrite(Contents(old(disk), old(itable)[i]), off, src[..tot])
      ensures SameButSize(old(itable)[i], itable[i]) && OthersSame(old(disk), old(itable), disk, itable, i)
      ensures Wrote(sb, old(disk), old(itable), |old(owner)|, old(logged), disk, itable, logged, i, off, src, tot,
                    fault, dirty)
      ensures |src| <= 3 * BSIZE ==> |logged| <= |old(logged)| + MAXOPBLOCKS
      ensures IBlock(sb, i) in logged && (tot > 0 && off % BSIZE != 0 ==> first in old(owner) && first in logged)
    {
      ghost var d0, it0, l0, ow0 := disk, itable, logged, owner;
      ghost var data, maps: set<nat>;
      tot, data, maps, first := WriteBlocks(i, off, src, fault);
      ghost var d1, it1, l1 := disk, itable, logged;
      Outcome(sb, d0, it0, ow0, disk, itable, owner, i, off, src, tot, fault, dirty);
      Extend(i, off, src, tot, d0, it0);
      ExtendedSame(sb, d0, it0, d1, it1, owner, disk, itable, i, off, src, tot, fault, dirty);
      WriteInside(sb, d0, it0, ow0, disk, itable, i, off, src, tot, fault, dirty);
      LoggedBound(sb, l0, data, maps, it1[i], IBlock(sb, i), l1, logged, off, |src|);
      InLogMore(sb, d1, dirty, l0, l1, logged, i, HasBlock(d0, it0[i], (off + tot) / BSIZE));
    }

    /** The end of writei: the new size, and the inode written back. */
    method Extend(i: nat, off: nat, src: seq<Byte>, tot: nat, ghost d0: Disk, ghost it0: seq<Inode>)
      requires Consistent() && Progress(d0, it0, disk, itable, i, off, src, tot) && dinodes == it0
      requires off <= it0[i].size && it0[i].kind != 0 && off + tot <= MAXFILE * BSIZE
      requires forall j {:trigger InodeOk(d0, it0[j])} :: 0 <= j < |it0| ==> InodeOk(d0, it0[j])
      modifies this`disk, this`itable, this`dinodes, this`logged, this`trace
      ensures Settled() && |itable| == |it0| && SameBeyond(sb, old(disk), disk)
      ensures itable == old(itable)[i := WithSize(old(itable)[i], itable[i].size)]
      ensures Contents(disk, itable[i]) == Overwrite(Contents(d0, it0[i]), off, src[..tot])
      ensures SameButSize(it0[i], itable[i]) && OthersSame(d0, it0, disk, itable, i)
      ensures logged == old(logged) + {IBlock(sb, i)}
    {
      ghost var d1, it1 := disk, itable;
      if off + tot > itable[i].size {
        itable := itable[i := WithSize(itable[i], off + tot)];
      }
      assert itable == it1[i := WithSize(it1[i], Max(it1[i].size, off + tot))];
      FinishWrite(sb, d0, it0, disk, it1, owner, i, off, src, tot, itable);
      Iupdate(i);
      WrittenBelow(sb, d1, i, itable[i], disk);
      WrittenBack(d0, it0, d1, disk, itable, i);
    }

    /** One turn of readi's loop. */
    method ReadOne(i: nat, pos: nat, end: nat) returns (chunk: seq<Byte>)
      requires Valid() && i < |itable| && pos < end <= itable[i].size
      modifies this`disk, this`itable, this`owner, this`logged, this`trace
      ensures unchanged(this) && |chunk| == Min(end - pos, BSIZE - pos % BSIZE)
      ensures pos + |chunk| <= end && chunk == Contents(disk, itable[i])[pos..pos + |chunk|]
    {
      assert InodeOk(disk, itable[i]) && HasBlock(disk, itable[i], pos / BSIZE);
      var addr := Bmap(i, pos / BSIZE);
      assert Claims(disk, itable, owner, i, Slot(pos / BSIZE)) && Placed(sb, disk, itable, owner, addr);
      var m := Min(end - pos, BSIZE - pos % BSIZE);
      ReadChunk(disk, itable[i], pos, m);
      chunk := disk[addr].data[pos % BSIZE..pos % BSIZE + m];
    }

    /** The loop of readi. */
    method ReadSlice(i: nat, off: nat, end: nat, fault: nat) returns (r: int, data: seq<Byte>)
      requires Valid() && i < |itable| && off <= end <= itable[i].size
      modifies this`disk, this`itable, this`owner, this`logged, this`trace
      ensures unchanged(this) && Delivered(Contents(disk, itable[i])[off..end], fault, r, data)
    {
      ghost var file := Contents(disk, itable[i]);
      data := [];
      var pos := off;
      while pos < end
        invariant off <= pos <= end && data == file[off..pos] && pos - off <= fault
        invariant unchanged(this)
      {
        var chunk := ReadOne(i, pos, end);
        if fault < pos - off + |chunk| {
          CutTurn(file, off, pos, end, fault, data, chunk);
          data := data + chunk[..off + fault - pos];
          return -1, data;
        }
        SliceNext(file, off, pos, pos + |chunk|);
        data := data + chunk;
        pos := pos + |chunk|;
      }
      r := |data|;
      LastTurn(file, off, end, fault, data);
    }

    /**
     readi: the slice of the file, clipped to its size; -1 exactly when byte `fault` of the
     slice cannot be copied out, with the bytes before it delivered. Nothing is allocated.
     */
    method Readi(i: nat, off: Word, n: Word, fault: nat) returns (r: int, data: seq<Byte>)
      requires Valid() && i < |itable|
      modifies this`disk, this`itable, this`owner, this`logged, this`trace
      ensures unchanged(this) && Delivered(ReadRange(Contents(disk, itable[i]), off, n), fault, r, data)
    {
      Wraps(off, n);
      if off > itable[i].size || (off + n) % 0x1_0000_0000 < off {
        return 0, [];
      }
      r, data := ReadSlice(i, off, Min(off + n, itable[i].size), fault);
    }

    /** bfree of a block that no inode names any more: its mark is set, and its bitmap block is logged. */
    method FreeBlock(a: nat, ghost it1: seq<Inode>, ghost ow1: Owner, ghost transit: set<nat>)
      requires AllLogged() && Ownership(sb, disk, it1, ow1, transit) && a in transit
      modifies this`disk, this`logged, this`trace
      ensures AllLogged() && Ownership(sb, disk, it1, ow1, transit - {a}) && |disk| == |old(disk)|
      ensures forall x :: sb.datastart <= x < sb.size ==> disk[x] == old(disk)[x]
    {
      Release(sb, disk, it1, ow1, transit, a);
      var ok := Bfree(a);
      assert ok;      // panic("freeing free block") is unreachable
    }

    /** itrunc's first loop: every direct block is freed, none of them free already. */
    method TruncDirect(i: nat)
      requires Owned() && i < |itable|
      modifies this`disk, this`itable, this`owner, this`logged, this`trace
      ensures Owned() && owner == Without(old(owner), i, NDIRECT)
      ensures itable == old(itable)[i := WithAddrs(old(itable)[i], itable[i].addrs)]
      ensures (forall l :: 0 <= l < NDIRECT ==> itable[i].addrs[l] == 0)
      ensures itable[i].addrs[NDIRECT] == old(itable)[i].addrs[NDIRECT]
      ensures forall x :: sb.datastart <= x < sb.size ==> disk[x] == old(disk)[x]
    {
      ghost var d0, it0, ow0 := disk, itable, owner;
      WithoutNone(ow0, i);
      var k := 0;
      while k < NDIRECT
        invariant 0 <= k <= NDIRECT && Owned() && owner == Without(ow0, i, k)
        invariant itable == it0[i := WithAddrs(it0[i], itable[i].addrs)]
        invariant forall l :: 0 <= l < k ==> itable[i].addrs[l] == 0
        invariant forall l :: k <= l <= NDIRECT ==> itable[i].addrs[l] == it0[i].addrs[l]
        invariant forall x :: sb.datastart <= x < sb.size ==> disk[x] == d0[x]
      {
        WithoutNext(sb, disk, itable, owner, ow0, i, k);
        var a := itable[i].addrs[k];
        if a != 0 {
          DetachDirect(sb, disk, itable, owner, {}, i, k);
          ghost var it1, ow1 := itable[i := SetAddr(itable[i], k, 0)], owner - {a};
          assert {} + {a} - {a} == {};
          FreeBlock(a, it1, ow1, {} + {a});
          RecordFewer(sb, base, disk, owner, logged, trace, ow1);
          itable := itable[i := SetAddr(itable[i], k, 0)];
          owner := ow1;
        }
        k := k + 1;
      }
    }

    /** itrunc's second part: every entry of the indirect block is freed, then the block. */
    method TruncIndirect(i: nat)
      requires Owned() && i < |itable| && itable[i].addrs[NDIRECT] != 0
      modifies this`disk, this`itable, this`owner, this`logged, this`trace
      ensures Owned() && owner == old(owner) - ViaIndirect(old(owner), i)
      ensures itable == old(itable)[i := SetAddr(old(itable)[i], NDIRECT, 0)]
      ensures forall x :: sb.datastart <= x < sb.size ==> disk[x] == old(disk)[x]
    {
      ghost var d0, it0, ow0 := disk, itable, owner;
      var ind := itable[i].addrs[NDIRECT];
      assert Claims(d0, it0, ow0, i, NDIRECT) && Placed(sb, d0, it0, ow0, ind);
      ghost var it1, ow1 := itable[i := SetAddr(itable[i], NDIRECT, 0)], owner - ViaIndirect(owner, i);
      DetachIndirect(sb, disk, itable, owner, {}, i);
      RemainingEnds(sb, d0, it0, ow0, i);
      assert {} + ViaIndirect(ow0, i) == Remaining(ow0, i, 0);
      var bp := disk[ind];
      var e := 0;
      while e < NINDIRECT
        invariant 0 <= e <= NINDIRECT && itable == it0 && owner == ow0 && AllLogged()
        invariant Ownership(sb, disk, it1, ow1, Remaining(ow0, i, e))
        invariant forall x :: sb.datastart <= x < sb.size ==> disk[x] == d0[x]
      {
        RemainingStep(sb, d0, it0, ow0, i, e);
        var a := GetWord(bp, e);
        assert a == Addr(d0, it0[i], NDIRECT + 1 + e);
        if a != 0 {
          FreeBlock(a, it1, ow1, Remaining(ow0, i, e));
        }
        e := e + 1;
      }
      assert {ind} - {ind} == {};
      FreeBlock(ind, it1, ow1, {ind});
      RecordFewer(sb, base, disk, owner, logged, trace, ow1);
      itable := itable[i := SetAddr(itable[i], NDIRECT, 0)];
      owner := ow1;
    }

    /** itrunc: the file is empty, exactly its blocks are free, and no other file changed. */
    method Itrunc(i: nat)
      requires Valid() && i < |itable|
      modifies this`disk, this`itable, this`dinodes, this`owner, this`logged, this`trace
      ensures Valid()
      ensures itable == old(itable)[i := Emptied(old(itable)[i])] && itable[i].kind == old(itable)[i].kind
      ensures itable[i].size == 0 && itable[i].addrs == NoAddrs && owner == Without(old(owner), i, NSLOTS)
      ensures OthersSame(old(disk), old(itable), disk, itable, i)
    {
      ghost var d0, it0, ow0 := disk, itable, owner;
      TruncDirect(i);
      ghost var ow1 := owner;
      if itable[i].addrs[NDIRECT] != 0 {
        TruncIndirect(i);
      } else {
        NothingViaIndirect(sb, disk, itable, owner, i);
      }
      forall b | b in ow0 ensures ow0[b].slot < NSLOTS {
        assert Placed(sb, d0, it0, ow0, b);
      }
      WithoutAll(ow0, ow1, owner, i);
      ghost var d1, it1 := disk, itable;
      AllZero(itable[i].addrs);
      itable := itable[i := WithSize(itable[i], 0)];
      SameAddrsOwnership(sb, disk, it1, owner, i, itable[i]);
      OthersUntouched(sb, d0, it0, ow0, disk, itable, i);
      Iupdate(i);
      WrittenBack(d0, it0, d1, disk, itable, i);
    }

    /** ialloc: the lowest free inode from 1 up, initialised; 0 when there is none. */
    method Ialloc(kind: Half) returns (inum: nat)
      requires Valid() && kind != 0
      modifies this`disk, this`itable, this`dinodes, this`logged, this`trace
      ensures Valid()
      ensures inum == 0 <==> forall k :: 1 <= k < |old(itable)| ==> old(itable)[k].kind != 0
      ensures inum == 0 ==> unchanged(this)
      ensures inum != 0 ==> inum < |old(itable)| && old(itable)[inum].kind == 0
      ensures inum != 0 ==> forall k :: 1 <= k < inum ==> old(itable)[k].kind != 0
      ensures inum != 0 ==> itable == old(itable)[inum := Inode(kind, 0, 0, 0, 0, NoAddrs)]
      ensures inum != 0 ==> logged == old(logged) + {IBlock(sb, inum)}
      ensures OthersSame(old(disk), old(itable), disk, itable, inum)
    {
      inum := 1;
      while inum < sb.ninodes
        invariant 1 <= inum && forall k :: 1 <= k < inum && k < |itable| ==> itable[k].kind != 0
        invariant unchanged(this)
      {
        var kindNow := DiskKind(inum);
        if kindNow == 0 {
          TakeInode(inum, WithKind(FREE_INODE, kind));
          return;
        }
        inum := inum + 1;
      }
      OthersUnchanged(disk, itable, 0);
      return 0;
    }

    /** The type of an inode, read from its block. */
    method DiskKind(i: nat) returns (kind: Half)
      requires Valid() && i < sb.ninodes
      ensures kind == itable[i].kind
    {
      assert InodeStored(sb, disk, dinodes, i);
      InodeBelow(sb, disk, i);
      kind := GetInode(disk[IBlock(sb, i)], i % IPB).kind;
    }

    /** A free inode is initialised on the disk and in memory. */
    method TakeInode(i: nat, ino: Inode)
      requires Valid() && i < |itable| && itable[i].kind == 0 && ino.size == 0 && ino.addrs == NoAddrs
      modifies this`disk, this`itable, this`dinodes, this`logged, this`trace
      ensures Valid() && itable == old(itable)[i := ino] && logged == old(logged) + {IBlock(sb, i)}
      ensures OthersSame(old(disk), old(itable), disk, itable, i)
    {
      assert InodeOk(disk, itable[i]);
      StoreInode(i, ino);
      InodeWriteKeeps(sb, old(disk), itable, owner, i, ino, disk);
      itable := itable[i := ino];
      SameAddrsOwnership(sb, disk, old(itable), owner, i, ino);
      OthersReplaced(old(disk), old(itable), disk, itable, i, ino);
    }

    /**
     iput on an entry with `ref` references: the last reference to an unlinked inode
     frees the inode and every block it owns; any other only drops the count.
     */
    method Iput(i: nat, ref: nat, valid: bool) returns (left: nat)
      requires Valid() && 0 < i < |itable| && ref >= 1
      modifies this`disk, this`itable, this`dinodes, this`owner, this`logged, this`trace
      ensures Valid() && left == ref - 1
      ensures var free := ref == 1 && valid && old(itable)[i].nlink == 0;
              && itable == (if free then old(itable)[i := WithKind(Emptied(old(itable)[i]), 0)] else old(itable))
              && owner == (if free then Without(old(owner), i, NSLOTS) else old(owner))
              && (free ==> itable[i].kind == 0 && itable[i].size == 0 && itable[i].addrs == NoAddrs)
      ensures OthersSame(old(disk), old(itable), disk, itable, i)
    {
      left := ref - 1;
      OthersUnchanged(disk, itable, i);
      if ref == 1 && valid && itable[i].nlink == 0 {
        ghost var d0, it0 := disk, itable;
        Itrunc(i);
        ghost var d1, it1 := disk, itable;
        itable := itable[i := WithKind(itable[i], 0)];
        SameAddrsOwnership(sb, disk, it1, owner, i, itable[i]);
        OthersReplaced(d1, it1, d1, itable, i, itable[i]);
        OthersStep(d0, it0, d1, it1, d1, itable, i);
        Iupdate(i);
        WrittenBack(d0, it0, d1, disk, itable, i);
      }
    }
  }

  function WithKind(ino: Inode, kind: Half): Inode { ino.(kind := kind) }

  function WithAddrs(ino: Inode, addrs: Addrs): Inode { ino.(addrs := addrs) }

  /** An inode with no blocks and no bytes. */
  function Emptied(ino: Inode): Inode { ino.(size := 0, addrs := NoAddrs) }

  lemma AllZero(addrs: Addrs)
    requires forall k :: 0 <= k <= NDIRECT ==> addrs[k] == 0
    ensures addrs == NoAddrs
  {
  }

  lemma WithoutNone(ow: Owner, i: nat)
    ensures Without(ow, i, 0) == ow
  {
  }

  lemma WithoutNext(sb: Super, d: Disk, it: seq<Inode>, ow: Owner, ow0: Owner, i: nat, k: nat)
    requires Ownership(sb, d, it, ow, {}) && i < |it| && k < NDIRECT && ow == Without(ow0, i, k)
    ensures Without(ow0, i, k + 1) == if it[i].addrs[k] == 0 then ow else ow - {it[i].addrs[k]}
  {
    assert Claims(d, it, ow, i, k);
    forall b | b in ow ensures ow[b].inum == i && ow[b].slot == k ==> b == it[i].addrs[k] && b != 0 {
      assert Placed(sb, d, it, ow, b);
    }
    assert Without(ow0, i, k + 1) == if it[i].addrs[k] == 0 then ow else ow - {it[i].addrs[k]};
  }

  lemma NothingViaIndirect(sb: Super, d: Disk, it: seq<Inode>, ow: Owner, i: nat)
    requires Ownership(sb, d, it, ow, {}) && i < |it| && it[i].addrs[NDIRECT] == 0
    ensures ViaIndirect(ow, i) == {} && ow - ViaIndirect(ow, i) == ow
  {
    forall b | b in ow ensures ow[b].inum != i || ow[b].slot < NDIRECT {
      assert Placed(sb, d, it, ow, b);
    }
  }

  lemma WithoutAll(ow0: Owner, ow1: Owner, ow: Owner, i: nat)
    requires ow1 == Without(ow0, i, NDIRECT) && ow == ow1 - ViaIndirect(ow1, i)
    requires forall b :: b in ow0 ==> ow0[b].slot < NSLOTS
    ensures ow == Without(ow0, i, NSLOTS)
  {
  }

  function WithSize(ino: Inode, n: Word): Inode { ino.(size := n) }

  predicate SameButSize(a: Inode, b: Inode) {
    b == a.(size := b.size, addrs := b.addrs)
  }

  /** The bytes of a file that a read of n bytes at off is to deliver, in 32-bit arithmetic. */
  function ReadRange(file: seq<Byte>, off: Word, n: Word): seq<Byte> {
    if off > |file| || off + n >= 0x1_0000_0000 then [] else file[off..Min(off + n, |file|)]
  }

  /** What reached the reader: all of it, or the bytes before the one that cannot be copied out. */
  predicate Delivered(wanted: seq<Byte>, fault: nat, r: int, data: seq<Byte>) {
    if fault < |wanted| then r == -1 && data == wanted[..fault] else r == |wanted| && data == wanted
  }

  /** The read of off..end, with the bytes before pos there, fails inside the chunk at pos. */
  lemma CutTurn(file: seq<Byte>, off: nat, pos: nat, end: nat, fault: nat, data: seq<Byte>, chunk: seq<Byte>)
    requires off <= pos <= off + fault < pos + |chunk| <= end <= |file|
    requires data == file[off..pos] && chunk == file[pos..pos + |chunk|]
    ensures Delivered(file[off..end], fault, -1, data + chunk[..off + fault - pos])
  {
    assert chunk[..off + fault - pos] == file[pos..off + fault] && file[off..end][..fault] == file[off..off + fault];
  }

  lemma LastTurn(file: seq<Byte>, off: nat, end: nat, fault: nat, data: seq<Byte>)
    requires off <= end <= |file| && end - off <= fault && data == file[off..end]
    ensures Delivered(file[off..end], fault, |data|, data)
  {
  }

  /**
   A write of src at off that stopped after r bytes because byte `fault` cannot be copied in: the
   bytes from r to that one are in the buffer of their block, and nothing else is changed unlogged.
   */
  predicate Stopped(d: Disk, ino: Inode, off: nat, src: seq<Byte>, r: nat, fault: nat, dirty: map<nat, Block>) {
    && r <= fault < |src| && (off + r) % BSIZE + (fault - r) < BSIZE && HasBlock(d, ino, (off + r) / BSIZE)
    && var a := Addr(d, ino, Slot((off + r) / BSIZE));
    && a < |d|
    && dirty == if r == fault then map[] else map[a as nat := Splice(d[a], (off + r) % BSIZE, src[r..fault])]
  }

  /**
   How a write that got r bytes in has ended: with all of them, or at the start of a step, where byte
   `fault` could not be copied in, or where the disk is full and the file has no block.
   */
  ghost predicate Ended(sb: Super, d: Disk, ino: Inode, off: nat, src: seq<Byte>, r: nat, fault: nat,
                        dirty: map<nat, Block>)
    requires SuperOk(sb, d)
  {
    && r <= |src| && r <= fault
    && if r == |src| then dirty == map[]
       else
         && (r > 0 ==> (off + r) % BSIZE == 0)
         && (|| Stopped(d, ino, off, src, r, fault, dirty)
             || (&& AllUsed(sb, d, sb.size) && dirty == map[] && !HasBlock(d, ino, (off + r) / BSIZE)
                 && (r > 0 || off % BSIZE == 0)))
  }

  /** A write that begins inside a block has logged that block, which the file had before. */
  predicate FirstIn(off: nat, tot: nat, first: nat, ow0: Owner, logged: set<nat>) {
    tot > 0 && off % BSIZE != 0 ==> first in ow0 && first in logged
  }

  lemma FirstTurn(off: nat, tot: nat, next: nat, bn: nat, first0: nat, addr: nat, first: nat, ow0: Owner, ow1: Owner,
                  was: set<nat>, logged: set<nat>, had: bool)
    requires FirstIn(off, tot, first0, ow0, was) && (tot == 0 ==> ow1 == ow0) && was <= logged
    requires bn == (off + tot) / BSIZE && (tot == 0 && off % BSIZE != 0 ==> had)
    requires next != tot ==> addr in logged && (had ==> addr in ow1)
    requires first == if tot == 0 then addr else first0
    ensures FirstIn(off, next, first, ow0, logged)
  {
  }

  /** In the loop of writei, after tot bytes. */
  ghost predicate Writing(sb: Super, d0: Disk, it0: seq<Inode>, ow0: Owner, l0: set<nat>, d: Disk, it: seq<Inode>,
                          ow: Owner, logged: set<nat>, i: nat, off: nat, src: seq<Byte>, tot: nat, fault: nat,
                          data: set<nat>, maps: set<nat>, first: nat) {
    && Progress(d0, it0, d, it, i, off, src, tot) && OwnersKept(ow0, ow) && tot <= fault
    && FirstIn(off, tot, first, ow0, logged) && (tot == 0 ==> ow == ow0)
    && Cost(l0, logged, IndirectBlocks(sb, it[i]), data, maps, off, tot, |src|)
    && Slots(d0, it0, d, it, i, off / BSIZE, BlockEnd(off, tot))
    && LoggedBelow(sb, l0, logged, ow, i, BlockEnd(off, tot))
  }

  /** After that loop, which got tot bytes in. */
  ghost predicate WroteBlocks(sb: Super, d0: Disk, it0: seq<Inode>, ow0: Owner, l0: set<nat>, d: Disk, it: seq<Inode>,
                              ow: Owner, logged: set<nat>, i: nat, off: nat, src: seq<Byte>, tot: nat, fault: nat,
                              dirty: map<nat, Block>, data: set<nat>, maps: set<nat>, first: nat) {
    && Progress(d0, it0, d, it, i, off, src, tot) && OwnersKept(ow0, ow) && FirstIn(off, tot, first, ow0, logged)
    && SuperOk(sb, d) && Ended(sb, d, it[i], off, src, tot, fault, dirty)
    && Slots(d0, it0, d, it, i, off / BSIZE, TriedEnd(off, |src|, tot))
    && InLog(dirty, l0, logged, HasBlock(d0, it0[i], (off + tot) / BSIZE))
    && Spent(l0, logged, IndirectBlocks(sb, it[i]), data, maps, off, |src|)
  }

  /** What a turn at file block bn, which left it at address addr, adds to that. */
  lemma OneTurn(sb: Super, d0: Disk, it0: seq<Inode>, ow0: Owner, l0: set<nat>, d1: Disk, it1: seq<Inode>, ow1: Owner,
                was: set<nat>, d: Disk, it: seq<Inode>, ow: Owner, logged: set<nat>, i: nat, off: nat, src: seq<Byte>,
                tot: nat, next: nat, bn: nat, hi: nat, fault: nat, addr: nat, had: bool, dirty: map<nat, Block>,
                data0: set<nat>, maps0: set<nat>, first0: nat, data: set<nat>, maps: set<nat>, first: nat)
    requires Ownership(sb, d1, it1, ow1, {}) && Ownership(sb, d, it, ow, {}) && OwnersKept(ow1, ow) && |it| == |it1|
    requires Writing(sb, d0, it0, ow0, l0, d1, it1, ow1, was, i, off, src, tot, fault, data0, maps0, first0)
    requires tot < |src| && off <= it0[i].size && off + |src| <= MAXFILE * BSIZE
    requires bn == (off + tot) / BSIZE && hi == bn + 1 && had == HasBlock(d1, it1[i], bn)
    requires Progress(d0, it0, d, it, i, off, src, next) && Slots(d1, it1, d, it, i, bn, hi)
    requires next == tot || next == tot + Min(|src| - tot, BSIZE - (off + tot) % BSIZE)
    requires next != tot ==> dirty == map[] && !(tot <= fault < next)
    requires next == tot ==>
               || Stopped(d, it[i], off, src, tot, fault, dirty)
               || (AllUsed(sb, d, sb.size) && dirty == map[] && !had && !HasBlock(d, it[i], bn))
    requires addr == Addr(d, it[i], Slot(bn)) && InLog(dirty, was, logged, had)
    requires had && next == tot ==> d == d1 && it == it1
    requires IndirectBlocks(sb, it1[i]) <= IndirectBlocks(sb, it[i]) && was <= logged
    requires logged <= was + {addr} + NewMap(sb, had, addr) + IndirectBlocks(sb, it[i])
    requires data == data0 + {addr} && maps == maps0 + NewMap(sb, had, addr)
    requires first == (if tot == 0 then addr else first0) && (next != tot ==> addr in logged && (had ==> addr in ow1))
    ensures tot <= next <= |src|
    ensures if next == tot then
              WroteBlocks(sb, d0, it0, ow0, l0, d, it, ow, logged, i, off, src, tot, fault, dirty, data, maps, first)
            else Writing(sb, d0, it0, ow0, l0, d, it, ow, logged, i, off, src, next, fault, data, maps, first)
  {
    FirstBlockMapped(d0, it0, d1, it1, i, off, src, tot, bn);
    FirstTurn(off, tot, next, bn, first0, addr, first, ow0, ow1, was, logged, had);
    TurnSlots(d0, it0, d1, it1, d, it, i, off, tot, next, |src|);
    TurnBlocks(off, tot, next, |src|);
    OwnersKeptTrans(ow0, ow1, ow);
    CostTurn(l0, was, logged, IndirectBlocks(sb, it1[i]), IndirectBlocks(sb, it[i]), data0, maps0, addr,
             NewMap(sb, had, addr), off, tot, next, |src|);
    if next == tot {
      DirtyTurn(sb, d0, it0, d1, it1, ow1, was, d, it, l0, logged, i, off, src, tot, fault, bn, had, dirty);
      TurnStops(sb, d0, it0, ow0, l0, d1, it1, d, it, ow, logged, i, off, src, tot, bn, hi, fault, had, dirty, data,
                maps, first);
    } else {
      LoggedTurn(sb, ow1, was, d, it, ow, l0, logged, i, bn, hi, addr, had);
      assert BlockEnd(off, next) == hi;
    }
  }

  lemma TurnStops(sb: Super, d0: Disk, it0: seq<Inode>, ow0: Owner, l0: set<nat>, d1: Disk, it1: seq<Inode>, d: Disk,
                  it: seq<Inode>, ow: Owner, logged: set<nat>, i: nat, off: nat, src: seq<Byte>, tot: nat, bn: nat,
                  hi: nat, fault: nat, had: bool, dirty: map<nat, Block>, data: set<nat>, maps: set<nat>, first: nat)
    requires SuperOk(sb, d) && OwnersKept(ow0, ow) && Progress(d0, it0, d, it, i, off, src, tot) && i < |it1|
    requires tot < |src| && tot <= fault && bn == (off + tot) / BSIZE && hi == bn + 1
    requires FirstIn(off, tot, first, ow0, logged)
    requires (0 < tot ==> (off + tot) % BSIZE == 0) && had == HasBlock(d1, it1[i], bn)
    requires tot == 0 && off % BSIZE != 0 ==> had
    requires || Stopped(d, it[i], off, src, tot, fault, dirty)
             || (AllUsed(sb, d, sb.size) && dirty == map[] && !had && !HasBlock(d, it[i], bn))
    requires Slots(d0, it0, d, it, i, off / BSIZE, hi) && InLog(dirty, l0, logged, HasBlock(d0, it0[i], bn))
    requires Spent(l0, logged, IndirectBlocks(sb, it[i]), data, maps, off, |src|)
    ensures WroteBlocks(sb, d0, it0, ow0, l0, d, it, ow, logged, i, off, src, tot, fault, dirty, data, maps, first)
  {
  }

  lemma WritingStart(sb: Super, d: Disk, it: seq<Inode>, ow: Owner, l: set<nat>, i: nat, off: nat, src: seq<Byte>,
                     fault: nat)
    requires i < |it| && off <= it[i].size
    requires forall j {:trigger InodeOk(d, it[j])} :: 0 <= j < |it| ==> InodeOk(d, it[j])
    ensures Writing(sb, d, it, ow, l, d, it, ow, l, i, off, src, 0, fault, {}, {}, 0)
  {
    StartProgress(d, it, i, off, src);
    SlotsRefl(d, it, i, off / BSIZE, off / BSIZE);
  }

  lemma WritingDone(sb: Super, d0: Disk, it0: seq<Inode>, ow0: Owner, l0: set<nat>, d: Disk, it: seq<Inode>,
                    ow: Owner, logged: set<nat>, i: nat, off: nat, src: seq<Byte>, fault: nat, data: set<nat>,
                    maps: set<nat>, first: nat)
    requires SuperOk(sb, d)
    requires Writing(sb, d0, it0, ow0, l0, d, it, ow, logged, i, off, src, |src|, fault, data, maps, first)
    ensures WroteBlocks(sb, d0, it0, ow0, l0, d, it, ow, logged, i, off, src, |src|, fault, map[], data, maps, first)
  {
    CostDone(l0, logged, IndirectBlocks(sb, it[i]), data, maps, off, |src|, |src|);
  }

  /**
   What writei made of disk d0, of which n blocks are owned, inodes it0 and a transaction of l0: it got r
   bytes of src into file i, just as many as it had to; it took blocks only for the file blocks it
   tried; it left a buffer changed and not logged exactly when it got to the byte that cannot be
   copied in the middle of a step; and it is said which such buffer is in the log all the same.
   */
  ghost predicate Wrote(sb: Super, d0: Disk, it0: seq<Inode>, n: nat, l0: set<nat>, d: Disk, it: seq<Inode>,
                        logged: set<nat>, i: nat, off: nat, src: seq<Byte>, r: nat, fault: nat, dirty: map<nat, Block>)
    requires SuperOk(sb, d)
  {
    && i < |it0| == |it| && r <= |src|
    && GetsIn(sb, d0, it0[i], n, off, |src|, fault, r)
    && Ended(sb, d, it[i], off, src, r, fault, dirty)
    && (dirty != map[] <==> CopyFaults(sb, d0, it0[i], n, off, |src|, fault) && StepStart(off, fault) < fault)
    && Inside(it0[i].size, d, it[i], off, src, r, fault, dirty)
    && Slots(d0, it0, d, it, i, off / BSIZE, TriedEnd(off, |src|, r))
    && InLog(dirty, l0, logged, HasBlock(d0, it0[i], (off + r) / BSIZE))
  }

  /**
   A buffer that a failed copy has changed is in the log all the same, if its block was logged before
   the write, or is not the file's from before: a new block is zeroed, and logged for that.
   */
  predicate InLog(dirty: map<nat, Block>, logged0: set<nat>, logged: set<nat>, had: bool) {
    forall b {:trigger b in dirty} :: b in dirty ==> (b in logged <==> b in logged0 || !had)
  }

  lemma InLogMore(sb: Super, d: Disk, dirty: map<nat, Block>, logged0: set<nat>, was: set<nat>, logged: set<nat>,
                  i: nat, had: bool)
    requires SuperOk(sb, d) && i < sb.ninodes && (forall b :: b in dirty ==> sb.datastart <= b)
    requires InLog(dirty, logged0, was, had) && logged == was + {IBlock(sb, i)}
    ensures InLog(dirty, logged0, logged, had)
  {
    InodeBelow(sb, d, i);
  }

  /** What the write has logged so far: metadata, and of the file its indirect block and blocks before file block hi. */
  ghost predicate LoggedBelow(sb: Super, l0: set<nat>, logged: set<nat>, ow: Owner, i: nat, hi: nat) {
    forall b: nat {:trigger BelowOrOld(sb, l0, logged, ow, i, hi, b)} :: BelowOrOld(sb, l0, logged, ow, i, hi, b)
  }

  predicate BelowOrOld(sb: Super, l0: set<nat>, logged: set<nat>, ow: Owner, i: nat, hi: nat, b: nat) {
    if b in l0 then b in logged
    else b in logged ==>
      b < sb.datastart || (b in ow && ow[b].inum == i && (ow[b].slot == NDIRECT || ow[b].slot < Slot(hi)))
  }

  /** A turn at file block bn, whose address is now addr. */
  lemma LoggedTurn(sb: Super, ow: Owner, was: set<nat>, d: Disk, it: seq<Inode>, ow': Owner, l0: set<nat>,
                   logged: set<nat>, i: nat, bn: nat, hi: nat, addr: nat, had: bool)
    requires Ownership(sb, d, it, ow', {}) && OwnersKept(ow, ow') && i < |it| && was <= logged
    requires bn < MAXFILE && hi == bn + 1 && addr == Addr(d, it[i], Slot(bn))
    requires LoggedBelow(sb, l0, was, ow, i, bn)
    requires logged <= was + {addr} + NewMap(sb, had, addr) + IndirectBlocks(sb, it[i])
    ensures LoggedBelow(sb, l0, logged, ow', i, hi)
  {
    var ind: nat := it[i].addrs[NDIRECT];
    assert Claims(d, it, ow', i, Slot(bn)) && Claims(d, it, ow', i, NDIRECT);
    MarkBelow(sb, d, it, ow', i, Slot(bn));
    MarkBelow(sb, d, it, ow', i, NDIRECT);
    forall b: nat ensures BelowOrOld(sb, l0, logged, ow', i, hi, b) {
      assert BelowOrOld(sb, l0, was, ow, i, bn, b);
      assert b in logged && b !in was ==> b == addr || b == BBlock(sb, addr) || b == ind || b == BBlock(sb, ind);
    }
  }

  lemma MarkBelow(sb: Super, d: Disk, it: seq<Inode>, ow: Owner, i: nat, k: nat)
    requires Ownership(sb, d, it, ow, {}) && i < |it| && k < NSLOTS
    ensures BBlock(sb, Addr(d, it[i], k)) < sb.datastart
  {
    var a: nat := Addr(d, it[i], k);
    assert Claims(d, it, ow, i, k);
    assert a in ow ==> Placed(sb, d, it, ow, a);
    assert a / BPB <= sb.size / BPB;
  }

  /** A failed copy into a block that the file had leaves a buffer that this write has not logged. */
  lemma DirtyTurn(sb: Super, d0: Disk, it0: seq<Inode>, d: Disk, it: seq<Inode>, ow: Owner, was: set<nat>, d': Disk,
                  it': seq<Inode>, l0: set<nat>, logged: set<nat>, i: nat, off: nat, src: seq<Byte>, tot: nat,
                  fault: nat, bn: nat, had: bool, dirty: map<nat, Block>)
    requires Ownership(sb, d, it, ow, {}) && LoggedBelow(sb, l0, was, ow, i, bn) && InLog(dirty, was, logged, had)
    requires Slots(d0, it0, d, it, i, off / BSIZE, bn) && |it'| == |it| && was <= logged
    requires bn == (off + tot) / BSIZE && had == HasBlock(d, it[i], bn)
    requires had ==> d' == d && it' == it
    requires dirty != map[] ==> Stopped(d', it'[i], off, src, tot, fault, dirty)
    ensures InLog(dirty, l0, logged, HasBlock(d0, it0[i], bn))
  {
    assert bn < MAXFILE ==> SlotMay(d0, it0, d, it, i, off / BSIZE, bn, i, Slot(bn));
    if had && dirty != map[] {
      var a: nat := Addr(d, it[i], Slot(bn));
      SplicedBlock(sb, d, it, ow, i, bn, a);
      assert BelowOrOld(sb, l0, was, ow, i, bn, a);
    }
  }

  /** What the end state says about the way there: how many bytes the write had to get in. */
  lemma Outcome(sb: Super, d0: Disk, it0: seq<Inode>, ow0: Owner, d: Disk, it: seq<Inode>, ow: Owner, i: nat, off: nat,
                src: seq<Byte>, r: nat, fault: nat, dirty: map<nat, Block>)
    requires Ownership(sb, d0, it0, ow0, {}) && Ownership(sb, d, it, ow, {}) && OwnersKept(ow0, ow)
    requires r <= |src| && Slots(d0, it0, d, it, i, off / BSIZE, TriedEnd(off, |src|, r))
    requires off + |src| <= MAXFILE * BSIZE && BlocksThere(d, it[i], off, r)
    requires Ended(sb, d, it[i], off, src, r, fault, dirty)
    ensures GetsIn(sb, d0, it0[i], |ow0|, off, |src|, fault, r)
    ensures dirty != map[] <==>
              CopyFaults(sb, d0, it0[i], |ow0|, off, |src|, fault) && StepStart(off, fault) < fault
  {
    if r == |src| {
      if r > 0 {
        WasReached(sb, d0, it0, ow0, d, it, ow, i, off, r - 1, BlockEnd(off, r));
      }
    } else if Stopped(d, it[i], off, src, r, fault, dirty) {
      OutcomeStopped(sb, d0, it0, ow0, d, it, ow, i, off, src, r, fault, dirty);
    } else {
      OutcomeFull(sb, d0, it0, ow0, d, it, ow, i, off, src, r, fault, dirty);
    }
  }

  /** A write to bytes that a file of that size has gets everything in up to the byte that cannot be copied. */
  predicate Inside(size: nat, d: Disk, ino: Inode, off: nat, src: seq<Byte>, r: nat, fault: nat,
                   dirty: map<nat, Block>) {
    && (off + |src| <= size && |src| <= fault ==> r == |src|)
    && (fault < |src| && off + fault < size ==>
          && r == StepStart(off, fault) && Stopped(d, ino, off, src, r, fault, dirty)
          && (dirty != map[] <==> r < fault))
  }

  lemma WriteInside(sb: Super, d0: Disk, it0: seq<Inode>, ow0: Owner, d: Disk, it: seq<Inode>, i: nat, off: nat,
                    src: seq<Byte>, r: nat, fault: nat, dirty: map<nat, Block>)
    requires Ownership(sb, d0, it0, ow0, {}) && i < |it0| == |it| && InodeOk(d0, it0[i]) && r <= |src|
    requires Slots(d0, it0, d, it, i, off / BSIZE, TriedEnd(off, |src|, r))
    requires GetsIn(sb, d0, it0[i], |ow0|, off, |src|, fault, r)
    requires SuperOk(sb, d) && Ended(sb, d, it[i], off, src, r, fault, dirty)
    requires dirty != map[] <==>
               CopyFaults(sb, d0, it0[i], |ow0|, off, |src|, fault) && StepStart(off, fault) < fault
    ensures Inside(it0[i].size, d, it[i], off, src, r, fault, dirty)
  {
    if src != [] && off + |src| <= it0[i].size {
      ReachesInside(sb, d0, it0, ow0, i, off, |src| - 1);
    }
    if fault < |src| && off + fault < it0[i].size {
      ReachesInside(sb, d0, it0, ow0, i, off, fault);
      var bn := (off + fault) / BSIZE;
      assert bn * BSIZE < it0[i].size && HasBlock(d0, it0[i], bn);
      assert SlotMay(d0, it0, d, it, i, off / BSIZE, TriedEnd(off, |src|, r), i, Slot(bn));
    }
  }

  /** The file blocks that r bytes at off touch are there. */
  ghost predicate BlocksThere(d: Disk, ino: Inode, off: nat, r: nat) {
    forall bn {:trigger HasBlock(d, ino, bn)} :: off / BSIZE <= bn < BlockEnd(off, r) ==> HasBlock(d, ino, bn)
  }

  lemma OutcomeStopped(sb: Super, d0: Disk, it0: seq<Inode>, ow0: Owner, d: Disk, it: seq<Inode>, ow: Owner, i: nat,
                       off: nat, src: seq<Byte>, r: nat, fault: nat, dirty: map<nat, Block>)
    requires Ownership(sb, d0, it0, ow0, {}) && Ownership(sb, d, it, ow, {}) && OwnersKept(ow0, ow)
    requires Slots(d0, it0, d, it, i, off / BSIZE, (off + r) / BSIZE + 1) && BlocksThere(d, it[i], off, r)
    requires Stopped(d, it[i], off, src, r, fault, dirty) && (r > 0 ==> (off + r) % BSIZE == 0)
    ensures CopyFaults(sb, d0, it0[i], |ow0|, off, |src|, fault) && r == StepStart(off, fault)
    ensures dirty != map[] <==> r < fault
  {
    SameStep(off, r, fault);
    forall bn | off / BSIZE <= bn <= (off + fault) / BSIZE ensures HasBlock(d, it[i], bn) {
    }
    WasReached(sb, d0, it0, ow0, d, it, ow, i, off, fault, (off + r) / BSIZE + 1);
    if r < fault {
      assert Addr(d, it[i], Slot((off + r) / BSIZE)) in dirty;
    }
  }

  lemma SameStep(off: nat, r: nat, p: nat)
    requires r <= p && (off + r) % BSIZE + (p - r) < BSIZE && (r > 0 ==> (off + r) % BSIZE == 0)
    ensures (off + r) / BSIZE == (off + p) / BSIZE && r == StepStart(off, p)
    ensures BlockEnd(off, r) == (off + r) / BSIZE
  {
    var q := (off + r) / BSIZE;
    assert off + p == BSIZE * q + ((off + r) % BSIZE + (p - r));
    InBlock(off + p, q, (off + r) % BSIZE + (p - r));
    if r > 0 {
      assert off < BSIZE * q;
    }
  }

  lemma InBlock(x: nat, q: nat, m: nat)
    requires x == BSIZE * q + m && m < BSIZE
    ensures x / BSIZE == q && x % BSIZE == m
  {
  }

  lemma OutcomeFull(sb: Super, d0: Disk, it0: seq<Inode>, ow0: Owner, d: Disk, it: seq<Inode>, ow: Owner, i: nat,
                    off: nat, src: seq<Byte>, r: nat, fault: nat, dirty: map<nat, Block>)
    requires Ownership(sb, d0, it0, ow0, {}) && Ownership(sb, d, it, ow, {}) && OwnersKept(ow0, ow)
    requires Slots(d0, it0, d, it, i, off / BSIZE, (off + r) / BSIZE + 1) && BlocksThere(d, it[i], off, r)
    requires off + |src| <= MAXFILE * BSIZE && r < |src| && r <= fault && (r > 0 ==> (off + r) % BSIZE == 0)
    requires AllUsed(sb, d, sb.size) && !HasBlock(d, it[i], (off + r) / BSIZE)
    ensures GetsIn(sb, d0, it0[i], |ow0|, off, |src|, fault, r)
    ensures !CopyFaults(sb, d0, it0[i], |ow0|, off, |src|, fault)
  {
    NotReached(sb, d0, it0, ow0, d, it, ow, i, off, r);
    SameStep(off, r, r);
    if fault < |src| && Reaches(sb, d0, it0[i], |ow0|, off, fault) {
      ReachesLess(sb, d0, it0[i], |ow0|, off, r, fault);
    }
    if Reaches(sb, d0, it0[i], |ow0|, off, |src| - 1) {
      ReachesLess(sb, d0, it0[i], |ow0|, off, r, |src| - 1);
    }
    if r > 0 {
      WasReached(sb, d0, it0, ow0, d, it, ow, i, off, r - 1, (off + r) / BSIZE + 1);
    }
  }

  /** The same blocks from the bitmap on. */
  predicate SameBeyond(sb: Super, d: Disk, d': Disk) {
    |d'| == |d| && forall b {:trigger d'[b]} :: sb.bmapstart <= b < |d| ==> d'[b] == d[b]
  }

  lemma WrittenBelow(sb: Super, d: Disk, i: nat, ino: Inode, d': Disk)
    requires SuperOk(sb, d) && i < sb.ninodes && d' == InodeWritten(sb, d, i, ino)
    ensures SameBeyond(sb, d, d')
  {
    InodeBelow(sb, d, i);
  }

  /** The new size and the inode written back change neither the slots nor how the write has ended. */
  lemma ExtendedSame(sb: Super, d0: Disk, it0: seq<Inode>, d: Disk, it: seq<Inode>, ow: Owner, d': Disk,
                     it': seq<Inode>, i: nat, off: nat, src: seq<Byte>, r: nat, fault: nat, dirty: map<nat, Block>)
    requires Ownership(sb, d, it, ow, {}) && i < |it| == |it'| && SameBeyond(sb, d, d')
    requires it' == it[i := WithSize(it[i], it'[i].size)] && r <= |src|
    requires Slots(d0, it0, d, it, i, off / BSIZE, TriedEnd(off, |src|, r))
    requires Ended(sb, d, it[i], off, src, r, fault, dirty)
    ensures Ended(sb, d', it'[i], off, src, r, fault, dirty)
    ensures Slots(d0, it0, d', it', i, off / BSIZE, TriedEnd(off, |src|, r))
  {
    SlotsBeyond(sb, d, it, ow, d', it', i);
    SlotsSame(d0, it0, d, it, d', it', i, off / BSIZE, TriedEnd(off, |src|, r));
    forall b | 0 <= b < sb.size ensures Used(sb, d', b) == Used(sb, d, b) {
      SameMark(sb, d, d', b);
    }
    StoppedKept(sb, d, it, ow, d', it'[i], i, off, src, r, fault, dirty);
  }

  lemma SlotsBeyond(sb: Super, d: Disk, it: seq<Inode>, ow: Owner, d': Disk, it': seq<Inode>, i: nat)
    requires Ownership(sb, d, it, ow, {}) && i < |it| == |it'| && SameBeyond(sb, d, d')
    requires it' == it[i := WithSize(it[i], it'[i].size)]
    ensures SameSlots(d, it, d', it')
  {
    forall j, k | 0 <= j < |it| && 0 <= k < NSLOTS ensures Addr(d', it'[j], k) == Addr(d, it[j], k) {
      SameAddr(sb, d, it, ow, d', j, k);
      assert it'[j].addrs == it[j].addrs;
    }
  }

  lemma StoppedKept(sb: Super, d: Disk, it: seq<Inode>, ow: Owner, d': Disk, ino: Inode, i: nat, off: nat,
                    src: seq<Byte>, r: nat, fault: nat, dirty: map<nat, Block>)
    requires Ownership(sb, d, it, ow, {}) && i < |it| && SameBeyond(sb, d, d') && ino.addrs == it[i].addrs
    ensures Stopped(d, it[i], off, src, r, fault, dirty) ==> Stopped(d', ino, off, src, r, fault, dirty)
    ensures HasBlock(d', ino, (off + r) / BSIZE) <==> HasBlock(d, it[i], (off + r) / BSIZE)
  {
    SameDataBytes(sb, d, it, ow, {}, d', i);
    SameAddrs(d', it[i], ino);
    if Stopped(d, it[i], off, src, r, fault, dirty) {
      SplicedBlock(sb, d, it, ow, i, (off + r) / BSIZE, Addr(d, it[i], Slot((off + r) / BSIZE)));
    }
  }

  /** The disk as bread shows it. */
  function Shown(d: Disk, dirty: map<nat, Block>): (r: Disk)
    ensures |r| == |d| && forall b {:trigger r[b]} :: 0 <= b < |d| ==> r[b] == if b in dirty then dirty[b] else d[b]
  {
    seq(|d|, b requires 0 <= b < |d| => if b in dirty then dirty[b] else d[b])
  }

  /** What a commit makes of the disk: for a logged block it copies the buffer, with what a failed copy left in it. */
  ghost function Commits(d: Disk, dirty: map<nat, Block>, logged: set<nat>): Disk {
    Shown(d, map b | b in dirty && b in logged :: dirty[b])
  }

  lemma CommitsClean(d: Disk, logged: set<nat>)
    ensures Commits(d, map[], logged) == d
  {
  }

  /** Those bytes lie past the end of the file: what is committed holds the files as writei left them. */
  lemma CommitsHolds(sb: Super, d0: Disk, it0: seq<Inode>, n: nat, d: Disk, it: seq<Inode>, ow: Owner,
                     logged: set<nat>, i: nat, off: nat, src: seq<Byte>, r: nat, fault: nat, dirty: map<nat, Block>)
    requires Sound(sb, Snapshot(d, it, ow)) && i < |it0| && InodeOk(d0, it0[i]) && off <= it0[i].size
    requires Wrote(sb, d0, it0, n, {}, d, it, logged, i, off, src, r, fault, dirty)
    requires it[i].size == Max(it0[i].size, off + r)
    ensures Holds(sb, Commits(d, dirty, logged), Snapshot(d, it, ow))
  {
    if dirty == map[] {
      CommitsClean(d, logged);
      SameFileSystem(sb, Snapshot(d, it, ow), d);
    } else {
      var bn := (off + r) / BSIZE;
      var a := Addr(d, it[i], Slot(bn));
      CommitsOne(d, dirty, logged, a);
      if a in logged {
        PastTheEnd(d0, it0[i], bn, off + r);
        UnloggedHolds(sb, d, it, ow, i, off, src, r, fault, dirty, bn, a);
      } else {
        SameFileSystem(sb, Snapshot(d, it, ow), d);
      }
    }
  }

  lemma CommitsOne(d: Disk, dirty: map<nat, Block>, logged: set<nat>, a: nat)
    requires a < |d| && forall b :: b in dirty <==> b == a
    ensures Commits(d, dirty, logged) == if a in logged then Shown(d, dirty) else d
  {
  }

  /** Wherever those bytes lie, what is committed is a consistent file system. */
  lemma CommitsSound(sb: Super, d0: Disk, it0: seq<Inode>, n: nat, l0: set<nat>, d: Disk, it: seq<Inode>, ow: Owner,
                     logged: set<nat>, i: nat, off: nat, src: seq<Byte>, r: nat, fault: nat, dirty: map<nat, Block>)
    requires Sound(sb, Snapshot(d, it, ow))
    requires Wrote(sb, d0, it0, n, l0, d, it, logged, i, off, src, r, fault, dirty)
    ensures Sound(sb, Snapshot(Commits(d, dirty, logged), it, ow))
  {
    if dirty == map[] {
      CommitsClean(d, logged);
    } else {
      var bn := (off + r) / BSIZE;
      var a := Addr(d, it[i], Slot(bn));
      CommitsOne(d, dirty, logged, a);
      if a in logged {
        UnloggedSound(sb, d, it, ow, i, off, src, r, fault, dirty, bn, a);
      }
    }
  }

  lemma UnloggedSound(sb: Super, d: Disk, it: seq<Inode>, ow: Owner, i: nat, off: nat, src: seq<Byte>, r: nat,
                      fault: nat, dirty: map<nat, Block>, bn: nat, a: nat)
    requires Sound(sb, Snapshot(d, it, ow)) && i < |it| && r < fault
    requires Stopped(d, it[i], off, src, r, fault, dirty)
    requires bn == (off + r) / BSIZE && a == Addr(d, it[i], Slot(bn))
    ensures Sound(sb, Snapshot(Shown(d, dirty), it, ow))
  {
    var c := Shown(d, dirty);
    SplicedBlock(sb, d, it, ow, i, bn, a);
    assert c == d[a := c[a]];
    WriteKeepsOwnership(sb, d, it, ow, {}, a, c[a]);
    StoredElsewhere(sb, d, it, c);
    forall j | 0 <= j < |it| ensures InodeOk(c, it[j]) {
      assert InodeOk(d, it[j]);
      MappedWrite(sb, d, it, ow, a, c, j, it[j].size);
    }
  }

  lemma UnloggedHolds(sb: Super, d: Disk, it: seq<Inode>, ow: Owner, i: nat, off: nat, src: seq<Byte>, r: nat,
                      fault: nat, dirty: map<nat, Block>, bn: nat, a: nat)
    requires Sound(sb, Snapshot(d, it, ow)) && i < |it| && it[i].size <= off + r && r < fault
    requires Stopped(d, it[i], off, src, r, fault, dirty)
    requires bn == (off + r) / BSIZE && a == Addr(d, it[i], Slot(bn))
    ensures Holds(sb, Shown(d, dirty), Snapshot(d, it, ow))
  {
    var c := Shown(d, dirty);
    UnloggedSound(sb, d, it, ow, i, off, src, r, fault, dirty, bn, a);
    forall j | 0 <= j < |it| ensures Contents(c, it[j]) == Contents(d, it[j]) {
      UnloggedFile(sb, d, it, ow, i, off, src, r, fault, dirty, c, j);
    }
  }

  lemma UnloggedFile(sb: Super, d: Disk, it: seq<Inode>, ow: Owner, i: nat, off: nat, src: seq<Byte>, r: nat,
                     fault: nat, dirty: map<nat, Block>, c: Disk, j: nat)
    requires Ownership(sb, d, it, ow, {}) && i < |it| && it[i].size <= off + r
    requires Stopped(d, it[i], off, src, r, fault, dirty) && j < |it| && c == Shown(d, dirty)
    ensures Contents(c, it[j]) == Contents(d, it[j])
  {
    forall p | 0 <= p < it[j].size ensures Contents(c, it[j])[p] == Contents(d, it[j])[p] {
      UnloggedBytes(sb, d, it, ow, i, off, src, r, fault, dirty, j, p);
    }
  }

  lemma PastTheEnd(d: Disk, ino: Inode, bn: nat, off: nat)
    requires InodeOk(d, ino) && bn == off / BSIZE && !HasBlock(d, ino, bn)
    ensures ino.size <= off
  {
    assert !(bn * BSIZE < ino.size);
  }

  /**
   After such a write the file reads as if the bytes up to the failing one had been written, though
   they were neither reported nor logged; every other file reads as it should.
   */
  lemma UnloggedBytes(sb: Super, d: Disk, it: seq<Inode>, ow: Owner, i: nat, off: nat, src: seq<Byte>, r: nat,
                      fault: nat, dirty: map<nat, Block>, j: nat, p: nat)
    requires Ownership(sb, d, it, ow, {}) && i < |it| && j < |it|
    requires Stopped(d, it[i], off, src, r, fault, dirty)
    ensures ByteAt(Shown(d, dirty), it[j], p) ==
            if j == i && off + r <= p < off + fault then src[p - off] else ByteAt(d, it[j], p)
  {
    var a := Addr(d, it[i], Slot((off + r) / BSIZE));
    var chunk := src[r..fault];
    SplicedBlock(sb, d, it, ow, i, (off + r) / BSIZE, a);
    if r == fault {
      assert Shown(d, dirty) == d;
    } else {
      assert Shown(d, dirty) == d[a := Splice(d[a], (off + r) % BSIZE, chunk)];
      if j == i {
        SpliceBytes(sb, d, it, ow, {}, i, off + r, chunk, p);
      } else {
        OtherFileBytes(sb, d, it, ow, {}, a, Splice(d[a], (off + r) % BSIZE, chunk), j, p);
      }
    }
  }

  /** An inode write leaves the bitmap alone. */
  lemma SameMarks(sb: Super, d: Disk, i: nat, ino: Inode, d': Disk)
    requires SuperOk(sb, d) && i < sb.ninodes && d' == InodeWritten(sb, d, i, ino)
    ensures forall b :: 0 <= b < sb.size ==> Used(sb, d', b) == Used(sb, d, b)
  {
    InodeBelow(sb, d, i);
  }

  lemma OwnersKeptTrans(a: Owner, b: Owner, c: Owner)
    requires OwnersKept(a, b) && OwnersKept(b, c)
    ensures OwnersKept(a, c)
  {
  }

  /** Files that read the same before and after the inode is written back. */
  lemma WrittenBack(d0: Disk, it0: seq<Inode>, d1: Disk, d: Disk, it: seq<Inode>, i: nat)
    requires OthersSame(d0, it0, d1, it, i)
    requires forall j {:trigger Contents(d, it[j])} :: 0 <= j < |it| ==> Contents(d, it[j]) == Contents(d1, it[j])
    ensures OthersSame(d0, it0, d, it, i)
  {
    forall j | 0 <= j < |it| && j != i ensures SameFile(d0, it0, d, it, j) {
      assert SameFile(d0, it0, d1, it, j);
    }
  }

  lemma OthersUnchanged(d: Disk, it: seq<Inode>, i: nat)
    ensures OthersSame(d, it, d, it, i)
  {
  }

  lemma OthersReplaced(d0: Disk, it0: seq<Inode>, d: Disk, it: seq<Inode>, i: nat, ino: Inode)
    requires i < |it0| && it == it0[i := ino]
    requires forall j {:trigger Contents(d, it0[j])} :: 0 <= j < |it0| ==> Contents(d, it0[j]) == Contents(d0, it0[j])
    ensures OthersSame(d0, it0, d, it, i)
  {
    forall j | 0 <= j < |it| && j != i ensures SameFile(d0, it0, d, it, j) {
      assert it[j] == it0[j];
    }
  }

  /** Releasing the blocks of one file leaves the other files as they were. */
  lemma OthersUntouched(sb: Super, d0: Disk, it0: seq<Inode>, ow0: Owner, d: Disk, it: seq<Inode>, i: nat)
    requires Ownership(sb, d0, it0, ow0, {}) && |d| == |d0| && i < |it0| == |it| && it == it0[i := it[i]]
    requires forall j {:trigger InodeOk(d0, it0[j])} :: 0 <= j < |it0| ==> InodeOk(d0, it0[j])
    requires forall x :: sb.datastart <= x < |d| ==> d[x] == d0[x]
    requires it[i].size == 0 && it[i].addrs == NoAddrs
    ensures OthersSame(d0, it0, d, it, i)
    ensures forall j {:trigger InodeOk(d, it[j])} :: 0 <= j < |it| ==> InodeOk(d, it[j])
  {
    forall j | 0 <= j < |it| && j != i ensures SameFile(d0, it0, d, it, j) && InodeOk(d, it[j]) {
      assert InodeOk(d0, it0[j]);
      SameDataFile(sb, d0, it0, ow0, {}, d, j);
    }
  }

  /** The state after the size update of writei. */
  lemma FinishWrite(sb: Super, d0: Disk, it0: seq<Inode>, d: Disk, it: seq<Inode>, ow: Owner,
                    i: nat, off: nat, src: seq<Byte>, tot: nat, it': seq<Inode>)
    requires Ownership(sb, d, it, ow, {}) && Progress(d0, it0, d, it, i, off, src, tot)
    requires off <= it0[i].size && it0[i].kind != 0 && forall j :: 0 <= j < |it0| ==> InodeOk(d0, it0[j])
    requires off + tot <= MAXFILE * BSIZE && it' == it[i := WithSize(it[i], Max(it[i].size, off + tot))]
    ensures Ownership(sb, d, it', ow, {})
    ensures forall j {:trigger InodeOk(d, it'[j])} :: 0 <= j < |it'| ==> InodeOk(d, it'[j])
    ensures Contents(d, it'[i]) == Overwrite(Contents(d0, it0[i]), off, src[..tot])
    ensures OthersSame(d0, it0, d, it', i)
  {
    SameAddrsOwnership(sb, d, it, ow, i, it'[i]);
    ProgressDone(d0, it0, d, it, i, off, src, tot, it'[i]);
    forall j | 0 <= j < |it'| && j != i ensures InodeOk(d, it'[j]) && SameFile(d0, it0, d, it', j) {
      OthersDone(d0, it0, d, it, i, off, src, tot, j);
    }
  }

  /** Four data blocks, three of them new, an indirect block and its mark, and the inode: ten. */
  lemma LoggedBound(sb: Super, before: set<nat>, data: set<nat>, maps: set<nat>, ino: Inode, ib: nat, was: set<nat>,
                    logged: set<nat>, off: nat, n: nat)
    requires logged == was + {ib} && Spent(before, was, IndirectBlocks(sb, ino), data, maps, off, n)
    ensures n <= 3 * BSIZE ==> |logged| <= |before| + MAXOPBLOCKS
  {
    var ind := IndirectBlocks(sb, ino);
    forall b | b in logged ensures b in before + data + maps + ind + {ib} {
      assert Listed(before, was, ind, data, maps, b);
    }
    SubsetSize(logged, before + data + maps + ind + {ib});
    UnionSize(before + data + maps + ind, {ib});
    UnionSize(before + data + maps, ind);
    UnionSize(before + data, maps);
    UnionSize(before, data);
  }

  /**
   Ten blocks are needed: a write that logs its first block, which the file had before, its inode block, and
   four new blocks marked in four different bitmap blocks.
   */
  lemma TenBlocksLogged(sb: Super, d: Disk, it: seq<Inode>, ow: Owner, base: Snapshot, logged: set<nat>,
                        trace: seq<RedoLog.Write>, i: nat, first: nat, news: seq<nat>)
    requires Ownership(sb, d, it, ow, {}) && Recorded(sb, base, d, ow, logged, trace)
    requires i < sb.ninodes && IBlock(sb, i) in logged && first in base.owner && first in logged
    requires sb.datastart <= first
    requires |news| == 4 && forall k :: 0 <= k < 4 ==> news[k] in ow && news[k] !in base.owner
    requires forall j, k :: 0 <= j < k < 4 ==> BBlock(sb, news[j]) != BBlock(sb, news[k])
    ensures |logged| >= MAXOPBLOCKS
  {
    var a, b, c, e := news[0], news[1], news[2], news[3];
    NewBlock(sb, d, it, ow, base, logged, trace, a);
    NewBlock(sb, d, it, ow, base, logged, trace, b);
    NewBlock(sb, d, it, ow, base, logged, trace, c);
    NewBlock(sb, d, it, ow, base, logged, trace, e);
    InodeBelow(sb, d, i);
    TenElements(logged, sb.datastart, sb.bmapstart, a, b, c, e,
                BBlock(sb, a), BBlock(sb, b), BBlock(sb, c), BBlock(sb, e), first, IBlock(sb, i));
  }

  lemma NewBlock(sb: Super, d: Disk, it: seq<Inode>, ow: Owner, base: Snapshot, logged: set<nat>,
                 trace: seq<RedoLog.Write>, b: nat)
    requires Ownership(sb, d, it, ow, {}) && Recorded(sb, base, d, ow, logged, trace) && b in ow && b !in base.owner
    ensures b in logged && BBlock(sb, b) in logged && sb.bmapstart <= BBlock(sb, b) < sb.datastart <= b
  {
    assert NewKept(sb, base.owner, ow, logged, b) && Placed(sb, d, it, ow, b);
  }

  lemma Four(a: nat, b: nat, c: nat, e: nat)
    requires a != b && a != c && a != e && b != c && b != e && c != e
    ensures |{a, b, c, e}| == 4
  {
    assert {a, b, c, e} == {a, b} + {c, e} && |{a, b}| == 2 && |{c, e}| == 2;
  }

  lemma TenElements(s: set<nat>, hi: nat, lo: nat, a: nat, b: nat, c: nat, e: nat, a': nat, b': nat, c': nat, e': nat,
                    f: nat, g: nat)
    requires {a, b, c, e, a', b', c', e', f, g} <= s && g < lo <= hi && hi <= a && hi <= b && hi <= c && hi <= e
    requires hi <= f
    requires lo <= a' < hi && lo <= b' < hi && lo <= c' < hi && lo <= e' < hi
    requires a != b && a != c && a != e && b != c && b != e && c != e && f !in {a, b, c, e}
    requires a' != b' && a' != c' && a' != e' && b' != c' && b' != e' && c' != e'
    ensures |s| >= 10
  {
    var data, maps := {a, b, c, e}, {a', b', c', e'};
    Four(a, b, c, e);
    Four(a', b', c', e');
    DisjointSize(data, maps, {f}, g);
    SubsetSize(data + maps + {f} + {g}, s);
  }

  lemma DisjointSize(a: set<nat>, b: set<nat>, c: set<nat>, x: nat)
    requires a !! b && (a + b) !! c && x !in a + b + c
    ensures |a + b + c + {x}| == |a| + |b| + |c| + 1
  {
  }

  /** 32-bit addition overflows exactly when the sum comes out smaller. */
  lemma Wraps(a: Word, b: Word)
    ensures (a + b) % 0x1_0000_0000 < a <==> a + b >= 0x1_0000_0000
  {
  }

  lemma SliceNext<T>(s: seq<T>, a: nat, b: nat, c: nat)
    requires a <= b <= c <= |s|
    ensures s[a..b] + s[b..c] == s[a..c]
  {
  }

  function Min(a: nat, b: nat): nat { if a < b then a else b }

  /** The number of blocks that bytes off .. off + n overlap. */
  function BlocksTouched(off: nat, n: nat): nat {
    if n == 0 then 0 else (off + n - 1) / BSIZE - off / BSIZE + 1
  }

  /** Every logged block is one of these. */
  ghost predicate Within(before: set<nat>, logged: set<nat>, ind: set<nat>, data: set<nat>, maps: set<nat>) {
    forall b: nat {:trigger Listed(before, logged, ind, data, maps, b)} :: Listed(before, logged, ind, data, maps, b)
  }

  predicate Listed(before: set<nat>, logged: set<nat>, ind: set<nat>, data: set<nat>, maps: set<nat>, b: nat) {
    b in logged ==> b in before || b in data || b in maps || b in ind
  }

  /** The blocks logged so far: data blocks, bitmap blocks of new ones, and the indirect block's. */
  ghost predicate Cost(before: set<nat>, logged: set<nat>, ind: set<nat>, data: set<nat>, maps: set<nat>, off: nat,
                       tot: nat, n: nat) {
    && Within(before, logged, ind, data, maps) && tot <= n
    && (0 < tot < n ==> (off + tot) % BSIZE == 0)
    && |data| <= BlocksTouched(off, tot)
    && |maps| + (if off % BSIZE != 0 && tot > 0 then 1 else 0) <= BlocksTouched(off, tot)
  }

  /** The account when the write stops: enough for as many blocks as the whole write overlaps. */
  ghost predicate Spent(before: set<nat>, logged: set<nat>, ind: set<nat>, data: set<nat>, maps: set<nat>, off: nat,
                        n: nat) {
    && Within(before, logged, ind, data, maps)
    && |data| <= BlocksTouched(off, n)
    && |maps| + (if off % BSIZE != 0 && n > 0 then 1 else 0) <= BlocksTouched(off, n)
  }

  lemma CostNext(before: set<nat>, logged: set<nat>, logged': set<nat>, ind: set<nat>, ind': set<nat>, data: set<nat>,
                 maps: set<nat>, addr: nat, map': set<nat>, off: nat, tot: nat, m: nat, n: nat)
    requires Cost(before, logged, ind, data, maps, off, tot, n) && tot < n
    requires m == Min(n - tot, BSIZE - (off + tot) % BSIZE)
    requires logged' <= logged + {addr} + map' + ind' && ind <= ind' && |map'| <= 1
    requires tot == 0 && off % BSIZE != 0 ==> map' == {}
    ensures 0 < m && Cost(before, logged', ind', data + {addr}, maps + map', off, tot + m, n)
  {
    forall b: nat ensures Listed(before, logged', ind', data + {addr}, maps + map', b) {
      assert Listed(before, logged, ind, data, maps, b);
    }
    UnionSize(data, {addr});
    UnionSize(maps, map');
    TouchedNext(off, tot, m, n);
  }

  /** One turn's account, whether it wrote its bytes or stopped. */
  lemma CostTurn(before: set<nat>, logged: set<nat>, logged': set<nat>, ind: set<nat>, ind': set<nat>, data: set<nat>,
                 maps: set<nat>, addr: nat, map': set<nat>, off: nat, tot: nat, next: nat, n: nat)
    requires Cost(before, logged, ind, data, maps, off, tot, n) && tot < n
    requires next == tot || next == tot + Min(n - tot, BSIZE - (off + tot) % BSIZE)
    requires logged' <= logged + {addr} + map' + ind' && ind <= ind' && |map'| <= 1
    requires tot == 0 && off % BSIZE != 0 ==> map' == {}
    ensures tot <= next <= n && Spent(before, logged', ind', data + {addr}, maps + map', off, n)
    ensures next != tot ==> Cost(before, logged', ind', data + {addr}, maps + map', off, next, n)
  {
    var m := Min(n - tot, BSIZE - (off + tot) % BSIZE);
    CostNext(before, logged, logged', ind, ind', data, maps, addr, map', off, tot, m, n);
    CostDone(before, logged', ind', data + {addr}, maps + map', off, tot + m, n);
  }

  lemma TouchedNext(off: nat, tot: nat, m: nat, n: nat)
    requires tot < n && m == Min(n - tot, BSIZE - (off + tot) % BSIZE)
    requires 0 < tot < n ==> (off + tot) % BSIZE == 0
    ensures 0 < m && BlocksTouched(off, tot + m) == BlocksTouched(off, tot) + 1
    ensures 0 < tot + m < n ==> (off + (tot + m)) % BSIZE == 0
  {
  }

  lemma CostDone(before: set<nat>, logged: set<nat>, ind: set<nat>, data: set<nat>, maps: set<nat>, off: nat, tot: nat,
                 n: nat)
    requires Cost(before, logged, ind, data, maps, off, tot, n)
    ensures Spent(before, logged, ind, data, maps, off, n)
  {
  }

  /** An unaligned offset lies in a block that the file already has. */
  lemma FirstBlockMapped(d0: Disk, it0: seq<Inode>, d: Disk, it: seq<Inode>, i: nat, off: nat, src: seq<Byte>, tot: nat,
                         bn: nat)
    requires Progress(d0, it0, d, it, i, off, src, tot) && off <= it0[i].size && bn == (off + tot) / BSIZE
    ensures tot == 0 && off % BSIZE != 0 ==> HasBlock(d, it[i], bn)
  {
  }

  lemma StartProgress(d: Disk, it: seq<Inode>, i: nat, off: nat, src: seq<Byte>)
    requires i < |it| && off <= it[i].size && forall j :: 0 <= j < |it| ==> InodeOk(d, it[j])
    ensures Progress(d, it, d, it, i, off, src, 0)
  {
  }

  /** A data block written moves no address. */
  lemma DataWriteSlots(sb: Super, d: Disk, it: seq<Inode>, ow: Owner, a: nat, d': Disk)
    requires Ownership(sb, d, it, ow, {}) && a in ow && ow[a].slot != NDIRECT
    requires |d'| == |d| && a < |d| && d' == d[a := d'[a]]
    ensures SameSlots(d, it, d', it)
  {
    assert Placed(sb, d, it, ow, a);
    WriteKeepsOwnership(sb, d, it, ow, {}, a, d'[a]);
  }

  /** One more turn of the write loop. */
  lemma TurnSlots(d0: Disk, it0: seq<Inode>, d: Disk, it: seq<Inode>, d': Disk, it': seq<Inode>, i: nat, off: nat,
                  tot: nat, next: nat, n: nat)
    requires Slots(d0, it0, d, it, i, off / BSIZE, BlockEnd(off, tot)) && tot < n
    requires Slots(d, it, d', it', i, (off + tot) / BSIZE, (off + tot) / BSIZE + 1)
    requires (0 < tot ==> (off + tot) % BSIZE == 0)
    requires next == tot || next == tot + Min(n - tot, BSIZE - (off + tot) % BSIZE)
    ensures Slots(d0, it0, d', it', i, off / BSIZE,
                  if next == tot then (off + tot) / BSIZE + 1 else BlockEnd(off, next))
  {
    TurnBlocks(off, tot, next, n);
    SlotsTrans(d0, it0, d, it, d', it', i, off / BSIZE, BlockEnd(off, tot), (off + tot) / BSIZE,
               (off + tot) / BSIZE + 1);
  }

  lemma TurnBlocks(off: nat, tot: nat, next: nat, n: nat)
    requires tot < n && (0 < tot ==> (off + tot) % BSIZE == 0)
    requires next == tot || next == tot + Min(n - tot, BSIZE - (off + tot) % BSIZE)
    ensures BlockEnd(off, tot) == (off + tot) / BSIZE && off / BSIZE <= (off + tot) / BSIZE
    ensures next != tot ==> BlockEnd(off, next) == (off + tot) / BSIZE + 1
  {
  }

  /** An indirect block, once there, stays. */
  lemma IndirectGrown(sb: Super, d: Disk, it: seq<Inode>, ow: Owner, d': Disk, it': seq<Inode>, ow': Owner, i: nat)
    requires Grown(d, it, ow, d', it', ow', i)
    ensures IndirectBlocks(sb, it[i]) <= IndirectBlocks(sb, it'[i])
  {
    assert SlotKept(d, it, d', it', i, i, NDIRECT);
  }

  /** The bitmap block of a newly allocated data block. */
  function NewMap(sb: Super, had: bool, addr: nat): set<nat> {
    if had then {} else {BBlock(sb, addr)}
  }

  /** What the allocation of a data block logs: the block and its bitmap block. */
  function Logs(sb: Super, addr: nat): set<nat> {
    if addr == 0 then {} else {addr, BBlock(sb, addr)}
  }

  /** The indirect block of an inode and the bitmap block of its allocation. */
  function IndirectBlocks(sb: Super, ino: Inode): set<nat> {
    if ino.addrs[NDIRECT] == 0 then {} else {ino.addrs[NDIRECT], BBlock(sb, ino.addrs[NDIRECT])}
  }
}
