/**
 Operations that overlap share one transaction: each joins it at begin_op, and the end_op of the
 last commits for all of them. A crash then leaves all of what they did, or nothing.
 */
module Transaction {
  import opened Bytes
  import opened Dinode
  import opened Params
  import opened FsModel
  import RedoLog
  import Log
  import Fs
  import FileWrite
  import opened Operation

  /** What the transaction has changed so far is in the log, and the disk is still as it was. */
  ghost predicate Open(fs: Fs.Fs, log: Log.Log)
    reads fs, log, log.block
  {
    && fs.Settled() && Sound(fs.sb, fs.base) && log.Valid() && !log.committing
    && log.g.start + log.g.size <= fs.sb.inodestart && SameFrom(fs.sb.inodestart, fs.base.disk, log.disk)
    && log.lh == Listed(fs.trace, |fs.trace|) && log.pinned == Final(fs.trace, fs.dirty)
    && (log.outstanding == 0 ==> Fresh(fs))
  }

  /** Nothing has been logged yet. */
  ghost predicate Fresh(fs: Fs.Fs)
    reads fs
  {
    fs.trace == [] && fs.logged == {} && fs.dirty == map[] && fs.base == Snapshot(fs.disk, fs.itable, fs.owner)
  }

  /** What writei did as one of the operations. */
  ghost predicate Joined(sb: Super, d0: Disk, it0: seq<Inode>, n: nat, l0: set<nat>, d: Disk, it: seq<Inode>,
                         logged: set<nat>, j: nat, off: nat, chunk: seq<Byte>, r: int, fault: nat,
                         dirty: map<nat, Block>) {
    && SuperOk(sb, d) && j < |it0| == |it| && 0 <= r <= |chunk| && off <= it0[j].size
    && Fs.Wrote(sb, d0, it0, n, l0, d, it, logged, j, off, chunk, r, fault, dirty)
    && Contents(d, it[j]) == Overwrite(Contents(d0, it0[j]), off, chunk[..r])
  }

  lemma Unchanged(pins: map<nat, Block>)
    ensures Log.Rewritten(pins, map[]) == pins
  {
  }

  /** The first k calls of a longer sequence list what they list of their own. */
  lemma {:induction false} ListedPrefix(a: seq<RedoLog.Write>, b: seq<RedoLog.Write>, k: nat)
    requires a <= b && k <= |a|
    ensures Listed(b, k) == Listed(a, k) && Buffers(b, k) == Buffers(a, k)
  {
    if k > 0 {
      ListedPrefix(a, b, k - 1);
    }
  }

  /**
   begin_op and one chunk of a write: it is admitted if the log has room for it beside the operations
   outstanding, and it joins them. `ok` is false if one of its log_write calls panics.
   */
  method Join(file: FileWrite.File, log: Log.Log, chunk: seq<Byte>, fault: nat)
    returns (admitted: bool, ok: bool, r: int)
    requires Open(file.fs, log) && file.fs.dirty == map[]
    requires file.inum < |file.fs.itable| && file.fs.itable[file.inum].kind != 0 && 0 < |chunk| <= FileWrite.MAXCHUNK
    modifies file, file.fs, log, log.block
    ensures admitted <==> old(log.n) + (old(log.outstanding) + 1) * MAXOPBLOCKS <= LOGSIZE
    ensures !admitted ==> unchanged(file) && unchanged(file.fs) && unchanged(log) && unchanged(log.block)
    ensures file.fs.Settled() && file.fs.base == old(file.fs.base) && |file.fs.itable| == |old(file.fs.itable)|
    ensures log.disk == old(log.disk) && log.trace == old(log.trace)
    ensures log.outstanding == old(log.outstanding) + if admitted then 1 else 0
    ensures |file.fs.logged| <= |old(file.fs.logged)| + MAXOPBLOCKS
    ensures ok <==> forall k {:trigger NoRoom(log.g, file.fs.trace, k)} ::
              |old(file.fs.trace)| <= k < |file.fs.trace| ==> !NoRoom(log.g, file.fs.trace, k)
    ensures ok ==> Open(file.fs, log)
    ensures Sound(file.fs.sb, Snapshot(Fs.Commits(file.fs.disk, file.fs.dirty, file.fs.logged), file.fs.itable,
                                       file.fs.owner))
    ensures OthersSame(old(file.fs.disk), old(file.fs.itable), file.fs.disk, file.fs.itable, file.inum)
    ensures r == -1 ==>
              file.fs.disk == old(file.fs.disk) && file.fs.itable == old(file.fs.itable) && file.fs.dirty == map[]
    ensures file.fs.itable[file.inum].kind == old(file.fs.itable)[file.inum].kind
    ensures file.off == old(file.off) + if r > 0 then r else 0
    ensures admitted && r != -1 ==>
              Joined(file.fs.sb, old(file.fs.disk), old(file.fs.itable), |old(file.fs.owner)|, old(file.fs.logged),
                     file.fs.disk, file.fs.itable, file.fs.logged, file.inum, old(file.off), chunk, r, fault,
                     file.fs.dirty)
  {
    admitted := log.TryBeginOp();
    if !admitted {
      Fs.CommitsClean(file.fs.disk, file.fs.logged);
      Fs.OthersUnchanged(file.fs.disk, file.fs.itable, file.inum);
      return false, true, -1;
    }
    var from := |file.fs.trace|;
    ghost var was := file.fs.trace;
    r := WriteJoined(file, chunk, fault);
    ListedPrefix(was, file.fs.trace, from);
    Unchanged(Buffers(was, from));
    ok := LogJoined(file.fs, log, from);
  }

  /** writei, as an operation of the open transaction. */
  method WriteJoined(file: FileWrite.File, chunk: seq<Byte>, fault: nat) returns (r: int)
    requires file.fs.Valid() && file.inum < |file.fs.itable| && file.fs.itable[file.inum].kind != 0
    requires 0 < |chunk| <= FileWrite.MAXCHUNK
    modifies file, file.fs
    ensures file.fs.Settled() && file.fs.base == old(file.fs.base) && |file.fs.itable| == |old(file.fs.itable)|
    ensures old(file.fs.trace) <= file.fs.trace && |file.fs.logged| <= |old(file.fs.logged)| + MAXOPBLOCKS
    ensures Sound(file.fs.sb, Snapshot(Fs.Commits(file.fs.disk, file.fs.dirty, file.fs.logged), file.fs.itable,
                                       file.fs.owner))
    ensures OthersSame(old(file.fs.disk), old(file.fs.itable), file.fs.disk, file.fs.itable, file.inum)
    ensures r == -1 ==>
              file.fs.disk == old(file.fs.disk) && file.fs.itable == old(file.fs.itable) && file.fs.dirty == map[]
    ensures file.fs.itable[file.inum].kind == old(file.fs.itable)[file.inum].kind
    ensures file.off == old(file.off) + if r > 0 then r else 0
    ensures r != -1 ==> Joined(file.fs.sb, old(file.fs.disk), old(file.fs.itable), |old(file.fs.owner)|,
                               old(file.fs.logged), file.fs.disk, file.fs.itable, file.fs.logged, file.inum,
                               old(file.off), chunk, r, fault, file.fs.dirty)
  {
    file.fs.JoinOp();
    ghost var d0, it0, ow0, l0, off0 := file.fs.disk, file.fs.itable, file.fs.owner, file.fs.logged, file.off;
    ghost var first;
    r, first := file.fs.Writei(file.inum, chunk, file.off, fault);
    if r == -1 {
      Fs.CommitsClean(file.fs.disk, file.fs.logged);
    } else {
      Fs.CommitsSound(file.fs.sb, d0, it0, |ow0|, l0, file.fs.disk, file.fs.itable, file.fs.owner, file.fs.logged,
                      file.inum, off0, chunk, r, fault, file.fs.dirty);
    }
    if r > 0 {
      file.off := file.off + r;
    }
  }

  /** Its log_write calls, those from `from` on. */
  method LogJoined(fs: Fs.Fs, log: Log.Log, from: nat) returns (ok: bool)
    requires fs.Settled() && log.Valid() && log.outstanding >= 1 && from <= |fs.trace|
    requires log.g.start + log.g.size <= fs.sb.inodestart && |log.disk| == |fs.base.disk|
    requires log.lh == Listed(fs.trace, from) && log.pinned == Buffers(fs.trace, from)
    modifies log`n, log`lh, log`pinned, log.block
    ensures log.Valid()
    ensures ok <==> forall k {:trigger NoRoom(log.g, fs.trace, k)} :: from <= k < |fs.trace| ==>
                      !NoRoom(log.g, fs.trace, k)
    ensures ok ==> log.lh == Listed(fs.trace, |fs.trace|) && log.pinned == Final(fs.trace, fs.dirty)
  {
    LogPlace(log.g, fs.sb, log.disk, fs.base, Snapshot(fs.disk, fs.itable, fs.owner), fs.logged, fs.trace);
    ok := LogFrom(log, fs.trace, from);
    if ok {
      log.Rewrite(fs.dirty);
    }
  }

  /**
   end_op. While others are outstanding nothing happens to the disk; the last commits for all of them: a crash
   leaves the file system as the first found it, or as the last left it.
   */
  method Leave(fs: Fs.Fs, log: Log.Log) returns (ghost cw: seq<RedoLog.Write>)
    requires Open(fs, log) && log.outstanding >= 1
    requires Sound(fs.sb, Snapshot(Fs.Commits(fs.disk, fs.dirty, fs.logged), fs.itable, fs.owner))
    modifies fs, log, log.block
    ensures fs.disk == old(fs.disk) && fs.itable == old(fs.itable) && fs.owner == old(fs.owner)
    ensures fs.dirty == old(fs.dirty) && log.outstanding == old(log.outstanding) - 1
    ensures Wrote(log, old(log.disk), old(log.trace), cw)
    ensures log.outstanding > 0 ==> cw == [] && Open(fs, log) && unchanged(fs)
    ensures log.outstanding == 0 ==>
              AllOrNothing(log.g, fs.sb, old(log.disk), cw, |old(fs.logged)|, old(fs.base),
                           Snapshot(Fs.Commits(fs.disk, fs.dirty, old(fs.logged)), fs.itable, fs.owner))
    ensures log.outstanding == 0 && fs.dirty == map[] ==> Open(fs, log) && Fresh(fs)
  {
    if log.outstanding > 1 {
      cw := [];
      var ok := log.EndOp();
    } else {
      cw := LeaveLast(fs, log);
      if fs.dirty == map[] {
        Fs.CommitsClean(fs.disk, fs.logged);
        StartOver(fs, log);
      }
    }
  }

  method LeaveLast(fs: Fs.Fs, log: Log.Log) returns (ghost cw: seq<RedoLog.Write>)
    requires Open(fs, log) && log.outstanding == 1
    requires Sound(fs.sb, Snapshot(Fs.Commits(fs.disk, fs.dirty, fs.logged), fs.itable, fs.owner))
    modifies log
    ensures log.Valid() && log.lh == [] && log.outstanding == 0 && !log.committing
    ensures Wrote(log, old(log.disk), old(log.trace), cw)
    ensures SameFrom(fs.sb.inodestart, Fs.Commits(fs.disk, fs.dirty, fs.logged), log.disk)
    ensures AllOrNothing(log.g, fs.sb, old(log.disk), cw, |fs.logged|, fs.base,
                         Snapshot(Fs.Commits(fs.disk, fs.dirty, fs.logged), fs.itable, fs.owner))
  {
    ghost var d, ws := log.disk, fs.trace;
    ghost var now := Snapshot(fs.disk, fs.itable, fs.owner);
    ghost var after := now.(disk := Fs.Commits(fs.disk, fs.dirty, fs.logged));
    cw := CommitLast(log, ws, fs.dirty);
    HomeBlocks(log.g, fs.sb, d, fs.base, now, fs.logged, ws, fs.dirty, log.disk, true);
    SameFileSystem(fs.sb, after, after.disk);
    EveryCrash(log.g, fs.sb, d, fs.base, now, after, fs.logged, ws, fs.dirty);
  }

  /** The next transaction. */
  method StartOver(fs: Fs.Fs, log: Log.Log)
    requires fs.Valid() && log.Valid() && log.lh == [] && log.outstanding == 0 && !log.committing
    requires log.g.start + log.g.size <= fs.sb.inodestart && SameFrom(fs.sb.inodestart, fs.disk, log.disk)
    modifies fs`logged, fs`trace, fs`base, fs`mark
    ensures Open(fs, log) && Fresh(fs)
  {
    fs.BeginOp();
    assert log.pinned == map[];
  }

  /** Of two operations that overlap, each is admitted, and none of its log_write calls panics. */
  method JoinOneOrTwo(file: FileWrite.File, log: Log.Log, chunk: seq<Byte>) returns (r: int)
    requires Open(file.fs, log) && file.fs.dirty == map[] && log.outstanding <= 1
    requires |file.fs.logged| <= log.outstanding * MAXOPBLOCKS && log.g.size - 1 > 2 * MAXOPBLOCKS
    requires file.inum < |file.fs.itable| && file.fs.itable[file.inum].kind != 0 && 0 < |chunk| <= FileWrite.MAXCHUNK
    modifies file, file.fs, log, log.block
    ensures Open(file.fs, log) && file.fs.dirty == map[] && log.outstanding == old(log.outstanding) + 1
    ensures |file.fs.logged| <= log.outstanding * MAXOPBLOCKS && file.fs.base == old(file.fs.base)
    ensures log.disk == old(log.disk) && log.trace == old(log.trace)
    ensures OneWritten(old(file.fs.disk), old(file.fs.itable), file.fs.disk, file.fs.itable, file.inum, old(file.off),
                       chunk, r)
  {
    var admitted, ok;
    CountListed(file.fs.trace);
    admitted, ok, r := Join(file, log, chunk, |chunk|);
    RoomForBoth(log.g, file.fs.trace, file.fs.logged);
  }

  /**
   Two writes of two processes, of which the second begins before the first has ended: they are committed
   together, and a crash leaves both or neither.
   */
  method TwoWriters(a: FileWrite.File, b: FileWrite.File, log: Log.Log, x: seq<Byte>, y: seq<Byte>)
    returns (r: int, q: int, ghost d: Disk, ghost it: seq<Inode>, ghost cw: seq<RedoLog.Write>, ghost point: nat)
    requires a.fs == b.fs && a != b && Open(a.fs, log) && log.outstanding == 0 && log.g.size - 1 > 2 * MAXOPBLOCKS
    requires a.inum < |a.fs.itable| && a.fs.itable[a.inum].kind != 0 && 0 < |x| <= FileWrite.MAXCHUNK
    requires b.inum < |b.fs.itable| && b.fs.itable[b.inum].kind != 0 && 0 < |y| <= FileWrite.MAXCHUNK
    modifies a, b, a.fs, log, log.block
    ensures Open(a.fs, log) && Fresh(a.fs) && log.outstanding == 0 && Wrote(log, old(log.disk), old(log.trace), cw)
    ensures OneWritten(old(a.fs.disk), old(a.fs.itable), d, it, a.inum, old(a.off), x, r)
    ensures OneWritten(d, it, a.fs.disk, a.fs.itable, b.inum, old(b.off), y, q)
    ensures AllOrNothing(log.g, a.fs.sb, old(log.disk), cw, point, old(a.fs.base), a.fs.base)
  {
    r := JoinOneOrTwo(a, log, x);
    d, it := a.fs.disk, a.fs.itable;
    assert b.inum != a.inum ==> SameFile(old(a.fs.disk), old(a.fs.itable), d, it, b.inum);
    q := JoinOneOrTwo(b, log, y);
    point, cw := LeaveBoth(a.fs, log);
  }

  method LeaveBoth(fs: Fs.Fs, log: Log.Log) returns (ghost point: nat, ghost cw: seq<RedoLog.Write>)
    requires Open(fs, log) && fs.dirty == map[] && log.outstanding == 2
    modifies fs, log, log.block
    ensures fs.disk == old(fs.disk) && fs.itable == old(fs.itable) && log.outstanding == 0
    ensures Open(fs, log) && Fresh(fs) && Wrote(log, old(log.disk), old(log.trace), cw)
    ensures AllOrNothing(log.g, fs.sb, old(log.disk), cw, point, old(fs.base), fs.base)
  {
    point := |fs.logged|;
    Fs.CommitsClean(fs.disk, fs.logged);
    cw := Leave(fs, log);
    assert log.trace == old(log.trace) + [] == old(log.trace);
    cw := Leave(fs, log);
  }

  /** r bytes of x were written to file i at off, and to no other file, or none because writei refused. */
  ghost predicate OneWritten(d0: Disk, it0: seq<Inode>, d: Disk, it: seq<Inode>, i: nat, off: nat, x: seq<Byte>,
                             r: int) {
    && i < |it0| == |it| && OthersSame(d0, it0, d, it, i) && it[i].kind == it0[i].kind
    && if r == -1 then d == d0 && it == it0
       else
         && 0 <= r <= |x| && off <= it0[i].size
         && Contents(d, it[i]) == Overwrite(Contents(d0, it0[i]), off, x[..r])
  }

  lemma RoomForBoth(g: RedoLog.Geometry, ws: seq<RedoLog.Write>, logged: set<nat>)
    requires logged == Blocks(ws) && |logged| <= 2 * MAXOPBLOCKS < g.size - 1
    ensures forall k {:trigger NoRoom(g, ws, k)} :: 0 <= k <= |ws| ==> !NoRoom(g, ws, k)
  {
    forall k | 0 <= k <= |ws| ensures !NoRoom(g, ws, k) {
      RoomForAll(g, ws, k);
    }
  }

  lemma CountListed(ws: seq<RedoLog.Write>)
    ensures |Listed(ws, |ws|)| == |Blocks(ws)|
  {
    ListedBlocks(ws, |ws|);
    assert ws[..|ws|] == ws;
  }
}
