/**
 A file system operation against crashes, end to end: what the inode layer passed to
 log_write goes through the log, the log makes it durable together, and a recovery
 finds every inode and the contents of every file as they were before the operation
 or as they were after it.
 */
module Operation {
  import opened Bytes
  import opened Dinode
  import opened Params
  import opened FsModel
  import opened Sets
  import RedoLog
  import Log
  import Fs
  import FileWrite

  // ------------------------------------------------------------ log_write, call by call

  /** The list of the transaction after the first k calls: a block already listed is absorbed. */
  function Listed(ws: seq<RedoLog.Write>, k: nat): seq<nat>
    requires k <= |ws|
  {
    if k == 0 then []
    else if ws[k - 1].blockno in Listed(ws, k - 1) then Listed(ws, k - 1)
    else Listed(ws, k - 1) + [ws[k - 1].blockno]
  }

  /** The pinned buffers after the first k calls. */
  function Buffers(ws: seq<RedoLog.Write>, k: nat): map<nat, Block>
    requires k <= |ws|
  {
    if k == 0 then map[] else Buffers(ws, k - 1)[ws[k - 1].blockno := ws[k - 1].data]
  }

  /** Each block named is listed once, however often it is logged. */
  lemma {:induction false} ListedBlocks(ws: seq<RedoLog.Write>, k: nat)
    requires k <= |ws|
    ensures forall b {:trigger b in Listed(ws, k)} :: b in Listed(ws, k) <==> b in Blocks(ws[..k])
    ensures |Listed(ws, k)| == |Blocks(ws[..k])|
  {
    if k > 0 {
      ListedBlocks(ws, k - 1);
      var listed, named, b := Listed(ws, k - 1), Blocks(ws[..k - 1]), ws[k - 1].blockno;
      assert ws[..k][..k - 1] == ws[..k - 1] && ws[..k][k - 1] == ws[k - 1];
      assert Blocks(ws[..k]) == named + {b};
      assert b in listed <==> b in named;
      if b in listed {
        assert named + {b} == named;
      } else {
        assert forall x :: x in listed + [b] <==> x in listed || x == b;
      }
    }
  }

  lemma {:induction false} BlocksGrow(ws: seq<RedoLog.Write>, k: nat)
    requires k <= |ws|
    ensures Blocks(ws[..k]) <= Blocks(ws)
    decreases |ws| - k
  {
    if k == |ws| {
      assert ws[..k] == ws;
    } else {
      BlocksGrow(ws, k + 1);
      assert ws[..k + 1][..k] == ws[..k];
    }
  }

  /** Committing the listed buffers makes of the disk exactly what the logged writes, in order, make of it. */
  lemma {:induction false} BuffersAreFinal(d: Disk, ws: seq<RedoLog.Write>, k: nat)
    requires RedoLog.InRange(d, ws) && k <= |ws|
    ensures RedoLog.Cached(Listed(ws, k), Buffers(ws, k))
    ensures forall b {:trigger RedoLog.Prefix(d, ws, k)[b]} :: 0 <= b < |d| ==>
              RedoLog.Prefix(d, ws, k)[b] == RedoLog.Committed(d, Listed(ws, k), Buffers(ws, k), b)
  {
    if k > 0 {
      BuffersAreFinal(d, ws, k - 1);
    }
  }

  /** Before call k the log has no room for another block: log_write panics, even if it would absorb the block. */
  predicate NoRoom(g: RedoLog.Geometry, ws: seq<RedoLog.Write>, k: nat)
    requires k <= |ws|
  {
    |Listed(ws, k)| >= LOGSIZE || |Listed(ws, k)| >= g.size - 1
  }

  /** None of the calls from `from` to `to` panics. */
  predicate Fits(g: RedoLog.Geometry, ws: seq<RedoLog.Write>, from: nat, to: nat)
    requires to <= |ws|
  {
    forall k {:trigger NoRoom(g, ws, k)} :: from <= k < to ==> !NoRoom(g, ws, k)
  }

  lemma FitsNext(g: RedoLog.Geometry, ws: seq<RedoLog.Write>, from: nat, k: nat)
    requires from <= k < |ws| && Fits(g, ws, from, k)
    ensures !NoRoom(g, ws, k) ==> Fits(g, ws, from, k + 1)
    ensures NoRoom(g, ws, k) ==> !Fits(g, ws, from, |ws|)
  {
  }

  /** The log lists and pins what the first k calls gave it. */
  predicate Listing(lh: seq<nat>, pinned: map<nat, Block>, ws: seq<RedoLog.Write>, k: nat)
    requires k <= |ws|
  {
    lh == Listed(ws, k) && pinned == Buffers(ws, k)
  }

  /** log_write call k, on a log that holds those before. */
  method LogOne(log: Log.Log, ws: seq<RedoLog.Write>, k: nat) returns (ok: bool)
    requires log.Valid() && log.outstanding >= 1 && k < |ws| && Listing(log.lh, log.pinned, ws, k)
    requires ws[k].blockno < |log.disk| && RedoLog.Home(log.g, ws[k].blockno)
    modifies log`n, log`lh, log`pinned, log.block
    ensures log.Valid() && (ok <==> !NoRoom(log.g, ws, k)) && (ok ==> Listing(log.lh, log.pinned, ws, k + 1))
  {
    var r := log.LogWrite(ws[k].blockno, ws[k].data);
    ok := r.Logged?;
  }

  /**
   The log_write calls from `from` on, in order, on a log that holds those before; the result tells whether
   none of them panicked.
   */
  method LogFrom(log: Log.Log, ws: seq<RedoLog.Write>, from: nat) returns (ok: bool)
    requires log.Valid() && log.outstanding >= 1 && from <= |ws| && Listing(log.lh, log.pinned, ws, from)
    requires forall i {:trigger ws[i]} :: 0 <= i < |ws| ==>
               ws[i].blockno < |log.disk| && RedoLog.Home(log.g, ws[i].blockno)
    modifies log`n, log`lh, log`pinned, log.block
    ensures log.Valid() && (ok <==> Fits(log.g, ws, from, |ws|)) && (ok ==> Listing(log.lh, log.pinned, ws, |ws|))
  {
    var k := from;
    while k < |ws|
      invariant from <= k <= |ws| && log.Valid() && Listing(log.lh, log.pinned, ws, k) && Fits(log.g, ws, from, k)
    {
      ok := LogOne(log, ws, k);
      FitsNext(log.g, ws, from, k);
      if !ok {
        return;
      }
      k := k + 1;
    }
    return true;
  }

  /** If there is room for all the blocks named and one more, there is room before every call. */
  lemma RoomForAll(g: RedoLog.Geometry, ws: seq<RedoLog.Write>, k: nat)
    requires k <= |ws| && |Blocks(ws)| < LOGSIZE && |Blocks(ws)| < g.size - 1
    ensures !NoRoom(g, ws, k)
  {
    ListedBlocks(ws, k);
    BlocksGrow(ws, k);
    SubsetSize(Blocks(ws[..k]), Blocks(ws));
  }

  // ------------------------------------------------------------ crashes

  /**
   The writes ws to disk d are cut after k of them, recoveries are cut as `cuts` says, and one
   completes: the disk then has an empty log, and it holds `after` if the write at `point`, the header,
   got out, and `before` if not.
   */
  ghost predicate Survives(g: RedoLog.Geometry, sb: Super, d: Disk, ws: seq<RedoLog.Write>, point: nat,
                           before: Snapshot, after: Snapshot, k: nat, cuts: seq<nat>) {
    && RedoLog.InRange(d, ws) && k <= |ws| && RedoLog.LogOk(g, RedoLog.Prefix(d, ws, k))
    && var r := RedoLog.Recover(g, RedoLog.RecoverCuts(g, RedoLog.Prefix(d, ws, k), cuts));
    && RedoLog.LogOk(g, r) && RedoLog.Head(r[g.start]) == []
    && RedoLog.CommitCount(g, ws, k) == (if k > point then 1 else 0)
    && Holds(sb, r, if k > point then after else before)
  }

  /** That, wherever the writes and the recoveries are cut. */
  ghost predicate AllOrNothing(g: RedoLog.Geometry, sb: Super, d: Disk, ws: seq<RedoLog.Write>, point: nat,
                               before: Snapshot, after: Snapshot) {
    forall k, cuts {:trigger Survives(g, sb, d, ws, point, before, after, k, cuts)} :: 0 <= k <= |ws| ==>
      Survives(g, sb, d, ws, point, before, after, k, cuts)
  }

  /** The pinned buffers at the commit: as they were logged, but for those that changed afterwards. */
  function Final(ws: seq<RedoLog.Write>, dirty: map<nat, Block>): map<nat, Block> {
    Log.Rewritten(Buffers(ws, |ws|), dirty)
  }

  /** What a commit of them makes of the home blocks. */
  lemma {:induction false} FinalBlocks(base: Disk, d: Disk, ws: seq<RedoLog.Write>, dirty: map<nat, Block>,
                                       logged: set<nat>)
    requires RedoLog.InRange(base, ws) && d == RedoLog.Apply(base, ws) && logged == Blocks(ws)
    ensures RedoLog.Cached(Listed(ws, |ws|), Final(ws, dirty))
    ensures forall b {:trigger Fs.Commits(d, dirty, logged)[b]} :: 0 <= b < |d| ==>
              Fs.Commits(d, dirty, logged)[b] == RedoLog.Committed(base, Listed(ws, |ws|), Final(ws, dirty), b)
  {
    BuffersAreFinal(base, ws, |ws|);
    ListedBlocks(ws, |ws|);
    assert ws[..|ws|] == ws;
    forall b | 0 <= b < |d|
      ensures Fs.Commits(d, dirty, logged)[b] == RedoLog.Committed(base, Listed(ws, |ws|), Final(ws, dirty), b)
    {
      assert d[b] == RedoLog.Committed(base, Listed(ws, |ws|), Buffers(ws, |ws|), b);
      assert b in Listed(ws, |ws|) <==> b in logged;
    }
  }

  /** A disk whose home blocks are those of a transaction's before or after is one of the operation's. */
  lemma {:induction false} HomeBlocks(g: RedoLog.Geometry, sb: Super, d: Disk, base: Snapshot, now: Snapshot,
                                      logged: set<nat>, ws: seq<RedoLog.Write>, dirty: map<nat, Block>, r: Disk,
                                      done: bool)
    requires Recorded(sb, base, now.disk, now.owner, logged, ws)
    requires g.start + g.size <= sb.inodestart && SameFrom(sb.inodestart, base.disk, d) && |r| == |d|
    requires RedoLog.Cached(Listed(ws, |ws|), Final(ws, dirty))
    requires forall b :: 0 <= b < |d| && RedoLog.Home(g, b) ==>
               r[b] == if done then RedoLog.Committed(d, Listed(ws, |ws|), Final(ws, dirty), b) else d[b]
    ensures SameFrom(sb.inodestart, if done then Fs.Commits(now.disk, dirty, logged) else base.disk, r)
  {
    FinalBlocks(base.disk, now.disk, ws, dirty, logged);
    var c := Fs.Commits(now.disk, dirty, logged);
    forall b | sb.inodestart <= b < |d| ensures r[b] == if done then c[b] else base.disk[b] {
      assert RedoLog.Home(g, b);
      assert c[b] == RedoLog.Committed(base.disk, Listed(ws, |ws|), Final(ws, dirty), b);
    }
  }

  /** All or nothing, at every point of the commit and through every chain of cut recoveries. */
  lemma OperationAtomic(g: RedoLog.Geometry, sb: Super, d: Disk, base: Snapshot, now: Snapshot, after: Snapshot,
                        logged: set<nat>, ws: seq<RedoLog.Write>, dirty: map<nat, Block>, k: nat, cuts: seq<nat>)
    requires Sound(sb, base) && Holds(sb, Fs.Commits(now.disk, dirty, logged), after)
    requires Recorded(sb, base, now.disk, now.owner, logged, ws)
    requires g.start + g.size <= sb.inodestart && SameFrom(sb.inodestart, base.disk, d)
    requires RedoLog.Ready(g, d, Listed(ws, |ws|), Final(ws, dirty))
    requires k <= |RedoLog.CommitWrites(g, d, Listed(ws, |ws|), Final(ws, dirty))|
    ensures Survives(g, sb, d, RedoLog.CommitWrites(g, d, Listed(ws, |ws|), Final(ws, dirty)), |logged|, base, after,
                     k, cuts)
  {
    var lh, cache := Listed(ws, |ws|), Final(ws, dirty);
    RedoLog.CrashAtomicity(g, d, lh, cache, k, cuts);
    RedoLog.CommitsOnce(g, d, lh, cache, k);
    ListedBlocks(ws, |ws|);
    assert ws[..|ws|] == ws;
    var r := RedoLog.Recover(g, RedoLog.RecoverCuts(g, RedoLog.Prefix(d, RedoLog.CommitWrites(g, d, lh, cache), k),
                                                    cuts));
    HomeBlocks(g, sb, d, base, now, logged, ws, dirty, r, k > |logged|);
    if k > |logged| {
      HoldsAgain(sb, Fs.Commits(now.disk, dirty, logged), r, after);
    } else {
      SameFileSystem(sb, base, base.disk);
      HoldsAgain(sb, base.disk, r, base);
    }
  }

  /**
   The end of an operation: its log_write calls reach the log, a buffer that it changed afterwards is
   the one that the log has pinned, and end_op, which finds no other operation outstanding, commits.
   The disk then holds what the operation made; and whenever the machine stops in between, it holds
   that or what the operation found.
   */
  method EndOperation(fs: Fs.Fs, log: Log.Log) returns (ghost cw: seq<RedoLog.Write>)
    requires fs.Settled() && Sound(fs.sb, fs.base)
    requires Holds(fs.sb, Fs.Commits(fs.disk, fs.dirty, fs.logged), Snapshot(fs.disk, fs.itable, fs.owner))
    requires log.Valid() && log.lh == [] && log.outstanding == 1 && !log.committing
    requires log.g.start + log.g.size <= fs.sb.inodestart && SameFrom(fs.sb.inodestart, fs.base.disk, log.disk)
    requires |fs.logged| < LOGSIZE && |fs.logged| < log.g.size - 1
    modifies log, log.block
    ensures log.Valid() && log.lh == [] && log.outstanding == 0 && !log.committing
    ensures SameFrom(fs.sb.inodestart, Fs.Commits(fs.disk, fs.dirty, fs.logged), log.disk)
    ensures Wrote(log, old(log.disk), old(log.trace), cw)
    ensures fs.logged != {} ==> RedoLog.CommitCount(log.g, cw, |cw|) == 1
    ensures AllOrNothing(log.g, fs.sb, old(log.disk), cw, |fs.logged|, fs.base,
                         Snapshot(fs.disk, fs.itable, fs.owner))
  {
    ghost var d, ws := log.disk, fs.trace;
    ghost var after := Snapshot(fs.disk, fs.itable, fs.owner);
    LogOperation(fs, log);
    cw := CommitLast(log, ws, fs.dirty);
    HomeBlocks(log.g, fs.sb, d, fs.base, after, fs.logged, ws, fs.dirty, log.disk, true);
    EveryCrash(log.g, fs.sb, d, fs.base, after, after, fs.logged, ws, fs.dirty);
  }

  /** The log has issued the writes cw, and no other, since its disk was d and its trace t. */
  ghost predicate Wrote(log: Log.Log, d: Disk, t: seq<RedoLog.Write>, cw: seq<RedoLog.Write>)
    reads log
  {
    log.trace == t + cw && RedoLog.InRange(d, cw) && log.disk == RedoLog.Apply(d, cw)
  }

  /** What the operation changed is in the log. */
  method LogOperation(fs: Fs.Fs, log: Log.Log)
    requires fs.Settled() && log.Valid() && log.lh == [] && log.outstanding >= 1
    requires log.g.start + log.g.size <= fs.sb.inodestart && |log.disk| == |fs.base.disk|
    requires |fs.logged| < LOGSIZE && |fs.logged| < log.g.size - 1
    modifies log`n, log`lh, log`pinned, log.block
    ensures log.Valid() && log.lh == Listed(fs.trace, |fs.trace|) && log.pinned == Final(fs.trace, fs.dirty)
  {
    LogPlace(log.g, fs.sb, log.disk, fs.base, Snapshot(fs.disk, fs.itable, fs.owner), fs.logged, fs.trace);
    forall k | 0 <= k < |fs.trace| ensures !NoRoom(log.g, fs.trace, k) {
      RoomForAll(log.g, fs.trace, k);
    }
    assert log.pinned == map[];
    var ok := LogFrom(log, fs.trace, 0);
    log.Rewrite(fs.dirty);
  }

  /** end_op of the last operation. */
  method CommitLast(log: Log.Log, ghost ws: seq<RedoLog.Write>, ghost dirty: map<nat, Block>)
    returns (ghost cw: seq<RedoLog.Write>)
    requires log.Valid() && log.outstanding == 1 && !log.committing
    requires log.lh == Listed(ws, |ws|) && log.pinned == Final(ws, dirty)
    modifies log
    ensures log.Valid() && log.lh == [] && log.outstanding == 0 && !log.committing && |log.disk| == |old(log.disk)|
    ensures RedoLog.Ready(log.g, old(log.disk), Listed(ws, |ws|), Final(ws, dirty))
    ensures cw == RedoLog.CommitWrites(log.g, old(log.disk), Listed(ws, |ws|), Final(ws, dirty))
    ensures Wrote(log, old(log.disk), old(log.trace), cw)
    ensures forall b :: 0 <= b < |log.disk| && RedoLog.Home(log.g, b) ==>
              log.disk[b] == RedoLog.Committed(old(log.disk), Listed(ws, |ws|), Final(ws, dirty), b)
  {
    cw := RedoLog.CommitWrites(log.g, log.disk, log.lh, log.pinned);
    var ok := log.EndOp();
    assert log.pinned == map[];
    Log.ApplyConcat(log.image, old(log.trace), cw);
  }

  lemma EveryCrash(g: RedoLog.Geometry, sb: Super, d: Disk, base: Snapshot, now: Snapshot, after: Snapshot,
                   logged: set<nat>, ws: seq<RedoLog.Write>, dirty: map<nat, Block>)
    requires Sound(sb, base) && Holds(sb, Fs.Commits(now.disk, dirty, logged), after)
    requires Recorded(sb, base, now.disk, now.owner, logged, ws)
    requires g.start + g.size <= sb.inodestart && SameFrom(sb.inodestart, base.disk, d)
    requires RedoLog.Ready(g, d, Listed(ws, |ws|), Final(ws, dirty))
    ensures AllOrNothing(g, sb, d, RedoLog.CommitWrites(g, d, Listed(ws, |ws|), Final(ws, dirty)), |logged|, base,
                         after)
    ensures var cw := RedoLog.CommitWrites(g, d, Listed(ws, |ws|), Final(ws, dirty));
            logged != {} ==> RedoLog.CommitCount(g, cw, |cw|) == 1
  {
    var cw := RedoLog.CommitWrites(g, d, Listed(ws, |ws|), Final(ws, dirty));
    ListedBlocks(ws, |ws|);
    assert ws[..|ws|] == ws;
    RedoLog.CommitsOnce(g, d, Listed(ws, |ws|), Final(ws, dirty), |cw|);
    forall k, cuts | 0 <= k <= |cw| ensures Survives(g, sb, d, cw, |logged|, base, after, k, cuts) {
      OperationAtomic(g, sb, d, base, now, after, logged, ws, dirty, k, cuts);
    }
  }

  /** What the operation logs lies outside the log region. */
  lemma LogPlace(g: RedoLog.Geometry, sb: Super, d: Disk, base: Snapshot, after: Snapshot, logged: set<nat>,
                 ws: seq<RedoLog.Write>)
    requires Recorded(sb, base, after.disk, after.owner, logged, ws)
    requires g.start + g.size <= sb.inodestart && |d| == |base.disk|
    ensures forall i {:trigger ws[i]} :: 0 <= i < |ws| ==> ws[i].blockno < |d| && RedoLog.Home(g, ws[i].blockno)
  {
    forall i | 0 <= i < |ws| ensures ws[i].blockno < |d| && RedoLog.Home(g, ws[i].blockno) {
      assert ws[i].blockno in logged;
    }
  }

  /** The log is idle and its disk holds what the mounted file system has committed. */
  ghost predicate Idle(fs: Fs.Fs, log: Log.Log)
    reads fs, log, log.block
  {
    && log.Valid() && log.lh == [] && log.outstanding == 0 && !log.committing
    && log.g.start + log.g.size <= fs.sb.inodestart
    && SameFrom(fs.sb.inodestart, Fs.Commits(fs.disk, fs.dirty, fs.logged), log.disk)
  }

  // ------------------------------------------------------------ boot

  /**
   fsinit, on the disk that a crash left: the log is recovered, and the file system s that the disk
   then holds is mounted, its inodes read from the inode blocks.
   */
  method Mount(g: RedoLog.Geometry, sb: Super, disk: Disk, ghost s: Snapshot) returns (fs: Fs.Fs, log: Log.Log)
    requires RedoLog.LogOk(g, disk) && g.start + g.size <= sb.inodestart && Holds(sb, RedoLog.Recover(g, disk), s)
    ensures fresh(fs) && fresh(log) && fresh(log.block) && fs.Valid() && Idle(fs, log) && log.g == g && fs.sb == sb
    ensures fs.disk == log.disk == RedoLog.Recover(g, disk) && fs.itable == s.dinodes && fs.owner == s.owner
    ensures forall i {:trigger Contents(fs.disk, fs.itable[i])} :: 0 <= i < |fs.itable| ==>
              Contents(fs.disk, fs.itable[i]) == Contents(s.disk, s.dinodes[i])
  {
    log := new Log.Log(g, disk);
    StoredInodes(sb, log.disk, s.dinodes);
    fs := new Fs.Fs(sb, log.disk, DiskInodes(sb, log.disk), s.owner);
    Fs.CommitsClean(fs.disk, fs.logged);
  }

  /** What is on the disk when writes ws to d are cut after k of them, and then recoveries as `cuts` says. */
  predicate LeftBy(g: RedoLog.Geometry, d: Disk, ws: seq<RedoLog.Write>, k: nat, cuts: seq<nat>, disk: Disk) {
    && RedoLog.InRange(d, ws) && k <= |ws| && RedoLog.LogOk(g, RedoLog.Prefix(d, ws, k))
    && disk == RedoLog.RecoverCuts(g, RedoLog.Prefix(d, ws, k), cuts)
  }

  /**
   The machine stops after k writes of an operation's commit, recoveries are cut as `cuts` says, and then
   it boots: every file is there as the operation made it, or as it found it.
   */
  method Reboot(g: RedoLog.Geometry, sb: Super, disk: Disk, ghost d: Disk, ghost ws: seq<RedoLog.Write>,
                ghost point: nat, ghost before: Snapshot, ghost after: Snapshot, ghost k: nat, ghost cuts: seq<nat>)
    returns (fs: Fs.Fs, log: Log.Log)
    requires AllOrNothing(g, sb, d, ws, point, before, after) && g.start + g.size <= sb.inodestart
    requires LeftBy(g, d, ws, k, cuts, disk)
    ensures fresh(fs) && fresh(log) && fresh(log.block) && fs.Valid() && Idle(fs, log)
    ensures var s := if k > point then after else before;
            && fs.itable == s.dinodes && fs.owner == s.owner
            && forall i {:trigger Contents(fs.disk, fs.itable[i])} :: 0 <= i < |fs.itable| ==>
                 Contents(fs.disk, fs.itable[i]) == Contents(s.disk, s.dinodes[i])
  {
    assert Survives(g, sb, d, ws, point, before, after, k, cuts);
    fs, log := Mount(g, sb, disk, if k > point then after else before);
  }

  /** One chunk of filewrite on the log: begin_op, writei, end_op. It is all there or not at all. */
  method DurableChunk(file: FileWrite.File, log: Log.Log, chunk: seq<Byte>, fault: nat)
    returns (r: int, ghost cw: seq<RedoLog.Write>)
    requires file.fs.Valid() && file.inum < |file.fs.itable| && file.fs.itable[file.inum].kind != 0
    requires 0 < |chunk| <= FileWrite.MAXCHUNK && file.Bounded()
    requires Idle(file.fs, log) && log.g.size - 1 > MAXOPBLOCKS
    modifies file, file.fs, log, log.block
    ensures file.fs.Settled() && Idle(file.fs, log) && |file.fs.logged| <= MAXOPBLOCKS
    ensures file.off == old(file.off) + if r > 0 then r else 0
    ensures Wrote(log, old(log.disk), old(log.trace), cw)
    ensures r != -1 ==>
              0 <= r <= |chunk| && file.inum < |file.fs.itable| && old(file.off) <= old(file.fs.itable)[file.inum].size
    ensures r != -1 ==>
              Contents(file.fs.disk, file.fs.itable[file.inum]) ==
              Overwrite(Contents(old(file.fs.disk), old(file.fs.itable)[file.inum]), old(file.off), chunk[..r])
    ensures OthersSame(old(file.fs.disk), old(file.fs.itable), file.fs.disk, file.fs.itable, file.inum)
    ensures AllOrNothing(log.g, file.fs.sb, old(log.disk), cw, |file.fs.logged|,
                         Snapshot(old(file.fs.disk), old(file.fs.itable), old(file.fs.owner)),
                         Snapshot(file.fs.disk, file.fs.itable, file.fs.owner))
  {
    Fs.CommitsClean(file.fs.disk, file.fs.logged);
    var admitted := log.TryBeginOp();
    assert admitted;
    r := file.WriteChunk(chunk, fault);
    cw := EndOperation(file.fs, log);
  }

  // ------------------------------------------------------------ a whole filewrite

  /** The bytes of a write that are durable after so many commits: a chunk for each, up to `done` in all. */
  function Landed(commits: nat, done: nat): nat {
    if commits * FileWrite.MAXCHUNK < done then commits * FileWrite.MAXCHUNK else done
  }

  /** Disk r holds s, which is s0 with the first p bytes of data in file j. */
  ghost predicate HoldsPrefix(sb: Super, r: Disk, s0: Snapshot, j: nat, off: nat, data: seq<Byte>, s: Snapshot,
                              p: nat) {
    Holds(sb, r, s) && HasPrefix(s0, j, off, data, s, p)
  }

  predicate HasPrefix(s0: Snapshot, j: nat, off: nat, data: seq<Byte>, s: Snapshot, p: nat) {
    && j < |s0.dinodes| == |s.dinodes|
    && FileWrite.Written(Contents(s0.disk, s0.dinodes[j]), off, data, p, Contents(s.disk, s.dinodes[j]))
    && OthersSame(s0.disk, s0.dinodes, s.disk, s.dinodes, j)
  }

  /**
   The writes ws are cut after k of them, and recoveries as `cuts` says: the file has the chunks of data that
   those k writes committed.
   */
  ghost predicate SurvivesWrite(g: RedoLog.Geometry, sb: Super, d: Disk, ws: seq<RedoLog.Write>, s0: Snapshot, j: nat,
                                off: nat, data: seq<Byte>, done: nat, k: nat, cuts: seq<nat>) {
    && RedoLog.InRange(d, ws) && k <= |ws| && RedoLog.LogOk(g, RedoLog.Prefix(d, ws, k))
    && var r := RedoLog.Recover(g, RedoLog.RecoverCuts(g, RedoLog.Prefix(d, ws, k), cuts));
    && RedoLog.LogOk(g, r) && RedoLog.Head(r[g.start]) == []
    && var p := Landed(RedoLog.CommitCount(g, ws, k), done);
    && exists s {:trigger HoldsPrefix(sb, r, s0, j, off, data, s, p)} :: HoldsPrefix(sb, r, s0, j, off, data, s, p)
  }

  ghost predicate PrefixAtEveryCut(g: RedoLog.Geometry, sb: Super, d: Disk, ws: seq<RedoLog.Write>, s0: Snapshot,
                                   j: nat, off: nat, data: seq<Byte>, done: nat) {
    forall k, cuts {:trigger SurvivesWrite(g, sb, d, ws, s0, j, off, data, done, k, cuts)} :: 0 <= k <= |ws| ==>
      SurvivesWrite(g, sb, d, ws, s0, j, off, data, done, k, cuts)
  }

  /** Before the first write. */
  lemma NothingCut(g: RedoLog.Geometry, sb: Super, d: Disk, s0: Snapshot, j: nat, off: nat, data: seq<Byte>)
    requires RedoLog.LogOk(g, d) && RedoLog.Head(d[g.start]) == [] && g.start + g.size <= sb.inodestart
    requires Sound(sb, s0) && SameFrom(sb.inodestart, s0.disk, d) && j < |s0.dinodes|
    ensures PrefixAtEveryCut(g, sb, d, [], s0, j, off, data, 0)
  {
    forall k, cuts | 0 <= k <= 0 ensures SurvivesWrite(g, sb, d, [], s0, j, off, data, 0, k, cuts) {
      NothingLost(g, sb, d, s0, j, off, data, cuts);
      var p := Landed(RedoLog.CommitCount(g, [], k), 0);
      assert HoldsPrefix(sb, RedoLog.Recover(g, RedoLog.RecoverCuts(g, d, cuts)), s0, j, off, data, s0, p);
    }
  }

  /** And with no write at all. */
  lemma NothingLost(g: RedoLog.Geometry, sb: Super, d: Disk, s0: Snapshot, j: nat, off: nat, data: seq<Byte>,
                    cuts: seq<nat>)
    requires RedoLog.LogOk(g, d) && RedoLog.Head(d[g.start]) == [] && g.start + g.size <= sb.inodestart
    requires Sound(sb, s0) && SameFrom(sb.inodestart, s0.disk, d) && j < |s0.dinodes|
    ensures var r := RedoLog.Recover(g, RedoLog.RecoverCuts(g, d, cuts));
            && RedoLog.LogOk(g, r) && RedoLog.Head(r[g.start]) == []
            && HoldsPrefix(sb, r, s0, j, off, data, s0, 0)
  {
    var c := RedoLog.RecoverCuts(g, d, cuts);
    RedoLog.RecoverIsRedo(g, c);
    var r := RedoLog.Recover(g, c);
    forall b | sb.inodestart <= b < |d| ensures r[b] == s0.disk[b] {
      assert RedoLog.Home(g, b);
      assert r[b] == RedoLog.Redo(g, d, b);
    }
    SameFileSystem(sb, s0, s0.disk);
    HoldsAgain(sb, s0.disk, r, s0);
  }

  /** All i bytes before the chunk that comes next are committed, a chunk at a time. */
  predicate WholeChunks(g: RedoLog.Geometry, ws: seq<RedoLog.Write>, i: nat) {
    RedoLog.CommitCount(g, ws, |ws|) * FileWrite.MAXCHUNK == i
  }

  /** What m commits of whole chunks, the i bytes so far, say of c of them, and of one more. */
  lemma LandedAt(c: nat, m: nat, i: nat, done: nat)
    requires c <= m && m * FileWrite.MAXCHUNK == i <= done <= i + FileWrite.MAXCHUNK
    ensures Landed(c, done) == Landed(c, i) && Landed(m, done) == i && Landed(m + 1, done) == done
  {
  }

  /** What has landed when the writes ws, of whole chunks, and those of one more are cut after k of them. */
  lemma LandedNext(g: RedoLog.Geometry, ws: seq<RedoLog.Write>, cw: seq<RedoLog.Write>, i: nat, done: nat, k: nat)
    requires WholeChunks(g, ws, i) && i <= done <= i + FileWrite.MAXCHUNK && k <= |ws| + |cw|
    requires k > |ws| ==> RedoLog.CommitCount(g, cw, k - |ws|) <= 1
    ensures var p := Landed(RedoLog.CommitCount(g, ws + cw, k), done);
            && (k <= |ws| ==> p == Landed(RedoLog.CommitCount(g, ws, k), i))
            && (k > |ws| ==> p == if RedoLog.CommitCount(g, cw, k - |ws|) == 1 then done else i)
  {
    RedoLog.CommitCountOfConcat(g, ws, cw, k);
    var m := RedoLog.CommitCount(g, ws, |ws|);
    if k <= |ws| {
      RedoLog.CommitCountGrows(g, ws, k, |ws|);
      LandedAt(RedoLog.CommitCount(g, ws, k), m, i, done);
    } else {
      LandedAt(m, m, i, done);
    }
  }

  /** After the writes ws, which got i bytes in, come those of one more chunk. */
  lemma CutNext(g: RedoLog.Geometry, sb: Super, d: Disk, ws: seq<RedoLog.Write>, d1: Disk, cw: seq<RedoLog.Write>,
                point: nat, s0: Snapshot, before: Snapshot, after: Snapshot, j: nat, off: nat, data: seq<Byte>, i: nat,
                done: nat)
    requires PrefixAtEveryCut(g, sb, d, ws, s0, j, off, data, i) && AllOrNothing(g, sb, d1, cw, point, before, after)
    requires RedoLog.InRange(d, ws) && d1 == RedoLog.Apply(d, ws) && RedoLog.InRange(d1, cw)
    requires HasPrefix(s0, j, off, data, before, i) && HasPrefix(s0, j, off, data, after, done)
    requires WholeChunks(g, ws, i) && i <= done <= i + FileWrite.MAXCHUNK
    ensures PrefixAtEveryCut(g, sb, d, ws + cw, s0, j, off, data, done)
  {
    forall k, cuts | 0 <= k <= |ws + cw| ensures SurvivesWrite(g, sb, d, ws + cw, s0, j, off, data, done, k, cuts) {
      RedoLog.PrefixOfConcat(d, ws, cw, k);
      if k <= |ws| {
        assert SurvivesWrite(g, sb, d, ws, s0, j, off, data, i, k, cuts);
        LandedNext(g, ws, cw, i, done, k);
      } else {
        assert Survives(g, sb, d1, cw, point, before, after, k - |ws|, cuts);
        LandedNext(g, ws, cw, i, done, k);
        var r := RedoLog.Recover(g, RedoLog.RecoverCuts(g, RedoLog.Prefix(d1, cw, k - |ws|), cuts));
        if k - |ws| > point {
          assert HoldsPrefix(sb, r, s0, j, off, data, after, done);
        } else {
          assert HoldsPrefix(sb, r, s0, j, off, data, before, i);
        }
      }
    }
  }

  /** A chunk that logged blocks has committed them at the end. */
  lemma WholeNext(g: RedoLog.Geometry, ws: seq<RedoLog.Write>, cw: seq<RedoLog.Write>, i: nat)
    requires WholeChunks(g, ws, i) && RedoLog.CommitCount(g, cw, |cw|) == 1
    ensures WholeChunks(g, ws + cw, i + FileWrite.MAXCHUNK)
  {
    RedoLog.CommitCountOfConcat(g, ws, cw, |ws| + |cw|);
  }

  /** The disk writes ws have been issued since disk d, and wherever they are cut, i bytes or fewer are there. */
  ghost predicate Durable(fs: Fs.Fs, log: Log.Log, d: Disk, t: seq<RedoLog.Write>, ws: seq<RedoLog.Write>, s0: Snapshot,
                          j: nat, off: nat, data: seq<Byte>, i: nat)
    reads fs, log, log.block
  {
    Idle(fs, log) && Wrote(log, d, t, ws) && PrefixAtEveryCut(log.g, fs.sb, d, ws, s0, j, off, data, i)
  }

  /** Writes ws, and then cw. */
  lemma WroteBoth(d: Disk, t: seq<RedoLog.Write>, ws: seq<RedoLog.Write>, d1: Disk, cw: seq<RedoLog.Write>)
    requires RedoLog.InRange(d, ws) && d1 == RedoLog.Apply(d, ws) && RedoLog.InRange(d1, cw)
    ensures t + ws + cw == t + (ws + cw)
    ensures RedoLog.InRange(d, ws + cw) && RedoLog.Apply(d, ws + cw) == RedoLog.Apply(d1, cw)
  {
    Log.Reassociate(t, ws, cw);
    Log.ApplyConcat(d, ws, cw);
  }

  /** One turn of filewrite's loop, as an operation of its own. */
  method CommitNext(file: FileWrite.File, log: Log.Log, data: seq<Byte>, i: nat, n1: nat, fault: nat,
                    ghost s0: Snapshot,
                    ghost off0: nat)
    returns (r: int, ghost done: nat, ghost cw: seq<RedoLog.Write>)
    requires i < |data| && n1 == FileWrite.ChunkLength(|data|, i)
    requires file.WrittenSoFar(s0.disk, s0.dinodes, off0, data, i) && file.fs.dirty == map[]
    requires Ownership(file.fs.sb, s0.disk, s0.dinodes, s0.owner, {})
    requires FileWrite.Advanced(s0.disk, s0.dinodes, s0.owner, file.fs.disk, file.fs.itable, file.fs.owner, file.inum,
                                off0, |data|, i, fault)
    requires Idle(file.fs, log) && log.g.size - 1 > MAXOPBLOCKS
    modifies file, file.fs, log, log.block
    ensures -1 <= r <= n1 && done == (if r > 0 then i + r else i)
    ensures file.WrittenSoFar(s0.disk, s0.dinodes, off0, data, done)
    ensures FileWrite.Turned(file.fs.sb, s0.disk, s0.dinodes, s0.owner, file.fs.disk, file.fs.itable, file.fs.owner,
                             file.inum, off0, data, r, n1, done, fault, file.fs.dirty)
    ensures Idle(file.fs, log) && Wrote(log, old(log.disk), old(log.trace), cw)
    ensures r != -1 ==> RedoLog.CommitCount(log.g, cw, |cw|) == 1
    ensures AllOrNothing(log.g, file.fs.sb, old(log.disk), cw, |file.fs.logged|,
                         Snapshot(old(file.fs.disk), old(file.fs.itable), old(file.fs.owner)),
                         Snapshot(file.fs.disk, file.fs.itable, file.fs.owner))
  {
    Fs.CommitsClean(file.fs.disk, file.fs.logged);
    var admitted := log.TryBeginOp();
    assert admitted;
    r, done := file.WriteNext(data, i, n1, fault, s0.disk, s0.dinodes, s0.owner, off0);
    cw := EndOperation(file.fs, log);
  }

  /** And it adds to what survives a crash. */
  method DurableNext(file: FileWrite.File, log: Log.Log, data: seq<Byte>, i: nat, n1: nat, fault: nat,
                     ghost s0: Snapshot,
                     ghost off0: nat, ghost d: Disk, ghost t: seq<RedoLog.Write>, ghost ws: seq<RedoLog.Write>)
    returns (r: int, ghost done: nat, ghost ws': seq<RedoLog.Write>)
    requires i < |data| && n1 == FileWrite.ChunkLength(|data|, i)
    requires file.WrittenSoFar(s0.disk, s0.dinodes, off0, data, i) && file.fs.dirty == map[]
    requires Ownership(file.fs.sb, s0.disk, s0.dinodes, s0.owner, {})
    requires FileWrite.Advanced(s0.disk, s0.dinodes, s0.owner, file.fs.disk, file.fs.itable, file.fs.owner, file.inum,
                                off0, |data|, i, fault)
    requires Durable(file.fs, log, d, t, ws, s0, file.inum, off0, data, i) && log.g.size - 1 > MAXOPBLOCKS
    requires WholeChunks(log.g, ws, i)
    modifies file, file.fs, log, log.block
    ensures -1 <= r <= n1 && done == (if r > 0 then i + r else i)
    ensures file.WrittenSoFar(s0.disk, s0.dinodes, off0, data, done)
    ensures FileWrite.Turned(file.fs.sb, s0.disk, s0.dinodes, s0.owner, file.fs.disk, file.fs.itable, file.fs.owner,
                             file.inum, off0, data, r, n1, done, fault, file.fs.dirty)
    ensures Durable(file.fs, log, d, t, ws', s0, file.inum, off0, data, done)
    ensures r == FileWrite.MAXCHUNK ==> WholeChunks(log.g, ws', done)
  {
    ghost var before, d1 := Snapshot(file.fs.disk, file.fs.itable, file.fs.owner), log.disk;
    ghost var cw;
    r, done, cw := CommitNext(file, log, data, i, n1, fault, s0, off0);
    ws' := ws + cw;
    WroteBoth(d, t, ws, d1, cw);
    CutNext(log.g, file.fs.sb, d, ws, d1, cw, |file.fs.logged|, s0, before,
            Snapshot(file.fs.disk, file.fs.itable, file.fs.owner), file.inum, off0, data, i, done);
    if r == FileWrite.MAXCHUNK {
      WholeNext(log.g, ws, cw, i);
    }
  }

  /**
   filewrite on the log, with the outcome of File.Write. Whenever the machine stops on the way, and however
   often it stops again while it recovers, the file has in the end exactly the chunks whose header got out,
   the first bytes of the data, and every other file is as it was.
   */
  method DurableWrite(file: FileWrite.File, log: Log.Log, data: seq<Byte>, n: int, fault: nat)
    returns (ret: int, ghost done: nat, ghost ws: seq<RedoLog.Write>)
    requires file.fs.Valid() && file.inum < |file.fs.itable| && file.fs.itable[file.inum].kind != 0
    requires |data| == (if n > 0 then n else 0) && file.Bounded()
    requires Idle(file.fs, log) && log.g.size - 1 > MAXOPBLOCKS
    modifies file, file.fs, log, log.block
    ensures file.WrittenSoFar(old(file.fs.disk), old(file.fs.itable), old(file.off), data, done)
    ensures FileWrite.FileEnded(file.fs.sb, old(file.fs.disk), old(file.fs.itable)[file.inum], |old(file.fs.owner)|,
                                file.fs.disk, file.fs.itable[file.inum], old(file.off), data, done, fault,
                                file.fs.dirty)
    ensures ret == if n >= 0 && done == n then n else -1
    ensures Idle(file.fs, log) && Wrote(log, old(log.disk), old(log.trace), ws)
    ensures PrefixAtEveryCut(log.g, file.fs.sb, old(log.disk), ws,
                             Snapshot(old(file.fs.disk), old(file.fs.itable), old(file.fs.owner)), file.inum,
                             old(file.off), data, done)
  {
    ghost var s0, off0, d, t := Snapshot(file.fs.disk, file.fs.itable, file.fs.owner), file.off, log.disk, log.trace;
    file.Start(data, fault);
    Fs.CommitsClean(file.fs.disk, file.fs.logged);
    NothingCut(log.g, file.fs.sb, d, s0, file.inum, off0, data);
    ret, done, ws := DurableLoop(file, log, data, n, fault, s0, off0, d, t);
  }

  method DurableLoop(file: FileWrite.File, log: Log.Log, data: seq<Byte>, n: int, fault: nat, ghost s0: Snapshot,
                     ghost off0: nat, ghost d: Disk, ghost t: seq<RedoLog.Write>)
    returns (ret: int, ghost done: nat, ghost ws: seq<RedoLog.Write>)
    requires |data| == (if n > 0 then n else 0) && log.g.size - 1 > MAXOPBLOCKS
    requires file.WrittenSoFar(s0.disk, s0.dinodes, off0, data, 0) && file.fs.dirty == map[]
    requires Ownership(file.fs.sb, s0.disk, s0.dinodes, s0.owner, {})
    requires FileWrite.Advanced(s0.disk, s0.dinodes, s0.owner, file.fs.disk, file.fs.itable, file.fs.owner, file.inum,
                                off0, |data|, 0, fault)
    requires Durable(file.fs, log, d, t, [], s0, file.inum, off0, data, 0)
    modifies file, file.fs, log, log.block
    ensures file.WrittenSoFar(s0.disk, s0.dinodes, off0, data, done)
    ensures FileWrite.FileEnded(file.fs.sb, s0.disk, s0.dinodes[file.inum], |s0.owner|, file.fs.disk,
                                file.fs.itable[file.inum], off0, data, done, fault, file.fs.dirty)
    ensures ret == if n >= 0 && done == n then n else -1
    ensures Durable(file.fs, log, d, t, ws, s0, file.inum, off0, data, done)
  {
    var i := 0;
    done, ws := 0, [];
    while i < n
      invariant 0 <= i <= |data| && i == done && file.WrittenSoFar(s0.disk, s0.dinodes, off0, data, done)
      invariant FileWrite.Advanced(s0.disk, s0.dinodes, s0.owner, file.fs.disk, file.fs.itable, file.fs.owner,
                                   file.inum, off0, |data|, i, fault)
      invariant file.fs.dirty == map[] && Durable(file.fs, log, d, t, ws, s0, file.inum, off0, data, done)
      invariant i < n ==> WholeChunks(log.g, ws, i)
    {
      var n1 := if n - i > FileWrite.MAXCHUNK then FileWrite.MAXCHUNK else n - i;
      var r;
      r, done, ws := DurableNext(file, log, data, i, n1, fault, s0, off0, d, t, ws);
      if r != n1 {
        return -1, done, ws;
      }
      i := i + r;
    }
    ret := if i == n then n else -1;
    file.Finish(s0.disk, s0.dinodes, s0.owner, off0, data, fault);
  }
}
