/**
 filewrite on an inode: the write is cut into chunks that each run as one file
 system operation, small enough for the log's per-operation reservation.
 */
module FileWrite {
  import opened Bytes
  import opened Dinode
  import opened Params
  import opened FsModel
  import opened Space
  import opened Fs

  /** ((MAXOPBLOCKS-1-1-2) / 2) * BSIZE */
  const MAXCHUNK: nat := (MAXOPBLOCKS - 1 - 1 - 2) / 2 * BSIZE

  lemma OverwriteTwice(s: seq<Byte>, off: nat, t: seq<Byte>, u: seq<Byte>)
    requires off <= |s|
    ensures off + |t| <= |Overwrite(s, off, t)|
    ensures Overwrite(Overwrite(s, off, t), off + |t|, u) == Overwrite(s, off, t + u)
  {
    var a, b := Overwrite(Overwrite(s, off, t), off + |t|, u), Overwrite(s, off, t + u);
    assert |a| == |b|;
    forall i | 0 <= i < |a| ensures a[i] == b[i] {
    }
  }

  /** An open file on an inode. */
  class File {
    const fs: Fs
    const inum: nat
    var off: Word
    ghost var ops: seq<set<nat>>     // the blocks logged by each operation so far

    constructor (fs: Fs, inum: nat, off: Word)
      ensures this.fs == fs && this.inum == inum && this.off == off && ops == []
    {
      this.fs, this.inum, this.off := fs, inum, off;
      ops := [];
    }

    ghost predicate Bounded()
      reads this
    {
      forall k {:trigger ops[k]} :: 0 <= k < |ops| ==> |ops[k]| <= MAXOPBLOCKS
    }

    /** One chunk: begin_op, writei, advance, end_op. Byte `fault` of it, if there is one, cannot be copied in. */
    method WriteChunk(chunk: seq<Byte>, fault: nat) returns (r: int)
      requires fs.Valid() && inum < |fs.itable| && fs.itable[inum].kind != 0
      requires 0 < |chunk| <= MAXCHUNK && Bounded()
      modifies this, fs
      ensures fs.Settled() && Bounded() && -1 <= r <= |chunk| && off == old(off) + (if r > 0 then r else 0)
      ensures fs.base == Snapshot(old(fs.disk), old(fs.itable), old(fs.owner)) && |fs.logged| <= MAXOPBLOCKS
      ensures ChunkDone(fs.sb, old(fs.disk), old(fs.itable), old(fs.owner), fs.disk, fs.itable, fs.owner, fs.logged,
                        inum, old(off), chunk, r, fault, fs.dirty)
    {
      r := ChunkOperation(chunk, fault);
      if r > 0 {
        off := off + r;
      }
      ops := ops + [fs.logged];
    }

    method ChunkOperation(chunk: seq<Byte>, fault: nat) returns (r: int)
      requires fs.Valid() && inum < |fs.itable| && fs.itable[inum].kind != 0 && 0 < |chunk| <= MAXCHUNK
      modifies fs
      ensures fs.Settled() && -1 <= r <= |chunk| && off + r < 0x1_0000_0000
      ensures fs.base == Snapshot(old(fs.disk), old(fs.itable), old(fs.owner)) && |fs.logged| <= MAXOPBLOCKS
      ensures ChunkDone(fs.sb, old(fs.disk), old(fs.itable), old(fs.owner), fs.disk, fs.itable, fs.owner, fs.logged,
                        inum, off, chunk, r, fault, fs.dirty)
    {
      fs.BeginOp();
      ghost var first, d0, it0, ow0 := 0, fs.disk, fs.itable, fs.owner;
      r, first := fs.Writei(inum, chunk, off, fault);
      ChunkHolds(fs.sb, d0, it0, ow0, fs.disk, fs.itable, fs.owner, fs.logged, inum, off, chunk, r, fault, fs.dirty);
    }

    /**
     filewrite. The bytes that reach the file are a prefix of data, at the file offset, which
     advances over exactly them; how many they are is determined by byte `fault` of data, which
     cannot be copied in, by the blocks that the file has and the disk has free, and by the checks
     of writei. n is returned exactly if all were written; a buffer is left changed and not logged
     exactly when the write gets to byte `fault` in the middle of a step; and every operation on
     the way logged at most MAXOPBLOCKS blocks.
     */
    method Write(data: seq<Byte>, n: int, fault: nat) returns (ret: int, ghost done: nat)
      requires fs.Valid() && inum < |fs.itable| && fs.itable[inum].kind != 0
      requires |data| == (if n > 0 then n else 0) && Bounded()
      modifies this, fs
      ensures WrittenSoFar(old(fs.disk), old(fs.itable), old(off), data, done)
      ensures FileGetsIn(fs.sb, old(fs.disk), old(fs.itable)[inum], |old(fs.owner)|, old(off), |data|, fault, done)
      ensures fs.dirty != map[] <==>
                && FileReaches(fs.sb, old(fs.disk), old(fs.itable)[inum], |old(fs.owner)|, old(off), |data|, fault)
                && FileStep(old(off), fault) < fault
      ensures fs.dirty != map[] ==> Stopped(fs.disk, fs.itable[inum], old(off), data, done, fault, fs.dirty)
      ensures ret == if n >= 0 && done == n then n else -1
    {
      Start(data, fault);
      ret, done := WriteLoop(data, n, fault, fs.disk, fs.itable, fs.owner, off);
    }

    method WriteLoop(data: seq<Byte>, n: int, fault: nat, ghost d0: Disk, ghost it0: seq<Inode>, ghost ow0: Owner,
                     ghost off0: nat)
      returns (ret: int, ghost done: nat)
      requires |data| == (if n > 0 then n else 0) && WrittenSoFar(d0, it0, off0, data, 0)
      requires Ownership(fs.sb, d0, it0, ow0, {}) && fs.dirty == map[]
      requires Advanced(d0, it0, ow0, fs.disk, fs.itable, fs.owner, inum, off0, |data|, 0, fault)
      modifies this, fs
      ensures WrittenSoFar(d0, it0, off0, data, done)
      ensures FileEnded(fs.sb, d0, it0[inum], |ow0|, fs.disk, fs.itable[inum], off0, data, done, fault, fs.dirty)
      ensures ret == if n >= 0 && done == n then n else -1
    {
      var i := 0;
      done := 0;
      while i < n
        invariant 0 <= i <= |data| && i == done && WrittenSoFar(d0, it0, off0, data, done)
        invariant Advanced(d0, it0, ow0, fs.disk, fs.itable, fs.owner, inum, off0, |data|, i, fault)
        invariant fs.dirty == map[]
      {
        var n1 := if n - i > MAXCHUNK then MAXCHUNK else n - i;
        var r;
        r, done := WriteNext(data, i, n1, fault, d0, it0, ow0, off0);
        if r != n1 {
          return -1, done;
        }
        i := i + r;
      }
      ret := if i == n then n else -1;
      Finish(d0, it0, ow0, off0, data, fault);
    }

    lemma Start(data: seq<Byte>, fault: nat)
      requires fs.Settled() && Bounded() && inum < |fs.itable| && fs.itable[inum].kind != 0
      ensures WrittenSoFar(fs.disk, fs.itable, off, data, 0)
      ensures Advanced(fs.disk, fs.itable, fs.owner, fs.disk, fs.itable, fs.owner, inum, off, |data|, 0, fault)
    {
      NothingWritten(Contents(fs.disk, fs.itable[inum]), off, data);
      SlotsRefl(fs.disk, fs.itable, inum, off / BSIZE, off / BSIZE);
      OthersUnchanged(fs.disk, fs.itable, inum);
    }

    lemma Finish(d0: Disk, it0: seq<Inode>, ow0: Owner, off0: nat, data: seq<Byte>, fault: nat)
      requires Ownership(fs.sb, d0, it0, ow0, {}) && WrittenSoFar(d0, it0, off0, data, |data|)
      requires Advanced(d0, it0, ow0, fs.disk, fs.itable, fs.owner, inum, off0, |data|, |data|, fault)
      ensures FileEnded(fs.sb, d0, it0[inum], |ow0|, fs.disk, fs.itable[inum], off0, data, |data|, fault, map[])
    {
      WrittenSize(Contents(d0, it0[inum]), off0, data, |data|, Contents(fs.disk, fs.itable[inum]));
      ThereBelow(fs.disk, fs.itable[inum], off0, |data|);
      AllIn(fs.sb, d0, it0, ow0, fs.disk, fs.itable, fs.owner, inum, off0, data, fault);
    }

    /** Exactly the first k bytes of data were written, from off0 on, to this file alone. */
    ghost predicate WrittenSoFar(d0: Disk, it0: seq<Inode>, off0: nat, data: seq<Byte>, k: int)
      reads this, fs
    {
      && fs.Settled() && Bounded() && inum < |it0| == |fs.itable| && fs.itable[inum].kind != 0
      && off == off0 + k
      && Written(Contents(d0, it0[inum]), off0, data, k, Contents(fs.disk, fs.itable[inum]))
      && OthersSame(d0, it0, fs.disk, fs.itable, inum)
    }

    /** One turn of filewrite's loop. */
    method WriteNext(data: seq<Byte>, i: nat, n1: nat, fault: nat, ghost d0: Disk, ghost it0: seq<Inode>,
                     ghost ow0: Owner, ghost off0: nat)
      returns (r: int, ghost done: nat)
      requires i < |data| && n1 == ChunkLength(|data|, i) && WrittenSoFar(d0, it0, off0, data, i)
      requires Ownership(fs.sb, d0, it0, ow0, {}) && fs.dirty == map[]
      requires Advanced(d0, it0, ow0, fs.disk, fs.itable, fs.owner, inum, off0, |data|, i, fault)
      modifies this, fs
      ensures -1 <= r <= n1 && done == (if r > 0 then i + r else i) && WrittenSoFar(d0, it0, off0, data, done)
      ensures Turned(fs.sb, d0, it0, ow0, fs.disk, fs.itable, fs.owner, inum, off0, data, r, n1, done, fault, fs.dirty)
      ensures fs.base == Snapshot(old(fs.disk), old(fs.itable), old(fs.owner)) && |fs.logged| <= MAXOPBLOCKS
      ensures r != -1 ==> fs.logged != {}
      ensures Holds(fs.sb, Commits(fs.disk, fs.dirty, fs.logged), Snapshot(fs.disk, fs.itable, fs.owner))
    {
      ghost var d1, it1, ow1, at := fs.disk, fs.itable, fs.owner, off;
      var chunk, rel := data[i..i + n1], RelativeFault(fault, i, n1);
      r := WriteChunk(chunk, rel);
      done := if r > 0 then i + r else i;
      OthersStep(d0, it0, d1, it1, fs.disk, fs.itable, inum);
      Turn(fs.sb, d0, it0, ow0, d1, it1, ow1, fs.disk, fs.itable, fs.owner, fs.logged, inum, off0, data, i, at, chunk,
           r, fault, rel, done, fs.dirty);
    }
  }

  /**
   What one chunk comes to: refused exactly when the checks of writei say so, and then nothing has changed;
   otherwise the outcome of writei, in file j alone. And what its commit puts on the disk holds every file
   as the chunk left it.
   */
  ghost predicate ChunkDone(sb: Super, d0: Disk, it0: seq<Inode>, ow0: Owner, d: Disk, it: seq<Inode>, ow: Owner,
                            logged: set<nat>, j: nat, off: nat, chunk: seq<Byte>, r: int, fault: nat,
                            dirty: map<nat, Block>) {
    && SuperOk(sb, d) && j < |it0| == |it| && it[j].kind == it0[j].kind
    && OwnersKept(ow0, ow) && OthersSame(d0, it0, d, it, j)
    && Holds(sb, Commits(d, dirty, logged), Snapshot(d, it, ow))
    && (r == -1 <==> off > it0[j].size || off + |chunk| > MAXFILE * BSIZE)
    && if r == -1 then d == d0 && it == it0 && ow == ow0 && dirty == map[]
       else
         && 0 <= r <= |chunk| && logged != {}
         && Wrote(sb, d0, it0, |ow0|, {}, d, it, logged, j, off, chunk, r, fault, dirty)
         && Contents(d, it[j]) == Overwrite(Contents(d0, it0[j]), off, chunk[..r])
  }

  /** What the commit of a chunk puts on the disk holds every file as the chunk left it. */
  lemma ChunkHolds(sb: Super, d0: Disk, it0: seq<Inode>, ow0: Owner, d: Disk, it: seq<Inode>, ow: Owner,
                   logged: set<nat>, j: nat, off: nat, chunk: seq<Byte>, r: int, fault: nat, dirty: map<nat, Block>)
    requires Sound(sb, Snapshot(d, it, ow)) && j < |it0| == |it| && InodeOk(d0, it0[j])
    requires r == -1 ==> dirty == map[]
    requires r != -1 ==> 0 <= r <= |chunk| && off <= it0[j].size
    requires r != -1 ==> Wrote(sb, d0, it0, |ow0|, {}, d, it, logged, j, off, chunk, r, fault, dirty)
    requires r != -1 ==> Contents(d, it[j]) == Overwrite(Contents(d0, it0[j]), off, chunk[..r])
    ensures Holds(sb, Commits(d, dirty, logged), Snapshot(d, it, ow))
  {
    if r == -1 {
      CommitsClean(d, logged);
      SameFileSystem(sb, Snapshot(d, it, ow), d);
    } else {
      assert it[j].size == |Contents(d, it[j])|;
      CommitsHolds(sb, d0, it0, |ow0|, d, it, ow, logged, j, off, chunk, r, fault, dirty);
    }
  }

  // ------------------------------------------------------------ how far filewrite gets

  /** Where the chunk of byte p begins. */
  function ChunkStart(p: nat): (c: nat)
    ensures c <= p < c + MAXCHUNK
  {
    if p < MAXCHUNK then 0 else MAXCHUNK + ChunkStart(p - MAXCHUNK)
  }

  /** The length of the chunk that begins at i. */
  function ChunkLength(len: nat, i: nat): (n: nat)
    requires i < len
    ensures 0 < n <= MAXCHUNK && i + n <= len
  {
    if len - i > MAXCHUNK then MAXCHUNK else len - i
  }

  /** Where the chunk of byte p ends. */
  function ChunkEnd(len: nat, p: nat): (e: nat)
    requires p < len
    ensures p < e <= len
  {
    ChunkStart(p) + ChunkLength(len, ChunkStart(p))
  }

  lemma {:induction false} ChunkOf(i: nat, p: nat)
    requires ChunkStart(i) == i <= p < i + MAXCHUNK
    ensures ChunkStart(p) == i
  {
    if i > 0 {
      ChunkOf(i - MAXCHUNK, p - MAXCHUNK);
    }
  }

  lemma {:induction false} ChunkStarts(p: nat)
    ensures ChunkStart(ChunkStart(p)) == ChunkStart(p)
  {
    if p >= MAXCHUNK {
      ChunkStarts(p - MAXCHUNK);
    }
  }

  /** Where the step of writei's loop begins that copies byte p: at the start of a chunk or at a block boundary. */
  function FileStep(off: nat, p: nat): (t: nat)
    ensures t <= p
  {
    var c := ChunkStart(p);
    c + StepStart(off + c, p - c)
  }

  /** writei's checks let the chunk of byte p pass, and the blocks needed up to that byte are there or free. */
  predicate FileReaches(sb: Super, d: Disk, ino: Inode, n: nat, off: nat, len: nat, p: nat) {
    && p < len && off <= ino.size
    && off + ChunkEnd(len, p) <= MAXFILE * BSIZE
    && Reaches(sb, d, ino, n, off, p)
  }

  /** The number r of len bytes that filewrite gets in. */
  predicate FileGetsIn(sb: Super, d: Disk, ino: Inode, n: nat, off: nat, len: nat, fault: nat, r: nat) {
    if FileReaches(sb, d, ino, n, off, len, fault) then r == FileStep(off, fault)
    else if len == 0 || FileReaches(sb, d, ino, n, off, len, len - 1) then r == len
    else r < len && r == FileStep(off, r) && !FileReaches(sb, d, ino, n, off, len, r) &&
         (r > 0 ==> FileReaches(sb, d, ino, n, off, len, r - 1))
  }

  /** All of the first i bytes are in, in whole chunks, and only the blocks they need were taken. */
  ghost predicate Advanced(d0: Disk, it0: seq<Inode>, ow0: Owner, d: Disk, it: seq<Inode>, ow: Owner, j: nat, off: nat,
                           len: nat, i: nat, fault: nat) {
    && OwnersKept(ow0, ow) && i <= len && i <= fault && Slots(d0, it0, d, it, j, off / BSIZE, BlockEnd(off, i))
    && (ChunkStart(i) == i || i == len)
    && (i > 0 ==> off <= it0[j].size && off + i <= MAXFILE * BSIZE)
  }

  /** What a turn with a chunk of n bytes comes to, of which writei returned r. */
  ghost predicate Turned(sb: Super, d0: Disk, it0: seq<Inode>, ow0: Owner, d: Disk, it: seq<Inode>, ow: Owner, j: nat,
                         off: nat, data: seq<Byte>, r: int, n: nat, done: nat, fault: nat, dirty: map<nat, Block>) {
    && j < |it0| == |it|
    && if r == n then dirty == map[] && Advanced(d0, it0, ow0, d, it, ow, j, off, |data|, done, fault)
       else FileEnded(sb, d0, it0[j], |ow0|, d, it[j], off, data, done, fault, dirty)
  }

  /** One turn of the loop: the chunk that begins at i, after which writei returned r. */
  lemma Turn(sb: Super, d0: Disk, it0: seq<Inode>, ow0: Owner, d1: Disk, it1: seq<Inode>, ow1: Owner, d: Disk,
             it: seq<Inode>, ow: Owner, logged: set<nat>, j: nat, off: nat, data: seq<Byte>, i: nat, at: nat,
             chunk: seq<Byte>, r: int, fault: nat, rel: nat, done: nat, dirty: map<nat, Block>)
    requires Ownership(sb, d0, it0, ow0, {}) && Ownership(sb, d, it, ow, {}) && i < |data| && at == off + i
    requires Advanced(d0, it0, ow0, d1, it1, ow1, j, off, |data|, i, fault) && j < |it|
    requires Written(Contents(d0, it0[j]), off, data, i, Contents(d1, it1[j])) && InodeOk(d, it[j])
    requires chunk == data[i..i + ChunkLength(|data|, i)] && rel == RelativeFault(fault, i, |chunk|)
    requires -1 <= r <= |chunk| && done == if r > 0 then i + r else i
    requires ChunkDone(sb, d1, it1, ow1, d, it, ow, logged, j, at, chunk, r, rel, dirty)
    ensures Written(Contents(d0, it0[j]), off, data, done, Contents(d, it[j]))
    ensures Turned(sb, d0, it0, ow0, d, it, ow, j, off, data, r, |chunk|, done, fault, dirty)
  {
    TurnBytes(Contents(d0, it0[j]), Contents(d1, it1[j]), Contents(d, it[j]), off, data, i, at, chunk, r, done);
    ThereBelow(d, it[j], off, done);
    OwnersKeptTrans(ow0, ow1, ow);
    TurnEnded(sb, d0, it0, ow0, d1, it1, ow1, d, it, ow, j, off, data, i, at, chunk, r, fault, rel, done, dirty);
  }

  lemma TurnBytes(s0: seq<Byte>, s1: seq<Byte>, s: seq<Byte>, off: nat, data: seq<Byte>, i: nat, at: nat,
                  chunk: seq<Byte>, r: int, done: nat)
    requires Written(s0, off, data, i, s1) && i < |data| && at == off + i
    requires chunk == data[i..i + ChunkLength(|data|, i)]
    requires -1 <= r <= |chunk| && done == if r > 0 then i + r else i
    requires if r == -1 then s == s1 else at <= |s1| && s == Overwrite(s1, at, chunk[..r])
    ensures Written(s0, off, data, done, s) && (done > 0 ==> off + done <= |s|)
    ensures if off <= |s0| then off + i <= |s1| else i == 0 && |s1| == |s0|
  {
    WrittenSize(s0, off, data, i, s1);
    if r != -1 {
      WrittenNext(s0, off, data, i, |chunk|, chunk, r, done, s1, s);
    }
    WrittenSize(s0, off, data, done, s);
  }

  lemma TurnEnded(sb: Super, d0: Disk, it0: seq<Inode>, ow0: Owner, d1: Disk, it1: seq<Inode>, ow1: Owner, d: Disk,
                  it: seq<Inode>, ow: Owner, j: nat, off: nat, data: seq<Byte>, i: nat, at: nat, chunk: seq<Byte>,
                  r: int, fault: nat, rel: nat, done: nat, dirty: map<nat, Block>)
    requires Ownership(sb, d0, it0, ow0, {}) && Ownership(sb, d, it, ow, {}) && OwnersKept(ow0, ow)
    requires Advanced(d0, it0, ow0, d1, it1, ow1, j, off, |data|, i, fault) && i < |data| && |it| == |it1|
    requires at == off + i
    requires if off <= it0[j].size then off + i <= it1[j].size else i == 0 && it1[j].size == it0[j].size
    requires chunk == data[i..i + ChunkLength(|data|, i)] && rel == RelativeFault(fault, i, |chunk|)
    requires -1 <= r <= |chunk| && done == if r > 0 then i + r else i
    requires r == -1 <==> at > it1[j].size || at + |chunk| > MAXFILE * BSIZE
    requires r == -1 ==> d == d1 && it == it1 && dirty == map[]
    requires r != -1 ==> Ended(sb, d, it[j], at, chunk, r, rel, dirty)
    requires r != -1 ==> Slots(d1, it1, d, it, j, at / BSIZE, TriedEnd(at, |chunk|, r))
    requires BlocksThere(d, it[j], off, done)
    ensures Turned(sb, d0, it0, ow0, d, it, ow, j, off, data, r, |chunk|, done, fault, dirty)
  {
    if r == -1 {
      Refused(sb, d0, it0, ow0, d, it, ow, j, off, data, i, fault);
    } else {
      ChunkSlots(d0, it0, d1, it1, d, it, j, off, i, at, |chunk|, r, done);
      if r < |chunk| {
        CutShort(sb, d0, it0, ow0, d, it, ow, j, off, data, i, at, chunk, r, fault, rel, done, dirty);
      }
    }
  }

  /** The blocks of bytes below the size are there. */
  lemma ThereBelow(d: Disk, ino: Inode, off: nat, r: nat)
    requires InodeOk(d, ino) && (r > 0 ==> off + r <= ino.size)
    ensures BlocksThere(d, ino, off, r)
  {
    forall bn | off / BSIZE <= bn < BlockEnd(off, r) ensures HasBlock(d, ino, bn) {
      assert bn * BSIZE < off + r;
    }
  }

  /** What filewrite comes to: the bytes that had to get in, and whether a buffer is changed and not logged. */
  ghost predicate FileEnded(sb: Super, d0: Disk, ino0: Inode, n0: nat, d: Disk, ino: Inode, off: nat, data: seq<Byte>,
                            done: nat, fault: nat, dirty: map<nat, Block>) {
    && FileGetsIn(sb, d0, ino0, n0, off, |data|, fault, done)
    && (dirty != map[] <==> FileReaches(sb, d0, ino0, n0, off, |data|, fault) && FileStep(off, fault) < fault)
    && (dirty != map[] ==> Stopped(d, ino, off, data, done, fault, dirty))
  }

  lemma FileReachesLess(sb: Super, d: Disk, ino: Inode, n: nat, off: nat, len: nat, p: nat, q: nat)
    requires FileReaches(sb, d, ino, n, off, len, q) && p <= q
    ensures FileReaches(sb, d, ino, n, off, len, p)
  {
    ReachesLess(sb, d, ino, n, off, p, q);
    EarlierChunk(len, p, q);
  }

  /** The number is determined. */
  lemma FileGetsInOnce(sb: Super, d: Disk, ino: Inode, n: nat, off: nat, len: nat, fault: nat, r: nat, s: nat)
    requires FileGetsIn(sb, d, ino, n, off, len, fault, r) && FileGetsIn(sb, d, ino, n, off, len, fault, s)
    ensures r == s
  {
    if !FileReaches(sb, d, ino, n, off, len, fault) && !(len == 0 || FileReaches(sb, d, ino, n, off, len, len - 1)) {
      NotBefore(sb, d, ino, n, off, len, r, s);
      NotBefore(sb, d, ino, n, off, len, s, r);
    }
  }

  lemma NotBefore(sb: Super, d: Disk, ino: Inode, n: nat, off: nat, len: nat, r: nat, s: nat)
    requires !FileReaches(sb, d, ino, n, off, len, r) && (s > 0 ==> FileReaches(sb, d, ino, n, off, len, s - 1))
    ensures s <= r
  {
    if r < s {
      FileReachesLess(sb, d, ino, n, off, len, r, s - 1);
    }
  }

  lemma EarlierChunk(len: nat, p: nat, q: nat)
    requires p <= q < len
    ensures ChunkEnd(len, p) <= ChunkEnd(len, q)
  {
    ChunkStarts(q);
    if ChunkStart(p) > ChunkStart(q) {
      ChunkOf(ChunkStart(q), p);
    }
  }

  /** The chunk of a byte before i, where chunks end, ends there or earlier. */
  lemma ChunkBefore(len: nat, i: nat)
    requires 0 < i <= len && (ChunkStart(i) == i || i == len)
    ensures ChunkEnd(len, i - 1) == i
  {
    if ChunkStart(i) == i {
      ChunkOf(i - MAXCHUNK, i - 1);
    }
  }

  /** Bytes before i, all of them in: the one before i was reached. */
  lemma InBefore(sb: Super, d0: Disk, it0: seq<Inode>, ow0: Owner, d: Disk, it: seq<Inode>, ow: Owner, j: nat, off: nat,
                 len: nat, i: nat, end: nat)
    requires Ownership(sb, d0, it0, ow0, {}) && Ownership(sb, d, it, ow, {}) && OwnersKept(ow0, ow)
    requires 0 < i <= len && BlockEnd(off, i) <= end && Slots(d0, it0, d, it, j, off / BSIZE, end)
    requires BlocksThere(d, it[j], off, i) && off <= it0[j].size
    requires off + ChunkEnd(len, i - 1) <= MAXFILE * BSIZE
    ensures FileReaches(sb, d0, it0[j], |ow0|, off, len, i - 1)
  {
    WasReached(sb, d0, it0, ow0, d, it, ow, j, off, i - 1, end);
  }

  lemma AllIn(sb: Super, d0: Disk, it0: seq<Inode>, ow0: Owner, d: Disk, it: seq<Inode>, ow: Owner, j: nat, off: nat,
              data: seq<Byte>, fault: nat)
    requires Ownership(sb, d0, it0, ow0, {}) && Ownership(sb, d, it, ow, {}) && OwnersKept(ow0, ow)
    requires |data| <= fault && Slots(d0, it0, d, it, j, off / BSIZE, BlockEnd(off, |data|))
    requires data != [] ==> off <= it0[j].size && off + |data| <= MAXFILE * BSIZE
    requires BlocksThere(d, it[j], off, |data|)
    ensures FileEnded(sb, d0, it0[j], |ow0|, d, it[j], off, data, |data|, fault, map[])
  {
    if data != [] {
      ChunkBefore(|data|, |data|);
      InBefore(sb, d0, it0, ow0, d, it, ow, j, off, |data|, |data|, BlockEnd(off, |data|));
    }
  }

  lemma StepOf(off: nat, i: nat, p: nat, r: nat)
    requires ChunkStart(i) == i <= p < i + MAXCHUNK && r == StepStart(off + i, p - i)
    ensures ChunkStart(p) == i && FileStep(off, p) == i + r
  {
    ChunkOf(i, p);
  }

  /** A step that cannot be made, after all those before it, is where filewrite ends. */
  lemma StopsAt(sb: Super, d0: Disk, ino0: Inode, n: nat, d: Disk, ino: Inode, off: nat, data: seq<Byte>, done: nat,
                fault: nat)
    requires done < |data| && done <= fault && done == FileStep(off, done)
    requires !FileReaches(sb, d0, ino0, n, off, |data|, done)
    requires done > 0 ==> FileReaches(sb, d0, ino0, n, off, |data|, done - 1)
    ensures FileEnded(sb, d0, ino0, n, d, ino, off, data, done, fault, map[])
  {
    NothingLater(sb, d0, ino0, n, off, |data|, fault, done);
  }

  /** writei refuses the chunk that begins at i. */
  lemma Refused(sb: Super, d0: Disk, it0: seq<Inode>, ow0: Owner, d: Disk, it: seq<Inode>, ow: Owner, j: nat, off: nat,
                data: seq<Byte>, i: nat, fault: nat)
    requires Ownership(sb, d0, it0, ow0, {}) && Ownership(sb, d, it, ow, {}) && OwnersKept(ow0, ow)
    requires i < |data| && ChunkStart(i) == i && i <= fault && Slots(d0, it0, d, it, j, off / BSIZE, BlockEnd(off, i))
    requires off > it0[j].size || off + i + ChunkLength(|data|, i) > MAXFILE * BSIZE
    requires i > 0 ==> off <= it0[j].size && off + i <= MAXFILE * BSIZE
    requires BlocksThere(d, it[j], off, i)
    ensures FileEnded(sb, d0, it0[j], |ow0|, d, it[j], off, data, i, fault, map[])
  {
    SameStep(off + i, 0, 0);
    StepOf(off, i, i, 0);
    if i > 0 {
      ChunkBefore(|data|, i);
      InBefore(sb, d0, it0, ow0, d, it, ow, j, off, |data|, i, BlockEnd(off, i));
    }
    StopsAt(sb, d0, it0[j], |ow0|, d, it[j], off, data, i, fault);
  }

  /** A byte that is not reached keeps every later one from being reached. */
  lemma NothingLater(sb: Super, d: Disk, ino: Inode, n: nat, off: nat, len: nat, fault: nat, i: nat)
    requires !FileReaches(sb, d, ino, n, off, len, i) && i < len && i <= fault
    ensures !FileReaches(sb, d, ino, n, off, len, fault) && !FileReaches(sb, d, ino, n, off, len, len - 1)
  {
    if FileReaches(sb, d, ino, n, off, len, fault) {
      FileReachesLess(sb, d, ino, n, off, len, i, fault);
    } else if FileReaches(sb, d, ino, n, off, len, len - 1) {
      FileReachesLess(sb, d, ino, n, off, len, i, len - 1);
    }
  }

  /** Slots over a chunk more. */
  lemma ChunkSlots(d0: Disk, it0: seq<Inode>, d: Disk, it: seq<Inode>, d': Disk, it': seq<Inode>, j: nat, off: nat,
                   i: nat, at: nat, n: nat, r: nat, done: nat)
    requires Slots(d0, it0, d, it, j, off / BSIZE, BlockEnd(off, i)) && 0 < n && r <= n && at == off + i
    requires done == i + r
    requires Slots(d, it, d', it', j, at / BSIZE, TriedEnd(at, n, r))
    ensures Slots(d0, it0, d', it', j, off / BSIZE, if r == n then BlockEnd(off, done) else (off + done) / BSIZE + 1)
  {
    ChunkBlocks(off, i, n, r);
    assert at + r == off + done;
    SlotsTrans(d0, it0, d, it, d', it', j, off / BSIZE, BlockEnd(off, i), at / BSIZE, TriedEnd(at, n, r));
  }

  lemma ChunkBlocks(off: nat, i: nat, n: nat, r: nat)
    requires 0 < n && r <= n
    ensures off / BSIZE <= (off + i) / BSIZE <= BlockEnd(off, i) <= TriedEnd(off + i, n, r)
    ensures TriedEnd(off + i, n, r) == if r == n then BlockEnd(off, i + n) else (off + i + r) / BSIZE + 1
  {
  }

  /** writei gets r bytes of the chunk that begins at i in, and that is not all of it. */
  lemma CutShort(sb: Super, d0: Disk, it0: seq<Inode>, ow0: Owner, d: Disk, it: seq<Inode>, ow: Owner, j: nat, off: nat,
                 data: seq<Byte>, i: nat, at: nat, chunk: seq<Byte>, r: nat, fault: nat, rel: nat, done: nat,
                 dirty: map<nat, Block>)
    requires Ownership(sb, d0, it0, ow0, {}) && Ownership(sb, d, it, ow, {}) && OwnersKept(ow0, ow)
    requires i < |data| && ChunkStart(i) == i && i <= fault && chunk == data[i..i + ChunkLength(|data|, i)]
    requires rel == RelativeFault(fault, i, |chunk|) && r < |chunk| && done == i + r
    requires at == off + i && at + r == off + done
    requires Slots(d0, it0, d, it, j, off / BSIZE, (off + done) / BSIZE + 1) && BlocksThere(d, it[j], off, done)
    requires off <= it0[j].size && at + |chunk| <= MAXFILE * BSIZE
    requires Ended(sb, d, it[j], at, chunk, r, rel, dirty)
    ensures FileEnded(sb, d0, it0[j], |ow0|, d, it[j], off, data, done, fault, dirty)
  {
    if Stopped(d, it[j], at, chunk, r, rel, dirty) {
      FaultPlace(d, it[j], off, data, i, at, chunk, r, fault, rel, done, dirty);
      CutByFault(sb, d0, it0, ow0, d, it, ow, j, off, data, fault, done, dirty);
    } else {
      RoomPlace(off, data, i, at, chunk, r, done);
      CutByRoom(sb, d0, it0, ow0, d, it, ow, j, off, data, fault, done);
    }
  }

  /** Where the write stopped, in the chunk and in the data. */
  lemma FaultPlace(d: Disk, ino: Inode, off: nat, data: seq<Byte>, i: nat, at: nat, chunk: seq<Byte>, r: nat,
                   fault: nat, rel: nat, done: nat, dirty: map<nat, Block>)
    requires i < |data| && ChunkStart(i) == i && i <= fault && chunk == data[i..i + ChunkLength(|data|, i)]
    requires rel == RelativeFault(fault, i, |chunk|) && done == i + r && at == off + i && at + r == off + done
    requires (r > 0 ==> (at + r) % BSIZE == 0) && Stopped(d, ino, at, chunk, r, rel, dirty)
    ensures Stopped(d, ino, off, data, done, fault, dirty) && ChunkStart(fault) == i && FileStep(off, fault) == done
  {
    StoppedShift(d, ino, off, data, i, at, |chunk|, chunk, r, fault, rel, done, dirty);
    StepAt(off, i, at, r, rel, fault);
  }

  lemma RoomPlace(off: nat, data: seq<Byte>, i: nat, at: nat, chunk: seq<Byte>, r: nat, done: nat)
    requires i < |data| && ChunkStart(i) == i && chunk == data[i..i + ChunkLength(|data|, i)] && r < |chunk|
    requires done == i + r && at == off + i && (r > 0 ==> (at + r) % BSIZE == 0)
    ensures ChunkStart(done) == i && FileStep(off, done) == done
  {
    StepAt(off, i, at, r, r, done);
  }

  /** Byte p of the data, which is byte q of the chunk that begins at i, belongs to the step that begins at r there. */
  lemma StepAt(off: nat, i: nat, at: nat, r: nat, q: nat, p: nat)
    requires ChunkStart(i) == i && r <= q < MAXCHUNK && at == off + i && p == i + q
    requires (at + r) % BSIZE + (q - r) < BSIZE && (r > 0 ==> (at + r) % BSIZE == 0)
    ensures ChunkStart(p) == i && FileStep(off, p) == i + r
  {
    SameStep(at, r, q);
    StepOf(off, i, p, r);
  }

  lemma CutByFault(sb: Super, d0: Disk, it0: seq<Inode>, ow0: Owner, d: Disk, it: seq<Inode>, ow: Owner, j: nat,
                   off: nat, data: seq<Byte>, fault: nat, done: nat, dirty: map<nat, Block>)
    requires Ownership(sb, d0, it0, ow0, {}) && Ownership(sb, d, it, ow, {}) && OwnersKept(ow0, ow)
    requires Slots(d0, it0, d, it, j, off / BSIZE, (off + done) / BSIZE + 1) && BlocksThere(d, it[j], off, done)
    requires Stopped(d, it[j], off, data, done, fault, dirty) && done == FileStep(off, fault)
    requires off <= it0[j].size
    requires off + ChunkEnd(|data|, fault) <= MAXFILE * BSIZE
    ensures FileEnded(sb, d0, it0[j], |ow0|, d, it[j], off, data, done, fault, dirty)
  {
    var q, m := (off + done) / BSIZE, (off + done) % BSIZE;
    InBlock(off + fault, q, m + (fault - done));
    forall bn | off / BSIZE <= bn <= q ensures HasBlock(d, it[j], bn) {
      BeforeStep(off, done, bn);
    }
    WasReached(sb, d0, it0, ow0, d, it, ow, j, off, fault, q + 1);
    if done < fault {
      assert Addr(d, it[j], Slot(q)) in dirty;
    }
  }

  /** A file block up to that of byte n is one that the first n bytes touch, or that of byte n. */
  lemma BeforeStep(off: nat, n: nat, bn: nat)
    requires off / BSIZE <= bn <= (off + n) / BSIZE
    ensures bn < BlockEnd(off, n) || bn == (off + n) / BSIZE
  {
  }

  lemma EndBefore(off: nat, n: nat)
    ensures BlockEnd(off, n) <= (off + n) / BSIZE + 1
  {
  }

  lemma ReachedBefore(sb: Super, d0: Disk, it0: seq<Inode>, ow0: Owner, d: Disk, it: seq<Inode>, ow: Owner, j: nat,
                      off: nat, len: nat, done: nat, end: nat)
    requires Ownership(sb, d0, it0, ow0, {}) && Ownership(sb, d, it, ow, {}) && OwnersKept(ow0, ow)
    requires BlockEnd(off, done) <= end && Slots(d0, it0, d, it, j, off / BSIZE, end)
    requires 0 < done < len && off <= it0[j].size && BlocksThere(d, it[j], off, done)
    requires off + ChunkEnd(len, done) <= MAXFILE * BSIZE
    ensures FileReaches(sb, d0, it0[j], |ow0|, off, len, done - 1)
  {
    EarlierChunk(len, done - 1, done);
    InBefore(sb, d0, it0, ow0, d, it, ow, j, off, len, done, end);
  }

  lemma CutByRoom(sb: Super, d0: Disk, it0: seq<Inode>, ow0: Owner, d: Disk, it: seq<Inode>, ow: Owner, j: nat,
                  off: nat, data: seq<Byte>, fault: nat, done: nat)
    requires Ownership(sb, d0, it0, ow0, {}) && Ownership(sb, d, it, ow, {}) && OwnersKept(ow0, ow)
    requires Slots(d0, it0, d, it, j, off / BSIZE, (off + done) / BSIZE + 1) && BlocksThere(d, it[j], off, done)
    requires AllUsed(sb, d, sb.size) && !HasBlock(d, it[j], (off + done) / BSIZE)
    requires done < |data| && done <= fault && done == FileStep(off, done) && off <= it0[j].size
    requires off + ChunkEnd(|data|, done) <= MAXFILE * BSIZE
    ensures FileEnded(sb, d0, it0[j], |ow0|, d, it[j], off, data, done, fault, map[])
  {
    NotReached(sb, d0, it0, ow0, d, it, ow, j, off, done);
    if done > 0 {
      EndBefore(off, done);
      ReachedBefore(sb, d0, it0, ow0, d, it, ow, j, off, |data|, done, (off + done) / BSIZE + 1);
    }
    StopsAt(sb, d0, it0[j], |ow0|, d, it[j], off, data, done, fault);
  }

  /** Where in a chunk of n bytes from i on the copy fails; n if not in it. */
  function RelativeFault(fault: nat, i: nat, n: nat): (rel: nat)
    ensures rel < n ==> fault == i + rel
  {
    if i <= fault then fault - i else n
  }

  /** A copy that failed inside a chunk failed inside the data. */
  lemma StoppedShift(d: Disk, ino: Inode, off: nat, data: seq<Byte>, i: nat, at: nat, n: nat, chunk: seq<Byte>, r: nat,
                     fault: nat, rel: nat, done: nat, dirty: map<nat, Block>)
    requires i + n <= |data| && chunk == data[i..i + n] && rel == RelativeFault(fault, i, n) && done == i + r
    requires at == off + i && at + r == off + done && Stopped(d, ino, at, chunk, r, rel, dirty)
    ensures Stopped(d, ino, off, data, done, fault, dirty)
  {
    var c, e := chunk[r..rel], data[done..fault];
    forall k | 0 <= k < |c| ensures c[k] == e[k] {
      assert c[k] == chunk[r + k] == data[i + (r + k)] && e[k] == data[done + k];
    }
    assert c == e;
  }

  lemma NothingWritten(s: seq<Byte>, off: nat, data: seq<Byte>)
    ensures Written(s, off, data, 0, s)
  {
  }

  lemma WrittenSize(s: seq<Byte>, off: nat, data: seq<Byte>, k: nat, t: seq<Byte>)
    requires Written(s, off, data, k, t)
    ensures off <= |s| ==> off + k <= |t|
  {
  }

  /** The first k bytes of data are at offset off of a file that held s; an offset past its end writes nothing. */
  predicate Written(s: seq<Byte>, off: nat, data: seq<Byte>, k: int, t: seq<Byte>) {
    && 0 <= k <= |data|
    && (if off <= |s| then t == Overwrite(s, off, data[..k]) else k == 0 && t == s)
  }

  lemma WrittenNext(s: seq<Byte>, off: nat, data: seq<Byte>, i: nat, n1: nat, chunk: seq<Byte>, r: nat, done: nat,
                    t: seq<Byte>, t': seq<Byte>)
    requires Written(s, off, data, i, t) && i + n1 <= |data| && chunk == data[i..i + n1] && r <= n1 && done == i + r
    requires off + i <= |t| && t' == Overwrite(t, off + i, chunk[..r])
    ensures Written(s, off, data, done, t')
  {
    if off <= |s| {
      OverwriteTwice(s, off, data[..i], data[i..i + r]);
      assert data[..i] + data[i..i + r] == data[..i + r] && chunk[..r] == data[i..i + r];
    }
  }
}
