/**
 The logging layer as it runs: the in-memory header, the buffers pinned in the
 cache, and the loops that write the log, the header and the home blocks. Every
 method is tied to the write sequences of RedoLog, so that crash atomicity, which
 is stated over prefixes of those sequences, speaks about these loops.
 */
module Log {
  import opened Bytes
  import opened Params
  import opened RedoLog

  datatype LogWriteResult = Logged | PanicTooBig | PanicOutsideTrans

  /** bunpin of the first k listed blocks; a recovery runs before anything is pinned. */
  function Unpinned(pins: map<nat, Block>, lh: seq<nat>, k: nat, recovering: bool): map<nat, Block>
    requires k <= |lh|
  {
    if recovering || k == 0 then pins else Unpinned(pins, lh, k - 1, recovering) - {lh[k - 1]}
  }

  lemma {:induction false} UnpinnedKeys(pins: map<nat, Block>, lh: seq<nat>, k: nat)
    requires k <= |lh|
    ensures forall b :: b in Unpinned(pins, lh, k, false) <==> b in pins && forall i :: 0 <= i < k ==> lh[i] != b
  {
    if k > 0 {
      UnpinnedKeys(pins, lh, k - 1);
    }
  }

  lemma UnpinAll(pins: map<nat, Block>, lh: seq<nat>)
    requires forall b :: b in pins ==> b in lh
    ensures Unpinned(pins, lh, |lh|, false) == map[]
  {
    UnpinnedKeys(pins, lh, |lh|);
  }

  /** The pinned buffers, after those of `dirty` have been changed. */
  function Rewritten(pins: map<nat, Block>, dirty: map<nat, Block>): (r: map<nat, Block>)
    ensures r.Keys == pins.Keys
  {
    map b | b in pins :: if b in dirty then dirty[b] else pins[b]
  }

  class Log {
    const g: Geometry
    const block: array<nat>         // lh.block
    var n: nat                      // lh.n
    ghost var lh: seq<nat>          // block[..n], the blocks of the open transaction
    var outstanding: nat
    var committing: bool
    var disk: Disk
    ghost const image: Disk         // the disk as it was first seen
    ghost var trace: seq<Write>     // every block write issued to the device since, in order
    var pinned: map<nat, Block>     // buffers kept in the cache by bpin, with their latest contents

    /** Between transactions' disk writes: the on-disk log is empty, every logged block is pinned. */
    ghost predicate Valid()
      reads this, block
    {
      && Sized()
      && Traced()
      && Ready(g, disk, lh, pinned)
      && (forall b :: b in pinned <==> b in lh)
    }

    ghost predicate Sized()
      reads this, block
    {
      block.Length == LOGSIZE && n == |lh| <= LOGSIZE && lh == block[..n] && Layout(g, disk)
    }

    /** The disk is what its writes, in order, made of the first image. */
    ghost predicate Traced()
      reads this
    {
      InRange(image, trace) && disk == Apply(image, trace)
    }

    /** initlog, at boot: what the log of the disk holds is installed, and the log is empty. */
    constructor (g: Geometry, disk: Disk)
      requires LogOk(g, disk)
      ensures Valid() && fresh(block) && this.g == g && n == 0 && outstanding == 0 && !committing
      ensures this.disk == Recover(g, disk) && image == disk && trace == RecoverWrites(g, disk)
    {
      this.g := g;
      this.disk, image := disk, disk;
      block := new nat[LOGSIZE];
      n, outstanding, committing := 0, 0, false;
      trace, pinned, lh := [], map[], [];
      new;
      RecoverFromLog();
    }

    /** bwrite: one atomic block write. */
    method Bwrite(b: nat, data: Block)
      requires b < |disk| && Traced()
      modifies this`disk, this`trace
      ensures Traced()
      ensures disk == old(disk)[b := data]
      ensures trace == old(trace) + [Write(b, data)]
    {
      disk := disk[b := data];
      trace := trace + [Write(b, data)];
      ApplyOne(image, old(trace), Write(b, data));
    }

    /** bread: a pinned buffer is always found in the cache. */
    function Bread(b: nat): Block
      reads this
      requires b < |disk|
    {
      if b in pinned then pinned[b] else disk[b]
    }

    method WriteLog()
      requires Sized() && Traced() && Addresses(g, disk, lh)
      requires Cached(lh, pinned)
      modifies this`disk, this`trace
      ensures Traced() && |disk| == |old(disk)| && disk[g.start] == old(disk)[g.start]
      ensures trace == old(trace) + LogWrites(g, lh, pinned, n)
    {
      var tail := 0;
      while tail < n
        invariant 0 <= tail <= n && Traced() && |disk| == |old(disk)|
        invariant disk[g.start] == old(disk)[g.start]
        invariant trace == old(trace) + LogWrites(g, lh, pinned, tail)
      {
        assert block[tail] == lh[tail];
        var from := Bread(block[tail]);
        Bwrite(g.start + tail + 1, from);
        tail := tail + 1;
      }
    }

    /** The header buffer filled from the in-memory header. */
    method FillHead() returns (hb: Block)
      requires Sized() && forall i :: 0 <= i < n ==> lh[i] < |disk|
      ensures hb == EncodeHead(disk[g.start], lh)
    {
      hb := FillEntries(PutWord(disk[g.start], 0, n), lh);
    }

    /** The loop of write_head. */
    method FillEntries(hb0: Block, ghost lh: seq<Word>) returns (hb: Block)
      requires block.Length == LOGSIZE && n == |lh| <= LOGSIZE && forall i :: 0 <= i < n ==> block[i] == lh[i]
      ensures hb == PutEntries(hb0, lh, |lh|)
    {
      hb := hb0;
      var i := 0;
      while i < n
        invariant 0 <= i <= n && hb == PutEntries(hb0, lh, i)
      {
        hb := PutWord(hb, i + 1, block[i]);
        i := i + 1;
      }
    }

    method WriteHead()
      requires Sized() && Traced() && forall i :: 0 <= i < n ==> lh[i] < |disk|
      modifies this`disk, this`trace
      ensures Traced() && |disk| == |old(disk)|
      ensures trace == old(trace) + [Write(g.start, EncodeHead(old(disk)[g.start], lh))]
      ensures disk[g.start] == EncodeHead(old(disk)[g.start], lh)
    {
      var hb := FillHead();
      Bwrite(g.start, hb);
    }

    /** The first k log copies have been written home, and nothing was written to the log. */
    ghost predicate Installing(d: Disk, t: seq<Write>, pins: map<nat, Block>, recovering: bool, k: nat)
      reads this
      requires Layout(g, d) && Addresses(g, d, lh) && k <= |lh|
    {
      && Traced() && |disk| == |d| && SameLog(g, d, disk)
      && trace == t + InstallWrites(g, d, lh, k) && pinned == Unpinned(pins, lh, k, recovering)
    }

    method InstallTrans(recovering: bool)
      requires Sized() && Traced() && Addresses(g, disk, lh)
      modifies this`disk, this`trace, this`pinned
      ensures Traced() && |disk| == |old(disk)| && disk[g.start] == old(disk)[g.start]
      ensures trace == old(trace) + InstallWrites(g, old(disk), lh, n)
      ensures pinned == Unpinned(old(pinned), lh, n, recovering)
    {
      ghost var d := disk;
      var tail := 0;
      while tail < n
        invariant 0 <= tail <= n && Installing(d, old(trace), old(pinned), recovering, tail)
      {
        InstallOne(tail, recovering, d, old(trace), old(pinned));
        tail := tail + 1;
      }
    }

    /** One turn of install_trans. */
    method InstallOne(tail: nat, recovering: bool, ghost d: Disk, ghost t: seq<Write>, ghost pins: map<nat, Block>)
      requires block.Length == LOGSIZE && n == |lh| <= LOGSIZE && lh == block[..n] && tail < n
      requires Layout(g, d) && Addresses(g, d, lh) && Installing(d, t, pins, recovering, tail)
      modifies this`disk, this`trace, this`pinned
      ensures Installing(d, t, pins, recovering, tail + 1)
    {
      assert block[tail] == lh[tail];
      var lbuf := disk[g.start + tail + 1];
      Bwrite(block[tail], lbuf);
      assert InstallWrites(g, d, lh, tail + 1) == InstallWrites(g, d, lh, tail) + [Write(lh[tail], lbuf)];
      if !recovering {
        pinned := pinned - {block[tail]};
      }
    }

    /** The common tail of commit and recover_from_log: install, forget, clear the header. */
    method InstallAndClear(recovering: bool)
      requires Sized() && Traced() && LogOk(g, disk) && Head(disk[g.start]) == lh
      modifies this`disk, this`trace, this`pinned, this`n, this`lh
      ensures Traced() && trace == old(trace) + RecoverWrites(g, old(disk))
      ensures disk == Recover(g, old(disk))
      ensures Sized() && n == 0
      ensures pinned == Unpinned(old(pinned), old(lh), old(n), recovering)
    {
      InstallTrans(recovering);
      n, lh := 0, [];
      WriteHead();
      ApplyConcat(image, old(trace), RecoverWrites(g, old(disk)));
    }

    /** write_log and write_head: from here on the transaction survives a crash. */
    method LogAndHead()
      requires Valid()
      modifies this`disk, this`trace
      ensures Traced() && trace == old(trace) + HeadWrites(g, old(disk), lh, pinned)
      ensures disk == Apply(old(disk), HeadWrites(g, old(disk), lh, pinned))
    {
      WriteLog();
      WriteHead();
      ApplyConcat(image, old(trace), HeadWrites(g, old(disk), lh, pinned));
    }

    /**
     Issues exactly the writes CrashAtomicity speaks of, and leaves the log empty and unpinned; begin_op
     admits nobody meanwhile.
     */
    method Commit()
      requires Valid() && committing
      modifies this`disk, this`trace, this`pinned, this`n, this`lh
      ensures trace == old(trace) + CommitWrites(g, old(disk), old(lh), old(pinned))
      ensures Valid() && n == 0 && pinned == map[]
      ensures |disk| == |old(disk)|
      ensures forall b :: 0 <= b < |disk| && Home(g, b) ==> disk[b] == Committed(old(disk), old(lh), old(pinned), b)
    {
      if n > 0 {
        CommitResult(g, disk, lh, pinned);
        WriteTransaction();
      }
    }

    method WriteTransaction()
      requires Valid() && n > 0
      modifies this`disk, this`trace, this`pinned, this`n, this`lh
      ensures trace == old(trace) + CommitWrites(g, old(disk), old(lh), old(pinned))
      ensures LogOk(g, Apply(old(disk), HeadWrites(g, old(disk), old(lh), old(pinned))))
      ensures Traced() && disk == Recover(g, Apply(old(disk), HeadWrites(g, old(disk), old(lh), old(pinned))))
      ensures Sized() && n == 0 && pinned == map[]
    {
      CommitTrace(g, disk, lh, pinned, trace);
      UnpinAll(pinned, lh);
      LogAndHead();
      InstallAndClear(false);
    }

    /** Runs at boot: in-memory state is lost, the disk is whatever the crash left. */
    method RecoverFromLog()
      requires Sized() && Traced() && LogOk(g, disk)
      modifies this`disk, this`trace, this`pinned, this`n, this`lh, block
      ensures Traced() && trace == old(trace) + RecoverWrites(g, old(disk))
      ensures Sized() && n == 0 && pinned == old(pinned) && |disk| == |old(disk)|
      ensures LogOk(g, disk) && Head(disk[g.start]) == [] && disk == Recover(g, old(disk))
      ensures forall b :: 0 <= b < |disk| && Home(g, b) ==> disk[b] == Redo(g, old(disk), b)
    {
      ReadHead();
      InstallAndClear(true);
      RecoverIsRedo(g, old(disk));
    }

    method ReadHead()
      requires Sized() && LogOk(g, disk)
      modifies this`n, this`lh, block
      ensures Sized() && lh == Head(disk[g.start])
    {
      var hb := disk[g.start];
      n := GetWord(hb, 0);
      var i := 0;
      while i < n
        invariant 0 <= i <= n == GetWord(hb, 0)
        invariant forall j :: 0 <= j < i ==> block[j] == GetWord(hb, j + 1)
      {
        block[i] := GetWord(hb, i + 1);
        i := i + 1;
      }
      lh := block[..n];
    }

    /** One pass of begin_op's loop: admitted, or it has to sleep on the log. */
    method TryBeginOp() returns (admitted: bool)
      modifies this`outstanding
      ensures admitted <==> !committing && n + (old(outstanding) + 1) * MAXOPBLOCKS <= LOGSIZE
      ensures outstanding == old(outstanding) + if admitted then 1 else 0
    {
      if committing {
        return false;
      } else if n + (outstanding + 1) * MAXOPBLOCKS > LOGSIZE {
        return false;
      }
      outstanding := outstanding + 1;
      return true;
    }

    /**
     Buffers change after log_write: of a block that is in the log, the commit will copy what the
     buffer then holds.
     */
    method Rewrite(dirty: map<nat, Block>)
      requires Valid()
      modifies this`pinned
      ensures Valid() && pinned == Rewritten(old(pinned), dirty)
    {
      pinned := Rewritten(pinned, dirty);
    }

    /** Commits when the last operation ends; otherwise only gives back its reservation. */
    method EndOp() returns (ok: bool)
      requires Valid() && outstanding > 0
      modifies this`outstanding, this`committing, this`disk, this`trace, this`pinned, this`n, this`lh
      ensures ok <==> !old(committing)
      ensures outstanding == old(outstanding) - 1 && committing == old(committing)
      ensures Valid()
      ensures ok && outstanding == 0 ==>
        n == 0 && trace == old(trace) + CommitWrites(g, old(disk), old(lh), old(pinned))
      ensures !(ok && outstanding == 0) ==>
        disk == old(disk) && trace == old(trace) && pinned == old(pinned) && n == old(n)
      ensures |disk| == |old(disk)|
      ensures forall b :: 0 <= b < |disk| && Home(g, b) ==> Bread(b) == old(Bread(b))
    {
      outstanding := outstanding - 1;
      if committing {
        return false;
      }
      if outstanding == 0 {
        committing := true;
        Commit();
        committing := false;
      }
      return true;
    }

    /** Records b once, however often it is logged, and pins it with its latest contents. */
    method LogWrite(b: nat, data: Block) returns (r: LogWriteResult)
      requires Valid() && b < |disk| && Home(g, b)
      modifies this`n, this`lh, this`pinned, block
      ensures Valid()
      ensures r.PanicTooBig? <==> old(n) >= LOGSIZE || old(n) >= g.size - 1
      ensures r.PanicOutsideTrans? ==> outstanding < 1
      ensures r.Logged? <==> outstanding >= 1 && old(n) < LOGSIZE && old(n) < g.size - 1
      ensures r.Logged? ==> lh == if b in old(lh) then old(lh) else old(lh) + [b]
      ensures r.Logged? ==> pinned == old(pinned)[b := data]
      ensures !r.Logged? ==> lh == old(lh) && pinned == old(pinned)
    {
      if n >= LOGSIZE || n >= g.size - 1 {
        return PanicTooBig;
      }
      if outstanding < 1 {
        return PanicOutsideTrans;
      }
      var i := 0;
      while i < n
        invariant 0 <= i <= n
        invariant b !in lh[..i]
      {
        if block[i] == b {
          break;
        }
        assert lh[..i + 1] == lh[..i] + [lh[i]];
        i := i + 1;
      }
      block[i] := b;
      if i == n {
        n, lh := n + 1, lh + [b];
      }
      pinned := pinned[b := data];
      return Logged;
    }
  }

  lemma CommitResult(g: Geometry, d: Disk, lh: seq<nat>, cache: map<nat, Block>)
    requires Ready(g, d, lh, cache) && lh != []
    ensures InRange(d, HeadWrites(g, d, lh, cache))
    ensures var h := Apply(d, HeadWrites(g, d, lh, cache));
            && LogOk(g, h) && Head(h[g.start]) == lh
            && CommitWrites(g, d, lh, cache) == HeadWrites(g, d, lh, cache) + RecoverWrites(g, h)
            && var r := Recover(g, h);
            && LogOk(g, r) && Head(r[g.start]) == []
            && forall b :: 0 <= b < |d| && Home(g, b) ==> r[b] == Committed(d, lh, cache, b)
  {
    CommitIsLogThenRecover(g, d, lh, cache);
    HeaderCommits(g, d, lh, cache);
    var pre := HeadWrites(g, d, lh, cache);
    var h := Apply(d, pre);
    RecoverIsRedo(g, h);
  }

  /** The device writes of a commit, after the writes t. */
  lemma CommitTrace(g: Geometry, d: Disk, lh: seq<nat>, cache: map<nat, Block>, t: seq<Write>)
    requires Ready(g, d, lh, cache) && lh != []
    ensures var h := Apply(d, HeadWrites(g, d, lh, cache));
            && LogOk(g, h) && Head(h[g.start]) == lh
            && t + HeadWrites(g, d, lh, cache) + RecoverWrites(g, h) == t + CommitWrites(g, d, lh, cache)
  {
    CommitResult(g, d, lh, cache);
    var pre := HeadWrites(g, d, lh, cache);
    Reassociate(t, pre, RecoverWrites(g, Apply(d, pre)));
  }

  predicate SameLog(g: Geometry, d: Disk, d': Disk)
    requires Layout(g, d) && |d'| == |d|
  {
    forall i {:trigger d'[i]} :: g.start <= i < g.start + g.size ==> d'[i] == d[i]
  }

  lemma ApplyConcat(d: Disk, a: seq<Write>, b: seq<Write>)
    requires InRange(d, a) && InRange(d, b)
    ensures InRange(d, a + b) && Apply(d, a + b) == Apply(Apply(d, a), b)
  {
    PrefixOfConcat(d, a, b, |a + b|);
  }

  lemma Reassociate<T>(a: seq<T>, b: seq<T>, c: seq<T>)
    ensures a + b + c == a + (b + c)
  {
  }
}
