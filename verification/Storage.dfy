/**
 Buffer cache, log and disk together, as a transition system over the steps that
 the locks make atomic: any number of processes read, modify and log blocks inside
 and outside operations, the last operation to end commits, buffers are recycled,
 and the machine may crash at any point. One logical disk is what all of it
 implements.
 */
module Storage {
  import opened Bytes
  import opened Params
  import opened RedoLog

  type Pid = nat

  /**
   A cache buffer. `users` are the processes between bget and the end of brelse,
   `owner` holds the sleep-lock, `pinned` is bpin's extra reference, `unlogged`
   says the contents were changed and not yet passed to log_write.
   */
  datatype Buf = Buf(
    id: Option<nat>, valid: bool, data: Block, refcnt: nat,
    users: set<Pid>, owner: Option<Pid>, pinned: bool, unlogged: bool)

  /** Progress of commit: copying block i to the log, or installing block i. */
  datatype Phase = Idle | Copy(i: nat) | Install(i: nat)

  /**
   `logical` is the last logged contents of every home block, `committed` is what
   `logical` was at the last commit point; both are history, read by no step.
   */
  datatype State = State(
    disk: Disk, bufs: seq<Buf>, lh: seq<nat>, outstanding: set<Pid>,
    committer: Option<Pid>, phase: Phase, logical: Disk, committed: Disk)

  datatype Action =
    | Hit(p: Pid, j: nat)
    | Recycle(p: Pid, j: nat, b: nat)
    | Lock(p: Pid, j: nat)
    | Fill(p: Pid, j: nat)
    | Modify(p: Pid, j: nat, data: Block)
    | LogWrite(p: Pid, j: nat)
    | Unlock(p: Pid, j: nat)
    | Drop(p: Pid, j: nat)
    | BeginOp(p: Pid)
    | EndOp(p: Pid)
    | CopyBlock(p: Pid, j: nat, from: nat)
    | WriteHeader(p: Pid, j: nat)
    | InstallBlock(p: Pid, j: nat, from: nat)
    | ClearHeader(p: Pid, j: nat)
    | CommitNothing(p: Pid)
    | Crash(cuts: seq<nat>)

  /** p holds the sleep-lock of a valid buffer j for block b. */
  predicate Holds(s: State, p: Pid, j: nat, b: nat) {
    j < |s.bufs| && s.bufs[j].owner == Some(p) && s.bufs[j].valid && s.bufs[j].id == Some(b)
  }

  /** The guards of the code, and the modify / log_write / brelse discipline of its callers. */
  predicate Enabled(g: Geometry, s: State, a: Action) {
    match a
    case Hit(p, j) => j < |s.bufs| && s.bufs[j].id.Some? && p !in s.bufs[j].users
    case Recycle(p, j, b) =>
      j < |s.bufs| && s.bufs[j].refcnt == 0 && b < |s.disk| && forall k :: 0 <= k < |s.bufs| ==> s.bufs[k].id != Some(b)
    case Lock(p, j) => j < |s.bufs| && p in s.bufs[j].users && s.bufs[j].owner == None
    case Fill(p, j) => j < |s.bufs| && s.bufs[j].owner == Some(p) && !s.bufs[j].valid
    case Modify(p, j, _) => HoldsHome(g, s, p, j) && p in s.outstanding
    case LogWrite(p, j) =>
      HoldsHome(g, s, p, j) && p in s.outstanding && |s.lh| < LOGSIZE && |s.lh| < g.size - 1
    case Unlock(p, j) => j < |s.bufs| && s.bufs[j].owner == Some(p) && !s.bufs[j].unlogged
    case Drop(p, j) => j < |s.bufs| && p in s.bufs[j].users && s.bufs[j].owner != Some(p)
    case BeginOp(p) =>
      p !in s.outstanding && s.committer == None && |s.lh| + (|s.outstanding| + 1) * MAXOPBLOCKS <= LOGSIZE
    case EndOp(p) =>
      p in s.outstanding && forall j :: 0 <= j < |s.bufs| && s.bufs[j].owner == Some(p) ==> !s.bufs[j].unlogged
    case CopyBlock(p, j, from) =>
      && s.committer == Some(p) && s.phase.Copy? && s.phase.i < |s.lh|
      && Holds(s, p, j, g.start + 1 + s.phase.i) && Holds(s, p, from, s.lh[s.phase.i])
    case WriteHeader(p, j) =>
      s.committer == Some(p) && s.phase == Copy(|s.lh|) && s.lh != [] && Holds(s, p, j, g.start)
    case InstallBlock(p, j, from) =>
      && s.committer == Some(p) && s.phase.Install? && s.phase.i < |s.lh|
      && Holds(s, p, from, g.start + 1 + s.phase.i) && Holds(s, p, j, s.lh[s.phase.i])
    case ClearHeader(p, j) => s.committer == Some(p) && s.phase == Install(|s.lh|) && Holds(s, p, j, g.start)
    case CommitNothing(p) => s.committer == Some(p) && s.phase == Copy(0) && s.lh == []
    case Crash(_) => true
  }

  /** p holds a valid buffer of a home block. */
  predicate HoldsHome(g: Geometry, s: State, p: Pid, j: nat) {
    j < |s.bufs| && s.bufs[j].id.Some? && Home(g, s.bufs[j].id.value) && Holds(s, p, j, s.bufs[j].id.value)
  }

  // ------------------------------------------------------------ invariant

  function Lo(s: State): nat {
    if s.phase.Install? then s.phase.i else 0
  }

  /** Logged and not yet installed. */
  predicate Pending(lh: seq<nat>, lo: nat, b: nat) {
    exists k :: lo <= k < |lh| && lh[k] == b
  }

  predicate BufOk(s: State, c: Buf) {
    && c.refcnt == |c.users| + (if c.pinned then 1 else 0)
    && (c.owner.Some? ==> c.owner.value in c.users)
    && (c.id == None ==> !c.valid && c.users == {})
    && (c.id.Some? ==> c.id.value < |s.disk|)
    && (c.pinned ==> c.valid)
    && (c.pinned <==> c.id.Some? && Pending(s.lh, Lo(s), c.id.value))
    && (c.unlogged ==> c.owner.Some? && c.owner.value in s.outstanding)
  }

  /** At most one buffer per block, and a pinned one for every pending block. */
  predicate CacheInv(s: State) {
    && (forall j :: 0 <= j < |s.bufs| ==> BufOk(s, s.bufs[j]))
    && (forall j, k :: 0 <= j < k < |s.bufs| && s.bufs[j].id.Some? ==> s.bufs[j].id != s.bufs[k].id)
    && (forall k :: Lo(s) <= k < |s.lh| ==> Present(s.bufs, s.lh[k]))
  }

  predicate Present(bufs: seq<Buf>, b: nat) {
    exists j :: 0 <= j < |bufs| && bufs[j].id == Some(b)
  }

  /** A valid buffer that nobody is changing holds the logical contents of its block. */
  predicate Coherent(g: Geometry, s: State, c: Buf)
    requires c.id.Some? ==> c.id.value < |s.disk| == |s.logical|
  {
    && (c.unlogged ==> c.id.Some? && c.valid && Home(g, c.id.value))
    && (c.valid && !c.unlogged ==>
         c.id.Some? && c.data == if Home(g, c.id.value) then s.logical[c.id.value] else s.disk[c.id.value])
  }

  predicate CoherenceInv(g: Geometry, s: State)
    requires |s.logical| == |s.disk| && CacheInv(s)
  {
    && (forall j :: 0 <= j < |s.bufs| ==> Coherent(g, s, s.bufs[j]))
    && (forall b :: 0 <= b < |s.disk| && Home(g, b) && !Pending(s.lh, Lo(s), b) ==> s.disk[b] == s.logical[b])
  }

  /** The first n log copies hold the logical contents of the first n logged blocks. */
  predicate LogHolds(g: Geometry, s: State, n: nat) {
    && n <= |s.lh| && g.start + 1 + n <= |s.disk|
    && (forall k :: 0 <= k < n ==> s.lh[k] < |s.logical| && s.disk[g.start + 1 + k] == s.logical[s.lh[k]])
  }

  /** Before the header write the home blocks on disk are the committed ones. */
  predicate Uncommitted(g: Geometry, s: State)
    requires Layout(g, s.disk) && HeadOk(s.disk[g.start])
  {
    && Head(s.disk[g.start]) == [] && |s.committed| == |s.disk|
    && (forall b :: 0 <= b < |s.disk| && Home(g, b) ==> s.disk[b] == s.committed[b])
  }

  /** What the log region holds in each phase, and hence what a recovery would produce. */
  predicate JournalInv(g: Geometry, s: State) {
    && Layout(g, s.disk) && |s.logical| == |s.committed| == |s.disk|
    && Targets(g, s.disk, s.lh) && HeadOk(s.disk[g.start])
    && (s.committer.Some? <==> s.phase != Idle)
    && (s.committer.Some? ==> s.outstanding == {})
    && match s.phase {
         case Idle => Uncommitted(g, s)
         case Copy(i) => Uncommitted(g, s) && LogHolds(g, s, i)
         case Install(i) =>
           i <= |s.lh| && Head(s.disk[g.start]) == s.lh && s.committed == s.logical && LogHolds(g, s, |s.lh|)
       }
  }

  predicate Inv(g: Geometry, s: State) {
    JournalInv(g, s) && CacheInv(s) && CoherenceInv(g, s)
  }

  lemma InvLogOk(g: Geometry, s: State)
    requires JournalInv(g, s)
    ensures LogOk(g, s.disk)
  {
  }

  /** log_write's absorption: a block is listed once. */
  function Absorb(lh: seq<nat>, b: nat): seq<nat> {
    if b in lh then lh else lh + [b]
  }

  function EmptyCache(n: nat): seq<Buf> {
    seq(n, _ => Buf(None, false, ZeroBlock(), 0, {}, None, false, false))
  }

  function Step(g: Geometry, s: State, a: Action): State
    requires Inv(g, s) && Enabled(g, s, a)
  {
    match a
    case Hit(p, j) => SetBuf(s, j, var c := s.bufs[j]; c.(refcnt := c.refcnt + 1, users := c.users + {p}))
    case Recycle(p, j, b) =>
      SetBuf(s, j, Buf(Some(b), false, s.bufs[j].data, 1, {p}, None, false, false))
    case Lock(p, j) => SetBuf(s, j, s.bufs[j].(owner := Some(p)))
    case Fill(p, j) => SetBuf(s, j, s.bufs[j].(data := s.disk[s.bufs[j].id.value], valid := true))
    case Modify(p, j, data) => SetBuf(s, j, s.bufs[j].(data := data, unlogged := true))
    case LogWrite(p, j) =>
      var c := s.bufs[j];
      var b := c.id.value;
      var c' := if b in s.lh then c else c.(pinned := true, refcnt := c.refcnt + 1);
      SetBuf(s, j, c'.(unlogged := false)).(lh := Absorb(s.lh, b), logical := s.logical[b := c.data])
    case Unlock(p, j) => SetBuf(s, j, s.bufs[j].(owner := None))
    case Drop(p, j) => SetBuf(s, j, var c := s.bufs[j]; c.(refcnt := c.refcnt - 1, users := c.users - {p}))
    case BeginOp(p) => s.(outstanding := s.outstanding + {p})
    case EndOp(p) =>
      var rest := s.outstanding - {p};
      if rest == {} then s.(outstanding := rest, committer := Some(p), phase := Copy(0))
      else s.(outstanding := rest)
    case CopyBlock(p, j, from) => AfterCopy(g, s, j, from)
    case WriteHeader(p, j) => AfterHeader(g, s, j)
    case InstallBlock(p, j, from) => AfterInstall(s, j, from)
    case ClearHeader(p, j) => AfterClear(g, s, j)
    case CommitNothing(p) => s.(phase := Idle, committer := None)
    case Crash(cuts) =>
      InvLogOk(g, s);
      State(Recover(g, RecoverCuts(g, s.disk, cuts)), EmptyCache(|s.bufs|), [], {}, None, Idle, s.committed,
            s.committed)
  }

  /** write_log: one block to its log slot. */
  function AfterCopy(g: Geometry, s: State, j: nat, from: nat): State
    requires j < |s.bufs| && from < |s.bufs| && s.phase.Copy? && g.start + 1 + s.phase.i < |s.disk|
  {
    var data := s.bufs[from].data;
    SetBuf(s, j, s.bufs[j].(data := data))
      .(disk := s.disk[g.start + 1 + s.phase.i := data], phase := Copy(s.phase.i + 1))
  }

  /** write_head of a transaction: the commit point. */
  function AfterHeader(g: Geometry, s: State, j: nat): State
    requires j < |s.bufs| && g.start < |s.disk| && |s.lh| <= LOGSIZE
    requires forall i :: 0 <= i < |s.lh| ==> s.lh[i] < 0x1_0000_0000
  {
    var data := EncodeHead(s.bufs[j].data, s.lh);
    SetBuf(s, j, s.bufs[j].(data := data))
      .(disk := s.disk[g.start := data], phase := Install(0), committed := s.logical)
  }

  /** install_trans: one block home, and unpinned. */
  function AfterInstall(s: State, j: nat, from: nat): State
    requires j < |s.bufs| && from < |s.bufs| && s.phase.Install? && s.phase.i < |s.lh|
    requires s.lh[s.phase.i] < |s.disk| && s.bufs[j].refcnt >= 1
  {
    var data := s.bufs[from].data;
    SetBuf(s, j, var c := s.bufs[j]; c.(data := data, pinned := false, refcnt := c.refcnt - 1))
      .(disk := s.disk[s.lh[s.phase.i] := data], phase := Install(s.phase.i + 1))
  }

  /** write_head of the empty list. */
  function AfterClear(g: Geometry, s: State, j: nat): State
    requires j < |s.bufs| && g.start < |s.disk|
  {
    var data := EncodeHead(s.bufs[j].data, []);
    SetBuf(s, j, s.bufs[j].(data := data))
      .(disk := s.disk[g.start := data], phase := Idle, committer := None, lh := [])
  }

  function SetBuf(s: State, j: nat, c: Buf): State
    requires j < |s.bufs|
  {
    s.(bufs := s.bufs[j := c])
  }

  // ------------------------------------------------------------ steps on one buffer

  lemma BufferCache(s: State, j: nat, c: Buf, t: State)
    requires CacheInv(s) && j < |s.bufs| && t == SetBuf(s, j, c) && BufOk(s, c)
    requires c.id == s.bufs[j].id
          || (!s.bufs[j].pinned && c.id.Some? && forall k :: 0 <= k < |s.bufs| ==> s.bufs[k].id != c.id)
    ensures CacheInv(t)
  {
    forall k | Lo(t) <= k < |t.lh| ensures Present(t.bufs, t.lh[k]) {
      assert Present(s.bufs, s.lh[k]);
      var i :| 0 <= i < |s.bufs| && s.bufs[i].id == Some(s.lh[k]);
      assert BufOk(s, s.bufs[i]) && s.bufs[i].pinned;
      assert t.bufs[i].id == Some(t.lh[k]);
    }
  }

  /** Replacing one buffer by another that is itself fine, keeping or freshly taking its block. */
  lemma BufferStep(g: Geometry, s: State, j: nat, c: Buf)
    requires Inv(g, s) && j < |s.bufs|
    requires BufOk(s, c) && Coherent(g, s, c)
    requires c.id == s.bufs[j].id
          || (!s.bufs[j].pinned && c.id.Some? && forall k :: 0 <= k < |s.bufs| ==> s.bufs[k].id != c.id)
    ensures Inv(g, SetBuf(s, j, c))
  {
    BufferCache(s, j, c, SetBuf(s, j, c));
  }

  lemma BufferActions(g: Geometry, s: State, a: Action)
    requires Inv(g, s) && Enabled(g, s, a)
    requires a.Hit? || a.Recycle? || a.Lock? || a.Fill? || a.Modify? || a.Unlock? || a.Drop?
    ensures Inv(g, Step(g, s, a))
  {
    var c := s.bufs[a.j];
    assert BufOk(s, c) && Coherent(g, s, c);
    var c' := Step(g, s, a).bufs[a.j];
    assert BufOk(s, c');
    assert Coherent(g, s, c');
    BufferStep(g, s, a.j, c');
  }

  // ------------------------------------------------------------ logging

  lemma AbsorbTargets(g: Geometry, d: Disk, lh: seq<nat>, b: nat)
    requires Targets(g, d, lh) && |lh| < LOGSIZE && |lh| < g.size - 1 && b < |d| && Home(g, b)
    ensures Targets(g, d, Absorb(lh, b))
    ensures forall x :: Pending(Absorb(lh, b), 0, x) <==> Pending(lh, 0, x) || x == b
  {
    var lh' := Absorb(lh, b);
    forall x ensures Pending(lh', 0, x) <==> Pending(lh, 0, x) || x == b {
      if b !in lh {
        assert lh'[|lh|] == b;
        if k :| 0 <= k < |lh| && lh[k] == x {
          assert lh'[k] == x;
        }
      }
    }
  }

  lemma LogWriteKeeps(g: Geometry, s: State, p: Pid, j: nat)
    requires Inv(g, s) && Enabled(g, s, LogWrite(p, j))
    ensures Inv(g, Step(g, s, LogWrite(p, j)))
  {
    var t := Step(g, s, LogWrite(p, j));
    var b := s.bufs[j].id.value;
    assert BufOk(s, s.bufs[j]) && s.phase == Idle;
    AbsorbTargets(g, s.disk, s.lh, b);
    assert b in s.lh <==> s.bufs[j].pinned;
    forall k | 0 <= k < |t.bufs| ensures BufOk(t, t.bufs[k]) && Coherent(g, t, t.bufs[k]) {
      assert BufOk(s, s.bufs[k]) && Coherent(g, s, s.bufs[k]);
    }
    forall k | 0 <= k < |t.lh| ensures Present(t.bufs, t.lh[k]) {
      if t.lh[k] == b {
        assert t.bufs[j].id == Some(b);
      } else {
        assert Present(s.bufs, s.lh[k]);
        var i :| 0 <= i < |s.bufs| && s.bufs[i].id == Some(s.lh[k]);
        assert t.bufs[i].id == Some(t.lh[k]);
      }
    }
    assert CacheInv(t);
  }

  lemma OpActions(g: Geometry, s: State, a: Action)
    requires Inv(g, s) && Enabled(g, s, a)
    requires a.BeginOp? || a.EndOp? || a.CommitNothing?
    ensures Inv(g, Step(g, s, a))
  {
    var t := Step(g, s, a);
    assert t.bufs == s.bufs && Lo(t) == Lo(s);
    forall k | 0 <= k < |t.bufs| ensures BufOk(t, t.bufs[k]) && Coherent(g, t, t.bufs[k]) {
      assert BufOk(s, s.bufs[k]) && Coherent(g, s, s.bufs[k]);
    }
    assert CacheInv(t);
  }

  // ------------------------------------------------------------ commit

  lemma CopyJournal(g: Geometry, s: State, p: Pid, j: nat, from: nat, t: State)
    requires Inv(g, s) && Enabled(g, s, CopyBlock(p, j, from)) && t == AfterCopy(g, s, j, from)
    ensures JournalInv(g, t)
  {
    var b := s.lh[s.phase.i];
    assert s.bufs[from].data == s.logical[b] by {
      assert BufOk(s, s.bufs[from]) && Coherent(g, s, s.bufs[from]) && Home(g, b);
    }
  }

  lemma CopyKeeps(g: Geometry, s: State, p: Pid, j: nat, from: nat)
    requires Inv(g, s) && Enabled(g, s, CopyBlock(p, j, from))
    ensures Inv(g, AfterCopy(g, s, j, from))
  {
    var t := AfterCopy(g, s, j, from);
    CopyJournal(g, s, p, j, from, t);
    forall k | 0 <= k < |t.bufs| ensures BufOk(t, t.bufs[k]) && Coherent(g, t, t.bufs[k]) {
      assert BufOk(s, s.bufs[k]) && Coherent(g, s, s.bufs[k]);
    }
    SameIds(s, t);
  }

  lemma HeaderJournal(g: Geometry, s: State, p: Pid, j: nat, t: State)
    requires Inv(g, s) && Enabled(g, s, WriteHeader(p, j)) && t == AfterHeader(g, s, j)
    ensures JournalInv(g, t)
  {
  }

  lemma HeaderBuffer(g: Geometry, s: State, p: Pid, j: nat, t: State, k: nat)
    requires Inv(g, s) && Enabled(g, s, WriteHeader(p, j)) && t == AfterHeader(g, s, j) && k < |t.bufs|
    ensures BufOk(t, t.bufs[k]) && Coherent(g, t, t.bufs[k])
  {
    assert BufOk(s, s.bufs[k]) && Coherent(g, s, s.bufs[k]);
  }

  lemma HeaderKeeps(g: Geometry, s: State, p: Pid, j: nat)
    requires Inv(g, s) && Enabled(g, s, WriteHeader(p, j))
    ensures Inv(g, AfterHeader(g, s, j))
  {
    var t := AfterHeader(g, s, j);
    HeaderJournal(g, s, p, j, t);
    forall k | 0 <= k < |t.bufs| ensures BufOk(t, t.bufs[k]) && Coherent(g, t, t.bufs[k]) {
      HeaderBuffer(g, s, p, j, t, k);
    }
    SameIds(s, t);
  }

  lemma InstallJournal(g: Geometry, s: State, p: Pid, j: nat, from: nat, t: State)
    requires Inv(g, s) && Enabled(g, s, InstallBlock(p, j, from)) && s.bufs[j].refcnt >= 1
    requires t == AfterInstall(s, j, from)
    ensures JournalInv(g, t) && s.bufs[from].data == s.logical[s.lh[s.phase.i]]
  {
    var b := s.lh[s.phase.i];
    assert s.bufs[from].data == s.logical[b] by {
      assert BufOk(s, s.bufs[from]) && Coherent(g, s, s.bufs[from]);
    }
    HomeWriteJournal(g, s, b, t);
  }

  /** A write to a home block leaves the log as it is. */
  lemma HomeWriteJournal(g: Geometry, s: State, b: nat, t: State)
    requires JournalInv(g, s) && s.phase.Install? && b < |s.disk| && Home(g, b) && s.phase.i < |s.lh|
    requires |t.disk| == |s.disk| && t.disk == s.disk[b := t.disk[b]] && t.phase == Install(s.phase.i + 1)
    requires t.lh == s.lh && t.outstanding == s.outstanding && t.committer == s.committer
    requires t.logical == s.logical && t.committed == s.committed
    ensures JournalInv(g, t)
  {
    forall k | 0 <= k < |s.lh| ensures t.disk[g.start + 1 + k] == s.logical[s.lh[k]] {
      assert s.disk[g.start + 1 + k] == s.logical[s.lh[k]];
    }
  }

  /** Each buffer after one install. */
  lemma InstallBuffer(g: Geometry, s: State, p: Pid, j: nat, from: nat, t: State, k: nat)
    requires Inv(g, s) && Enabled(g, s, InstallBlock(p, j, from)) && s.bufs[j].refcnt >= 1
    requires t == AfterInstall(s, j, from)
    requires s.bufs[from].data == s.logical[s.lh[s.phase.i]] && k < |t.bufs|
    ensures BufOk(t, t.bufs[k]) && Coherent(g, t, t.bufs[k])
  {
    assert BufOk(s, s.bufs[k]) && Coherent(g, s, s.bufs[k]);
    InstalledNext(s.lh, s.phase.i);
  }

  lemma InstallKeeps(g: Geometry, s: State, p: Pid, j: nat, from: nat)
    requires Inv(g, s) && Enabled(g, s, InstallBlock(p, j, from))
    ensures s.bufs[j].refcnt >= 1 && Inv(g, AfterInstall(s, j, from))
  {
    assert BufOk(s, s.bufs[j]) && Pending(s.lh, Lo(s), s.lh[s.phase.i]);
    var t := AfterInstall(s, j, from);
    InstallJournal(g, s, p, j, from, t);
    forall k | 0 <= k < |t.bufs| ensures BufOk(t, t.bufs[k]) && Coherent(g, t, t.bufs[k]) {
      InstallBuffer(g, s, p, j, from, t, k);
    }
    InstalledNext(s.lh, s.phase.i);
    SameIds(s, t);
  }

  lemma InstalledNext(lh: seq<nat>, i: nat)
    requires i < |lh|
    requires forall i, j :: 0 <= i < j < |lh| ==> lh[i] != lh[j]
    ensures forall x :: Pending(lh, i, x) <==> Pending(lh, i + 1, x) || x == lh[i]
    ensures !Pending(lh, i + 1, lh[i])
  {
  }

  lemma ClearKeeps(g: Geometry, s: State, p: Pid, j: nat)
    requires Inv(g, s) && Enabled(g, s, ClearHeader(p, j))
    ensures Inv(g, AfterClear(g, s, j))
  {
    var t := AfterClear(g, s, j);
    forall k | 0 <= k < |t.bufs| ensures BufOk(t, t.bufs[k]) && Coherent(g, t, t.bufs[k]) {
      assert BufOk(s, s.bufs[k]) && Coherent(g, s, s.bufs[k]);
    }
    SameIds(s, t);
  }

  /** A step that keeps every buffer's block, and makes nothing newly pending. */
  lemma SameIds(s: State, t: State)
    requires CacheInv(s) && |t.bufs| == |s.bufs|
    requires forall k :: 0 <= k < |t.bufs| ==> t.bufs[k].id == s.bufs[k].id && BufOk(t, t.bufs[k])
    requires forall k :: Lo(t) <= k < |t.lh| ==> Lo(s) <= k < |s.lh| && t.lh[k] == s.lh[k]
    ensures CacheInv(t)
  {
    forall k | Lo(t) <= k < |t.lh| ensures Present(t.bufs, t.lh[k]) {
      var b := t.lh[k];
      assert Present(s.bufs, b);
      var i :| 0 <= i < |s.bufs| && s.bufs[i].id == Some(b);
      assert t.bufs[i].id == Some(b);
    }
  }

  // ------------------------------------------------------------ crash

  /** In every phase, redoing the on-disk log gives the committed home blocks. */
  lemma RedoIsCommitted(g: Geometry, s: State)
    requires Inv(g, s)
    ensures LogOk(g, s.disk)
    ensures forall b :: 0 <= b < |s.disk| && Home(g, b) ==> Redo(g, s.disk, b) == s.committed[b]
  {
    forall b | 0 <= b < |s.disk| && Home(g, b) ensures Redo(g, s.disk, b) == s.committed[b] {
      if s.phase.Install? && !Pending(s.lh, 0, b) {
        assert !Pending(s.lh, Lo(s), b);
      }
    }
  }

  lemma CrashKeeps(g: Geometry, s: State, cuts: seq<nat>)
    requires Inv(g, s)
    ensures Inv(g, Step(g, s, Crash(cuts)))
  {
    RedoIsCommitted(g, s);
    RecoverIsRedo(g, RecoverCuts(g, s.disk, cuts));
    var t := Step(g, s, Crash(cuts));
    assert JournalInv(g, t);
    assert CacheInv(t);
  }

  // ------------------------------------------------------------ theorems

  lemma StepKeepsInv(g: Geometry, s: State, a: Action)
    requires Inv(g, s) && Enabled(g, s, a)
    ensures Inv(g, Step(g, s, a))
  {
    match a
    case LogWrite(p, j) => LogWriteKeeps(g, s, p, j);
    case BeginOp(_) => OpActions(g, s, a);
    case EndOp(_) => OpActions(g, s, a);
    case CommitNothing(_) => OpActions(g, s, a);
    case CopyBlock(p, j, from) => CopyKeeps(g, s, p, j, from);
    case WriteHeader(p, j) => HeaderKeeps(g, s, p, j);
    case InstallBlock(p, j, from) => InstallKeeps(g, s, p, j, from);
    case ClearHeader(p, j) => ClearKeeps(g, s, p, j);
    case Crash(cuts) => CrashKeeps(g, s, cuts);
    case _ => BufferActions(g, s, a);
  }

  /** A freshly booted machine on a disk with an empty log. */
  predicate Init(g: Geometry, s: State) {
    && LogOk(g, s.disk) && Head(s.disk[g.start]) == []
    && s == State(s.disk, EmptyCache(|s.bufs|), [], {}, None, Idle, s.disk, s.disk)
  }

  lemma InitInv(g: Geometry, s: State)
    requires Init(g, s)
    ensures Inv(g, s)
  {
  }

  /** A run: every step is enabled in the state the previous ones led to. */
  ghost predicate Reaches(g: Geometry, s: State, actions: seq<Action>, t: State)
    decreases |actions|
  {
    if actions == [] then s == t
    else Inv(g, s) && Enabled(g, s, actions[0]) && Reaches(g, Step(g, s, actions[0]), actions[1..], t)
  }

  lemma {:induction false} RunKeepsInv(g: Geometry, s: State, actions: seq<Action>, t: State)
    requires Inv(g, s) && Reaches(g, s, actions, t)
    ensures Inv(g, t)
    decreases |actions|
  {
    if actions != [] {
      StepKeepsInv(g, s, actions[0]);
      RunKeepsInv(g, Step(g, s, actions[0]), actions[1..], t);
    }
  }

  /** Nobody has changed block b without logging it. */
  predicate Quiet(s: State, b: nat) {
    forall j :: 0 <= j < |s.bufs| && s.bufs[j].id == Some(b) ==> !s.bufs[j].unlogged
  }

  /** What bread returns for block b: a cached copy if there is one, else the disk. */
  function Visible(s: State, b: nat): Block
    requires CacheInv(s) && b < |s.disk|
  {
    if j :| 0 <= j < |s.bufs| && s.bufs[j].id == Some(b) && s.bufs[j].valid then s.bufs[j].data else s.disk[b]
  }

  /** What block b holds after a crash now and a recovery. */
  function Durable(g: Geometry, s: State, b: nat): Block
    requires LogOk(g, s.disk) && b < |s.disk|
  {
    Redo(g, s.disk, b)
  }

  lemma PendingIsCached(s: State, b: nat) returns (j: nat)
    requires CacheInv(s) && Pending(s.lh, Lo(s), b)
    ensures j < |s.bufs| && s.bufs[j].id == Some(b) && s.bufs[j].valid
  {
    var k :| Lo(s) <= k < |s.lh| && s.lh[k] == b;
    assert Present(s.bufs, s.lh[k]);
    j :| 0 <= j < |s.bufs| && s.bufs[j].id == Some(b);
    assert BufOk(s, s.bufs[j]);
  }

  lemma VisibleIsLogical(g: Geometry, s: State, b: nat)
    requires Inv(g, s) && b < |s.disk| && Home(g, b) && Quiet(s, b)
    ensures Visible(s, b) == s.logical[b]
  {
    if Pending(s.lh, Lo(s), b) {
      var _ := PendingIsCached(s, b);
    }
    forall j | 0 <= j < |s.bufs| ensures Coherent(g, s, s.bufs[j]) {
    }
  }

  /** While a commit is under way, no block is half changed. */
  lemma CommitIsQuiet(g: Geometry, s: State, b: nat)
    requires Inv(g, s) && s.committer.Some?
    ensures Quiet(s, b)
  {
    forall j | 0 <= j < |s.bufs| && s.bufs[j].id == Some(b) ensures !s.bufs[j].unlogged {
      assert BufOk(s, s.bufs[j]);
    }
  }

  /** A buffer changed and not logged stays that way until log_write. */
  lemma StaysUnlogged(g: Geometry, s: State, a: Action, t: State, j: nat)
    requires Inv(g, s) && Enabled(g, s, a) && !a.Crash? && t == Step(g, s, a)
    requires j < |s.bufs| && s.bufs[j].unlogged && !(a.LogWrite? && a.j == j)
    ensures j < |t.bufs| && t.bufs[j].unlogged && t.bufs[j].id == s.bufs[j].id
  {
    assert BufOk(s, s.bufs[j]);
  }

  lemma QuietBefore(g: Geometry, s: State, a: Action, b: nat)
    requires Inv(g, s) && Enabled(g, s, a) && !a.Crash?
    requires Quiet(Step(g, s, a), b)
    ensures Quiet(s, b) || (a.LogWrite? && s.bufs[a.j].id == Some(b))
  {
    var t := Step(g, s, a);
    if j :| 0 <= j < |s.bufs| && s.bufs[j].id == Some(b) && s.bufs[j].unlogged {
      if !(a.LogWrite? && a.j == j) {
        StaysUnlogged(g, s, a, t, j);
      }
    }
  }

  /** What a crash would leave changes only at the header write, to all that is visible. */
  lemma DurableStep(g: Geometry, s: State, a: Action, b: nat)
    requires Inv(g, s) && Enabled(g, s, a) && b < |s.disk| && Home(g, b)
    ensures var t := Step(g, s, a);
            && Inv(g, t) && LogOk(g, s.disk) && LogOk(g, t.disk) && |t.disk| == |s.disk|
            && Durable(g, t, b) == if a.WriteHeader? then Visible(s, b) else Durable(g, s, b)
  {
    StepKeepsInv(g, s, a);
    RedoIsCommitted(g, s);
    RedoIsCommitted(g, Step(g, s, a));
    if a.WriteHeader? {
      CommitIsQuiet(g, s, b);
      VisibleIsLogical(g, s, b);
    }
  }

  /** The steps that are left of a commit: a copy and an install for every block, the header and its clearing. */
  function StepsLeft(s: State): int {
    match s.phase
    case Idle => 0
    case Copy(i) => if s.lh == [] then 1 else |s.lh| - i + 1 + |s.lh| + 1
    case Install(i) => |s.lh| - i + 1
  }

  /** The end of the last operation starts a commit; each of its steps, and nothing else, takes it one step further. */
  lemma CommitProgress(g: Geometry, s: State, a: Action)
    requires Inv(g, s) && Enabled(g, s, a) && !a.Crash?
    ensures var t := Step(g, s, a);
            if a.CopyBlock? || a.WriteHeader? || a.InstallBlock? || a.ClearHeader? || a.CommitNothing? then
              s.committer == Some(a.p) && StepsLeft(t) == StepsLeft(s) - 1 >= 0
            else if a.EndOp? && s.outstanding == {a.p} then
              t.committer == Some(a.p) && StepsLeft(t) == if s.lh == [] then 1 else 2 * |s.lh| + 2
            else t.committer == s.committer && StepsLeft(t) == StepsLeft(s)
  {
  }

  /** When a commit ends, the log is empty and what a crash would leave is what bread returns. */
  lemma CommitEnds(g: Geometry, s: State, a: Action, b: nat)
    requires Inv(g, s) && Enabled(g, s, a) && !a.Crash? && b < |s.disk| && Home(g, b)
    requires s.committer.Some? && Step(g, s, a).committer.None?
    ensures var t := Step(g, s, a);
            && Inv(g, t) && LogOk(g, t.disk) && t.lh == [] && |t.disk| == |s.disk|
            && Durable(g, t, b) == Visible(t, b) == Visible(s, b)
  {
    var t := Step(g, s, a);
    StepKeepsInv(g, s, a);
    CommitIsQuiet(g, s, b);
    RedoIsCommitted(g, t);
    VisibleIsLogical(g, s, b);
    VisibleIsLogical(g, t, b);
  }

  /**
   What bread returns changes only by log_write, to the data logged and for that
   block alone, and by a crash, back to what was durable: recycling a buffer,
   reading, installing and committing never show.
   */
  lemma VisibleStep(g: Geometry, s: State, a: Action, b: nat)
    requires Inv(g, s) && Enabled(g, s, a) && b < |s.disk| && Home(g, b)
    requires Quiet(Step(g, s, a), b)
    ensures var t := Step(g, s, a);
            && Inv(g, t) && LogOk(g, s.disk) && |t.disk| == |s.disk|
            && if a.LogWrite? && s.bufs[a.j].id == Some(b) then Visible(t, b) == s.bufs[a.j].data
               else if a.Crash? then Visible(t, b) == t.disk[b] == Durable(g, s, b)
               else Quiet(s, b) && Visible(t, b) == Visible(s, b)
  {
    StepKeepsInv(g, s, a);
    RedoIsCommitted(g, s);
    VisibleIsLogical(g, Step(g, s, a), b);
    if !a.Crash? {
      QuietBefore(g, s, a, b);
    }
    if Quiet(s, b) {
      VisibleIsLogical(g, s, b);
    }
  }

  /**
   Over every run, crashes included: a process holding an unmodified buffer sees what
   was last logged for the block, a crash now followed by any interrupted recoveries
   and a complete one restores every home block to its contents at the last commit
   point, and no operation is open while a commit is writing.
   */
  lemma ReachableStates(g: Geometry, s: State, actions: seq<Action>, t: State, cuts: seq<nat>)
    requires Init(g, s) && Reaches(g, s, actions, t)
    ensures Inv(g, t) && LogOk(g, t.disk) && |t.committed| == |t.disk|
    ensures forall p: Pid, j: nat, b: nat :: Holds(t, p, j, b) && Home(g, b) && !t.bufs[j].unlogged ==>
              b < |t.logical| && t.bufs[j].data == t.logical[b]
    ensures forall b :: 0 <= b < |t.disk| && Home(g, b) ==>
              Recover(g, RecoverCuts(g, t.disk, cuts))[b] == t.committed[b]
    ensures t.committer.Some? ==> t.outstanding == {}
  {
    InitInv(g, s);
    RunKeepsInv(g, s, actions, t);
    RedoIsCommitted(g, t);
    RecoverIsRedo(g, RecoverCuts(g, t.disk, cuts));
    forall p: Pid, j: nat, b: nat | Holds(t, p, j, b) && Home(g, b) && !t.bufs[j].unlogged
      ensures b < |t.logical| && t.bufs[j].data == t.logical[b]
    {
      assert BufOk(t, t.bufs[j]) && Coherent(g, t, t.bufs[j]);
    }
  }
}
