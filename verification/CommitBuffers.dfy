/**
 Buffers for a commit. Every block of the transaction keeps its buffer pinned until it is
 installed, and the log has to read its own blocks through the same cache: whether bget finds
 a buffer for them or panics is a matter of counting.
 */
module CommitBuffers {
  import opened Bytes
  import opened Params
  import opened RedoLog
  import opened Sets
  import opened Storage

  /** bget does not panic: a buffer holds block b, or one is free. */
  predicate Finds(s: State, b: nat) {
    Present(s.bufs, b) || exists j :: 0 <= j < |s.bufs| && s.bufs[j].refcnt == 0
  }

  function Pins(s: State): (r: set<nat>)
    ensures forall j {:trigger j in r} :: j in r <==> 0 <= j < |s.bufs| && s.bufs[j].pinned
  {
    set j: nat | j < |s.bufs| && s.bufs[j].pinned
  }

  /** The buffers that processes are using. */
  function Held(s: State): (r: set<nat>)
    ensures forall j {:trigger j in r} :: j in r <==> 0 <= j < |s.bufs| && s.bufs[j].users != {}
  {
    set j: nat | j < |s.bufs| && s.bufs[j].users != {}
  }

  lemma {:induction false} DistinctSize(lh: seq<nat>, lo: nat)
    requires lo <= |lh| && forall i, j :: 0 <= i < j < |lh| ==> lh[i] != lh[j]
    ensures |set k: nat | lo <= k < |lh| :: lh[k]| == |lh| - lo
    decreases |lh| - lo
  {
    var all := set k: nat | lo <= k < |lh| :: lh[k];
    if lo < |lh| {
      DistinctSize(lh, lo + 1);
      var rest := set k: nat | lo + 1 <= k < |lh| :: lh[k];
      assert all == rest + {lh[lo]} && lh[lo] !in rest;
    } else {
      assert all == {};
    }
  }

  /** One pinned buffer for every block that is logged and not yet installed. */
  lemma PinnedCount(g: Geometry, s: State)
    requires Inv(g, s)
    ensures Lo(s) <= |s.lh| && |Pins(s)| == |s.lh| - Lo(s)
  {
    var block := map j | j in Pins(s) && s.bufs[j].id.Some? :: s.bufs[j].id.value;
    forall j | j in Pins(s) ensures s.bufs[j].id.Some? {
      assert BufOk(s, s.bufs[j]);
    }
    assert block.Keys == Pins(s);
    ValuesSize(block);
    assert |block| == |block.Keys|;
    var pending := set k: nat | Lo(s) <= k < |s.lh| :: s.lh[k];
    forall b ensures b in block.Values <==> b in pending {
      PinnedBlock(s, b, block);
    }
    assert block.Values == pending;
    DistinctSize(s.lh, Lo(s));
  }

  lemma PinnedBlock(s: State, b: nat, block: map<nat, nat>)
    requires CacheInv(s) && block == map j | j in Pins(s) && s.bufs[j].id.Some? :: s.bufs[j].id.value
    ensures b in block.Values <==> exists k :: Lo(s) <= k < |s.lh| && s.lh[k] == b
  {
    if b in block.Values {
      var j :| j in block && block[j] == b;
      assert BufOk(s, s.bufs[j]);
    }
    if k :| Lo(s) <= k < |s.lh| && s.lh[k] == b {
      assert Present(s.bufs, s.lh[k]);
      var j :| 0 <= j < |s.bufs| && s.bufs[j].id == Some(b);
      assert BufOk(s, s.bufs[j]) && j in block && block[j] == b;
    }
  }

  /** bget finds a buffer exactly if one holds the block, or one is neither in use nor pinned. */
  lemma FindsExactly(g: Geometry, s: State, b: nat)
    requires Inv(g, s)
    ensures Finds(s, b) <==> Present(s.bufs, b) || |Held(s) + Pins(s)| < |s.bufs|
  {
    var busy, all := Held(s) + Pins(s), Below(|s.bufs|);
    forall j | 0 <= j < |s.bufs| ensures s.bufs[j].refcnt == 0 <==> j !in busy {
      assert BufOk(s, s.bufs[j]);
      assert s.bufs[j].users != {} ==> |s.bufs[j].users| != 0;
    }
    assert busy <= all;
    SubsetSize(busy, all);
    if exists j :: 0 <= j < |s.bufs| && s.bufs[j].refcnt == 0 {
      var j :| 0 <= j < |s.bufs| && s.bufs[j].refcnt == 0;
      SubsetSize(busy, all - {j});
    } else {
      assert busy == all;
    }
  }

  /** That is, the buffers in use beside the pinned ones leave one over. */
  lemma CommitFinds(g: Geometry, s: State, b: nat)
    requires Inv(g, s)
    ensures Finds(s, b) <==> Present(s.bufs, b) || |Held(s) - Pins(s)| + |s.lh| - Lo(s) < |s.bufs|
  {
    FindsExactly(g, s, b);
    PinnedCount(g, s);
    assert Held(s) + Pins(s) == (Held(s) - Pins(s)) + Pins(s);
  }

  lemma {:induction false} RunKeepsSize(g: Geometry, s: State, actions: seq<Action>, t: State)
    requires Storage.Reaches(g, s, actions, t)
    ensures |t.bufs| == |s.bufs|
    decreases |actions|
  {
    if actions != [] {
      StepKeepsSize(g, s, actions[0]);
      RunKeepsSize(g, Step(g, s, actions[0]), actions[1..], t);
    }
  }

  lemma StepKeepsSize(g: Geometry, s: State, a: Action)
    requires Inv(g, s) && Enabled(g, s, a)
    ensures |Step(g, s, a).bufs| == |s.bufs|
  {
  }

  /** The most blocks that a transaction can have. */
  function Most(g: Geometry): nat
    requires 1 <= g.size
  {
    if LOGSIZE < g.size then LOGSIZE else g.size - 1
  }

  /** A machine with NBUF buffers, booted on disk d. */
  function Boot(d: Disk): State {
    State(d, EmptyCache(NBUF), [], {}, None, Idle, d, d)
  }

  /** The commit is about to read block b of the log: the block of the next step, and in the end the header. */
  predicate Reads(g: Geometry, s: State, b: nat) {
    && s.phase != Idle && s.lh != []
    && b == if s.phase.i < |s.lh| then g.start + 1 + s.phase.i else g.start
  }

  /** Some run goes from s to t. */
  ghost predicate Leads(g: Geometry, s: State, t: State) {
    exists actions :: Storage.Reaches(g, s, actions, t)
  }

  /** In every run, as long as processes use at most r buffers beside the pinned ones, a commit finds a buffer. */
  ghost predicate AlwaysFinds(g: Geometry, d: Disk, r: nat) {
    forall t, b {:trigger Leads(g, Boot(d), t), Reads(g, t, b)} ::
      Leads(g, Boot(d), t) && Reads(g, t, b) && |Held(t) - Pins(t)| <= r ==> Finds(t, b)
  }

  /** A full transaction and those r buffers leave one over: then every bget finds a buffer. */
  lemma EnoughBuffers(g: Geometry, s: State, actions: seq<Action>, t: State, r: nat, b: nat)
    requires Init(g, s) && |s.bufs| == NBUF && Storage.Reaches(g, s, actions, t)
    requires |Held(t) - Pins(t)| <= r && Most(g) + r < NBUF
    ensures Finds(t, b)
  {
    InitInv(g, s);
    RunKeepsInv(g, s, actions, t);
    RunKeepsSize(g, s, actions, t);
    CommitFinds(g, t, b);
  }

  /** "bget: no buffers" in a commit: no run meets it exactly if that is so. */
  lemma CommitPanicsExactly(g: Geometry, d: Disk, r: nat)
    requires LogOk(g, d) && Head(d[g.start]) == [] && 1 < g.size && After(g, NBUF) <= |d|
    ensures AlwaysFinds(g, d, r) <==> Most(g) + r < NBUF
  {
    if Most(g) + r < NBUF {
      forall t, b | Leads(g, Boot(d), t) && Reads(g, t, b) && |Held(t) - Pins(t)| <= r ensures Finds(t, b) {
        var actions :| Storage.Reaches(g, Boot(d), actions, t);
        EnoughBuffers(g, Boot(d), actions, t, r, b);
      }
    } else {
      var t := NoBufferLeft(g, d, if Most(g) < NBUF then Most(g) else NBUF);
      assert Leads(g, Boot(d), t) && Reads(g, t, g.start + 1) && !Finds(t, g.start + 1);
    }
  }

  /**
   With the log that mkfs makes, of as many blocks as there are buffers, it takes one process that uses a
   buffer outside the transaction, as readers of files do; with a larger one it takes none.
   */
  lemma MkfsLog(g: Geometry, d: Disk)
    requires LogOk(g, d) && Head(d[g.start]) == [] && 1 < g.size && After(g, NBUF) <= |d|
    ensures g.size == LOGSIZE ==> AlwaysFinds(g, d, 0) && !AlwaysFinds(g, d, 1)
    ensures g.size > LOGSIZE ==> !AlwaysFinds(g, d, 0)
  {
    CommitPanicsExactly(g, d, 0);
    CommitPanicsExactly(g, d, 1);
  }

  // ------------------------------------------------------------ a run that meets the panic

  /** Every run from t is the end of one from s. */
  ghost predicate Gets(g: Geometry, s: State, t: State) {
    forall u {:trigger Leads(g, t, u)} :: Leads(g, t, u) ==> Leads(g, s, u)
  }

  /** A run with one more step in front. */
  lemma {:induction false} Before(g: Geometry, s: State, a: Action, s1: State, actions: seq<Action>, t: State)
    requires Inv(g, s) && Enabled(g, s, a) && s1 == Step(g, s, a) && Storage.Reaches(g, s1, actions, t)
    ensures Storage.Reaches(g, s, [a] + actions, t)
  {
    var all := [a] + actions;
    assert all[0] == a && all[1..] == actions;
  }

  lemma StepsTo(g: Geometry, s: State, a: Action, t: State)
    requires Inv(g, s) && Enabled(g, s, a) && t == Step(g, s, a)
    ensures Inv(g, t) && Gets(g, s, t)
  {
    StepKeepsInv(g, s, a);
    forall u | Leads(g, t, u) ensures Leads(g, s, u) {
      var actions :| Storage.Reaches(g, t, actions, u);
      Before(g, s, a, t, actions, u);
    }
  }

  lemma GetsOn(g: Geometry, s: State, t: State, u: State)
    requires Gets(g, s, t) && Gets(g, t, u)
    ensures Gets(g, s, u)
  {
  }

  lemma Arrives(g: Geometry, s: State, t: State)
    requires Gets(g, s, t)
    ensures Leads(g, s, t)
  {
    assert Storage.Reaches(g, t, [], t) && Leads(g, t, t);
  }

  ghost predicate GetsAt(g: Geometry, states: seq<State>, i: int) {
    0 <= i < |states| - 1 ==> Gets(g, states[i], states[i + 1])
  }

  lemma {:induction false} Chain(g: Geometry, states: seq<State>, n: nat)
    requires n < |states| && forall i {:trigger GetsAt(g, states, i)} :: GetsAt(g, states, i)
    ensures Gets(g, states[0], states[n])
  {
    if n > 0 {
      Chain(g, states, n - 1);
      assert GetsAt(g, states, n - 1);
      GetsOn(g, states[0], states[n - 1], states[n]);
    }
  }

  /** The k-th block after the log. */
  function After(g: Geometry, k: nat): nat {
    g.start + g.size + k
  }

  function Logged(g: Geometry, n: nat): (lh: seq<nat>)
    ensures |lh| == n && forall k {:trigger lh[k]} :: 0 <= k < n ==> lh[k] == After(g, k)
  {
    seq(n, k requires 0 <= k => After(g, k))
  }

  const FREE := Buf(None, false, ZeroBlock(), 0, {}, None, false, false)

  /** Buffer of a block that is logged and that nobody uses. */
  function Pinned(d: Disk, b: nat): Buf
    requires b < |d|
  {
    Buf(Some(b), true, d[b], 1, {}, None, true, false)
  }

  function PinnedBufs(g: Geometry, d: Disk, m: nat, n: nat): (bufs: seq<Buf>)
    requires n <= m && After(g, n) <= |d|
    ensures |bufs| == m
    ensures forall j {:trigger bufs[j]} :: 0 <= j < m ==> bufs[j] == if j < n then Pinned(d, After(g, j)) else FREE
  {
    seq(m, j requires 0 <= j < m => if j < n then Pinned(d, After(g, j)) else FREE)
  }

  /** The first n blocks after the log have been logged, each with what it held. */
  function Full(g: Geometry, d: Disk, m: nat, n: nat, ops: set<Pid>): State
    requires n <= m && After(g, n) <= |d|
  {
    State(d, PinnedBufs(g, d, m, n), Logged(g, n), ops, None, Idle, d, d)
  }

  /** And buffer n is c. */
  function With(g: Geometry, d: Disk, m: nat, n: nat, ops: set<Pid>, c: Buf): State
    requires n < m && After(g, n) <= |d|
  {
    SetBuf(Full(g, d, m, n, ops), n, c)
  }

  lemma WithNext(g: Geometry, d: Disk, m: nat, n: nat, ops: set<Pid>)
    requires n < m && After(g, n) < |d|
    ensures With(g, d, m, n, ops, Pinned(d, After(g, n))).(lh := Logged(g, n + 1)) == Full(g, d, m, n + 1, ops)
    ensures Absorb(Logged(g, n), After(g, n)) == Logged(g, n + 1) && d[After(g, n) := d[After(g, n)]] == d
  {
    assert PinnedBufs(g, d, m, n)[n := Pinned(d, After(g, n))] == PinnedBufs(g, d, m, n + 1);
    assert Logged(g, n) + [After(g, n)] == Logged(g, n + 1);
  }

  /** Such a state is one of those that the invariant allows. */
  lemma FullInv(g: Geometry, d: Disk, m: nat, n: nat, ops: set<Pid>)
    requires n <= m && n <= LOGSIZE && n < g.size && After(g, n) <= |d| && Inv(g, Full(g, d, m, 0, ops))
    ensures Inv(g, Full(g, d, m, n, ops))
  {
    var s := Full(g, d, m, n, ops);
    assert Targets(g, d, s.lh) && JournalInv(g, s);
    forall j | 0 <= j < m ensures BufOk(s, s.bufs[j]) && Coherent(g, s, s.bufs[j]) {
      assert j < n ==> s.lh[j] == After(g, j);
    }
    forall k | 0 <= k < |s.lh| ensures Present(s.bufs, s.lh[k]) {
      assert s.bufs[k].id == Some(s.lh[k]);
    }
    assert CacheInv(s);
  }

  /** A buffer that process p has just got for block b. */
  function Taken(b: nat, p: Pid): Buf {
    Buf(Some(b), false, ZeroBlock(), 1, {p}, None, false, false)
  }

  /** bread, log_write and brelse of the next block, by process p. */
  lemma LogNext(g: Geometry, d: Disk, m: nat, n: nat, ops: set<Pid>, p: Pid)
    requires n < m && 1 <= g.size && n < Most(g) && After(g, n) < |d| && p in ops && Inv(g, Full(g, d, m, n, ops))
    ensures Gets(g, Full(g, d, m, n, ops), Full(g, d, m, n + 1, ops))
  {
    var b := After(g, n);
    var s0 := Full(g, d, m, n, ops);
    var c1 := Taken(b, p);
    var c2 := c1.(owner := Some(p));
    var c3 := c2.(valid := true, data := d[b]);
    var s1, s2, s3 := With(g, d, m, n, ops, c1), With(g, d, m, n, ops, c2), With(g, d, m, n, ops, c3);
    StepsTo(g, s0, Recycle(p, n, b), s1);
    StepsTo(g, s1, Lock(p, n), s2);
    StepsTo(g, s2, Fill(p, n), s3);
    LogThat(g, d, m, n, ops, p, s3, c3);
    GetsOn(g, s2, s3, Full(g, d, m, n + 1, ops));
    GetsOn(g, s1, s2, Full(g, d, m, n + 1, ops));
    GetsOn(g, s0, s1, Full(g, d, m, n + 1, ops));
  }

  lemma LogThat(g: Geometry, d: Disk, m: nat, n: nat, ops: set<Pid>, p: Pid, s3: State, c3: Buf)
    requires n < m && 1 <= g.size && n < Most(g) && After(g, n) < |d| && p in ops && s3 == With(g, d, m, n, ops, c3)
    requires c3 == Buf(Some(After(g, n)), true, d[After(g, n)], 1, {p}, Some(p), false, false) && Inv(g, s3)
    ensures Gets(g, s3, Full(g, d, m, n + 1, ops))
  {
    var c4 := c3.(pinned := true, refcnt := 2);
    var s4 := With(g, d, m, n, ops, c4).(lh := Logged(g, n + 1));
    WithNext(g, d, m, n, ops);
    StepsTo(g, s3, LogWrite(p, n), s4);
    Released(g, d, m, n, ops, p, s4, c4);
    GetsOn(g, s3, s4, Full(g, d, m, n + 1, ops));
  }

  lemma Released(g: Geometry, d: Disk, m: nat, n: nat, ops: set<Pid>, p: Pid, s4: State, c4: Buf)
    requires n < m && After(g, n) < |d| && s4 == With(g, d, m, n, ops, c4).(lh := Logged(g, n + 1)) && Inv(g, s4)
    requires c4 == Buf(Some(After(g, n)), true, d[After(g, n)], 2, {p}, Some(p), true, false)
    ensures Gets(g, s4, Full(g, d, m, n + 1, ops))
  {
    var s5 := SetBuf(s4, n, c4.(owner := None));
    StepsTo(g, s4, Unlock(p, n), s5);
    Dropped(g, d, m, n, ops, p, s5, c4.(owner := None));
    GetsOn(g, s4, s5, Full(g, d, m, n + 1, ops));
  }

  lemma Dropped(g: Geometry, d: Disk, m: nat, n: nat, ops: set<Pid>, p: Pid, s5: State, c5: Buf)
    requires n < m && After(g, n) < |d| && s5 == With(g, d, m, n, ops, c5).(lh := Logged(g, n + 1)) && Inv(g, s5)
    requires c5 == Buf(Some(After(g, n)), true, d[After(g, n)], 2, {p}, None, true, false)
    ensures Gets(g, s5, Full(g, d, m, n + 1, ops))
  {
    WithNext(g, d, m, n, ops);
    assert {p} - {p} == {};
    StepsTo(g, s5, Drop(p, n), Full(g, d, m, n + 1, ops));
  }

  /** Of three processes that log ten blocks each, the one that logs block n. */
  function Turn(n: nat): (p: Pid)
    ensures n < 3 * MAXOPBLOCKS ==> p in {0, 1, 2}
  {
    n / MAXOPBLOCKS
  }

  lemma FillNext(g: Geometry, d: Disk, n: nat, ops: set<Pid>)
    requires 1 <= g.size && n < Most(g) && n < NBUF && After(g, NBUF) <= |d| && ops == {0, 1, 2}
    requires Inv(g, Full(g, d, NBUF, 0, ops))
    ensures Gets(g, Full(g, d, NBUF, n, ops), Full(g, d, NBUF, n + 1, ops))
  {
    FullInv(g, d, NBUF, n, ops);
    LogNext(g, d, NBUF, n, ops, Turn(n));
  }

  /** The processes log n blocks, ten each at most. */
  lemma FillAll(g: Geometry, d: Disk, n: nat, ops: set<Pid>)
    requires 1 <= g.size && n <= Most(g) && n <= NBUF && After(g, NBUF) <= |d| && ops == {0, 1, 2}
    requires Inv(g, Full(g, d, NBUF, 0, ops))
    ensures Gets(g, Full(g, d, NBUF, 0, ops), Full(g, d, NBUF, n, ops))
  {
    var states := seq(n + 1, k requires 0 <= k <= n => Full(g, d, NBUF, k, ops));
    forall i ensures GetsAt(g, states, i) {
      if 0 <= i < n {
        FillNext(g, d, i, ops);
      }
    }
    Chain(g, states, n);
  }

  /** Buffer j, when n blocks are logged and the next k blocks have readers. */
  function CrowdedBuf(g: Geometry, d: Disk, n: nat, k: nat, j: nat): Buf
    requires After(g, n) <= |d|
  {
    if j < n then Pinned(d, After(g, j)) else if j < n + k then Taken(After(g, j), 3 + j) else FREE
  }

  function CrowdedBufs(g: Geometry, d: Disk, n: nat, k: nat): (bufs: seq<Buf>)
    requires After(g, n) <= |d|
    ensures |bufs| == NBUF && forall j {:trigger bufs[j]} :: 0 <= j < NBUF ==> bufs[j] == CrowdedBuf(g, d, n, k, j)
  {
    seq(NBUF, j requires 0 <= j => CrowdedBuf(g, d, n, k, j))
  }

  function Crowded(g: Geometry, d: Disk, n: nat, k: nat, ops: set<Pid>): State
    requires After(g, n) <= |d|
  {
    State(d, CrowdedBufs(g, d, n, k), Logged(g, n), ops, None, Idle, d, d)
  }

  /** One more reader, which is in no operation. */
  lemma ReadNext(g: Geometry, d: Disk, n: nat, k: nat, ops: set<Pid>)
    requires n + k < NBUF && After(g, NBUF) <= |d| && Inv(g, Crowded(g, d, n, k, ops))
    ensures Gets(g, Crowded(g, d, n, k, ops), Crowded(g, d, n, k + 1, ops))
  {
    var j, s := n + k, Crowded(g, d, n, k, ops);
    assert s.bufs[j] == FREE;
    assert s.bufs[j := Taken(After(g, j), 3 + j)] == CrowdedBufs(g, d, n, k + 1);
    StepsTo(g, s, Recycle(3 + j, j, After(g, j)), Crowded(g, d, n, k + 1, ops));
  }

  lemma CrowdedInv(g: Geometry, d: Disk, n: nat, k: nat, ops: set<Pid>)
    requires n + k <= NBUF && After(g, NBUF) <= |d| && Inv(g, Crowded(g, d, n, 0, ops))
    ensures Inv(g, Crowded(g, d, n, k, ops))
  {
    var s, t := Crowded(g, d, n, 0, ops), Crowded(g, d, n, k, ops);
    assert JournalInv(g, t);
    forall j | 0 <= j < NBUF ensures BufOk(t, t.bufs[j]) && Coherent(g, t, t.bufs[j]) {
      assert BufOk(s, s.bufs[j]) && Coherent(g, s, s.bufs[j]);
      assert j < n ==> t.lh[j] == After(g, j);
    }
    forall i | 0 <= i < |t.lh| ensures Present(t.bufs, t.lh[i]) {
      assert t.bufs[i].id == Some(t.lh[i]);
    }
    assert CacheInv(t);
  }

  lemma ReadAll(g: Geometry, d: Disk, n: nat, k: nat, ops: set<Pid>)
    requires n + k <= NBUF && After(g, NBUF) <= |d| && Inv(g, Crowded(g, d, n, 0, ops))
    ensures Gets(g, Crowded(g, d, n, 0, ops), Crowded(g, d, n, k, ops)) && Inv(g, Crowded(g, d, n, k, ops))
  {
    var states := seq(k + 1, i requires 0 <= i => Crowded(g, d, n, i, ops));
    forall i ensures GetsAt(g, states, i) {
      if 0 <= i < k {
        CrowdedInv(g, d, n, i, ops);
        ReadNext(g, d, n, i, ops);
      }
    }
    Chain(g, states, k);
    CrowdedInv(g, d, n, k, ops);
  }

  /** The three operations end. */
  lemma EndAll(g: Geometry, s: State, t: State)
    requires Inv(g, s) && s.outstanding == {0, 1, 2} && s.committer == None
    requires forall j :: 0 <= j < |s.bufs| ==> !s.bufs[j].unlogged
    requires t == s.(outstanding := {}, committer := Some(0), phase := Copy(0))
    ensures Gets(g, s, t)
  {
    var s1, s0 := s.(outstanding := {0, 1}), s.(outstanding := {0});
    assert {0, 1, 2} - {2} == {0, 1} && {0, 1} - {1} == {0} && {0} - {0} == {};
    StepsTo(g, s, EndOp(2), s1);
    StepsTo(g, s1, EndOp(1), s0);
    StepsTo(g, s0, EndOp(0), t);
    GetsOn(g, s1, s0, t);
    GetsOn(g, s, s1, t);
  }

  /** They begin. */
  lemma BeginAll(g: Geometry, s: State, t: State)
    requires Inv(g, s) && s.outstanding == {} && s.committer == None && s.lh == []
    requires t == s.(outstanding := {0, 1, 2})
    ensures Gets(g, s, t) && Inv(g, t)
  {
    var s1, s2 := s.(outstanding := {0}), s.(outstanding := {0, 1});
    StepsTo(g, s, BeginOp(0), s1);
    StepsTo(g, s1, BeginOp(1), s2);
    StepsTo(g, s2, BeginOp(2), t);
    GetsOn(g, s1, s2, t);
    GetsOn(g, s, s1, t);
  }

  /** The state when they have begun: no block is logged yet. */
  lemma BootFull(g: Geometry, d: Disk, ops: set<Pid>)
    requires LogOk(g, d) && Head(d[g.start]) == [] && After(g, NBUF) <= |d| && ops == {0, 1, 2}
    ensures Gets(g, Boot(d), Full(g, d, NBUF, 0, ops)) && Inv(g, Full(g, d, NBUF, 0, ops))
  {
    assert PinnedBufs(g, d, NBUF, 0) == EmptyCache(NBUF) && Logged(g, 0) == [];
    InitInv(g, Boot(d));
    BeginAll(g, Boot(d), Full(g, d, NBUF, 0, ops));
  }

  lemma FullCrowded(g: Geometry, d: Disk, n: nat, ops: set<Pid>)
    requires n <= NBUF && After(g, n) <= |d|
    ensures Crowded(g, d, n, 0, ops) == Full(g, d, NBUF, n, ops)
  {
    assert CrowdedBufs(g, d, n, 0) == PinnedBufs(g, d, NBUF, n);
  }

  /**
   Three operations log n blocks, ten each at most; readers outside any operation get the other buffers; the
   operations end, and their commit finds no buffer for the first block of the log.
   */
  lemma NoBufferLeft(g: Geometry, d: Disk, n: nat) returns (t: State)
    requires LogOk(g, d) && Head(d[g.start]) == [] && 1 < g.size && After(g, NBUF) <= |d|
    requires 0 < n <= Most(g) && n <= NBUF
    ensures Leads(g, Boot(d), t)
    ensures |t.lh| == n && Reads(g, t, g.start + 1) && |Held(t) - Pins(t)| == NBUF - n && !Finds(t, g.start + 1)
  {
    var ops: set<Pid> := {0, 1, 2};
    var s0, s1, s2 := Full(g, d, NBUF, 0, ops), Full(g, d, NBUF, n, ops), Crowded(g, d, n, NBUF - n, ops);
    t := s2.(outstanding := {}, committer := Some(0), phase := Copy(0));
    BootFull(g, d, ops);
    FillAll(g, d, n, ops);
    FullInv(g, d, NBUF, n, ops);
    FullCrowded(g, d, n, ops);
    ReadAll(g, d, n, NBUF - n, ops);
    EndAll(g, s2, t);
    GetsOn(g, s1, s2, t);
    GetsOn(g, s0, s1, t);
    GetsOn(g, Boot(d), s0, t);
    Arrives(g, Boot(d), t);
    ReadersHold(g, d, n, t);
    NothingFound(g, d, n, t);
  }

  lemma NothingFound(g: Geometry, d: Disk, n: nat, t: State)
    requires n <= NBUF && After(g, NBUF) <= |d| && 1 < g.size && t.bufs == CrowdedBufs(g, d, n, NBUF - n)
    ensures !Finds(t, g.start + 1)
  {
    forall j | 0 <= j < |t.bufs| ensures t.bufs[j].refcnt == 1 && t.bufs[j].id == Some(After(g, j)) {
    }
  }

  lemma ReadersHold(g: Geometry, d: Disk, n: nat, t: State)
    requires n <= NBUF && After(g, NBUF) <= |d| && t.bufs == CrowdedBufs(g, d, n, NBUF - n)
    ensures |Held(t) - Pins(t)| == NBUF - n
  {
    var rest := Held(t) - Pins(t);
    forall j ensures j in rest <==> n <= j < NBUF {
      if 0 <= j < NBUF {
        assert t.bufs[j] == CrowdedBuf(g, d, n, NBUF - n, j);
      }
    }
    Remainder(rest, n, NBUF);
  }

  lemma Remainder(rest: set<nat>, n: nat, m: nat)
    requires n <= m && forall j :: j in rest <==> n <= j < m
    ensures |rest| == m - n
  {
    assert Below(m) == Below(n) + rest;
  }
}
