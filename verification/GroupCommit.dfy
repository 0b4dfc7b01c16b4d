/**
 Group commit: the concurrent life of begin_op, log_write and end_op, as steps
 under log.lock. One commit carries every operation that was open since the last
 one; reservations bound the log; nobody sleeps in begin_op without cause.
 */
module GroupCommit {
  import opened Params

  type Pid = nat

  /** An operation: new blocks it added to the log, all blocks it logged, and the commit it belongs to. */
  datatype Op = Op(used: nat, blocks: set<nat>, epoch: nat)

  /**
   `ops` are the outstanding operations; `committer` is set while log.committing is 1;
   `asleep` are the processes sleeping in begin_op. `commits` and `ended` are history:
   the block set of every commit so far, and every operation that reached end_op.
   */
  datatype State = State(
    lh: seq<nat>, ops: map<Pid, Op>, committer: Option<Pid>, asleep: set<Pid>,
    commits: seq<set<nat>>, ended: seq<Op>)

  datatype Action =
    | Begin(p: Pid)
    | Log(p: Pid, b: nat)
    | End(p: Pid)
    | Commit(p: Pid)

  const Init := State([], map[], None, {}, [], [])

  function Blocks(lh: seq<nat>): set<nat> {
    set b | b in lh
  }

  /** begin_op's admission test. */
  predicate Admits(s: State) {
    s.committer == None && |s.lh| + (|s.ops| + 1) * MAXOPBLOCKS <= LOGSIZE
  }

  /** log_write's first panic: "too big a transaction", tested before absorption. */
  predicate TooBig(size: nat, s: State) {
    |s.lh| >= LOGSIZE || |s.lh| >= size - 1
  }

  /** A log_write that keeps its operation within MAXOPBLOCKS new blocks. */
  predicate InBudget(s: State, p: Pid, b: nat) {
    p in s.ops && (b in s.lh || s.ops[p].used < MAXOPBLOCKS)
  }

  predicate Enabled(size: nat, s: State, a: Action) {
    match a
    case Begin(p) => p !in s.ops && p !in s.asleep && s.committer != Some(p)
    case Log(p, b) => InBudget(s, p, b) && !TooBig(size, s)
    case End(p) => p in s.ops
    case Commit(p) => s.committer == Some(p)
  }

  function Step(size: nat, s: State, a: Action): State
    requires Enabled(size, s, a)
  {
    match a
    case Begin(p) =>
      if Admits(s) then s.(ops := s.ops[p := Op(0, {}, |s.commits|)])
      else s.(asleep := s.asleep + {p})
    case Log(p, b) =>
      var op := s.ops[p];
      if b in s.lh then s.(ops := s.ops[p := op.(blocks := op.blocks + {b})])
      else s.(ops := s.ops[p := op.(blocks := op.blocks + {b}, used := op.used + 1)], lh := s.lh + [b])
    case End(p) =>
      var rest := s.ops - {p};
      var t := s.(ops := rest, ended := s.ended + [s.ops[p]]);
      if rest == map[] then t.(committer := Some(p)) else t.(asleep := {})
    case Commit(p) =>
      s.(lh := [], commits := s.commits + [Blocks(s.lh)], committer := None, asleep := {})
  }

  /** The blocks that open operations may still add. */
  ghost function Unused(ops: map<Pid, Op>): nat {
    if ops == map[] then 0
    else
      var p :| p in ops;
      Left(ops[p]) + Unused(ops - {p})
  }

  function Left(op: Op): nat {
    if op.used <= MAXOPBLOCKS then MAXOPBLOCKS - op.used else 0
  }

  /** The choice of operation does not matter to the sum. */
  lemma {:induction false} UnusedSplit(ops: map<Pid, Op>, p: Pid)
    requires p in ops
    ensures Unused(ops) == Left(ops[p]) + Unused(ops - {p})
    decreases |ops|
  {
    var q :| q in ops && Unused(ops) == Left(ops[q]) + Unused(ops - {q});
    if q != p {
      UnusedSplit(ops - {q}, p);
      UnusedSplit(ops - {p}, q);
      assert ops - {q} - {p} == ops - {p} - {q};
    }
  }

  lemma UnusedUpdate(ops: map<Pid, Op>, p: Pid, op: Op)
    ensures Unused(ops[p := op]) == Left(op) + Unused(ops - {p})
  {
    UnusedSplit(ops[p := op], p);
    assert ops[p := op] - {p} == ops - {p};
  }

  // ------------------------------------------------------------ invariant

  /** lh.n plus the unused reservations of all open operations fits the log. */
  ghost predicate Reserved(s: State) {
    |s.lh| + Unused(s.ops) <= LOGSIZE
  }

  /** Open operations belong to the coming commit and every block they logged is in it. */
  predicate OpenOps(s: State) {
    forall p :: p in s.ops ==>
      s.ops[p].epoch == |s.commits| && s.ops[p].blocks <= Blocks(s.lh) && s.ops[p].used <= MAXOPBLOCKS
  }

  /** Every ended operation lies wholly in one commit: a past one, or the coming one. */
  predicate EndedOps(s: State) {
    forall i :: 0 <= i < |s.ended| ==> InOneCommit(s, s.ended[i])
  }

  predicate InOneCommit(s: State, op: Op) {
    && op.epoch <= |s.commits|
    && op.blocks <= if op.epoch < |s.commits| then s.commits[op.epoch] else Blocks(s.lh)
  }

  /** When no operation is open and no commit runs, every operation that has ended is in a past commit. */
  predicate NoneLeftBehind(s: State) {
    s.ops == map[] && s.committer == None ==>
      s.lh == [] && forall i {:trigger s.ended[i]} :: 0 <= i < |s.ended| ==> Committed(s, s.ended[i])
  }

  predicate Committed(s: State, op: Op) {
    op.epoch < |s.commits| && op.blocks <= s.commits[op.epoch]
  }

  /** Nobody sleeps in begin_op while begin_op would admit it. */
  predicate NoLostWakeup(s: State) {
    s.asleep != {} ==> !Admits(s)
  }

  ghost predicate Inv(s: State) {
    && Reserved(s) && OpenOps(s) && EndedOps(s) && NoLostWakeup(s) && NoneLeftBehind(s)
    && (s.committer.Some? ==> s.ops == map[])
    && (forall i, j :: 0 <= i < j < |s.lh| ==> s.lh[i] != s.lh[j])
  }

  lemma {:induction false} UnusedBound(ops: map<Pid, Op>)
    ensures Unused(ops) <= |ops| * MAXOPBLOCKS
    decreases |ops|
  {
    if ops != map[] {
      var p :| p in ops;
      UnusedSplit(ops, p);
      assert |ops - {p}| == |ops| - 1 by {
        assert (ops - {p}).Keys == ops.Keys - {p};
      }
      UnusedBound(ops - {p});
    }
  }

  lemma BeginKeeps(size: nat, s: State, p: Pid)
    requires Inv(s) && Enabled(size, s, Begin(p))
    ensures Inv(Step(size, s, Begin(p)))
  {
    if Admits(s) {
      UnusedUpdate(s.ops, p, Op(0, {}, |s.commits|));
      assert s.ops - {p} == s.ops;
      UnusedBound(s.ops);
      assert |s.ops[p := Op(0, {}, |s.commits|)]| == |s.ops| + 1;
    }
  }

  lemma LogKeeps(size: nat, s: State, p: Pid, b: nat)
    requires Inv(s) && Enabled(size, s, Log(p, b))
    ensures Inv(Step(size, s, Log(p, b)))
  {
    var t := Step(size, s, Log(p, b));
    UnusedSplit(s.ops, p);
    UnusedUpdate(s.ops, p, t.ops[p]);
    assert |t.ops| == |s.ops| by {
      assert t.ops.Keys == s.ops.Keys;
    }
    assert Blocks(s.lh) <= Blocks(t.lh) && b in Blocks(t.lh);
    forall i | 0 <= i < |t.ended| ensures InOneCommit(t, t.ended[i]) {
      assert InOneCommit(s, s.ended[i]);
    }
  }

  lemma EndKeeps(size: nat, s: State, p: Pid)
    requires Inv(s) && Enabled(size, s, End(p))
    ensures Inv(Step(size, s, End(p)))
  {
    var t := Step(size, s, End(p));
    UnusedSplit(s.ops, p);
    forall i | 0 <= i < |t.ended| ensures InOneCommit(t, t.ended[i]) {
      if i < |s.ended| {
        assert InOneCommit(s, s.ended[i]);
      }
    }
  }

  lemma CommitKeeps(size: nat, s: State, p: Pid)
    requires Inv(s) && Enabled(size, s, Commit(p))
    ensures Inv(Step(size, s, Commit(p)))
  {
    var t := Step(size, s, Commit(p));
    forall i | 0 <= i < |t.ended| ensures InOneCommit(t, t.ended[i]) {
      assert InOneCommit(s, s.ended[i]);
    }
  }

  lemma StepKeepsInv(size: nat, s: State, a: Action)
    requires Inv(s) && Enabled(size, s, a)
    ensures Inv(Step(size, s, a))
  {
    match a
    case Begin(p) => BeginKeeps(size, s, p);
    case Log(p, b) => LogKeeps(size, s, p, b);
    case End(p) => EndKeeps(size, s, p);
    case Commit(p) => CommitKeeps(size, s, p);
  }

  // ------------------------------------------------------------ runs

  /** t is reached from s by some interleaving of budgeted operations. */
  predicate Reaches(size: nat, s: State, run: seq<Action>, t: State)
    decreases |run|
  {
    if run == [] then s == t
    else Enabled(size, s, run[0]) && Reaches(size, Step(size, s, run[0]), run[1..], t)
  }

  /**
   Over every interleaving: the reservations fit; an operation's log_writes all land in
   one commit, which has been made once no operation is open and no commit runs; while
   a commit runs no operation is open, so end_op never meets log.committing; and nobody
   sleeps in begin_op that it would admit.
   */
  lemma {:induction false} GroupCommitSafe(size: nat, s: State, run: seq<Action>, t: State)
    requires Inv(s) && Reaches(size, s, run, t)
    ensures Inv(t)
    ensures forall p :: p in t.ops ==> t.committer == None
    ensures t.ops == map[] && t.committer == None ==>
              forall i {:trigger t.ended[i]} :: 0 <= i < |t.ended| ==> Committed(t, t.ended[i])
    decreases |run|
  {
    if run != [] {
      StepKeepsInv(size, s, run[0]);
      GroupCommitSafe(size, Step(size, s, run[0]), run[1..], t);
    }
  }

  lemma InitInv()
    ensures Inv(Init)
  {
  }

  /** begin_op admits a process or puts it to sleep; log_write leaves the block in the log and with its operation. */
  lemma Outcomes(size: nat, s: State, a: Action)
    requires Inv(s) && Enabled(size, s, a)
    ensures var t := Step(size, s, a);
            match a
            case Begin(p) => (p in t.ops <==> Admits(s)) && (p in t.asleep <==> !Admits(s)) && t.lh == s.lh
            case Log(p, b) =>
              && p in t.ops && t.ops[p].blocks == s.ops[p].blocks + {b} && Blocks(t.lh) == Blocks(s.lh) + {b}
              && t.ops[p].used - s.ops[p].used == |t.lh| - |s.lh|
            case End(p) => p !in t.ops && s.ops[p] in t.ended && (t.committer == Some(p) <==> t.ops == map[])
            case Commit(p) => t.committer == None && t.lh == [] && t.commits == s.commits + [Blocks(s.lh)]
  {
    match a
    case Begin(p) =>
    case Log(p, b) =>
    case End(p) => assert (s.ended + [s.ops[p]])[|s.ended|] == s.ops[p];
    case Commit(p) =>
  }

  // ------------------------------------------------------------ when log_write panics

  /** In a reachable state, p may log a new block within its budget. */
  predicate MayAdd(s: State, p: Pid) {
    p in s.ops && s.ops[p].used < MAXOPBLOCKS
  }

  /** Some run of budgeted operations makes an in-budget new block hit "too big a transaction". */
  ghost predicate CanPanic(size: nat) {
    exists run: seq<Action>, t: State, p: Pid :: Reaches(size, Init, run, t) && MayAdd(t, p) && TooBig(size, t)
  }

  lemma BudgetNeverPanics(size: nat, run: seq<Action>, t: State, p: Pid)
    requires size - 1 >= LOGSIZE
    requires Reaches(size, Init, run, t) && MayAdd(t, p)
    ensures !TooBig(size, t)
  {
    InitInv();
    GroupCommitSafe(size, Init, run, t);
    UnusedSplit(t.ops, p);
  }

  /**
   An absorbed log_write can still panic: exactly on a full log, and then every open operation has
   spent its budget.
   */
  lemma AbsorbedPanic(size: nat, run: seq<Action>, t: State, p: Pid)
    requires size - 1 >= LOGSIZE
    requires Reaches(size, Init, run, t) && p in t.ops
    ensures TooBig(size, t) <==> |t.lh| == LOGSIZE
    ensures TooBig(size, t) ==> forall q :: q in t.ops ==> t.ops[q].used == MAXOPBLOCKS
  {
    InitInv();
    GroupCommitSafe(size, Init, run, t);
    if TooBig(size, t) {
      forall q | q in t.ops ensures t.ops[q].used == MAXOPBLOCKS {
        UnusedSplit(t.ops, q);
      }
    }
  }

  // Three operations open on an empty log, then k blocks logged one after another.

  function Spent(k: nat, p: nat): nat {
    if k <= p * MAXOPBLOCKS then 0
    else if k - p * MAXOPBLOCKS >= MAXOPBLOCKS then MAXOPBLOCKS
    else k - p * MAXOPBLOCKS
  }

  function Upto(lo: nat, n: nat): set<nat> {
    if n == 0 then {} else Upto(lo, n - 1) + {lo + n - 1}
  }

  function Ids(k: nat): (ids: seq<nat>)
    ensures |ids| == k && forall i :: 0 <= i < k ==> ids[i] == i
  {
    if k == 0 then [] else Ids(k - 1) + [k - 1]
  }

  function SpentOp(k: nat, p: nat): Op {
    Op(Spent(k, p), Upto(p * MAXOPBLOCKS, Spent(k, p)), 0)
  }

  function Filled(k: nat): State {
    State(Ids(k), map q: nat | q < 3 :: SpentOp(k, q), None, {}, [], [])
  }

  lemma {:induction false} RunConcat(size: nat, s: State, r1: seq<Action>, t: State, a: Action)
    requires Reaches(size, s, r1, t) && Enabled(size, t, a)
    ensures Reaches(size, s, r1 + [a], Step(size, t, a))
    decreases |r1|
  {
    if r1 == [] {
      assert r1 + [a] == [a];
      assert Reaches(size, Step(size, t, a), [], Step(size, t, a));
      assert [a][1..] == [];
    } else {
      RunConcat(size, Step(size, s, r1[0]), r1[1..], t, a);
      assert (r1 + [a])[1..] == r1[1..] + [a];
    }
  }

  lemma {:induction false} ReachFilled(size: nat, k: nat) returns (run: seq<Action>)
    requires k <= LOGSIZE && k < size
    ensures Reaches(size, Init, run, Filled(k))
  {
    if k == 0 {
      run := [];
      RunConcat(size, Init, [], Init, Begin(0));
      var s1 := Step(size, Init, Begin(0));
      RunConcat(size, Init, [] + [Begin(0)], s1, Begin(1));
      var s2 := Step(size, s1, Begin(1));
      RunConcat(size, Init, [] + [Begin(0)] + [Begin(1)], s2, Begin(2));
      run := [] + [Begin(0)] + [Begin(1)] + [Begin(2)];
      assert Step(size, s2, Begin(2)) == Filled(0);
    } else {
      run := ReachFilled(size, k - 1);
      var s := Filled(k - 1);
      var a := Log((k - 1) / MAXOPBLOCKS, k - 1);
      FilledStep(size, k, (k - 1) / MAXOPBLOCKS);
      RunConcat(size, Init, run, s, a);
      run := run + [a];
    }
  }

  lemma FilledStep(size: nat, k: nat, p: nat)
    requires 0 < k <= LOGSIZE && k < size && p * MAXOPBLOCKS < k <= (p + 1) * MAXOPBLOCKS
    ensures Enabled(size, Filled(k - 1), Log(p, k - 1))
    ensures Step(size, Filled(k - 1), Log(p, k - 1)) == Filled(k)
  {
    SpentStep(k, p, p);
    var s := Filled(k - 1);
    var t := Step(size, s, Log(p, k - 1));
    assert t.ops == Filled(k).ops by {
      forall q: nat | q < 3 ensures t.ops[q] == SpentOp(k, q) {
        SpentStep(k, p, q);
      }
    }
  }

  lemma SpentStep(k: nat, p: nat, q: nat)
    requires 0 < k && p * MAXOPBLOCKS < k <= (p + 1) * MAXOPBLOCKS
    ensures q == p ==> SpentOp(k, q) == Op(SpentOp(k - 1, q).used + 1, SpentOp(k - 1, q).blocks + {k - 1}, 0)
    ensures q == p ==> SpentOp(k - 1, q).used < MAXOPBLOCKS
    ensures q != p ==> SpentOp(k, q) == SpentOp(k - 1, q)
  {
  }

  lemma PanicHappens(size: nat)
    requires 1 <= size <= LOGSIZE
    ensures CanPanic(size)
  {
    var run := ReachFilled(size, size - 1);
    FilledMayAdd(size - 1);
    PanicWitness(size, run, Filled(size - 1), (size - 1) / MAXOPBLOCKS);
  }

  lemma FilledMayAdd(k: nat)
    requires k < LOGSIZE
    ensures MayAdd(Filled(k), k / MAXOPBLOCKS) && |Filled(k).lh| == k
  {
    SpentStep(k + 1, k / MAXOPBLOCKS, k / MAXOPBLOCKS);
  }

  lemma PanicWitness(size: nat, run: seq<Action>, t: State, p: Pid)
    requires Reaches(size, Init, run, t) && MayAdd(t, p) && TooBig(size, t)
    ensures CanPanic(size)
  {
  }

  /**
   An in-budget new block can panic exactly when the log region is smaller than the
   reservation assumes: size - 1 < LOGSIZE. mkfs writes size == LOGSIZE.
   */
  lemma PanicsExactlyWhenLogTooSmall(size: nat)
    requires size >= 1
    ensures CanPanic(size) <==> size - 1 < LOGSIZE
  {
    if size - 1 < LOGSIZE {
      PanicHappens(size);
    } else {
      forall run: seq<Action>, t: State, p: Pid | Reaches(size, Init, run, t) && MayAdd(t, p)
        ensures !TooBig(size, t)
      {
        BudgetNeverPanics(size, run, t, p);
      }
    }
  }

  /** With a large enough log region, re-logging a block that is already in the log can still panic. */
  lemma AbsorbedPanicHappens(size: nat) returns (run: seq<Action>, t: State)
    requires size - 1 >= LOGSIZE
    ensures Reaches(size, Init, run, t) && 0 in t.ops && 0 in t.lh && TooBig(size, t)
  {
    run := ReachFilled(size, LOGSIZE);
    t := Filled(LOGSIZE);
    assert t.lh[0] == 0;
  }
}
