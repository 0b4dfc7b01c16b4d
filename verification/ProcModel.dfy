/**
 The process table as a transition system: fork in its three lock-protected
 steps, exit in two, wait, kill, and sleeping and running in general. A step of
 one process may come between any two steps of another; wait_lock is explicit.
 */
module ProcModel {
  import opened Params

  datatype Pstate = Unused | Used | Sleeping | Runnable | Running | Zombie

  /** What a process sleeps on: a process slot, as wait does, or anything else. */
  datatype Chan = NoChan | WaitChan(slot: nat) | OtherChan

  datatype Proc = Proc(state: Pstate, pid: nat, parent: Option<nat>, chan: Chan, xstate: int, killed: bool)

  /** Where a process stands inside a system call that spans several steps. */
  datatype Pc = Idle | Forking(np: nat, linked: bool) | Exiting

  /** `exited` and `collected` record every exit status and every status that wait has handed out. */
  datatype State = State(procs: seq<Proc>, nextpid: nat, waitLock: Option<nat>, pcs: seq<Pc>,
                         exited: map<nat, int>, collected: seq<(nat, int)>)

  const INIT: nat := 0
  const FREE := Proc(Unused, 0, None, NoChan, 0, false)

  predicate Alive(e: Proc) { e.state.Runnable? || e.state.Running? || e.state.Sleeping? }

  predicate Waiting(e: Proc) { e.state.Sleeping? && e.chan.WaitChan? }

  /** wakeup(c) seen from one table entry. */
  function Woken(e: Proc, c: nat): Proc {
    if e.state.Sleeping? && e.chan == WaitChan(c) then e.(state := Runnable) else e
  }

  // ------------------------------------------------------------ steps

  predicate Shape(s: State) {
    |s.procs| == NPROC && |s.pcs| == NPROC
  }

  /** Process p is on a CPU and at the start of a system call. */
  predicate Ready(s: State, p: nat)
    requires Shape(s)
  {
    p < NPROC && s.procs[p].state.Running? && s.pcs[p].Idle?
  }

  datatype Event =
    | Alloc(p: nat, np: nat)            // fork: allocproc
    | AllocFail(p: nat)                 // allocproc took a pid and then ran out of memory
    | ForkFail(p: nat)                  // uvmcopy failed: freeproc
    | ForkLink(p: nat)                  // np->parent = p, under wait_lock
    | ForkRun(p: nat)                   // np->state = RUNNABLE
    | ExitBegin(p: nat)                 // take wait_lock, reparent, wake the parent
    | ExitEnd(p: nat, status: int)      // ZOMBIE, drop wait_lock
    | Collect(p: nat, c: nat)           // wait finds a zombie child
    | WaitSleep(p: nat)                 // wait finds none
    | Kill(p: nat)
    | SleepOther(p: nat)
    | WakeOther(p: nat)
    | Schedule(p: nat)
    | Yield(p: nat)

  predicate HasChild(t: seq<Proc>, p: nat) {
    exists i :: 0 <= i < |t| && t[i].parent == Some(p)
  }

  /** One table entry after reparent(p) and wakeup(parent of p). */
  function Orphaned(t: seq<Proc>, p: nat, i: nat): Proc
    requires i < |t| && p < |t|
  {
    var e := t[i];
    var e1 := if e.parent == Some(p) then e.(parent := Some(INIT)) else e;
    var e2 := if HasChild(t, p) then Woken(e1, INIT) else e1;
    if t[p].parent.Some? then Woken(e2, t[p].parent.value) else e2
  }

  predicate Reparented(t: seq<Proc>, t': seq<Proc>, p: nat)
    requires p < |t|
  {
    |t'| == |t| && forall i {:trigger t'[i]} :: 0 <= i < |t| ==> t'[i] == Orphaned(t, p, i)
  }

  predicate NoZombieChild(t: seq<Proc>, p: nat) {
    forall i {:trigger t[i]} :: 0 <= i < |t| && t[i].parent == Some(p) ==> !t[i].state.Zombie?
  }

  predicate Step(s: State, e: Event, s': State)
    requires Shape(s)
  {
    var t := s.procs;
    match e
    case Alloc(p, np) =>
      && Ready(s, p) && np < NPROC && t[np].state.Unused?
      && s' == s.(procs := t[np := t[np].(state := Used, pid := s.nextpid)], nextpid := s.nextpid + 1,
                  pcs := s.pcs[p := Forking(np, false)])
    case AllocFail(p) =>
      Ready(s, p) && s' == s.(nextpid := s.nextpid + 1)
    case ForkFail(p) =>
      && p < NPROC && s.pcs[p].Forking? && !s.pcs[p].linked && s.pcs[p].np < NPROC
      && s' == s.(procs := t[s.pcs[p].np := FREE], pcs := s.pcs[p := Idle])
    case ForkLink(p) =>
      && p < NPROC && s.pcs[p].Forking? && !s.pcs[p].linked && s.pcs[p].np < NPROC && s.waitLock == None
      && s' == s.(procs := t[s.pcs[p].np := t[s.pcs[p].np].(parent := Some(p))],
                  pcs := s.pcs[p := Forking(s.pcs[p].np, true)])
    case ForkRun(p) =>
      && p < NPROC && s.pcs[p].Forking? && s.pcs[p].linked && s.pcs[p].np < NPROC
      && s' == s.(procs := t[s.pcs[p].np := t[s.pcs[p].np].(state := Runnable)], pcs := s.pcs[p := Idle])
    case ExitBegin(p) =>
      && Ready(s, p) && p != INIT && s.waitLock == None && Reparented(t, s'.procs, p)
      && s' == s.(procs := s'.procs, waitLock := Some(p), pcs := s.pcs[p := Exiting])
    case ExitEnd(p, status) =>
      && p < NPROC && s.pcs[p].Exiting?
      && s' == s.(procs := t[p := t[p].(state := Zombie, xstate := status)], waitLock := None, pcs := s.pcs[p := Idle],
                  exited := s.exited[t[p].pid := status])
    case Collect(p, c) =>
      && Ready(s, p) && s.waitLock == None && c < NPROC && t[c].parent == Some(p) && t[c].state.Zombie?
      && s' == s.(procs := t[c := FREE], collected := s.collected + [(t[c].pid, t[c].xstate)])
    case WaitSleep(p) =>
      && Ready(s, p) && s.waitLock == None && NoZombieChild(t, p)
      && s' == s.(procs := t[p := t[p].(state := Sleeping, chan := WaitChan(p))])
    case Kill(p) =>
      && p < NPROC
      && s' == s.(procs := t[p := t[p].(killed := true, state := if t[p].state.Sleeping? then Runnable
                                        else t[p].state)])
    case SleepOther(p) =>
      && p < NPROC && t[p].state.Running? && !s.pcs[p].Exiting?
      && s' == s.(procs := t[p := t[p].(state := Sleeping, chan := OtherChan)])
    case WakeOther(p) =>
      && p < NPROC && t[p].state.Sleeping? && t[p].chan.OtherChan?
      && s' == s.(procs := t[p := t[p].(state := Runnable)])
    case Schedule(p) =>
      && p < NPROC && t[p].state.Runnable? && s' == s.(procs := t[p := t[p].(state := Running)])
    case Yield(p) =>
      && p < NPROC && t[p].state.Running? && !s.pcs[p].Exiting? && s' == s.(procs := t[p := t[p].(state := Runnable)])
  }

  // ------------------------------------------------------------ invariant

  /** The parent of an entry is a live process with a smaller pid. */
  predicate ParentOk(t: seq<Proc>, i: nat, q: nat)
    requires i < |t|
  {
    q < |t| && Alive(t[q]) && t[q].pid < t[i].pid
  }

  predicate EntryOk(t: seq<Proc>, nextpid: nat, i: nat)
    requires i < |t|
  {
    var e := t[i];
    && (e.state.Unused? ==> e.pid == 0 && e.parent == None)
    && (!e.state.Unused? ==> 0 < e.pid < nextpid)
    && (e.parent.Some? ==> ParentOk(t, i, e.parent.value))
    && (i == INIT ==> e.pid == 1 && e.parent == None && Alive(e))
    && (i != INIT && (Alive(e) || e.state.Zombie?) ==> e.parent.Some?)
    && (Waiting(e) ==> e.chan == WaitChan(i))
  }

  predicate TableOk(t: seq<Proc>, nextpid: nat) {
    && |t| == NPROC
    && (forall i {:trigger EntryOk(t, nextpid, i)} :: 0 <= i < |t| ==> EntryOk(t, nextpid, i))
    && (forall i, j {:trigger t[i], t[j]} :: 0 <= i < |t| && 0 <= j < |t| && i != j && t[i].pid == t[j].pid ==>
          t[i].pid == 0)
  }

  /** Somebody asleep in wait has no zombie child. */
  predicate WaitersOk(t: seq<Proc>) {
    forall p, c {:trigger t[p], t[c]} :: 0 <= p < |t| && 0 <= c < |t| && Waiting(t[p]) && t[c].parent == Some(p) ==>
          !t[c].state.Zombie?
  }

  /** A process inside fork or exit is alive and nobody else has touched what it works on. */
  predicate PcOk(s: State, p: nat)
    requires Shape(s) && p < NPROC
  {
    match s.pcs[p]
    case Idle => true
    case Forking(np, linked) =>
      && Alive(s.procs[p]) && np < NPROC && np != INIT && s.procs[np].state.Used?
      && s.procs[np].parent == (if linked then Some(p) else None)
      && s.procs[p].pid < s.procs[np].pid
    case Exiting =>
      && s.waitLock == Some(p) && s.procs[p].state.Running? && p != INIT
      && (forall c {:trigger s.procs[c]} :: 0 <= c < NPROC ==> s.procs[c].parent != Some(p))
      && (s.procs[p].parent.Some? && s.procs[p].parent.value < NPROC ==> !Waiting(s.procs[s.procs[p].parent.value]))
  }

  predicate PcsOk(s: State)
    requires Shape(s)
  {
    && (forall p {:trigger PcOk(s, p)} :: 0 <= p < NPROC ==> PcOk(s, p))
    && (forall p, q {:trigger s.pcs[p], s.pcs[q]} ::
          0 <= p < NPROC && 0 <= q < NPROC && s.pcs[p].Forking? && s.pcs[q].Forking? && s.pcs[p].np == s.pcs[q].np ==>
            p == q)
    && (s.waitLock.Some? ==> s.waitLock.value < NPROC && s.pcs[s.waitLock.value].Exiting?)
  }

  /** The status recorded at exit is in the zombie or has been collected, once; nothing else is ever collected. */
  predicate HistoryOk(t: seq<Proc>, nextpid: nat, exited: map<nat, int>, collected: seq<(nat, int)>) {
    && (forall i {:trigger t[i]} :: 0 <= i < |t| && t[i].pid in exited ==>
          t[i].state.Zombie? && exited[t[i].pid] == t[i].xstate)
    && (forall i {:trigger t[i]} :: 0 <= i < |t| && t[i].state.Zombie? ==> t[i].pid in exited)
    && (forall k {:trigger collected[k]} :: 0 <= k < |collected| ==>
          collected[k].0 in exited && exited[collected[k].0] == collected[k].1)
    && (forall k, i {:trigger collected[k], t[i]} :: 0 <= k < |collected| && 0 <= i < |t| ==>
          collected[k].0 != t[i].pid)
    && (forall j, k {:trigger collected[j], collected[k]} :: 0 <= j < k < |collected| ==>
          collected[j].0 != collected[k].0)
    && (forall pid {:trigger pid in exited} :: pid in exited ==>
          0 < pid < nextpid && (InTable(t, pid) || InLog(collected, pid)))
  }

  predicate InTable(t: seq<Proc>, pid: nat) {
    exists i :: 0 <= i < |t| && t[i].pid == pid
  }

  predicate InLog(collected: seq<(nat, int)>, pid: nat) {
    exists k :: 0 <= k < |collected| && collected[k].0 == pid
  }

  predicate Inv(s: State) {
    && Shape(s) && TableOk(s.procs, s.nextpid) && WaitersOk(s.procs) && PcsOk(s)
    && HistoryOk(s.procs, s.nextpid, s.exited, s.collected)
  }

  // ------------------------------------------------------------ one entry changes

  /**
   Changing one entry keeps the tree: it stays alive under its pid or it has no children, and a new
   pid is a fresh one.
   */
  lemma SetEntry(t: seq<Proc>, n: nat, i: nat, e: Proc, t': seq<Proc>, n': nat)
    requires TableOk(t, n) && i < |t| && t' == t[i := e] && n <= n'
    requires (Alive(t[i]) && Alive(e) && e.pid == t[i].pid) || forall c {:trigger t[c]} :: 0 <= c < |t| ==>
               t[c].parent != Some(i)
    requires e.pid == t[i].pid || e.pid == 0 || n <= e.pid
    requires EntryOk(t', n', i)
    ensures TableOk(t', n')
  {
    forall j | 0 <= j < |t'| ensures EntryOk(t', n', j) {
      if j != i {
        assert EntryOk(t, n, j) && t'[j] == t[j];
      }
    }
    forall j, k | 0 <= j < |t'| && 0 <= k < |t'| && j != k && t'[j].pid == t'[k].pid ensures t'[j].pid == 0 {
      assert EntryOk(t, n, j) && EntryOk(t, n, k);
      assert t[j].pid == t[k].pid ==> t[j].pid == 0;
    }
  }

  lemma SetWaiters(t: seq<Proc>, i: nat, e: Proc, t': seq<Proc>)
    requires WaitersOk(t) && i < |t| && t' == t[i := e]
    requires Waiting(e) ==> Waiting(t[i]) || NoZombieChild(t', i)
    requires e.state.Zombie? ==> e.parent.Some? && (e.parent.value < |t| ==> !Waiting(t'[e.parent.value]))
    ensures WaitersOk(t')
  {
    forall p, c | 0 <= p < |t'| && 0 <= c < |t'| && Waiting(t'[p]) && t'[c].parent == Some(p)
      ensures !t'[c].state.Zombie?
    {
      assert p != i ==> t'[p] == t[p];
      assert c != i ==> t'[c] == t[c];
    }
  }

  lemma SetHistory(t: seq<Proc>, n: nat, i: nat, e: Proc, t': seq<Proc>, n': nat, exited: map<nat, int>,
                   collected: seq<(nat, int)>)
    requires HistoryOk(t, n, exited, collected) && i < |t| && t' == t[i := e] && n <= n'
    requires t[i].pid !in exited && !e.state.Zombie? && e.pid !in exited
    ensures HistoryOk(t', n', exited, collected)
  {
    forall pid | pid in exited ensures 0 < pid < n' && (InTable(t', pid) || InLog(collected, pid)) {
      if InTable(t, pid) {
        var j :| 0 <= j < |t| && t[j].pid == pid;
        assert t'[j].pid == pid;
      }
    }
    forall k, j | 0 <= k < |collected| && 0 <= j < |t'| ensures collected[k].0 != t'[j].pid {
      assert j != i ==> t'[j] == t[j];
    }
  }

  /** Entries that keep their pid, their exit status and whether they are zombies leave the record of exits as it is. */
  lemma SameHistory(t: seq<Proc>, t': seq<Proc>, n: nat, exited: map<nat, int>, collected: seq<(nat, int)>)
    requires HistoryOk(t, n, exited, collected) && |t'| == |t|
    requires forall i {:trigger t'[i]} :: 0 <= i < |t| ==>
               t'[i].pid == t[i].pid && t'[i].xstate == t[i].xstate && (t'[i].state.Zombie? <==> t[i].state.Zombie?)
    ensures HistoryOk(t', n, exited, collected)
  {
    forall pid | pid in exited ensures 0 < pid < n && (InTable(t', pid) || InLog(collected, pid)) {
      if InTable(t, pid) {
        var j :| 0 <= j < |t| && t[j].pid == pid;
        assert t'[j].pid == pid;
      }
    }
  }

  // ------------------------------------------------------------ every step keeps the invariant

  /** A change between live states, or of the killed flag, in one entry. */
  predicate Calm(e: Proc, e': Proc) {
    && e'.pid == e.pid && e'.parent == e.parent && e'.xstate == e.xstate
    && ((Alive(e) && Alive(e')) || (e'.state == e.state && e'.chan == e.chan))
  }

  /**
   Inside fork and exit nothing is noticed of a change to an entry that stays alive, unless
   somebody goes to sleep in wait.
   */
  lemma CalmPcs(s: State, p: nat, e: Proc, s': State)
    requires Shape(s) && PcsOk(s) && p < NPROC && s' == s.(procs := s.procs[p := e]) && Calm(s.procs[p], e)
    requires Waiting(e) ==> Waiting(s.procs[p]) || s.waitLock == None
    requires s.pcs[p].Exiting? ==> e.state.Running?
    ensures PcsOk(s')
  {
    forall q | 0 <= q < NPROC ensures PcOk(s', q) {
      assert PcOk(s, q);
    }
  }

  lemma CalmStep(s: State, p: nat, e: Proc, s': State)
    requires Inv(s) && p < NPROC && s' == s.(procs := s.procs[p := e]) && Calm(s.procs[p], e)
    requires Waiting(e) ==>
               (Waiting(s.procs[p]) && e.chan == s.procs[p].chan)
                   || (e.chan == WaitChan(p) && NoZombieChild(s.procs, p) && s.waitLock == None)
    requires s.pcs[p].Exiting? ==> e.state.Running?
    ensures Inv(s')
  {
    var t, t' := s.procs, s'.procs;
    assert EntryOk(t, s.nextpid, p);
    if !(Alive(t[p]) && Alive(e)) {
      Childless(t, s.nextpid, p);
    }
    assert EntryOk(t', s.nextpid, p);
    SetEntry(t, s.nextpid, p, e, t', s.nextpid);
    if e.state.Zombie? {
      assert !Waiting(t[t[p].parent.value]);
    }
    SetWaiters(t, p, e, t');
    SameHistory(t, t', s.nextpid, s.exited, s.collected);
    CalmPcs(s, p, e, s');
  }

  /** Only live processes have children. */
  lemma Childless(t: seq<Proc>, n: nat, p: nat)
    requires TableOk(t, n) && p < |t| && !Alive(t[p])
    ensures forall c {:trigger t[c]} :: 0 <= c < |t| ==> t[c].parent != Some(p)
  {
    forall c | 0 <= c < |t| ensures t[c].parent != Some(p) {
      assert EntryOk(t, n, c);
    }
  }

  lemma AllocStep(s: State, p: nat, np: nat, s': State)
    requires Inv(s) && Step(s, Alloc(p, np), s')
    ensures Inv(s')
  {
    var t, e := s.procs, s'.procs[np];
    assert EntryOk(t, s.nextpid, np) && EntryOk(t, s.nextpid, p) && EntryOk(t, s.nextpid, INIT);
    Childless(t, s.nextpid, np);
    assert EntryOk(s'.procs, s'.nextpid, np);
    SetEntry(t, s.nextpid, np, e, s'.procs, s'.nextpid);
    SetWaiters(t, np, e, s'.procs);
    SetHistory(t, s.nextpid, np, e, s'.procs, s'.nextpid, s.exited, s.collected);
    forall q | 0 <= q < NPROC ensures PcOk(s', q) && (q != p && s'.pcs[q].Forking? ==> s'.pcs[q].np != np) {
      assert PcOk(s, q);
    }
  }

  lemma AllocFailStep(s: State, p: nat, s': State)
    requires Inv(s) && Step(s, AllocFail(p), s')
    ensures Inv(s')
  {
    forall i | 0 <= i < NPROC ensures EntryOk(s'.procs, s'.nextpid, i) {
      assert EntryOk(s.procs, s.nextpid, i);
    }
    forall q | 0 <= q < NPROC ensures PcOk(s', q) {
      assert PcOk(s, q);
    }
  }

  lemma ForkFailStep(s: State, p: nat, s': State)
    requires Inv(s) && Step(s, ForkFail(p), s')
    ensures Inv(s')
  {
    var t, np := s.procs, s.pcs[p].np;
    assert PcOk(s, p) && EntryOk(t, s.nextpid, np);
    Childless(t, s.nextpid, np);
    assert EntryOk(s'.procs, s'.nextpid, np);
    SetEntry(t, s.nextpid, np, FREE, s'.procs, s'.nextpid);
    SetWaiters(t, np, FREE, s'.procs);
    SetHistory(t, s.nextpid, np, FREE, s'.procs, s'.nextpid, s.exited, s.collected);
    forall q | 0 <= q < NPROC ensures PcOk(s', q) {
      assert PcOk(s, q);
    }
  }

  lemma ForkLinkStep(s: State, p: nat, s': State)
    requires Inv(s) && Step(s, ForkLink(p), s')
    ensures Inv(s')
  {
    var t, np := s.procs, s.pcs[p].np;
    assert PcOk(s, p) && EntryOk(t, s.nextpid, np);
    Childless(t, s.nextpid, np);
    assert EntryOk(s'.procs, s'.nextpid, np);
    SetEntry(t, s.nextpid, np, s'.procs[np], s'.procs, s'.nextpid);
    SetWaiters(t, np, s'.procs[np], s'.procs);
    SameHistory(t, s'.procs, s.nextpid, s.exited, s.collected);
    forall q | 0 <= q < NPROC ensures PcOk(s', q) {
      assert PcOk(s, q);
    }
  }

  lemma ForkRunStep(s: State, p: nat, s': State)
    requires Inv(s) && Step(s, ForkRun(p), s')
    ensures Inv(s')
  {
    var t, np := s.procs, s.pcs[p].np;
    assert PcOk(s, p) && EntryOk(t, s.nextpid, np);
    Childless(t, s.nextpid, np);
    assert EntryOk(s'.procs, s'.nextpid, np);
    SetEntry(t, s.nextpid, np, s'.procs[np], s'.procs, s'.nextpid);
    SetWaiters(t, np, s'.procs[np], s'.procs);
    SameHistory(t, s'.procs, s.nextpid, s.exited, s.collected);
    forall q | 0 <= q < NPROC ensures PcOk(s', q) {
      assert PcOk(s, q);
    }
  }

  /** Reparenting and the two wakeups keep the tree: the children of p hang under init, which has the smallest pid. */
  lemma ReparentEntry(t: seq<Proc>, n: nat, p: nat, t': seq<Proc>, i: nat)
    requires TableOk(t, n) && p < NPROC && p != INIT && Alive(t[p]) && Reparented(t, t', p) && i < |t'|
    ensures EntryOk(t', n, i)
  {
    assert EntryOk(t, n, INIT);
    assert EntryOk(t, n, i) && t'[i] == Orphaned(t, p, i);
    if t[i].parent.Some? {
      var q := t[i].parent.value;
      assert t'[q] == Orphaned(t, p, q) && t'[INIT] == Orphaned(t, p, INIT);
      assert i != INIT && t[i].pid != 1;
    }
  }

  lemma ReparentTable(t: seq<Proc>, n: nat, p: nat, t': seq<Proc>)
    requires TableOk(t, n) && p < NPROC && p != INIT && Alive(t[p]) && Reparented(t, t', p)
    ensures TableOk(t', n) && forall c {:trigger t'[c]} :: 0 <= c < |t'| ==> t'[c].parent != Some(p)
  {
    forall i | 0 <= i < |t'| ensures EntryOk(t', n, i) {
      ReparentEntry(t, n, p, t', i);
    }
    forall i, j | 0 <= i < |t'| && 0 <= j < |t'| && i != j && t'[i].pid == t'[j].pid ensures t'[i].pid == 0 {
      assert t'[i] == Orphaned(t, p, i) && t'[j] == Orphaned(t, p, j);
    }
    forall c | 0 <= c < |t'| ensures t'[c].parent != Some(p) {
      assert t'[c] == Orphaned(t, p, c);
    }
  }

  lemma ReparentWaiters(t: seq<Proc>, n: nat, p: nat, t': seq<Proc>)
    requires TableOk(t, n) && WaitersOk(t) && p < NPROC && p != INIT && Alive(t[p]) && Reparented(t, t', p)
    ensures WaitersOk(t') && (t'[p].parent.Some? && t'[p].parent.value < |t'| ==> !Waiting(t'[t'[p].parent.value]))
  {
    forall q, c | 0 <= q < |t'| && 0 <= c < |t'| && Waiting(t'[q]) && t'[c].parent == Some(q)
      ensures !t'[c].state.Zombie?
    {
      assert t'[q] == Orphaned(t, p, q) && t'[c] == Orphaned(t, p, c) && EntryOk(t, n, q);
      assert t[c].parent == Some(p) ==> HasChild(t, p);
    }
    assert t'[p] == Orphaned(t, p, p) && EntryOk(t, n, p);
    if t[p].parent.Some? {
      var q := t[p].parent.value;
      assert t'[q] == Orphaned(t, p, q) && EntryOk(t, n, q);
    }
  }

  lemma ExitBeginStep(s: State, p: nat, s': State)
    requires Inv(s) && Step(s, ExitBegin(p), s')
    ensures Inv(s')
  {
    var t, t' := s.procs, s'.procs;
    ReparentTable(t, s.nextpid, p, t');
    ReparentWaiters(t, s.nextpid, p, t');
    SameHistory(t, t', s.nextpid, s.exited, s.collected);
    forall q | 0 <= q < NPROC ensures PcOk(s', q) {
      assert PcOk(s, q) && t'[q] == Orphaned(t, p, q);
      if q == p {
      } else if s.pcs[q].Forking? {
        var np := s.pcs[q].np;
        assert t'[np] == Orphaned(t, p, np);
      }
    }
  }

  lemma ExitEndStep(s: State, p: nat, status: int, s': State)
    requires Inv(s) && Step(s, ExitEnd(p, status), s')
    ensures Inv(s')
  {
    var t, t' := s.procs, s'.procs;
    assert PcOk(s, p) && EntryOk(t, s.nextpid, p);
    assert EntryOk(t', s.nextpid, p);
    SetEntry(t, s.nextpid, p, t'[p], t', s.nextpid);
    SetWaiters(t, p, t'[p], t');
    ZombieHistory(t, s.nextpid, p, status, t', s.exited, s.collected, s'.exited);
    forall q | 0 <= q < NPROC ensures PcOk(s', q) {
      assert PcOk(s, q);
    }
  }

  lemma ZombieHistory(t: seq<Proc>, n: nat, p: nat, status: int, t': seq<Proc>, exited: map<nat, int>,
                      collected: seq<(nat, int)>, exited': map<nat, int>)
    requires TableOk(t, n) && HistoryOk(t, n, exited, collected) && p < |t| && Alive(t[p])
    requires t' == t[p := t[p].(state := Zombie, xstate := status)] && exited' == exited[t[p].pid := status]
    ensures HistoryOk(t', n, exited', collected)
  {
    assert EntryOk(t, n, p);
    forall i | 0 <= i < |t'| && t'[i].pid in exited' ensures t'[i].state.Zombie? && exited'[t'[i].pid] == t'[i].xstate {
      assert i != p ==> t'[i] == t[i];
    }
    forall pid | pid in exited' ensures 0 < pid < n && (InTable(t', pid) || InLog(collected, pid)) {
      if pid == t[p].pid {
        assert t'[p].pid == pid;
      } else if InTable(t, pid) {
        var j :| 0 <= j < |t| && t[j].pid == pid;
        assert t'[j].pid == pid;
      }
    }
  }

  lemma CollectStep(s: State, p: nat, c: nat, s': State)
    requires Inv(s) && Step(s, Collect(p, c), s')
    ensures Inv(s')
  {
    var t, t' := s.procs, s'.procs;
    assert EntryOk(t, s.nextpid, c);
    Childless(t, s.nextpid, c);
    assert c != INIT by {
      assert EntryOk(t, s.nextpid, INIT);
    }
    assert EntryOk(t', s.nextpid, c);
    SetEntry(t, s.nextpid, c, FREE, t', s.nextpid);
    SetWaiters(t, c, FREE, t');
    CollectHistory(t, s.nextpid, c, t', s.exited, s.collected, s'.collected);
    forall q | 0 <= q < NPROC ensures PcOk(s', q) {
      assert PcOk(s, q);
    }
  }

  lemma CollectHistory(t: seq<Proc>, n: nat, c: nat, t': seq<Proc>, exited: map<nat, int>, collected: seq<(nat, int)>,
                       collected': seq<(nat, int)>)
    requires TableOk(t, n) && HistoryOk(t, n, exited, collected) && c < |t| && t[c].state.Zombie?
    requires t' == t[c := FREE] && collected' == collected + [(t[c].pid, t[c].xstate)]
    ensures HistoryOk(t', n, exited, collected')
  {
    assert EntryOk(t, n, c);
    forall k, i | 0 <= k < |collected'| && 0 <= i < |t'| ensures collected'[k].0 != t'[i].pid {
      assert k < |collected| ==> collected'[k] == collected[k];
      assert i != c ==> t'[i] == t[i];
    }
    forall pid | pid in exited ensures 0 < pid < n && (InTable(t', pid) || InLog(collected', pid)) {
      if pid == t[c].pid {
        assert collected'[|collected|].0 == pid;
      } else if InTable(t, pid) {
        var j :| 0 <= j < |t| && t[j].pid == pid;
        assert t'[j].pid == pid;
      } else {
        var k :| 0 <= k < |collected| && collected[k].0 == pid;
        assert collected'[k].0 == pid;
      }
    }
  }

  lemma StepKeepsInv(s: State, e: Event, s': State)
    requires Inv(s) && Step(s, e, s')
    ensures Inv(s')
  {
    match e
    case Alloc(p, np) => AllocStep(s, p, np, s');
    case AllocFail(p) => AllocFailStep(s, p, s');
    case ForkFail(p) => ForkFailStep(s, p, s');
    case ForkLink(p) => ForkLinkStep(s, p, s');
    case ForkRun(p) => ForkRunStep(s, p, s');
    case ExitBegin(p) => ExitBeginStep(s, p, s');
    case ExitEnd(p, status) => ExitEndStep(s, p, status, s');
    case Collect(p, c) => CollectStep(s, p, c, s');
    case WaitSleep(p) => CalmStep(s, p, s'.procs[p], s');
    case Kill(p) =>
      assert PcOk(s, p);
      CalmStep(s, p, s'.procs[p], s');
    case SleepOther(p) => CalmStep(s, p, s'.procs[p], s');
    case WakeOther(p) =>
      assert PcOk(s, p);
      CalmStep(s, p, s'.procs[p], s');
    case Schedule(p) => CalmStep(s, p, s'.procs[p], s');
    case Yield(p) => CalmStep(s, p, s'.procs[p], s');
  }

  // ------------------------------------------------------------ every run

  /** After userinit: only init exists, with pid 1. */
  predicate Start(s: State) {
    && Shape(s) && s.nextpid == 2 && s.waitLock == None && s.exited == map[] && s.collected == []
    && s.procs[INIT] == FREE.(state := Runnable, pid := 1)
    && forall i {:trigger s.procs[i]} {:trigger s.pcs[i]} :: 0 <= i < NPROC ==>
           s.pcs[i] == Idle && (i != INIT ==> s.procs[i] == FREE)
  }

  lemma StartInv(s: State)
    requires Start(s)
    ensures Inv(s)
  {
    forall i | 0 <= i < NPROC ensures EntryOk(s.procs, s.nextpid, i) && PcOk(s, i) {
      assert s.pcs[i] == Idle;
    }
  }

  predicate Run(tr: seq<State>, es: seq<Event>) {
    && |tr| == |es| + 1 && Start(tr[0])
    && forall k {:trigger es[k]} :: 0 <= k < |es| ==> Shape(tr[k]) && Step(tr[k], es[k], tr[k + 1])
  }

  /**
   In every state of every interleaving: a tree of live parents with growing pids, each status
   collected at most once, no waiter asleep beside a zombie child.
   */
  lemma {:induction false} ProcessRun(tr: seq<State>, es: seq<Event>, k: nat)
    requires Run(tr, es) && k < |tr|
    ensures Inv(tr[k])
  {
    if k == 0 {
      StartInv(tr[0]);
    } else {
      ProcessRun(tr, es, k - 1);
      assert Step(tr[k - 1], es[k - 1], tr[k]);
      StepKeepsInv(tr[k - 1], es[k - 1], tr[k]);
    }
  }

  /** Follows parent links to the top; pids shrink on the way, so it ends. */
  function Ancestor(t: seq<Proc>, n: nat, i: nat): (r: nat)
    requires TableOk(t, n) && i < |t|
    ensures r < |t| && t[r].parent == None
    decreases t[i].pid
  {
    assert EntryOk(t, n, i);
    if t[i].parent.None? then i else Ancestor(t, n, t[i].parent.value)
  }

  /** Every live process and every zombie descends from init. */
  lemma {:induction false} DescendsFromInit(t: seq<Proc>, n: nat, i: nat)
    requires TableOk(t, n) && i < |t| && (Alive(t[i]) || t[i].state.Zombie?)
    ensures Ancestor(t, n, i) == INIT
    decreases t[i].pid
  {
    assert EntryOk(t, n, i);
    if i != INIT {
      DescendsFromInit(t, n, t[i].parent.value);
    }
  }

  /** A status is handed out once and is the one the process exited with; until then its zombie keeps it. */
  lemma StatusCollectedOnce(s: State, pid: nat)
    requires Inv(s) && pid in s.exited
    ensures InTable(s.procs, pid) <==> !InLog(s.collected, pid)
    ensures forall j, k {:trigger s.collected[j], s.collected[k]} ::
              0 <= j < |s.collected| && 0 <= k < |s.collected| && s.collected[j].0 == pid && s.collected[k].0 == pid ==>
                j == k && s.collected[j].1 == s.exited[pid]
    ensures forall i {:trigger s.procs[i]} :: 0 <= i < NPROC && s.procs[i].pid == pid ==>
              s.procs[i].state.Zombie? && s.procs[i].xstate == s.exited[pid]
  {
  }
}
