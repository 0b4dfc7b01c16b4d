/**
 The scheduler's scan of the process table with its locks, and the hand-over of
 processes between CPUs. A scan sees each table entry at the moment it holds the
 entry's lock; `seen` is the table as seen that way.
 */
module Sched {
  import opened Params

  datatype Mode = RoundRobin | Fcfs | ByPriority

  datatype Entry = Entry(runnable: bool, ctime: nat, priority: int)

  /** The scan replaces its choice only by a strictly preferred process. */
  predicate Prefers(mode: Mode, a: Entry, b: Entry) {
    match mode
    case RoundRobin => false
    case Fcfs => a.ctime < b.ctime
    case ByPriority => a.priority > b.priority
  }

  /** Slot i comes before slot j: by creation time or priority, and then by slot. */
  predicate Ahead(mode: Mode, seen: seq<Entry>, i: nat, j: nat)
    requires i < |seen| && j < |seen|
  {
    Prefers(mode, seen[i], seen[j]) || (!Prefers(mode, seen[j], seen[i]) && i < j)
  }

  /** i is the runnable process ahead of all other runnable ones. */
  predicate Best(mode: Mode, seen: seq<Entry>, i: nat) {
    && i < |seen| && seen[i].runnable
    && forall j {:trigger seen[j]} :: 0 <= j < |seen| && j != i && seen[j].runnable ==> Ahead(mode, seen, i, j)
  }

  /** There is at most one choice. */
  lemma BestIsUnique(mode: Mode, seen: seq<Entry>, i: nat, j: nat)
    requires Best(mode, seen, i) && Best(mode, seen, j)
    ensures i == j
  {
  }

  /** What the choice is, in each mode. */
  lemma BestMeans(mode: Mode, seen: seq<Entry>, i: nat)
    requires Best(mode, seen, i)
    ensures mode == RoundRobin ==> forall j {:trigger seen[j]} :: 0 <= j < i ==> !seen[j].runnable
    ensures mode == Fcfs ==> Oldest(seen, i)
    ensures mode == ByPriority ==> Foremost(seen, i)
  {
  }

  /** No runnable process was created before slot i's, and of those created with it slot i is the first. */
  predicate Oldest(seen: seq<Entry>, i: nat) {
    && i < |seen| && seen[i].runnable
    && (forall j {:trigger seen[j]} :: 0 <= j < |seen| && seen[j].runnable ==> seen[i].ctime <= seen[j].ctime)
    && (forall j {:trigger seen[j]} :: 0 <= j < i && seen[j].runnable ==> seen[i].ctime < seen[j].ctime)
  }

  /** No runnable process has a higher priority than slot i's, and of those with the same slot i is the first. */
  predicate Foremost(seen: seq<Entry>, i: nat) {
    && i < |seen| && seen[i].runnable
    && (forall j {:trigger seen[j]} :: 0 <= j < |seen| && seen[j].runnable ==> seen[j].priority <= seen[i].priority)
    && (forall j {:trigger seen[j]} :: 0 <= j < i && seen[j].runnable ==> seen[j].priority < seen[i].priority)
  }

  /** A CPU's nesting of spinlocks. */
  class Cpu {
    var noff: nat
    var intena: bool
    var interrupts: bool
    var held: set<nat>

    /** Interrupts are off while any lock is held, and noff counts the locks. */
    predicate Valid()
      reads this
    {
      noff == |held| && (noff > 0 ==> !interrupts)
    }

    /** push_off */
    method PushOff()
      requires noff > 0 ==> !interrupts
      modifies this
      ensures noff == old(noff) + 1 && !interrupts && held == old(held)
              && intena == if old(noff) == 0 then old(interrupts) else old(intena)
    {
      var before := interrupts;
      interrupts := false;
      if noff == 0 {
        intena := before;
      }
      noff := noff + 1;
    }

    /** pop_off; its two panics are ruled out by the requires. */
    method PopOff()
      requires !interrupts && noff >= 1
      modifies this
      ensures noff == old(noff) - 1 && held == old(held) && intena == old(intena) && interrupts == (noff == 0 && intena)
    {
      noff := noff - 1;
      if noff == 0 && intena {
        interrupts := true;
      }
    }

    /** acquire, once the lock is free: locks are taken in ascending order. */
    method Acquire(lock: nat)
      requires Valid() && forall l :: l in held ==> l < lock
      modifies this
      ensures Valid() && held == old(held) + {lock} && intena == if old(noff) == 0 then old(interrupts) else old(intena)
    {
      PushOff();
      held := held + {lock};
    }

    method Release(lock: nat)
      requires Valid() && lock in held
      modifies this
      ensures Valid() && held == old(held) - {lock} && intena == old(intena) && interrupts == (held == {} && intena)
    {
      held := held - {lock};
      PopOff();
    }

    /** The round-robin scan: the first runnable process, its lock kept. */
    method ScanFirst(seen: seq<Entry>) returns (chosen: Option<nat>)
      requires Valid() && |seen| == NPROC && held == {} && interrupts
      modifies this
      ensures Valid() && intena && held == Chosen(chosen) && (interrupts <==> chosen.None?)
      ensures chosen.Some? ==> chosen.value < NPROC && Best(RoundRobin, seen, chosen.value)
      ensures chosen.Some? ==> forall j {:trigger seen[j]} :: 0 <= j < chosen.value ==> !seen[j].runnable
      ensures chosen.None? <==> forall j :: 0 <= j < NPROC ==> !seen[j].runnable
    {
      for p := 0 to NPROC
        invariant Valid() && held == {} && interrupts && (p > 0 ==> intena) && forall j :: 0 <= j < p ==>
                    !seen[j].runnable
      {
        Acquire(p);
        if seen[p].runnable {
          return Some(p);
        }
        Release(p);
      }
      chosen := None;
    }

    /** The scans that compare: only the best process so far stays locked while the next is looked at. */
    method ScanBest(mode: Mode, seen: seq<Entry>) returns (chosen: Option<nat>)
      requires Valid() && |seen| == NPROC && held == {} && interrupts && !mode.RoundRobin?
      modifies this
      ensures Valid() && intena && held == Chosen(chosen) && (interrupts <==> chosen.None?)
      ensures chosen.Some? ==> Best(mode, seen, chosen.value)
      ensures chosen.Some? ==> if mode == Fcfs then Oldest(seen, chosen.value) else Foremost(seen, chosen.value)
      ensures chosen.None? <==> forall j :: 0 <= j < NPROC ==> !seen[j].runnable
    {
      chosen := None;
      for p := 0 to NPROC
        invariant Valid() && (p > 0 ==> intena) && held == Chosen(chosen) && (interrupts <==> chosen.None?)
        invariant chosen.Some? ==> chosen.value < p && Best(mode, seen[..p], chosen.value)
        invariant chosen.None? <==> forall j :: 0 <= j < p ==> !seen[j].runnable
      {
        Acquire(p);
        if seen[p].runnable && (chosen.None? || Prefers(mode, seen[p], seen[chosen.value])) {
          Better(mode, seen, p, chosen);
          if chosen.Some? {
            Release(chosen.value);
          }
          chosen := Some(p);
        } else {
          if chosen.Some? {
            Kept(mode, seen, p, chosen.value);
          }
          Release(p);
        }
      }
      assert seen[..NPROC] == seen;
      if chosen.Some? {
        BestMeans(mode, seen, chosen.value);
      }
    }
  }

  function Chosen(c: Option<nat>): set<nat> {
    if c.Some? then {c.value} else {}
  }

  /** A strictly preferred later process is ahead of everything the earlier choice was ahead of. */
  lemma Better(mode: Mode, seen: seq<Entry>, p: nat, chosen: Option<nat>)
    requires p < |seen| && seen[p].runnable && !mode.RoundRobin?
    requires chosen.Some? ==>
               chosen.value < p && Best(mode, seen[..p], chosen.value) && Prefers(mode, seen[p], seen[chosen.value])
    requires chosen.None? ==> forall j :: 0 <= j < p ==> !seen[j].runnable
    ensures Best(mode, seen[..p + 1], p)
  {
    var shorter, longer := seen[..p], seen[..p + 1];
    forall j | 0 <= j < |longer| && j != p && longer[j].runnable ensures Ahead(mode, longer, p, j) {
      assert shorter[j] == seen[j] && longer[p] == seen[p];
      if j != chosen.value {
        assert Ahead(mode, shorter, chosen.value, j);
      }
    }
  }

  /** The choice stays when the next process is not strictly preferred. */
  lemma Kept(mode: Mode, seen: seq<Entry>, p: nat, c: nat)
    requires c < p < |seen| && Best(mode, seen[..p], c) && !(seen[p].runnable && Prefers(mode, seen[p], seen[c]))
    ensures Best(mode, seen[..p + 1], c)
  {
    var shorter, longer := seen[..p], seen[..p + 1];
    forall j | 0 <= j < |longer| && j != c && longer[j].runnable ensures Ahead(mode, longer, c, j) {
      if j < p {
        assert shorter[j] == seen[j];
        assert Ahead(mode, shorter, c, j);
      }
    }
  }

  // ------------------------------------------------------------ CPUs and processes as steps

  datatype Pstate = Unused | Used | Sleeping | Runnable | Running | Zombie

  datatype Pcb = Pcb(state: Pstate, ctime: nat)

  /**
   A CPU scans the table, having found slots below k not runnable in this pass; or it has chosen a
   process and still holds its lock; or it runs it; or it is on its way back with the lock held.
   */
  datatype Cstate = Scanning(k: nat) | Entering(p: nat) | In(p: nat) | Leaving(p: nat)

  datatype Machine = Machine(procs: seq<Pcb>, locks: seq<Option<nat>>, cpus: seq<Cstate>, ticks: nat)

  datatype Event =
    | Look(c: nat)                    // the scan finds the next slot not runnable and releases its lock
    | Rescan(c: nat)                  // the scan ends without a choice and starts again
    | Pick(c: nat, p: nat)            // under p's lock, RUNNABLE becomes RUNNING
    | Enter(c: nat)                   // the process releases its own lock
    | Leave(c: nat, state: Pstate)    // yield, sleep or exit under p's lock, then sched()
    | Return(c: nat)                  // back in the scheduler: release the lock, start a new scan
    | Wake(p: nat)                    // wakeup or kill, under p's lock
    | Alloc(p: nat)                   // allocproc: an unused slot, stamped with the time
    | Start(p: nat)                   // the last step of fork
    | Reap(p: nat)                    // freeproc, in wait or when fork fails
    | Tick

  predicate Shape(s: Machine) {
    |s.locks| == |s.procs|
  }

  /** Slot p exists, nobody holds its lock, and it is in the given state. */
  predicate Free(s: Machine, p: nat, state: Pstate)
    requires Shape(s)
  {
    p < |s.procs| && s.locks[p] == None && s.procs[p].state == state
  }

  function SetState(s: Machine, p: nat, state: Pstate): Machine
    requires p < |s.procs|
  {
    s.(procs := s.procs[p := s.procs[p].(state := state)])
  }

  predicate Step(s: Machine, e: Event, s': Machine)
    requires Shape(s)
  {
    match e
    case Look(c) =>
      && c < |s.cpus| && s.cpus[c].Scanning? && s.cpus[c].k < |s.procs| && s.locks[s.cpus[c].k] == None
      && !s.procs[s.cpus[c].k].state.Runnable? && s' == s.(cpus := s.cpus[c := Scanning(s.cpus[c].k + 1)])
    case Rescan(c) =>
      && c < |s.cpus| && s.cpus[c].Scanning? && s.cpus[c].k == |s.procs| && s' == s.(cpus := s.cpus[c := Scanning(0)])
    case Pick(c, p) =>
      && c < |s.cpus| && s.cpus[c].Scanning? && s.cpus[c].k <= p && Free(s, p, Runnable)
      && s' == SetState(s, p, Running).(locks := s.locks[p := Some(c)], cpus := s.cpus[c := Entering(p)])
    case Enter(c) =>
      && c < |s.cpus| && s.cpus[c].Entering? && s.cpus[c].p < |s.locks|
      && s' == s.(locks := s.locks[s.cpus[c].p := None], cpus := s.cpus[c := In(s.cpus[c].p)])
    case Leave(c, state) =>
      && c < |s.cpus| && s.cpus[c].In? && s.cpus[c].p < |s.procs| && s.locks[s.cpus[c].p] == None
      && (state.Runnable? || state.Sleeping? || state.Zombie?)
      && s' == SetState(s, s.cpus[c].p, state).(locks := s.locks[s.cpus[c].p := Some(c)],
                                                cpus := s.cpus[c := Leaving(s.cpus[c].p)])
    case Return(c) =>
      && c < |s.cpus| && s.cpus[c].Leaving? && s.cpus[c].p < |s.locks|
      && s' == s.(locks := s.locks[s.cpus[c].p := None], cpus := s.cpus[c := Scanning(0)])
    case Wake(p) => Free(s, p, Sleeping) && s' == SetState(s, p, Runnable)
    case Alloc(p) => Free(s, p, Unused) && s' == s.(procs := s.procs[p := Pcb(Used, s.ticks)])
    case Start(p) => Free(s, p, Used) && s' == SetState(s, p, Runnable)
    case Reap(p) => (Free(s, p, Zombie) || Free(s, p, Used)) && s' == SetState(s, p, Unused)
    case Tick => s' == s.(ticks := s.ticks + 1)
  }

  // ------------------------------------------------------------ no process on two CPUs

  predicate CpuOk(s: Machine, c: nat)
    requires Shape(s) && c < |s.cpus|
  {
    match s.cpus[c]
    case Scanning(k) => k <= |s.procs|
    case Entering(p) => p < |s.procs| && s.locks[p] == Some(c) && s.procs[p].state.Running?
    case In(p) => p < |s.procs| && s.locks[p] != Some(c) && s.procs[p].state.Running?
    case Leaving(p) =>
      && p < |s.procs| && s.locks[p] == Some(c)
      && (s.procs[p].state.Runnable? || s.procs[p].state.Sleeping? || s.procs[p].state.Zombie?)
  }

  /** The process a CPU is using the kernel stack of. */
  function On(c: Cstate): Option<nat> {
    if c.Scanning? then None else Some(c.p)
  }

  predicate Somewhere(s: Machine, p: nat) {
    exists c :: 0 <= c < |s.cpus| && On(s.cpus[c]) == Some(p)
  }

  predicate ProcOk(s: Machine, p: nat)
    requires Shape(s) && p < |s.procs|
  {
    && (s.locks[p].Some? ==> s.locks[p].value < |s.cpus| && On(s.cpus[s.locks[p].value]) == Some(p))
    && (s.procs[p].state.Running? ==> Somewhere(s, p))
  }

  predicate Apart(s: Machine, c: nat, d: nat)
    requires c < |s.cpus| && d < |s.cpus|
  {
    On(s.cpus[c]) == None || On(s.cpus[c]) != On(s.cpus[d])
  }

  /** No process is on two CPUs, a running one is on some CPU, and its state changes only under its lock. */
  predicate Inv(s: Machine) {
    && Shape(s)
    && (forall c {:trigger CpuOk(s, c)} :: 0 <= c < |s.cpus| ==> CpuOk(s, c))
    && (forall p {:trigger ProcOk(s, p)} :: 0 <= p < |s.procs| ==> ProcOk(s, p))
    && (forall c, d {:trigger Apart(s, c, d)} :: 0 <= c < |s.cpus| && 0 <= d < |s.cpus| && c != d ==> Apart(s, c, d))
  }

  /** A step leaves every other CPU with what it had, since that CPU's process is locked by it or running. */
  lemma StepCpu(s: Machine, e: Event, s': Machine, c: nat)
    requires Inv(s) && Step(s, e, s') && c < |s.cpus|
    ensures |s'.cpus| == |s.cpus| && Shape(s') && CpuOk(s', c)
  {
    assert CpuOk(s, c);
    if e.Enter? || e.Leave? || e.Return? {
      assert CpuOk(s, e.c) && (c != e.c ==> Apart(s, e.c, c));
    }
  }

  lemma StepProc(s: Machine, e: Event, s': Machine, p: nat)
    requires Inv(s) && Step(s, e, s') && p < |s.procs|
    ensures |s'.procs| == |s.procs| && Shape(s') && ProcOk(s', p)
  {
    assert ProcOk(s, p);
    if s'.procs[p].state.Running? {
      if e.Pick? && e.p == p {
        assert On(s'.cpus[e.c]) == Some(p);
      } else {
        var c :| 0 <= c < |s.cpus| && On(s.cpus[c]) == Some(p);
        assert CpuOk(s, c);
        assert On(s'.cpus[c]) == Some(p);
      }
    }
  }

  lemma StepApart(s: Machine, e: Event, s': Machine, c: nat, d: nat)
    requires Inv(s) && Step(s, e, s') && c < |s.cpus| && d < |s.cpus| && c != d
    ensures |s'.cpus| == |s.cpus| && Apart(s', c, d)
  {
    assert Apart(s, c, d) && CpuOk(s, c) && CpuOk(s, d);
  }

  lemma StepKeepsInv(s: Machine, e: Event, s': Machine)
    requires Inv(s) && Step(s, e, s')
    ensures Inv(s') && |s'.cpus| == |s.cpus| && |s'.procs| == |s.procs|
  {
    forall c | 0 <= c < |s'.cpus| ensures CpuOk(s', c) {
      StepCpu(s, e, s', c);
    }
    forall p | 0 <= p < |s'.procs| ensures ProcOk(s', p) {
      StepProc(s, e, s', p);
    }
    forall c, d | 0 <= c < |s'.cpus| && 0 <= d < |s'.cpus| && c != d ensures Apart(s', c, d) {
      StepApart(s, e, s', c, d);
    }
  }

  /** After boot: one process is runnable, nothing is locked, and every CPU enters its scheduler. */
  predicate Boot(s: Machine) {
    && Shape(s) && 0 < |s.procs| && s.procs[0].state.Runnable?
    && (forall p {:trigger s.procs[p]} {:trigger s.locks[p]} :: 0 <= p < |s.procs| ==>
          s.locks[p] == None && (p > 0 ==> s.procs[p].state.Unused?))
    && (forall c {:trigger s.cpus[c]} :: 0 <= c < |s.cpus| ==> s.cpus[c] == Scanning(0))
  }

  lemma BootInv(s: Machine)
    requires Boot(s)
    ensures Inv(s)
  {
    forall p | 0 <= p < |s.procs| ensures ProcOk(s, p) {
      assert s.locks[p] == None;
    }
  }

  ghost predicate Run(tr: seq<Machine>, es: seq<Event>) {
    && |tr| == |es| + 1 && Boot(tr[0])
    && forall k {:trigger es[k]} :: 0 <= k < |es| ==> Shape(tr[k]) && Step(tr[k], es[k], tr[k + 1])
  }

  lemma {:induction false} RunKeepsInv(tr: seq<Machine>, es: seq<Event>, k: nat)
    requires Run(tr, es) && k < |tr|
    ensures Inv(tr[k]) && |tr[k].cpus| == |tr[0].cpus| && |tr[k].procs| == |tr[0].procs|
  {
    if k == 0 {
      BootInv(tr[0]);
    } else {
      RunKeepsInv(tr, es, k - 1);
      assert Step(tr[k - 1], es[k - 1], tr[k]);
      StepKeepsInv(tr[k - 1], es[k - 1], tr[k]);
    }
  }

  /**
   In every state of every run from boot no process is RUNNING on, or giving up, two CPUs at once,
   though slots are freed and reused.
   */
  lemma OneCpuEach(tr: seq<Machine>, es: seq<Event>, k: nat, c: nat, d: nat)
    requires Run(tr, es) && k < |tr| && c < |tr[k].cpus| && d < |tr[k].cpus| && c != d
    ensures On(tr[k].cpus[c]) == None || On(tr[k].cpus[c]) != On(tr[k].cpus[d])
  {
    RunKeepsInv(tr, es, k);
    assert Apart(tr[k], c, d);
  }

  // ------------------------------------------------------------ one CPU, first come first served

  /**
   The slots that became runnable since the scheduler last looked at them. A scan looks at each slot it
   passes; the choice looks at all remaining slots at once, because on one CPU nothing runs from the moment
   the scan keeps a process locked, interrupts being off.
   */
  function NewlyAfter(newly: set<nat>, s: Machine, e: Event): set<nat> {
    match e
    case Wake(p) => newly + {p}
    case Start(p) => newly + {p}
    case Look(c) => if c < |s.cpus| && s.cpus[c].Scanning? then newly - {s.cpus[c].k} else newly
    case Pick(c, _) => if c < |s.cpus| && s.cpus[c].Scanning? then set j | j in newly && j < s.cpus[c].k else newly
    case _ => newly
  }

  function Newly(tr: seq<Machine>, es: seq<Event>, n: nat): set<nat>
    requires n <= |es| < |tr|
  {
    if n == 0 then {} else NewlyAfter(Newly(tr, es, n - 1), tr[n - 1], es[n - 1])
  }

  predicate Wakes(e: Event, j: nat) {
    (e.Wake? || e.Start?) && e.p == j
  }

  /** The step looks at slot j: a scan passes it, or a choice is made from slots that include it. */
  predicate LooksAt(s: Machine, e: Event, j: nat) {
    && (e.Look? || e.Pick?) && e.c < |s.cpus| && s.cpus[e.c].Scanning?
    && if e.Look? then s.cpus[e.c].k == j else s.cpus[e.c].k <= j
  }

  predicate WokenUnseen(tr: seq<Machine>, es: seq<Event>, n: nat, m: nat, j: nat)
    requires n <= |es| < |tr|
  {
    m < n && Wakes(es[m], j) && forall i {:trigger es[i]} :: m < i < n ==> !LooksAt(tr[i], es[i], j)
  }

  /** Membership, said of the events: j was made runnable and no later step looked at it. */
  lemma {:induction false} NewlyMeans(tr: seq<Machine>, es: seq<Event>, n: nat, j: nat)
    requires n <= |es| < |tr|
    ensures j in Newly(tr, es, n) <==> exists m :: WokenUnseen(tr, es, n, m, j)
  {
    if n > 0 {
      NewlyMeans(tr, es, n - 1, j);
      if Wakes(es[n - 1], j) {
        assert WokenUnseen(tr, es, n, n - 1, j);
      } else if j in Newly(tr, es, n) {
        var m :| WokenUnseen(tr, es, n - 1, m, j);
        assert WokenUnseen(tr, es, n, m, j);
      } else if j in Newly(tr, es, n - 1) {
        assert LooksAt(tr[n - 1], es[n - 1], j);
      } else {
        forall m ensures !WokenUnseen(tr, es, n, m, j) {
          assert !WokenUnseen(tr, es, n - 1, m, j);
        }
      }
    }
  }

  /** The table as the part of the scan that starts at slot k sees it. */
  function Table(procs: seq<Pcb>, k: nat): (r: seq<Entry>)
    ensures |r| == |procs|
    ensures forall j {:trigger r[j]} :: 0 <= j < |r| ==>
              r[j].ctime == procs[j].ctime && (r[j].runnable <==> k <= j && procs[j].state.Runnable?)
  {
    seq(|procs|, j requires 0 <= j < |procs| => Entry(k <= j && procs[j].state.Runnable?, procs[j].ctime, 0))
  }

  predicate Earlier(s: Machine, i: nat, j: nat)
    requires i < |s.procs| && j < |s.procs|
  {
    s.procs[i].ctime < s.procs[j].ctime || (s.procs[i].ctime == s.procs[j].ctime && i < j)
  }

  /** A run of a machine with one CPU in which each choice is the best entry of what the scan sees. */
  ghost predicate FcfsRun(tr: seq<Machine>, es: seq<Event>) {
    && Run(tr, es) && |tr[0].cpus| == 1
    && forall k {:trigger es[k]} :: 0 <= k < |es| && es[k].Pick? ==>
         && |tr[k].cpus| == 1 && tr[k].cpus[0].Scanning?
         && Best(Fcfs, Table(tr[k].procs, tr[k].cpus[0].k), es[k].p)
  }

  /** What the scan has passed is not runnable unless it became so since, and what became runnable still is. */
  predicate Passed(s: Machine, newly: set<nat>) {
    && |s.cpus| == 1
    && (forall j {:trigger j in newly} :: j in newly ==> j < |s.procs| && s.procs[j].state.Runnable?)
    && (s.cpus[0].Scanning? ==>
          forall j {:trigger s.procs[j]} :: 0 <= j < s.cpus[0].k && j < |s.procs| && s.procs[j].state.Runnable? ==>
                j in newly)
  }

  /** p was chosen last and has not blocked: whoever is ahead of it became runnable since it was last looked at. */
  predicate Leads(s: Machine, newly: set<nat>, p: nat) {
    && |s.cpus| == 1 && p < |s.procs|
    && (match s.cpus[0]
        case Scanning(k) => k <= p && s.procs[p].state.Runnable?
        case _ => s.cpus[0].p == p && (s.cpus[0].Leaving? ==> s.procs[p].state.Runnable?))
    && forall j {:trigger s.procs[j]} :: 0 <= j < |s.procs| && j != p && s.procs[j].state.Runnable? && j !in newly ==>
           !Earlier(s, j, p)
  }

  lemma StepPassed(s: Machine, newly: set<nat>, e: Event, s': Machine)
    requires Inv(s) && Passed(s, newly) && Step(s, e, s')
    ensures Passed(s', NewlyAfter(newly, s, e))
  {
    assert CpuOk(s, 0);
  }

  lemma StepLeads(s: Machine, newly: set<nat>, e: Event, s': Machine, p: nat)
    requires Inv(s) && Passed(s, newly) && Leads(s, newly, p) && Step(s, e, s')
    requires !e.Pick? && (e.Leave? ==> e.state == Runnable)
    ensures Leads(s', NewlyAfter(newly, s, e), p)
  {
    assert CpuOk(s, 0);
  }

  lemma PickLeads(s: Machine, newly: set<nat>, e: Event, s': Machine)
    requires Inv(s) && Passed(s, newly) && Step(s, e, s') && e.Pick? && s.cpus[0].Scanning?
    requires Best(Fcfs, Table(s.procs, s.cpus[0].k), e.p)
    ensures Leads(s', NewlyAfter(newly, s, e), e.p)
  {
    var k, newly', seen := s.cpus[0].k, NewlyAfter(newly, s, e), Table(s.procs, s.cpus[0].k);
    forall j | 0 <= j < |s'.procs| && j != e.p && s'.procs[j].state.Runnable? && j !in newly'
      ensures !Earlier(s', j, e.p)
    {
      assert s.procs[j].state.Runnable?;
      assert seen[j].runnable && Ahead(Fcfs, seen, e.p, j);
    }
  }

  lemma {:induction false} RunPassed(tr: seq<Machine>, es: seq<Event>, n: nat)
    requires FcfsRun(tr, es) && n < |tr|
    ensures Inv(tr[n]) && Passed(tr[n], Newly(tr, es, n))
  {
    RunKeepsInv(tr, es, n);
    if n > 0 {
      RunPassed(tr, es, n - 1);
      assert Step(tr[n - 1], es[n - 1], tr[n]);
      StepPassed(tr[n - 1], Newly(tr, es, n - 1), es[n - 1], tr[n]);
    }
  }

  /** Between the choices at a and b the process chosen at a gave up the CPU only by yielding. */
  predicate OnlyYields(es: seq<Event>, a: nat, b: nat) {
    && a < b < |es| && es[a].Pick? && es[b].Pick?
    && forall m {:trigger es[m]} :: a < m < b ==> !es[m].Pick? && (es[m].Leave? ==> es[m].state == Runnable)
  }

  lemma {:induction false} RunLeads(tr: seq<Machine>, es: seq<Event>, a: nat, b: nat, n: nat)
    requires FcfsRun(tr, es) && OnlyYields(es, a, b) && a < n <= b
    ensures Leads(tr[n], Newly(tr, es, n), es[a].p)
  {
    RunPassed(tr, es, n - 1);
    assert Step(tr[n - 1], es[n - 1], tr[n]);
    if n == a + 1 {
      PickLeads(tr[a], Newly(tr, es, a), es[a], tr[n]);
    } else {
      RunLeads(tr, es, a, b, n - 1);
      StepLeads(tr[n - 1], Newly(tr, es, n - 1), es[n - 1], tr[n], es[a].p);
    }
  }

  /** The scan sees some process that became runnable since it was last looked at and is earlier than p. */
  predicate Overtaken(s: Machine, newly: set<nat>, p: nat)
    requires |s.cpus| == 1 && s.cpus[0].Scanning? && p < |s.procs|
  {
    exists j :: j in newly && s.cpus[0].k <= j < |s.procs| && Earlier(s, j, p)
  }

  /**
   In every run on one CPU, when a process yields the next one chosen is the same process exactly unless
   a process with an earlier creation time became runnable since the scheduler last looked at it.
   */
  lemma YieldReturns(tr: seq<Machine>, es: seq<Event>, a: nat, b: nat)
    requires FcfsRun(tr, es) && OnlyYields(es, a, b)
    ensures |tr[b].cpus| == 1 && tr[b].cpus[0].Scanning? && es[a].p < |tr[b].procs|
    ensures es[b].p == es[a].p <==> !Overtaken(tr[b], Newly(tr, es, b), es[a].p)
  {
    RunPassed(tr, es, b);
    RunLeads(tr, es, a, b, b);
    assert es[b].Pick?;
    var s, newly, p, k := tr[b], Newly(tr, es, b), es[a].p, tr[b].cpus[0].k;
    var seen := Table(s.procs, k);
    if Overtaken(s, newly, p) {
      var j :| j in newly && k <= j < |s.procs| && Earlier(s, j, p);
      assert seen[j].runnable && !Ahead(Fcfs, seen, p, j);
    } else {
      forall j | 0 <= j < |seen| && j != p && seen[j].runnable ensures Ahead(Fcfs, seen, p, j) {
        assert s.procs[j].state.Runnable? && !Earlier(s, j, p);
      }
      assert Best(Fcfs, seen, p);
      BestIsUnique(Fcfs, seen, p, es[b].p);
    }
  }
}
