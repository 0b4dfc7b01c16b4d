/**
 The table-scanning loops of proc.c on the process array itself, each proved to
 make the table change of the corresponding step.
 */
module Proc {
  import opened Params
  import opened ProcModel

  /** What one pass of wait() over the table comes to. */
  datatype Waited = Got(slot: nat, pid: nat, status: int) | Fault | Nothing | Sleep

  /** Slots below k hold what reparent has made of them so far. */
  ghost predicate Passed(t0: seq<ProcModel.Proc>, t: seq<ProcModel.Proc>, p: nat, k: nat)
    requires |t| == |t0| && k <= |t0|
  {
    forall i {:trigger t[i]} :: 0 <= i < |t0| ==> t[i] == Adopted(t0, p, k, i)
  }

  /** Entry i after reparent(p) has scanned k slots. */
  ghost function Adopted(t: seq<ProcModel.Proc>, p: nat, k: nat, i: nat): ProcModel.Proc
    requires i < |t| && k <= |t|
  {
    var e := if i < k && t[i].parent == Some(p) then t[i].(parent := Some(INIT)) else t[i];
    if HasChildBelow(t, p, k) then Woken(e, INIT) else e
  }

  ghost predicate HasChildBelow(t: seq<ProcModel.Proc>, p: nat, k: nat)
    requires k <= |t|
  {
    exists i :: 0 <= i < k && t[i].parent == Some(p)
  }

  class Table {
    const procs: array<ProcModel.Proc>
    var nextpid: nat

    predicate Valid()
      reads this
    {
      procs.Length == NPROC
    }

    /** The table as it was is the table of state s. */
    twostate predicate WasIn(s: State)
      reads this, procs
    {
      Shape(s) && s.procs == old(procs[..]) && s.nextpid == old(nextpid)
    }

    /** The table as it is, put into state s. */
    ghost function Now(s: State): State
      reads this, procs
    {
      s.(procs := procs[..], nextpid := nextpid)
    }

    /** Every sleeper on c other than the caller becomes runnable. */
    method Wakeup(c: nat, me: nat)
      requires Valid()
      modifies procs
      ensures forall i :: 0 <= i < NPROC ==> procs[i] == if i == me then old(procs[i]) else Woken(old(procs[i]), c)
    {
      for i := 0 to NPROC
        invariant forall j :: 0 <= j < i ==> procs[j] == if j == me then old(procs[j]) else Woken(old(procs[j]), c)
        invariant forall j :: i <= j < NPROC ==> procs[j] == old(procs[j])
      {
        if i != me && procs[i].state.Sleeping? && procs[i].chan == WaitChan(c) {
          procs[i] := procs[i].(state := Runnable);
        }
      }
    }

    /** Children of p pass to init, which is woken if there are any. */
    method Reparent(p: nat)
      requires Valid() && p < NPROC && procs[p].state.Running? && procs[p].parent != Some(p)
      modifies procs
      ensures Passed(old(procs[..]), procs[..], p, NPROC)
    {
      ghost var t0 := procs[..];
      for i := 0 to NPROC
        invariant Passed(t0, procs[..], p, i)
      {
        assert procs[..][i] == Adopted(t0, p, i, i) && procs[..][p] == Adopted(t0, p, i, p);
        if procs[i].parent == Some(p) {
          procs[i] := procs[i].(parent := Some(INIT));
          Wakeup(INIT, p);
        }
        Advance(t0, p, i);
      }
    }

    /** The part of exit that runs before the process turns into a zombie. */
    method ExitBegin(p: nat)
      requires Valid() && p < NPROC && procs[p].state.Running? && procs[p].parent != Some(p)
      modifies procs
      ensures Reparented(old(procs[..]), procs[..], p)
      ensures forall s {:trigger WasIn(s)} :: WasIn(s) && Ready(s, p) && p != INIT && s.waitLock == None ==>
                Step(s, Event.ExitBegin(p), Now(s).(waitLock := Some(p), pcs := s.pcs[p := Exiting]))
    {
      ghost var t0 := procs[..];
      Reparent(p);
      assert procs[..][p] == Adopted(t0, p, NPROC, p);
      ghost var t1 := procs[..];
      if procs[p].parent.Some? {
        Wakeup(procs[p].parent.value, p);
      }
      forall i | 0 <= i < NPROC ensures procs[i] == Orphaned(t0, p, i) {
        assert t1[i] == Adopted(t0, p, NPROC, i);
      }
    }

    /** The first unused slot, with a new pid. */
    method Allocproc() returns (np: Option<nat>)
      requires Valid()
      modifies this, procs
      ensures np.None? ==> unchanged(this) && procs[..] == old(procs[..]) && forall i :: 0 <= i < NPROC ==>
                !procs[i].state.Unused?
      ensures np.Some? ==>
                && np.value < NPROC && old(procs[np.value]).state.Unused? && nextpid == old(nextpid) + 1
                && procs[..] == old(procs[..])[np.value := old(procs[np.value]).(state := Used, pid := old(nextpid))]
                && forall i :: 0 <= i < np.value ==> !procs[i].state.Unused?
      ensures forall s: State, p: nat {:trigger WasIn(s), Ready(s, p)} :: np.Some? && WasIn(s) && Ready(s, p) ==>
                Step(s, Alloc(p, np.value), Now(s).(pcs := s.pcs[p := Forking(np.value, false)]))
    {
      for i := 0 to NPROC
        invariant forall j :: 0 <= j < i ==> !procs[j].state.Unused?
      {
        if procs[i].state.Unused? {
          procs[i] := procs[i].(state := Used, pid := nextpid);
          nextpid := nextpid + 1;
          return Some(i);
        }
      }
      np := None;
    }

    /** One pass of wait() for process p: the first zombie child is freed unless its status cannot be copied out. */
    method Wait(p: nat, copyFails: bool) returns (w: Waited)
      requires Valid() && p < NPROC
      modifies procs
      ensures w.Got? ==>
                && !copyFails && w.slot < NPROC && old(procs[w.slot]).parent == Some(p)
                && old(procs[w.slot]).state.Zombie?
                && (w.pid, w.status) == (old(procs[w.slot]).pid, old(procs[w.slot]).xstate)
                && procs[..] == old(procs[..])[w.slot := FREE]
                && forall i :: 0 <= i < w.slot && old(procs[i]).parent == Some(p) ==> !old(procs[i]).state.Zombie?
      ensures w.Fault? ==> copyFails && procs[..] == old(procs[..]) && !NoZombieChild(procs[..], p)
      ensures w.Nothing? ==>
                && procs[..] == old(procs[..]) && NoZombieChild(procs[..], p)
                && (!HasChild(procs[..], p) || procs[p].killed)
      ensures w.Sleep? ==>
                && NoZombieChild(old(procs[..]), p) && HasChild(old(procs[..]), p) && !old(procs[p]).killed
                && procs[..] == old(procs[..])[p := old(procs[p]).(state := Sleeping, chan := WaitChan(p))]
      ensures forall s {:trigger WasIn(s)} :: WasIn(s) && Ready(s, p) && s.waitLock == None ==>
                match w
                case Got(slot, pid, status) => Step(s, Collect(p, slot),
                                                    Now(s).(collected := s.collected + [(pid, status)]))
                case Sleep => Step(s, WaitSleep(p), Now(s))
                case _ => Now(s) == s
    {
      var havekids := false;
      for i := 0 to NPROC
        invariant procs[..] == old(procs[..])
        invariant havekids <==> exists j :: 0 <= j < i && procs[j].parent == Some(p)
        invariant forall j :: 0 <= j < i && procs[j].parent == Some(p) ==> !procs[j].state.Zombie?
      {
        if procs[i].parent == Some(p) {
          havekids := true;
          if procs[i].state.Zombie? {
            if copyFails {
              assert procs[..][i].state.Zombie?;
              return Fault;
            }
            w := Got(i, procs[i].pid, procs[i].xstate);
            procs[i] := FREE;
            return;
          }
        }
      }
      assert HasChild(procs[..], p) <==> havekids by {
        if havekids {
          var j :| 0 <= j < NPROC && procs[j].parent == Some(p);
          assert procs[..][j].parent == Some(p);
        }
      }
      if !havekids || procs[p].killed {
        return Nothing;
      }
      procs[p] := procs[p].(state := Sleeping, chan := WaitChan(p));
      w := Sleep;
    }

    /** kill(pid): the first slot with that pid is marked, and woken if asleep. */
    method Kill(pid: nat) returns (slot: Option<nat>)
      requires Valid()
      modifies procs
      ensures slot.None? ==> procs[..] == old(procs[..]) && forall i :: 0 <= i < NPROC ==> procs[i].pid != pid
      ensures slot.Some? ==>
                && First(old(procs[..]), pid, slot.value)
                && procs[..] == old(procs[..])[slot.value := Killed(old(procs[..])[slot.value])]
      ensures forall s {:trigger WasIn(s)} :: WasIn(s) ==>
                if slot.Some? then Step(s, Event.Kill(slot.value), Now(s)) else Now(s) == s
    {
      for i := 0 to NPROC
        invariant procs[..] == old(procs[..]) && forall j :: 0 <= j < i ==> procs[j].pid != pid
      {
        if procs[i].pid == pid {
          procs[i] := procs[i].(killed := true);
          if procs[i].state.Sleeping? {
            procs[i] := procs[i].(state := Runnable);
          }
          return Some(i);
        }
      }
      slot := None;
    }
  }

  function Killed(e: ProcModel.Proc): ProcModel.Proc {
    e.(killed := true, state := if e.state.Sleeping? then Runnable else e.state)
  }

  predicate First(t: seq<ProcModel.Proc>, pid: nat, i: nat) {
    i < |t| && t[i].pid == pid && forall j :: 0 <= j < i ==> t[j].pid != pid
  }

  /** Scanning one more slot. */
  lemma Advance(t: seq<ProcModel.Proc>, p: nat, k: nat)
    requires k < |t|
    ensures HasChildBelow(t, p, k + 1) <==> HasChildBelow(t, p, k) || t[k].parent == Some(p)
  {
    if t[k].parent == Some(p) {
      assert HasChildBelow(t, p, k + 1);
    }
    if HasChildBelow(t, p, k) {
      var i :| 0 <= i < k && t[i].parent == Some(p);
      assert i < k + 1;
    }
  }
}
