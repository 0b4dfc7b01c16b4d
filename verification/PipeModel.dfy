/**
 A pipe as an unbounded byte history with a window of at most PIPESIZE bytes,
 and the processes asleep on its two channels. One event is one stretch of code
 that runs under the pipe's lock; events of different processes interleave freely.
 */
module PipeModel {

  const PIPESIZE: nat := 512

  type Byte = b: int | 0 <= b < 256

  /** The channel a process sleeps on: &pi->nread or &pi->nwrite. */
  datatype Chan = Nread | Nwrite

  datatype Pipe = Pipe(stored: seq<Byte>, taken: seq<Byte>, readopen: bool, writeopen: bool, asleep: map<nat, Chan>)

  /**
   What a stretch of pipewrite or piperead ends with: it returns a value, or its process goes to
   sleep having done some bytes.
   */
  datatype Outcome = Return(value: int) | Asleep(done: nat)

  predicate Full(s: Pipe) { |s.stored| == |s.taken| + PIPESIZE }
  predicate Empty(s: Pipe) { |s.stored| == |s.taken| }

  function Wake(s: Pipe, c: Chan): Pipe {
    s.(asleep := map p | p in s.asleep && s.asleep[p] != c :: s.asleep[p])
  }

  function Sleep(s: Pipe, p: nat, c: Chan): Pipe {
    s.(asleep := s.asleep[p := c])
  }

  /**
   The loop of pipewrite for process p from byte i of src on. `kill` is the number of bytes after
   which the process finds itself killed, if it does; copying in fails at byte `fault`.
   */
  function WriteFrom(s: Pipe, p: nat, src: seq<Byte>, i: nat, kill: int, fault: nat): (Pipe, Outcome)
    requires i <= |src|
    decreases |src| - i
  {
    if i == |src| then (Wake(s, Nread), Return(i))
    else if !s.readopen || kill == 0 then (s, Return(-1))
    else if Full(s) then (Sleep(Wake(s, Nread), p, Nwrite), Asleep(i))
    else if i == fault then (Wake(s, Nread), Return(i))
    else WriteFrom(s.(stored := s.stored + [src[i]]), p, src, i + 1, kill - 1, fault)
  }

  /** The copy loop of piperead: a byte whose copying out fails is taken but not counted. */
  function ReadFrom(s: Pipe, n: nat, i: nat, fault: nat): (Pipe, Outcome)
    decreases |s.stored| - |s.taken|
  {
    if i >= n || |s.stored| <= |s.taken| then (Wake(s, Nwrite), Return(i))
    else
      var s' := s.(taken := s.taken + [s.stored[|s.taken|]]);
      if i == fault then (Wake(s', Nwrite), Return(i)) else ReadFrom(s', n, i + 1, fault)
  }

  /** piperead from the head of its waiting loop to its return or its sleep. */
  function Read(s: Pipe, p: nat, n: nat, killed: bool, fault: nat): (Pipe, Outcome) {
    if Empty(s) && s.writeopen then
      if killed then (s, Return(-1)) else (Sleep(s, p, Nread), Asleep(0))
    else ReadFrom(s, n, 0, fault)
  }

  function Close(s: Pipe, writable: bool): Pipe {
    if writable then Wake(s.(writeopen := false), Nread) else Wake(s.(readopen := false), Nwrite)
  }

  /** kill(): a sleeping victim becomes runnable. */
  function Kill(s: Pipe, p: nat): Pipe {
    s.(asleep := s.asleep - {p})
  }

  datatype Event =
    | DoWrite(p: nat, src: seq<Byte>, i: nat, kill: int, fault: nat)
    | DoRead(p: nat, n: nat, killed: bool, readFault: nat)
    | DoClose(writable: bool)
    | DoKill(p: nat)

  /** A process that runs is not asleep, and it writes from a place inside its buffer. */
  predicate Enabled(s: Pipe, e: Event) {
    match e
    case DoWrite(p, src, i, _, _) => p !in s.asleep && i <= |src|
    case DoRead(p, _, _, _) => p !in s.asleep
    case _ => true
  }

  function Step(s: Pipe, e: Event): Pipe
    requires Enabled(s, e)
  {
    match e
    case DoWrite(p, src, i, kill, fault) => WriteFrom(s, p, src, i, kill, fault).0
    case DoRead(p, n, killed, fault) => Read(s, p, n, killed, fault).0
    case DoClose(w) => Close(s, w)
    case DoKill(p) => Kill(s, p)
  }

  // ------------------------------------------------------------ the invariant

  /** Bytes come out in the order they went in, and at most PIPESIZE wait. */
  predicate Fifo(s: Pipe) {
    s.taken <= s.stored && |s.stored| <= |s.taken| + PIPESIZE
  }

  /** A sleeping writer has a full pipe that can still be read; a sleeping reader's writers may still come. */
  predicate Sleepers(s: Pipe) {
    && (forall p :: p in s.asleep && s.asleep[p] == Nwrite ==> Full(s) && s.readopen)
    && (forall p :: p in s.asleep && s.asleep[p] == Nread ==> s.writeopen)
  }

  /** No reader sleeps although there are bytes to read. */
  predicate NoneMissed(s: Pipe) {
    forall p :: p in s.asleep && s.asleep[p] == Nread ==> Empty(s)
  }

  predicate Inv(s: Pipe) { Fifo(s) && Sleepers(s) }

  predicate SomeReader(s: Pipe) {
    exists p :: p in s.asleep && s.asleep[p] == Nread
  }

  /** How many bytes the loop stores before it stops for lack of source, of room or of a readable source byte. */
  function Room(s: Pipe, src: seq<Byte>, i: nat, fault: nat): int {
    var a := |src| - i;
    var b := |s.taken| + PIPESIZE - |s.stored|;
    var c := if fault >= i then fault - i else |src| - i;
    if a <= b && a <= c then a else if b <= c then b else c
  }

  /**
   The early return: the process finds itself killed after it has stored some bytes of this
   stretch, short of the end.
   */
  predicate KilledMidway(s: Pipe, src: seq<Byte>, i: nat, kill: int, fault: nat) {
    s.readopen && 0 < kill && kill <= Room(s, src, i, fault) && i + kill < |src|
  }

  /** Nobody has been woken on this channel. */
  predicate Unwoken(s: Pipe, s': Pipe, c: Chan) {
    forall q :: q in s.asleep && s.asleep[q] == c ==> q in s'.asleep && s'.asleep[q] == c
  }

  /** What a stretch of pipewrite leaves: how many bytes went in, who was woken, who sleeps. */
  lemma {:induction false} WriteEffect(s: Pipe, p: nat, src: seq<Byte>, i: nat, kill: int, fault: nat)
    requires Inv(s) && i <= |src| && p !in s.asleep
    ensures var (s', o) := WriteFrom(s, p, src, i, kill, fault);
            && Inv(s') && s'.taken == s.taken && s'.readopen == s.readopen && s'.writeopen == s.writeopen
            && s.stored <= s'.stored
            && |s'.stored| - |s.stored| <= |src| - i && s'.stored == s.stored + src[i..i + (|s'.stored| - |s.stored|)]
            && Unwoken(s, s', Nwrite)
            && (o.Asleep? ==> p in s'.asleep && o.done - i == |s'.stored| - |s.stored|)
            && (o.Return? ==>
                  s'.asleep.Keys <= s.asleep.Keys && (o.value == -1 || o.value - i == |s'.stored| - |s.stored|))
    decreases |src| - i
  {
    if i < |src| && s.readopen && kill != 0 && !Full(s) && i != fault {
      var s1 := s.(stored := s.stored + [src[i]]);
      WriteEffect(s1, p, src, i + 1, kill - 1, fault);
      var (s', o) := WriteFrom(s1, p, src, i + 1, kill - 1, fault);
      var n := |s'.stored| - |s1.stored|;
      assert src[i..i + 1 + n] == [src[i]] + src[i + 1..i + 1 + n];
    }
  }

  /**
   pipewrite returns -1 exactly when the read side is closed or the kill comes before the loop
   stops by itself, and only then wakes nobody.
   */
  lemma {:induction false} EarlyReturn(s: Pipe, p: nat, src: seq<Byte>, i: nat, kill: int, fault: nat)
    requires Inv(s) && i <= |src| && p !in s.asleep
    ensures var (s', o) := WriteFrom(s, p, src, i, kill, fault);
            && (o == Return(-1)
                <==> i < |src| && (!s.readopen || (0 <= kill <= Room(s, src, i, fault) && i + kill < |src|)))
            && (o == Return(-1) ==> s'.asleep == s.asleep && |s'.stored| - |s.stored| == if s.readopen then kill else 0)
            && (o != Return(-1) ==> !SomeReader(s'))
    decreases |src| - i
  {
    if i < |src| && s.readopen && kill != 0 && !Full(s) && i != fault {
      var s1 := s.(stored := s.stored + [src[i]]);
      EarlyReturn(s1, p, src, i + 1, kill - 1, fault);
    }
  }

  /** How many more bytes the pipe can hold. */
  function Space(s: Pipe): int {
    |s.taken| + PIPESIZE - |s.stored|
  }

  /**
   What a stretch of pipewrite comes to: the writer sleeps exactly when the pipe fills up before its bytes are
   in, it is not killed until then and can read its bytes that far; otherwise it is woken for good, with all
   its bytes in or those before the one it cannot read.
   */
  predicate WriteEnds(s: Pipe, src: seq<Byte>, i: nat, kill: int, fault: nat, o: Outcome) {
    && (o.Asleep? <==>
          && s.readopen && Space(s) < |src| - i && !(0 <= kill <= Space(s))
          && !(i <= fault < i + Space(s)))
    && (o.Asleep? ==> o.done == i + Space(s))
    && (o == Return(-1) <==> i < |src| && (!s.readopen || (0 <= kill <= Room(s, src, i, fault) && i + kill < |src|)))
    && (o.Return? && o.value != -1 ==> o.value == if i <= fault < |src| then fault else |src|)
  }

  lemma {:induction false} WriteOutcome(s: Pipe, p: nat, src: seq<Byte>, i: nat, kill: int, fault: nat)
    requires |s.taken| <= |s.stored| <= |s.taken| + PIPESIZE && i <= |src|
    ensures WriteEnds(s, src, i, kill, fault, WriteFrom(s, p, src, i, kill, fault).1)
    decreases |src| - i
  {
    if i < |src| && s.readopen && kill != 0 && !Full(s) && i != fault {
      WriteOutcome(s.(stored := s.stored + [src[i]]), p, src, i + 1, kill - 1, fault);
    }
  }

  /** The copy to the caller's memory fails at a byte the loop reaches: some byte waits to be read there. */
  predicate CopyFails(s: Pipe, n: nat, i: nat, fault: nat) {
    i <= fault < n && fault - i < |s.stored| - |s.taken|
  }

  /** How many bytes the read loop reports: it stops at n, at an empty pipe or at the byte it cannot copy out. */
  function Available(s: Pipe, n: nat, i: nat, fault: nat): int {
    var waiting := |s.stored| - |s.taken|;
    if n <= i then 0 else if CopyFails(s, n, i, fault) then fault - i else if n - i <= waiting then n - i else waiting
  }

  /** A read takes what it reports, in order; it takes one byte more exactly when a copy fails. */
  lemma {:induction false} ReadEffect(s: Pipe, n: nat, i: nat, fault: nat)
    requires Fifo(s)
    ensures var (s', o) := ReadFrom(s, n, i, fault);
            && Fifo(s') && s'.stored == s.stored && s'.readopen == s.readopen && s'.writeopen == s.writeopen
            && s.taken <= s'.taken && Unwoken(s, s', Nread)
            && (forall q :: q in s'.asleep ==> q in s.asleep && s.asleep[q] == s'.asleep[q] == Nread)
            && o.Return? && o.value - i == Available(s, n, i, fault)
            && (|s'.taken| - |s.taken| == o.value - i + 1 <==> CopyFails(s, n, i, fault))
            && (|s'.taken| - |s.taken| == o.value - i <==> !CopyFails(s, n, i, fault))
    decreases |s.stored| - |s.taken|
  {
    if i < n && |s.stored| > |s.taken| {
      var s' := s.(taken := s.taken + [s.stored[|s.taken|]]);
      assert s'.taken <= s'.stored;
      if i != fault {
        ReadEffect(s', n, i + 1, fault);
      }
    }
  }

  /**
   What a stretch of piperead comes to: the reader waits exactly for a pipe that is empty and may still be
   written, and is not killed; otherwise it gets what is there, up to n bytes.
   */
  predicate ReadEnds(s: Pipe, n: nat, killed: bool, fault: nat, o: Outcome) {
    var waiting := |s.stored| - |s.taken|;
    && (o.Asleep? <==> waiting == 0 && s.writeopen && !killed)
    && (o.Asleep? ==> o.done == 0)
    && (o.Return? && o.value < 0 <==> waiting == 0 && s.writeopen && killed)
    && (o.Return? && o.value < 0 ==> o.value == -1)
    && (o.Return? && o.value >= 0 ==>
          o.value == if fault < n && fault < waiting then fault else if n <= waiting then n else waiting)
  }

  lemma ReadOutcome(s: Pipe, p: nat, n: nat, killed: bool, fault: nat)
    requires Fifo(s)
    ensures ReadEnds(s, n, killed, fault, Read(s, p, n, killed, fault).1)
  {
    ReadEffect(s, n, 0, fault);
  }

  /** piperead as a whole loses a byte exactly when a byte waits that it cannot copy out. */
  lemma ByteLost(s: Pipe, p: nat, n: nat, killed: bool, fault: nat)
    requires Fifo(s) && p !in s.asleep
    ensures var (s', o) := Read(s, p, n, killed, fault);
            && s.taken <= s'.taken <= s'.stored
            && (o.Return? && |s'.taken| - |s.taken| > (if o.value < 0 then 0 else o.value)
                <==> CopyFails(s, n, 0, fault))
  {
    ReadEffect(s, n, 0, fault);
  }

  // ------------------------------------------------------------ every run

  /** Every event keeps the order of bytes and the meaning of sleeping, and never forgets a byte. */
  lemma StepKeepsInv(s: Pipe, e: Event)
    requires Inv(s) && Enabled(s, e)
    ensures Inv(Step(s, e)) && s.stored <= Step(s, e).stored && s.taken <= Step(s, e).taken
  {
    match e
    case DoWrite(p, src, i, kill, fault) => WriteEffect(s, p, src, i, kill, fault);
    case DoRead(p, n, killed, fault) => ReadEffect(s, n, 0, fault);
    case _ =>
  }

  /** The only events that can leave a reader asleep beside unread bytes. */
  predicate Forgets(s: Pipe, e: Event) {
    e.DoWrite? && SomeReader(s) && KilledMidway(s, e.src, e.i, e.kill, e.fault)
  }

  /** A wakeup is lost exactly by a writer that is killed part of the way through while a reader sleeps. */
  lemma LostExactlyWhenForgotten(s: Pipe, e: Event)
    requires Inv(s) && Enabled(s, e) && NoneMissed(s)
    ensures NoneMissed(Step(s, e)) <==> !Forgets(s, e)
  {
    match e
    case DoWrite(p, src, i, kill, fault) =>
      EarlyReturn(s, p, src, i, kill, fault);
      WriteEffect(s, p, src, i, kill, fault);
    case DoRead(p, n, killed, fault) => ReadEffect(s, n, 0, fault);
    case _ =>
  }

  predicate Runs(s: Pipe, es: seq<Event>)
    decreases |es|
  {
    es == [] || (Enabled(s, es[0]) && Runs(Step(s, es[0]), es[1..]))
  }

  function After(s: Pipe, es: seq<Event>): Pipe
    requires Runs(s, es)
    decreases |es|
  {
    if es == [] then s else After(Step(s, es[0]), es[1..])
  }

  /** No event of the run is a forgetful write. */
  predicate NeverForgets(s: Pipe, es: seq<Event>)
    requires Runs(s, es)
    decreases |es|
  {
    es == [] || (!Forgets(s, es[0]) && NeverForgets(Step(s, es[0]), es[1..]))
  }

  const NEW_PIPE := Pipe([], [], true, true, map[])

  /**
   Over every interleaving: bytes removed are a prefix of bytes stored, at most PIPESIZE wait, and
   sleepers have reason to sleep.
   */
  lemma {:induction false} PipeRun(s: Pipe, es: seq<Event>)
    requires Inv(s) && Runs(s, es)
    ensures Inv(After(s, es)) && (NoneMissed(s) && NeverForgets(s, es) ==> NoneMissed(After(s, es)))
    decreases |es|
  {
    if es != [] {
      StepKeepsInv(s, es[0]);
      if NoneMissed(s) {
        LostExactlyWhenForgotten(s, es[0]);
      }
      PipeRun(Step(s, es[0]), es[1..]);
    }
  }

  /** A pipe is freed when both ends are closed, and then nobody sleeps on it. */
  lemma FreedPipeHasNoSleepers(es: seq<Event>)
    requires Runs(NEW_PIPE, es) && !After(NEW_PIPE, es).readopen && !After(NEW_PIPE, es).writeopen
    ensures After(NEW_PIPE, es).asleep == map[]
  {
    PipeRun(NEW_PIPE, es);
  }

  lemma OneEvent(s: Pipe, e: Event)
    requires Enabled(s, e)
    ensures Runs(s, [e]) && After(s, [e]) == Step(s, e)
  {
    assert [e][1..] == [];
  }

  lemma TwoEvents(a: Event, b: Event)
    ensures [a, b][1..] == [b] && [a, b][..1] == [a] && [a][1..] == [] && [b][1..] == []
  {
  }

  /** The lost wakeup happens: a reader sleeps, a writer of two bytes is killed after the first. */
  lemma WakeupLost()
    ensures var es := [DoRead(1, 8, false, 8), DoWrite(2, [65, 66], 0, 1, 2)];
            Runs(NEW_PIPE, es) && !NoneMissed(After(NEW_PIPE, es))
  {
    var e1, e2 := DoRead(1, 8, false, 8), DoWrite(2, [65, 66], 0, 1, 2);
    var s1 := Step(NEW_PIPE, e1);
    assert s1.asleep == map[1 := Nread] && 1 in s1.asleep;
    var s2 := s1.(stored := [65]);
    assert WriteFrom(s2, 2, [65, 66], 1, 0, 2) == (s2, Return(-1));
    assert s1.stored + [65] == [65];
    assert Step(s1, e2) == s2;
    TwoEvents(e1, e2);
    OneEvent(s1, e2);
    assert 1 in s2.asleep && s2.asleep[1] == Nread && !Empty(s2);
  }

  /** It happens: of two bytes written, a read that cannot copy the first reports no byte and removes one. */
  lemma ByteLostHappens()
    ensures var es := [DoWrite(2, [65, 66], 0, 2, 2), DoRead(1, 2, false, 0)];
            && Runs(NEW_PIPE, es) && Read(After(NEW_PIPE, es[..1]), 1, 2, false, 0).1 == Return(0)
            && After(NEW_PIPE, es).stored == [65, 66] && After(NEW_PIPE, es).taken == [65]
  {
    var e1, e2 := DoWrite(2, [65, 66], 0, 2, 2), DoRead(1, 2, false, 0);
    var s1 := NEW_PIPE.(stored := [65]);
    var s2 := NEW_PIPE.(stored := [65, 66]);
    assert [65] + [66] == [65, 66] && NEW_PIPE.stored + [65] == [65];
    assert WriteFrom(s2, 2, [65, 66], 2, 0, 2).0 == s2;
    assert WriteFrom(s1, 2, [65, 66], 1, 1, 2).0 == s2;
    assert Step(NEW_PIPE, e1) == s2;
    var s3 := s2.(taken := [65]);
    assert s2.taken + [65] == [65];
    assert Step(s2, e2) == s3;
    TwoEvents(e1, e2);
    OneEvent(NEW_PIPE, e1);
    OneEvent(s2, e2);
  }
}
