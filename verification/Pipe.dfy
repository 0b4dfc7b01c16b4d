/**
 The pipe itself: a ring of PIPESIZE bytes with 32-bit counters that wrap. Each
 method is one stretch of pipe.c under the pipe's lock, proved equal to the
 corresponding step on the unbounded byte history.
 */
module Pipe {
  import opened PipeModel

  const WORD: nat := 0x1_0000_0000

  lemma ModWord(x: nat, q: nat, b: nat)
    requires x == WORD * q + b && b < WORD
    ensures x % WORD == b
  {
  }

  lemma ModSize(x: nat, q: nat, b: nat)
    requires x == PIPESIZE * q + b && b < PIPESIZE
    ensures x % PIPESIZE == b
  {
  }

  lemma LowBits(x: nat)
    ensures x % WORD % PIPESIZE == x % PIPESIZE
  {
    var m := x % WORD;
    ModSize(x, 8388608 * (x / WORD) + m / PIPESIZE, m % PIPESIZE);
  }

  lemma Next(x: nat)
    ensures (x % WORD + 1) % WORD == (x + 1) % WORD
  {
    var m := x % WORD;
    if m + 1 < WORD {
      ModWord(x + 1, x / WORD, m + 1);
    } else {
      ModWord(x + 1, x / WORD + 1, 0);
    }
  }

  /** Two counters at most PIPESIZE apart. */
  lemma Apart(w: nat, r: nat)
    requires r <= w <= r + PIPESIZE
    ensures w % WORD == (r % WORD + PIPESIZE) % WORD <==> w == r + PIPESIZE
    ensures r % WORD == w % WORD <==> r == w
  {
    var m, d := r % WORD, w - r;
    if m + d < WORD {
      ModWord(w, r / WORD, m + d);
    } else {
      ModWord(w, r / WORD + 1, m + d - WORD);
    }
  }

  /** Counters are compared and used as indices only through their low bits, so wrapping is invisible. */
  lemma Counters(w: nat, r: nat)
    requires r <= w <= r + PIPESIZE
    ensures w % WORD == (r % WORD + PIPESIZE) % WORD <==> w == r + PIPESIZE
    ensures r % WORD == w % WORD <==> r == w
    ensures w % WORD % PIPESIZE == w % PIPESIZE && r % WORD % PIPESIZE == r % PIPESIZE
    ensures (w % WORD + 1) % WORD == (w + 1) % WORD && (r % WORD + 1) % WORD == (r + 1) % WORD
  {
    Apart(w, r);
    LowBits(w);
    LowBits(r);
    Next(w);
    Next(r);
  }

  /** Places less than PIPESIZE apart are different slots of the ring. */
  lemma Slots(j: nat, k: nat)
    requires j < k < j + PIPESIZE
    ensures j % PIPESIZE != k % PIPESIZE
  {
  }

  class Ring {
    const data: array<Byte>
    var nread: nat
    var nwrite: nat
    var readopen: bool
    var writeopen: bool
    var asleep: map<nat, Chan>
    ghost var stored: seq<Byte>
    ghost var taken: seq<Byte>

    /** The byte history that the ring and its counters stand for. */
    ghost function Abs(): PipeModel.Pipe
      reads this
    {
      PipeModel.Pipe(stored, taken, readopen, writeopen, asleep)
    }

    /** The window of stored but not yet taken bytes is what the ring holds. */
    ghost predicate Valid()
      reads this, data
    {
      && data.Length == PIPESIZE && Fifo(Abs())
      && nread == |taken| % WORD && nwrite == |stored| % WORD
      && forall k {:trigger stored[k]} :: |taken| <= k < |stored| ==> data[k % PIPESIZE] == stored[k]
    }

    constructor ()
      ensures Valid() && fresh(data) && Abs() == NEW_PIPE
    {
      data := new Byte[PIPESIZE](_ => 0);
      nread, nwrite, readopen, writeopen := 0, 0, true, true;
      asleep, stored, taken := map[], [], [];
    }

    /** pi->data[pi->nwrite++ % PIPESIZE] = ch */
    method Put(ch: Byte)
      requires Valid() && !Full(Abs())
      modifies `nwrite, `stored, data
      ensures Valid() && Abs() == old(Abs()).(stored := old(stored) + [ch])
    {
      Counters(|stored|, |taken|);
      forall k | |taken| <= k < |stored| ensures k % PIPESIZE != |stored| % PIPESIZE {
        Slots(k, |stored|);
      }
      data[nwrite % PIPESIZE] := ch;
      nwrite := (nwrite + 1) % WORD;
      stored := stored + [ch];
    }

    /** ch = pi->data[pi->nread++ % PIPESIZE] */
    method Get() returns (ch: Byte)
      requires Valid() && !Empty(Abs())
      modifies `nread, `taken
      ensures Valid() && Abs() == old(Abs()).(taken := old(taken) + [ch])
    {
      Counters(|stored|, |taken|);
      assert stored[|taken|] == data[|taken| % PIPESIZE];
      ch := data[nread % PIPESIZE];
      nread := (nread + 1) % WORD;
      taken := taken + [ch];
    }

    method Wakeup(c: Chan)
      modifies `asleep
      ensures Abs() == Wake(old(Abs()), c)
    {
      asleep := map p | p in asleep && asleep[p] != c :: asleep[p];
    }

    /** A stretch of pipewrite from byte i of src on, until it returns or sleeps. */
    method Write(p: nat, src: seq<Byte>, start: nat, kill: int, fault: nat) returns (o: Outcome)
      requires Valid() && start <= |src|
      modifies this, data
      ensures Valid() && (Abs(), o) == WriteFrom(old(Abs()), p, src, start, kill, fault)
      ensures WriteEnds(old(Abs()), src, start, kill, fault, o)
    {
      WriteOutcome(Abs(), p, src, start, kill, fault);
      var i, k := start, kill;
      while i < |src|
        invariant start <= i <= |src| && Valid()
        invariant WriteFrom(old(Abs()), p, src, start, kill, fault) == WriteFrom(Abs(), p, src, i, k, fault)
      {
        Counters(|stored|, |taken|);
        if !readopen || k == 0 {
          return Return(-1);
        }
        if nwrite == (nread + PIPESIZE) % WORD {
          Wakeup(Nread);
          asleep := asleep[p := Nwrite];
          return Asleep(i);
        }
        if i == fault {
          break;
        }
        Put(src[i]);
        i, k := i + 1, k - 1;
      }
      Wakeup(Nread);
      o := Return(i);
    }

    /** A stretch of piperead, until it returns or sleeps, with the bytes it delivered. */
    method Read(p: nat, n: nat, killed: bool, fault: nat) returns (o: Outcome, out: seq<Byte>)
      requires Valid()
      modifies this
      ensures Valid() && (Abs(), o) == PipeModel.Read(old(Abs()), p, n, killed, fault)
      ensures ReadEnds(old(Abs()), n, killed, fault, o)
      ensures old(taken) + out <= old(stored)
      ensures o.Return? && o.value >= 0 ==> |out| == o.value
    {
      ReadOutcome(Abs(), p, n, killed, fault);
      out := [];
      Counters(|stored|, |taken|);
      if nread == nwrite && writeopen {
        if killed {
          return Return(-1), [];
        }
        asleep := asleep[p := Nread];
        return Asleep(0), [];
      }
      var i := 0;
      while i < n
        invariant 0 <= i <= n && Valid() && stored == old(stored)
        invariant ReadFrom(old(Abs()), n, 0, fault) == ReadFrom(Abs(), n, i, fault)
        invariant |out| == i && taken == old(taken) + out
      {
        Counters(|stored|, |taken|);
        if nread == nwrite {
          break;
        }
        var ch := Get();
        if i == fault {
          break;
        }
        out := out + [ch];
        i := i + 1;
      }
      Wakeup(Nwrite);
      o := Return(i);
    }

    /** pipeclose; the pipe's page is freed when the result is true. */
    method Close(writable: bool) returns (gone: bool)
      requires Valid()
      modifies this
      ensures Valid() && Abs() == PipeModel.Close(old(Abs()), writable) && gone == (!readopen && !writeopen)
      ensures Enabled(old(Abs()), DoClose(writable)) && Abs() == Step(old(Abs()), DoClose(writable))
      ensures readopen == (old(readopen) && writable) && writeopen == (old(writeopen) && !writable)
    {
      if writable {
        writeopen := false;
        Wakeup(Nread);
      } else {
        readopen := false;
        Wakeup(Nwrite);
      }
      gone := !readopen && !writeopen;
    }
  }
}
