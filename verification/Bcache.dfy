/**
 The buffer cache list of bio.c: a circular doubly linked list through prev/next,
 kept in order of last use, searched by bget and reordered by brelse. Index NBUF
 of the pointer arrays is the list head.
 */
module Bcache {
  import opened Params

  datatype Buf = Buf(dev: nat, blockno: nat, valid: bool, refcnt: nat)

  // ------------------------------------------------------------ the ring, as values

  /** Position i of the ring: the head, the buffers in order, and the head again. */
  function Cell(head: nat, order: seq<nat>, i: nat): nat
    requires i <= |order| + 1
  {
    if i == 0 || i == |order| + 1 then head else order[i - 1]
  }

  /** Positions i and i + 1 are linked both ways. */
  predicate Link(next: seq<nat>, prev: seq<nat>, head: nat, order: seq<nat>, i: nat)
    requires i <= |order|
  {
    && Cell(head, order, i) < |next| && Cell(head, order, i + 1) < |prev|
    && next[Cell(head, order, i)] == Cell(head, order, i + 1)
    && prev[Cell(head, order, i + 1)] == Cell(head, order, i)
  }

  /** next and prev walk the same ring, of distinct buffers, in opposite directions. */
  predicate Linked(next: seq<nat>, prev: seq<nat>, head: nat, order: seq<nat>) {
    && |next| == |prev| == head + 1
    && (forall i :: 0 <= i < |order| ==> order[i] < head)
    && (forall i, j :: 0 <= i < j < |order| ==> order[i] != order[j])
    && (forall i :: 0 <= i <= |order| ==> Link(next, prev, head, order, i))
  }

  /** The sequence without its i-th element. */
  function Remove(order: seq<nat>, i: nat): (r: seq<nat>)
    requires i < |order|
    ensures |r| == |order| - 1
    ensures forall b :: b in r ==> b in order
  {
    seq(|order| - 1, k requires 0 <= k < |order| - 1 => if k < i then order[k] else order[k + 1])
  }

  /** The first two assignments of brelse take a buffer out of the ring. */
  lemma Unlink(next: seq<nat>, prev: seq<nat>, head: nat, order: seq<nat>, i: nat)
    requires Linked(next, prev, head, order) && i < |order|
    ensures order[i] < |next| && next[order[i]] < |prev| && prev[order[i]] < |next|
    ensures var b := order[i];
            Linked(next[prev[b] := next[b]], prev[next[b] := prev[b]], head, Remove(order, i))
    ensures order[i] !in Remove(order, i)
  {
    assert Link(next, prev, head, order, i) && Link(next, prev, head, order, i + 1);
    var b, r := order[i], Remove(order, i);
    var next', prev' := next[prev[b] := next[b]], prev[next[b] := prev[b]];
    forall k | 0 <= k <= |r| ensures Link(next', prev', head, r, k) {
      if k < i {
        assert Link(next, prev, head, order, k);
      } else {
        assert Link(next, prev, head, order, k + 1);
      }
    }
  }

  /** next after b is put between the head and the front. */
  function NextFront(next: seq<nat>, head: nat, b: nat): seq<nat>
    requires b < head < |next|
  {
    var a: seq<nat> := next[b := next[head]];
    a[head := b]
  }

  /** prev after b is put between the head and the old front. */
  function PrevFront(prev: seq<nat>, head: nat, front: nat, b: nat): seq<nat>
    requires b < |prev| && front < |prev|
  {
    var a: seq<nat> := prev[b := head];
    a[front := b]
  }

  /** The assignments that put a buffer at the front, in binit and brelse. */
  lemma InsertFront(next: seq<nat>, prev: seq<nat>, head: nat, order: seq<nat>, b: nat)
    requires Linked(next, prev, head, order) && b < head && b !in order
    ensures next[head] < |prev|
    ensures Linked(NextFront(next, head, b), PrevFront(prev, head, next[head], b), head, [b] + order)
  {
    assert Link(next, prev, head, order, 0);
    var r := [b] + order;
    var next', prev' := NextFront(next, head, b), PrevFront(prev, head, next[head], b);
    forall k | 0 <= k <= |r| ensures Link(next', prev', head, r, k) {
      if k > 1 {
        assert Link(next, prev, head, order, k - 1);
      }
    }
  }

  /** Every buffer is on the list. */
  predicate Complete(order: seq<nat>, n: nat) {
    forall b :: 0 <= b < n ==> b in order
  }

  lemma MoveFrontComplete(order: seq<nat>, i: nat, n: nat)
    requires i < |order| && Complete(order, n)
    ensures Complete([order[i]] + Remove(order, i), n)
  {
    var r := [order[i]] + Remove(order, i);
    forall b | 0 <= b < n ensures b in r {
      assert b in order;
      var k :| 0 <= k < |order| && order[k] == b;
      assert b == if k < i then r[k + 1] else if k == i then r[0] else r[k];
    }
  }

  // ------------------------------------------------------------ the cache

  /** No block is cached twice; only never-used buffers share the initial (0, 0). */
  predicate Unique(bufs: seq<Buf>) {
    forall i, j :: 0 <= i < j < |bufs| && bufs[i].dev == bufs[j].dev && bufs[i].blockno == bufs[j].blockno ==>
      bufs[i].dev == 0 && bufs[i].blockno == 0
  }

  predicate Matches(c: Buf, dev: nat, blockno: nat) {
    c.dev == dev && c.blockno == blockno
  }

  /** List order is reverse order of last move to the front. */
  predicate Recency(order: seq<nat>, moved: seq<nat>) {
    && (forall i :: 0 <= i < |order| ==> order[i] < |moved|)
    && (forall i, j :: 0 <= i < j < |order| ==> moved[order[i]] > moved[order[j]])
  }

  lemma MoveFrontRecency(order: seq<nat>, i: nat, moved: seq<nat>, now: nat)
    requires i < |order| && Recency(order, moved)
    requires forall i, j :: 0 <= i < j < |order| ==> order[i] != order[j]
    requires forall k :: 0 <= k < |moved| ==> moved[k] < now
    ensures Recency([order[i]] + Remove(order, i), moved[order[i] := now])
  {
  }

  datatype BgetResult = Found(b: nat) | Recycled(b: nat) | NoBuffers

  /** A walk of the whole list has seen every buffer. */
  lemma OnList(order: seq<nat>, dev: nat, blockno: nat, bufs: seq<Buf>)
    requires |bufs| == NBUF && Complete(order, NBUF) && forall i :: 0 <= i < |order| ==> order[i] < NBUF
    requires forall k :: 0 <= k < |order| ==> !Matches(bufs[order[k]], dev, blockno)
    ensures forall i :: 0 <= i < NBUF ==> !Matches(bufs[i], dev, blockno)
  {
    forall i | 0 <= i < NBUF ensures !Matches(bufs[i], dev, blockno) {
      assert i in order;
    }
  }

  lemma AllBusy(order: seq<nat>, bufs: seq<Buf>)
    requires |bufs| == NBUF && Complete(order, NBUF) && forall i :: 0 <= i < |order| ==> order[i] < NBUF
    requires forall k :: 0 <= k < |order| ==> bufs[order[k]].refcnt > 0
    ensures forall i :: 0 <= i < NBUF ==> bufs[i].refcnt > 0
  {
    forall i | 0 <= i < NBUF ensures bufs[i].refcnt > 0 {
      assert i in order;
    }
  }

  /** The last unused buffer on the list is the unused one least recently moved to the front. */
  lemma Oldest(order: seq<nat>, moved: seq<nat>, bufs: seq<Buf>, i: nat)
    requires |bufs| == NBUF && Complete(order, NBUF) && Recency(order, moved) && |moved| == NBUF && i < |order|
    requires forall k :: i < k < |order| ==> bufs[order[k]].refcnt > 0
    ensures forall c :: 0 <= c < NBUF && c != order[i] && bufs[c].refcnt == 0 ==> moved[order[i]] < moved[c]
  {
    forall c | 0 <= c < NBUF && c != order[i] && bufs[c].refcnt == 0 ensures moved[order[i]] < moved[c] {
      assert c in order;
      var k :| 0 <= k < |order| && order[k] == c;
    }
  }

  class Bcache {
    const next: array<nat>
    const prev: array<nat>
    const buf: array<Buf>
    ghost var order: seq<nat>     // head.next ... head.prev
    ghost var moved: seq<nat>     // when each buffer was last moved to the front
    ghost var now: nat

    ghost predicate Valid()
      reads this, next, prev, buf
    {
      && next != prev && buf.Length == NBUF
      && Linked(next[..], prev[..], NBUF, order)
      && |order| == NBUF && Complete(order, NBUF)
      && Unique(buf[..])
      && |moved| == NBUF && Recency(order, moved) && (forall k :: 0 <= k < NBUF ==> moved[k] < now)
    }

    /** binit. */
    constructor ()
      ensures Valid() && fresh(next) && fresh(prev) && fresh(buf)
      ensures forall i :: 0 <= i < NBUF ==> buf[i] == Buf(0, 0, false, 0)
      ensures forall i :: 0 <= i < NBUF ==> order[i] == NBUF - 1 - i
    {
      next := new nat[NBUF + 1](_ => NBUF);
      prev := new nat[NBUF + 1](_ => NBUF);
      buf := new Buf[NBUF](_ => Buf(0, 0, false, 0));
      order := [];
      moved, now := seq(NBUF, i => i), NBUF;
      new;
      assert Linked(next[..], prev[..], NBUF, []);
      var b: nat := 0;
      while b < NBUF
        invariant 0 <= b <= NBUF && |order| == b && next.Length == prev.Length == NBUF + 1
        invariant Linked(next[..], prev[..], NBUF, order)
        invariant forall i :: 0 <= i < b ==> order[i] == b - 1 - i
        invariant moved == seq(NBUF, i => i) && now == NBUF
        invariant forall i :: 0 <= i < NBUF ==> buf[i] == Buf(0, 0, false, 0)
      {
        ghost var nx, pv := next[..], prev[..];
        InsertFront(nx, pv, NBUF, order, b);
        next[b] := next[NBUF];
        prev[b] := NBUF;
        prev[next[NBUF]] := b;
        next[NBUF] := b;
        assert next[..] == NextFront(nx, NBUF, b) && prev[..] == PrevFront(pv, NBUF, nx[NBUF], b);
        order := [b] + order;
        b := b + 1;
      }
      forall i | 0 <= i < NBUF ensures i in order {
        assert order[NBUF - 1 - i] == i;
      }
    }

    /** bget's first walk: the buffer of the block, or the head if it is not cached. */
    method Lookup(dev: nat, blockno: nat) returns (b: nat)
      requires Valid()
      ensures b < NBUF ==> Matches(buf[b], dev, blockno)
      ensures b >= NBUF ==> forall i :: 0 <= i < NBUF ==> !Matches(buf[i], dev, blockno)
    {
      b := next[NBUF];
      ghost var i: nat := 0;
      assert Link(next[..], prev[..], NBUF, order, 0);
      while b != NBUF
        invariant 0 <= i <= NBUF && b == Cell(NBUF, order, i + 1)
        invariant forall k :: 0 <= k < i ==> !Matches(buf[order[k]], dev, blockno)
        decreases NBUF - i
      {
        if buf[b].dev == dev && buf[b].blockno == blockno {
          return;
        }
        assert Link(next[..], prev[..], NBUF, order, i + 1);
        b := next[b];
        i := i + 1;
      }
      OnList(order, dev, blockno, buf[..]);
    }

    /** bget's second walk, backwards: the unused buffer least recently moved to the front. */
    method Victim() returns (b: nat)
      requires Valid()
      ensures b < NBUF ==> buf[b].refcnt == 0
      ensures b < NBUF ==> forall c :: 0 <= c < NBUF && c != b && buf[c].refcnt == 0 ==> moved[b] < moved[c]
      ensures b >= NBUF ==> forall i :: 0 <= i < NBUF ==> buf[i].refcnt > 0
    {
      b := prev[NBUF];
      assert Link(next[..], prev[..], NBUF, order, NBUF);
      ghost var i := NBUF;
      while b != NBUF
        invariant 0 <= i <= NBUF && b == Cell(NBUF, order, i)
        invariant forall k :: i <= k < NBUF ==> buf[order[k]].refcnt > 0
        decreases i
      {
        if buf[b].refcnt == 0 {
          Oldest(order, moved, buf[..], i - 1);
          return;
        }
        assert Link(next[..], prev[..], NBUF, order, i - 1);
        b := prev[b];
        i := i - 1;
      }
      AllBusy(order, buf[..]);
    }

    /** Found in the cache, recycled, or the "no buffers" panic. */
    method Bget(dev: nat, blockno: nat) returns (r: BgetResult)
      requires Valid()
      modifies buf
      ensures Valid() && unchanged(this, next, prev)
      ensures r.Found? <==> exists i :: 0 <= i < NBUF && Matches(old(buf[..])[i], dev, blockno)
      ensures r.NoBuffers? <==> !r.Found? && forall i :: 0 <= i < NBUF ==> old(buf[..])[i].refcnt > 0
      ensures !r.NoBuffers? ==> r.b < NBUF
      ensures r.Found? ==>
        var c := old(buf[..])[r.b];
        Matches(c, dev, blockno) && buf[..] == old(buf[..])[r.b := c.(refcnt := c.refcnt + 1)]
      ensures r.Recycled? ==>
        && old(buf[..])[r.b].refcnt == 0 && buf[..] == old(buf[..])[r.b := Buf(dev, blockno, false, 1)]
        && forall c :: 0 <= c < NBUF && c != r.b && old(buf[..])[c].refcnt == 0 ==> moved[r.b] < moved[c]
      ensures r.NoBuffers? ==> buf[..] == old(buf[..])
    {
      var b := Lookup(dev, blockno);
      if b < NBUF {
        buf[b] := buf[b].(refcnt := buf[b].refcnt + 1);
        return Found(b);
      }
      b := Victim();
      if b < NBUF {
        buf[b] := Buf(dev, blockno, false, 1);
        return Recycled(b);
      }
      return NoBuffers;
    }

    /** Drops a reference; the last one moves the buffer to the front of the list. */
    method Brelse(b: nat)
      requires Valid() && b < NBUF && buf[b].refcnt > 0
      modifies this`order, this`moved, this`now, next, prev, buf
      ensures Valid()
      ensures var c := old(buf[b]); buf[..] == old(buf[..])[b := c.(refcnt := c.refcnt - 1)]
      ensures buf[b].refcnt > 0 ==>
                order == old(order) && moved == old(moved) && next[..] == old(next[..]) && prev[..] == old(prev[..])
      ensures buf[b].refcnt == 0 ==>
        && moved == old(moved)[b := old(now)]
        && exists i :: 0 <= i < NBUF && old(order)[i] == b && order == [b] + Remove(old(order), i)
    {
      buf[b] := buf[b].(refcnt := buf[b].refcnt - 1);
      if buf[b].refcnt == 0 {
        ToFront(b);
      }
    }

    /** The pointer assignments of brelse. */
    method ToFront(b: nat)
      requires Valid() && b < NBUF
      modifies this`order, this`moved, this`now, next, prev
      ensures Valid() && moved == old(moved)[b := old(now)]
      ensures exists i :: 0 <= i < NBUF && old(order)[i] == b && order == [b] + Remove(old(order), i)
    {
      assert b in order;
      ghost var i :| 0 <= i < NBUF && order[i] == b;
      Unlink(next[..], prev[..], NBUF, order, i);
      prev[next[b]] := prev[b];
      next[prev[b]] := next[b];
      ghost var nx, pv := next[..], prev[..];
      InsertFront(nx, pv, NBUF, Remove(order, i), b);
      next[b] := next[NBUF];
      prev[b] := NBUF;
      prev[next[NBUF]] := b;
      next[NBUF] := b;
      assert next[..] == NextFront(nx, NBUF, b) && prev[..] == PrevFront(pv, NBUF, nx[NBUF], b);
      MoveFrontComplete(order, i, NBUF);
      MoveFrontRecency(order, i, moved, now);
      order, moved, now := [b] + Remove(order, i), moved[b := now], now + 1;
    }

    method Bpin(b: nat)
      requires Valid() && b < NBUF
      modifies buf
      ensures Valid() && unchanged(this, next, prev)
      ensures buf[..] == old(buf[..])[b := old(buf[b]).(refcnt := old(buf[b]).refcnt + 1)]
    {
      buf[b] := buf[b].(refcnt := buf[b].refcnt + 1);
    }

    /** Drops the pin without touching the list. */
    method Bunpin(b: nat)
      requires Valid() && b < NBUF && buf[b].refcnt > 0
      modifies buf
      ensures Valid() && unchanged(this, next, prev)
      ensures buf[..] == old(buf[..])[b := old(buf[b]).(refcnt := old(buf[b]).refcnt - 1)]
    {
      buf[b] := buf[b].(refcnt := buf[b].refcnt - 1);
    }
  }
}
