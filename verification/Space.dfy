/**
 How far a write gets: the slots of an inode that it has to fill, how many blocks are
 free for them, and which byte is the first that it cannot write. All of it is said of
 the file system before the write.
 */
module Space {
  import opened Bytes
  import opened Dinode
  import opened FsModel
  import opened Sets

  // ------------------------------------------------------------ slots

  /** bmap for file blocks lo .. hi - 1 goes through slot k: a block's own, or the indirect block's. */
  predicate Needs(lo: nat, hi: nat, k: nat) {
    if k < NDIRECT then lo <= k < hi
    else if k == NDIRECT then lo < hi && NDIRECT < hi
    else lo < k <= hi
  }

  function Needed(lo: nat, hi: nat): (s: set<nat>)
    ensures forall k {:trigger k in s} :: k in s <==> 0 <= k < NSLOTS && Needs(lo, hi, k)
  {
    set k: nat | k < NSLOTS && Needs(lo, hi, k)
  }

  /** Those of them that are empty. */
  function Missing(d: Disk, ino: Inode, slots: set<nat>): (s: set<nat>)
    ensures forall k {:trigger k in s} :: k in s <==> k in slots && k < NSLOTS && Addr(d, ino, k) == 0
  {
    set k | k in slots && k < NSLOTS && Addr(d, ino, k) == 0
  }

  // ------------------------------------------------------------ free blocks

  /** The number of blocks that balloc can still hand out. */
  function Room(sb: Super, n: nat): int {
    sb.size - sb.datastart - n
  }

  lemma BelowSize(s: set<nat>, n: nat)
    requires forall b :: b in s ==> b < n
    ensures |s| <= n && (|s| == n <==> forall b :: 0 <= b < n ==> b in s)
  {
    assert s <= Below(n);
    SubsetSize(s, Below(n));
    if |s| == n {
      EqualSize(s, Below(n));
    }
    assert (forall b :: 0 <= b < n ==> b in s) ==> s == Below(n);
  }

  lemma EqualSize<T>(a: set<T>, b: set<T>)
    requires a <= b && |a| == |b|
    ensures a == b
  {
    assert b == a + (b - a);
    assert |b| == |a| + |b - a|;
  }

  /** A disk is full exactly when there is no room. */
  lemma RoomLeft(sb: Super, d: Disk, it: seq<Inode>, ow: Owner)
    requires Ownership(sb, d, it, ow, {})
    ensures 0 <= Room(sb, |ow|)
    ensures Room(sb, |ow|) == 0 <==> forall b :: 0 <= b < sb.size ==> Used(sb, d, b)
  {
    UsedCount(sb, d, it, ow);
    var u := UsedBlocks(sb, d);
    BelowSize(u, sb.size);
    assert forall b :: 0 <= b < sb.size ==> (b in u <==> Used(sb, d, b));
  }

  // ------------------------------------------------------------ filling slots

  /** Slot k of inode j is as it was, unless it was empty and file blocks lo .. hi - 1 of inode i need it. */
  predicate SlotMay(d: Disk, it: seq<Inode>, d': Disk, it': seq<Inode>, i: nat, lo: nat, hi: nat, j: nat, k: nat)
    requires j < |it| == |it'| && k < NSLOTS
  {
    Addr(d', it'[j], k) == Addr(d, it[j], k) || (j == i && Addr(d, it[j], k) == 0 && Needs(lo, hi, k))
  }

  /** Nothing but what file blocks lo .. hi - 1 of inode i need has been filled. */
  ghost predicate Slots(d: Disk, it: seq<Inode>, d': Disk, it': seq<Inode>, i: nat, lo: nat, hi: nat) {
    && i < |it| == |it'|
    && forall j, k {:trigger SlotMay(d, it, d', it', i, lo, hi, j, k)} :: 0 <= j < |it| && 0 <= k < NSLOTS ==>
         SlotMay(d, it, d', it', i, lo, hi, j, k)
  }

  lemma SlotsRefl(d: Disk, it: seq<Inode>, i: nat, lo: nat, hi: nat)
    requires i < |it|
    ensures Slots(d, it, d, it, i, lo, hi)
  {
  }

  /** Blocks lo .. mid - 1 and then from .. hi - 1, with nothing left out between them. */
  lemma SlotsTrans(d: Disk, it: seq<Inode>, d1: Disk, it1: seq<Inode>, d2: Disk, it2: seq<Inode>, i: nat, lo: nat,
                   mid: nat, from: nat, hi: nat)
    requires Slots(d, it, d1, it1, i, lo, mid) && Slots(d1, it1, d2, it2, i, from, hi) && lo <= from <= mid <= hi
    ensures Slots(d, it, d2, it2, i, lo, hi)
  {
    forall j, k | 0 <= j < |it| && 0 <= k < NSLOTS ensures SlotMay(d, it, d2, it2, i, lo, hi, j, k) {
      assert SlotMay(d, it, d1, it1, i, lo, mid, j, k) && SlotMay(d1, it1, d2, it2, i, from, hi, j, k);
    }
  }

  /** Every address is where it was. */
  ghost predicate SameSlots(d: Disk, it: seq<Inode>, d': Disk, it': seq<Inode>) {
    && |it'| == |it|
    && forall j, k {:trigger Addr(d', it'[j], k)} :: 0 <= j < |it| && 0 <= k < NSLOTS ==>
         Addr(d', it'[j], k) == Addr(d, it[j], k)
  }

  /** A write that moves no address leaves it at that. */
  lemma SlotsSame(d: Disk, it: seq<Inode>, d1: Disk, it1: seq<Inode>, d2: Disk, it2: seq<Inode>, i: nat, lo: nat,
                  hi: nat)
    requires Slots(d, it, d1, it1, i, lo, hi) && SameSlots(d1, it1, d2, it2)
    ensures Slots(d, it, d2, it2, i, lo, hi)
  {
    forall j, k | 0 <= j < |it| && 0 <= k < NSLOTS ensures SlotMay(d, it, d2, it2, i, lo, hi, j, k) {
      assert SlotMay(d, it, d1, it1, i, lo, hi, j, k);
    }
  }

  /** bmap of file block bn has touched no other slots of inode i. */
  ghost predicate OnlySlots(d: Disk, ino: Inode, d': Disk, ino': Inode, bn: nat) {
    forall k {:trigger Addr(d', ino', k)} :: 0 <= k < NSLOTS && !Needs(bn, bn + 1, k) ==>
      Addr(d', ino', k) == Addr(d, ino, k)
  }

  lemma BmapSlots(d: Disk, it: seq<Inode>, ow: Owner, d': Disk, it': seq<Inode>, ow': Owner, i: nat, bn: nat, hi: nat)
    requires Grown(d, it, ow, d', it', ow', i) && OnlySlots(d, it[i], d', it'[i], bn) && hi == bn + 1
    ensures Slots(d, it, d', it', i, bn, hi)
  {
    forall j, k | 0 <= j < |it| && 0 <= k < NSLOTS ensures SlotMay(d, it, d', it', i, bn, hi, j, k) {
      assert SlotKept(d, it, d', it', i, j, k);
    }
  }

  // ------------------------------------------------------------ counting them

  /** The needed slots that have got a block, and the block each of them got. */
  function Gained(d: Disk, ino: Inode, d': Disk, ino': Inode, lo: nat, hi: nat): map<nat, nat> {
    map k | k in Needed(lo, hi) && Addr(d, ino, k) == 0 && Addr(d', ino', k) != 0 :: Addr(d', ino', k)
  }

  /** A file that grew owns exactly the blocks it gained more than before. */
  lemma GainedOwners(sb: Super, d: Disk, it: seq<Inode>, ow: Owner, d': Disk, it': seq<Inode>, ow': Owner, i: nat,
                     lo: nat, hi: nat, gained: map<nat, nat>)
    requires Ownership(sb, d, it, ow, {}) && Ownership(sb, d', it', ow', {}) && OwnersKept(ow, ow')
    requires Slots(d, it, d', it', i, lo, hi) && gained == Gained(d, it[i], d', it'[i], lo, hi)
    ensures ow'.Keys == ow.Keys + gained.Values && ow.Keys !! gained.Values
  {
    forall b | b in ow' ensures b in ow.Keys + gained.Values {
      NewOwner(sb, d, it, ow, d', it', ow', i, lo, hi, b);
    }
    forall b | b in gained.Values ensures b in ow' && b !in ow {
      var k :| k in gained && gained[k] == b;
      assert Claims(d', it', ow', i, k) && (b in ow ==> Placed(sb, d, it, ow, b));
    }
  }

  lemma NewOwner(sb: Super, d: Disk, it: seq<Inode>, ow: Owner, d': Disk, it': seq<Inode>, ow': Owner, i: nat,
                 lo: nat, hi: nat, b: nat)
    requires Ownership(sb, d, it, ow, {}) && Ownership(sb, d', it', ow', {}) && OwnersKept(ow, ow')
    requires Slots(d, it, d', it', i, lo, hi) && b in ow'
    ensures b in ow || b in Gained(d, it[i], d', it'[i], lo, hi).Values
  {
    assert Placed(sb, d', it', ow', b);
    var j, k := ow'[b].inum, ow'[b].slot;
    assert SlotMay(d, it, d', it', i, lo, hi, j, k) && Claims(d, it, ow, j, k);
    if b !in ow {
      assert k in Gained(d, it[i], d', it'[i], lo, hi);
    }
  }

  /** Two slots do not get the same block. */
  lemma GainedOnce(sb: Super, d: Disk, ino: Inode, d': Disk, it': seq<Inode>, ow': Owner, i: nat, lo: nat, hi: nat,
                   gained: map<nat, nat>)
    requires Ownership(sb, d', it', ow', {}) && i < |it'| && gained == Gained(d, ino, d', it'[i], lo, hi)
    ensures |gained.Values| == |gained|
  {
    forall k, l | k in gained && l in gained && gained[k] == gained[l] ensures k == l {
      assert Claims(d', it', ow', i, k) && Claims(d', it', ow', i, l);
    }
    ValuesSize(gained);
  }

  /** What the growth of a file has cost: one block for every needed slot that is no longer missing. */
  lemma GrowthCount(sb: Super, d: Disk, it: seq<Inode>, ow: Owner, d': Disk, it': seq<Inode>, ow': Owner, i: nat,
                    lo: nat, hi: nat)
    requires Ownership(sb, d, it, ow, {}) && Ownership(sb, d', it', ow', {}) && OwnersKept(ow, ow')
    requires Slots(d, it, d', it', i, lo, hi)
    ensures |ow'| + |Missing(d', it'[i], Needed(lo, hi))| == |ow| + |Missing(d, it[i], Needed(lo, hi))|
  {
    var gained := Gained(d, it[i], d', it'[i], lo, hi);
    GainedOwners(sb, d, it, ow, d', it', ow', i, lo, hi, gained);
    GainedOnce(sb, d, it[i], d', it', ow', i, lo, hi, gained);
    GainedMissing(d, it, d', it', i, lo, hi, gained);
    MapSize(gained);
    MapSize(ow);
    MapSize(ow');
  }

  lemma GainedMissing(d: Disk, it: seq<Inode>, d': Disk, it': seq<Inode>, i: nat, lo: nat, hi: nat,
                      gained: map<nat, nat>)
    requires Slots(d, it, d', it', i, lo, hi) && gained == Gained(d, it[i], d', it'[i], lo, hi)
    ensures |Missing(d, it[i], Needed(lo, hi))| == |gained.Keys| + |Missing(d', it'[i], Needed(lo, hi))|
  {
    var before, after := Missing(d, it[i], Needed(lo, hi)), Missing(d', it'[i], Needed(lo, hi));
    forall k ensures k in before <==> k in gained.Keys + after {
      if 0 <= k < NSLOTS {
        assert SlotMay(d, it, d', it', i, lo, hi, i, k);
      }
    }
    assert before == gained.Keys + after && gained.Keys !! after;
  }

  lemma MapSize<K, V>(m: map<K, V>)
    ensures |m| == |m.Keys|
  {
  }

  // ------------------------------------------------------------ how far a write gets

  /** Blocks needed for the write of bytes off .. off + p are in the file or can be allocated. */
  predicate Reaches(sb: Super, d: Disk, ino: Inode, n: nat, off: nat, p: nat) {
    |Missing(d, ino, Needed(off / BSIZE, (off + p) / BSIZE + 1))| <= Room(sb, n)
  }

  /** Where the step of the loop begins that copies byte p of the source: at the start, or at a block boundary. */
  function StepStart(off: nat, p: nat): (t: nat)
    ensures t <= p && (off + t) / BSIZE == (off + p) / BSIZE && (t > 0 ==> (off + t) % BSIZE == 0)
    ensures (off + t) % BSIZE + (p - t) < BSIZE
  {
    StepArithmetic(off, p);
    if off / BSIZE == (off + p) / BSIZE then 0 else p - (off + p) % BSIZE
  }

  lemma StepArithmetic(off: nat, p: nat)
    ensures off / BSIZE == (off + p) / BSIZE ==> off % BSIZE + p < BSIZE
    ensures off / BSIZE != (off + p) / BSIZE ==>
              && (off + p) % BSIZE <= p
              && (off + (p - (off + p) % BSIZE)) / BSIZE == (off + p) / BSIZE
              && (off + (p - (off + p) % BSIZE)) % BSIZE == 0
  {
    var q, m := (off + p) / BSIZE, (off + p) % BSIZE;
    assert off + p == BSIZE * q + m && off == BSIZE * (off / BSIZE) + off % BSIZE;
    if off / BSIZE != q {
      assert off / BSIZE <= q - 1;
      AtBoundary(off + (p - m), q);
    }
  }

  lemma AtBoundary(x: nat, q: nat)
    requires x == BSIZE * q
    ensures x / BSIZE == q && x % BSIZE == 0
  {
  }

  /** The file block after the last one that n bytes at off touch. */
  function BlockEnd(off: nat, n: nat): nat {
    if n == 0 then off / BSIZE else (off + n - 1) / BSIZE + 1
  }

  /** The file block up to which a write that stopped after r of its bytes has called bmap. */
  function TriedEnd(off: nat, len: nat, r: nat): nat {
    if r == len then BlockEnd(off, len) else (off + r) / BSIZE + 1
  }

  /** If the blocks that byte p needs are there in the end, it is reached. */
  lemma WasReached(sb: Super, d: Disk, it: seq<Inode>, ow: Owner, d': Disk, it': seq<Inode>, ow': Owner, i: nat,
                   off: nat, p: nat, end: nat)
    requires Ownership(sb, d, it, ow, {}) && Ownership(sb, d', it', ow', {}) && OwnersKept(ow, ow')
    requires Slots(d, it, d', it', i, off / BSIZE, end) && (off + p) / BSIZE < end
    requires forall bn {:trigger HasBlock(d', it'[i], bn)} :: off / BSIZE <= bn <= (off + p) / BSIZE ==>
               HasBlock(d', it'[i], bn)
    ensures Reaches(sb, d, it[i], |ow|, off, p)
  {
    var lo, hi := off / BSIZE, (off + p) / BSIZE + 1;
    GrowthCount(sb, d, it, ow, d', it', ow', i, lo, end);
    RoomLeft(sb, d', it', ow');
    BlocksGrow(off, 0, p);
    FilledPart(d, it, d', it', i, lo, hi, end);
  }

  /** Slots for blocks that are there now were filled, so they are not among those still missing. */
  lemma FilledPart(d: Disk, it: seq<Inode>, d': Disk, it': seq<Inode>, i: nat, lo: nat, hi: nat, end: nat)
    requires Slots(d, it, d', it', i, lo, end) && lo < hi <= end
    requires forall bn {:trigger HasBlock(d', it'[i], bn)} :: lo <= bn < hi ==> HasBlock(d', it'[i], bn)
    ensures |Missing(d, it[i], Needed(lo, hi))| + |Missing(d', it'[i], Needed(lo, end))| <=
            |Missing(d, it[i], Needed(lo, end))|
  {
    var before, after := Missing(d, it[i], Needed(lo, end)), Missing(d', it'[i], Needed(lo, end));
    var here := Missing(d, it[i], Needed(lo, hi));
    forall k | k in after ensures k in before && k !in here {
      assert SlotMay(d, it, d', it', i, lo, end, i, k);
      NowThere(d', it'[i], lo, hi, k);
    }
    forall k | k in here ensures k in before {
    }
    DisjointParts(here, after, before);
  }

  lemma NowThere(d: Disk, ino: Inode, lo: nat, hi: nat, k: nat)
    requires lo < hi && k < NSLOTS && Addr(d, ino, k) == 0
    requires forall bn {:trigger HasBlock(d, ino, bn)} :: lo <= bn < hi ==> HasBlock(d, ino, bn)
    ensures !Needs(lo, hi, k)
  {
    assert HasBlock(d, ino, lo) && HasBlock(d, ino, hi - 1);
    assert lo <= k < hi ==> HasBlock(d, ino, k);
    assert lo < k <= hi ==> HasBlock(d, ino, k - 1);
  }

  lemma DisjointParts<T>(a: set<T>, b: set<T>, c: set<T>)
    requires a <= c && b <= c && a !! b
    ensures |a| + |b| <= |c|
  {
    assert a + b <= c;
    SubsetSize(a + b, c);
  }

  /** If in the end the disk is full and the last of them is not there, it is not. */
  lemma NotReached(sb: Super, d: Disk, it: seq<Inode>, ow: Owner, d': Disk, it': seq<Inode>, ow': Owner, i: nat,
                   off: nat, p: nat)
    requires Ownership(sb, d, it, ow, {}) && Ownership(sb, d', it', ow', {}) && OwnersKept(ow, ow')
    requires Slots(d, it, d', it', i, off / BSIZE, (off + p) / BSIZE + 1)
    requires off + p < MAXFILE * BSIZE && !HasBlock(d', it'[i], (off + p) / BSIZE)
    requires forall b :: 0 <= b < sb.size ==> Used(sb, d', b)
    ensures !Reaches(sb, d, it[i], |ow|, off, p)
  {
    var lo, hi := off / BSIZE, (off + p) / BSIZE + 1;
    GrowthCount(sb, d, it, ow, d', it', ow', i, lo, hi);
    RoomLeft(sb, d', it', ow');
    BlocksGrow(off, 0, p);
    assert Slot(hi - 1) in Missing(d', it'[i], Needed(lo, hi));
  }

  /** The copy of byte `fault` is tried, and fails. */
  predicate CopyFaults(sb: Super, d: Disk, ino: Inode, n: nat, off: nat, len: nat, fault: nat) {
    fault < len && Reaches(sb, d, ino, n, off, fault)
  }

  /**
   The number r of bytes of a source of length len that a write at off gets in, where byte `fault`
   cannot be copied: up to the step that copies that byte, or all of them, or up to the first step
   for which there is no room.
   */
  predicate GetsIn(sb: Super, d: Disk, ino: Inode, n: nat, off: nat, len: nat, fault: nat, r: nat) {
    if CopyFaults(sb, d, ino, n, off, len, fault) then r == StepStart(off, fault)
    else if len == 0 || Reaches(sb, d, ino, n, off, len - 1) then r == len
    else r < len && r == StepStart(off, r) && !Reaches(sb, d, ino, n, off, r) &&
         (r > 0 ==> Reaches(sb, d, ino, n, off, r - 1))
  }

  /** Inside a file without holes every byte is reached, whatever is free. */
  lemma ReachesInside(sb: Super, d: Disk, it: seq<Inode>, ow: Owner, i: nat, off: nat, p: nat)
    requires Ownership(sb, d, it, ow, {}) && i < |it| && InodeOk(d, it[i]) && off + p < it[i].size
    ensures Reaches(sb, d, it[i], |ow|, off, p)
  {
    SlotsRefl(d, it, i, off / BSIZE, (off + p) / BSIZE + 1);
    forall bn | off / BSIZE <= bn <= (off + p) / BSIZE ensures HasBlock(d, it[i], bn) {
      assert bn * BSIZE < it[i].size;
    }
    WasReached(sb, d, it, ow, d, it, ow, i, off, p, (off + p) / BSIZE + 1);
  }

  lemma ReachesLess(sb: Super, d: Disk, ino: Inode, n: nat, off: nat, p: nat, q: nat)
    requires Reaches(sb, d, ino, n, off, q) && p <= q
    ensures Reaches(sb, d, ino, n, off, p)
  {
    var lo := off / BSIZE;
    BlocksGrow(off, p, q);
    SubsetSize(Missing(d, ino, Needed(lo, (off + p) / BSIZE + 1)), Missing(d, ino, Needed(lo, (off + q) / BSIZE + 1)));
  }

  lemma BlocksGrow(off: nat, p: nat, q: nat)
    requires p <= q
    ensures off / BSIZE <= (off + p) / BSIZE <= (off + q) / BSIZE
  {
  }

  /** The number is determined. */
  lemma GetsInOnce(sb: Super, d: Disk, ino: Inode, n: nat, off: nat, len: nat, fault: nat, r: nat, s: nat)
    requires GetsIn(sb, d, ino, n, off, len, fault, r) && GetsIn(sb, d, ino, n, off, len, fault, s)
    ensures r == s
  {
    if !CopyFaults(sb, d, ino, n, off, len, fault) && !(len == 0 || Reaches(sb, d, ino, n, off, len - 1)) {
      if r < s {
        ReachesLess(sb, d, ino, n, off, r, s - 1);
      } else if s < r {
        ReachesLess(sb, d, ino, n, off, s, r - 1);
      }
    }
  }
}
