/**
 The user-level storage allocator: a circular list of free blocks in address
 order, first fit from where the last search ended, neighbours joined on free.
 Addresses and sizes are in units of one header; 0 is the null pointer, and the
 list's static base header lies below the heap.
 */
module Malloc {
  import opened Params
  import opened Sets

  const BASE: nat := 1
  const HEADER: nat := 16      // sizeof(Header)

  // ------------------------------------------------------------ the ring

  /** b follows a in address order among the free blocks, or is the base when a is the last. */
  predicate IsNext(free: set<nat>, a: nat, b: nat) {
    || (b in free && a < b && forall c :: c in free && a < c ==> b <= c)
    || (b == BASE && forall c :: c in free ==> c <= a)
  }

  /** One wrap: from every block, and from the base, ptr leads to the next address. */
  predicate Ring(free: set<nat>, ptr: map<nat, nat>) {
    && (forall a :: a in free ==> BASE < a) && free + {BASE} <= ptr.Keys
    && (forall a {:trigger NextOk(free, ptr, a)} :: a in free + {BASE} ==> NextOk(free, ptr, a))
  }

  predicate NextOk(free: set<nat>, ptr: map<nat, nat>, a: nat) {
    a in ptr && IsNext(free, a, ptr[a])
  }

  /** p is the last free block, or the base, below address b. */
  predicate IsPred(free: set<nat>, p: nat, b: nat) {
    p in free + {BASE} && p < b && forall c :: c in free && c < b ==> c <= p
  }

  lemma RingInsert(free: set<nat>, ptr: map<nat, nat>, p: nat, b: nat)
    requires Ring(free, ptr) && b !in free && IsPred(free, p, b)
    ensures Ring(free + {b}, ptr[b := ptr[p]][p := b])
  {
    var free', ptr' := free + {b}, ptr[b := ptr[p]][p := b];
    forall a | a in free' + {BASE} ensures NextOk(free', ptr', a) {
      if a != b {
        assert NextOk(free, ptr, a);
      }
      assert NextOk(free, ptr, p);
    }
  }

  lemma RingRemove(free: set<nat>, ptr: map<nat, nat>, p: nat)
    requires Ring(free, ptr) && p in free + {BASE} && ptr[p] in free
    ensures ptr[p] in ptr && Ring(free - {ptr[p]}, ptr[p := ptr[ptr[p]]])
  {
    var n := ptr[p];
    var free', ptr' := free - {n}, ptr[p := ptr[n]];
    assert NextOk(free, ptr, n) && NextOk(free, ptr, p);
    forall a | a in free' + {BASE} ensures NextOk(free', ptr', a) {
      assert NextOk(free, ptr, a);
    }
  }

  // ------------------------------------------------------------ tiling

  /** A block's units, all of them, are recorded as its own. */
  predicate Whole(own: map<nat, nat>, a: nat, n: nat) {
    0 < n && BASE < a && forall x :: a <= x < a + n ==> x in own && own[x] == a
  }

  predicate UnitOk(blocks: set<nat>, size: map<nat, nat>, own: map<nat, nat>, x: nat)
    requires x in own
  {
    own[x] in blocks && own[x] in size && own[x] <= x < own[x] + size[own[x]]
  }

  /** Every unit of heap memory belongs to exactly one block, and blocks are whole. */
  predicate Tiles(blocks: set<nat>, size: map<nat, nat>, own: map<nat, nat>) {
    && blocks <= size.Keys
    && (forall a {:trigger BlockOk(size, own, a)} :: a in blocks ==> BlockOk(size, own, a))
    && (forall x {:trigger UnitOk(blocks, size, own, x)} :: x in own ==> UnitOk(blocks, size, own, x))
  }

  predicate BlockOk(size: map<nat, nat>, own: map<nat, nat>, a: nat) {
    a in size && Whole(own, a, size[a])
  }

  lemma TilesDisjoint(blocks: set<nat>, size: map<nat, nat>, own: map<nat, nat>, a: nat, b: nat)
    requires Tiles(blocks, size, own) && a in blocks && b in blocks && a < b
    ensures a + size[a] <= b
  {
    assert BlockOk(size, own, a) && BlockOk(size, own, b);
    assert own[b] == b;
  }

  lemma OwnStart(blocks: set<nat>, size: map<nat, nat>, own: map<nat, nat>)
    requires Tiles(blocks, size, own)
    ensures forall a :: a in blocks ==> a in own && own[a] == a
  {
    forall a | a in blocks ensures a in own && own[a] == a {
      assert BlockOk(size, own, a);
    }
  }

  /** The units lo .. hi handed to block a. */
  function Moved(own: map<nat, nat>, lo: nat, hi: nat, a: nat): (r: map<nat, nat>)
    ensures r.Keys == own.Keys
    ensures forall x :: x in own ==> r[x] == if lo <= x < hi then a else own[x]
  {
    map x | x in own :: if lo <= x < hi then a else own[x]
  }

  /** Joining a block with the one right behind it. */
  lemma TilesJoin(blocks: set<nat>, size: map<nat, nat>, own: map<nat, nat>, a: nat, b: nat)
    requires Tiles(blocks, size, own) && a in blocks && b in blocks && a + size[a] == b
    ensures Tiles(blocks - {b}, size[a := size[a] + size[b]], Moved(own, b, b + size[b], a))
  {
    var blocks', size', own' := blocks - {b}, size[a := size[a] + size[b]], Moved(own, b, b + size[b], a);
    assert BlockOk(size, own, b);
    forall c | c in blocks' ensures BlockOk(size', own', c) {
      assert BlockOk(size, own, c);
    }
    forall x | x in own' ensures UnitOk(blocks', size', own', x) {
      assert UnitOk(blocks, size, own, x);
    }
  }

  /** Cutting n units off the tail of a block. */
  lemma TilesSplit(blocks: set<nat>, size: map<nat, nat>, own: map<nat, nat>, a: nat, n: nat, q: nat,
                   size': map<nat, nat>, own': map<nat, nat>)
    requires Tiles(blocks, size, own) && a in blocks && 0 < n < size[a] && q == a + size[a] - n
    requires size' == size[a := size[a] - n][q := n] && own' == Moved(own, q, q + n, q)
    ensures q !in blocks && Tiles(blocks + {q}, size', own')
  {
    assert BlockOk(size, own, a) && own[q] == a;
    OwnStart(blocks, size, own);
    forall c | c in blocks ensures BlockOk(size', own', c) {
      SplitWhole(size, own, a, n, q, c, size', own');
    }
    forall x | x in own' ensures UnitOk(blocks + {q}, size', own', x) {
      assert UnitOk(blocks, size, own, x);
    }
  }

  lemma SplitWhole(size: map<nat, nat>, own: map<nat, nat>, a: nat, n: nat, q: nat, c: nat, size': map<nat, nat>,
                   own': map<nat, nat>)
    requires a in size && 0 < n < size[a] && q == a + size[a] - n && BlockOk(size, own, a)
    requires size' == size[a := size[a] - n][q := n] && own' == Moved(own, q, q + n, q)
    requires c in size && c != q && BlockOk(size, own, c)
    ensures BlockOk(size', own', c)
  {
    assert forall y :: q <= y < q + n ==> y in own && own[y] == a;
    forall x | c <= x < c + size'[c] ensures x in own' && own'[x] == c {
      assert own[x] == c;
    }
  }

  /** New memory, past every block, becomes a block of its own. */
  lemma TilesGrow(blocks: set<nat>, size: map<nat, nat>, own: map<nat, nat>, a: nat, n: nat)
    requires Tiles(blocks, size, own) && BASE < a && 0 < n
    requires forall x :: x in own ==> x < a
    ensures a !in blocks
    ensures Tiles(blocks + {a}, size[a := n], own + Region(a, n))
  {
    var blocks', size', own' := blocks + {a}, size[a := n], own + Region(a, n);
    OwnStart(blocks, size, own);
    forall c | c in blocks' ensures BlockOk(size', own', c) {
      if c != a {
        assert BlockOk(size, own, c);
      }
    }
    forall x | x in own' ensures UnitOk(blocks', size', own', x) {
      if x in own && x < a {
        assert UnitOk(blocks, size, own, x);
      }
    }
  }

  function Region(a: nat, n: nat): (r: map<nat, nat>)
    ensures forall x :: x in r <==> a <= x < a + n
    ensures forall x :: x in r ==> r[x] == a
  {
    if n == 0 then map[] else Region(a, n - 1)[a + n - 1 := a]
  }

  /** No two free blocks touch. */
  predicate NoneAdjacent(free: set<nat>, size: map<nat, nat>) {
    forall a, b :: a in free && b in free && a in size ==> a + size[a] != b
  }

  /** The units that belong to free blocks. */
  function FreeUnits(free: set<nat>, own: map<nat, nat>): set<nat> {
    set x | x in own && own[x] in free
  }

  function Span(a: nat, n: nat): (s: set<nat>)
    ensures forall x :: x in s <==> a <= x < a + n
  {
    if n == 0 then {} else Span(a, n - 1) + {a + n - 1}
  }

  // ------------------------------------------------------------ free, as values

  lemma RingFrame(free: set<nat>, ptr: map<nat, nat>, ptr': map<nat, nat>)
    requires Ring(free, ptr) && forall a :: a in free + {BASE} ==> a in ptr' && ptr'[a] == ptr[a]
    ensures Ring(free, ptr')
  {
    forall a | a in free + {BASE} ensures NextOk(free, ptr', a) {
      assert NextOk(free, ptr, a);
    }
  }

  /** A block not on the list, being inserted after p. */
  predicate Loose(free: set<nat>, live: set<nat>, ptr: map<nat, nat>, size: map<nat, nat>, own: map<nat, nat>, p: nat,
                  b: nat) {
    && Ring(free, ptr) && free !! live && b in live && BASE < b && IsPred(free, p, b)
    && b in size && 0 < size[b]
    && Tiles(free + live, size, own) && NoneAdjacent(free, size)
  }

  /** b ends where the next free block starts: b swallows it. */
  lemma JoinUpper(free: set<nat>, live: set<nat>, ptr: map<nat, nat>, size: map<nat, nat>, own: map<nat, nat>, p: nat,
                  b: nat, n: nat, ptr': map<nat, nat>, size': map<nat, nat>, own': map<nat, nat>)
    requires Loose(free, live, ptr, size, own, p, b) && b + size[b] == n && n == ptr[p] && n in ptr && n in size
    requires ptr' == ptr[p := ptr[n]] && size' == size[b := size[b] + size[n]] && own' == Moved(own, n, n + size[n], b)
    ensures n in free && Loose(free - {n}, live, ptr', size', own', p, b)
    ensures forall c :: c in free - {n} ==> b + size'[b] != c
    ensures FreeUnits(free - {n} + {b}, own') == FreeUnits(free + {b}, own)
  {
    NextIsFree(free, ptr, p, b, n);
    RingRemove(free, ptr, p);
    assert Tiles(free - {n} + live, size', own') by {
      TilesJoin(free + live, size, own, b, n);
      assert free + live - {n} == free - {n} + live;
    }
    assert FreeUnits(free - {n} + {b}, own') == FreeUnits(free + {b}, own) by {
      UnitsMoved(free + {b}, free + live, size, own, n, b);
      assert free + {b} - {n} == free - {n} + {b};
    }
  }

  lemma NextIsFree(free: set<nat>, ptr: map<nat, nat>, p: nat, b: nat, n: nat)
    requires Ring(free, ptr) && IsPred(free, p, b) && n == ptr[p] && BASE < b < n
    ensures n in free
  {
    assert NextOk(free, ptr, p);
  }

  lemma UnitsMoved(f: set<nat>, blocks: set<nat>, size: map<nat, nat>, own: map<nat, nat>, n: nat, b: nat)
    requires Tiles(blocks, size, own) && n in blocks && n in f && b in f && b != n
    ensures FreeUnits(f - {n}, Moved(own, n, n + size[n], b)) == FreeUnits(f, own)
  {
    assert BlockOk(size, own, n);
    forall x | x in own ensures own[x] == n <==> n <= x < n + size[n] {
      assert UnitOk(blocks, size, own, x);
    }
  }

  /** The preceding free block ends where b starts: it swallows b. */
  lemma JoinLower(free: set<nat>, live: set<nat>, ptr: map<nat, nat>, size: map<nat, nat>, own: map<nat, nat>, p: nat,
                  b: nat)
    requires Loose(free, live, ptr, size, own, p, b) && p in free && p + size[p] == b
    requires forall c :: c in free ==> b + size[b] != c
    ensures var size' := size[p := size[p] + size[b]];
            var own' := Moved(own, b, b + size[b], p);
            && Tiles(free + (live - {b}), size', own') && NoneAdjacent(free, size')
            && FreeUnits(free, own') == FreeUnits(free + {b}, own)
  {
    TilesJoin(free + live, size, own, p, b);
    assert free + live - {b} == free + (live - {b});
    UnitsMoved(free + {b}, free + live, size, own, b, p);
    assert free + {b} - {b} == free;
  }

  /** Otherwise b goes on the list by itself. */
  lemma Insert(free: set<nat>, live: set<nat>, ptr: map<nat, nat>, size: map<nat, nat>, own: map<nat, nat>, p: nat,
               b: nat)
    requires Loose(free, live, ptr, size, own, p, b)
    requires p in free ==> p + size[p] != b
    requires forall c :: c in free ==> b + size[b] != c
    ensures Ring(free + {b}, ptr[b := ptr[p]][p := b])
    ensures Tiles(free + {b} + (live - {b}), size, own) && NoneAdjacent(free + {b}, size)
  {
    RingInsert(free, ptr, p, b);
    assert free + {b} + (live - {b}) == free + live;
    forall c | c in free && c + size[c] == b ensures c == p {
      if c < p {
        TilesDisjoint(free + live, size, own, c, p);
      }
    }
    assert BlockOk(size, own, b);
  }

  // ------------------------------------------------------------ walking the ring

  function Above(free: set<nat>, p: nat): set<nat> {
    set c | c in free && p < c
  }

  lemma AboveShrinks(free: set<nat>, p: nat, q: nat)
    requires q in free && p < q
    ensures |Above(free, q)| < |Above(free, p)|
  {
    assert Above(free, q) <= Above(free, p) - {q};
    SubsetSize(Above(free, q), Above(free, p) - {q});
  }

  class Heap {
    var ptr: map<nat, nat>        // header.s.ptr
    var size: map<nat, nat>       // header.s.size
    var freep: nat
    ghost var free: set<nat>      // blocks on the list, the base aside
    ghost var live: set<nat>      // blocks handed out and not yet freed
    ghost var own: map<nat, nat>  // the block each unit of sbrk'd memory belongs to

    ghost predicate Valid()
      reads this
    {
      if freep == 0 then free == {} && live == {} && own == map[] else Listed(free, live, ptr, size, own, freep)
    }

    constructor ()
      ensures Valid() && own == map[] && live == {}
    {
      ptr, size, freep := map[], map[], 0;
      free, live, own := {}, {}, map[];
    }

    /** free's search: the list block that b belongs after. It terminates wherever freep is. */
    method FindPlace(b: nat) returns (p: nat)
      requires Ring(free, ptr) && freep in free + {BASE} && BASE < b && b !in free
      ensures IsPred(free, p, b)
    {
      p := freep;
      while !(b > p && b < ptr[p])
        invariant p in free + {BASE}
        decreases if p > b then 1 else 0, |Above(free, p)|
      {
        assert NextOk(free, ptr, p);
        if p >= ptr[p] && (b > p || b < ptr[p]) {
          return;
        }
        if ptr[p] in free {
          AboveShrinks(free, p, ptr[p]);
        }
        p := ptr[p];
      }
      assert NextOk(free, ptr, p);
    }

    /** The first test of free: join b with the block after it, or link b to it. */
    method LinkUpper(p: nat, b: nat) returns (ghost ring: map<nat, nat>)
      requires Loose(free, live, ptr, size, own, p, b)
      modifies this`ptr, this`size, this`free, this`own
      ensures Half(free, live, ptr, ring, size, own, p, b)
      ensures SameUnits(old(free) + {b}, old(own), free + {b}, own)
      ensures Enlarged(old(size), size, b)
    {
      ghost var f0, pt0, sz0, ow0 := free, ptr, size, own;
      var n := ptr[p];
      if b + size[b] == n {
        NextIsFree(free, ptr, p, b, n);
        size := size[b := size[b] + size[n]];
        ptr := ptr[b := ptr[n]];
        free, own, ring := free - {n}, Moved(own, n, n + sz0[n], b), pt0[p := pt0[n]];
        UpperJoined(f0, live, pt0, sz0, ow0, p, b, n, free, ptr, ring, size, own);
      } else {
        ptr := ptr[b := n];
        ring := pt0;
        UpperLinked(free, live, pt0, size, own, p, b, ptr);
      }
    }

    /** The second test of free, when the block before b ends at b: it swallows b. */
    method SwallowedByLower(p: nat, b: nat, ghost ring: map<nat, nat>)
      requires Half(free, live, ptr, ring, size, own, p, b)
      requires BASE in size && size[BASE] == 0 && p in size && p + size[p] == b
      modifies this`ptr, this`size, this`live, this`own
      ensures live == old(live) - {b} && Listed(free, live, ptr, size, own, p)
      ensures SameUnits(free + {b}, old(own), free, own) && LiveKept(live, old(size), size)
      ensures b in own && own[b] in free && size[own[b]] >= old(size[b])
    {
      ghost var l0, pt0, sz0, ow0 := live, ptr, size, own;
      size := size[p := size[p] + size[b]];
      ptr := ptr[p := ptr[b]];
      own, live := Moved(own, b, b + sz0[b], p), live - {b};
      LowerJoined(free, l0, pt0, ring, sz0, ow0, p, b, ptr, size, own);
    }

    /** The second test of free, otherwise: b is linked after p. */
    method LinkedFromLower(p: nat, b: nat, ghost ring: map<nat, nat>)
      requires Half(free, live, ptr, ring, size, own, p, b)
      requires BASE in size && size[BASE] == 0 && p in size && p + size[p] != b
      modifies this`ptr, this`free, this`live
      ensures live == old(live) - {b} && free == old(free) + {b} && Listed(free, live, ptr, size, own, p)
      ensures LiveKept(live, size, size) && b in own && own[b] == b
    {
      ghost var f0, l0, pt0 := free, live, ptr;
      ptr := ptr[p := b];
      free, live := free + {b}, live - {b};
      LowerLinked(f0, l0, pt0, ring, size, own, p, b, ptr);
    }

    /** Both tests of free. */
    method Link(p: nat, b: nat)
      requires Loose(free, live, ptr, size, own, p, b) && BASE in size && size[BASE] == 0
      modifies this`ptr, this`size, this`free, this`live, this`own
      ensures live == old(live) - {b} && Listed(free, live, ptr, size, own, p)
      ensures SameUnits(old(free) + {b}, old(own), free, own) && LiveKept(live, old(size), size)
      ensures b in own && own[b] in free && size[own[b]] >= old(size[b])
    {
      ghost var sz0 := size;
      ghost var ring := LinkUpper(p, b);
      ghost var sz1 := size;
      HalfSizes(free, live, ptr, ring, size, own, p, b);
      if p + size[p] == b {
        SwallowedByLower(p, b, ring);
      } else {
        LinkedFromLower(p, b, ring);
      }
      KeptThrough(live, sz0, sz1, size, b);
    }

    /** free: exactly the block's units become free, joined with both neighbours. */
    method Free(ap: nat)
      requires Listed(free, live, ptr, size, own, freep) && 0 < ap && ap - 1 in live
      modifies this
      ensures Listed(free, live, ptr, size, own, freep) && freep != 0 && live == old(live) - {ap - 1}
      ensures own.Keys == old(own).Keys
      ensures FreeUnits(free, own) == old(FreeUnits(free, own)) + Span(ap - 1, old(size[ap - 1]))
      ensures LiveKept(live, old(size), size)
      ensures ap - 1 in own && own[ap - 1] in free && size[own[ap - 1]] >= old(size[ap - 1])
    {
      var b := ap - 1;
      BlockHasUnits(free + live, size, own, b);
      var p := FindPlace(b);
      UnitsOf(free, free + live, size, own, b);
      Link(p, b);
      freep := p;
    }

    /** morecore: at least 4096 fresh units from sbrk, given to free; 0 if sbrk refuses. */
    method Morecore(n: nat, sbrk: Option<nat>) returns (ok: bool)
      requires Listed(free, live, ptr, size, own, freep) && freep != 0 && 0 < n
      requires sbrk.Some? ==> BASE < sbrk.value && forall x :: x in own ==> x < sbrk.value
      modifies this
      ensures ok <==> sbrk.Some?
      ensures !ok ==> unchanged(this)
      ensures ok ==>
                && Listed(free, live, ptr, size, own, freep) && freep != 0 && live == old(live)
                && LiveKept(live, old(size), size)
      ensures ok ==> Grew(old(free), old(own), free, size, own, sbrk.value, CoreUnits(n)) && CoreUnits(n) >= 4096
    {
      if sbrk.None? {
        return false;
      }
      var nu := CoreUnits(n);
      var hp := sbrk.value;
      ghost var f0, l0, sz0, ow0 := free, live, size, own;
      GrowHeap(free, live, ptr, size, own, freep, hp, nu);
      size := size[hp := nu];
      own, live := own + Region(hp, nu), live + {hp};
      ghost var sz1, ow1 := size, own;
      assert sz1[hp] == nu && hp + 1 - 1 == hp;
      Free(hp + 1);
      AddAndRemove(l0, hp);
      KeptTwice(l0, sz0, sz1, size);
      GrewThrough(f0, ow0, ow1, free, size, own, hp, nu);
      return true;
    }

    /** Takes n units from free block p, which prevp leads to: all of it, or its tail. */
    method Take(prevp: nat, p: nat, n: nat) returns (a: nat)
      requires Listed(free, live, ptr, size, own, freep) && prevp in free + {BASE} && prevp in ptr && p == ptr[prevp]
      requires p in free && p in size && 0 < n <= size[p]
      modifies this
      ensures Listed(free, live, ptr, size, own, freep) && freep == prevp != 0 && a == p + old(size)[p] - n
      ensures Allocated(old(free), old(live), old(own), free, live, size, own, a, n, {})
      ensures LiveKept(old(live), old(size), size)
    {
      ghost var f0, l0, pt0, sz0, ow0 := free, live, ptr, size, own;
      if size[p] == n {
        ptr := ptr[prevp := ptr[p]];
        free, live := free - {p}, live + {p};
        TakeAll(f0, l0, pt0, sz0, ow0, prevp, p, ptr);
        a := p;
      } else {
        size := size[p := size[p] - n];
        a := p + size[p];
        size := size[a := n];
        own, live := Moved(own, a, a + n, a), live + {a};
        TakeTail(f0, l0, pt0, sz0, ow0, prevp, p, n, a, size, own);
      }
      freep := prevp;
    }

    /** malloc's walk once around from freep: the first block that fits, and its predecessor. */
    method Search(n: nat) returns (found: bool, prevp: nat, p: nat)
      requires Listed(free, live, ptr, size, own, freep) && 0 < n
      ensures prevp in free + {BASE} && prevp in ptr && p == ptr[prevp]
      ensures found ==> p in free && p in size && size[p] >= n
      ensures found ==> forall c :: c in free && Seen(ptr[freep], p, c) ==> c in size && size[c] < n
      ensures !found ==> forall c :: c in free ==> c in size && size[c] < n
    {
      found, prevp := false, freep;
      p := ptr[prevp];
      ghost var start := p;
      while true
        invariant prevp in free + {BASE} && p == ptr[prevp]
        invariant forall c :: c in free + {BASE} && Seen(start, p, c) ==> c in size && size[c] < n
        decreases |Unseen(free, start, p)|
      {
        assert NextOk(free, ptr, prevp);
        if size[p] >= n {
          found := true;
          return;
        }
        if p == freep {
          AllSeen(free, ptr, start, p);
          return;
        }
        SeenNext(free, ptr, start, freep, p);
        prevp, p := p, ptr[p];
      }
    }

    /** The heap with its base header linked to itself, on the first call. */
    method Initialize()
      requires Valid()
      modifies this`ptr, this`size, this`freep
      ensures Listed(free, live, ptr, size, own, freep) && freep != 0 && LiveKept(live, old(size), size)
      ensures old(freep) != 0 ==> size == old(size)
    {
      if freep == 0 {
        ptr, freep, size := ptr[BASE := BASE], BASE, size[BASE := 0];
      } else {
        LiveSized(free + live, live, size, own);
      }
    }

    /**
     malloc: a block of exactly the units that the header and the bytes asked for take, carved
     out of free memory, or null when nothing fits and sbrk refuses. sbrk is asked only after
     every free block was found too small, and then once: the second walk cannot fail.
     */
    method Malloc(nbytes: nat, sbrk: Option<nat>) returns (r: nat, asked: bool)
      requires Valid()
      requires sbrk.Some? ==> BASE < sbrk.value && forall x :: x in own ==> x < sbrk.value
      modifies this
      ensures Valid() && freep != 0
      ensures asked <==> forall c :: c in old(free) ==> c in old(size) && old(size)[c] < Units(nbytes)
      ensures r == 0 <==> asked && sbrk.None?
      ensures r == 0 ==> live == old(live) && own == old(own) && free == old(free)
      ensures r != 0 ==>
        var grown := if asked then Span(sbrk.value, CoreUnits(Units(nbytes))) else {};
        Allocated(old(free), old(live), old(own), free, live, size, own, r - 1, Units(nbytes), grown)
      ensures r != 0 ==> r - 1 in size && nbytes + HEADER <= HEADER * size[r - 1] < nbytes + 2 * HEADER
      ensures LiveKept(old(live), old(size), size)
    {
      Initialize();
      r, asked := MallocUnits(Units(nbytes), sbrk);
    }

    method MallocUnits(n: nat, sbrk: Option<nat>) returns (r: nat, asked: bool)
      requires Listed(free, live, ptr, size, own, freep) && freep != 0 && 0 < n
      requires sbrk.Some? ==> BASE < sbrk.value && forall x :: x in own ==> x < sbrk.value
      modifies this
      ensures Listed(free, live, ptr, size, own, freep) && freep != 0
      ensures asked <==> forall c :: c in old(free) ==> c in old(size) && old(size)[c] < n
      ensures r == 0 <==> asked && sbrk.None?
      ensures r == 0 ==> live == old(live) && own == old(own) && free == old(free)
      ensures r != 0 ==>
        var grown := if asked then Span(sbrk.value, CoreUnits(n)) else {};
        Allocated(old(free), old(live), old(own), free, live, size, own, r - 1, n, grown)
      ensures LiveKept(old(live), old(size), size)
    {
      var found, a := TakeFirst(n);
      asked := !found;
      if found {
        r := a + 1;
      } else {
        r := GrowAndTake(n, sbrk);
      }
    }

    /** A block of n units out of the first free one that is large enough. */
    method TakeFirst(n: nat) returns (found: bool, a: nat)
      requires Listed(free, live, ptr, size, own, freep) && freep != 0 && 0 < n
      modifies this
      ensures Listed(free, live, ptr, size, own, freep) && freep != 0
      ensures found <==> exists c :: c in old(free) && c in old(size) && old(size)[c] >= n
      ensures !found ==> unchanged(this) && forall c :: c in free ==> c in size && size[c] < n
      ensures found ==> Allocated(old(free), old(live), old(own), free, live, size, own, a, n, {})
      ensures LiveKept(old(live), old(size), size)
    {
      LiveSized(free + live, live, size, own);
      var prevp, p;
      found, prevp, p := Search(n);
      a := 0;
      if found {
        a := Take(prevp, p, n);
      }
    }

    /** The rest of malloc's loop once no block fits: morecore, and a walk that cannot fail. */
    method GrowAndTake(n: nat, sbrk: Option<nat>) returns (r: nat)
      requires Listed(free, live, ptr, size, own, freep) && freep != 0 && 0 < n
      requires sbrk.Some? ==> BASE < sbrk.value && forall x :: x in own ==> x < sbrk.value
      modifies this
      ensures Listed(free, live, ptr, size, own, freep) && freep != 0
      ensures r == 0 <==> sbrk.None?
      ensures r == 0 ==> live == old(live) && own == old(own) && free == old(free)
      ensures r != 0 ==>
        Allocated(old(free), old(live), old(own), free, live, size, own, r - 1, n, Span(sbrk.value, CoreUnits(n)))
      ensures LiveKept(old(live), old(size), size)
    {
      LiveSized(free + live, live, size, own);
      ghost var f0, l0, sz0, ow0 := free, live, size, own;
      var ok := Morecore(n, sbrk);
      if !ok {
        return 0;
      }
      ghost var f1, sz1, ow1 := free, size, own;
      var found, a := TakeFirst(n);
      assert found;
      KeptTwice(l0, sz0, sz1, size);
      TakenFromGrown(f0, l0, ow0, f1, sz1, ow1, free, live, size, own, a, n, sbrk.value);
      r := a + 1;
    }
  }

  lemma TakenFromGrown(f0: set<nat>, l0: set<nat>, ow0: map<nat, nat>, f1: set<nat>, sz1: map<nat, nat>,
                       ow1: map<nat, nat>,
                       free: set<nat>, live: set<nat>, size: map<nat, nat>, own: map<nat, nat>, a: nat, n: nat, g: nat)
    requires Grew(f0, ow0, f1, sz1, ow1, g, CoreUnits(n)) && Allocated(f1, l0, ow1, free, live, size, own, a, n, {})
    ensures Allocated(f0, l0, ow0, free, live, size, own, a, n, Span(g, CoreUnits(n)))
  {
  }

  /** Block a, n units long, came out of the free units and the newly grown ones, and out of nothing else. */
  predicate Allocated(f0: set<nat>, l0: set<nat>, ow0: map<nat, nat>, free: set<nat>, live: set<nat>,
                      size: map<nat, nat>, own: map<nat, nat>,
                      a: nat, n: nat, grown: set<nat>)
  {
    && a !in l0 && live == l0 + {a} && a in size && size[a] == n
    && Span(a, n) <= FreeUnits(f0, ow0) + grown
    && FreeUnits(free, own) == FreeUnits(f0, ow0) + grown - Span(a, n)
    && own.Keys == ow0.Keys + grown
  }

  /** A header, and units for the bytes, with less than a unit to spare. */
  function Units(nbytes: nat): (n: nat)
    ensures nbytes + HEADER <= HEADER * n < nbytes + 2 * HEADER
  {
    (nbytes + HEADER - 1) / HEADER + 1
  }

  /** Walking up from start, with one wrap, block c comes before p. */
  predicate Seen(start: nat, p: nat, c: nat) {
    if start <= p then start <= c < p else c >= start || c < p
  }

  function Unseen(free: set<nat>, start: nat, p: nat): set<nat> {
    set c | c in free + {BASE} && !Seen(start, p, c)
  }

  lemma SeenNext(free: set<nat>, ptr: map<nat, nat>, start: nat, f: nat, p: nat)
    requires Ring(free, ptr) && f in free + {BASE} && p in free + {BASE} && p != f && start == ptr[f]
    ensures forall c :: c in free + {BASE} ==> (Seen(start, ptr[p], c) <==> Seen(start, p, c) || c == p)
    ensures |Unseen(free, start, ptr[p])| < |Unseen(free, start, p)|
  {
    assert NextOk(free, ptr, p) && NextOk(free, ptr, f);
    assert Unseen(free, start, ptr[p]) == Unseen(free, start, p) - {p};
  }

  lemma AllSeen(free: set<nat>, ptr: map<nat, nat>, start: nat, f: nat)
    requires Ring(free, ptr) && f in free + {BASE} && start == ptr[f]
    ensures forall c :: c in free + {BASE} ==> Seen(start, f, c) || c == f
  {
    assert NextOk(free, ptr, f);
  }

  lemma TakeAll(free: set<nat>, live: set<nat>, ptr: map<nat, nat>, size: map<nat, nat>, own: map<nat, nat>,
                prevp: nat, p: nat, ptr': map<nat, nat>)
    requires Listed(free, live, ptr, size, own, prevp) && p == ptr[prevp] && p in free && p in ptr && p in size
    requires ptr' == ptr[prevp := ptr[p]]
    ensures Listed(free - {p}, live + {p}, ptr', size, own, prevp)
    ensures Allocated(free, live, own, free - {p}, live + {p}, size, own, p, size[p], {}) && LiveKept(live, size, size)
  {
    assert NextOk(free, ptr, prevp);
    RingRemove(free, ptr, prevp);
    assert free - {p} + (live + {p}) == free + live;
    UnitsOf(free - {p}, free + live, size, own, p);
    assert free - {p} + {p} == free;
    UnitsApart(free - {p}, free + live, size, own, p);
  }

  lemma UnitsApart(free: set<nat>, blocks: set<nat>, size: map<nat, nat>, own: map<nat, nat>, b: nat)
    requires Tiles(blocks, size, own) && b in blocks && b !in free
    ensures FreeUnits(free, own) !! Span(b, size[b])
  {
    assert BlockOk(size, own, b);
  }

  lemma TakeTail(free: set<nat>, live: set<nat>, ptr: map<nat, nat>, size: map<nat, nat>, own: map<nat, nat>,
                 prevp: nat, p: nat, n: nat, q: nat,
                 size': map<nat, nat>, own': map<nat, nat>)
    requires Listed(free, live, ptr, size, own, prevp)
    requires p in free && p in size && 0 < n < size[p] && q == p + size[p] - n
    requires size' == size[p := size[p] - n][q := n] && own' == Moved(own, q, q + n, q)
    ensures Listed(free, live + {q}, ptr, size', own', prevp)
    ensures Allocated(free, live, own, free, live + {q}, size', own', q, n, {}) && LiveKept(live, size, size')
  {
    TilesSplit(free + live, size, own, p, n, q, size', own');
    assert free + live + {q} == free + (live + {q});
    TailUnits(free, free + live, size, own, p, n, q);
  }

  lemma TailUnits(free: set<nat>, blocks: set<nat>, size: map<nat, nat>, own: map<nat, nat>, p: nat, n: nat, q: nat)
    requires Tiles(blocks, size, own) && p in blocks && p in free && 0 < n < size[p] && q == p + size[p] - n
    requires q !in free
    ensures Span(q, n) <= FreeUnits(free, own)
    ensures FreeUnits(free, Moved(own, q, q + n, q)) == FreeUnits(free, own) - Span(q, n)
  {
    assert BlockOk(size, own, p);
  }

  /** morecore asks for no less than 4096 units at a time. */
  function CoreUnits(n: nat): (m: nat)
    ensures n <= m && 4096 <= m && m in {n, 4096}
  {
    if n < 4096 then 4096 else n
  }

  lemma LiveSized(blocks: set<nat>, live: set<nat>, size: map<nat, nat>, own: map<nat, nat>)
    requires Tiles(blocks, size, own) && live <= blocks
    ensures LiveKept(live, size, size)
  {
  }

  /** The heap gained n units at a, all of them free and inside one block. */
  predicate Grew(f0: set<nat>, ow0: map<nat, nat>, free: set<nat>, size: map<nat, nat>, own: map<nat, nat>, a: nat,
                 n: nat) {
    && own.Keys == ow0.Keys + Span(a, n) && FreeUnits(free, own) == FreeUnits(f0, ow0) + Span(a, n)
    && a in own && own[a] in free && own[a] in size && size[own[a]] >= n
  }

  lemma AddAndRemove(s: set<nat>, x: nat)
    requires x !in s
    ensures s + {x} - {x} == s
  {
  }

  lemma GrewThrough(f0: set<nat>, ow0: map<nat, nat>, ow1: map<nat, nat>, free: set<nat>, size: map<nat, nat>,
                    own: map<nat, nat>, a: nat, n: nat)
    requires ow1.Keys == ow0.Keys + Span(a, n) && FreeUnits(f0, ow1) == FreeUnits(f0, ow0)
    requires own.Keys == ow1.Keys && FreeUnits(free, own) == FreeUnits(f0, ow1) + Span(a, n)
    requires a in own && own[a] in free && own[a] in size && size[own[a]] >= n
    ensures Grew(f0, ow0, free, size, own, a, n)
  {
  }

  lemma GrowHeap(free: set<nat>, live: set<nat>, ptr: map<nat, nat>, size: map<nat, nat>, own: map<nat, nat>, f: nat,
                 a: nat, n: nat)
    requires Listed(free, live, ptr, size, own, f)
    requires BASE < a && 0 < n && forall x :: x in own ==> x < a
    ensures a !in free && a !in live
    ensures Listed(free, live + {a}, ptr, size[a := n], own + Region(a, n), f)
    ensures FreeUnits(free, own + Region(a, n)) == FreeUnits(free, own)
    ensures (own + Region(a, n)).Keys == own.Keys + Span(a, n)
    ensures LiveKept(live, size, size[a := n])
  {
    TilesGrow(free + live, size, own, a, n);
    assert free + live + {a} == free + (live + {a});
  }

  lemma KeptTwice(live: set<nat>, sz0: map<nat, nat>, sz1: map<nat, nat>, sz: map<nat, nat>)
    requires LiveKept(live, sz0, sz1) && LiveKept(live, sz1, sz)
    ensures LiveKept(live, sz0, sz)
  {
  }

  lemma KeptThrough(live: set<nat>, sz0: map<nat, nat>, sz1: map<nat, nat>, sz: map<nat, nat>, b: nat)
    requires Enlarged(sz0, sz1, b) && LiveKept(live, sz1, sz) && b !in live
    ensures LiveKept(live, sz0, sz)
  {
  }

  /** b carries its successor's address, is clear of it, and waits to be linked from p. */
  predicate Half(free: set<nat>, live: set<nat>, ptr: map<nat, nat>, ring: map<nat, nat>, size: map<nat, nat>,
                 own: map<nat, nat>, p: nat, b: nat) {
    && Loose(free, live, ring, size, own, p, b) && (forall c :: c in free ==> b + size[b] != c)
    && (forall a :: a in free + {BASE} && a != p ==> a in ptr && ptr[a] == ring[a])
    && b in ptr && ptr[b] == ring[p]
  }

  lemma BlockHasUnits(blocks: set<nat>, size: map<nat, nat>, own: map<nat, nat>, b: nat)
    requires Tiles(blocks, size, own) && b in blocks
    ensures b in size && 0 < size[b] && BASE < b
  {
    assert BlockOk(size, own, b);
  }

  lemma HalfSizes(free: set<nat>, live: set<nat>, ptr: map<nat, nat>, ring: map<nat, nat>, size: map<nat, nat>,
                  own: map<nat, nat>, p: nat, b: nat)
    requires Half(free, live, ptr, ring, size, own, p, b) && BASE in size
    ensures p in size && b in size && p in free + {BASE}
  {
  }

  /** The list and the tiling after a free. */
  predicate Listed(free: set<nat>, live: set<nat>, ptr: map<nat, nat>, size: map<nat, nat>, own: map<nat, nat>,
                   p: nat) {
    && Ring(free, ptr) && p in free + {BASE} && BASE in size && size[BASE] == 0
    && free !! live && Tiles(free + live, size, own) && NoneAdjacent(free, size)
  }

  predicate SameUnits(f0: set<nat>, ow0: map<nat, nat>, f: set<nat>, ow: map<nat, nat>) {
    FreeUnits(f, ow) == FreeUnits(f0, ow0) && ow.Keys == ow0.Keys
  }

  /** Blocks in use keep their size. */
  predicate LiveKept(live: set<nat>, sz0: map<nat, nat>, sz: map<nat, nat>) {
    forall a :: a in live ==> a in sz0 && a in sz && sz[a] == sz0[a]
  }

  /** Only block b changed its size, and it did not shrink. */
  predicate Enlarged(sz0: map<nat, nat>, sz: map<nat, nat>, b: nat) {
    && sz.Keys == sz0.Keys && b in sz0 && sz[b] >= sz0[b]
    && (forall a :: a in sz0 && a != b ==> sz[a] == sz0[a])
  }

  lemma UpperJoined(f0: set<nat>, live: set<nat>, pt0: map<nat, nat>, sz0: map<nat, nat>, ow0: map<nat, nat>, p: nat,
                    b: nat, n: nat,
                    free: set<nat>, ptr: map<nat, nat>, ring: map<nat, nat>, size: map<nat, nat>, own: map<nat, nat>)
    requires Loose(f0, live, pt0, sz0, ow0, p, b) && b + sz0[b] == n && n == pt0[p] && n in pt0 && n in sz0
    requires free == f0 - {n} && ptr == pt0[b := pt0[n]] && ring == pt0[p := pt0[n]]
    requires size == sz0[b := sz0[b] + sz0[n]] && own == Moved(ow0, n, n + sz0[n], b)
    ensures Half(free, live, ptr, ring, size, own, p, b)
    ensures SameUnits(f0 + {b}, ow0, free + {b}, own) && Enlarged(sz0, size, b)
  {
    JoinUpper(f0, live, pt0, sz0, ow0, p, b, n, ring, size, own);
  }

  lemma UpperLinked(free: set<nat>, live: set<nat>, pt0: map<nat, nat>, size: map<nat, nat>, own: map<nat, nat>,
                    p: nat, b: nat, ptr: map<nat, nat>)
    requires Loose(free, live, pt0, size, own, p, b) && b + size[b] != pt0[p] && ptr == pt0[b := pt0[p]]
    ensures Half(free, live, ptr, pt0, size, own, p, b)
  {
    NoUpper(free, live, pt0, size, own, p, b);
  }

  lemma LowerJoined(free: set<nat>, l0: set<nat>, pt0: map<nat, nat>, ring: map<nat, nat>, sz0: map<nat, nat>,
                    ow0: map<nat, nat>, p: nat, b: nat,
                    ptr: map<nat, nat>, size: map<nat, nat>, own: map<nat, nat>)
    requires Half(free, l0, pt0, ring, sz0, ow0, p, b) && BASE in sz0 && sz0[BASE] == 0 && p in sz0 && p + sz0[p] == b
    requires ptr == pt0[p := pt0[b]] && size == sz0[p := sz0[p] + sz0[b]] && own == Moved(ow0, b, b + sz0[b], p)
    ensures Listed(free, l0 - {b}, ptr, size, own, p) && SameUnits(free + {b}, ow0, free, own)
    ensures LiveKept(l0 - {b}, sz0, size)
    ensures b in own && own[b] in free && size[own[b]] >= sz0[b]
  {
    assert p in free;
    assert BlockOk(sz0, ow0, b);
    JoinLower(free, l0, ring, sz0, ow0, p, b);
    RingFrame(free, ring, ptr);
  }

  lemma LowerLinked(f0: set<nat>, l0: set<nat>, pt0: map<nat, nat>, ring: map<nat, nat>, size: map<nat, nat>,
                    own: map<nat, nat>, p: nat, b: nat,
                    ptr: map<nat, nat>)
    requires Half(f0, l0, pt0, ring, size, own, p, b) && BASE in size && size[BASE] == 0 && p in size
    requires p + size[p] != b
    requires ptr == pt0[p := b]
    ensures Listed(f0 + {b}, l0 - {b}, ptr, size, own, p) && LiveKept(l0 - {b}, size, size)
    ensures b in own && own[b] == b
  {
    assert BlockOk(size, own, b);
    Insert(f0, l0, ring, size, own, p, b);
    RingFrame(f0 + {b}, ring[b := ring[p]][p := b], ptr);
  }

  lemma NoUpper(free: set<nat>, live: set<nat>, ptr: map<nat, nat>, size: map<nat, nat>, own: map<nat, nat>, p: nat,
                b: nat)
    requires Loose(free, live, ptr, size, own, p, b) && b + size[b] != ptr[p]
    ensures forall c :: c in free ==> b + size[b] != c
  {
    assert NextOk(free, ptr, p);
    forall c | c in free ensures b + size[b] != c {
      if b < c {
        TilesDisjoint(free + live, size, own, b, ptr[p]);
      }
    }
  }

  lemma UnitsOf(free: set<nat>, blocks: set<nat>, size: map<nat, nat>, own: map<nat, nat>, b: nat)
    requires Tiles(blocks, size, own) && b in blocks
    ensures FreeUnits(free + {b}, own) == FreeUnits(free, own) + Span(b, size[b])
  {
    assert BlockOk(size, own, b);
    forall x | x in own ensures own[x] == b <==> b <= x < b + size[b] {
      assert UnitOk(blocks, size, own, x);
    }
  }

  /** Conservation: every unit obtained from sbrk is free or in use, never both, at all times. */
  lemma UnitsConserved(free: set<nat>, live: set<nat>, size: map<nat, nat>, own: map<nat, nat>)
    requires free !! live && Tiles(free + live, size, own)
    ensures FreeUnits(free, own) !! FreeUnits(live, own)
    ensures own.Keys == FreeUnits(free, own) + FreeUnits(live, own)
    ensures |own| == |FreeUnits(free, own)| + |FreeUnits(live, own)|
  {
    forall x | x in own ensures x in FreeUnits(free, own) + FreeUnits(live, own) {
      assert UnitOk(free + live, size, own, x);
    }
    assert own.Keys == FreeUnits(free, own) + FreeUnits(live, own);
  }
}
