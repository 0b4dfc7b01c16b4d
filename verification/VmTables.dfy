/**
 The table pages that a range of virtual pages needs, and those that are missing: what walk
 has to allocate before the range can be mapped.
 */
module VmTables {
  import opened Params
  import opened Sets
  import opened VmModel

  /** The positions that the walk for vpn passes below the root, down to a level. */
  function Path(root: nat, vpn: nat, level: nat): (p: set<Node>)
    ensures |p| <= 2
  {
    if level >= 2 then {}
    else if level == 1 then {Node(root, 1, Prefix(1, vpn))}
    else {Node(root, 1, Prefix(1, vpn)), Node(root, 0, Prefix(0, vpn))}
  }

  /** The positions that n pages from lo on need. */
  function Wanted(root: nat, lo: nat, n: nat): set<Node> {
    if n == 0 then {} else Wanted(root, lo, n - 1) + Path(root, lo + n - 1, 0)
  }

  /** Those of them where no table stands yet, if tables stand at the positions `at`. */
  function Missing(at: set<Node>, root: nat, lo: nat, n: nat): set<Node> {
    Wanted(root, lo, n) - at
  }

  /** There are pages enough, `free` of them, for n new pages from lo on and the tables that are missing. */
  predicate Enough(at: set<Node>, root: nat, lo: nat, n: nat, free: nat) {
    n + |Missing(at, root, lo, n)| <= free
  }

  lemma {:induction false} WantedGrows(root: nat, lo: nat, k: nat, n: nat)
    requires k <= n
    ensures Wanted(root, lo, k) <= Wanted(root, lo, n)
  {
    if k < n {
      WantedGrows(root, lo, k, n - 1);
    }
  }

  lemma {:induction false} WantedSize(root: nat, lo: nat, n: nat)
    ensures |Wanted(root, lo, n)| <= 2 * n
  {
    if n > 0 {
      WantedSize(root, lo, n - 1);
      UnionSize(Wanted(root, lo, n - 1), Path(root, lo + n - 1, 0));
    }
  }

  /** Three pages for each are always enough. */
  lemma ThreeEach(at: set<Node>, root: nat, lo: nat, n: nat, free: nat)
    requires 3 * n <= free
    ensures Enough(at, root, lo, n, free)
  {
    WantedSize(root, lo, n);
    SubsetSize(Missing(at, root, lo, n), Wanted(root, lo, n));
  }

  /** Position m is on the way to one of n pages from lo on. */
  ghost predicate Needs(root: nat, lo: nat, n: nat, m: Node) {
    exists v {:trigger Passes(root, v, m)} :: lo <= v < lo + n && Passes(root, v, m)
  }

  predicate Passes(root: nat, vpn: nat, m: Node) {
    m.root == root && m.level < 2 && m.prefix == Prefix(m.level, vpn)
  }

  lemma {:induction false} WantedIs(root: nat, lo: nat, n: nat, m: Node)
    ensures m in Wanted(root, lo, n) <==> Needs(root, lo, n, m)
  {
    if n > 0 {
      WantedIs(root, lo, n - 1, m);
      assert m in Path(root, lo + n - 1, 0) <==> Passes(root, lo + n - 1, m);
    }
  }

  /** Where a table stands there is one above it. */
  lemma AboveIt(tables: Tables, place: map<nat, Node>, up: map<nat, nat>, root: nat, vpn: nat)
    requires TreesOk(tables, place, up) && Node(root, 0, Prefix(0, vpn)) in place.Values
    ensures Node(root, 1, Prefix(1, vpn)) in place.Values
  {
    var t :| t in place && place[t] == Node(root, 0, Prefix(0, vpn));
    assert LinkedUp(tables, place, up, t);
    assert place[up[t]] == Node(root, 1, Prefix(1, vpn));
  }

  /** Under an empty entry no table stands. */
  lemma NoneThere(tables: Tables, place: map<nat, Node>, up: map<nat, nat>, t: nat, k: nat)
    requires TreesOk(tables, place, up) && t in tables && place[t].level > 0 && k < ENTRIES == |tables[t]|
    requires !ValidPte(tables[t][k])
    ensures Child(place[t], k) !in place.Values
  {
    if Child(place[t], k) in place.Values {
      var s :| s in place && place[s] == Child(place[t], k);
      assert NodeOk(tables, place, t) && LinkedUp(tables, place, up, s);
      OnePlace(tables, place, up, up[s], t);
    }
  }

  /** A table is missing exactly if the walk does not get to that level. */
  lemma MissingIs(tables: Tables, place: map<nat, Node>, up: map<nat, nat>, root: nat, level: nat, vpn: nat)
    requires TreesOk(tables, place, up) && IsRoot(tables, place, root) && level < 2 && vpn < MAXVPN
    ensures Node(root, level, Prefix(level, vpn)) !in place.Values <==> Reach(tables, root, level, vpn).None?
  {
    var r := Down(tables, root, 2, vpn);
    assert r == Reach(tables, root, 1, vpn);
    assert NodeOk(tables, place, root) && EntryOk(tables, place, root, Index(2, vpn));
    PrefixStep(root, 2, vpn);
    if r.None? {
      NoneThere(tables, place, up, root, Index(2, vpn));
      if level == 0 && Node(root, 0, Prefix(0, vpn)) in place.Values {
        AboveIt(tables, place, up, root, vpn);
      }
    } else if level == 0 {
      PrefixStep(root, 1, vpn);
      assert NodeOk(tables, place, r.value) && EntryOk(tables, place, r.value, Index(1, vpn));
      if Down(tables, r.value, 1, vpn).None? {
        NoneThere(tables, place, up, r.value, Index(1, vpn));
      }
    }
  }

  /** There are as many tables as positions. */
  lemma OneTableEach(tables: Tables, place: map<nat, Node>, up: map<nat, nat>)
    requires TreesOk(tables, place, up)
    ensures |place.Values| == |tables|
  {
    forall s, t | s in place && t in place && place[s] == place[t] ensures s == t {
      OnePlace(tables, place, up, s, t);
    }
    ValuesSize(place);
    assert |place| == |place.Keys| && |tables| == |tables.Keys|;
  }

  // ------------------------------------------------------------ tables that are added for a range

  predicate Stands(at: set<Node>, m: Node) {
    m in at
  }

  /** Exactly the tables that the first k pages from lo on need have been added. */
  ghost predicate Extended(was: set<Node>, at: set<Node>, root: nat, lo: nat, k: nat) {
    forall m {:trigger Stands(at, m)} :: Stands(at, m) <==> Stands(was, m) || Needs(root, lo, k, m)
  }

  /** And some of those for the page after them, but not the last. */
  ghost predicate Stuck(was: set<Node>, at: set<Node>, root: nat, lo: nat, k: nat) {
    && (forall m {:trigger Stands(at, m)} ::
         && (Stands(was, m) || Needs(root, lo, k, m) ==> Stands(at, m))
         && (Stands(at, m) ==> Stands(was, m) || Needs(root, lo, k + 1, m)))
    && LastMissing(at, root, lo + k)
  }

  predicate LastMissing(at: set<Node>, root: nat, vpn: nat) {
    Node(root, 0, Prefix(0, vpn)) !in at
  }

  lemma ExtendedIs(was: set<Node>, at: set<Node>, root: nat, lo: nat, k: nat)
    ensures Extended(was, at, root, lo, k) <==> at == was + Wanted(root, lo, k)
  {
    forall m ensures Stands(was, m) || Needs(root, lo, k, m) <==> m in was + Wanted(root, lo, k) {
      WantedIs(root, lo, k, m);
    }
    if Extended(was, at, root, lo, k) {
      forall m ensures m in at <==> m in was + Wanted(root, lo, k) {
        assert Stands(at, m) <==> m in at;
      }
    }
  }

  /** Stuck, in terms of sets. */
  predicate Between(was: set<Node>, at: set<Node>, root: nat, lo: nat, k: nat) {
    was + Wanted(root, lo, k) <= at <= was + Wanted(root, lo, k + 1) && LastMissing(at, root, lo + k)
  }

  lemma StuckBetween(was: set<Node>, at: set<Node>, root: nat, lo: nat, k: nat)
    requires Stuck(was, at, root, lo, k)
    ensures Between(was, at, root, lo, k)
  {
    forall m ensures m in was + Wanted(root, lo, k) ==> m in at {
      WantedIs(root, lo, k, m);
      assert Stands(at, m) <==> m in at;
    }
    forall m ensures m in at ==> m in was + Wanted(root, lo, k + 1) {
      WantedIs(root, lo, k + 1, m);
      assert Stands(at, m) <==> m in at;
    }
  }

  lemma BetweenStuck(was: set<Node>, at: set<Node>, root: nat, lo: nat, k: nat)
    requires Between(was, at, root, lo, k)
    ensures Stuck(was, at, root, lo, k)
  {
    forall m
      ensures Stands(was, m) || Needs(root, lo, k, m) ==> Stands(at, m)
      ensures Stands(at, m) ==> Stands(was, m) || Needs(root, lo, k + 1, m)
    {
      WantedIs(root, lo, k, m);
      WantedIs(root, lo, k + 1, m);
    }
  }

  lemma ExtendedSize(was: set<Node>, at: set<Node>, root: nat, lo: nat, k: nat)
    requires Extended(was, at, root, lo, k)
    ensures |at| == |was| + |Missing(was, root, lo, k)|
  {
    ExtendedIs(was, at, root, lo, k);
    assert at == was + Missing(was, root, lo, k);
  }

  lemma StuckSize(was: set<Node>, at: set<Node>, root: nat, lo: nat, k: nat)
    requires Stuck(was, at, root, lo, k)
    ensures |at| < |was| + |Missing(was, root, lo, k + 1)|
  {
    StuckBetween(was, at, root, lo, k);
    var last, all := Node(root, 0, Prefix(0, lo + k)), Missing(was, root, lo, k + 1);
    assert last in Path(root, lo + k, 0) && last in all;
    assert at <= was + (all - {last});
    SubsetSize(at, was + (all - {last}));
  }

  lemma MissingGrows(at: set<Node>, root: nat, lo: nat, k: nat, n: nat)
    requires k <= n
    ensures |Missing(at, root, lo, k)| <= |Missing(at, root, lo, n)|
  {
    WantedGrows(root, lo, k, n);
    SubsetSize(Missing(at, root, lo, k), Missing(at, root, lo, n));
  }

  lemma PositionAdded(place: map<nat, Node>, c: nat, m: Node)
    requires c !in place
    ensures place[c := m].Values == place.Values + {m}
  {
    forall x | x in place.Values ensures x in place[c := m].Values {
      var s :| s in place && place[s] == x;
      assert s in place[c := m] && place[c := m][s] == x;
    }
    assert place[c := m][c] == m;
  }

  /** walk has got down to this level, and the tables on the way there are what it has added. */
  ghost predicate OnPath(was: set<Node>, at: set<Node>, root: nat, vpn: nat, level: nat) {
    && (forall m {:trigger Stands(at, m)} :: Stands(at, m) <==> m in was || m in Path(root, vpn, level))
    && (level == 0 ==> Extended(was, at, root, vpn, 1))
  }

  lemma OnPathIs(was: set<Node>, at: set<Node>, root: nat, vpn: nat, level: nat)
    ensures OnPath(was, at, root, vpn, level) <==> at == was + Path(root, vpn, level)
  {
    assert Wanted(root, vpn, 1) == Path(root, vpn, 0);
    ExtendedIs(was, at, root, vpn, 1);
    if OnPath(was, at, root, vpn, level) {
      forall m ensures m in at <==> m in was + Path(root, vpn, level) {
        assert Stands(at, m) <==> m in at;
      }
    }
  }

  lemma OnPathStart(was: set<Node>, root: nat, vpn: nat)
    ensures OnPath(was, was, root, vpn, 2)
  {
  }

  /** walk gets one level further down. */
  lemma OnPathNext(was: set<Node>, mid: set<Node>, at: set<Node>, root: nat, vpn: nat, level: nat)
    requires 0 < level <= 2 && OnPath(was, mid, root, vpn, level)
    requires at == mid + {Node(root, level - 1, Prefix(level - 1, vpn))}
    ensures OnPath(was, at, root, vpn, level - 1)
  {
    OnPathIs(was, mid, root, vpn, level);
    OnPathIs(was, at, root, vpn, level - 1);
  }

  /** walk gets no further than this level. */
  lemma NotReached(tables: Tables, place: map<nat, Node>, up: map<nat, nat>, was: set<Node>, root: nat, vpn: nat,
                   level: nat)
    requires TreesOk(tables, place, up) && 0 < level <= 2 && OnPath(was, place.Values, root, vpn, level)
    requires Node(root, level - 1, Prefix(level - 1, vpn)) !in place.Values
    ensures Stuck(was, place.Values, root, vpn, 0)
  {
    assert Wanted(root, vpn, 1) == Path(root, vpn, 0);
    OnPathIs(was, place.Values, root, vpn, level);
    if Node(root, 0, Prefix(0, vpn)) in place.Values {
      AboveIt(tables, place, up, root, vpn);
    }
    BetweenStuck(was, place.Values, root, vpn, 0);
  }

  lemma ExtendedNext(was: set<Node>, mid: set<Node>, at: set<Node>, root: nat, lo: nat, k: nat)
    requires Extended(was, mid, root, lo, k) && Extended(mid, at, root, lo + k, 1)
    ensures Extended(was, at, root, lo, k + 1)
  {
    assert Wanted(root, lo + k, 1) == Path(root, lo + k, 0);
    ExtendedIs(was, mid, root, lo, k);
    ExtendedIs(mid, at, root, lo + k, 1);
    ExtendedIs(was, at, root, lo, k + 1);
  }

  lemma BetweenNext(was: set<Node>, mid: set<Node>, at: set<Node>, root: nat, lo: nat, k: nat)
    requires mid == was + Wanted(root, lo, k) && Between(mid, at, root, lo + k, 0)
    ensures Between(was, at, root, lo, k)
  {
    assert Wanted(root, lo + k, 0) == {} && Wanted(root, lo + k, 1) == Path(root, lo + k, 0);
    assert Wanted(root, lo, k + 1) == Wanted(root, lo, k) + Path(root, lo + k, 0);
  }

  lemma StuckNext(was: set<Node>, mid: set<Node>, at: set<Node>, root: nat, lo: nat, k: nat)
    requires Extended(was, mid, root, lo, k) && Stuck(mid, at, root, lo + k, 0)
    ensures Stuck(was, at, root, lo, k)
  {
    ExtendedIs(was, mid, root, lo, k);
    StuckBetween(mid, at, root, lo + k, 0);
    BetweenNext(was, mid, at, root, lo, k);
    BetweenStuck(was, at, root, lo, k);
  }

  /** Either of the two. */
  ghost predicate Grew(was: set<Node>, at: set<Node>, root: nat, lo: nat, k: nat, stuck: bool) {
    if stuck then Stuck(was, at, root, lo, k) else Extended(was, at, root, lo, k)
  }

  /** First k pages, and then one more, or none. */
  lemma GrewNext(was: set<Node>, mid: set<Node>, at: set<Node>, root: nat, lo: nat, k: nat, j: nat, stuck: bool)
    requires Extended(was, mid, root, lo, k) && j <= 1 && (stuck ==> j == 0) && Grew(mid, at, root, lo + k, j, stuck)
    ensures Grew(was, at, root, lo, k + j, stuck)
  {
    if stuck {
      StuckNext(was, mid, at, root, lo, k);
    } else if j == 1 {
      ExtendedNext(was, mid, at, root, lo, k);
    } else {
      ExtendedIs(mid, at, root, lo + k, 0);
    }
  }

  lemma ExtendedNone(was: set<Node>, root: nat, lo: nat)
    ensures Extended(was, was, root, lo, 0)
  {
    ExtendedIs(was, was, root, lo, 0);
  }

  // ------------------------------------------------------------ counting pages

  /** Of `total` pages so many are free, so many hold data, and the others are tables. */
  predicate Counted(total: nat, free: nat, at: set<Node>, data: nat) {
    free + |at| + data == total
  }

  /** What the tables for k pages have cost. */
  lemma Took(total: nat, free0: nat, was: set<Node>, data0: nat, free: nat, at: set<Node>, data: nat, root: nat,
             lo: nat, k: nat)
    requires Counted(total, free0, was, data0) && Counted(total, free, at, data) && Extended(was, at, root, lo, k)
    ensures free0 + data0 == free + data + |Missing(was, root, lo, k)|
  {
    ExtendedSize(was, at, root, lo, k);
  }

  /** Stuck at page k of n: the pages that are free would not have done for all the tables. */
  lemma RanOut(total: nat, free0: nat, was: set<Node>, data0: nat, free: nat, at: set<Node>, data: nat, root: nat,
               lo: nat, k: nat, n: nat)
    requires Counted(total, free0, was, data0) && Counted(total, free, at, data) && Stuck(was, at, root, lo, k) && k < n
    ensures free0 + data0 < free + data + |Missing(was, root, lo, n)|
  {
    StuckSize(was, at, root, lo, k);
    MissingGrows(was, root, lo, k + 1, n);
  }

  /** New pages: none is left for page k itself, or one, and that is not enough for its tables. */
  ghost predicate Starved(was: set<Node>, at: set<Node>, root: nat, lo: nat, k: nat, free: nat) {
    k <= free <= k + 1 && Grew(was, at, root, lo, k, free == k + 1)
  }

  ghost predicate StarvedBefore(was: set<Node>, at: set<Node>, root: nat, lo: nat, n: nat, free: nat) {
    exists k {:trigger Starved(was, at, root, lo, k, free)} :: 0 <= k < n && Starved(was, at, root, lo, k, free)
  }

  /** Whether there are pages enough for n new pages and the tables they need is known beforehand. */
  lemma Verdict(total: nat, free0: nat, was: set<Node>, data0: nat, free: nat, at: set<Node>, data: nat, root: nat,
                lo: nat, n: nat, ok: bool)
    requires Counted(total, free0, was, data0) && Counted(total, free, at, data)
    requires if ok then data == data0 + n && Extended(was, at, root, lo, n)
             else data == data0 && StarvedBefore(was, at, root, lo, n, free)
    ensures (ok <==> Enough(was, root, lo, n, free0)) && (!ok ==> free <= n)
  {
    if ok {
      Took(total, free0, was, data0, free, at, data, root, lo, n);
    } else {
      var k :| 0 <= k < n && Starved(was, at, root, lo, k, free);
      if free == k + 1 {
        RanOut(total, free0, was, data0, free, at, data, root, lo, k, n);
      } else {
        Took(total, free0, was, data0, free, at, data, root, lo, k);
        MissingGrows(was, root, lo, k, n);
      }
    }
  }
}
