/**
 Physical pages and user address spaces: the page allocator's free list, the
 page-table pages, and the data pages that the tables map. Every operation is
 specified on the finite map `mapping` that the tables represent.
 */
module Vm {
  import opened Params
  import opened VmModel
  import opened VmTables

  const PGSIZE: nat := 4096
  type Content = seq<nat>

  function Filled(v: nat): (c: Content)
    ensures |c| == PGSIZE && forall i :: 0 <= i < PGSIZE ==> c[i] == v
  {
    seq(PGSIZE, _ => v)
  }

  /** The pages from lo to hi - 1. */
  function PageSet(lo: nat, hi: nat): (s: set<nat>)
    ensures forall p :: p in s <==> lo <= p < hi
    decreases hi - lo
  {
    if lo >= hi then {} else {lo} + PageSet(lo + 1, hi)
  }

  /** Memory before kinit, with whatever contents. */
  function Untouched(lo: nat, hi: nat): (m: map<nat, Content>)
    ensures forall p :: p in m <==> lo <= p < hi
    decreases hi - lo
  {
    if lo >= hi then map[] else Untouched(lo + 1, hi)[lo := Filled(0)]
  }

  /** PGROUNDUP(sz) / PGSIZE: the fewest pages that hold sz bytes. */
  function PageUp(sz: nat): (n: nat)
    ensures sz <= n * PGSIZE < sz + PGSIZE
  {
    (sz + PGSIZE - 1) / PGSIZE
  }

  /** perm | PTE_V */
  function WithV(perm: nat): (flags: nat)
    ensures flags % 2 == 1 && flags / 2 == perm / 2
  {
    if perm % 2 == 1 then perm else perm + 1
  }

  // ------------------------------------------------------------ invariants

  /** Page p is the allocator's exactly if it is free, a table or data, and it is only one of them. */
  predicate Once(pages: set<nat>, free: seq<nat>, tables: Tables, data: map<nat, Content>, p: nat) {
    && (p in pages <==> p in free || p in tables || p in data)
    && (p in free ==> p !in tables && p !in data) && (p in tables ==> p !in data)
  }

  predicate Distinct(s: seq<nat>) {
    forall i, j {:trigger s[i], s[j]} :: 0 <= i < j < |s| ==> s[i] != s[j]
  }

  /** Every page of the allocator is in exactly one place, and the free list holds no page twice. */
  ghost predicate Accounted(pages: set<nat>, free: seq<nat>, tables: Tables, data: map<nat, Content>) {
    Distinct(free) && forall p: nat {:trigger Once(pages, free, tables, data, p)} :: Once(pages, free, tables, data, p)
  }

  /**
   An allocator page is mapped at most once, at the page its owner names, and while it is mapped it
   is neither free nor a table.
   */
  ghost predicate Owned(pages: set<nat>, mapping: Mapping, data: map<nat, Content>, owner: map<nat, Va>) {
    && (forall a :: a in mapping && mapping[a].ppn in pages ==> mapping[a].ppn in owner && owner[mapping[a].ppn] == a)
    && (forall p :: p in owner ==> p in data && owner[p] in mapping && mapping[owner[p]].ppn == p)
  }

  ghost predicate RootsOk(roots: set<nat>, tables: Tables, place: map<nat, Node>) {
    forall r :: r in roots <==> IsRoot(tables, place, r)
  }

  predicate InRange(a: Va, root: nat, lo: nat, n: nat) {
    a.root == root && lo <= a.vpn < lo + n
  }

  // ------------------------------------------------------------ what the operations do to the map

  ghost predicate Unmapped(m: Mapping, root: nat, lo: nat, hi: nat) {
    forall v {:trigger Va(root, v)} :: lo <= v < hi ==> Va(root, v) !in m
  }

  /** Allocator pages among lo..hi-1 are allocated and not mapped anywhere. */
  ghost predicate Available(pages: set<nat>, d: map<nat, Content>, o: map<nat, Va>, lo: nat, hi: nat) {
    forall p :: lo <= p < hi && p in pages ==> p in d && p !in o
  }

  function Without(m: Mapping, root: nat, lo: nat, n: nat): Mapping {
    map a | a in m && !InRange(a, root, lo, n) :: m[a]
  }

  function OwnersWithout(o: map<nat, Va>, root: nat, lo: nat, n: nat): map<nat, Va> {
    map p | p in o && !InRange(o[p], root, lo, n) :: o[p]
  }

  function DataWithout(d: map<nat, Content>, o: map<nat, Va>, root: nat, lo: nat, n: nat): map<nat, Content> {
    map p | p in d && !(p in o && InRange(o[p], root, lo, n)) :: d[p]
  }

  function WithPages(m: Mapping, root: nat, vpn: nat, ppn: nat, flags: nat, k: nat): Mapping {
    if k == 0 then m
    else WithPages(m, root, vpn, ppn, flags, k - 1)[Va(root, vpn + k - 1) := Pte(ppn + k - 1, flags)]
  }

  /** Owners after an entry for a has been made to point to page p. */
  ghost function Claim(o: map<nat, Va>, pages: set<nat>, p: nat, a: Va): map<nat, Va> {
    if p in pages then o[p := a] else o
  }

  ghost function WithOwners(o: map<nat, Va>, pages: set<nat>, root: nat, vpn: nat, ppn: nat, k: nat): map<nat, Va> {
    if k == 0 then o
    else Claim(WithOwners(o, pages, root, vpn, ppn, k - 1), pages, ppn + k - 1, Va(root, vpn + k - 1))
  }

  /** What mappages comes to; a page that is mapped already is a panic. */
  datatype MapResult = Mapped | NoMemory | PanicRemap | PanicSize

  /**
   The first i of n pages were unmapped and are mapped; the others are as before and their physical
   pages available.
   */
  ghost predicate MappedTo(pages: set<nat>, d: map<nat, Content>, m0: Mapping, o0: map<nat, Va>, m: Mapping,
                           o: map<nat, Va>, root: nat, vpn: nat, ppn: nat, flags: nat, i: nat, n: nat)
  {
    && m == WithPages(m0, root, vpn, ppn, flags, i) && o == WithOwners(o0, pages, root, vpn, ppn, i)
    && Unmapped(m0, root, vpn, vpn + i) && Available(pages, d, o, ppn + i, ppn + n)
    && forall v {:trigger Va(root, v)} :: vpn + i <= v < vpn + n ==> (Va(root, v) in m <==> Va(root, v) in m0)
  }

  lemma MappedStep(pages: set<nat>, d: map<nat, Content>, m0: Mapping, o0: map<nat, Va>, m: Mapping, o: map<nat, Va>,
                   root: nat, vpn: nat, ppn: nat, flags: nat, i: nat, n: nat, a: Va, e: Pte, m': Mapping,
                   o': map<nat, Va>)
    requires MappedTo(pages, d, m0, o0, m, o, root, vpn, ppn, flags, i, n) && i < n && Va(root, vpn + i) !in m
    requires a == Va(root, vpn + i) && e == Pte(ppn + i, flags) && m' == m[a := e] && o' == Claim(o, pages, e.ppn, a)
    ensures MappedTo(pages, d, m0, o0, m', o', root, vpn, ppn, flags, i + 1, n)
  {
    assert m' == WithPages(m0, root, vpn, ppn, flags, i + 1);
    assert o' == WithOwners(o0, pages, root, vpn, ppn, i + 1);
  }

  /** Flags and contents a new page must have. */
  datatype Want = Want(flags: nat, content: Content)

  predicate NewPage(pages: set<nat>, d0: map<nat, Content>, m: Mapping, d: map<nat, Content>, a: Va, w: Want) {
    && a in m && m[a].flags == w.flags && m[a].ppn in pages && m[a].ppn !in d0
    && m[a].ppn in d && d[m[a].ppn] == w.content
  }

  /** The first k wanted pages are mapped from page lo on, each on a page nobody held before; nothing else changed. */
  ghost predicate Fresh(pages: set<nat>, m0: Mapping, d0: map<nat, Content>, o0: map<nat, Va>,
                        m: Mapping, d: map<nat, Content>, o: map<nat, Va>, root: nat, lo: nat, want: seq<Want>, k: nat)
  {
    && k <= |want|
    && (forall i {:trigger want[i]} :: 0 <= i < k ==> NewPage(pages, d0, m, d, Va(root, lo + i), want[i]))
    && m0 == Without(m, root, lo, k) && d0 == DataWithout(d, o, root, lo, k) && o0 == OwnersWithout(o, root, lo, k)
  }

  /** The invariant of the whole memory, on values. */
  ghost predicate State(pages: set<nat>, free: seq<nat>, tables: Tables, data: map<nat, Content>,
                        place: map<nat, Node>, up: map<nat, nat>, roots: set<nat>, mapping: Mapping,
                        owner: map<nat, Va>)
  {
    && Accounted(pages, free, tables, data) && TreesOk(tables, place, up) && RootsOk(roots, tables, place)
    && Represents(tables, place, mapping) && Owned(pages, mapping, data, owner)
  }

  /** The same, said of memberships. */
  lemma Partition(pages: set<nat>, free: seq<nat>, tables: Tables, data: map<nat, Content>)
    requires Accounted(pages, free, tables, data)
    ensures forall p: nat :: p in pages <==> p in free || p in tables || p in data
    ensures forall p: nat :: (p in free ==> p !in tables && p !in data) && (p in tables ==> p !in data)
  {
    forall p: nat
      ensures p in pages <==> p in free || p in tables || p in data
      ensures (p in free ==> p !in tables && p !in data) && (p in tables ==> p !in data)
    {
      assert Once(pages, free, tables, data, p);
    }
  }

  lemma DataToTable(pages: set<nat>, free: seq<nat>, tables: Tables, data: map<nat, Content>, c: nat, tables': Tables,
                    data': map<nat, Content>)
    requires Accounted(pages, free, tables, data) && c in data && tables'.Keys == tables.Keys + {c}
    requires data' == data - {c}
    ensures Accounted(pages, free, tables', data')
  {
    forall p: nat ensures Once(pages, free, tables', data', p) {
      assert Once(pages, free, tables, data, p);
      assert p in tables' <==> p in tables || p == c;
    }
  }

  lemma UnownedData(pages: set<nat>, mapping: Mapping, data: map<nat, Content>, owner: map<nat, Va>, c: nat,
                    data': map<nat, Content>)
    requires Owned(pages, mapping, data, owner) && c !in owner && data' == data - {c}
    ensures Owned(pages, mapping, data', owner)
  {
  }

  lemma SameRoots(roots: set<nat>, tables: Tables, place: map<nat, Node>, tables': Tables, place': map<nat, Node>,
                  c: nat, n: Node)
    requires RootsOk(roots, tables, place) && tables'.Keys == tables.Keys + {c} && place' == place[c := n]
    requires c !in tables && n.level < 2
    ensures RootsOk(roots, tables', place')
  {
    assert forall p :: p in tables' <==> p in tables || p == c;
  }

  lemma Hang(pages: set<nat>, free: seq<nat>, tables: Tables, data: map<nat, Content>, place: map<nat, Node>,
             up: map<nat, nat>, roots: set<nat>, mapping: Mapping, owner: map<nat, Va>, t: nat, k: nat, c: nat,
             tables': Tables, data': map<nat, Content>, place': map<nat, Node>, up': map<nat, nat>)
    requires State(pages, free, tables, data, place, up, roots, mapping, owner)
    requires t in tables && place[t].level > 0 && k < |tables[t]| && !ValidPte(tables[t][k]) && c in data
    requires c !in owner && InBounds(Child(place[t], k))
    requires tables' == tables[t := tables[t][k := Pte(c, PTE_V)]][c := ZeroTable()] && data' == data - {c}
    requires place' == place[c := Child(place[t], k)] && up' == up[c := t]
    ensures State(pages, free, tables', data', place', up', roots, mapping, owner)
    ensures tables'.Keys == tables.Keys + {c} && c !in tables
  {
    assert Once(pages, free, tables, data, c) && NodeOk(tables, place, t);
    AddTable(tables, place, up, mapping, t, k, c, tables', place', up');
    SameRoots(roots, tables, place, tables', place', c, Child(place[t], k));
    DataToTable(pages, free, tables, data, c, tables', data');
    UnownedData(pages, mapping, data, owner, c, data');
  }

  /** Mapping a page nobody maps yet. */
  lemma MapOne(pages: set<nat>, free: seq<nat>, tables: Tables, data: map<nat, Content>, place: map<nat, Node>,
               up: map<nat, nat>, roots: set<nat>, mapping: Mapping, owner: map<nat, Va>, t: nat, a: Va, e: Pte,
               tables': Tables, mapping': Mapping, owner': map<nat, Va>)
    requires State(pages, free, tables, data, place, up, roots, mapping, owner) && a.root in roots && a.vpn < MAXVPN
    requires t in tables && place[t] == Node(a.root, 0, a.vpn / ENTRIES) && |tables[t]| == ENTRIES
    requires ValidPte(e) && Grants(e.flags) && a !in mapping && (e.ppn in pages ==> e.ppn in data && e.ppn !in owner)
    requires tables' == tables[t := tables[t][a.vpn % ENTRIES := e]] && mapping' == mapping[a := e]
    requires owner' == Claim(owner, pages, e.ppn, a)
    ensures State(pages, free, tables', data, place, up, roots, mapping', owner')
  {
    SetLeaf(tables, place, up, mapping, t, a, e, tables', mapping');
    MappedOwned(pages, mapping, data, owner, a, e, mapping', owner');
    assert tables'.Keys == tables.Keys;
    SameKeys(pages, free, tables, data, roots, place, tables');
  }

  lemma SameKeys(pages: set<nat>, free: seq<nat>, tables: Tables, data: map<nat, Content>, roots: set<nat>,
                 place: map<nat, Node>, tables': Tables)
    requires Accounted(pages, free, tables, data) && RootsOk(roots, tables, place) && tables'.Keys == tables.Keys
    ensures Accounted(pages, free, tables', data) && RootsOk(roots, tables', place)
  {
    forall p: nat ensures Once(pages, free, tables', data, p) && (p in tables' <==> p in tables) {
      assert Once(pages, free, tables, data, p);
      assert p in tables'.Keys <==> p in tables.Keys;
    }
  }

  lemma MappedOwned(pages: set<nat>, mapping: Mapping, data: map<nat, Content>, owner: map<nat, Va>, a: Va, e: Pte,
                    mapping': Mapping, owner': map<nat, Va>)
    requires Owned(pages, mapping, data, owner) && a !in mapping
    requires (e.ppn in pages ==> e.ppn in data && e.ppn !in owner)
    requires mapping' == mapping[a := e] && owner' == Claim(owner, pages, e.ppn, a)
    ensures Owned(pages, mapping', data, owner')
  {
  }

  /** Unmapping a page takes its owner away; the page itself stays allocated. */
  lemma ClearOne(pages: set<nat>, free: seq<nat>, tables: Tables, data: map<nat, Content>, place: map<nat, Node>,
                 up: map<nat, nat>, roots: set<nat>, mapping: Mapping, owner: map<nat, Va>, t: nat, a: Va,
                 tables': Tables, mapping': Mapping, owner': map<nat, Va>)
    requires State(pages, free, tables, data, place, up, roots, mapping, owner) && a in mapping
    requires t in tables && place[t] == Node(a.root, 0, a.vpn / ENTRIES) && |tables[t]| == ENTRIES
    requires tables' == tables[t := tables[t][a.vpn % ENTRIES := Pte(0, 0)]] && mapping' == mapping - {a}
    requires owner' == if mapping[a].ppn in pages then owner - {mapping[a].ppn} else owner
    ensures State(pages, free, tables', data, place, up, roots, mapping', owner')
    ensures mapping[a].ppn in pages ==> mapping[a].ppn in data && mapping[a].ppn !in owner'
  {
    assert InSpace(tables, place, a);
    SetLeaf(tables, place, up, mapping, t, a, Pte(0, 0), tables', mapping');
    Partition(pages, free, tables, data);
    ClearedOwned(pages, mapping, data, owner, a, mapping', owner');
    assert tables'.Keys == tables.Keys;
    SameKeys(pages, free, tables, data, roots, place, tables');
  }

  lemma ClearedOwned(pages: set<nat>, mapping: Mapping, data: map<nat, Content>, owner: map<nat, Va>, a: Va,
                     mapping': Mapping, owner': map<nat, Va>)
    requires Owned(pages, mapping, data, owner) && a in mapping && mapping' == mapping - {a}
    requires owner' == if mapping[a].ppn in pages then owner - {mapping[a].ppn} else owner
    requires forall p :: p in data ==> p in pages
    ensures Owned(pages, mapping', data, owner')
    ensures mapping[a].ppn in pages ==> mapping[a].ppn in data && mapping[a].ppn !in owner'
  {
  }

  /** Giving an unowned page back. */
  lemma Release(pages: set<nat>, free: seq<nat>, tables: Tables, data: map<nat, Content>, place: map<nat, Node>,
                up: map<nat, nat>, roots: set<nat>, mapping: Mapping, owner: map<nat, Va>, p: nat, free': seq<nat>,
                data': map<nat, Content>)
    requires State(pages, free, tables, data, place, up, roots, mapping, owner) && p in data && p !in owner
    requires free' == [p] + free && data' == data - {p}
    ensures State(pages, free', tables, data', place, up, roots, mapping, owner)
  {
    UnownedData(pages, mapping, data, owner, p, data');
    FreedPage(pages, free, tables, data, p, free', data');
  }

  /** An allocated page put on the free list. */
  lemma FreedPage(pages: set<nat>, free: seq<nat>, tables: Tables, data: map<nat, Content>, p: nat, free': seq<nat>,
                  data': map<nat, Content>)
    requires Accounted(pages, free, tables, data) && p in data && free' == [p] + free && data' == data - {p}
    ensures Accounted(pages, free', tables, data')
  {
    assert Once(pages, free, tables, data, p);
    forall q: nat ensures Once(pages, free', tables, data', q) {
      assert Once(pages, free, tables, data, q);
      assert q in free' <==> q == p || q in free;
    }
  }

  /** New contents in an allocated page. */
  lemma Refilled(pages: set<nat>, free: seq<nat>, tables: Tables, data: map<nat, Content>, p: nat,
                 data': map<nat, Content>)
    requires Accounted(pages, free, tables, data) && p in data && data'.Keys == data.Keys
    ensures Accounted(pages, free, tables, data')
  {
    forall q: nat ensures Once(pages, free, tables, data', q) {
      assert Once(pages, free, tables, data, q);
      assert q in data'.Keys <==> q in data.Keys;
    }
  }

  /** A page taken from the free list. */
  lemma TakenPage(pages: set<nat>, free: seq<nat>, tables: Tables, data: map<nat, Content>, p: nat, c: Content,
                  free': seq<nat>, data': map<nat, Content>)
    requires Accounted(pages, free, tables, data) && free == [p] + free' && data' == data[p := c]
    ensures Accounted(pages, free', tables, data') && p in pages && p !in data && p !in tables
  {
    assert free[0] == p && Once(pages, free, tables, data, p);
    assert Distinct(free') && p !in free' by {
      assert forall i {:trigger free'[i]} :: 0 <= i < |free'| ==> free'[i] == free[i + 1];
    }
    forall q: nat ensures Once(pages, free', tables, data', q) {
      assert Once(pages, free, tables, data, q);
      assert q in free <==> q == p || q in free';
    }
  }

  // ------------------------------------------------------------ ranges of pages

  lemma RangeStep(root: nat, lo: nat, n: nat)
    ensures forall b: Va :: InRange(b, root, lo, n + 1) <==> InRange(b, root, lo, n) || b == Va(root, lo + n)
  {
    forall b: Va ensures InRange(b, root, lo, n + 1) <==> InRange(b, root, lo, n) || b == Va(root, lo + n) {
      assert b == Va(b.root, b.vpn);
    }
  }

  lemma WithoutStep(m: Mapping, o: map<nat, Va>, d: map<nat, Content>, pages: set<nat>, root: nat, lo: nat, n: nat)
    requires Owned(pages, m, d, o) && (forall p :: p in d ==> p in pages) && Va(root, lo + n) in m
    ensures Without(m, root, lo, n + 1) == Without(m, root, lo, n) - {Va(root, lo + n)}
    ensures OwnersWithout(o, root, lo, n + 1) ==
            if m[Va(root, lo + n)].ppn in pages then OwnersWithout(o, root, lo, n) - {m[Va(root, lo + n)].ppn}
                else OwnersWithout(o, root, lo, n)
    ensures m[Va(root, lo + n)].ppn in pages ==>
              DataWithout(d, o, root, lo, n + 1) == DataWithout(d, o, root, lo, n) - {m[Va(root, lo + n)].ppn}
  {
    RangeStep(root, lo, n);
  }

  /** Every page from lo to hi - 1 is mapped, and if it is to be freed it came from the allocator. */
  ghost predicate AllMapped(pages: set<nat>, m: Mapping, root: nat, lo: nat, hi: nat, fromAllocator: bool) {
    forall v {:trigger Va(root, v)} :: lo <= v < hi ==>
          Va(root, v) in m && (fromAllocator ==> m[Va(root, v)].ppn in pages)
  }

  /** A mapped page is reached by the walk. */
  lemma MappedBottom(tables: Tables, place: map<nat, Node>, up: map<nat, nat>, mapping: Mapping, a: Va, t: Option<nat>)
    requires TreesOk(tables, place, up) && Represents(tables, place, mapping) && a in mapping
    requires t == Bottom(tables, a.root, a.vpn)
    ensures t.Some? && t.value in tables && place[t.value] == Node(a.root, 0, a.vpn / ENTRIES)
    ensures |tables[t.value]| == ENTRIES
    ensures tables[t.value][a.vpn % ENTRIES] == mapping[a] && Grants(mapping[a].flags)
  {
    assert InSpace(tables, place, a) && Shows(tables, mapping, a);
    BottomIs(tables, place, up, a.root, a.vpn, t.value);
    assert NodeOk(tables, place, t.value) && EntryOk(tables, place, t.value, a.vpn % ENTRIES);
  }

  /** The entry of a page in its bottom-level table is valid exactly if the page is mapped. */
  lemma EntryShows(tables: Tables, place: map<nat, Node>, up: map<nat, nat>, mapping: Mapping, a: Va, t: nat)
    requires TreesOk(tables, place, up) && Represents(tables, place, mapping) && InSpace(tables, place, a)
    requires t in tables && place[t] == Node(a.root, 0, a.vpn / ENTRIES)
    ensures |tables[t]| == ENTRIES && (ValidPte(tables[t][a.vpn % ENTRIES]) <==> a in mapping)
  {
    assert Shows(tables, mapping, a);
    LookupAt(tables, place, up, t, a.root, a.vpn);
  }

  /** If the bottom table is there, so is every table on the way. */
  lemma OnTheWay(tables: Tables, root: nat, level: nat, vpn: nat)
    requires 0 < level <= 2
    ensures Bottom(tables, root, vpn).Some? ==>
              && Reach(tables, root, level, vpn).Some? && Reach(tables, root, level - 1, vpn).Some?
              && Reach(tables, root, level - 1, vpn) == Down(tables, Reach(tables, root, level, vpn).value, level, vpn)
  {
    assert Reach(tables, root, 0, vpn).Some? ==> Reach(tables, root, 1, vpn).Some?;
  }

  /** The first i of n pages have been unmapped. */
  ghost predicate Dropped(pages: set<nat>, m0: Mapping, o0: map<nat, Va>, d0: map<nat, Content>, m: Mapping,
                          o: map<nat, Va>, d: map<nat, Content>,
                          root: nat, lo: nat, i: nat, n: nat, doFree: bool)
  {
    && Owned(pages, m0, d0, o0) && (forall p :: p in d0 ==> p in pages)
         && AllMapped(pages, m0, root, lo, lo + n, doFree)
    && m == Without(m0, root, lo, i) && o == OwnersWithout(o0, root, lo, i)
    && d == if doFree then DataWithout(d0, o0, root, lo, i) else d0
  }

  lemma DroppedNone(pages: set<nat>, free: seq<nat>, tables: Tables, m0: Mapping, o0: map<nat, Va>,
                    d0: map<nat, Content>, root: nat, lo: nat, n: nat, doFree: bool)
    requires Accounted(pages, free, tables, d0) && Owned(pages, m0, d0, o0)
    requires AllMapped(pages, m0, root, lo, lo + n, doFree)
    ensures Dropped(pages, m0, o0, d0, m0, o0, d0, root, lo, 0, n, doFree)
  {
    Partition(pages, free, tables, d0);
    assert Without(m0, root, lo, 0) == m0 && OwnersWithout(o0, root, lo, 0) == o0;
    assert DataWithout(d0, o0, root, lo, 0) == d0;
  }

  lemma DroppedStep(pages: set<nat>, m0: Mapping, o0: map<nat, Va>, d0: map<nat, Content>, m: Mapping, o: map<nat, Va>,
                    d: map<nat, Content>, root: nat, lo: nat, i: nat, n: nat, doFree: bool)
    requires Dropped(pages, m0, o0, d0, m, o, d, root, lo, i, n, doFree) && i < n
    ensures var a := Va(root, lo + i);
            && a in m && (doFree ==> m[a].ppn in pages)
            && Dropped(pages, m0, o0, d0, m - {a}, if m[a].ppn in pages then o - {m[a].ppn} else o,
                       if doFree then d - {m[a].ppn} else d, root, lo, i + 1, n, doFree)
  {
    WithoutStep(m0, o0, d0, pages, root, lo, i);
  }

  lemma NewSpace(pages: set<nat>, free: seq<nat>, tables: Tables, data: map<nat, Content>, place: map<nat, Node>,
                 up: map<nat, nat>, roots: set<nat>, mapping: Mapping, owner: map<nat, Va>, c: nat,
                 tables': Tables, data': map<nat, Content>, place': map<nat, Node>, roots': set<nat>)
    requires State(pages, free, tables, data, place, up, roots, mapping, owner) && c in data && c !in owner
    requires tables' == tables[c := ZeroTable()] && data' == data - {c} && place' == place[c := Node(c, 2, 0)]
    requires roots' == roots + {c}
    ensures State(pages, free, tables', data', place', up, roots', mapping, owner)
    ensures c !in roots && forall v: nat :: Va(c, v) !in mapping
  {
    assert Once(pages, free, tables, data, c);
    AddRoot(tables, place, up, mapping, c, tables', place');
    assert tables'.Keys == tables.Keys + {c};
    DataToTable(pages, free, tables, data, c, tables', data');
    UnownedData(pages, mapping, data, owner, c, data');
  }

  /** Page p, held by nobody before, now holds the content and is mapped at a. */
  predicate Added(pages: set<nat>, m0: Mapping, d0: map<nat, Content>, o0: map<nat, Va>,
                  m: Mapping, d: map<nat, Content>, o: map<nat, Va>, a: Va, p: nat, flags: nat, content: Content)
  {
    && p in pages && p !in d0 && p !in o0 && m == m0[a := Pte(p, flags)] && d == d0[p := content] && o == o0[p := a]
  }

  /** Mapping one page: what a call of mappages for a single page leaves. */
  lemma OnePage(pages: set<nat>, m0: Mapping, d0: map<nat, Content>, o0: map<nat, Va>, d1: map<nat, Content>,
                m: Mapping, o: map<nat, Va>, a: Va, p: nat, flags: nat, content: Content, done: nat)
    requires p in pages && p !in d0 && p !in o0 && d1 == d0[p := content] && done <= 1
    requires m == WithPages(m0, a.root, a.vpn, p, flags, done) && o == WithOwners(o0, pages, a.root, a.vpn, p, done)
    ensures done == 0 ==> m == m0 && o == o0 && d1 - {p} == d0
    ensures done == 1 ==> Added(pages, m0, d0, o0, m, d1, o, a, p, flags, content)
  {
    assert WithPages(m0, a.root, a.vpn, p, flags, 0) == m0 && WithOwners(o0, pages, a.root, a.vpn, p, 0) == o0;
  }

  lemma FreshStep(pages: set<nat>, m0: Mapping, d0: map<nat, Content>, o0: map<nat, Va>,
                  m: Mapping, d: map<nat, Content>, o: map<nat, Va>, root: nat, lo: nat, want: seq<Want>, k: nat,
                  m': Mapping, d': map<nat, Content>, o': map<nat, Va>, p: nat)
    requires Fresh(pages, m0, d0, o0, m, d, o, root, lo, want, k) && k < |want| && Va(root, lo + k) !in m
    requires Owned(pages, m, d, o)
    requires Added(pages, m, d, o, m', d', o', Va(root, lo + k), p, want[k].flags, want[k].content)
    ensures Fresh(pages, m0, d0, o0, m', d', o', root, lo, want, k + 1)
  {
    RangeStep(root, lo, k);
    forall i | 0 <= i < k + 1 ensures NewPage(pages, d0, m', d', Va(root, lo + i), want[i]) {
      assert i < k ==> NewPage(pages, d0, m, d, Va(root, lo + i), want[i]);
    }
    assert o0 == OwnersWithout(o', root, lo, k + 1);
    assert m0 == Without(m', root, lo, k + 1);
    assert d0 == DataWithout(d', o', root, lo, k + 1);
  }

  /** Unmapping the new pages undoes everything. */
  lemma FreshMapped(pages: set<nat>, m0: Mapping, d0: map<nat, Content>, o0: map<nat, Va>,
                    m: Mapping, d: map<nat, Content>, o: map<nat, Va>, root: nat, lo: nat, want: seq<Want>, k: nat)
    requires Fresh(pages, m0, d0, o0, m, d, o, root, lo, want, k)
    ensures AllMapped(pages, m, root, lo, lo + k, true)
  {
    forall v | lo <= v < lo + k ensures Va(root, v) in m && m[Va(root, v)].ppn in pages {
      assert NewPage(pages, d0, m, d, Va(root, lo + (v - lo)), want[v - lo]);
    }
  }

  /** How many pages an address space gains when it grows from one size to another. */
  function Growth(oldsz: nat, newsz: nat): nat {
    if PageUp(oldsz) < PageUp(newsz) then PageUp(newsz) - PageUp(oldsz) else 0
  }

  /** The first byte of page a is one of lo .. hi - 1. */
  predicate BeginsIn(a: Va, root: nat, lo: nat, hi: nat) {
    a.root == root && lo <= a.vpn * PGSIZE < hi
  }

  /** The pages between two sizes are those that begin between them. */
  lemma WholePages(a: Va, root: nat, lo: nat, hi: nat)
    ensures BeginsIn(a, root, lo, hi) <==> InRange(a, root, PageUp(lo), Growth(lo, hi))
  {
  }

  lemma FromNothing(sz: nat)
    ensures PageUp(0) == 0 && Growth(0, sz) == PageUp(sz)
  {
  }

  /** An address space of sz bytes: exactly the pages that hold one of them are mapped. */
  ghost predicate Covers(m: Mapping, root: nat, sz: nat) {
    forall v: nat {:trigger Va(root, v)} :: Va(root, v) in m <==> v * PGSIZE < sz
  }

  /** Every byte below its size is mapped, and none that is a page or more above. */
  lemma CoversBytes(m: Mapping, root: nat, sz: nat, b: nat)
    requires Covers(m, root, sz)
    ensures b < sz ==> Va(root, b / PGSIZE) in m
    ensures b >= sz + PGSIZE - 1 ==> Va(root, b / PGSIZE) !in m
  {
  }

  /** The address space gained exactly the pages that begin at oldsz or later and before newsz. */
  ghost predicate Gained(m0: Mapping, m: Mapping, root: nat, oldsz: nat, newsz: nat) {
    forall a: Va {:trigger a in m} :: a in m <==> a in m0 || BeginsIn(a, root, oldsz, newsz)
  }

  lemma FreshGained(pages: set<nat>, m0: Mapping, d0: map<nat, Content>, o0: map<nat, Va>, m: Mapping,
                    d: map<nat, Content>, o: map<nat, Va>, root: nat, want: seq<Want>, oldsz: nat, newsz: nat)
    requires Fresh(pages, m0, d0, o0, m, d, o, root, PageUp(oldsz), want, Growth(oldsz, newsz))
    ensures Gained(m0, m, root, oldsz, newsz)
  {
    var lo, k := PageUp(oldsz), Growth(oldsz, newsz);
    forall a: Va ensures a in m <==> a in m0 || BeginsIn(a, root, oldsz, newsz) {
      WholePages(a, root, oldsz, newsz);
      if InRange(a, root, lo, k) {
        assert NewPage(pages, d0, m, d, Va(root, lo + (a.vpn - lo)), want[a.vpn - lo]);
      } else {
        assert a in Without(m, root, lo, k) <==> a in m;
      }
    }
  }

  /** It lost exactly those. */
  ghost predicate Lost(m0: Mapping, m: Mapping, root: nat, newsz: nat, oldsz: nat) {
    forall a: Va {:trigger a in m} :: a in m <==> a in m0 && !BeginsIn(a, root, newsz, oldsz)
  }

  lemma WithoutLost(m0: Mapping, m: Mapping, root: nat, newsz: nat, oldsz: nat)
    requires m == Without(m0, root, PageUp(newsz), Growth(newsz, oldsz))
    ensures Lost(m0, m, root, newsz, oldsz)
  {
    forall a: Va ensures a in m <==> a in m0 && !BeginsIn(a, root, newsz, oldsz) {
      WholePages(a, root, newsz, oldsz);
    }
  }

  /** Growing and shrinking take an address space of one size to one of the other. */
  lemma Resized(m0: Mapping, m: Mapping, root: nat, oldsz: nat, newsz: nat)
    requires Covers(m0, root, oldsz)
    ensures Gained(m0, m, root, oldsz, newsz) && oldsz <= newsz ==> Covers(m, root, newsz)
    ensures Lost(m0, m, root, newsz, oldsz) && newsz <= oldsz ==> Covers(m, root, newsz)
  {
  }

  function Zeros(n: nat, flags: nat): (want: seq<Want>)
    ensures |want| == n && forall i {:trigger want[i]} :: 0 <= i < n ==> want[i] == Want(flags, Filled(0))
  {
    seq(n, _ => Want(flags, Filled(0)))
  }

  lemma NextUnmapped(pages: set<nat>, m0: Mapping, d0: map<nat, Content>, o0: map<nat, Va>,
                     m: Mapping, d: map<nat, Content>, o: map<nat, Va>, root: nat, lo: nat, want: seq<Want>, k: nat)
    requires Fresh(pages, m0, d0, o0, m, d, o, root, lo, want, k) && k < |want| && Unmapped(m0, root, lo, lo + |want|)
    ensures Va(root, lo + k) !in m
  {
    assert Va(root, lo + k) !in Without(m, root, lo, k);
  }

  lemma FreshStart(pages: set<nat>, m0: Mapping, d0: map<nat, Content>, o0: map<nat, Va>, root: nat, lo: nat,
                   want: seq<Want>)
    ensures Fresh(pages, m0, d0, o0, m0, d0, o0, root, lo, want, 0)
  {
  }

  /** Flags and contents of the first pages of an address space. */
  ghost predicate Describes(m: Mapping, d: map<nat, Content>, root: nat, want: seq<Want>) {
    forall v {:trigger want[v]} :: 0 <= v < |want| ==>
      && Va(root, v) in m && m[Va(root, v)].ppn in d && want[v] == Want(m[Va(root, v)].flags, d[m[Va(root, v)].ppn])
  }

  /** What a copy of the first n pages of an address space must hold. */
  ghost function Copies(pages: set<nat>, m: Mapping, d: map<nat, Content>, root: nat, n: nat): (want: seq<Want>)
    requires AllMapped(pages, m, root, 0, n, true) && forall v {:trigger Va(root, v)} :: 0 <= v < n ==>
               m[Va(root, v)].ppn in d
    ensures |want| == n && Describes(m, d, root, want)
  {
    if n == 0 then []
    else Copies(pages, m, d, root, n - 1) + [Want(m[Va(root, n - 1)].flags, d[m[Va(root, n - 1)].ppn])]
  }

  /** New pages elsewhere leave an old page's translation and contents alone. */
  lemma StillThere(pages: set<nat>, m0: Mapping, d0: map<nat, Content>, o0: map<nat, Va>,
                   m: Mapping, d: map<nat, Content>, o: map<nat, Va>, root: nat, want: seq<Want>, k: nat, a: Va)
    requires Fresh(pages, m0, d0, o0, m, d, o, root, 0, want, k) && a in m0 && m0[a].ppn in d0
    ensures a in m && m[a] == m0[a] && m0[a].ppn in d && d[m0[a].ppn] == d0[m0[a].ppn]
  {
    assert a in Without(m, root, 0, k) && m0[a].ppn in DataWithout(d, o, root, 0, k);
  }

  /** Only tables below t have gone, and only t itself has changed. */
  ghost predicate Pruned(tables0: Tables, place0: map<nat, Node>, tables: Tables, place: map<nat, Node>, t: nat) {
    && t in tables && t in tables0 && t in place0
    && (forall s :: s in tables ==> s in tables0 && s in place0 && s in place && place[s] == place0[s] && (s != t ==>
           tables[s] == tables0[s]))
    && (forall s :: s in tables0 && s in place0 && !Below(place0[t], place0[s]) ==> s in tables)
  }

  lemma PrunedChild(tables0: Tables, place0: map<nat, Node>, tables1: Tables, place1: map<nat, Node>, tables2: Tables,
                    place2: map<nat, Node>, t: nat, k: nat, c: nat, tables': Tables, place': map<nat, Node>)
    requires Pruned(tables0, place0, tables1, place1, t) && Pruned(tables1, place1, tables2, place2, c)
    requires t in tables2 && c != t && 0 < place1[t].level <= 2 && k < ENTRIES && place1[c] == Child(place1[t], k)
    requires k < |tables2[t]|
    requires tables' == tables2[t := tables2[t][k := Pte(0, 0)]] - {c} && place' == place2 - {c}
    ensures Pruned(tables0, place0, tables', place', t)
  {
    forall s | s in tables0 && s in place0 && !Below(place0[t], place0[s]) ensures s in tables' {
      if s == c || Below(place1[c], place1[s]) {
        if s != c { BelowChild(place1[t], k, place1[s]); }
        assert false;
      }
    }
  }

  lemma StillNoLeaves(tables0: Tables, place0: map<nat, Node>, tables: Tables, place: map<nat, Node>, t: nat, k: nat,
                      c: nat)
    requires Pruned(tables0, place0, tables, place, t) && NoLeaves(tables0, place0, place0[t])
    requires c in tables && c != t && 0 < place[t].level <= 2 && k < ENTRIES && place[c] == Child(place[t], k)
    ensures NoLeaves(tables, place, place[c])
  {
    forall s | s in tables && s in place && place[s].level == 0 && (place[s] == place[c] || Below(place[c], place[s]))
      ensures NoValid(tables[s])
    {
      if place[s] != place[c] {
        BelowChild(place[t], k, place[s]);
      }
      assert place0[s].level == 0;
    }
  }

  /** Taking an emptied table out of its tree turns its page into plain allocated memory. */
  lemma Unhang(pages: set<nat>, free: seq<nat>, tables: Tables, data: map<nat, Content>, place: map<nat, Node>,
               up: map<nat, nat>, roots: set<nat>, mapping: Mapping, owner: map<nat, Va>, t: nat, k: nat, c: nat,
               tables': Tables, data': map<nat, Content>, place': map<nat, Node>, up': map<nat, nat>)
    requires State(pages, free, tables, data, place, up, roots, mapping, owner)
    requires t in tables && place[t].level > 0 && k < |tables[t]| && tables[t][k] == Pte(c, PTE_V) && c in tables
    requires NoValid(tables[c])
    requires tables' == tables[t := tables[t][k := Pte(0, 0)]] - {c} && place' == place - {c} && up' == up - {c}
    requires data' == data[c := Filled(0)]
    ensures State(pages, free, tables', data', place', up', roots, mapping, owner)
    ensures c != t && place[c] == Child(place[t], k) && c !in owner
  {
    assert Once(pages, free, tables, data, c);
    RemoveTable(tables, place, up, mapping, t, k, c, tables', place', up');
    assert tables'.Keys == tables.Keys - {c};
    TableToData(pages, free, tables, data, c, tables', data');
    assert NodeOk(tables, place, t);
    assert Owned(pages, mapping, data', owner);
    assert RootsOk(roots, tables', place') by {
      assert forall p :: p in tables' <==> p in tables && p != c;
    }
  }

  lemma TableToData(pages: set<nat>, free: seq<nat>, tables: Tables, data: map<nat, Content>, c: nat, tables': Tables,
                    data': map<nat, Content>)
    requires Accounted(pages, free, tables, data) && c in tables && tables'.Keys == tables.Keys - {c}
    requires data' == data[c := Filled(0)]
    ensures Accounted(pages, free, tables', data')
  {
    forall p: nat ensures Once(pages, free, tables', data', p) {
      assert Once(pages, free, tables, data, p);
      assert p in tables' <==> p in tables && p != c;
    }
  }

  /** The first i entries of t are invalid, the others as before. */
  ghost predicate Cleared(tables0: Tables, tables: Tables, t: nat, i: nat) {
    && t in tables0 && t in tables && |tables[t]| == ENTRIES == |tables0[t]|
    && forall l :: 0 <= l < ENTRIES ==> if l < i then !ValidPte(tables[t][l]) else tables[t][l] == tables0[t][l]
  }

  lemma NotItself(tables: Tables, place: map<nat, Node>, t: nat, k: nat, c: nat)
    requires t in tables && t in place && k < |tables[t]| && EntryOk(tables, place, t, k) && ValidPte(tables[t][k])
    requires place[t].level > 0 && c == tables[t][k].ppn
    ensures c != t && c in tables && c in place && place[c] == Child(place[t], k) && !Grants(tables[t][k].flags)
    ensures !Below(place[c], place[t])
  {
  }

  /** The tables of one address space have gone, every other table is as it was. */
  ghost predicate OnlySpaceGone(tables0: Tables, place0: map<nat, Node>, tables: Tables, place: map<nat, Node>,
                                root: nat)
    requires place0.Keys == tables0.Keys
  {
    && (forall s :: s in tables <==> s in tables0 && place0[s].root != root)
    && (forall s :: s in tables ==> tables[s] == tables0[s] && s in place && place[s] == place0[s])
  }

  lemma Leafless(tables: Tables, place: map<nat, Node>, up: map<nat, nat>, mapping: Mapping, root: nat)
    requires TreesOk(tables, place, up) && Represents(tables, place, mapping) && IsRoot(tables, place, root)
    requires forall v: nat :: Va(root, v) !in mapping
    ensures NoLeaves(tables, place, place[root])
  {
    forall s | s in tables && s in place && place[s].level == 0
        && (place[s] == place[root] || Below(place[root], place[s]))
      ensures NoValid(tables[s])
    {
      forall l | 0 <= l < |tables[s]| ensures !ValidPte(tables[s][l]) {
        var a := Va(root, place[s].prefix * ENTRIES + l);
        assert NodeOk(tables, place, s);
        assert InSpace(tables, place, a);
        assert Shows(tables, mapping, a);
        LookupAt(tables, place, up, s, root, a.vpn);
      }
    }
  }

  lemma EndSpace(pages: set<nat>, free: seq<nat>, tables: Tables, data: map<nat, Content>, place: map<nat, Node>,
                 up: map<nat, nat>, roots: set<nat>, mapping: Mapping, owner: map<nat, Va>, c: nat,
                 tables': Tables, data': map<nat, Content>, place': map<nat, Node>, up': map<nat, nat>,
                 roots': set<nat>)
    requires State(pages, free, tables, data, place, up, roots, mapping, owner) && c in roots && NoValid(tables[c])
    requires tables' == tables - {c} && data' == data[c := Filled(0)] && place' == place - {c} && up' == up - {c}
    requires roots' == roots - {c}
    ensures State(pages, free, tables', data', place', up', roots', mapping, owner) && c !in owner
  {
    assert Once(pages, free, tables, data, c);
    RemoveRoot(tables, place, up, mapping, c, tables', place', up');
    assert tables'.Keys == tables.Keys - {c};
    TableToData(pages, free, tables, data, c, tables', data');
    assert Owned(pages, mapping, data', owner);
    assert RootsOk(roots', tables', place') by {
      assert forall p :: p in tables' <==> p in tables && p != c;
    }
  }

  lemma SpaceGone(tables0: Tables, place0: map<nat, Node>, up0: map<nat, nat>, tables1: Tables, place1: map<nat, Node>,
                  up1: map<nat, nat>, root: nat,
                  tables: Tables, place: map<nat, Node>)
    requires TreesOk(tables0, place0, up0) && TreesOk(tables1, place1, up1) && IsRoot(tables0, place0, root)
    requires Pruned(tables0, place0, tables1, place1, root) && NoValid(tables1[root])
    requires tables == tables1 - {root} && place == place1 - {root}
    ensures OnlySpaceGone(tables0, place0, tables, place, root)
  {
    forall s | s in tables0 ensures s in tables <==> place0[s].root != root {
      if s != root {
        BelowRoot(tables0, place0, up0, root, s);
        if s in tables1 {
          NothingBelow(tables1, place1, up1, root, s);
        }
      }
    }
  }

  /** The pages an address space owned are exactly those that left the allocated data when it was unmapped. */
  lemma FreePages(pages: set<nat>, m0: Mapping, d0: map<nat, Content>, o0: map<nat, Va>, root: nat, sz: nat,
                  m: Mapping, d: map<nat, Content>)
    requires Owned(pages, m0, d0, o0) && (forall a :: a in m0 && a.root == root ==> a.vpn < PageUp(sz))
    requires m == (if sz > 0 then Without(m0, root, 0, PageUp(sz)) else m0)
             && d == if sz > 0 then DataWithout(d0, o0, root, 0, PageUp(sz)) else d0
    ensures m == Without(m0, root, 0, PageUp(sz)) && d == DataWithout(d0, o0, root, 0, PageUp(sz))
    ensures forall v: nat :: Va(root, v) !in m
    ensures forall p :: p in d <==> p in d0 && !(p in o0 && o0[p].root == root)
  {
  }

  // ------------------------------------------------------------ consequences of the invariant

  function Elements(s: seq<nat>): set<nat> {
    set p | p in s
  }

  lemma {:induction false} DistinctSize(s: seq<nat>)
    requires forall i, j :: 0 <= i < j < |s| ==> s[i] != s[j]
    ensures |Elements(s)| == |s|
  {
    if s != [] {
      var rest, last := s[..|s| - 1], s[|s| - 1];
      DistinctSize(rest);
      assert s == rest + [last];
      assert last !in Elements(rest);
      assert Elements(s) == Elements(rest) + {last};
    }
  }

  lemma ThreeParts(all: set<nat>, a: set<nat>, b: set<nat>, c: set<nat>)
    requires all == a + b + c && a !! b && a + b !! c
    ensures |all| == |a| + |b| + |c|
  {
    assert |a + b| == |a| + |b|;
  }

  /** No page is lost or gained: free, table and data pages always add up to the allocator's memory. */
  lemma PagesConserved(pages: set<nat>, free: seq<nat>, tables: Tables, data: map<nat, Content>)
    requires Accounted(pages, free, tables, data)
    ensures |free| + |tables| + |data| == |pages|
  {
    PageSets(pages, free, tables, data);
    DistinctSize(free);
    ThreeParts(pages, Elements(free), tables.Keys, data.Keys);
    assert |tables| == |tables.Keys| && |data| == |data.Keys|;
  }

  /** In terms of the positions of the tables. */
  lemma PagesCounted(pages: set<nat>, free: seq<nat>, tables: Tables, data: map<nat, Content>, place: map<nat, Node>,
                     up: map<nat, nat>)
    requires Accounted(pages, free, tables, data) && TreesOk(tables, place, up)
    ensures Counted(|pages|, |free|, place.Values, |data|)
  {
    PagesConserved(pages, free, tables, data);
    OneTableEach(tables, place, up);
  }

  lemma PageSets(pages: set<nat>, free: seq<nat>, tables: Tables, data: map<nat, Content>)
    requires Accounted(pages, free, tables, data)
    ensures pages == Elements(free) + tables.Keys + data.Keys
    ensures Elements(free) !! tables.Keys && Elements(free) + tables.Keys !! data.Keys
  {
    forall p: nat ensures p in pages <==> p in Elements(free) + tables.Keys + data.Keys {
      assert Once(pages, free, tables, data, p);
    }
    Partition(pages, free, tables, data);
  }

  /** Two mappings never share an allocator page, and a mapped page is neither free nor a page table. */
  lemma Isolation(pages: set<nat>, free: seq<nat>, tables: Tables, data: map<nat, Content>, place: map<nat, Node>,
                  up: map<nat, nat>, roots: set<nat>, mapping: Mapping, owner: map<nat, Va>, a: Va, b: Va)
    requires State(pages, free, tables, data, place, up, roots, mapping, owner) && InSpace(tables, place, a)
    requires InSpace(tables, place, b) && a != b
    requires Lookup(tables, a.root, a.vpn).Some? && Lookup(tables, b.root, b.vpn).Some?
    requires Lookup(tables, a.root, a.vpn).value.ppn in pages
    ensures Lookup(tables, a.root, a.vpn).value.ppn != Lookup(tables, b.root, b.vpn).value.ppn
    ensures Lookup(tables, a.root, a.vpn).value.ppn !in free && Lookup(tables, a.root, a.vpn).value.ppn !in tables
  {
    Partition(pages, free, tables, data);
    assert Shows(tables, mapping, a) && Shows(tables, mapping, b);
  }

  class Memory {
    ghost const pages: set<nat>
    var free: seq<nat>
    var tables: Tables
    var data: map<nat, Content>
    ghost var place: map<nat, Node>
    ghost var up: map<nat, nat>
    ghost var roots: set<nat>
    ghost var mapping: Mapping
    ghost var owner: map<nat, Va>

    ghost predicate Valid()
      reads this
    {
      State(pages, free, tables, data, place, up, roots, mapping, owner)
    }

    /** kinit: every page from lo to hi - 1 is freed, one after the other. */
    constructor (lo: nat, hi: nat)
      requires lo <= hi
      ensures Valid() && pages == PageSet(lo, hi) && roots == {} && mapping == map[] && tables == map[] && data == map[]
      ensures |free| == hi - lo && forall i :: 0 <= i < hi - lo ==> free[i] == hi - 1 - i
    {
      pages := PageSet(lo, hi);
      free, tables := [], map[];
      data := Untouched(lo, hi);
      place, up, roots, mapping, owner := map[], map[], {}, map[], map[];
      new;
      var p := lo;
      while p < hi
        invariant lo <= p <= hi && Accounted(pages, free, tables, data) && data == Untouched(p, hi)
        invariant tables == map[] && place == map[] && up == map[] && roots == {} && mapping == map[] && owner == map[]
        invariant |free| == p - lo && forall i :: 0 <= i < p - lo ==> free[i] == p - 1 - i
      {
        Kfree(p);
        assert Untouched(p, hi) - {p} == Untouched(p + 1, hi);
        p := p + 1;
      }
    }

    /** Takes the first page of the free list and fills it with junk. */
    method Kalloc() returns (r: Option<nat>)
      requires Valid()
      modifies `free, `data
      ensures Valid() && (r.None? <==> old(free) == [])
      ensures r.None? ==> unchanged(this)
      ensures r.Some? ==>
                && old(free) == [r.value] + free && r.value in pages && r.value !in old(data) && r.value !in tables
                && r.value !in owner
      ensures r.Some? ==> data == old(data)[r.value := Filled(5)]
    {
      if free == [] {
        return None;
      }
      var p := free[0];
      free := free[1..];
      data := data[p := Filled(5)];
      r := Some(p);
      TakenPage(pages, old(free), tables, old(data), p, Filled(5), free, data);
    }

    /** Puts an allocated page back at the head of the free list. */
    method Kfree(p: nat)
      requires Accounted(pages, free, tables, data) && p in data
      modifies `free, `data
      ensures Accounted(pages, free, tables, data)
      ensures data == old(data) - {p} && free == [p] + old(free)
    {
      data := data - {p};
      free := [p] + free;
      FreedPage(pages, old(free), tables, old(data), p, free, data);
    }

    /** One level of walk: follow the entry for vpn, or hang a zeroed table under it. */
    method WalkLevel(t: nat, level: nat, vpn: nat, alloc: bool) returns (r: Option<nat>)
      requires Valid() && t in tables && place[t].level == level && 0 < level && Index(level, vpn) < ENTRIES
      requires InBounds(Child(place[t], Index(level, vpn)))
      modifies `free, `data, `tables, `place, `up
      ensures Valid() && data == old(data)
      ensures forall s :: s in old(tables) ==> s in tables && place[s] == old(place)[s]
      ensures r.Some? ==> r.value in tables && place[r.value] == Child(place[t], Index(level, vpn))
      ensures !alloc || Down(old(tables), t, level, vpn).Some? ==> unchanged(this) && r == Down(tables, t, level, vpn)
      ensures alloc && r.None? ==> free == []
      ensures r.Some? ==> place.Values == old(place).Values + {Child(old(place)[t], Index(level, vpn))}
      ensures r.None? ==> place == old(place) && Child(place[t], Index(level, vpn)) !in place.Values
    {
      var k := Index(level, vpn);
      assert NodeOk(tables, place, t) && EntryOk(tables, place, t, k);
      var e := tables[t][k];
      if ValidPte(e) {
        return Some(e.ppn);
      }
      NoneThere(tables, place, up, t, k);
      if !alloc {
        return None;
      }
      r := Kalloc();
      if r.None? {
        return;
      }
      PositionAdded(place, r.value, Child(place[t], k));
      HangTable(t, k, r.value);
    }

    /** Makes an allocated page the zeroed table under an empty entry. */
    method HangTable(t: nat, k: nat, c: nat)
      requires Valid() && t in tables && place[t].level > 0 && k < |tables[t]| && !ValidPte(tables[t][k])
      requires InBounds(Child(place[t], k))
      requires c in data && c !in owner
      modifies `data, `tables, `place, `up
      ensures Valid() && data == old(data) - {c} && tables.Keys == old(tables).Keys + {c}
      ensures place == old(place)[c := Child(old(place)[t], k)]
    {
      ghost var tables0, place0, up0, data0 := tables, place, up, data;
      data := data - {c};
      tables := tables[t := tables[t][k := Pte(c, PTE_V)]][c := ZeroTable()];
      place := place[c := Child(place[t], k)];
      up := up[c := t];
      Hang(pages, free, tables0, data0, place0, up0, roots, mapping, owner, t, k, c, tables, data, place, up);
    }

    /** The bottom-level table for vpn, with the table pages on the way allocated if asked. */
    method Walk(root: nat, vpn: nat, alloc: bool) returns (r: Option<nat>)
      requires Valid() && root in roots && vpn < MAXVPN
      modifies `free, `data, `tables, `place, `up
      ensures Valid() && data == old(data)
      ensures r.Some? ==> r.value in tables && place[r.value] == Node(root, 0, vpn / ENTRIES)
      ensures !alloc || Bottom(old(tables), root, vpn).Some? ==> unchanged(this) && r == Bottom(tables, root, vpn)
      ensures alloc && r.None? ==> free == []
      ensures r.Some? ==> Extended(old(place).Values, place.Values, root, vpn, 1)
      ensures r.None? ==> Stuck(old(place).Values, place.Values, root, vpn, 0)
    {
      var t, level := root, 2;
      ghost var was := place.Values;
      OnPathStart(was, root, vpn);
      while level > 0
        invariant 0 <= level <= 2 && Valid() && data == old(data) && t in tables
        invariant OnPath(was, place.Values, root, vpn, level)
        invariant place[t] == Node(root, level, Prefix(level, vpn))
        invariant !alloc || Bottom(old(tables), root, vpn).Some? ==>
                    unchanged(this) && Reach(tables, root, level, vpn) == Some(t)
      {
        PrefixStep(root, level, vpn);
        OnTheWay(old(tables), root, level, vpn);
        ghost var at := place.Values;
        r := WalkLevel(t, level, vpn, alloc);
        if r.None? {
          NotReached(tables, place, up, was, root, vpn, level);
          return;
        }
        OnPathNext(was, at, place.Values, root, vpn, level);
        t, level := r.value, level - 1;
      }
      r := Some(t);
    }

    /**
     Maps n pages from vpn on to n physical pages from ppn on; stops at the first page that is
     mapped already, which is a panic, or whose table pages it cannot get. No pages is a panic, too.
     */
    method MapPages(root: nat, vpn: nat, n: nat, ppn: nat, perm: nat) returns (r: MapResult, ghost done: nat)
      requires Valid() && root in roots && vpn + n <= MAXVPN && Grants(perm)
      requires Available(pages, data, owner, ppn, ppn + n)
      modifies `free, `data, `tables, `place, `up, `mapping, `owner
      ensures Valid() && data == old(data) && done <= n && Unmapped(old(mapping), root, vpn, vpn + done)
      ensures match r
              case PanicSize => n == 0
              case Mapped => 0 < done == n
              case NoMemory => done < n && Va(root, vpn + done) !in old(mapping) && free == []
              case PanicRemap => done < n && Va(root, vpn + done) in old(mapping)
      ensures Grew(old(place).Values, place.Values, root, vpn, done, r.NoMemory?)
      ensures mapping == WithPages(old(mapping), root, vpn, ppn, WithV(perm), done)
      ensures owner == WithOwners(old(owner), pages, root, vpn, ppn, done)
    {
      ghost var mapping0, owner0, was := mapping, owner, place.Values;
      var i, flags := 0, WithV(perm);
      done := 0;
      ExtendedNone(place.Values, root, vpn);
      if n == 0 {
        return PanicSize, 0;
      }
      while i < n
        invariant i <= n && done == i && Valid() && data == old(data)
        invariant Extended(was, place.Values, root, vpn, i)
        invariant MappedTo(pages, data, mapping0, owner0, mapping, owner, root, vpn, ppn, flags, i, n)
      {
        ghost var mapping1, owner1 := mapping, owner;
        var a, e := Va(root, vpn + i), Pte(ppn + i, flags);
        ghost var at := place.Values;
        r := MapPage(a, e);
        GrewNext(was, at, place.Values, root, vpn, i, if r.Mapped? then 1 else 0, r.NoMemory?);
        if !r.Mapped? {
          return;
        }
        MappedStep(pages, data, mapping0, owner0, mapping1, owner1, root, vpn, ppn, flags, i, n, a, e, mapping, owner);
        i := i + 1;
        done := i;
      }
      r := Mapped;
    }

    /** One turn of the loop of mappages: walk with allocation, then store the entry. */
    method MapPage(a: Va, e: Pte) returns (r: MapResult)
      requires Valid() && a.root in roots && a.vpn < MAXVPN
      requires ValidPte(e) && Grants(e.flags) && (e.ppn in pages ==> e.ppn in data && e.ppn !in owner)
      modifies `free, `data, `tables, `place, `up, `mapping, `owner
      ensures Valid() && data == old(data) && (r.PanicRemap? <==> a in old(mapping)) && !r.PanicSize?
      ensures r.Mapped? ==> mapping == old(mapping)[a := e] && owner == Claim(old(owner), pages, e.ppn, a)
      ensures !r.Mapped? ==> mapping == old(mapping) && owner == old(owner)
      ensures r.NoMemory? ==> free == []
      ensures Grew(old(place).Values, place.Values, a.root, a.vpn, if r.Mapped? then 1 else 0, r.NoMemory?)
    {
      if a in mapping {
        MappedBottom(tables, place, up, mapping, a, Bottom(tables, a.root, a.vpn));
      }
      var t := Walk(a.root, a.vpn, true);
      if t.None? {
        return NoMemory;
      }
      EntryShows(tables, place, up, mapping, a, t.value);
      if ValidPte(tables[t.value][a.vpn % ENTRIES]) {
        ExtendedNone(place.Values, a.root, a.vpn);
        return PanicRemap;
      }
      SetPte(t.value, a, e);
      r := Mapped;
    }

    /** Stores a valid entry in an empty slot of a bottom-level table. */
    method SetPte(t: nat, a: Va, e: Pte)
      requires Valid() && a.root in roots && a.vpn < MAXVPN && t in tables
      requires place[t] == Node(a.root, 0, a.vpn / ENTRIES)
      requires ValidPte(e) && Grants(e.flags) && a !in mapping && (e.ppn in pages ==> e.ppn in data && e.ppn !in owner)
      modifies `tables, `mapping, `owner
      ensures Valid() && mapping == old(mapping)[a := e]
      ensures owner == Claim(old(owner), pages, e.ppn, a)
    {
      ghost var tables0, mapping0, owner0 := tables, mapping, owner;
      assert NodeOk(tables, place, t);
      tables := tables[t := tables[t][a.vpn % ENTRIES := e]];
      mapping := mapping[a := e];
      owner := Claim(owner, pages, e.ppn, a);
      MapOne(pages, free, tables0, data, place, up, roots, mapping0, owner0, t, a, e, tables, mapping, owner);
    }

    /** One turn of the loop of uvmunmap: the page goes back to the allocator if asked, and its entry is cleared. */
    method UnmapPage(a: Va, doFree: bool)
      requires Valid() && a in mapping && (doFree ==> mapping[a].ppn in pages)
      modifies `free, `data, `tables, `place, `up, `mapping, `owner
      ensures Valid() && place == old(place) && up == old(up) && tables.Keys == old(tables).Keys
      ensures mapping == old(mapping) - {a}
      ensures owner == if old(mapping)[a].ppn in pages then old(owner) - {old(mapping)[a].ppn} else old(owner)
      ensures data == if doFree then old(data) - {old(mapping)[a].ppn} else old(data)
      ensures free == if doFree then [old(mapping)[a].ppn] + old(free) else old(free)
    {
      ghost var tables0, mapping0, owner0, free0, data0 := tables, mapping, owner, free, data;
      assert InSpace(tables, place, a);
      var t := Walk(a.root, a.vpn, false);
      MappedBottom(tables, place, up, mapping, a, t);
      var e := tables[t.value][a.vpn % ENTRIES];
      if doFree {
        Kfree(e.ppn);
      }
      tables := tables[t.value := tables[t.value][a.vpn % ENTRIES := Pte(0, 0)]];
      mapping := mapping - {a};
      owner := if e.ppn in pages then owner - {e.ppn} else owner;
      ClearOne(pages, free0, tables0, data0, place, up, roots, mapping0, owner0, t.value, a, tables, mapping, owner);
      if doFree {
        Release(pages, free0, tables, data0, place, up, roots, mapping, owner, e.ppn, free, data);
      }
    }

    /** Unmaps n mapped pages from lo on, and frees their physical pages if asked. */
    method Unmap(root: nat, lo: nat, n: nat, doFree: bool)
      requires Valid() && AllMapped(pages, mapping, root, lo, lo + n, doFree)
      modifies `free, `data, `tables, `place, `up, `mapping, `owner
      ensures Valid() && place == old(place) && tables.Keys == old(tables).Keys
      ensures mapping == Without(old(mapping), root, lo, n) && owner == OwnersWithout(old(owner), root, lo, n)
      ensures data == if doFree then DataWithout(old(data), old(owner), root, lo, n) else old(data)
      ensures |free| == |old(free)| + (if doFree then n else 0)
    {
      ghost var m0, o0, d0 := mapping, owner, data;
      DroppedNone(pages, free, tables, m0, o0, d0, root, lo, n, doFree);
      var i := 0;
      while i < n
        invariant i <= n && Valid() && place == old(place) && tables.Keys == old(tables).Keys
        invariant |free| == |old(free)| + (if doFree then i else 0)
        invariant Dropped(pages, m0, o0, d0, mapping, owner, data, root, lo, i, n, doFree)
      {
        UnmapNext(m0, o0, d0, root, lo, i, n, doFree);
        i := i + 1;
      }
    }

    /** One turn of that loop. */
    method UnmapNext(ghost m0: Mapping, ghost o0: map<nat, Va>, ghost d0: map<nat, Content>, root: nat, lo: nat, i: nat,
                     ghost n: nat, doFree: bool)
      requires Valid() && i < n && Dropped(pages, m0, o0, d0, mapping, owner, data, root, lo, i, n, doFree)
      modifies `free, `data, `tables, `place, `up, `mapping, `owner
      ensures Valid() && place == old(place) && tables.Keys == old(tables).Keys
      ensures |free| == |old(free)| + (if doFree then 1 else 0)
      ensures Dropped(pages, m0, o0, d0, mapping, owner, data, root, lo, i + 1, n, doFree)
    {
      DroppedStep(pages, m0, o0, d0, mapping, owner, data, root, lo, i, n, doFree);
      UnmapPage(Va(root, lo + i), doFree);
    }

    /** An empty address space, unless memory has run out. */
    method Create() returns (r: Option<nat>)
      requires Valid()
      modifies `free, `data, `tables, `place, `roots
      ensures Valid() && data == old(data) && (r.None? <==> old(free) == []) && (r.None? ==> unchanged(this))
      ensures r.Some? ==> r.value !in old(roots) && roots == old(roots) + {r.value} && forall v: nat ::
                Va(r.value, v) !in mapping
    {
      r := Kalloc();
      if r.None? {
        return;
      }
      var c := r.value;
      ghost var tables0, data0, place0, roots0 := tables, data, place, roots;
      data := data - {c};
      tables := tables[c := ZeroTable()];
      place := place[c := Node(c, 2, 0)];
      roots := roots + {c};
      NewSpace(pages, free, tables0, data0, place0, up, roots0, mapping, owner, c, tables, data, place, roots);
    }

    /** Shrinks an address space: the whole pages between the two sizes are unmapped and freed. */
    method Dealloc(root: nat, oldsz: nat, newsz: nat) returns (r: nat)
      requires Valid() && AllMapped(pages, mapping, root, PageUp(newsz), PageUp(oldsz), true)
      modifies `free, `data, `tables, `place, `up, `mapping, `owner
      ensures Valid() && place == old(place) && tables.Keys == old(tables).Keys && r == if newsz < oldsz then newsz
              else oldsz
      ensures Lost(old(mapping), mapping, root, newsz, oldsz)
      ensures var n := Growth(newsz, oldsz);
              && mapping == Without(old(mapping), root, PageUp(newsz), n)
              && owner == OwnersWithout(old(owner), root, PageUp(newsz), n)
              && data == DataWithout(old(data), old(owner), root, PageUp(newsz), n)
    {
      r := oldsz;
      if newsz < oldsz {
        if PageUp(newsz) < PageUp(oldsz) {
          Unmap(root, PageUp(newsz), PageUp(oldsz) - PageUp(newsz), true);
        }
        r := newsz;
      }
      WithoutLost(old(mapping), mapping, root, newsz, oldsz);
    }

    /** Allocates a page, gives it contents and maps it; a page that cannot be mapped goes straight back. */
    method MapNew(a: Va, perm: nat, content: Content) returns (ok: bool, ghost p: nat)
      requires Valid() && a.root in roots && a.vpn < MAXVPN && a !in mapping && Grants(perm)
      modifies `free, `data, `tables, `place, `up, `mapping, `owner
      ensures Valid() && (!ok ==> mapping == old(mapping) && data == old(data) && owner == old(owner))
      ensures ok ==> Added(pages, old(mapping), old(data), old(owner), mapping, data, owner, a, p, WithV(perm), content)
      ensures ok ==> Extended(old(place).Values, place.Values, a.root, a.vpn, 1)
      ensures !ok ==> Starved(old(place).Values, place.Values, a.root, a.vpn, 0, |free|)
    {
      ghost var m0, d0, o0 := mapping, data, owner;
      p := 0;
      ExtendedNone(place.Values, a.root, a.vpn);
      var mem := Kalloc();
      if mem.None? {
        return false, p;
      }
      p := mem.value;
      ghost var d1 := data;
      data := data[mem.value := content];
      assert data == d0[p := content];
      Refilled(pages, free, tables, d1, p, data);
      var r;
      ghost var done;
      r, done := MapPages(a.root, a.vpn, 1, mem.value, perm);
      ok := r.Mapped?;
      OnePage(pages, m0, d0, o0, data, mapping, owner, a, p, WithV(perm), content, done);
      if !ok {
        ghost var free0, data0 := free, data;
        Kfree(mem.value);
        Release(pages, free0, tables, data0, place, up, roots, mapping, owner, mem.value, free, data);
      }
    }

    /** The loops that map new pages: the first k wanted pages from lo on are there, and the tables for them. */
    ghost predicate Growing(m0: Mapping, d0: map<nat, Content>, o0: map<nat, Va>, at0: set<Node>, root: nat, lo: nat,
                            want: seq<Want>, k: nat)
      reads this
    {
      && Valid() && Fresh(pages, m0, d0, o0, mapping, data, owner, root, lo, want, k)
      && |data| == |d0| + k && Extended(at0, place.Values, root, lo, k)
    }

    /** Their failure: everything is as it was, and no pages are left for one of n pages or its tables. */
    ghost predicate Undone(m0: Mapping, d0: map<nat, Content>, o0: map<nat, Va>, at0: set<Node>, root: nat, lo: nat,
                           n: nat)
      reads this
    {
      && Valid() && mapping == m0 && data == d0 && owner == o0
      && StarvedBefore(at0, place.Values, root, lo, n, |free|)
    }

    /** One turn: the wanted page k is there, or the whole loop is undone. */
    method MapNext(ghost m0: Mapping, ghost d0: map<nat, Content>, ghost o0: map<nat, Va>, ghost at0: set<Node>,
                   root: nat, lo: nat, ghost want: seq<Want>, k: nat, perm: nat, content: Content)
      returns (ok: bool)
      requires root in roots && lo + k < MAXVPN && Unmapped(m0, root, lo, lo + |want|) && Grants(perm)
      requires Growing(m0, d0, o0, at0, root, lo, want, k) && k < |want| && want[k] == Want(WithV(perm), content)
      modifies `free, `data, `tables, `place, `up, `mapping, `owner
      ensures ok ==> Growing(m0, d0, o0, at0, root, lo, want, k + 1)
      ensures !ok ==> Undone(m0, d0, o0, at0, root, lo, |want|)
    {
      ghost var m1, d1, o1, at1, p := mapping, data, owner, place.Values, 0;
      NextUnmapped(pages, m0, d0, o0, m1, d1, o1, root, lo, want, k);
      ok, p := MapNew(Va(root, lo + k), perm, content);
      GrewNext(at0, at1, place.Values, root, lo, k, if ok then 1 else 0, !ok && |free| == 1);
      if ok {
        FreshStep(pages, m0, d0, o0, m1, d1, o1, root, lo, want, k, mapping, data, owner, p);
      } else {
        BackOut(m0, d0, o0, root, lo, want, k);
        assert Starved(at0, place.Values, root, lo, k, |free|);
      }
    }

    /** The loop of uvmalloc, counted in pages: n new pages from lo on, all with the same contents, or nothing. */
    method MapAll(root: nat, lo: nat, n: nat, perm: nat, content: Content, ghost want: seq<Want>) returns (ok: bool)
      requires Valid() && root in roots && lo + n <= MAXVPN && Grants(perm) && Unmapped(mapping, root, lo, lo + n)
      requires |want| == n && forall i {:trigger want[i]} :: 0 <= i < n ==> want[i] == Want(WithV(perm), content)
      modifies `free, `data, `tables, `place, `up, `mapping, `owner
      ensures ok ==> Growing(old(mapping), old(data), old(owner), old(place).Values, root, lo, want, n)
      ensures !ok ==> Undone(old(mapping), old(data), old(owner), old(place).Values, root, lo, n)
    {
      ghost var m0, d0, o0, at0 := mapping, data, owner, place.Values;
      FreshStart(pages, m0, d0, o0, root, lo, want);
      ExtendedNone(at0, root, lo);
      var i := 0;
      while i < n
        invariant i <= n && Growing(m0, d0, o0, at0, root, lo, want, i)
      {
        ok := MapNext(m0, d0, o0, at0, root, lo, want, i, perm, content);
        if !ok {
          return;
        }
        i := i + 1;
      }
      ok := true;
    }

    /** And whether it succeeds depends on the pages that are free before. */
    method Grow(root: nat, lo: nat, n: nat, perm: nat, content: Content, ghost want: seq<Want>) returns (ok: bool)
      requires Valid() && root in roots && lo + n <= MAXVPN && Grants(perm) && Unmapped(mapping, root, lo, lo + n)
      requires |want| == n && forall i {:trigger want[i]} :: 0 <= i < n ==> want[i] == Want(WithV(perm), content)
      modifies `free, `data, `tables, `place, `up, `mapping, `owner
      ensures Valid() && (ok <==> Enough(old(place).Values, root, lo, n, |old(free)|))
      ensures ok ==> Fresh(pages, old(mapping), old(data), old(owner), mapping, data, owner, root, lo, want, n)
      ensures !ok ==> mapping == old(mapping) && data == old(data) && owner == old(owner) && |free| <= n
    {
      PagesCounted(pages, free, tables, data, place, up);
      ok := MapAll(root, lo, n, perm, content, want);
      PagesCounted(pages, free, tables, data, place, up);
      Verdict(|pages|, |old(free)|, old(place).Values, |old(data)|, |free|, place.Values, |data|, root, lo, n, ok);
    }

    /**
     Grows an address space by zeroed pages, or fails and leaves every translation and every page's
     contents as they were.
     */
    method Alloc(root: nat, oldsz: nat, newsz: nat, xperm: nat) returns (r: nat, ghost ok: bool)
      requires Valid() && root in roots && PageUp(newsz) <= MAXVPN && xperm in {0, PTE_W, PTE_X, PTE_W + PTE_X}
      requires Unmapped(mapping, root, PageUp(oldsz), PageUp(newsz))
      modifies `free, `data, `tables, `place, `up, `mapping, `owner
      ensures Valid()
      ensures ok ==> r == if newsz < oldsz then oldsz else newsz
      ensures ok ==> Fresh(pages, old(mapping), old(data), old(owner), mapping, data, owner, root, PageUp(oldsz),
                           Zeros(Growth(oldsz, newsz), PTE_V + PTE_R + PTE_U + xperm), Growth(oldsz, newsz))
      ensures !ok ==> r == 0 && mapping == old(mapping) && data == old(data) && owner == old(owner)
      ensures ok ==> Gained(old(mapping), mapping, root, oldsz, newsz)
      ensures ok <==> Enough(old(place).Values, root, PageUp(oldsz), Growth(oldsz, newsz), |old(free)|)
      ensures !ok ==> |free| <= Growth(oldsz, newsz)
    {
      if newsz < oldsz {
        FreshStart(pages, mapping, data, owner, root, PageUp(oldsz), []);
        FreshGained(pages, mapping, data, owner, mapping, data, owner, root, [], oldsz, newsz);
        return oldsz, true;
      }
      var perm := PTE_R + PTE_U + xperm;
      assert Grants(perm) && WithV(perm) == PTE_V + perm;
      var mapped := Grow(root, PageUp(oldsz), Growth(oldsz, newsz), perm, Filled(0),
                           Zeros(Growth(oldsz, newsz), WithV(perm)));
      r, ok := if mapped then newsz else 0, mapped;
      if ok {
        FreshGained(pages, old(mapping), old(data), old(owner), mapping, data, owner, root,
                    Zeros(Growth(oldsz, newsz), WithV(perm)), oldsz, newsz);
      }
    }

    /** The failure paths: unmap and free the k pages that were added. Shrinking by k whole pages is the same call. */
    method BackOut(ghost m0: Mapping, ghost d0: map<nat, Content>, ghost o0: map<nat, Va>, root: nat, lo: nat,
                   ghost want: seq<Want>, k: nat)
      requires Valid() && Fresh(pages, m0, d0, o0, mapping, data, owner, root, lo, want, k)
      modifies `free, `data, `tables, `place, `up, `mapping, `owner
      ensures Valid() && mapping == m0 && data == d0 && owner == o0 && |free| == |old(free)| + k && place == old(place)
    {
      FreshMapped(pages, m0, d0, o0, mapping, data, owner, root, lo, want, k);
      Unmap(root, lo, k, true);
    }

    /**
     Copies the pages that hold the first sz bytes of one address space into another, or fails and leaves
     everything as it was.
     */
    method Copy(source: nat, target: nat, sz: nat) returns (ok: bool)
      requires Valid() && target in roots && source != target && PageUp(sz) <= MAXVPN
      requires AllMapped(pages, mapping, source, 0, PageUp(sz), true) && Unmapped(mapping, target, 0, PageUp(sz))
      modifies `free, `data, `tables, `place, `up, `mapping, `owner
      ensures Valid()
      ensures ok ==> Fresh(pages, old(mapping), old(data), old(owner), mapping, data, owner, target, 0,
                           Copies(pages, old(mapping), old(data), source, PageUp(sz)), PageUp(sz))
      ensures ok ==> Gained(old(mapping), mapping, target, 0, sz)
      ensures !ok ==> mapping == old(mapping) && data == old(data) && owner == old(owner)
      ensures ok <==> Enough(old(place).Values, target, 0, PageUp(sz), |old(free)|)
      ensures !ok ==> |free| <= PageUp(sz)
    {
      ghost var want := Copies(pages, mapping, data, source, PageUp(sz));
      ok := CopyAll(source, target, PageUp(sz), want);
      if ok {
        FromNothing(sz);
        FreshGained(pages, old(mapping), old(data), old(owner), mapping, data, owner, target, want, 0, sz);
      }
    }

    /** The first n pages; whether it succeeds depends on the pages that are free before. */
    method CopyAll(source: nat, target: nat, n: nat, ghost want: seq<Want>) returns (ok: bool)
      requires Valid() && target in roots && n <= MAXVPN && Unmapped(mapping, target, 0, n)
      requires |want| == n && Describes(mapping, data, source, want)
      modifies `free, `data, `tables, `place, `up, `mapping, `owner
      ensures Valid() && (ok <==> Enough(old(place).Values, target, 0, n, |old(free)|))
      ensures ok ==> Fresh(pages, old(mapping), old(data), old(owner), mapping, data, owner, target, 0, want, n)
      ensures !ok ==> mapping == old(mapping) && data == old(data) && owner == old(owner) && |free| <= n
    {
      PagesCounted(pages, free, tables, data, place, up);
      ok := CopyPages(source, target, n, want);
      PagesCounted(pages, free, tables, data, place, up);
      Verdict(|pages|, |old(free)|, old(place).Values, |old(data)|, |free|, place.Values, |data|, target, 0, n, ok);
    }

    /** The loop of uvmcopy, counted in pages. */
    method CopyPages(source: nat, target: nat, n: nat, ghost want: seq<Want>) returns (ok: bool)
      requires Valid() && target in roots && n <= MAXVPN && Unmapped(mapping, target, 0, n)
      requires |want| == n && Describes(mapping, data, source, want)
      modifies `free, `data, `tables, `place, `up, `mapping, `owner
      ensures ok ==> Growing(old(mapping), old(data), old(owner), old(place).Values, target, 0, want, n)
      ensures !ok ==> Undone(old(mapping), old(data), old(owner), old(place).Values, target, 0, n)
    {
      ghost var m0, d0, o0, at0 := mapping, data, owner, place.Values;
      FreshStart(pages, m0, d0, o0, target, 0, want);
      ExtendedNone(at0, target, 0);
      var i := 0;
      while i < n
        invariant i <= n && Growing(m0, d0, o0, at0, target, 0, want, i)
      {
        ok := CopyNext(m0, d0, o0, at0, source, target, want, i);
        if !ok {
          return;
        }
        i := i + 1;
      }
      ok := true;
    }

    /** One turn of the loop of uvmcopy. */
    method CopyNext(ghost m0: Mapping, ghost d0: map<nat, Content>, ghost o0: map<nat, Va>, ghost at0: set<Node>,
                    source: nat, target: nat, ghost want: seq<Want>, i: nat)
      returns (ok: bool)
      requires target in roots && i < MAXVPN && Unmapped(m0, target, 0, |want|)
      requires Growing(m0, d0, o0, at0, target, 0, want, i) && i < |want| && Describes(m0, d0, source, want)
      modifies `free, `data, `tables, `place, `up, `mapping, `owner
      ensures ok ==> Growing(m0, d0, o0, at0, target, 0, want, i + 1)
      ensures !ok ==> Undone(m0, d0, o0, at0, target, 0, |want|)
    {
      assert want[i] == want[i] && Va(source, i) in m0;
      StillThere(pages, m0, d0, o0, mapping, data, owner, target, want, i, Va(source, i));
      var e := ReadPte(Va(source, i));
      ok := MapNext(m0, d0, o0, at0, target, 0, want, i, e.flags, data[e.ppn]);
    }

    /** walk without allocation, then read the entry of a mapped page. */
    method ReadPte(a: Va) returns (e: Pte)
      requires Valid() && a in mapping
      modifies `free, `data, `tables, `place, `up
      ensures unchanged(this) && e == mapping[a] && ValidPte(e) && Grants(e.flags)
    {
      assert InSpace(tables, place, a) && Shows(tables, mapping, a);
      var t := Walk(a.root, a.vpn, false);
      MappedBottom(tables, place, up, mapping, a, t);
      e := tables[t.value][a.vpn % ENTRIES];
    }

    /** Takes an emptied table out of its parent's entry and frees its page. */
    method DropTable(t: nat, k: nat, c: nat)
      requires Valid() && t in tables && place[t].level > 0 && k < |tables[t]| && tables[t][k] == Pte(c, PTE_V)
      requires c in tables && NoValid(tables[c])
      modifies `free, `data, `tables, `place, `up
      ensures Valid() && data == old(data) && c != t && old(place)[c] == Child(old(place)[t], k)
      ensures tables == old(tables)[t := old(tables)[t][k := Pte(0, 0)]] - {c} && place == old(place) - {c}
    {
      ghost var tables0, data0, place0, up0 := tables, data, place, up;
      assert Once(pages, free, tables, data, c);
      tables := tables[t := tables[t][k := Pte(0, 0)]] - {c};
      data := data[c := Filled(0)];
      place, up := place - {c}, up - {c};
      Unhang(pages, free, tables0, data0, place0, up0, roots, mapping, owner, t, k, c, tables, data, place, up);
      ghost var free1, data1 := free, data;
      Kfree(c);
      Release(pages, free1, tables, data1, place, up, roots, mapping, owner, c, free, data);
    }

    /** Frees every table below t, which maps no page, and clears the entries of t. */
    method FreeEntries(t: nat, ghost level: nat)
      requires Valid() && t in tables && place[t].level == level && NoLeaves(tables, place, place[t])
      modifies `free, `data, `tables, `place, `up
      ensures Valid() && data == old(data) && Pruned(old(tables), old(place), tables, place, t) && NoValid(tables[t])
      decreases level, 1
    {
      ghost var tables0, place0 := tables, place;
      assert NodeOk(tables, place, t);
      var i := 0;
      while i < ENTRIES
        invariant i <= ENTRIES && Valid() && data == old(data) && Pruned(tables0, place0, tables, place, t)
        invariant Cleared(tables0, tables, t, i)
      {
        FreeEntry(tables0, place0, t, i, level);
        i := i + 1;
      }
    }

    /** One turn of the loop of freewalk: a table below is emptied, taken out and freed. */
    method FreeEntry(ghost tables0: Tables, ghost place0: map<nat, Node>, t: nat, i: nat, ghost level: nat)
      requires Valid() && Pruned(tables0, place0, tables, place, t) && NoLeaves(tables0, place0, place0[t])
      requires i < ENTRIES && Cleared(tables0, tables, t, i) && place[t].level == level
      modifies `free, `data, `tables, `place, `up
      ensures Valid() && data == old(data) && Pruned(tables0, place0, tables, place, t)
      ensures Cleared(tables0, tables, t, i + 1)
      decreases level, 0
    {
      assert NodeOk(tables, place, t) && EntryOk(tables, place, t, i);
      var e := tables[t][i];
      assert level == 0 ==> !ValidPte(e) by {
        if level == 0 {
          assert NoValid(tables0[t]);
        }
      }
      if ValidPte(e) && !Grants(e.flags) {
        var c := e.ppn;
        ghost var tables1, place1 := tables, place;
        NotItself(tables, place, t, i, c);
        StillNoLeaves(tables0, place0, tables, place, t, i, c);
        FreeEntries(c, level - 1);
        ghost var tables2, place2 := tables, place;
        DropTable(t, i, c);
        PrunedChild(tables0, place0, tables1, place1, tables2, place2, t, i, c, tables, place);
      } else if ValidPte(e) {
        assert false;      // panic("freewalk: leaf") is unreachable
      }
    }

    /** Frees the root of an emptied tree. */
    method DropRoot(root: nat)
      requires Valid() && root in roots && NoValid(tables[root])
      modifies `free, `data, `tables, `place, `up, `roots
      ensures Valid() && data == old(data) && roots == old(roots) - {root}
      ensures tables == old(tables) - {root} && place == old(place) - {root}
    {
      ghost var tables1, data1, place1, up1, roots1 := tables, data, place, up, roots;
      assert Once(pages, free, tables, data, root);
      tables := tables - {root};
      data := data[root := Filled(0)];
      place, up, roots := place - {root}, up - {root}, roots - {root};
      EndSpace(pages, free, tables1, data1, place1, up1, roots1, mapping, owner, root, tables, data, place, up, roots);
      ghost var free2, data2 := free, data;
      Kfree(root);
      Release(pages, free2, tables, data2, place, up, roots, mapping, owner, root, free, data);
    }

    /** Frees the table pages of an address space that maps nothing any more. */
    method Freewalk(root: nat)
      requires Valid() && root in roots && forall v: nat :: Va(root, v) !in mapping
      modifies `free, `data, `tables, `place, `up, `roots
      ensures Valid() && data == old(data) && roots == old(roots) - {root}
      ensures OnlySpaceGone(old(tables), old(place), tables, place, root)
    {
      ghost var tables0, place0, up0 := tables, place, up;
      Leafless(tables, place, up, mapping, root);
      FreeEntries(root, 2);
      ghost var tables1, place1, up1 := tables, place, up;
      DropRoot(root);
      SpaceGone(tables0, place0, up0, tables1, place1, up1, root, tables, place);
    }

    /** Frees an address space: its pages below sz, which are all it maps, then its table pages; each goes back once. */
    method Free(root: nat, sz: nat)
      requires Valid() && root in roots && AllMapped(pages, mapping, root, 0, PageUp(sz), true)
      requires forall a :: a in mapping && a.root == root ==> a.vpn < PageUp(sz)
      modifies `free, `data, `tables, `place, `up, `mapping, `owner, `roots
      ensures Valid() && roots == old(roots) - {root}
      ensures mapping == Without(old(mapping), root, 0, PageUp(sz))
      ensures data == DataWithout(old(data), old(owner), root, 0, PageUp(sz))
      ensures forall s :: s in tables <==> s in old(tables) && old(place)[s].root != root
      ensures forall p :: p in free <==>
                || p in old(free)
                || (p in old(tables) && old(place)[p].root == root)
                || (p in old(owner) && old(owner)[p].root == root)
    {
      ghost var mapping0, owner0, data0, tables0, place0, free0 := mapping, owner, data, tables, place, free;
      if sz > 0 {
        Unmap(root, 0, PageUp(sz), true);
      }
      Partition(pages, free0, tables0, data0);
      FreePages(pages, mapping0, data0, owner0, root, sz, mapping, data);
      Freewalk(root);
      Partition(pages, free, tables, data);
    }
  }
}
