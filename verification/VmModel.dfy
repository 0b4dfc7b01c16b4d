/**
 Sv39 page tables as values: three levels of 512-entry table pages, reached from
 the root of each address space. `place` gives the position of every table page,
 `up` its parent; they tie the pages into disjoint trees.
 */
module VmModel {
  import opened Params

  const ENTRIES: nat := 512
  const MAXVPN: nat := 0x400_0000      // MAXVA / PGSIZE

  const PTE_V: nat := 1
  const PTE_R: nat := 2
  const PTE_W: nat := 4
  const PTE_X: nat := 8
  const PTE_U: nat := 16

  /** A page-table entry: a physical page number and the ten flag bits. */
  datatype Pte = Pte(ppn: nat, flags: nat)

  predicate ValidPte(e: Pte) { e.flags % 2 == 1 }

  /** Some of R, W, X is set: the entry maps a page; otherwise it points to a table. */
  predicate Grants(flags: nat) { flags / 2 % 8 != 0 }

  type Tables = map<nat, seq<Pte>>

  /** Table page of an address space: level 2 is the root; prefix is the part of the page number walked so far. */
  datatype Node = Node(root: nat, level: nat, prefix: nat)

  function Child(n: Node, k: nat): Node
    requires n.level > 0
  {
    Node(n.root, n.level - 1, n.prefix * ENTRIES + k)
  }

  /** Positions that lead only to page numbers below MAXVPN. */
  predicate InBounds(n: Node) {
    (n.level == 1 ==> n.prefix < MAXVPN / ENTRIES / ENTRIES) && (n.level == 0 ==> n.prefix < MAXVPN / ENTRIES)
  }

  predicate NodeOk(tables: Tables, place: map<nat, Node>, t: nat)
    requires t in tables
  {
    && |tables[t]| == ENTRIES && t in place && place[t].level <= 2 && InBounds(place[t])
    && (place[t].level == 2 ==> place[t] == Node(t, 2, 0))
  }

  /** A valid entry leads one level down to the table in that position; at the bottom it maps a page. */
  predicate EntryOk(tables: Tables, place: map<nat, Node>, t: nat, k: nat)
    requires t in tables && t in place && k < |tables[t]|
  {
    var e := tables[t][k];
    ValidPte(e) ==>
      if place[t].level == 0 then Grants(e.flags)
      else e.flags == PTE_V && e.ppn in tables && e.ppn in place && place[e.ppn] == Child(place[t], k)
  }

  /** A table below the root is pointed to by the entry its position names. */
  predicate LinkedUp(tables: Tables, place: map<nat, Node>, up: map<nat, nat>, t: nat)
    requires t in place
  {
    var n := place[t];
    n.level < 2 ==>
      && t in up && up[t] in tables && up[t] in place
      && place[up[t]] == Node(n.root, n.level + 1, n.prefix / ENTRIES)
      && n.prefix % ENTRIES < |tables[up[t]]| && tables[up[t]][n.prefix % ENTRIES] == Pte(t, PTE_V)
  }

  predicate TreesOk(tables: Tables, place: map<nat, Node>, up: map<nat, nat>) {
    && place.Keys == tables.Keys
    && (forall t {:trigger NodeOk(tables, place, t)} :: t in tables ==> NodeOk(tables, place, t))
    && (forall t {:trigger LinkedUp(tables, place, up, t)} :: t in tables ==> LinkedUp(tables, place, up, t))
    && (forall t, k {:trigger EntryOk(tables, place, t, k)} :: t in tables && 0 <= k < |tables[t]| ==>
          EntryOk(tables, place, t, k))
  }

  /** PX(level, va) in terms of the virtual page number. */
  function Index(level: nat, vpn: nat): nat {
    if level == 0 then vpn % ENTRIES
    else if level == 1 then vpn / ENTRIES % ENTRIES
    else vpn / (ENTRIES * ENTRIES)
  }

  /** The part of the page number that a table of this level has used up. */
  function Prefix(level: nat, vpn: nat): nat {
    if level == 0 then vpn / ENTRIES else if level == 1 then vpn / (ENTRIES * ENTRIES) else 0
  }

  /** The three indices are the digits of the page number to the base ENTRIES, the top level's first. */
  lemma IndexDigits(vpn: nat)
    requires vpn < MAXVPN
    ensures vpn == (Index(2, vpn) * ENTRIES + Index(1, vpn)) * ENTRIES + Index(0, vpn)
    ensures Index(2, vpn) < ENTRIES && Index(1, vpn) < ENTRIES && Index(0, vpn) < ENTRIES
  {
    PrefixStep(0, 2, vpn);
    PrefixStep(0, 1, vpn);
  }

  /** The bits R, W and X. */
  lemma GrantsBits(flags: nat)
    ensures Grants(flags) <==> flags / PTE_R % 2 == 1 || flags / PTE_W % 2 == 1 || flags / PTE_X % 2 == 1
  {
    var k := flags / 2;
    assert flags / 4 == k / 2 && flags / 8 == k / 2 / 2;
  }

  lemma PrefixStep(root: nat, level: nat, vpn: nat)
    requires 0 < level <= 2 && vpn < MAXVPN
    ensures Prefix(level, vpn) * ENTRIES + Index(level, vpn) == Prefix(level - 1, vpn) && Index(level, vpn) < ENTRIES
    ensures InBounds(Node(root, level - 1, Prefix(level - 1, vpn)))
  {
  }

  /** The table one level down, if the entry for vpn is valid. */
  function Down(tables: Tables, t: nat, level: nat, vpn: nat): Option<nat> {
    if t !in tables || Index(level, vpn) >= |tables[t]| || !ValidPte(tables[t][Index(level, vpn)]) then None
    else Some(tables[t][Index(level, vpn)].ppn)
  }

  /** The table of the given level on the way to vpn. */
  function Reach(tables: Tables, root: nat, level: nat, vpn: nat): Option<nat>
    decreases 2 - level
  {
    if level >= 2 then Some(root)
    else
      var t := Reach(tables, root, level + 1, vpn);
      if t.None? then None else Down(tables, t.value, level + 1, vpn)
  }

  /** The bottom-level table page for vpn: walk without allocation. */
  function Bottom(tables: Tables, root: nat, vpn: nat): Option<nat> {
    Reach(tables, root, 0, vpn)
  }

  /** The address space as a finite map: the entry that translates vpn. */
  function Lookup(tables: Tables, root: nat, vpn: nat): Option<Pte> {
    var t := Bottom(tables, root, vpn);
    if t.None? || t.value !in tables || vpn % ENTRIES >= |tables[t.value]| then None
    else
      var e := tables[t.value][vpn % ENTRIES];
      if ValidPte(e) then Some(e) else None
  }

  predicate IsRoot(tables: Tables, place: map<nat, Node>, root: nat) {
    root in tables && root in place && place[root] == Node(root, 2, 0)
  }

  /** Walking from a root arrives at the table whose position is the page number's prefix, and only there. */
  lemma BottomIs(tables: Tables, place: map<nat, Node>, up: map<nat, nat>, root: nat, vpn: nat, t: nat)
    requires TreesOk(tables, place, up) && IsRoot(tables, place, root) && vpn < MAXVPN
    ensures Bottom(tables, root, vpn) == Some(t) <==> t in tables && place[t] == Node(root, 0, vpn / ENTRIES)
  {
    var t1 := Reach(tables, root, 1, vpn);
    assert t1 == Down(tables, root, 2, vpn);
    assert NodeOk(tables, place, root) && EntryOk(tables, place, root, Index(2, vpn));
    if t1.Some? {
      assert NodeOk(tables, place, t1.value) && EntryOk(tables, place, t1.value, Index(1, vpn));
    }
    if t in tables && place[t] == Node(root, 0, vpn / ENTRIES) {
      assert LinkedUp(tables, place, up, t);
      var p := up[t];
      assert NodeOk(tables, place, p) && LinkedUp(tables, place, up, p);
      assert NodeOk(tables, place, up[p]);
    }
  }

  /** The translation of vpn is the entry its position names, wherever that table is. */
  lemma LookupAt(tables: Tables, place: map<nat, Node>, up: map<nat, nat>, t: nat, root: nat, vpn: nat)
    requires TreesOk(tables, place, up) && IsRoot(tables, place, root) && vpn < MAXVPN
    requires t in tables && place[t] == Node(root, 0, vpn / ENTRIES)
    ensures |tables[t]| == ENTRIES
    ensures Lookup(tables, root, vpn) == if ValidPte(tables[t][vpn % ENTRIES]) then Some(tables[t][vpn % ENTRIES])
            else None
  {
    BottomIs(tables, place, up, root, vpn, t);
    assert NodeOk(tables, place, t);
  }

  /** Two sets of trees that have the same bottom tables translate alike. */
  lemma SameLookup(tables: Tables, place: map<nat, Node>, up: map<nat, nat>,
                   tables': Tables, place': map<nat, Node>, up': map<nat, nat>, root: nat, vpn: nat)
    requires TreesOk(tables, place, up) && TreesOk(tables', place', up')
    requires IsRoot(tables, place, root) && IsRoot(tables', place', root) && vpn < MAXVPN
    requires forall t :: t in tables && place[t] == Node(root, 0, vpn / ENTRIES) ==>
               t in tables' && place'[t] == place[t] && tables'[t] == tables[t]
    requires forall t :: t in tables' && place'[t] == Node(root, 0, vpn / ENTRIES) ==>
               (t in tables && place[t] == place'[t]) || NoValid(tables'[t])
    ensures Lookup(tables', root, vpn) == Lookup(tables, root, vpn)
  {
    var b, b' := Bottom(tables, root, vpn), Bottom(tables', root, vpn);
    if b.Some? {
      BottomIs(tables, place, up, root, vpn, b.value);
      LookupAt(tables, place, up, b.value, root, vpn);
      LookupAt(tables', place', up', b.value, root, vpn);
    } else if b'.Some? {
      BottomIs(tables', place', up', root, vpn, b'.value);
      BottomIs(tables, place, up, root, vpn, b'.value);
      LookupAt(tables', place', up', b'.value, root, vpn);
    }
  }

  function ZeroTable(): seq<Pte> {
    seq(ENTRIES, _ => Pte(0, 0))
  }

  predicate NoValid(s: seq<Pte>) {
    forall l :: 0 <= l < |s| ==> !ValidPte(s[l])
  }

  /** No two tables stand in the same position. */
  lemma {:induction false} OnePlace(tables: Tables, place: map<nat, Node>, up: map<nat, nat>, s: nat, t: nat)
    requires TreesOk(tables, place, up) && s in tables && t in tables && place[s] == place[t]
    ensures s == t
    decreases 2 - place[s].level
  {
    assert NodeOk(tables, place, s) && NodeOk(tables, place, t);
    assert LinkedUp(tables, place, up, s) && LinkedUp(tables, place, up, t);
    if place[s].level < 2 {
      OnePlace(tables, place, up, up[s], up[t]);
    }
  }

  // ------------------------------------------------------------ the address spaces as one finite map

  /** A page of an address space. */
  datatype Va = Va(root: nat, vpn: nat)
  type Mapping = map<Va, Pte>

  /** The walk for a finds what the map says. */
  predicate Shows(tables: Tables, mapping: Mapping, a: Va) {
    Lookup(tables, a.root, a.vpn) == if a in mapping then Some(mapping[a]) else None
  }

  predicate InSpace(tables: Tables, place: map<nat, Node>, a: Va) {
    IsRoot(tables, place, a.root) && a.vpn < MAXVPN
  }

  /** The three-level tables mean the finite map. */
  ghost predicate Represents(tables: Tables, place: map<nat, Node>, mapping: Mapping) {
    && (forall a {:trigger InSpace(tables, place, a)} :: a in mapping ==> InSpace(tables, place, a))
    && (forall a {:trigger Shows(tables, mapping, a)} :: InSpace(tables, place, a) ==> Shows(tables, mapping, a))
  }

  /** Trees that translate every page alike mean the same map. */
  lemma SameMeaning(tables: Tables, place: map<nat, Node>, tables': Tables, place': map<nat, Node>, mapping: Mapping)
    requires Represents(tables, place, mapping)
    requires forall a :: InSpace(tables, place, a) <==> InSpace(tables', place', a)
    requires forall a :: InSpace(tables, place, a) ==> Lookup(tables', a.root, a.vpn) == Lookup(tables, a.root, a.vpn)
    ensures Represents(tables', place', mapping)
  {
    forall a | a in mapping ensures InSpace(tables', place', a) {
      assert InSpace(tables, place, a);
    }
    forall a | InSpace(tables', place', a) ensures Shows(tables', mapping, a) {
      assert InSpace(tables, place, a);
      assert Shows(tables, mapping, a);
    }
  }

  // ------------------------------------------------------------ changes to the trees

  lemma SetLeafTrees(tables: Tables, place: map<nat, Node>, up: map<nat, nat>, t: nat, k: nat, e: Pte, tables': Tables)
    requires TreesOk(tables, place, up) && t in tables && place[t].level == 0 && k < |tables[t]|
    requires tables' == tables[t := tables[t][k := e]] && (ValidPte(e) ==> Grants(e.flags))
    ensures TreesOk(tables', place, up)
  {
    forall s | s in tables' ensures NodeOk(tables', place, s) && LinkedUp(tables', place, up, s) {
      assert NodeOk(tables, place, s) && LinkedUp(tables, place, up, s);
    }
    forall s, l | s in tables' && 0 <= l < |tables'[s]| ensures EntryOk(tables', place, s, l) {
      assert s != t || l != k ==> EntryOk(tables, place, s, l);
    }
  }

  lemma SetLeafLookup(tables: Tables, place: map<nat, Node>, up: map<nat, nat>, t: nat, k: nat, e: Pte,
                      tables': Tables, root: nat, vpn: nat)
    requires TreesOk(tables, place, up) && TreesOk(tables', place, up) && t in tables && k < |tables[t]|
    requires tables' == tables[t := tables[t][k := e]] && IsRoot(tables, place, root) && vpn < MAXVPN
    ensures Lookup(tables', root, vpn) ==
              if place[t] == Node(root, 0, vpn / ENTRIES)
                  && vpn % ENTRIES == k then (if ValidPte(e) then Some(e) else None)
              else Lookup(tables, root, vpn)
  {
    if place[t] == Node(root, 0, vpn / ENTRIES) {
      LookupAt(tables, place, up, t, root, vpn);
      LookupAt(tables', place, up, t, root, vpn);
    } else {
      SameLookup(tables, place, up, tables', place, up, root, vpn);
    }
  }

  /** Writing a bottom-level entry changes the map at one page of one address space and nowhere else. */
  lemma SetLeaf(tables: Tables, place: map<nat, Node>, up: map<nat, nat>, mapping: Mapping, t: nat, a: Va, e: Pte,
                tables': Tables, mapping': Mapping)
    requires TreesOk(tables, place, up) && Represents(tables, place, mapping) && InSpace(tables, place, a)
    requires t in tables && place[t] == Node(a.root, 0, a.vpn / ENTRIES) && |tables[t]| == ENTRIES
    requires tables' == tables[t := tables[t][a.vpn % ENTRIES := e]] && (ValidPte(e) ==> Grants(e.flags))
    requires mapping' == if ValidPte(e) then mapping[a := e] else mapping - {a}
    ensures TreesOk(tables', place, up) && Represents(tables', place, mapping')
  {
    SetLeafTrees(tables, place, up, t, a.vpn % ENTRIES, e, tables');
    forall b | b in mapping' ensures InSpace(tables', place, b) {
      assert InSpace(tables, place, b);
    }
    forall b | InSpace(tables', place, b) ensures Shows(tables', mapping', b) {
      assert InSpace(tables, place, b);
      assert Shows(tables, mapping, b);
      SetLeafLookup(tables, place, up, t, a.vpn % ENTRIES, e, tables', b.root, b.vpn);
    }
  }

  lemma AddTableNodes(tables: Tables, place: map<nat, Node>, up: map<nat, nat>, t: nat, k: nat, c: nat,
                      tables': Tables, place': map<nat, Node>, up': map<nat, nat>)
    requires TreesOk(tables, place, up) && t in tables && place[t].level > 0 && k < |tables[t]|
    requires !ValidPte(tables[t][k]) && InBounds(Child(place[t], k))
    requires c !in tables && tables' == tables[t := tables[t][k := Pte(c, PTE_V)]][c := ZeroTable()]
    requires place' == place[c := Child(place[t], k)] && up' == up[c := t]
    ensures forall s :: s in tables' ==> NodeOk(tables', place', s) && LinkedUp(tables', place', up', s)
  {
    assert NodeOk(tables, place, t);
    forall s | s in tables' ensures NodeOk(tables', place', s) && LinkedUp(tables', place', up', s) {
      if s != c {
        assert NodeOk(tables, place, s) && LinkedUp(tables, place, up, s);
      }
    }
  }

  lemma AddTableTrees(tables: Tables, place: map<nat, Node>, up: map<nat, nat>, t: nat, k: nat, c: nat,
                      tables': Tables, place': map<nat, Node>, up': map<nat, nat>)
    requires TreesOk(tables, place, up) && t in tables && place[t].level > 0 && k < |tables[t]|
    requires !ValidPte(tables[t][k]) && InBounds(Child(place[t], k))
    requires c !in tables && tables' == tables[t := tables[t][k := Pte(c, PTE_V)]][c := ZeroTable()]
    requires place' == place[c := Child(place[t], k)] && up' == up[c := t]
    ensures TreesOk(tables', place', up')
  {
    AddTableNodes(tables, place, up, t, k, c, tables', place', up');
    forall s, l | s in tables' && 0 <= l < |tables'[s]| ensures EntryOk(tables', place', s, l) {
      if s != c && (s != t || l != k) {
        assert EntryOk(tables, place, s, l);
      }
    }
  }

  /** Hanging a zeroed table under an empty entry translates nothing new. */
  lemma AddTable(tables: Tables, place: map<nat, Node>, up: map<nat, nat>, mapping: Mapping, t: nat, k: nat, c: nat,
                 tables': Tables, place': map<nat, Node>, up': map<nat, nat>)
    requires TreesOk(tables, place, up) && t in tables && place[t].level > 0 && k < |tables[t]|
    requires !ValidPte(tables[t][k]) && InBounds(Child(place[t], k))
    requires c !in tables && tables' == tables[t := tables[t][k := Pte(c, PTE_V)]][c := ZeroTable()]
    requires place' == place[c := Child(place[t], k)] && up' == up[c := t]
    requires Represents(tables, place, mapping)
    ensures TreesOk(tables', place', up') && Represents(tables', place', mapping)
  {
    AddTableTrees(tables, place, up, t, k, c, tables', place', up');
    assert place'[c].level < 2 by { assert NodeOk(tables, place, t); }
    forall a | InSpace(tables, place, a) ensures Lookup(tables', a.root, a.vpn) == Lookup(tables, a.root, a.vpn) {
      SameLookup(tables, place, up, tables', place', up', a.root, a.vpn);
    }
    SameMeaning(tables, place, tables', place', mapping);
  }

  /** Only one entry leads to a table. */
  lemma EntryElsewhere(tables: Tables, place: map<nat, Node>, up: map<nat, nat>, t: nat, k: nat, c: nat, s: nat, l: nat)
    requires TreesOk(tables, place, up) && t in tables && place[t].level > 0 && k < |tables[t]|
    requires tables[t][k] == Pte(c, PTE_V)
    requires s in tables && l < |tables[s]| && (s != t || l != k)
    ensures EntryOk(tables, place, s, l)
    ensures ValidPte(tables[s][l]) && place[s].level > 0 ==> tables[s][l].ppn != c
  {
    assert EntryOk(tables, place, s, l) && EntryOk(tables, place, t, k);
    assert NodeOk(tables, place, s) && NodeOk(tables, place, t);
    if ValidPte(tables[s][l]) && place[s].level > 0 && tables[s][l].ppn == c {
      assert Child(place[s], l) == Child(place[t], k);
      OnePlace(tables, place, up, s, t);
    }
  }

  lemma RemoveTableNodes(tables: Tables, place: map<nat, Node>, up: map<nat, nat>, t: nat, k: nat, c: nat,
                         tables': Tables, place': map<nat, Node>, up': map<nat, nat>)
    requires TreesOk(tables, place, up) && t in tables && place[t].level > 0 && k < |tables[t]|
    requires tables[t][k] == Pte(c, PTE_V) && c in tables && NoValid(tables[c])
    requires tables' == tables[t := tables[t][k := Pte(0, 0)]] - {c} && place' == place - {c} && up' == up - {c}
    ensures forall s :: s in tables' ==> NodeOk(tables', place', s) && LinkedUp(tables', place', up', s)
  {
    assert EntryOk(tables, place, t, k) && NodeOk(tables, place, c) && NodeOk(tables, place, t);
    forall s | s in tables' ensures NodeOk(tables', place', s) && LinkedUp(tables', place', up', s) {
      assert NodeOk(tables, place, s) && LinkedUp(tables, place, up, s);
    }
  }

  lemma RemoveTableTrees(tables: Tables, place: map<nat, Node>, up: map<nat, nat>, t: nat, k: nat, c: nat,
                         tables': Tables, place': map<nat, Node>, up': map<nat, nat>)
    requires TreesOk(tables, place, up) && t in tables && place[t].level > 0 && k < |tables[t]|
    requires tables[t][k] == Pte(c, PTE_V) && c in tables && NoValid(tables[c])
    requires tables' == tables[t := tables[t][k := Pte(0, 0)]] - {c} && place' == place - {c} && up' == up - {c}
    ensures TreesOk(tables', place', up')
  {
    RemoveTableNodes(tables, place, up, t, k, c, tables', place', up');
    forall s, l | s in tables' && 0 <= l < |tables'[s]| ensures EntryOk(tables', place', s, l) {
      if s != t || l != k {
        EntryElsewhere(tables, place, up, t, k, c, s, l);
      }
    }
  }

  /** Taking out a table with no valid entry, and the entry that led to it, loses no translation. */
  lemma RemoveTable(tables: Tables, place: map<nat, Node>, up: map<nat, nat>, mapping: Mapping, t: nat, k: nat, c: nat,
                    tables': Tables, place': map<nat, Node>, up': map<nat, nat>)
    requires TreesOk(tables, place, up) && t in tables && place[t].level > 0 && k < |tables[t]|
    requires tables[t][k] == Pte(c, PTE_V) && c in tables && NoValid(tables[c])
    requires tables' == tables[t := tables[t][k := Pte(0, 0)]] - {c} && place' == place - {c} && up' == up - {c}
    requires Represents(tables, place, mapping)
    ensures c != t && place[c] == Child(place[t], k)
    ensures TreesOk(tables', place', up') && Represents(tables', place', mapping)
  {
    RemoveTableTrees(tables, place, up, t, k, c, tables', place', up');
    assert EntryOk(tables, place, t, k) && NodeOk(tables, place, t);
    forall a | InSpace(tables, place, a) ensures Lookup(tables', a.root, a.vpn) == Lookup(tables, a.root, a.vpn) {
      SameLookup(tables', place', up', tables, place, up, a.root, a.vpn);
    }
    SameMeaning(tables, place, tables', place', mapping);
  }

  lemma AddRootTrees(tables: Tables, place: map<nat, Node>, up: map<nat, nat>, c: nat, tables': Tables,
                     place': map<nat, Node>)
    requires TreesOk(tables, place, up) && c !in tables
    requires tables' == tables[c := ZeroTable()] && place' == place[c := Node(c, 2, 0)]
    ensures TreesOk(tables', place', up)
  {
    forall s | s in tables' ensures NodeOk(tables', place', s) && LinkedUp(tables', place', up, s) {
      if s != c {
        assert NodeOk(tables, place, s) && LinkedUp(tables, place, up, s);
      }
    }
    forall s, l | s in tables' && 0 <= l < |tables'[s]| ensures EntryOk(tables', place', s, l) {
      if s != c {
        assert EntryOk(tables, place, s, l);
      }
    }
  }

  /** A new address space starts out empty and leaves the others alone. */
  lemma AddRoot(tables: Tables, place: map<nat, Node>, up: map<nat, nat>, mapping: Mapping, c: nat, tables': Tables,
                place': map<nat, Node>)
    requires TreesOk(tables, place, up) && c !in tables && Represents(tables, place, mapping)
    requires tables' == tables[c := ZeroTable()] && place' == place[c := Node(c, 2, 0)]
    ensures TreesOk(tables', place', up) && IsRoot(tables', place', c) && Represents(tables', place', mapping)
    ensures forall v: nat :: Va(c, v) !in mapping
  {
    AddRootTrees(tables, place, up, c, tables', place');
    forall a | a in mapping ensures InSpace(tables', place', a) && a.root != c {
      assert InSpace(tables, place, a);
    }
    forall a | InSpace(tables', place', a) ensures Shows(tables', mapping, a) {
      if a.root != c {
        assert InSpace(tables, place, a);
        assert Shows(tables, mapping, a);
        SameLookup(tables, place, up, tables', place', up, a.root, a.vpn);
      }
    }
  }

  /** Taking out a root with no valid entry leaves the other address spaces alone. */
  lemma RemoveRoot(tables: Tables, place: map<nat, Node>, up: map<nat, nat>, mapping: Mapping, c: nat,
                   tables': Tables, place': map<nat, Node>, up': map<nat, nat>)
    requires TreesOk(tables, place, up) && IsRoot(tables, place, c) && NoValid(tables[c])
    requires Represents(tables, place, mapping)
    requires tables' == tables - {c} && place' == place - {c} && up' == up - {c}
    ensures TreesOk(tables', place', up') && Represents(tables', place', mapping)
    ensures forall v: nat :: Va(c, v) !in mapping
  {
    forall s | s in tables' ensures NodeOk(tables', place', s) && LinkedUp(tables', place', up', s) {
      assert NodeOk(tables, place, s) && LinkedUp(tables, place, up, s);
    }
    forall s, l | s in tables' && 0 <= l < |tables'[s]| ensures EntryOk(tables', place', s, l) {
      assert EntryOk(tables, place, s, l);
    }
    forall a | a in mapping ensures InSpace(tables', place', a) && a.root != c {
      assert InSpace(tables, place, a) && Shows(tables, mapping, a);
    }
    forall a | InSpace(tables', place', a) ensures Shows(tables', mapping, a) {
      assert InSpace(tables, place, a);
      assert Shows(tables, mapping, a);
      SameLookup(tables', place', up', tables, place, up, a.root, a.vpn);
    }
  }

  // ------------------------------------------------------------ whole subtrees

  /** Position m lies strictly below position n. */
  predicate Below(n: Node, m: Node) {
    && m.root == n.root
    && ((m.level + 1 == n.level && m.prefix / ENTRIES == n.prefix)
        || (m.level + 2 == n.level && m.prefix / ENTRIES / ENTRIES == n.prefix))
  }

  lemma BelowChild(n: Node, k: nat, m: Node)
    requires 0 < n.level <= 2 && k < ENTRIES && Below(Child(n, k), m)
    ensures Below(n, m)
  {
    assert m.prefix / ENTRIES == n.prefix * ENTRIES + k;
  }

  /** Bottom-level tables at or below position n map nothing. */
  ghost predicate NoLeaves(tables: Tables, place: map<nat, Node>, n: Node) {
    forall s {:trigger place[s]} ::
      s in tables && s in place && place[s].level == 0 && (place[s] == n || Below(n, place[s])) ==> NoValid(tables[s])
  }

  /** A table without valid entries has nothing below it. */
  lemma NothingBelow(tables: Tables, place: map<nat, Node>, up: map<nat, nat>, t: nat, s: nat)
    requires TreesOk(tables, place, up) && t in tables && NoValid(tables[t]) && s in tables
    ensures !Below(place[t], place[s])
  {
    if Below(place[t], place[s]) {
      assert NodeOk(tables, place, t) && NodeOk(tables, place, s) && LinkedUp(tables, place, up, s);
      var p := up[s];
      assert NodeOk(tables, place, p) && LinkedUp(tables, place, up, p);
      OnePlace(tables, place, up, if place[s].level + 1 == place[t].level then p else up[p], t);
    }
  }

  /** Everything in an address space hangs below its root. */
  lemma BelowRoot(tables: Tables, place: map<nat, Node>, up: map<nat, nat>, r: nat, s: nat)
    requires TreesOk(tables, place, up) && IsRoot(tables, place, r) && s in tables && s != r
    ensures place[s].root == r <==> Below(place[r], place[s])
  {
    assert NodeOk(tables, place, s) && LinkedUp(tables, place, up, s);
    if place[s].root == r {
      var p := up[s];
      assert NodeOk(tables, place, p) && LinkedUp(tables, place, up, p);
      if place[s].level == 0 {
        assert NodeOk(tables, place, up[p]);
      }
    }
  }
}
