/**
 The virtio block driver's queue: eight descriptors, the available ring that the
 driver fills, the used ring that the device fills, and the requests in flight.
 The device is an environment that fetches posted requests in order and reports
 each fetched one once, in any order, as sections 2.6 and 5.2 of VIRTIO 1.1 let it.
 */
module Virtio {
  import opened Params
  import opened Sets

  const NUM: nat := 8
  const IDX: nat := 0x1_0000          // ring indices are 16-bit
  const F_NEXT: nat := 1
  const F_WRITE: nat := 2

  datatype Addr = Nil | Op(op: nat) | Data(buf: nat) | Status(head: nat)
  datatype Desc = Desc(addr: Addr, flags: nat, next: nat)
  datatype Request = Request(write: bool, sector: nat)
  datatype Info = Info(b: Option<nat>, status: nat)

  const ZERO := Desc(Nil, 0, 0)

  /**
   How far a request has come: on the available ring, read by the device, on the used ring, seen by
   the interrupt handler.
   */
  datatype Phase = Posted | Fetched | Reported | Done

  /** A request in flight, by its head descriptor: the other two descriptors, the buffer and what is asked. */
  datatype Chain = Chain(second: nat, third: nat, b: nat, req: Request, phase: Phase)

  type Chains = map<nat, Chain>

  // ------------------------------------------------------------ invariants

  /** The device writes the buffer unless the request writes the disk. */
  function DataFlags(req: Request): nat {
    (if req.write then 0 else F_WRITE) + F_NEXT
  }

  predicate HasNext(d: Desc) { d.flags % 2 == 1 }

  /** The three descriptors of a chain, as the device will read them. */
  predicate ChainOk(desc: seq<Desc>, ops: seq<Request>, info: seq<Info>, owner: map<nat, nat>, h: nat, c: Chain)
    requires |desc| == |ops| == |info| == NUM
  {
    && h < NUM && c.second < NUM && c.third < NUM && h != c.second && h != c.third && c.second != c.third
    && h in owner && owner[h] == h && c.second in owner && owner[c.second] == h && c.third in owner
    && owner[c.third] == h
    && desc[h] == Desc(Op(h), F_NEXT, c.second) && ops[h] == c.req
    && desc[c.second] == Desc(Data(c.b), DataFlags(c.req), c.third)
    && desc[c.third] == Desc(Status(h), F_WRITE, 0)
    && info[h].b == Some(c.b) && (c.phase.Done? ==> info[h].status == 0)
  }

  /** A free descriptor is zeroed and owned by nobody; any other belongs to the chain its owner heads. */
  predicate DescOk(free: seq<bool>, desc: seq<Desc>, owner: map<nat, nat>, chains: Chains, i: nat)
    requires i < |free| && i < |desc|
  {
    && (free[i] ==> i !in owner && desc[i] == ZERO)
    && (!free[i] ==>
          && i in owner && owner[i] in chains
          && (i == owner[i] || i == chains[owner[i]].second || i == chains[owner[i]].third))
  }

  /** Every descriptor is free, or belongs to exactly one three-element chain. */
  ghost predicate DescsOk(free: seq<bool>, desc: seq<Desc>, ops: seq<Request>, info: seq<Info>, owner: map<nat, nat>,
                          chains: Chains) {
    && |free| == |desc| == |ops| == |info| == NUM && |owner| == 3 * |chains|
    && (forall i {:trigger i in owner} :: i in owner ==> i < NUM)
    && (forall i {:trigger DescOk(free, desc, owner, chains, i)} :: 0 <= i < NUM ==>
          DescOk(free, desc, owner, chains, i))
    && (forall h {:trigger ChainOk(desc, ops, info, owner, h, chains[h])} :: h in chains ==>
          ChainOk(desc, ops, info, owner, h, chains[h]))
  }

  predicate BufOk(busy: set<nat>, chains: Chains, h: nat)
    requires h in chains
  {
    chains[h].b in busy <==> !chains[h].phase.Done?
  }

  predicate Held(chains: Chains, b: nat) {
    exists h :: h in chains && chains[h].b == b
  }

  predicate SameBuf(chains: Chains, h: nat, g: nat) {
    h in chains && g in chains && chains[h].b == chains[g].b
  }

  /**
   A buffer is marked as owned by the disk exactly while its request is not seen to be complete; no
   buffer is in two requests.
   */
  ghost predicate BufsOk(busy: set<nat>, chains: Chains) {
    && (forall h {:trigger BufOk(busy, chains, h)} :: h in chains ==> BufOk(busy, chains, h))
    && (forall b {:trigger Held(chains, b)} :: b in busy ==> Held(chains, b))
    && (forall h, g {:trigger SameBuf(chains, h, g)} :: h in chains && g in chains && SameBuf(chains, h, g) ==> h == g)
  }

  /** Entry k of a ring is still in place. */
  predicate InPlace(ring: seq<nat>, heads: seq<nat>, chains: Chains, phase: Phase, k: nat)
    requires |ring| == NUM && k < |heads|
  {
    ring[k % NUM] == heads[k] && heads[k] in chains && chains[heads[k]].phase == phase
  }

  /** Entries from..|heads|-1 of a ring are still in place, and are the chains in the given phase, each once. */
  ghost predicate RingOk(ring: seq<nat>, heads: seq<nat>, from: nat, chains: Chains, phase: Phase) {
    && |ring| == NUM && from <= |heads|
    && (forall k {:trigger InPlace(ring, heads, chains, phase, k)} :: from <= k < |heads| ==>
          InPlace(ring, heads, chains, phase, k))
    && (forall j, k {:trigger heads[j], heads[k]} :: from <= j < k < |heads| ==> heads[j] != heads[k])
    && (forall h {:trigger Pending(heads, from, h)} :: h in chains && chains[h].phase == phase ==>
          Pending(heads, from, h))
  }

  ghost predicate Pending(heads: seq<nat>, from: nat, h: nat) {
    exists k :: from <= k < |heads| && heads[k] == h
  }

  // ------------------------------------------------------------ at most two requests

  /** Eight descriptors hold at most two chains. */
  lemma AtMostTwo(free: seq<bool>, desc: seq<Desc>, ops: seq<Request>, info: seq<Info>, owner: map<nat, nat>,
                  chains: Chains)
    requires DescsOk(free, desc, ops, info, owner, chains)
    ensures |chains| <= 2
  {
    SubsetSize(owner.Keys, Below(NUM));
    assert |owner| == |owner.Keys|;
  }

  lemma {:induction false} Distinct(heads: seq<nat>, from: nat, keys: set<nat>)
    requires from <= |heads| && (forall k :: from <= k < |heads| ==> heads[k] in keys)
    requires forall j, k {:trigger heads[j], heads[k]} :: from <= j < k < |heads| ==> heads[j] != heads[k]
    ensures |heads| - from <= |keys|
    decreases |heads| - from
  {
    if from < |heads| {
      Distinct(heads, from + 1, keys - {heads[from]});
    }
  }

  /**
   So neither ring ever holds more than two entries that the other side has not read, however often
   the indices have wrapped.
   */
  lemma RingRoom(ring: seq<nat>, heads: seq<nat>, from: nat, chains: Chains, phase: Phase)
    requires RingOk(ring, heads, from, chains, phase) && |chains| <= 2
    ensures |heads| - from <= 2
  {
    forall k | from <= k < |heads| ensures heads[k] in chains.Keys {
      assert InPlace(ring, heads, chains, phase, k);
    }
    Distinct(heads, from, chains.Keys);
    assert |chains| == |chains.Keys|;
  }

  /** If all but a few descriptors are taken, two chains are in flight. */
  lemma TwoInFlight(free: seq<bool>, desc: seq<Desc>, ops: seq<Request>, info: seq<Info>, owner: map<nat, nat>,
                    chains: Chains, extra: set<nat>)
    requires DescsOk(free, desc, ops, info, owner, chains) && |extra| <= 2
    requires forall i :: 0 <= i < NUM ==> !free[i] || i in extra
    ensures |chains| == 2
  {
    AtMostTwo(free, desc, ops, info, owner, chains);
    var all := Below(NUM);
    forall i | i in all ensures i in owner.Keys + extra {
      assert DescOk(free, desc, owner, chains, i);
    }
    SubsetSize(all, owner.Keys + extra);
    UnionSize(owner.Keys, extra);
    assert |owner| == |owner.Keys|;
  }

  /** A 16-bit index and the count it stands for name the same ring slot. */
  lemma Slot(k: nat)
    ensures k % IDX % NUM == k % NUM && (k % IDX + 1) % IDX == (k + 1) % IDX
  {
    var m := k % IDX;
    ModNum(k, 8192 * (k / IDX) + m / NUM, m % NUM);
    if m + 1 < IDX {
      ModIndex(k + 1, k / IDX, m + 1);
    } else {
      ModIndex(k + 1, k / IDX + 1, 0);
    }
  }

  lemma ModNum(x: nat, q: nat, b: nat)
    requires x == NUM * q + b && b < NUM
    ensures x % NUM == b
  {
  }

  lemma ModIndex(x: nat, q: nat, b: nat)
    requires x == IDX * q + b && b < IDX
    ensures x % IDX == b
  {
  }

  /** Two counts at most two apart are equal exactly when their 16-bit indices are. */
  lemma SameIndex(j: nat, k: nat)
    requires j <= k <= j + 2
    ensures j % IDX == k % IDX <==> j == k
  {
    var m, d := j % IDX, k - j;
    if m + d < IDX {
      ModIndex(k, j / IDX, m + d);
    } else {
      ModIndex(k, j / IDX + 1, m + d - IDX);
    }
  }

  // ------------------------------------------------------------ what each step does to the invariants

  lemma ThreeElements(i: nat, j: nat, k: nat)
    requires i != j && i != k && j != k
    ensures |{i, j, k}| == 3
  {
    assert {i, j, k} == {i, j} + {k};
  }

  /** Three new keys come into a map. */
  lemma ThreeMore(m: map<nat, nat>, i: nat, j: nat, k: nat, v: nat, more: map<nat, nat>)
    requires i != j && i != k && j != k && more == m[i := v][j := v][k := v]
    requires i !in m && j !in m && k !in m
    ensures |more| == |m| + 3
  {
    ThreeElements(i, j, k);
    assert more.Keys == m.Keys + {i, j, k} && m.Keys !! {i, j, k};
    assert |more| == |more.Keys| && |m| == |m.Keys|;
  }

  /** Three keys of a map go. */
  lemma ThreeLess(m: map<nat, nat>, i: nat, j: nat, k: nat, less: map<nat, nat>)
    requires i != j && i != k && j != k && less == m - {i, j, k} && i in m && j in m && k in m
    ensures |less| == |m| - 3
  {
    ThreeElements(i, j, k);
    assert less.Keys == m.Keys - {i, j, k} && {i, j, k} <= m.Keys;
    assert |less| == |less.Keys| && |m| == |m.Keys|;
  }

  /** A chain is untouched by changes to descriptors it does not own. */
  lemma Elsewhere(desc: seq<Desc>, ops: seq<Request>, info: seq<Info>, owner: map<nat, nat>, g: nat, c: Chain,
                  desc': seq<Desc>, ops': seq<Request>, info': seq<Info>, owner': map<nat, nat>)
    requires |desc| == |ops| == |info| == |desc'| == |ops'| == |info'| == NUM && ChainOk(desc, ops, info, owner, g, c)
    requires forall i :: i in owner && owner[i] == g ==>
               i in owner' && owner'[i] == g && (i < NUM ==> desc'[i] == desc[i])
    requires ops'[g] == ops[g] && info'[g] == info[g]
    ensures ChainOk(desc', ops', info', owner', g, c)
  {
  }

  lemma HeadOwned(free: seq<bool>, desc: seq<Desc>, ops: seq<Request>, info: seq<Info>, owner: map<nat, nat>,
                  chains: Chains, h: nat)
    requires DescsOk(free, desc, ops, info, owner, chains)
    ensures h in chains ==> h < NUM && h in owner
  {
    assert h in chains ==> ChainOk(desc, ops, info, owner, h, chains[h]);
  }

  /** A request is laid out in three free descriptors. */
  lemma Lay(free: seq<bool>, desc: seq<Desc>, ops: seq<Request>, info: seq<Info>, owner: map<nat, nat>, chains: Chains,
            h: nat, c: Chain, free': seq<bool>, desc': seq<Desc>, ops': seq<Request>, info': seq<Info>,
            owner': map<nat, nat>, chains': Chains)
    requires DescsOk(free, desc, ops, info, owner, chains)
    requires h < NUM && c.second < NUM && c.third < NUM && h != c.second && h != c.third && c.second != c.third
    requires free[h] && free[c.second] && free[c.third] && c.phase.Posted?
    requires |free'| == |desc'| == NUM && ops' == ops[h := c.req] && info' == info[h := Info(Some(c.b), 0xff)]
    requires forall i :: 0 <= i < NUM ==> free'[i] == (free[i] && i != h && i != c.second && i != c.third)
    requires forall i :: 0 <= i < NUM && i != h && i != c.second && i != c.third ==> desc'[i] == desc[i]
    requires desc'[h] == Desc(Op(h), F_NEXT, c.second) && desc'[c.third] == Desc(Status(h), F_WRITE, 0)
    requires desc'[c.second] == Desc(Data(c.b), DataFlags(c.req), c.third)
    requires owner' == owner[h := h][c.second := h][c.third := h] && chains' == chains[h := c]
    ensures DescsOk(free', desc', ops', info', owner', chains') && h !in chains
  {
    assert DescOk(free, desc, owner, chains, h) && DescOk(free, desc, owner, chains, c.second)
           && DescOk(free, desc, owner, chains, c.third);
    HeadOwned(free, desc, ops, info, owner, chains, h);
    ThreeMore(owner, h, c.second, c.third, h, owner');
    forall g | g in chains' ensures ChainOk(desc', ops', info', owner', g, chains'[g]) {
      if g != h {
        assert ChainOk(desc, ops, info, owner, g, chains[g]);
        Elsewhere(desc, ops, info, owner, g, chains[g], desc', ops', info', owner');
      }
    }
    forall i | 0 <= i < NUM ensures DescOk(free', desc', owner', chains', i) {
      assert DescOk(free, desc, owner, chains, i);
      LaidDesc(free, desc, owner, chains, h, c, free', desc', owner', chains', i);
    }
    assert |chains'| == |chains| + 1;
  }

  lemma LaidDesc(free: seq<bool>, desc: seq<Desc>, owner: map<nat, nat>, chains: Chains, h: nat, c: Chain,
                 free': seq<bool>, desc': seq<Desc>, owner': map<nat, nat>, chains': Chains, i: nat)
    requires |free| == |desc| == |free'| == |desc'| == NUM && i < NUM && DescOk(free, desc, owner, chains, i)
    requires h < NUM && c.second < NUM && c.third < NUM && h !in chains
    requires free'[i] == (free[i] && i != h && i != c.second && i != c.third)
    requires i != h && i != c.second && i != c.third ==> desc'[i] == desc[i]
    requires owner' == owner[h := h][c.second := h][c.third := h] && chains' == chains[h := c]
    ensures DescOk(free', desc', owner', chains', i)
  {
  }

  /** Its three descriptors are freed again. */
  lemma Clear(free: seq<bool>, desc: seq<Desc>, ops: seq<Request>, info: seq<Info>, owner: map<nat, nat>,
              chains: Chains,
              h: nat, c: Chain, free': seq<bool>, desc': seq<Desc>, info': seq<Info>, owner': map<nat, nat>,
              chains': Chains)
    requires DescsOk(free, desc, ops, info, owner, chains) && h in chains && c == chains[h] && h < NUM
    requires |free'| == |desc'| == NUM && info' == info[h := info[h].(b := None)]
    requires forall i :: 0 <= i < NUM ==> free'[i] == (free[i] || i == h || i == c.second || i == c.third)
    requires forall i :: 0 <= i < NUM ==> desc'[i] == if i == h || i == c.second || i == c.third then ZERO else desc[i]
    requires owner' == owner - {h, c.second, c.third} && chains' == chains - {h}
    ensures DescsOk(free', desc', ops, info', owner', chains')
  {
    assert ChainOk(desc, ops, info, owner, h, c);
    ThreeLess(owner, h, c.second, c.third, owner');
    assert chains'.Keys == chains.Keys - {h};
    assert |chains'| == |chains'.Keys| == |chains| - 1;
    forall g | g in chains' ensures ChainOk(desc', ops, info', owner', g, chains'[g]) {
      assert ChainOk(desc, ops, info, owner, g, chains[g]);
      Elsewhere(desc, ops, info, owner, g, chains[g], desc', ops, info', owner');
    }
    forall i | 0 <= i < NUM ensures DescOk(free', desc', owner', chains', i) {
      assert DescOk(free, desc, owner, chains, i);
    }
  }

  /** A request moves on; the device may set its status on the way. */
  lemma Advance(free: seq<bool>, desc: seq<Desc>, ops: seq<Request>, info: seq<Info>, owner: map<nat, nat>,
                chains: Chains, h: nat, phase: Phase, status: nat, info': seq<Info>, chains': Chains)
    requires DescsOk(free, desc, ops, info, owner, chains) && h in chains && h < NUM
    requires chains' == chains[h := chains[h].(phase := phase)] && (phase.Done? ==> info[h].status == 0)
    requires info' == if phase.Reported? then info[h := info[h].(status := status)] else info
    ensures DescsOk(free, desc, ops, info', owner, chains')
  {
    assert chains'.Keys == chains.Keys;
    assert |chains'| == |chains'.Keys| == |chains|;
    assert ChainOk(desc, ops, info, owner, h, chains[h]);
    forall g | g in chains' ensures ChainOk(desc, ops, info', owner, g, chains'[g]) {
      assert ChainOk(desc, ops, info, owner, g, chains[g]);
    }
    forall i | 0 <= i < NUM ensures DescOk(free, desc, owner, chains', i) {
      assert DescOk(free, desc, owner, chains, i);
    }
  }

  /** A chain in some other phase comes, goes or moves: a ring does not notice. */
  lemma OtherPhase(ring: seq<nat>, heads: seq<nat>, from: nat, chains: Chains, phase: Phase, chains': Chains)
    requires RingOk(ring, heads, from, chains, phase)
    requires forall h {:trigger chains'[h]} :: h in chains' && chains'[h].phase == phase ==>
               h in chains && chains[h].phase == phase
    requires forall h {:trigger chains[h]} :: h in chains && chains[h].phase == phase ==>
               h in chains' && chains'[h].phase == phase
    ensures RingOk(ring, heads, from, chains', phase)
  {
    forall k | from <= k < |heads| ensures InPlace(ring, heads, chains', phase, k) {
      assert InPlace(ring, heads, chains, phase, k);
    }
    forall h | h in chains' && chains'[h].phase == phase ensures Pending(heads, from, h) {
      assert h in chains;
    }
  }

  /** The next entry is put on a ring that has room. */
  lemma Push(ring: seq<nat>, heads: seq<nat>, from: nat, chains: Chains, phase: Phase, h: nat, ring': seq<nat>,
             heads': seq<nat>, chains': Chains)
    requires RingOk(ring, heads, from, chains, phase) && |chains| <= 2
    requires ring' == ring[|heads| % NUM := h] && heads' == heads + [h] && h in chains' && chains'[h].phase == phase
    requires h in chains ==> chains[h].phase != phase
    requires forall g {:trigger chains'[g]} {:trigger chains[g]} :: g != h ==>
               (g in chains <==> g in chains') && (g in chains ==> chains'[g] == chains[g])
    ensures RingOk(ring', heads', from, chains', phase)
  {
    RingRoom(ring, heads, from, chains, phase);
    forall k | from <= k < |heads'| ensures InPlace(ring', heads', chains', phase, k) {
      if k < |heads| {
        assert InPlace(ring, heads, chains, phase, k) && heads'[k] == heads[k];
        assert k % NUM != |heads| % NUM;
      }
    }
    forall j, k | from <= j < k < |heads'| ensures heads'[j] != heads'[k] {
      assert InPlace(ring, heads, chains, phase, j) && heads'[j] == heads[j];
      assert k < |heads| ==> heads'[k] == heads[k];
    }
    forall g | g in chains' && chains'[g].phase == phase ensures Pending(heads', from, g) {
      if g == h {
        assert heads'[|heads|] == h;
      } else {
        assert Pending(heads, from, g);
        var k :| from <= k < |heads| && heads[k] == g;
        assert heads'[k] == g;
      }
    }
  }

  /** The oldest entry is taken off. */
  lemma Pop(ring: seq<nat>, heads: seq<nat>, from: nat, chains: Chains, phase: Phase, chains': Chains)
    requires RingOk(ring, heads, from, chains, phase) && from < |heads|
    requires heads[from] in chains' && chains'[heads[from]].phase != phase
    requires forall g {:trigger chains'[g]} {:trigger chains[g]} ::
               g != heads[from] ==> (g in chains <==> g in chains') && (g in chains ==> chains'[g] == chains[g])
    ensures RingOk(ring, heads, from + 1, chains', phase)
  {
    forall k | from < k < |heads| ensures InPlace(ring, heads, chains', phase, k) {
      assert InPlace(ring, heads, chains, phase, k) && heads[k] != heads[from];
    }
    forall g | g in chains' && chains'[g].phase == phase ensures Pending(heads, from + 1, g) {
      assert Pending(heads, from, g);
      var k :| from <= k < |heads| && heads[k] == g;
      assert k != from;
    }
  }

  lemma BufAdded(busy: set<nat>, chains: Chains, h: nat, c: Chain, busy': set<nat>, chains': Chains)
    requires BufsOk(busy, chains) && h !in chains && !c.phase.Done? && busy' == busy + {c.b}
    requires chains' == chains[h := c]
    requires forall g {:trigger chains[g]} :: g in chains ==> chains[g].b != c.b
    ensures BufsOk(busy', chains')
  {
    forall g | g in chains' ensures BufOk(busy', chains', g) {
      assert g != h ==> BufOk(busy, chains, g);
    }
    forall b | b in busy' ensures Held(chains', b) {
      if b == c.b {
        assert chains'[h].b == b;
      } else {
        assert Held(chains, b);
        var g :| g in chains && chains[g].b == b;
        assert chains'[g].b == b;
      }
    }
    forall f, g | f in chains' && g in chains' && SameBuf(chains', f, g) ensures f == g {
      assert f != h && g != h ==> SameBuf(chains, f, g);
    }
  }

  lemma BufMoved(busy: set<nat>, chains: Chains, h: nat, phase: Phase, busy': set<nat>, chains': Chains)
    requires BufsOk(busy, chains) && h in chains && !chains[h].phase.Done?
    requires chains' == chains[h := chains[h].(phase := phase)]
    requires busy' == if phase.Done? then busy - {chains[h].b} else busy
    ensures BufsOk(busy', chains')
  {
    forall g | g in chains' ensures BufOk(busy', chains', g) {
      assert BufOk(busy, chains, g);
      assert SameBuf(chains, g, h) ==> g == h;
    }
    forall b | b in busy' ensures Held(chains', b) {
      assert Held(chains, b);
      var g :| g in chains && chains[g].b == b;
      assert chains'[g].b == b;
    }
    forall f, g | f in chains' && g in chains' && SameBuf(chains', f, g) ensures f == g {
      assert SameBuf(chains, f, g);
    }
  }

  lemma BufGone(busy: set<nat>, chains: Chains, h: nat, chains': Chains)
    requires BufsOk(busy, chains) && h in chains && chains[h].phase.Done? && chains' == chains - {h}
    ensures BufsOk(busy, chains')
  {
    forall g | g in chains' ensures BufOk(busy, chains', g) {
      assert BufOk(busy, chains, g);
    }
    forall b | b in busy ensures Held(chains', b) {
      assert Held(chains, b);
      var g :| g in chains && chains[g].b == b;
      assert BufOk(busy, chains, g);
      assert chains'[g].b == b;
    }
    forall f, g | f in chains' && g in chains' && SameBuf(chains', f, g) ensures f == g {
      assert SameBuf(chains, f, g);
    }
  }

  /** The whole queue as a value. */
  datatype Queue = Queue(free: seq<bool>, desc: seq<Desc>, ops: seq<Request>, info: seq<Info>,
                         availRing: seq<nat>, availIdx: nat, usedRing: seq<nat>, usedDeviceIdx: nat, deviceIdx: nat,
                         usedIdx: nat,
                         busy: set<nat>, owner: map<nat, nat>, chains: Chains, posted: seq<nat>, fetched: nat,
                         reported: seq<nat>, seen: nat)

  ghost predicate Ok(q: Queue) {
    && DescsOk(q.free, q.desc, q.ops, q.info, q.owner, q.chains) && BufsOk(q.busy, q.chains)
    && RingOk(q.availRing, q.posted, q.fetched, q.chains, Posted) && q.availIdx == |q.posted| % IDX
    && q.deviceIdx == q.fetched % IDX
    && RingOk(q.usedRing, q.reported, q.seen, q.chains, Reported) && q.usedDeviceIdx == |q.reported| % IDX
    && q.usedIdx == q.seen % IDX
  }

  function Owning(owner: map<nat, nat>, h: nat, second: nat, third: nat): map<nat, nat> {
    owner[h := h][second := h][third := h]
  }

  /** Three descriptors filled in for a request. */
  function Laying(q: Queue, h: nat, c: Chain): Queue
    requires |q.desc| == |q.ops| == |q.info| == NUM && h < NUM && c.second < NUM && c.third < NUM
  {
    q.(desc := q.desc[h := Desc(Op(h), F_NEXT, c.second)][c.second := Desc(Data(c.b), DataFlags(c.req),
        c.third)][c.third := Desc(Status(h), F_WRITE, 0)],
       ops := q.ops[h := c.req], info := q.info[h := Info(Some(c.b), 0xff)])
  }

  /** Its head put on the available ring. */
  function Announcing(q: Queue, h: nat, c: Chain): Queue
    requires |q.availRing| == NUM
  {
    q.(availRing := q.availRing[q.availIdx % NUM := h], availIdx := (q.availIdx + 1) % IDX,
       busy := q.busy + {c.b}, owner := Owning(q.owner, h, c.second, c.third), chains := q.chains[h := c],
       posted := q.posted + [h])
  }

  /** The queue after a request has been laid out in three free descriptors and posted. */
  function Posting(q: Queue, h: nat, c: Chain): Queue
    requires |q.free| == |q.desc| == |q.ops| == |q.info| == |q.availRing| == NUM && h < NUM && c.second < NUM
    requires c.third < NUM
  {
    Announcing(Laying(q.(free := q.free[h := false][c.second := false][c.third := false]), h, c), h, c)
  }

  lemma PostingOk(q: Queue, h: nat, c: Chain)
    requires Ok(q) && h < NUM && c.second < NUM && c.third < NUM && h != c.second && h != c.third && c.second != c.third
    requires q.free[h] && q.free[c.second] && q.free[c.third] && c.phase.Posted?
    requires forall g {:trigger q.chains[g]} :: g in q.chains ==> q.chains[g].b != c.b
    ensures Ok(Posting(q, h, c)) && h !in q.chains && |q.chains| < 2
  {
    var q' := Posting(q, h, c);
    Lay(q.free, q.desc, q.ops, q.info, q.owner, q.chains, h, c, q'.free, q'.desc, q'.ops, q'.info, q'.owner, q'.chains);
    AtMostTwo(q.free, q.desc, q.ops, q.info, q.owner, q.chains);
    AtMostTwo(q'.free, q'.desc, q'.ops, q'.info, q'.owner, q'.chains);
    assert |q'.chains| == |q.chains| + 1;
    BufAdded(q.busy, q.chains, h, c, q'.busy, q'.chains);
    Slot(|q.posted|);
    Push(q.availRing, q.posted, q.fetched, q.chains, Posted, h, q'.availRing, q'.posted, q'.chains);
    OtherPhase(q.usedRing, q.reported, q.seen, q.chains, Reported, q'.chains);
  }

  function Move(chains: Chains, h: nat, phase: Phase): Chains
    requires h in chains
  {
    chains[h := chains[h].(phase := phase)]
  }

  /** The device has read the next posted head. */
  function Fetching(q: Queue): Queue
    requires q.fetched < |q.posted| && q.posted[q.fetched] in q.chains
  {
    q.(chains := Move(q.chains, q.posted[q.fetched], Fetched), fetched := q.fetched + 1,
       deviceIdx := (q.deviceIdx + 1) % IDX)
  }

  lemma FetchingOk(q: Queue)
    requires Ok(q) && q.fetched < |q.posted|
    ensures q.posted[q.fetched] in q.chains && q.availRing[q.deviceIdx % NUM] == q.posted[q.fetched]
    ensures |q.posted| - q.fetched <= 2
    ensures Ok(Fetching(q)) && |Fetching(q).chains| == |q.chains|
  {
    AtMostTwo(q.free, q.desc, q.ops, q.info, q.owner, q.chains);
    RingRoom(q.availRing, q.posted, q.fetched, q.chains, Posted);
    Slot(q.fetched);
    assert InPlace(q.availRing, q.posted, q.chains, Posted, q.fetched);
    var h := q.posted[q.fetched];
    HeadOwned(q.free, q.desc, q.ops, q.info, q.owner, q.chains, h);
    var q' := Fetching(q);
    Advance(q.free, q.desc, q.ops, q.info, q.owner, q.chains, h, Fetched, 0, q.info, q'.chains);
    BufMoved(q.busy, q.chains, h, Fetched, q.busy, q'.chains);
    Pop(q.availRing, q.posted, q.fetched, q.chains, Posted, q'.chains);
    OtherPhase(q.usedRing, q.reported, q.seen, q.chains, Reported, q'.chains);
    assert q'.chains.Keys == q.chains.Keys;
    assert |q'.chains| == |q'.chains.Keys|;
  }

  /** The device has finished a request it had read: its status, and its head on the used ring. */
  function Reporting(q: Queue, h: nat, status: nat): Queue
    requires h in q.chains && h < |q.info| && |q.usedRing| == NUM
  {
    q.(chains := Move(q.chains, h, Reported), info := q.info[h := q.info[h].(status := status)],
       usedRing := q.usedRing[q.usedDeviceIdx % NUM := h], usedDeviceIdx := (q.usedDeviceIdx + 1) % IDX,
       reported := q.reported + [h])
  }

  lemma ReportingOk(q: Queue, h: nat, status: nat)
    requires Ok(q) && h in q.chains && q.chains[h].phase.Fetched?
    ensures h < NUM && Ok(Reporting(q, h, status)) && |Reporting(q, h, status).chains| == |q.chains|
  {
    AtMostTwo(q.free, q.desc, q.ops, q.info, q.owner, q.chains);
    HeadOwned(q.free, q.desc, q.ops, q.info, q.owner, q.chains, h);
    Slot(|q.reported|);
    var q' := Reporting(q, h, status);
    Advance(q.free, q.desc, q.ops, q.info, q.owner, q.chains, h, Reported, status, q'.info, q'.chains);
    BufMoved(q.busy, q.chains, h, Reported, q.busy, q'.chains);
    Push(q.usedRing, q.reported, q.seen, q.chains, Reported, h, q'.usedRing, q'.reported, q'.chains);
    OtherPhase(q.availRing, q.posted, q.fetched, q.chains, Posted, q'.chains);
    assert q'.chains.Keys == q.chains.Keys;
    assert |q'.chains| == |q'.chains.Keys|;
  }

  /** The interrupt handler has processed the next reported head. */
  function Seeing(q: Queue): Queue
    requires q.seen < |q.reported| && q.reported[q.seen] in q.chains
  {
    var h := q.reported[q.seen];
    q.(chains := Move(q.chains, h, Done), busy := q.busy - {q.chains[h].b}, usedIdx := (q.usedIdx + 1) % IDX,
       seen := q.seen + 1)
  }

  lemma SeeingOk(q: Queue)
    requires Ok(q) && q.seen < |q.reported|
    ensures q.reported[q.seen] in q.chains && q.usedRing[q.usedIdx % NUM] == q.reported[q.seen]
    ensures q.reported[q.seen] < NUM
    ensures q.info[q.reported[q.seen]].b == Some(q.chains[q.reported[q.seen]].b)
    ensures q.info[q.reported[q.seen]].status == 0 ==> Ok(Seeing(q)) && |Seeing(q).chains| == |q.chains|
  {
    AtMostTwo(q.free, q.desc, q.ops, q.info, q.owner, q.chains);
    Slot(q.seen);
    assert InPlace(q.usedRing, q.reported, q.chains, Reported, q.seen);
    var h := q.reported[q.seen];
    HeadOwned(q.free, q.desc, q.ops, q.info, q.owner, q.chains, h);
    assert ChainOk(q.desc, q.ops, q.info, q.owner, h, q.chains[h]);
    if q.info[h].status != 0 {
      return;
    }
    var q' := Seeing(q);
    Advance(q.free, q.desc, q.ops, q.info, q.owner, q.chains, h, Done, 0, q.info, q'.chains);
    BufMoved(q.busy, q.chains, h, Done, q'.busy, q'.chains);
    Pop(q.usedRing, q.reported, q.seen, q.chains, Reported, q'.chains);
    OtherPhase(q.availRing, q.posted, q.fetched, q.chains, Posted, q'.chains);
    assert q'.chains.Keys == q.chains.Keys;
    assert |q'.chains| == |q'.chains.Keys|;
  }

  /** Whether the handler has work is visible in the 16-bit indices. */
  lemma MoreToSee(q: Queue)
    requires Ok(q)
    ensures q.usedIdx != q.usedDeviceIdx <==> q.seen < |q.reported|
  {
    AtMostTwo(q.free, q.desc, q.ops, q.info, q.owner, q.chains);
    RingRoom(q.usedRing, q.reported, q.seen, q.chains, Reported);
    SameIndex(q.seen, |q.reported|);
  }

  function FreeThree(free: seq<bool>, h: nat, c: Chain): seq<bool>
    requires |free| == NUM && h < NUM && c.second < NUM && c.third < NUM
  {
    free[h := true][c.second := true][c.third := true]
  }

  function ZeroThree(desc: seq<Desc>, h: nat, c: Chain): seq<Desc>
    requires |desc| == NUM && h < NUM && c.second < NUM && c.third < NUM
  {
    desc[h := ZERO][c.second := ZERO][c.third := ZERO]
  }

  /** A finished request has been taken apart. */
  function Freeing(q: Queue, h: nat): Queue
    requires |q.free| == |q.desc| == |q.info| == NUM && h in q.chains && h < NUM && q.chains[h].second < NUM
    requires q.chains[h].third < NUM
  {
    var c := q.chains[h];
    q.(free := FreeThree(q.free, h, c), desc := ZeroThree(q.desc, h, c),
       info := q.info[h := q.info[h].(b := None)], owner := Disowned(q.owner, h, c), chains := q.chains - {h})
  }

  function Disowned(owner: map<nat, nat>, h: nat, c: Chain): map<nat, nat> {
    owner - {h, c.second, c.third}
  }

  /** Three different descriptors, each naming the next. */
  predicate Linked(desc: seq<Desc>, h: nat, c: Chain)
    requires |desc| == NUM
  {
    && h < NUM && c.second < NUM && c.third < NUM && h != c.second && h != c.third && c.second != c.third
    && HasNext(desc[h]) && desc[h].next == c.second
    && HasNext(desc[c.second]) && desc[c.second].next == c.third && !HasNext(desc[c.third])
  }

  /** The descriptors of a chain are in use. */
  lemma InUse(q: Queue, h: nat)
    requires Ok(q) && h in q.chains
    ensures ChainOk(q.desc, q.ops, q.info, q.owner, h, q.chains[h]) && Linked(q.desc, h, q.chains[h])
    ensures !q.free[h] && !q.free[q.chains[h].second] && !q.free[q.chains[h].third]
  {
    var c := q.chains[h];
    assert ChainOk(q.desc, q.ops, q.info, q.owner, h, c);
    assert DescOk(q.free, q.desc, q.owner, q.chains, h) && DescOk(q.free, q.desc, q.owner, q.chains, c.second)
           && DescOk(q.free, q.desc, q.owner, q.chains, c.third);
  }

  lemma FreeingOk(q: Queue, h: nat)
    requires Ok(q) && h in q.chains && q.chains[h].phase.Done?
    ensures ChainOk(q.desc, q.ops, q.info, q.owner, h, q.chains[h]) && Ok(Freeing(q, h))
  {
    var c := q.chains[h];
    assert ChainOk(q.desc, q.ops, q.info, q.owner, h, c);
    var q' := Freeing(q, h);
    Clear(q.free, q.desc, q.ops, q.info, q.owner, q.chains, h, c, q'.free, q'.desc, q'.info, q'.owner, q'.chains);
    BufGone(q.busy, q.chains, h, q'.chains);
    OtherPhase(q.availRing, q.posted, q.fetched, q.chains, Posted, q'.chains);
    OtherPhase(q.usedRing, q.reported, q.seen, q.chains, Reported, q'.chains);
  }

  // ------------------------------------------------------------ every run

  /** Driver, device and handler steps, in any order that their guards allow. */
  datatype Event = Post(h: nat, c: Chain) | Fetch | Report(h: nat, status: nat) | See | Free(h: nat)

  predicate Enabled(q: Queue, e: Event) {
    match e
    case Post(h, c) =>
      && |q.free| == NUM && h < NUM && c.second < NUM && c.third < NUM && h != c.second && h != c.third
      && c.second != c.third
      && q.free[h] && q.free[c.second] && q.free[c.third] && c.phase.Posted?
      && forall g {:trigger q.chains[g]} :: g in q.chains ==> q.chains[g].b != c.b
    case Fetch => q.fetched < |q.posted|
    case Report(h, _) => h in q.chains && q.chains[h].phase.Fetched?
    case See =>
      && q.seen < |q.reported| && q.reported[q.seen] < |q.info|
      && q.info[q.reported[q.seen]].status == 0      // otherwise the handler panics
    case Free(h) => h in q.chains && q.chains[h].phase.Done?
  }

  ghost predicate Next(q: Queue, e: Event, q': Queue)
    requires Ok(q) && Enabled(q, e)
  {
    match e
    case Post(h, c) => q' == Posting(q, h, c)
    case Fetch => q.posted[q.fetched] in q.chains && q' == Fetching(q)
    case Report(h, status) => h < NUM && q' == Reporting(q, h, status)
    case See => q.reported[q.seen] in q.chains && q' == Seeing(q)
    case Free(h) => h < NUM && q.chains[h].second < NUM && q.chains[h].third < NUM && q' == Freeing(q, h)
  }

  ghost predicate Run(qs: seq<Queue>, es: seq<Event>) {
    && |qs| == |es| + 1 && Ok(qs[0])
    && forall k {:trigger es[k]} :: 0 <= k < |es| ==>
           Enabled(qs[k], es[k]) && (Ok(qs[k]) ==> Next(qs[k], es[k], qs[k + 1]))
  }

  /**
   In every state of every run, whatever order the device completes requests in: chains are intact
   and exclusive, at most two, and no ring entry is lost.
   */
  lemma {:induction false} VirtqueueRun(qs: seq<Queue>, es: seq<Event>, k: nat)
    requires Run(qs, es) && k < |qs|
    ensures Ok(qs[k]) && |qs[k].chains| <= 2 && |qs[k].posted| - qs[k].fetched <= 2
    ensures |qs[k].reported| - qs[k].seen <= 2
  {
    if k > 0 {
      VirtqueueRun(qs, es, k - 1);
      StepOk(qs[k - 1], es[k - 1], qs[k]);
    }
    var q := qs[k];
    AtMostTwo(q.free, q.desc, q.ops, q.info, q.owner, q.chains);
    RingRoom(q.availRing, q.posted, q.fetched, q.chains, Posted);
    RingRoom(q.usedRing, q.reported, q.seen, q.chains, Reported);
  }

  lemma StepOk(q: Queue, e: Event, q': Queue)
    requires Ok(q) && Enabled(q, e) && Next(q, e, q')
    ensures Ok(q')
  {
    match e
    case Post(h, c) => PostingOk(q, h, c);
    case Fetch => FetchingOk(q);
    case Report(h, status) => ReportingOk(q, h, status);
    case See => SeeingOk(q);
    case Free(h) => FreeingOk(q, h);
  }

  // ------------------------------------------------------------ what the device reads

  /** A buffer of a request as the device finds it: where it is, and whether the device may write it. */
  datatype Segment = Segment(addr: Addr, deviceWrites: bool)

  /**
   A descriptor chain read by the rules of section 2.6.5 of VIRTIO 1.1: bit 0 of the flags
   continues it, bit 1 makes a buffer device-writable.
   */
  function ReadChain(desc: seq<Desc>, i: nat, limit: nat): seq<Segment>
    decreases limit
  {
    if limit == 0 || i >= |desc| then []
    else
      var d := desc[i];
      [Segment(d.addr, d.flags / 2 % 2 == 1)] + if d.flags % 2 == 1 then ReadChain(desc, d.next, limit - 1) else []
  }

  /**
   The device finds a header, the buffer, which it may write exactly for a read request, and the
   status byte it is to write.
   */
  lemma {:induction false} DeviceSees(desc: seq<Desc>, ops: seq<Request>, info: seq<Info>, owner: map<nat, nat>,
                                      h: nat, c: Chain)
    requires |desc| == |ops| == |info| == NUM && ChainOk(desc, ops, info, owner, h, c)
    ensures ReadChain(desc, h, NUM) == [Segment(Op(h), false), Segment(Data(c.b), !c.req.write),
                                        Segment(Status(h), true)]
    ensures ops[h] == c.req
  {
    assert ReadChain(desc, c.third, NUM - 2) == [Segment(Status(h), true)];
    assert ReadChain(desc, c.second, NUM - 1) == [Segment(Data(c.b), !c.req.write)] + ReadChain(desc, c.third, NUM - 2);
  }

  class Disk {
    var free: seq<bool>
    var desc: seq<Desc>
    var ops: seq<Request>
    var info: seq<Info>
    var availRing: seq<nat>
    var availIdx: nat
    var usedRing: seq<nat>
    var usedDeviceIdx: nat            // used->idx, written by the device
    var deviceIdx: nat                // how far the device has read the available ring
    var usedIdx: nat                  // how far the interrupt handler has looked
    var busy: set<nat>                // buffers with b->disk set
    var waiting: set<nat>             // processes asleep on &disk.free[0]
    ghost var owner: map<nat, nat>
    ghost var chains: Chains
    ghost var posted: seq<nat>        // every head ever put on the available ring
    ghost var fetched: nat            // how many of them the device has read
    ghost var reported: seq<nat>      // every head ever put on the used ring
    ghost var seen: nat               // how many of them the handler has processed

    ghost function Q(): Queue
      reads this
    {
      Queue(free, desc, ops, info, availRing, availIdx, usedRing, usedDeviceIdx, deviceIdx, usedIdx,
            busy, owner, chains, posted, fetched, reported, seen)
    }

    /** Nobody sleeps for descriptors while three are free. */
    ghost predicate Valid()
      reads this
    {
      Ok(Q()) && (waiting != {} ==> |chains| == 2)
    }

    constructor ()
      ensures Valid() && chains == map[]
    {
      free := seq(NUM, _ => true);
      desc, ops, info := seq(NUM, _ => ZERO), seq(NUM, _ => Request(false, 0)), seq(NUM, _ => Info(None, 0));
      availRing, availIdx, usedRing, usedDeviceIdx, usedIdx := seq(NUM, _ => 0), 0, seq(NUM, _ => 0), 0, 0;
      deviceIdx := 0;
      busy, waiting, owner, chains, posted, fetched, reported, seen := {}, {}, map[], map[], [], 0, [], 0;
    }

    /** The first free descriptor, taken. */
    method AllocDesc() returns (r: Option<nat>)
      requires |free| == NUM
      modifies `free
      ensures r.None? ==> free == old(free) && forall i :: 0 <= i < NUM ==> !free[i]
      ensures r.Some? ==> r.value < NUM && old(free)[r.value] && free == old(free)[r.value := false]
    {
      for i := 0 to NUM
        invariant free == old(free) && forall j :: 0 <= j < i ==> !free[j]
      {
        if free[i] {
          free := free[i := false];
          return Some(i);
        }
      }
      r := None;
    }

    /**
     Marks a descriptor in use as free; both panics of free_desc are ruled out by the requires,
     which every caller meets.
     */
    method FreeDesc(i: nat)
      requires |free| == |desc| == NUM && i < NUM && !free[i]
      modifies `free, `desc, `waiting
      ensures free == old(free)[i := true] && desc == old(desc)[i := ZERO] && waiting == {}
    {
      desc := desc[i := ZERO];
      free := free[i := true];
      waiting := {};
    }

    /** Three free descriptors, or none taken at all because fewer than three are free. */
    method Alloc3() returns (idx: seq<nat>, ghost extra: set<nat>)
      requires |free| == |desc| == NUM && forall i :: 0 <= i < NUM && free[i] ==> desc[i] == ZERO
      modifies `free, `desc, `waiting
      ensures desc == old(desc) && |free| == NUM && (idx == [] || (|idx| == 3 && Trio(old(free), idx)))
      ensures forall i :: 0 <= i < NUM ==> free[i] == (old(free)[i] && i !in idx)
      ensures idx == [] ==> free == old(free) && |extra| <= 2 && forall i :: 0 <= i < NUM ==> !free[i] || i in extra
      ensures idx != [] ==> waiting == old(waiting)
    {
      ghost var free0 := free;
      idx, extra := [], {};
      while |idx| < 3
        invariant |idx| <= 3 && |free| == NUM && desc == old(desc) && waiting == old(waiting) && Trio(free0, idx)
        invariant forall i :: 0 <= i < NUM ==> free[i] == (free0[i] && i !in idx)
        invariant |extra| == |idx| && forall i :: i in extra <==> i in idx
        decreases 3 - |idx|
      {
        var d := AllocDesc();
        if d.None? {
          assert forall i :: 0 <= i < NUM ==> !free0[i] || i in extra;
          GiveBack(idx, free0);
          idx := [];
          return;
        }
        assert d.value !in extra;
        extra := extra + {d.value};
        idx := idx + [d.value];
      }
    }

    /** The descriptors of a failed allocation go back. */
    method GiveBack(idx: seq<nat>, ghost free0: seq<bool>)
      requires |free| == |desc| == |free0| == NUM && Trio(free0, idx)
      requires forall i :: 0 <= i < NUM ==> free[i] == (free0[i] && i !in idx)
      requires forall i :: 0 <= i < NUM && free0[i] ==> desc[i] == ZERO
      modifies `free, `desc, `waiting
      ensures free == free0 && desc == old(desc)
    {
      for j := 0 to |idx|
        invariant |free| == NUM && desc == old(desc)
        invariant forall i :: 0 <= i < NUM ==> free[i] == (free0[i] && i !in idx[j..])
      {
        assert idx[j] in idx[j..] && idx[j] !in idx[j + 1..];
        FreeDesc(idx[j]);
        assert desc == old(desc);
        assert forall i :: i in idx[j..] <==> i in idx[j + 1..] || i == idx[j];
      }
    }

    /**
     The first half of virtio_disk_rw: lay the request out and post it, or go to sleep until
     descriptors are freed.
     */
    method Post(p: nat, b: nat, blockno: nat, write: bool) returns (r: Option<nat>, ghost c: Chain)
      requires Valid() && forall g {:trigger chains[g]} :: g in chains ==> chains[g].b != b
      modifies this
      ensures Valid() && (r.None? <==> |old(chains)| == 2)
      ensures r.None? ==> Q() == old(Q()) && p in waiting
      ensures r.Some? ==>
                && r.value < NUM && r.value !in old(chains) && |old(chains)| < 2 && c.second < NUM && c.third < NUM
                && Q() == Posting(old(Q()), r.value, c)
                && c.b == b && c.phase == Posted && c.req == Request(write, blockno * 2 % 0x1_0000_0000)
    {
      c := Chain(0, 0, b, Request(write, 0), Posted);
      ghost var q := Q();
      FreeIsZero(q);
      var idx;
      ghost var extra;
      idx, extra := Alloc3();
      if idx == [] {
        TwoInFlight(free, desc, ops, info, owner, chains, extra);
        waiting := waiting + {p};
        return None, c;
      }
      var req := Request(write, blockno * 2 % 0x1_0000_0000);
      c := Chain(idx[1], idx[2], b, req, Posted);
      assert idx[0] != idx[1] && idx[0] != idx[2] && idx[1] != idx[2] && q.free[idx[0]] && q.free[idx[1]]
             && q.free[idx[2]];
      assert free == q.free[idx[0] := false][idx[1] := false][idx[2] := false];
      PutRequest(idx[0], idx[1], idx[2], b, req, c, q);
      PostingOk(q, idx[0], c);
      r := Some(idx[0]);
    }

    /** The request in three descriptors, on the ring. */
    method PutRequest(h: nat, i1: nat, i2: nat, b: nat, req: Request, ghost c: Chain, ghost q: Queue)
      requires |q.free| == |desc| == |ops| == |info| == |availRing| == NUM && h < NUM && i1 < NUM && i2 < NUM
      requires c == Chain(i1, i2, b, req, Posted) && Q() == q.(free := q.free[h := false][i1 := false][i2 := false])
      modifies `ops, `desc, `info, `busy, `availRing, `availIdx, `owner, `chains, `posted
      ensures Q() == Posting(q, h, c)
    {
      Format(h, i1, i2, b, req, c);
      Announce(h, b, c);
    }

    /** Fills the three descriptors in and records the buffer. */
    method Format(h: nat, i1: nat, i2: nat, b: nat, req: Request, ghost c: Chain)
      requires |desc| == |ops| == |info| == NUM && h < NUM && i1 < NUM && i2 < NUM && c == Chain(i1, i2, b, req, Posted)
      modifies `ops, `desc, `info
      ensures Q() == Laying(old(Q()), h, c)
    {
      ops := ops[h := req];
      desc := desc[h := Desc(Op(h), F_NEXT, i1)];
      desc := desc[i1 := Desc(Data(b), DataFlags(req), i2)];
      info := info[h := Info(Some(b), 0xff)];
      desc := desc[i2 := Desc(Status(h), F_WRITE, 0)];
    }

    /** Marks the buffer and puts the head on the available ring. */
    method Announce(h: nat, b: nat, ghost c: Chain)
      requires |availRing| == NUM && c.b == b
      modifies `busy, `availRing, `availIdx, `owner, `chains, `posted
      ensures Q() == Announcing(old(Q()), h, c)
    {
      PutAvail(h);
      busy := busy + {b};
      owner := Owning(owner, h, c.second, c.third);
      chains := chains[h := c];
      posted := posted + [h];
    }

    method PutAvail(h: nat)
      requires |availRing| == NUM
      modifies `availRing, `availIdx
      ensures availRing == old(availRing)[old(availIdx) % NUM := h] && availIdx == (old(availIdx) + 1) % IDX
    {
      availRing := availRing[availIdx % NUM := h];
      availIdx := (availIdx + 1) % IDX;
    }

    /** The device reads the next posted head; what it finds there is the request that was posted. */
    method DeviceFetch() returns (h: nat)
      requires Valid() && fetched < |posted|
      modifies this
      ensures Valid() && h == old(posted)[old(fetched)] && h in old(chains) && Q() == Fetching(old(Q()))
      ensures ReadChain(desc, h, NUM) == [Segment(Op(h), false), Segment(Data(chains[h].b), !chains[h].req.write),
                                          Segment(Status(h), true)]
      ensures h < |ops| && ops[h] == chains[h].req
    {
      FetchingOk(Q());
      h := availRing[deviceIdx % NUM];
      deviceIdx := (deviceIdx + 1) % IDX;
      chains := Move(chains, h, Fetched);
      fetched := fetched + 1;
      assert ChainOk(desc, ops, info, owner, h, chains[h]);
      DeviceSees(desc, ops, info, owner, h, chains[h]);
    }

    /** The device finishes any request it has read and reports it once, with a status. */
    method DeviceReport(h: nat, status: nat)
      requires Valid() && h in chains && chains[h].phase.Fetched?
      modifies this
      ensures Valid() && h < |old(info)| && |old(usedRing)| == NUM && Q() == Reporting(old(Q()), h, status)
    {
      ReportingOk(Q(), h, status);
      info := info[h := info[h].(status := status)];
      usedRing := usedRing[usedDeviceIdx % NUM := h];
      usedDeviceIdx := (usedDeviceIdx + 1) % IDX;
      chains := Move(chains, h, Reported);
      reported := reported + [h];
    }

    /** One turn of the interrupt handler's loop; it panics on a status that is not zero. */
    method SeeOne() returns (ok: bool)
      requires Valid() && seen < |reported|
      modifies `busy, `usedIdx, `chains, `seen
      ensures Valid() && old(reported)[old(seen)] in old(chains) && reported[old(seen)] < |info|
      ensures ok <==> info[reported[old(seen)]].status == 0
      ensures Q() == if ok then Seeing(old(Q())) else old(Q())
    {
      SeeingOk(Q());
      var id := usedRing[usedIdx % NUM];
      if info[id].status != 0 {
        return false;
      }
      busy := busy - {info[id].b.value};
      usedIdx := (usedIdx + 1) % IDX;
      chains := Move(chains, id, Done);
      seen := seen + 1;
      ok := true;
    }

    /** The handler has seen the requests from position `from` on, and released exactly their buffers. */
    ghost predicate Handling(chains0: Chains, busy0: set<nat>, from: nat)
      reads this
    {
      && Valid() && from <= seen <= |reported| && SettledSome(chains0, busy0, chains, busy)
      && AllZero(info, reported, from, seen)
    }

    method SeeNext(ghost chains0: Chains, ghost busy0: set<nat>, ghost from: nat) returns (ok: bool)
      requires Handling(chains0, busy0, from) && seen < |reported|
      modifies `busy, `usedIdx, `chains, `seen
      ensures Handling(chains0, busy0, from)
      ensures ok ==> seen == old(seen) + 1 && (usedIdx != usedDeviceIdx <==> seen < |reported|)
      ensures !ok ==> seen == old(seen) && reported[seen] < |info| && info[reported[seen]].status != 0
    {
      ghost var q := Q();
      ok := SeeOne();
      if ok {
        assert InPlace(q.usedRing, q.reported, q.chains, Reported, q.seen);
        SettledStep(chains0, busy0, q, q.reported[q.seen]);
        MoreToSee(Q());
      }
    }

    /**
     The interrupt handler: every reported request is seen, and exactly their buffers are released;
     it panics at the first one whose status is not zero.
     */
    method Interrupt() returns (ok: bool)
      requires Valid()
      modifies `busy, `usedIdx, `chains, `seen
      ensures Valid() && old(seen) <= seen <= |reported| && AllZero(info, reported, old(seen), seen)
      ensures ok ==> seen == |reported| && Settled(old(chains), old(busy), chains, busy)
      ensures !ok ==> seen < |reported| && reported[seen] < |info| && info[reported[seen]].status != 0
      ensures SettledSome(old(chains), old(busy), chains, busy)
    {
      ghost var chains0, busy0 := chains, busy;
      MoreToSee(Q());
      while usedIdx != usedDeviceIdx
        invariant Handling(chains0, busy0, old(seen)) && (usedIdx != usedDeviceIdx <==> seen < |reported|)
        decreases |reported| - seen
      {
        ok := SeeNext(chains0, busy0, old(seen));
        if !ok {
          return;
        }
      }
      AllSettled(chains0, busy0, Q());
      ok := true;
    }

    /** The second half of virtio_disk_rw, once the request is done: its descriptors are freed. */
    method Finish(h: nat)
      requires Valid() && h in chains && chains[h].phase.Done?
      modifies this
      ensures Valid() && ChainOk(old(desc), old(ops), old(info), old(owner), h, old(chains)[h])
      ensures Q() == Freeing(old(Q()), h) && waiting == {}
    {
      InUse(Q(), h);
      FreeingOk(Q(), h);
      Forget(h);
      TakeApart(h, chains[h]);
    }

    /** The request no longer has a buffer. */
    method Forget(h: nat)
      requires h < |info|
      modifies `info
      ensures Q() == old(Q()).(info := old(info)[h := old(info)[h].(b := None)])
    {
      info := info[h := info[h].(b := None)];
    }

    /** The chain is freed. */
    method TakeApart(h: nat, ghost c: Chain)
      requires |free| == |desc| == NUM && h in chains && c == chains[h]
      requires Linked(desc, h, c) && !free[h] && !free[c.second] && !free[c.third]
      modifies `free, `desc, `waiting, `owner, `chains
      ensures Q() == old(Q()).(free := FreeThree(old(free), h, c), desc := ZeroThree(old(desc), h, c),
                               owner := Disowned(old(owner), h, c), chains := old(chains) - {h})
      ensures waiting == {}
    {
      FreeChain(h, c);
      owner, chains := Disowned(owner, h, c), chains - {h};
    }

    /** Frees the descriptors of a chain one after the other. */
    method FreeChain(h: nat, ghost c: Chain)
      requires |free| == |desc| == NUM && Linked(desc, h, c) && !free[h] && !free[c.second] && !free[c.third]
      modifies `free, `desc, `waiting
      ensures free == FreeThree(old(free), h, c) && desc == ZeroThree(old(desc), h, c) && waiting == {}
    {
      var i, more := h, true;
      ghost var k := 0;
      while more
        invariant 0 <= k <= 3 && (more <==> k < 3) && (k > 0 ==> waiting == {})
        invariant k == 0 ==> i == h && free == old(free) && desc == old(desc)
        invariant k == 1 ==> i == c.second && free == old(free)[h := true] && desc == old(desc)[h := ZERO]
        invariant k == 2 ==>
                    i == c.third && free == old(free)[h := true][c.second := true]
                        && desc == old(desc)[h := ZERO][c.second := ZERO]
        invariant k == 3 ==>
                    free == old(free)[h := true][c.second := true][c.third := true]
                        && desc == old(desc)[h := ZERO][c.second := ZERO][c.third := ZERO]
        decreases 3 - k
      {
        var d := desc[i];
        FreeDesc(i);
        more := HasNext(d);
        i, k := d.next, k + 1;
      }
    }
  }

  /** The requests at positions lo .. hi of the used ring's history succeeded. */
  predicate AllZero(info: seq<Info>, reported: seq<nat>, lo: nat, hi: nat)
    requires hi <= |reported|
  {
    forall k {:trigger reported[k]} :: lo <= k < hi ==> reported[k] < |info| && info[reported[k]].status == 0
  }

  /** Only reported requests have been seen, and exactly the buffers of the seen ones are no longer busy. */
  ghost predicate SettledSome(chains0: Chains, busy0: set<nat>, chains: Chains, busy: set<nat>) {
    && chains.Keys == chains0.Keys
    && (forall h {:trigger chains[h]} :: h in chains ==>
          chains[h] == chains0[h] || (chains0[h].phase.Reported? && chains[h] == chains0[h].(phase := Done)))
    && (forall b {:trigger b in busy} :: b in busy ==> b in busy0)
  }

  /** Every reported request is done, no other has changed. */
  ghost predicate Settled(chains0: Chains, busy0: set<nat>, chains: Chains, busy: set<nat>) {
    && SettledSome(chains0, busy0, chains, busy)
    && (forall h {:trigger chains[h]} :: h in chains ==> !chains[h].phase.Reported?)
    && (forall h {:trigger chains[h]} :: h in chains && !chains0[h].phase.Done? ==>
          (chains[h].b in busy <==> !chains0[h].phase.Reported?))
  }

  lemma SettledStep(chains0: Chains, busy0: set<nat>, q: Queue, h: nat)
    requires SettledSome(chains0, busy0, q.chains, q.busy) && h in q.chains && q.chains[h].phase.Reported?
    ensures SettledSome(chains0, busy0, Move(q.chains, h, Done), q.busy - {q.chains[h].b})
  {
    var chains := Move(q.chains, h, Done);
    assert q.chains[h] == chains0[h];
    forall g | g in chains
      ensures chains[g] == chains0[g] || (chains0[g].phase.Reported? && chains[g] == chains0[g].(phase := Done))
    {
      assert g != h ==> chains[g] == q.chains[g];
    }
  }

  lemma AllSettled(chains0: Chains, busy0: set<nat>, q: Queue)
    requires Ok(q) && q.seen == |q.reported| && SettledSome(chains0, busy0, q.chains, q.busy)
    ensures Settled(chains0, busy0, q.chains, q.busy)
  {
    forall h | h in q.chains
      ensures !q.chains[h].phase.Reported?
      ensures (!chains0[h].phase.Done? ==> (q.chains[h].b in q.busy <==> !chains0[h].phase.Reported?))
    {
      assert BufOk(q.busy, q.chains, h);
      assert q.chains[h].phase.Reported? ==> Pending(q.reported, q.seen, h);
    }
  }

  lemma FreeIsZero(q: Queue)
    requires Ok(q)
    ensures forall i :: 0 <= i < NUM && q.free[i] ==> q.desc[i] == ZERO
  {
    forall i | 0 <= i < NUM && q.free[i] ensures q.desc[i] == ZERO {
      assert DescOk(q.free, q.desc, q.owner, q.chains, i);
    }
  }

  /** Different descriptors, all free. */
  ghost predicate Trio(free: seq<bool>, idx: seq<nat>) {
    && (forall j :: 0 <= j < |idx| ==> idx[j] < |free| && free[idx[j]])
    && (forall j, k :: 0 <= j < k < |idx| ==> idx[j] != idx[k])
  }
}
