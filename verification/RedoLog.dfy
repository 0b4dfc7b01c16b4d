/**
 The on-disk redo log: its header encoding, the exact sequence of block writes
 that a commit and a recovery issue, and crash atomicity over every prefix of
 those writes and every chain of interrupted recoveries.
 */
module RedoLog {
  import opened Bytes
  import opened Params

  type Disk = seq<Block>

  /** One block write, atomic on the device. */
  datatype Write = Write(blockno: nat, data: Block)

  /** The log occupies blocks start .. start + size: the header, then the copies. */
  datatype Geometry = Geometry(start: nat, size: nat)

  // ---------------------------------------------------------------- writes

  predicate InRange(d: Disk, ws: seq<Write>) {
    forall i :: 0 <= i < |ws| ==> ws[i].blockno < |d|
  }

  /** The disk after the first k writes of a sequence. */
  function Prefix(d: Disk, ws: seq<Write>, k: nat): (r: Disk)
    requires InRange(d, ws) && k <= |ws|
    ensures |r| == |d|
  {
    if k == 0 then d else Prefix(d, ws, k - 1)[ws[k - 1].blockno := ws[k - 1].data]
  }

  /** The disk after all of them. */
  function Apply(d: Disk, ws: seq<Write>): (r: Disk)
    requires InRange(d, ws)
    ensures |r| == |d|
  {
    Prefix(d, ws, |ws|)
  }

  lemma ApplyLast(d: Disk, ws: seq<Write>)
    requires InRange(d, ws) && ws != []
    ensures var last := ws[|ws| - 1];
            Apply(d, ws) == Prefix(d, ws, |ws| - 1)[last.blockno := last.data]
  {
  }

  lemma {:induction false} PrefixOfConcat(d: Disk, a: seq<Write>, b: seq<Write>, k: nat)
    requires InRange(d, a) && InRange(d, b) && k <= |a| + |b|
    ensures InRange(d, a + b)
    ensures k <= |a| ==> Prefix(d, a + b, k) == Prefix(d, a, k)
    ensures k >= |a| ==> Prefix(d, a + b, k) == Prefix(Apply(d, a), b, k - |a|)
  {
    if k > 0 {
      PrefixOfConcat(d, a, b, k - 1);
    }
  }

  lemma ApplyOne(d: Disk, a: seq<Write>, w: Write)
    requires InRange(d, a) && w.blockno < |d|
    ensures Apply(d, a + [w]) == Apply(d, a)[w.blockno := w.data]
  {
    PrefixOfConcat(d, a, [w], |a|);
  }

  // ---------------------------------------------------------------- header

  predicate HeadOk(b: Block) {
    GetWord(b, 0) <= LOGSIZE
  }

  /** The block numbers listed by a header block: read_head. */
  function Head(b: Block): (lh: seq<nat>)
    requires HeadOk(b)
    ensures |lh| == GetWord(b, 0)
    ensures forall i :: 0 <= i < |lh| ==> lh[i] == GetWord(b, i + 1)
  {
    HeadEntries(b, GetWord(b, 0))
  }

  function HeadEntries(b: Block, k: nat): (lh: seq<nat>)
    requires k < WORDS
    ensures |lh| == k && forall i :: 0 <= i < k ==> lh[i] == GetWord(b, i + 1)
  {
    if k == 0 then [] else HeadEntries(b, k - 1) + [GetWord(b, k)]
  }

  /** The loop of write_head: the first k entries of the header buffer. */
  function PutEntries(b: Block, lh: seq<Word>, k: nat): (r: Block)
    requires k <= |lh| < WORDS
    ensures forall i: nat :: i < k ==> GetWord(r, i + 1) == lh[i]
    ensures forall i: nat :: (i == 0 || k < i) && i < WORDS ==> GetWord(r, i) == GetWord(b, i)
  {
    if k == 0 then b else PutWord(PutEntries(b, lh, k - 1), k, lh[k - 1])
  }

  /** write_head: only the count and the first n entries of the buffer change. */
  function EncodeHead(b: Block, lh: seq<Word>): (r: Block)
    requires |lh| <= LOGSIZE
    ensures HeadOk(r) && Head(r) == lh
    ensures forall i: nat :: |lh| < i < WORDS ==> GetWord(r, i) == GetWord(b, i)
  {
    PutEntries(PutWord(b, 0, |lh|), lh, |lh|)
  }

  // ---------------------------------------------------------------- layout

  predicate Layout(g: Geometry, d: Disk) {
    1 <= g.size && g.start + g.size <= |d| < 0x8000_0000
  }

  /** Every block outside the log region. */
  predicate Home(g: Geometry, b: nat) {
    b < g.start || g.start + g.size <= b
  }

  /** Home blocks, no more than the log can hold. */
  predicate Addresses(g: Geometry, d: Disk, lh: seq<nat>) {
    && |lh| <= LOGSIZE && |lh| < g.size
    && (forall i :: 0 <= i < |lh| ==> lh[i] < |d| && Home(g, lh[i]))
  }

  /** Targets of a transaction: distinct home blocks. */
  predicate Targets(g: Geometry, d: Disk, lh: seq<nat>) {
    && Addresses(g, d, lh)
    && (forall i, j :: 0 <= i < j < |lh| ==> lh[i] != lh[j])
  }

  predicate LogOk(g: Geometry, d: Disk) {
    && Layout(g, d)
    && HeadOk(d[g.start])
    && Targets(g, d, Head(d[g.start]))
  }

  /** What block b holds once the transaction lh in the log is redone. */
  function RedoFrom(g: Geometry, d: Disk, lh: seq<nat>, b: nat): Block
    requires Layout(g, d) && Targets(g, d, lh) && b < |d|
  {
    if i :| 0 <= i < |lh| && lh[i] == b then d[g.start + 1 + i] else d[b]
  }

  /** The same, for the transaction named by the on-disk header. */
  function Redo(g: Geometry, d: Disk, b: nat): Block
    requires LogOk(g, d) && b < |d|
  {
    RedoFrom(g, d, Head(d[g.start]), b)
  }

  // ---------------------------------------------------------------- recovery

  /** The first k writes of install_trans: log copy i goes to its home block. */
  function InstallWrites(g: Geometry, d: Disk, lh: seq<nat>, k: nat): (ws: seq<Write>)
    requires Layout(g, d) && Addresses(g, d, lh) && k <= |lh|
    ensures |ws| == k
    ensures forall i :: 0 <= i < k ==> ws[i] == Write(lh[i], d[g.start + 1 + i])
  {
    if k == 0 then [] else InstallWrites(g, d, lh, k - 1) + [Write(lh[k - 1], d[g.start + k])]
  }

  /** The writes of recover_from_log: install, then clear the header. */
  function RecoverWrites(g: Geometry, d: Disk): (ws: seq<Write>)
    requires LogOk(g, d)
    ensures InRange(d, ws) && |ws| == |Head(d[g.start])| + 1
    ensures ws[|ws| - 1] == Write(g.start, EncodeHead(d[g.start], []))
  {
    var lh := Head(d[g.start]);
    InstallWrites(g, d, lh, |lh|) + [Write(g.start, EncodeHead(d[g.start], []))]
  }

  function Recover(g: Geometry, d: Disk): Disk
    requires LogOk(g, d)
  {
    Apply(d, RecoverWrites(g, d))
  }

  function Min(a: nat, b: nat): nat { if a <= b then a else b }

  /** The disk when a recovery stops after its first `cut` writes. */
  function RecoverCut(g: Geometry, d: Disk, cut: nat): (r: Disk)
    requires LogOk(g, d)
  {
    var ws := RecoverWrites(g, d);
    Prefix(d, ws, Min(cut, |ws|))
  }

  /** The first k installs, and nothing else, have reached the disk. */
  predicate Installed(g: Geometry, d: Disk, lh: seq<nat>, k: nat, d': Disk)
    requires Layout(g, d) && Targets(g, d, lh) && k <= |lh|
  {
    && |d'| == |d|
    && (forall i :: g.start <= i < g.start + g.size ==> d'[i] == d[i])
    && (forall i :: 0 <= i < k ==> d'[lh[i]] == d[g.start + 1 + i])
    && (forall b :: 0 <= b < |d| && (forall i :: 0 <= i < k ==> lh[i] != b) ==> d'[b] == d[b])
  }

  lemma InstallOne(g: Geometry, d: Disk, lh: seq<nat>, k: nat, d': Disk)
    requires Layout(g, d) && Targets(g, d, lh) && 0 < k <= |lh|
    requires Installed(g, d, lh, k - 1, d')
    ensures Installed(g, d, lh, k, d'[lh[k - 1] := d[g.start + k]])
  {
    assert Home(g, lh[k - 1]);
  }

  lemma {:induction false} PartialInstall(g: Geometry, d: Disk, lh: seq<nat>, ws: seq<Write>, k: nat)
    requires Layout(g, d) && Targets(g, d, lh) && k <= |lh| <= |ws|
    requires InRange(d, ws)
    requires forall i :: 0 <= i < |lh| ==> ws[i] == Write(lh[i], d[g.start + 1 + i])
    ensures Installed(g, d, lh, k, Prefix(d, ws, k))
  {
    if k > 0 {
      PartialInstall(g, d, lh, ws, k - 1);
      InstallOne(g, d, lh, k, Prefix(d, ws, k - 1));
    }
  }

  lemma InstallKeepsRedo(g: Geometry, d: Disk, lh: seq<nat>, k: nat, d': Disk)
    requires Layout(g, d) && Targets(g, d, lh) && k <= |lh|
    requires Installed(g, d, lh, k, d')
    ensures forall b :: 0 <= b < |d| ==> RedoFrom(g, d', lh, b) == RedoFrom(g, d, lh, b)
    ensures k == |lh| ==> forall b :: 0 <= b < |d| ==> d'[b] == RedoFrom(g, d, lh, b)
  {
  }

  /** A complete recovery performs exactly the redo, clears the log and nothing more. */
  lemma RecoverIsRedo(g: Geometry, d: Disk)
    requires LogOk(g, d)
    ensures var r := Recover(g, d);
            && LogOk(g, r) && Head(r[g.start]) == []
            && (forall b :: 0 <= b < |d| && Home(g, b) ==> r[b] == Redo(g, d, b))
            && (forall i :: g.start < i < g.start + g.size ==> r[i] == d[i])
  {
    var lh := Head(d[g.start]);
    var ws := RecoverWrites(g, d);
    var head := EncodeHead(d[g.start], []);
    var d' := Prefix(d, ws, |lh|);
    assert Recover(g, d) == d'[g.start := head] by {
      ApplyLast(d, ws);
    }
    PartialInstall(g, d, lh, ws, |lh|);
    ClearAfterInstall(g, d, lh, d', head);
  }


  lemma ClearAfterInstall(g: Geometry, d: Disk, lh: seq<nat>, d': Disk, head: Block)
    requires Layout(g, d) && Targets(g, d, lh) && Installed(g, d, lh, |lh|, d')
    requires HeadOk(head) && Head(head) == []
    ensures var r := d'[g.start := head];
            && LogOk(g, r)
            && (forall b :: 0 <= b < |d| && Home(g, b) ==> r[b] == RedoFrom(g, d, lh, b))
            && (forall i :: g.start < i < g.start + g.size ==> r[i] == d[i])
  {
    InstallKeepsRedo(g, d, lh, |lh|, d');
  }

  /** A recovery cut short anywhere can be started again: nothing is lost or changed. */
  lemma CutKeepsRedo(g: Geometry, d: Disk, cut: nat)
    requires LogOk(g, d)
    ensures LogOk(g, RecoverCut(g, d, cut))
    ensures forall b :: 0 <= b < |d| && Home(g, b) ==> Redo(g, RecoverCut(g, d, cut), b) == Redo(g, d, b)
    ensures cut > |Head(d[g.start])| ==> Head(RecoverCut(g, d, cut)[g.start]) == []
  {
    var lh := Head(d[g.start]);
    if cut <= |lh| {
      PartialInstall(g, d, lh, RecoverWrites(g, d), cut);
      InstallKeepsRedo(g, d, lh, cut, RecoverCut(g, d, cut));
    } else {
      RecoverIsRedo(g, d);
    }
  }

  /** Any number of recoveries, each cut short after cuts[i] writes. */
  function RecoverCuts(g: Geometry, d: Disk, cuts: seq<nat>): (r: Disk)
    requires LogOk(g, d)
    ensures |r| == |d| && LogOk(g, r)
    ensures forall b :: 0 <= b < |d| && Home(g, b) ==> Redo(g, r, b) == Redo(g, d, b)
    decreases |cuts|
  {
    if cuts == [] then d
    else
      CutKeepsRedo(g, d, cuts[0]);
      RecoverCuts(g, RecoverCut(g, d, cuts[0]), cuts[1..])
  }

  // ---------------------------------------------------------------- commit

  /** Every logged block is in the cache, where log_write pinned it. */
  predicate Cached(lh: seq<nat>, cache: map<nat, Block>) {
    forall i :: 0 <= i < |lh| ==> lh[i] in cache
  }

  /** The first k writes of write_log: the cached contents of each listed block, in order. */
  function LogWrites(g: Geometry, lh: seq<nat>, cache: map<nat, Block>, k: nat): (ws: seq<Write>)
    requires Cached(lh, cache) && k <= |lh|
    ensures |ws| == k
    ensures forall i :: 0 <= i < k ==> ws[i] == Write(g.start + 1 + i, cache[lh[i]])
  {
    if k == 0 then [] else LogWrites(g, lh, cache, k - 1) + [Write(g.start + k, cache[lh[k - 1]])]
  }

  /** write_log's writes and the header write. */
  function HeadWrites(g: Geometry, d: Disk, lh: seq<nat>, cache: map<nat, Block>): (ws: seq<Write>)
    requires Layout(g, d) && Addresses(g, d, lh) && Cached(lh, cache)
    ensures InRange(d, ws) && |ws| == |lh| + 1
  {
    LogWrites(g, lh, cache, |lh|) + [Write(g.start, EncodeHead(d[g.start], lh))]
  }

  /** Home installs straight from the cached contents. */
  function HomeWrites(lh: seq<nat>, cache: map<nat, Block>, k: nat): (ws: seq<Write>)
    requires Cached(lh, cache) && k <= |lh|
    ensures |ws| == k
    ensures forall i :: 0 <= i < k ==> ws[i] == Write(lh[i], cache[lh[i]])
  {
    if k == 0 then [] else HomeWrites(lh, cache, k - 1) + [Write(lh[k - 1], cache[lh[k - 1]])]
  }

  /** The writes of commit, as a function of the transaction: none for an empty one. */
  function CommitWrites(g: Geometry, d: Disk, lh: seq<nat>, cache: map<nat, Block>): (ws: seq<Write>)
    requires Layout(g, d) && Addresses(g, d, lh) && Cached(lh, cache)
    ensures InRange(d, ws)
  {
    if lh == [] then []
    else
      HeadWrites(g, d, lh, cache) + HomeWrites(lh, cache, |lh|)
      + [Write(g.start, EncodeHead(EncodeHead(d[g.start], lh), []))]
  }

  /** The home block contents a transaction is meant to produce. */
  function Committed(d: Disk, lh: seq<nat>, cache: map<nat, Block>, b: nat): Block
    requires b < |d| && Cached(lh, cache)
  {
    if b in lh then cache[b] else d[b]
  }

  /** A transaction ready to commit: the on-disk log is empty. */
  predicate Ready(g: Geometry, d: Disk, lh: seq<nat>, cache: map<nat, Block>) {
    LogOk(g, d) && Head(d[g.start]) == [] && Targets(g, d, lh) && Cached(lh, cache)
  }

  /** The first k log copies, and nothing else, have reached the disk. */
  predicate Copied(g: Geometry, d: Disk, lh: seq<nat>, cache: map<nat, Block>, k: nat, d': Disk)
    requires Layout(g, d) && Addresses(g, d, lh) && Cached(lh, cache) && k <= |lh|
  {
    && |d'| == |d|
    && d'[g.start] == d[g.start]
    && (forall b :: 0 <= b < |d| && Home(g, b) ==> d'[b] == d[b])
    && (forall i :: 0 <= i < k ==> d'[g.start + 1 + i] == cache[lh[i]])
  }

  lemma {:induction false} PartialLog(g: Geometry, d: Disk, lh: seq<nat>, cache: map<nat, Block>, ws: seq<Write>,
                                      k: nat)
    requires Layout(g, d) && Addresses(g, d, lh) && Cached(lh, cache) && k <= |lh| <= |ws|
    requires InRange(d, ws)
    requires forall i :: 0 <= i < |lh| ==> ws[i] == Write(g.start + 1 + i, cache[lh[i]])
    ensures Copied(g, d, lh, cache, k, Prefix(d, ws, k))
  {
    if k > 0 {
      PartialLog(g, d, lh, cache, ws, k - 1);
    }
  }

  /** The header write turns a fully copied log into a transaction that redo will complete. */
  lemma HeaderRedo(g: Geometry, d: Disk, lh: seq<nat>, cache: map<nat, Block>, c: Disk, h: Disk)
    requires Layout(g, d) && Targets(g, d, lh) && Cached(lh, cache)
    requires Copied(g, d, lh, cache, |lh|, c)
    requires |h| == |d| && forall b :: 0 <= b < |d| && b != g.start ==> h[b] == c[b]
    ensures forall b :: 0 <= b < |d| && Home(g, b) ==> RedoFrom(g, h, lh, b) == Committed(d, lh, cache, b)
  {
  }

  lemma HeaderCommits(g: Geometry, d: Disk, lh: seq<nat>, cache: map<nat, Block>)
    requires Ready(g, d, lh, cache)
    ensures var h := Apply(d, HeadWrites(g, d, lh, cache));
            && LogOk(g, h) && h[g.start] == EncodeHead(d[g.start], lh)
            && (forall i :: 0 <= i < |lh| ==> h[g.start + 1 + i] == cache[lh[i]])
            && (forall b :: 0 <= b < |d| && Home(g, b) ==> Redo(g, h, b) == Committed(d, lh, cache, b))
  {
    var ws := HeadWrites(g, d, lh, cache);
    PartialLog(g, d, lh, cache, ws, |lh|);
    HeaderRedo(g, d, lh, cache, Prefix(d, ws, |lh|), Apply(d, ws));
  }

  /** Commit's writes are write_log's, the header, and then exactly a recovery of that disk. */
  lemma CommitIsLogThenRecover(g: Geometry, d: Disk, lh: seq<nat>, cache: map<nat, Block>)
    requires Ready(g, d, lh, cache) && lh != []
    ensures var pre := HeadWrites(g, d, lh, cache);
            && LogOk(g, Apply(d, pre))
            && CommitWrites(g, d, lh, cache) == pre + RecoverWrites(g, Apply(d, pre))
  {
    HeaderCommits(g, d, lh, cache);
    var pre := HeadWrites(g, d, lh, cache);
    RecoverIsInstall(g, Apply(d, pre), d[g.start], lh, cache);
    Associate(pre, HomeWrites(lh, cache, |lh|), [Write(g.start, EncodeHead(EncodeHead(d[g.start], lh), []))]);
  }

  lemma Associate(a: seq<Write>, b: seq<Write>, c: seq<Write>)
    ensures (a + b) + c == a + (b + c)
  {
  }

  /** Recovering a disk whose header names lh writes what install_trans writes from the cache. */
  lemma RecoverIsInstall(g: Geometry, h: Disk, head: Block, lh: seq<Word>, cache: map<nat, Block>)
    requires LogOk(g, h) && |lh| <= LOGSIZE && h[g.start] == EncodeHead(head, lh) && Cached(lh, cache)
    requires forall i :: 0 <= i < |lh| ==> h[g.start + 1 + i] == cache[lh[i]]
    ensures RecoverWrites(g, h) == HomeWrites(lh, cache, |lh|) + [Write(g.start, EncodeHead(EncodeHead(head, lh), []))]
  {
    assert InstallWrites(g, h, lh, |lh|) == HomeWrites(lh, cache, |lh|);
  }

  /** A crash after the header write is a crash inside a recovery of the committed disk. */
  lemma CrashAfterHeader(g: Geometry, d: Disk, lh: seq<nat>, cache: map<nat, Block>, k: nat)
    requires Ready(g, d, lh, cache)
    requires |lh| < k <= |CommitWrites(g, d, lh, cache)|
    ensures var h := Apply(d, HeadWrites(g, d, lh, cache));
            && LogOk(g, h)
            && Prefix(d, CommitWrites(g, d, lh, cache), k) == RecoverCut(g, h, k - |lh| - 1)
  {
    CommitIsLogThenRecover(g, d, lh, cache);
    var pre := HeadWrites(g, d, lh, cache);
    PrefixOfConcat(d, pre, RecoverWrites(g, Apply(d, pre)), k);
  }

  lemma CrashBeforeHeader(g: Geometry, d: Disk, lh: seq<nat>, cache: map<nat, Block>, k: nat)
    requires Ready(g, d, lh, cache)
    requires k <= |lh|
    ensures k <= |CommitWrites(g, d, lh, cache)|
    ensures Copied(g, d, lh, cache, k, Prefix(d, CommitWrites(g, d, lh, cache), k))
  {
    if k > 0 {
      PartialLog(g, d, lh, cache, CommitWrites(g, d, lh, cache), k);
    }
  }

  /** Writing an empty header formats the log of any disk that has room for it. */
  lemma Formatted(g: Geometry, d: Disk)
    requires Layout(g, d)
    ensures var f := d[g.start := EncodeHead(d[g.start], [])];
            LogOk(g, f) && Head(f[g.start]) == [] && Recover(g, f)[g.start] == EncodeHead(f[g.start], [])
  {
    var f := d[g.start := EncodeHead(d[g.start], [])];
    RecoverIsRedo(g, f);
  }

  /** What any chain of recoveries will make of the disk of a commit cut after k writes. */
  lemma CrashRedo(g: Geometry, d: Disk, lh: seq<nat>, cache: map<nat, Block>, k: nat)
    requires Ready(g, d, lh, cache)
    requires k <= |CommitWrites(g, d, lh, cache)|
    ensures var crashed := Prefix(d, CommitWrites(g, d, lh, cache), k);
            && LogOk(g, crashed)
            && forall b :: 0 <= b < |d| && Home(g, b) ==>
                 Redo(g, crashed, b) == if k > |lh| then Committed(d, lh, cache, b) else d[b]
  {
    if k <= |lh| {
      CrashBeforeHeader(g, d, lh, cache, k);
    } else {
      CrashAfterHeader(g, d, lh, cache, k);
      HeaderCommits(g, d, lh, cache);
      CutKeepsRedo(g, Apply(d, HeadWrites(g, d, lh, cache)), k - |lh| - 1);
    }
  }

  /**
   Crash atomicity. A commit is cut after any k of its writes; then any number of
   recoveries run, each cut short anywhere; then one recovery completes. Every home
   block is old, or every home block is new, and new exactly when the header reached
   the disk. The log is left empty, ready for the next transaction.
   */
  lemma CrashAtomicity(g: Geometry, d: Disk, lh: seq<nat>, cache: map<nat, Block>, k: nat, cuts: seq<nat>)
    requires Ready(g, d, lh, cache)
    requires k <= |CommitWrites(g, d, lh, cache)|
    ensures var crashed := Prefix(d, CommitWrites(g, d, lh, cache), k);
            && LogOk(g, crashed)
            && var r := Recover(g, RecoverCuts(g, crashed, cuts));
            && LogOk(g, r) && Head(r[g.start]) == []
            && (forall b :: 0 <= b < |d| && Home(g, b) ==>
                 r[b] == if k > |lh| then Committed(d, lh, cache, b) else d[b])
  {
    CrashRedo(g, d, lh, cache, k);
    var crashed := Prefix(d, CommitWrites(g, d, lh, cache), k);
    RecoverIsRedo(g, RecoverCuts(g, crashed, cuts));
  }

  // ---------------------------------------------------------------- counting commits

  /** A header that lists blocks: the write that commits. */
  predicate Commits(g: Geometry, w: Write) {
    w.blockno == g.start && GetWord(w.data, 0) != 0
  }

  /** The transactions that the first k writes commit. */
  function CommitCount(g: Geometry, ws: seq<Write>, k: nat): nat
    requires k <= |ws|
  {
    if k == 0 then 0 else CommitCount(g, ws, k - 1) + if Commits(g, ws[k - 1]) then 1 else 0
  }

  lemma {:induction false} CommitCountGrows(g: Geometry, ws: seq<Write>, k: nat, m: nat)
    requires k <= m <= |ws|
    ensures CommitCount(g, ws, k) <= CommitCount(g, ws, m)
  {
    if k < m {
      CommitCountGrows(g, ws, k, m - 1);
    }
  }

  lemma {:induction false} CommitCountOfConcat(g: Geometry, a: seq<Write>, b: seq<Write>, k: nat)
    requires k <= |a| + |b|
    ensures k <= |a| ==> CommitCount(g, a + b, k) == CommitCount(g, a, k)
    ensures k >= |a| ==> CommitCount(g, a + b, k) == CommitCount(g, a, |a|) + CommitCount(g, b, k - |a|)
  {
    if k > 0 {
      CommitCountOfConcat(g, a, b, k - 1);
      assert (a + b)[k - 1] == if k <= |a| then a[k - 1] else b[k - 1 - |a|];
    }
  }

  /** Of a commit's writes, the one after the copies commits, and no other. */
  lemma CommitWriteAt(g: Geometry, d: Disk, lh: seq<nat>, cache: map<nat, Block>, i: nat)
    requires Ready(g, d, lh, cache) && i < |CommitWrites(g, d, lh, cache)|
    ensures Commits(g, CommitWrites(g, d, lh, cache)[i]) <==> i == |lh|
  {
    var w := CommitWrites(g, d, lh, cache)[i];
    if i < |lh| {
      assert w.blockno == g.start + 1 + i;
    } else if i == |lh| {
      assert w == Write(g.start, EncodeHead(d[g.start], lh));
    } else if i <= 2 * |lh| {
      assert w.blockno == lh[i - |lh| - 1];
    } else {
      assert w == Write(g.start, EncodeHead(EncodeHead(d[g.start], lh), []));
    }
  }

  lemma {:induction false} CountOne(g: Geometry, ws: seq<Write>, at: nat, k: nat)
    requires k <= |ws| && forall i {:trigger Commits(g, ws[i])} :: 0 <= i < |ws| ==> (Commits(g, ws[i]) <==> i == at)
    ensures CommitCount(g, ws, k) == if k > at then 1 else 0
  {
    if k > 0 {
      CountOne(g, ws, at, k - 1);
    }
  }

  lemma CommitsOnce(g: Geometry, d: Disk, lh: seq<nat>, cache: map<nat, Block>, k: nat)
    requires Ready(g, d, lh, cache) && k <= |CommitWrites(g, d, lh, cache)|
    ensures CommitCount(g, CommitWrites(g, d, lh, cache), k) == if k > |lh| then 1 else 0
  {
    var ws := CommitWrites(g, d, lh, cache);
    forall i | 0 <= i < |ws| ensures Commits(g, ws[i]) <==> i == |lh| {
      CommitWriteAt(g, d, lh, cache, i);
    }
    CountOne(g, ws, |lh|, k);
  }
}
