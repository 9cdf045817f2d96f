// The on-disk redo log of log.c: what commit() and recover_from_log() write to the disk, and
// what is left of a transaction when the machine stops between any two of those writes.

module RedoLog {
  import opened Common
  import opened Blocks

  // Where the log lives: a header block at `start`, then size - 1 blocks of data.
  datatype Layout = Layout(start: nat, size: nat) {
    predicate Holds(b: nat) { start <= b < start + size }
  }

  // ---------- the header block ----------

  // write_head: the count in word 0, the block numbers in words 1..n, the other bytes as they were.
  function EncodeHead(buf: Block, blocks: seq<nat>): (r: Block)
    requires Encodable(blocks)
    ensures GetWord(r, 0) == |blocks|
    ensures forall i :: 0 <= i < |blocks| ==> GetWord(r, i + 1) == blocks[i]
  {
    PutWords(PutWordSpec(buf, 0, |blocks|), blocks, |blocks|)
  }

  predicate Encodable(blocks: seq<nat>) {
    |blocks| <= LOGSIZE && forall i :: 0 <= i < |blocks| ==> blocks[i] < WORD
  }

  // PutWord with its round trip in the contract.
  function PutWordSpec(buf: Block, i: nat, w: nat): (r: Block)
    requires i < WORDS_PER_BLOCK && w < WORD
    ensures GetWord(r, i) == w
    ensures forall j :: 0 <= j < WORDS_PER_BLOCK && j != i ==> GetWord(r, j) == GetWord(buf, j)
  {
    WordRoundTrip(buf, i, w, i);
    assert forall j :: 0 <= j < WORDS_PER_BLOCK && j != i ==> GetWord(PutWord(buf, i, w), j) == GetWord(buf, j) by {
      forall j | 0 <= j < WORDS_PER_BLOCK && j != i
        ensures GetWord(PutWord(buf, i, w), j) == GetWord(buf, j)
      {
        WordRoundTrip(buf, i, w, j);
      }
    }
    PutWord(buf, i, w)
  }

  // The first k rounds of the copying loop of write_head.
  function PutWords(buf: Block, blocks: seq<nat>, k: nat): (r: Block)
    requires Encodable(blocks) && k <= |blocks|
    ensures GetWord(r, 0) == GetWord(buf, 0)
    ensures forall i :: 0 <= i < k ==> GetWord(r, i + 1) == blocks[i]
  {
    if k == 0 then buf else PutWordSpec(PutWords(buf, blocks, k - 1), k, blocks[k - 1])
  }

  // read_head trusts the count it finds; a count above LOGSIZE would overrun lh.block.
  predicate HasHeader(b: Block) {
    GetWord(b, 0) <= LOGSIZE
  }

  // read_head: the block numbers recorded in a header block.
  function DecodeHead(b: Block): (blocks: seq<nat>)
    requires HasHeader(b)
    ensures Encodable(blocks)
  {
    seq(GetWord(b, 0), i requires 0 <= i < GetWord(b, 0) => GetWord(b, i + 1))
  }

  // The block numbers written into a header are the ones read back from it.
  lemma HeadRoundTrip(buf: Block, blocks: seq<nat>)
    requires Encodable(blocks)
    ensures HasHeader(EncodeHead(buf, blocks))
    ensures DecodeHead(EncodeHead(buf, blocks)) == blocks
  {
  }

  // ---------- the writes of commit() and recover_from_log() ----------

  predicate InRange(blocks: seq<nat>, size: nat) {
    forall i :: 0 <= i < |blocks| ==> blocks[i] < size
  }

  // A transaction the log can hold: different home blocks, none of them inside the log area.
  predicate Loggable(l: Layout, blocks: seq<nat>, size: nat) {
    && Encodable(blocks) && Distinct(blocks) && InRange(blocks, size)
    && |blocks| < l.size && l.start + l.size <= size
    && forall i :: 0 <= i < |blocks| ==> !l.Holds(blocks[i])
  }

  // write_log: modified blocks go from the cache (mem) to the log.
  function LogWrites<T>(l: Layout, blocks: seq<nat>, mem: seq<T>): (ws: seq<Write<T>>)
    requires InRange(blocks, |mem|)
  {
    seq(|blocks|, i requires 0 <= i < |blocks| => Write(l.start + 1 + i, mem[blocks[i]]))
  }

  // install_trans: log blocks go to their home locations.
  function InstallWrites<T>(l: Layout, blocks: seq<nat>, d: seq<T>): (ws: seq<Write<T>>)
    requires l.start + |blocks| < |d|
  {
    seq(|blocks|, i requires 0 <= i < |blocks| => Write(blocks[i], d[l.start + 1 + i]))
  }

  // The writes to home locations made by commit(), whose log copies are the cached blocks.
  function HomeWrites<T>(blocks: seq<nat>, mem: seq<T>): (ws: seq<Write<T>>)
    requires InRange(blocks, |mem|)
  {
    seq(|blocks|, i requires 0 <= i < |blocks| => Write(blocks[i], mem[blocks[i]]))
  }

  // What commit() writes, in order, when the cache shows mem and the transaction is `blocks`.
  function CommitWrites(l: Layout, blocks: seq<nat>, mem: Disk): (ws: seq<Write<Block>>)
    requires Loggable(l, blocks, |mem|)
    ensures Fits(ws, |mem|)
    ensures |ws| == if blocks == [] then 0 else 2 * |blocks| + 2
  {
    if blocks == [] then []
    else
      var head := EncodeHead(mem[l.start], blocks);
      LogWrites(l, blocks, mem) + [Write(l.start, head)]
      + HomeWrites(blocks, mem) + [Write(l.start, EncodeHead(head, []))]
  }

  // A disk whose log header names the transaction `blocks`.
  predicate Names(l: Layout, d: Disk, blocks: seq<nat>) {
    && Loggable(l, blocks, |d|)
    && HasHeader(d[l.start]) && DecodeHead(d[l.start]) == blocks
  }

  // What recover_from_log() writes, in order, to a disk whose header names `blocks`.
  function RecoverWrites(l: Layout, blocks: seq<nat>, d: Disk): (ws: seq<Write<Block>>)
    requires Loggable(l, blocks, |d|)
    ensures Fits(ws, |d|) && |ws| == |blocks| + 1
  {
    InstallWrites(l, blocks, d) + [Write(l.start, EncodeHead(d[l.start], []))]
  }

  // ---------- crashes ----------

  // A disk from which recovery will produce `target` at every home block: a block named in the
  // header is going to be overwritten by its log copy, every other one already has its value.
  predicate Owes<T(==)>(l: Layout, d: seq<T>, blocks: seq<nat>, target: seq<T>) {
    && Loggable(l, blocks, |d|) && |target| == |d|
    && (forall i :: 0 <= i < |blocks| ==> target[blocks[i]] == d[l.start + 1 + i])
    && (forall b :: 0 <= b < |d| && !l.Holds(b) && b !in blocks ==> target[b] == d[b])
  }

  predicate Promises(l: Layout, d: Disk, blocks: seq<nat>, target: Disk) {
    Names(l, d, blocks) && Owes(l, d, blocks, target)
  }

  predicate SameHome<T(==)>(l: Layout, d: seq<T>, e: seq<T>) {
    |d| == |e| && forall b :: 0 <= b < |d| && !l.Holds(b) ==> d[b] == e[b]
  }

  // Installing any prefix of the transaction changes neither the log area nor what is owed.
  lemma InstallKeeps<T>(l: Layout, d: seq<T>, blocks: seq<nat>, target: seq<T>, k: nat)
    requires Owes(l, d, blocks, target) && k <= |blocks|
    ensures var e := Apply(d, InstallWrites(l, blocks, d)[..k]);
            Owes(l, e, blocks, target) && forall b :: l.start <= b < l.start + l.size ==> e[b] == d[b]
  {
    var ws := InstallWrites(l, blocks, d)[..k];
    forall b | 0 <= b < |d| && (l.Holds(b) || b !in blocks)
      ensures Apply(d, ws)[b] == d[b]
    {
      ApplyFrame(d, ws, b);
    }
  }

  // Installing all of it pays what is owed.
  lemma InstallPays<T>(l: Layout, d: seq<T>, blocks: seq<nat>, target: seq<T>)
    requires Owes(l, d, blocks, target)
    ensures SameHome(l, Apply(d, InstallWrites(l, blocks, d)), target)
  {
    var e := Apply(d, InstallWrites(l, blocks, d));
    assert InstallWrites(l, blocks, d)[..|blocks|] == InstallWrites(l, blocks, d);
    InstallKeeps(l, d, blocks, target, |blocks|);
    forall i | 0 <= i < |blocks|
      ensures e[blocks[i]] == target[blocks[i]]
    {
      InstalledAt(l, d, blocks, i);
    }
  }

  lemma {:induction false} InstalledAt<T>(l: Layout, d: seq<T>, blocks: seq<nat>, i: nat)
    requires Distinct(blocks) && InRange(blocks, |d|) && l.start + |blocks| < |d| && i < |blocks|
    ensures Apply(d, InstallWrites(l, blocks, d))[blocks[i]] == d[l.start + 1 + i]
  {
    var ws := InstallWrites(l, blocks, d);
    assert ws[i].bno == blocks[i];
    forall j | i < j < |ws|
      ensures ws[j].bno != ws[i].bno
    {
      assert ws[j].bno == blocks[j];
    }
    ApplyDistinct(d, ws, i);
  }

  // Clearing the header of a disk that owes nothing more leaves nothing owed.
  lemma ClearKeeps(l: Layout, d: Disk, blocks: seq<nat>, target: Disk)
    requires Loggable(l, blocks, |d|) && SameHome(l, d, target)
    ensures forall head: Block :: Promises(l, d[l.start := EncodeHead(head, [])], [], target)
  {
    forall head: Block
      ensures Promises(l, d[l.start := EncodeHead(head, [])], [], target)
    {
      HeadRoundTrip(head, []);
    }
  }

  // The names in the header after a recovery was stopped after k writes.
  function NamesAfter(blocks: seq<nat>, k: nat): (r: seq<nat>) {
    if k <= |blocks| then blocks else []
  }

  // Crashing inside recovery loses nothing: the promise survives any cut.
  lemma CutKeepsPromise(l: Layout, d: Disk, blocks: seq<nat>, target: Disk, k: nat)
    requires Promises(l, d, blocks, target) && k <= |blocks| + 1
    ensures Promises(l, Apply(d, RecoverWrites(l, blocks, d)[..k]), NamesAfter(blocks, k), target)
  {
    var ws := RecoverWrites(l, blocks, d);
    if k <= |blocks| {
      assert ws[..k] == InstallWrites(l, blocks, d)[..k];
      InstallKeeps(l, d, blocks, target, k);
    } else {
      RecoverDelivers(l, d, blocks, target);
      assert ws[..k] == ws;
    }
  }

  // A recovery that runs to the end delivers the promise and leaves an empty log.
  lemma RecoverDelivers(l: Layout, d: Disk, blocks: seq<nat>, target: Disk)
    requires Promises(l, d, blocks, target)
    ensures var e := Apply(d, RecoverWrites(l, blocks, d));
            SameHome(l, e, target) && Promises(l, e, [], target)
  {
    var ws := RecoverWrites(l, blocks, d);
    assert ws[..|blocks|] == InstallWrites(l, blocks, d);
    InstallPays(l, d, blocks, target);
    ClearKeeps(l, Apply(d, ws[..|blocks|]), blocks, target);
  }

  // Boot from disk d with recoveries cut after cuts[0], cuts[1], ... writes: the one that completes
  // leaves `target` at every home block and an empty log. A cut past the end is a completed recovery.
  ghost predicate Survives(l: Layout, d: Disk, cuts: seq<nat>, target: Disk)
    decreases |cuts|
  {
    exists blocks :: Names(l, d, blocks) && SurvivesFrom(l, d, blocks, cuts, target)
  }

  ghost predicate SurvivesFrom(l: Layout, d: Disk, blocks: seq<nat>, cuts: seq<nat>, target: Disk)
    requires Names(l, d, blocks)
    decreases |cuts|, 0
  {
    if cuts == [] then
      var e := Apply(d, RecoverWrites(l, blocks, d));
      SameHome(l, e, target) && Names(l, e, [])
    else
      var k := if cuts[0] <= |blocks| then cuts[0] else |blocks| + 1;
      Survives(l, Apply(d, RecoverWrites(l, blocks, d)[..k]), cuts[1..], target)
  }

  // However often recovery itself is interrupted, the recovery that completes delivers the promise.
  lemma {:induction false} PromiseSurvives(l: Layout, d: Disk, blocks: seq<nat>, cuts: seq<nat>, target: Disk)
    requires Promises(l, d, blocks, target)
    ensures Survives(l, d, cuts, target)
    decreases |cuts|
  {
    if cuts == [] {
      RecoverDelivers(l, d, blocks, target);
    } else {
      var k := if cuts[0] <= |blocks| then cuts[0] else |blocks| + 1;
      CutKeepsPromise(l, d, blocks, target, k);
      PromiseSurvives(l, Apply(d, RecoverWrites(l, blocks, d)[..k]), NamesAfter(blocks, k), cuts[1..], target);
    }
    assert SurvivesFrom(l, d, blocks, cuts, target);
  }

  // ---------- commit ----------

  // The state commit() starts from: an empty log on disk, and a cache that differs from the disk
  // only at the blocks of the transaction.
  predicate CommitReady(l: Layout, blocks: seq<nat>, mem: Disk, d: Disk) {
    && |mem| == |d| && Loggable(l, blocks, |d|) && Names(l, d, [])
    && Cached(blocks, mem, d)
  }

  predicate Cached<T(==)>(blocks: seq<nat>, mem: seq<T>, d: seq<T>)
    requires |mem| == |d|
  {
    forall b :: 0 <= b < |d| && b !in blocks ==> mem[b] == d[b]
  }

  // write_log touches only log blocks behind the header, and the ones written hold the cached data.
  lemma LogWritesEffect<T>(l: Layout, blocks: seq<nat>, mem: seq<T>, d: seq<T>, k: nat)
    requires |mem| == |d| && Loggable(l, blocks, |d|) && k <= |blocks|
    ensures var e := Apply(d, LogWrites(l, blocks, mem)[..k]);
            && (forall i :: 0 <= i < k ==> e[l.start + 1 + i] == mem[blocks[i]])
            && (forall b :: 0 <= b < |d| && !(l.start < b < l.start + l.size) ==> e[b] == d[b])
  {
    var ws := LogWrites(l, blocks, mem)[..k];
    forall b | 0 <= b < |d| && !(l.start < b < l.start + l.size)
      ensures Apply(d, ws)[b] == d[b]
    {
      ApplyFrame(d, ws, b);
    }
    forall i | 0 <= i < k
      ensures Apply(d, ws)[l.start + 1 + i] == mem[blocks[i]]
    {
      ApplyDistinct(d, ws, i);
    }
  }

  // Before the header write the disk still promises the old contents.
  lemma BeforeCommitPoint(l: Layout, blocks: seq<nat>, mem: Disk, d: Disk, k: nat)
    requires CommitReady(l, blocks, mem, d) && k <= |blocks|
    ensures Promises(l, Apply(d, LogWrites(l, blocks, mem)[..k]), [], d)
  {
    LogWritesEffect(l, blocks, mem, d, k);
  }

  // The disk right after the header write.
  function CommitPoint(l: Layout, blocks: seq<nat>, mem: Disk, d: Disk): (r: Disk)
    requires CommitReady(l, blocks, mem, d)
    ensures |r| == |d| && r[l.start] == EncodeHead(mem[l.start], blocks)
  {
    Apply(d, LogWrites(l, blocks, mem))[l.start := EncodeHead(mem[l.start], blocks)]
  }

  // The header write turns the promise into the new contents.
  lemma AtCommitPoint(l: Layout, blocks: seq<nat>, mem: Disk, d: Disk)
    requires CommitReady(l, blocks, mem, d)
    ensures Promises(l, CommitPoint(l, blocks, mem, d), blocks, mem)
  {
    assert LogWrites(l, blocks, mem)[..|blocks|] == LogWrites(l, blocks, mem);
    LogWritesEffect(l, blocks, mem, d, |blocks|);
    HeadRoundTrip(mem[l.start], blocks);
  }

  // commit() is write_log, the header write, and then a recovery of the disk that leaves.
  lemma CommitShape(l: Layout, blocks: seq<nat>, mem: Disk, d: Disk)
    requires CommitReady(l, blocks, mem, d) && blocks != []
    ensures CommitWrites(l, blocks, mem)
            == LogWrites(l, blocks, mem) + [Write(l.start, EncodeHead(mem[l.start], blocks))]
               + RecoverWrites(l, blocks, CommitPoint(l, blocks, mem, d))
    ensures |LogWrites(l, blocks, mem)| == |blocks| && Fits(LogWrites(l, blocks, mem), |d|)
    ensures var rest := RecoverWrites(l, blocks, CommitPoint(l, blocks, mem, d));
            |rest| == |blocks| + 1 && Fits(rest, |d|)
  {
    AtCommitPoint(l, blocks, mem, d);
    var e := CommitPoint(l, blocks, mem, d);
    assert HomeWrites(blocks, mem) == InstallWrites(l, blocks, e);
  }

  lemma {:induction false} PrefixThree<T>(a: seq<T>, x: T, b: seq<T>, k: nat)
    requires k <= |a| + 1 + |b|
    ensures (a + [x] + b)[..k] == if k <= |a| then a[..k] else a + [x] + b[..k - |a| - 1]
  {
  }

  // The disk after the first k writes of commit(), by phase.
  lemma {:induction false} CommitPrefix(l: Layout, blocks: seq<nat>, mem: Disk, d: Disk, k: nat)
    requires CommitReady(l, blocks, mem, d) && k <= |CommitWrites(l, blocks, mem)|
    ensures k <= |blocks| ==> Apply(d, CommitWrites(l, blocks, mem)[..k]) == Apply(d, LogWrites(l, blocks, mem)[..k])
    ensures k > |blocks| ==>
              var e := CommitPoint(l, blocks, mem, d);
              k - |blocks| - 1 <= |blocks| + 1 &&
              Apply(d, CommitWrites(l, blocks, mem)[..k]) == Apply(e, RecoverWrites(l, blocks, e)[..k - |blocks| - 1])
  {
    hide EncodeHead, LogWrites, RecoverWrites;
    if blocks != [] {
      var logged, head := LogWrites(l, blocks, mem), Write(l.start, EncodeHead(mem[l.start], blocks));
      var rest := RecoverWrites(l, blocks, CommitPoint(l, blocks, mem, d));
      CommitShape(l, blocks, mem, d);
      PrefixThree(logged, head, rest, k);
      if k > |blocks| {
        ApplyLast(d, logged, head);
        ApplyConcat(d, logged + [head], rest[..k - |blocks| - 1]);
      }
    }
  }

  // A recovery cut short anywhere, and then any number of further ones.
  lemma {:induction false} CutSurvives(l: Layout, e: Disk, blocks: seq<nat>, target: Disk, j: nat, cuts: seq<nat>)
    requires Promises(l, e, blocks, target) && j <= |RecoverWrites(l, blocks, e)|
    ensures Fits(RecoverWrites(l, blocks, e), |e|) && Survives(l, Apply(e, RecoverWrites(l, blocks, e)[..j]), cuts,
            target)
  {
    CutKeepsPromise(l, e, blocks, target, j);
    PromiseSurvives(l, Apply(e, RecoverWrites(l, blocks, e)[..j]), NamesAfter(blocks, j), cuts, target);
  }

  // CRASH ATOMICITY. Stop commit() after any number k of its block writes, then let any number of
  // recoveries be cut short anywhere. The recovery that completes leaves every block outside the
  // log as it was before the transaction if the header had not been written (k <= n), and as the
  // transaction left it in the cache otherwise; and the log is empty again.
  lemma {:induction false} CrashAtomicity(l: Layout, blocks: seq<nat>, mem: Disk, d: Disk, k: nat, cuts: seq<nat>)
    requires CommitReady(l, blocks, mem, d) && k <= |CommitWrites(l, blocks, mem)|
    ensures Survives(l, Apply(d, CommitWrites(l, blocks, mem)[..k]), cuts, if k <= |blocks| then d else mem)
  {
    hide Survives, Promises, EncodeHead, RecoverWrites, CommitWrites;
    CommitPrefix(l, blocks, mem, d, k);
    if k <= |blocks| {
      BeforeCommitPoint(l, blocks, mem, d, k);
      PromiseSurvives(l, Apply(d, LogWrites(l, blocks, mem)[..k]), [], cuts, d);
    } else {
      var e, j := CommitPoint(l, blocks, mem, d), k - |blocks| - 1;
      AtCommitPoint(l, blocks, mem, d);
      CutSurvives(l, e, blocks, mem, j, cuts);
    }
  }

  // A commit that is not interrupted installs the whole transaction and empties the log.
  lemma {:induction false} CommitCompletes(l: Layout, blocks: seq<nat>, mem: Disk, d: Disk)
    requires CommitReady(l, blocks, mem, d)
    ensures var e := Apply(d, CommitWrites(l, blocks, mem));
            SameHome(l, e, mem) && Names(l, e, [])
  {
    if blocks != [] {
      var ws, e := CommitWrites(l, blocks, mem), CommitPoint(l, blocks, mem, d);
      var rec := RecoverWrites(l, blocks, e);
      assert Apply(d, ws) == Apply(e, rec) by {
        CommitPrefix(l, blocks, mem, d, |ws|);
        assert ws[..|ws|] == ws;
        assert rec[..|blocks| + 1] == rec;
      }
      AtCommitPoint(l, blocks, mem, d);
      RecoverDelivers(l, e, blocks, mem);
    }
  }
}
