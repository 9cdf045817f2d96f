// The file system on the log: chunks of filewrite (file.c) as transactions of log.c on a disk of blocks, with
// power failures anywhere, and what is mounted afterwards.

module FsLog {
  import opened Common
  import opened Blocks
  import opened RedoLog
  import opened Fs
  import opened FileWrite
  import opened FsDisk
  import opened FsRoom
  import C = BufferCache
  import L = LogSystem
  import R = LogReservation

  // The disk, and the file system that the caches show.
  datatype Machine = Machine(disk: Disk, fs: State)

  // The file system lies outside the log, and a call's blocks fit behind the log header.
  ghost predicate Placement(l: Layout, s: State) {
    && Laid(s) && L.LayoutOk(l, |s.data|) && l.size > MAXOPBLOCKS
    && forall b: nat :: Placed(s, b) ==> b < |s.data| && !l.Holds(b)
  }

  predicate SameGeometry(g: State, s: State) {
    |s.inodes| == |g.inodes| && s.nmeta == g.nmeta && s.inodestart == g.inodestart && s.bmapstart == g.bmapstart
  }

  // Between calls: an empty log, and on the disk the image of a consistent file system.
  ghost predicate Good(l: Layout, m: Machine) {
    Inv(m.fs) && Placement(l, m.fs) && Shows(m.disk, m.fs) && Names(l, m.disk, [])
  }

  function Remount(d: Disk, s: State): (u: State) {
    if Holding(d, |s.inodes|, s.inodestart, s.bmapstart) then
      Mount(d, |s.inodes|, s.nmeta, s.inodestart, s.bmapstart)
    else s
  }

  // ---------- one chunk as a transaction ----------

  // One round of the loop of filewrite: writei inside begin_op and end_op.
  predicate Chunk(s: State, i: nat, off: nat, src: seq<Byte>) {
    Shaped(s) && i < |s.inodes| && off < WORD && |src| <= MAXCHUNK && Writei(s.(logged := {}), i, off, src).Returned?
  }

  function Chunked(s: State, i: nat, off: nat, src: seq<Byte>): (t: State)
    requires Chunk(s, i, off, src)
  {
    Writei(s.(logged := {}), i, off, src).s
  }

  // The blocks of the transaction, in the order in which they were logged.
  predicate Lists(order: seq<nat>, blocks: set<nat>) {
    Distinct(order) && (forall b :: b in order ==> b in blocks) && forall b :: b in blocks ==> b in order
  }

  // What the cache shows when the transaction commits: the new image at the logged blocks.
  function Cache(d: Disk, t: State): (mem: Disk)
    requires |d| == |t.data|
    ensures |mem| == |d|
  {
    seq(|d|, b requires 0 <= b < |d| => if b in t.logged then ImageBlock(t, b) else d[b])
  }

  lemma {:induction false} ListSize(order: seq<nat>, blocks: set<nat>)
    requires Lists(order, blocks)
    ensures |order| == |blocks|
    decreases |order|
  {
    if order == [] {
      assert blocks == {};
    } else {
      var x := order[0];
      forall b | b in blocks - {x}
        ensures b in order[1..]
      {
        var k :| 0 <= k < |order| && order[k] == b;
        assert order[1..][k - 1] == b;
      }
      ListSize(order[1..], blocks - {x});
    }
  }

  // A chunk keeps the file system consistent where it is.
  lemma {:induction false} ChunkKeeps(l: Layout, s: State, i: nat, off: nat, src: seq<Byte>)
    requires Inv(s) && Placement(l, s) && Chunk(s, i, off, src)
    ensures var t := Chunked(s, i, off, src);
            && Inv(t) && Placement(l, t) && |t.logged| <= MAXOPBLOCKS && AllPlaced(t) && Tracks(s.(logged := {}), t)
  {
    hide Writei, Owned, Mapped, Tracks, AllPlaced, Laid;
    var o := s.(logged := {});
    FreshOp(s);
    FreshLaid(s);
    WriteiSplices(o, i, off, src);
    ChunkFits(o, i, off, src);
    WritePlaced(o, i, off, src);
    WriteTracks(o, i, off, src);
    TracksPlacement(l, s, Chunked(s, i, off, src));
  }

  lemma FreshLaid(s: State)
    requires Laid(s)
    ensures s.bmapstart > 0
  {
  }

  lemma {:induction false} TracksPlacement(l: Layout, s: State, t: State)
    requires Placement(l, s) && Tracks(s.(logged := {}), t)
    ensures Placement(l, t)
  {
    assert forall b: nat :: IsInodeBlock(t, b) == IsInodeBlock(s, b) && IsBitmapBlock(t, b) == IsBitmapBlock(s, b);
  }

  // The log can take the transaction of a chunk.
  lemma {:induction false} ChunkLoggable(l: Layout, s: State, i: nat, off: nat, src: seq<Byte>, order: seq<nat>)
    requires Inv(s) && Placement(l, s) && Chunk(s, i, off, src) && Lists(order, Chunked(s, i, off, src).logged)
    ensures Loggable(l, order, |s.data|)
  {
    hide Inv, Chunked, Chunk, Tracks, Laid;
    ChunkKeeps(l, s, i, off, src);
    var t := Chunked(s, i, off, src);
    ListSize(order, t.logged);
    TracksSize(s, t);
    forall k | 0 <= k < |order|
      ensures order[k] < |s.data| && !l.Holds(order[k])
    {
      assert order[k] in order;
      assert Placed(t, order[k]);
    }
  }

  lemma TracksSize(s: State, t: State)
    requires Tracks(s.(logged := {}), t)
    ensures |t.data| == |s.data|
  {
  }

  // A disk that holds what the cache shows outside the log shows the new file system.
  lemma {:induction false} CacheShows(l: Layout, d: Disk, e: Disk, s: State, t: State)
    requires Shows(d, s) && Tracks(s.(logged := {}), t) && |s.dinodes| == |s.inodes| && Placement(l, t)
    requires |t.data| == |d| && SameHome(l, e, Cache(d, t))
    ensures Shows(e, t)
  {
    hide ImageBlock, Laid;
    var o := s.(logged := {});
    forall b | 0 <= b < |e| && Placed(t, b)
      ensures e[b] == ImageBlock(t, b)
    {
      assert e[b] == Cache(d, t)[b];
      if b !in t.logged {
        ImageFrame(o, t, b);
        ImageFresh(s, b);
        assert Placed(s, b);
      }
    }
  }

  lemma ImageFresh(s: State, b: nat)
    requires b < |s.data|
    ensures ImageBlock(s.(logged := {}), b) == ImageBlock(s, b)
  {
    hide DinodeBlock, BitBlock;
  }

  // ---------- the machine ----------

  datatype Op =
    // a chunk that commits
    | Put(i: nat, off: nat, src: seq<Byte>, order: seq<nat>)
    // a chunk whose commit is cut after k writes
    | Fail(i: nat, off: nat, src: seq<Byte>, order: seq<nat>, k: nat, cuts: seq<nat>)
    // a power failure with no commit going on
    | Crash(cuts: seq<nat>)

  predicate Enabled(m: Machine, op: Op) {
    && |m.disk| == |m.fs.data|
    && match op
       case Put(i, off, src, order) => Chunk(m.fs, i, off, src) && Lists(order, Chunked(m.fs, i, off, src).logged)
       case Fail(i, off, src, order, k, _) =>
         && Chunk(m.fs, i, off, src) && Lists(order, Chunked(m.fs, i, off, src).logged)
         && k <= if order == [] then 0 else 2 * |order| + 2
       case Crash(_) => true
  }

  // The disk after the first k writes of the commit of t. ChunkLoggable shows that the log takes it.
  function Committed(l: Layout, d: Disk, t: State, order: seq<nat>, k: nat): (e: Disk)
    requires |d| == |t.data|
    ensures |e| == |d|
  {
    if Loggable(l, order, |d|) && k <= |CommitWrites(l, order, Cache(d, t))| then
      Apply(d, CommitWrites(l, order, Cache(d, t))[..k])
    else d
  }

  // Power comes back: recoveries are cut short, one completes, and the disk is mounted.
  function Rebooted(l: Layout, d: Disk, s: State, cuts: seq<nat>): (m: Machine) {
    var e := if l.start < |d| then L.Recovered(l, d, cuts) else d;
    Machine(e, Remount(e, s))
  }

  function Next(l: Layout, m: Machine, op: Op): (r: Machine)
    requires Enabled(m, op)
  {
    match op
    case Put(i, off, src, order) =>
      var t := Chunked(m.fs, i, off, src);
      if |t.data| != |m.disk| then m
      else Machine(Committed(l, m.disk, t, order, if order == [] then 0 else 2 * |order| + 2), t)
    case Fail(i, off, src, order, k, cuts) =>
      var t := Chunked(m.fs, i, off, src);
      if |t.data| != |m.disk| then m else Rebooted(l, Committed(l, m.disk, t, order, k), m.fs, cuts)
    case Crash(cuts) => Rebooted(l, m.disk, m.fs, cuts)
  }

  // A recovered disk that shows a consistent file system mounts to it.
  lemma {:induction false} Mounts(l: Layout, d: Disk, s: State, u: State)
    requires Inv(u) && Placement(l, u) && Shows(d, u) && Names(l, d, [])
    requires SameGeometry(s, u)
    ensures Good(l, Machine(d, Remount(d, s))) && Alike(u, Remount(d, s))
    ensures forall j: nat :: j < |u.inodes| ==> SameFile(u, Remount(d, s), j)
  {
    hide Inv, Alike, Mount, Names, Placed, ImageBlock, Laid, SameFile;
    LaidAndShaped(l, u);
    MountImage(d, u);
    MountData(d, u);
    var r := Remount(d, s);
    AlikeInv(u, r);
    AlikePlacement(l, d, u, r);
  }

  lemma LaidAndShaped(l: Layout, s: State)
    requires Inv(s) && Placement(l, s)
    ensures Laid(s) && Shaped(s)
  {
  }

  lemma MountData(d: Disk, s: State)
    requires Holding(d, |s.inodes|, s.inodestart, s.bmapstart)
    ensures Mount(d, |s.inodes|, s.nmeta, s.inodestart, s.bmapstart).data == d
  {
  }

  lemma {:induction false} AlikePlacement(l: Layout, d: Disk, s: State, u: State)
    requires Alike(s, u) && u.data == d && Placement(l, s) && Shows(d, s) && Shaped(s)
    ensures Placement(l, u) && Shows(d, u)
  {
    hide DinodeBlock, BitBlock;
    assert forall b: nat :: IsInodeBlock(u, b) == IsInodeBlock(s, b) && IsBitmapBlock(u, b) == IsBitmapBlock(s, b);
    forall b | 0 <= b < |d| && Placed(u, b)
      ensures d[b] == ImageBlock(u, b)
    {
      assert Placed(s, b);
      if IsInodeBlock(u, b) { UnderSame(s.dinodes, s.data[b], b - s.inodestart); }
    }
  }

  // An inode block written over itself is the same block.
  lemma {:induction false} UnderSame(dinodes: seq<Inode>, under: Block, n: nat)
    ensures DinodeBlock(dinodes, DinodeBlock(dinodes, under, n), n) == DinodeBlock(dinodes, under, n)
  {
    hide FromWords;
    var b := DinodeBlock(dinodes, under, n);
    var ws := seq(WORDS_PER_BLOCK, w requires 0 <= w < WORDS_PER_BLOCK => InodeWord(dinodes, under, n, w));
    forall w | 0 <= w < WORDS_PER_BLOCK
      ensures InodeWord(dinodes, b, n, w) == InodeWord(dinodes, under, n, w)
    {
      WordsBack(ws, w);
    }
    assert seq(WORDS_PER_BLOCK, w requires 0 <= w < WORDS_PER_BLOCK => InodeWord(dinodes, b, n, w)) == ws;
  }

  // ---------- every step keeps the file system ----------

  // The log is empty and the blocks of the transaction are the ones at which cache and disk differ.
  lemma {:induction false} TransactionReady(l: Layout, m: Machine, i: nat, off: nat, src: seq<Byte>, order: seq<nat>)
    requires Good(l, m) && Chunk(m.fs, i, off, src) && Lists(order, Chunked(m.fs, i, off, src).logged)
    ensures var t := Chunked(m.fs, i, off, src);
            && |t.data| == |m.disk| && CommitReady(l, order, Cache(m.disk, t), m.disk)
            && Inv(t) && Placement(l, t) && Tracks(m.fs.(logged := {}), t)
  {
    hide Inv, Chunked, Chunk, Tracks, Placement, Names, Loggable, AllPlaced;
    ChunkKeeps(l, m.fs, i, off, src);
    var t := Chunked(m.fs, i, off, src);
    TracksSize(m.fs, t);
    ChunkLoggable(l, m.fs, i, off, src, order);
  }

  lemma DinodesMatch(s: State)
    requires Inv(s)
    ensures |s.dinodes| == |s.inodes|
  {
  }

  // A chunk that commits.
  lemma {:induction false} PutGood(l: Layout, m: Machine, i: nat, off: nat, src: seq<Byte>, order: seq<nat>)
    requires Good(l, m) && Enabled(m, Put(i, off, src, order))
    ensures Good(l, Next(l, m, Put(i, off, src, order)))
    ensures Next(l, m, Put(i, off, src, order)).fs == Chunked(m.fs, i, off, src)
  {
    hide Inv, Chunked, Chunk, Tracks, Placement, Names, Loggable, CommitWrites, Shows, SameHome;
    TransactionReady(l, m, i, off, src, order);
    var t := Chunked(m.fs, i, off, src);
    var mem := Cache(m.disk, t);
    var ws := CommitWrites(l, order, mem);
    assert ws[..|ws|] == ws;
    CommitCompletes(l, order, mem, m.disk);
    DinodesMatch(m.fs);
    CacheShows(l, m.disk, Apply(m.disk, ws), m.fs, t);
  }

  // What a disk promises is what it mounts to.
  lemma {:induction false} RebootGood(l: Layout, d: Disk, blocks: seq<nat>, target: Disk, s: State, u: State,
          cuts: seq<nat>)
    requires Promises(l, d, blocks, target) && Inv(u) && Placement(l, u) && |target| == |u.data|
    requires forall e: Disk :: SameHome(l, e, target) ==> Shows(e, u)
    requires SameGeometry(s, u)
    ensures var r := Rebooted(l, d, s, cuts);
            Good(l, r) && Alike(u, r.fs) && forall j: nat :: j < |u.inodes| ==> SameFile(u, r.fs, j)
  {
    hide Inv, Placement, Names, Shows, SameHome, Alike, SameFile, Owes, Remount, Good;
    PromiseStart(l, d, blocks, target);
    L.RecoveredDelivers(l, d, blocks, cuts, target);
    Mounts(l, L.Recovered(l, d, cuts), s, u);
  }

  lemma PromiseStart(l: Layout, d: Disk, blocks: seq<nat>, target: Disk)
    requires Promises(l, d, blocks, target)
    ensures l.start < |d| == |target|
  {
  }

  // A disk with the same blocks outside the log shows the same file system.
  lemma {:induction false} HomeShows(l: Layout, d: Disk, e: Disk, s: State)
    requires Placement(l, s) && Shows(d, s) && SameHome(l, e, d)
    ensures Shows(e, s)
  {
    hide ImageBlock, Laid;
  }

  // The old and the new file system have the same shape.
  lemma SameShape(s: State, t: State)
    requires Tracks(s.(logged := {}), t)
    ensures SameGeometry(s, t)
  {
  }

  // What the disk promises after k writes of a commit.
  lemma {:induction false} Promised(l: Layout, order: seq<nat>, mem: Disk, d: Disk, k: nat) returns (blocks: seq<nat>)
    requires CommitReady(l, order, mem, d) && k <= |CommitWrites(l, order, mem)|
    ensures Promises(l, Apply(d, CommitWrites(l, order, mem)[..k]), blocks, if k <= |order| then d else mem)
  {
    hide Promises, EncodeHead, RecoverWrites, CommitWrites;
    CommitPrefix(l, order, mem, d, k);
    if k <= |order| {
      BeforeCommitPoint(l, order, mem, d, k);
      blocks := [];
    } else {
      var e, j := CommitPoint(l, order, mem, d), k - |order| - 1;
      AtCommitPoint(l, order, mem, d);
      CutKeepsPromise(l, e, order, mem, j);
      blocks := NamesAfter(order, j);
    }
  }

  // ALL OR NOTHING. Power fails after k writes of the commit of a chunk, and recovery is cut short any number
  // of times. What is mounted in the end is a consistent file system: the one before the chunk if its header
  // had not been written, with every file as it was; otherwise the one after it, with every file as writei left it.
  lemma {:induction false} ChunkAtomic(l: Layout, m: Machine, i: nat, off: nat, src: seq<Byte>, order: seq<nat>, k: nat,
          cuts: seq<nat>)
    requires Good(l, m) && Enabled(m, Fail(i, off, src, order, k, cuts))
    ensures var r := Next(l, m, Fail(i, off, src, order, k, cuts));
            var u := if k <= |order| then m.fs else Chunked(m.fs, i, off, src);
            Good(l, r) && Inv(u) && Alike(u, r.fs) && forall j: nat :: j < |u.inodes| ==> SameFile(u, r.fs, j)
  {
    hide Inv, Chunked, Chunk, Tracks, Placement, Names, Loggable, CommitWrites, Shows, SameHome, Alike, SameFile,
         Rebooted, Promises;
    TransactionReady(l, m, i, off, src, order);
    var t := Chunked(m.fs, i, off, src);
    var mem := Cache(m.disk, t);
    var e := Apply(m.disk, CommitWrites(l, order, mem)[..k]);
    var blocks := Promised(l, order, mem, m.disk, k);
    DinodesMatch(m.fs);
    SameShape(m.fs, t);
    if k <= |order| {
      forall f: Disk | SameHome(l, f, m.disk)
        ensures Shows(f, m.fs)
      {
        HomeShows(l, m.disk, f, m.fs);
      }
      RebootGood(l, e, blocks, m.disk, m.fs, m.fs, cuts);
    } else {
      forall f: Disk | SameHome(l, f, mem)
        ensures Shows(f, t)
      {
        CacheShows(l, m.disk, f, m.fs, t);
      }
      RebootGood(l, e, blocks, mem, m.fs, t, cuts);
    }
  }

  // A power failure between transactions loses nothing.
  lemma {:induction false} CrashKeepsFiles(l: Layout, m: Machine, cuts: seq<nat>)
    requires Good(l, m) && |m.disk| == |m.fs.data|
    ensures var r := Next(l, m, Crash(cuts));
            Good(l, r) && Alike(m.fs, r.fs) && forall j: nat :: j < |m.fs.inodes| ==> SameFile(m.fs, r.fs, j)
  {
    hide Inv, Placement, Shows, SameHome, Alike, SameFile, Rebooted;
    forall f: Disk | SameHome(l, f, m.disk)
      ensures Shows(f, m.fs)
    {
      HomeShows(l, m.disk, f, m.fs);
    }
    RebootGood(l, m.disk, [], m.disk, m.fs, m.fs, cuts);
  }

  // ---------- every run ----------

  ghost predicate CanRun(l: Layout, m: Machine, ops: seq<Op>)
    decreases |ops|
  {
    ops == [] || (Enabled(m, ops[0]) && CanRun(l, Next(l, m, ops[0]), ops[1..]))
  }

  ghost function Run(l: Layout, m: Machine, ops: seq<Op>): (r: Machine)
    requires CanRun(l, m, ops)
    decreases |ops|
  {
    if ops == [] then m else Run(l, Next(l, m, ops[0]), ops[1..])
  }

  // CONSISTENT AFTER EVERY RUN. However chunks, commits cut short and power failures follow each other, the
  // log is empty between them, and the disk holds the image of a file system that meets its invariant.
  lemma {:induction false} RunGood(l: Layout, m: Machine, ops: seq<Op>)
    requires Good(l, m) && CanRun(l, m, ops)
    ensures Good(l, Run(l, m, ops))
    decreases |ops|
  {
    hide Good, Enabled, Next;
    if ops != [] {
      StepGood(l, m, ops[0]);
      RunGood(l, Next(l, m, ops[0]), ops[1..]);
    }
  }

  lemma {:induction false} StepGood(l: Layout, m: Machine, op: Op)
    requires Good(l, m) && Enabled(m, op)
    ensures Good(l, Next(l, m, op))
  {
    hide Good, Next;
    match op
    case Put(i, off, src, order) => PutGood(l, m, i, off, src, order);
    case Fail(i, off, src, order, k, cuts) => ChunkAtomic(l, m, i, off, src, order, k, cuts);
    case Crash(cuts) => CrashKeepsFiles(l, m, cuts);
  }

  // ---------- a filewrite cut short ----------

  // The steps of a filewrite of src: its chunks one after the other, the last of them cut by a power failure.
  predicate CutWrite(ops: seq<Op>, i: nat, off: nat, src: seq<Byte>)
    decreases |ops|
  {
    && ops != [] && src != [] && !ops[0].Crash?
    && ops[0].i == i && ops[0].off == off && ops[0].src == src[..Min(|src|, MAXCHUNK)]
    && if |ops| == 1 then ops[0].Fail?
       else ops[0].Put? && CutWrite(ops[1..], i, off + Min(|src|, MAXCHUNK), src[Min(|src|, MAXCHUNK)..])
  }

  lemma {:induction false} LandedStill(s: State, t: State, u: State, i: nat, off: nat, bytes: seq<Byte>)
    requires Landed(s, t, i, off, bytes) && Inv(u) && |u.inodes| == |t.inodes|
    requires forall j: nat :: j < |t.inodes| ==> SameFile(t, u, j)
    ensures Landed(s, u, i, off, bytes)
  {
    forall j: nat | j < |s.inodes| && j != i
      ensures SameFile(s, u, j)
    {
      assert SameFile(s, t, j) && SameFile(t, u, j);
    }
    assert SameFile(t, u, i);
  }

  lemma {:induction false} LastChunk(l: Layout, m: Machine, i: nat, off: nat, src: seq<Byte>, op: Op) returns (n: nat)
    requires Good(l, m) && op.Fail? && Enabled(m, op) && op.i == i && op.off == off && op.src == src && src != []
    requires off <= m.fs.inodes[i].size && off + |src| <= MAXFILE * BSIZE
    ensures n == 0 || n == |src|
    ensures Landed(m.fs, Next(l, m, op).fs, i, off, src[..n])
  {
    hide Landed, SameFile, Alike, Next, Inv, Shows, Placement, Names;
    var r := Next(l, m, op);
    assert op == Fail(i, off, src, op.order, op.k, op.cuts);
    ChunkAtomic(l, m, i, off, src, op.order, op.k, op.cuts);
    if op.k <= |op.order| {
      n := 0;
      NothingLanded(m.fs, i, off);
      assert src[..0] == [];
      AlikeShape(m.fs, r.fs);
      LandedStill(m.fs, m.fs, r.fs, i, off, []);
    } else {
      n := |src|;
      assert src[..n] == src;
      var v := ChunkLands(m.fs, i, off, src, off + |src|);
      AlikeShape(v, r.fs);
      LandedStill(m.fs, v, r.fs, i, off, src);
    }
  }

  lemma AlikeShape(s: State, u: State)
    requires Alike(s, u)
    ensures |u.inodes| == |s.inodes|
  {
  }

  // A filewrite that loses power leaves a prefix of its bytes in the file, cut where a chunk ends, and nothing
  // else changed.
  lemma {:induction false} CutWriteLands(l: Layout, m: Machine, i: nat, off: nat, src: seq<Byte>, ops: seq<Op>)
      returns (n: nat)
    requires Good(l, m) && CanRun(l, m, ops) && CutWrite(ops, i, off, src) && i < |m.fs.inodes|
    requires off <= m.fs.inodes[i].size && off + |src| <= MAXFILE * BSIZE
    ensures n <= |src| && (n == |src| || n % MAXCHUNK == 0)
    ensures Good(l, Run(l, m, ops)) && Landed(m.fs, Run(l, m, ops).fs, i, off, src[..n])
    decreases |ops|
  {
    hide Good, Next, Landed, Enabled;
    var k := Min(|src|, MAXCHUNK);
    var a, b, mid, op := src[..k], src[k..], off + k, ops[0];
    RunGood(l, m, ops);
    var m1 := Next(l, m, op);
    if |ops| == 1 {
      assert ops[1..] == [] && Run(l, m, ops) == m1;
      n := LastChunk(l, m, i, off, a, op);
      assert a[..n] == src[..n];
    } else {
      var v := PutLands(l, m, i, off, a, op);
      var rest := CutWriteLands(l, m1, i, mid, b, ops[1..]);
      n := k + rest;
      LandedTwice(m.fs, v, Run(l, m, ops).fs, i, off, a, mid, b[..rest]);
      PrefixOf(src, k, rest, n);
    }
  }

  lemma {:induction false} PutLands(l: Layout, m: Machine, i: nat, off: nat, src: seq<Byte>, op: Op) returns (v: State)
    requires Good(l, m) && op.Put? && Enabled(m, op) && op.i == i && op.off == off && op.src == src
    requires i < |m.fs.inodes| && off <= m.fs.inodes[i].size && off + |src| <= MAXFILE * BSIZE
    ensures Good(l, Next(l, m, op)) && v == Next(l, m, op).fs && Landed(m.fs, v, i, off, src)
    ensures |v.inodes| == |m.fs.inodes| && off + |src| <= v.inodes[i].size
  {
    hide SameFile, Alike, Next, Inv, Shows, Placement, Names, Content;
    assert op == Put(i, off, src, op.order);
    PutGood(l, m, i, off, src, op.order);
    v := ChunkLands(m.fs, i, off, src, off + |src|);
  }

  // ---------- concurrent calls ----------

  // A disk that shows a consistent file system of the shape of g.
  ghost predicate Consistent(l: Layout, g: State, d: Disk) {
    exists s :: Inv(s) && Placement(l, s) && Shows(d, s) && SameGeometry(g, s)
  }

  // Whenever the last call ends and a commit starts, the calls have left a consistent file system in the cache.
  ghost predicate LeaveConsistent(l: Layout, g: State, s: L.Sys, steps: seq<L.Step>)
    requires L.CanRun(l, s, steps)
    decreases |steps|
  {
    steps == [] ||
    (&& (steps[0].End? && s.log.outstanding == 1 ==> Consistent(l, g, C.Mem(s.cache)))
     && LeaveConsistent(l, g, L.Next(l, s, steps[0]), steps[1..]))
  }

  // What a crash would leave is consistent, now and when the running commit is done.
  ghost predicate SafeNow(l: Layout, g: State, s: L.Sys) {
    Consistent(l, g, s.saved) && (s.commit.Writing? ==> Consistent(l, g, s.commit.mem))
  }

  lemma {:induction false} StepSafe(l: Layout, g: State, s: L.Sys, step: L.Step)
    requires SafeNow(l, g, s) && L.Enabled(l, s, step) && R.Inv(s.log)
    requires step.End? && s.log.outstanding == 1 ==> Consistent(l, g, C.Mem(s.cache))
    ensures SafeNow(l, g, L.Next(l, s, step))
  {
    hide Consistent, C.Mem, C.Next, C.Enabled, L.NextWrite, L.Recovered, L.WriteCache, L.FreshCache;
  }

  lemma CountsInv(l: Layout, s: L.Sys)
    requires L.Inv(l, s)
    ensures R.Inv(s.log)
  {
  }

  lemma {:induction false} RunSafe(l: Layout, g: State, s: L.Sys, steps: seq<L.Step>)
    requires SafeNow(l, g, s) && L.Inv(l, s) && L.CanRun(l, s, steps) && LeaveConsistent(l, g, s, steps)
    ensures SafeNow(l, g, L.Run(l, s, steps))
    decreases |steps|
  {
    hide SafeNow, L.Inv, L.Enabled, L.Next;
    if steps != [] {
      CountsInv(l, s);
      StepSafe(l, g, s, steps[0]);
      L.StepKeeps(l, s, steps[0]);
      RunSafe(l, g, L.Next(l, s, steps[0]), steps[1..]);
    }
  }

  // CONSISTENT WITH CONCURRENT CALLS. In any run of the logging system, with calls, readers and earlier power
  // failures interleaved in any way, if the calls of each transaction together leave a consistent file system in
  // the cache, then a power failure at any point leaves a disk that mounts to a consistent file system.
  lemma {:induction false} MountsConsistent(l: Layout, g: State, nbuf: nat, nproc: nat, d: Disk, steps: seq<L.Step>,
          cuts: seq<nat>)
    requires L.LayoutOk(l, |d|) && Names(l, d, []) && Consistent(l, g, d)
    requires L.CanRun(l, L.Boot(nbuf, nproc, d), steps) && LeaveConsistent(l, g, L.Boot(nbuf, nproc, d), steps)
    ensures var s := L.Run(l, L.Boot(nbuf, nproc, d), steps);
            l.start < |s.cache.disk| && Inv(Remount(L.Recovered(l, s.cache.disk, cuts), g))
  {
    hide L.Run, L.CanRun, L.Inv, Consistent, Inv, Names, LeaveConsistent, Remount, L.Recovered;
    var s := L.Run(l, L.Boot(nbuf, nproc, d), steps);
    L.BootInv(l, nbuf, nproc, d);
    RunSafe(l, g, L.Boot(nbuf, nproc, d), steps);
    L.CrashSafe(l, nbuf, nproc, d, steps, cuts);
    SavedMounts(l, g, L.Recovered(l, s.cache.disk, cuts), s.saved);
  }

  lemma {:induction false} SavedMounts(l: Layout, g: State, e: Disk, saved: Disk)
    requires Consistent(l, g, saved) && SameHome(l, e, saved) && Names(l, e, [])
    ensures Inv(Remount(e, g))
  {
    hide Inv, Placement, Shows, SameHome, Names, Remount, Alike, SameFile;
    var u :| Inv(u) && Placement(l, u) && Shows(saved, u) && SameGeometry(g, u);
    HomeShows(l, saved, e, u);
    Mounts(l, e, g, u);
  }

  // ---------- a new file system ----------

  // mkfs.c: the boot block, the super block, a log of LOGSIZE blocks, 26 blocks for 200 inodes and the bitmap;
  // every inode empty.
  const NINODES := 200
  const INODESTART := 32
  const BMAPSTART := 58

  function Blank(size: nat): (s: State) {
    var nmeta := BMAPSTART + size / BPB + 1;
    var inodes := seq(NINODES, _ => Inode(seq(NDIRECT + 1, _ => 0), 0));
    State(seq(size, b => b < nmeta), seq(size, _ => Zero()), inodes, inodes, {}, nmeta, INODESTART, BMAPSTART)
  }

  lemma {:induction false} BlankInv(size: nat)
    requires BMAPSTART + size / BPB + 1 < size <= WORD
    ensures Inv(Blank(size))
  {
    var s := Blank(size);
    forall i: nat, k: nat | ValidSlot(s, i, k)
      ensures Slot(s, i, k) == 0
    {
    }
    assert Owned(s, map[]);
  }

  // It meets everything a machine starts with.
  lemma {:induction false} BlankGood(size: nat)
    requires BMAPSTART + size / BPB + 1 < size <= WORD
    ensures Good(Layout(2, LOGSIZE), Machine(Image(Blank(size)), Blank(size)))
  {
    hide Inv, DinodeBlock, BitBlock;
    var s, l := Blank(size), Layout(2, LOGSIZE);
    BlankInv(size);
    assert Image(s)[2] == Zero();
    ZeroHeader();
  }

  lemma ZeroHeader()
    ensures HasHeader(Zero()) && DecodeHead(Zero()) == []
  {
    assert Zero()[4 * 0] == Zero()[1] == Zero()[2] == Zero()[3] == 0;
    assert GetWord(Zero(), 0) == 0;
  }

  // ---------- which chunks can be written ----------

  lemma {:induction false} SomeOrder(blocks: set<nat>) returns (order: seq<nat>)
    ensures Lists(order, blocks)
    decreases |blocks|
  {
    if blocks == {} {
      order := [];
    } else {
      var x :| x in blocks;
      var rest := SomeOrder(blocks - {x});
      order := [x] + rest;
      assert x !in rest;
    }
  }

  // A chunk can be written exactly when writei rejects it or the bitmap has a clear bit for every block it
  // lacks.
  lemma {:induction false} CanPutIff(l: Layout, m: Machine, i: nat, off: nat, src: seq<Byte>)
    requires Good(l, m) && i < |m.fs.inodes| && off < WORD && |src| <= MAXCHUNK
    ensures var ok := off <= m.fs.inodes[i].size && off + |src| <= MAXFILE * BSIZE;
            && Shaped(m.fs) && (ok ==> EndBlock(off, |src|) <= MAXFILE)
            && ((exists order :: Enabled(m, Put(i, off, src, order))) <==>
                (ok ==> Lacks(m.fs, i, off / BSIZE, EndBlock(off, |src|)) <= ClearBits(m.fs.bitmap)))
  {
    hide Writei, Owned, Mapped, Lacks, ClearBits, Got, Placement, Names, ImageBlock;
    var s := m.fs;
    LaidAndShaped(l, s);
    FreshOp(s);
    WriteiRoom(s.(logged := {}), i, off, src);
    if off <= s.inodes[i].size && off + |src| <= MAXFILE * BSIZE {
      FreshLacks(s, i, off / BSIZE, EndBlock(off, |src|));
    }
    if Chunk(s, i, off, src) {
      var order := SomeOrder(Chunked(s, i, off, src).logged);
      assert Enabled(m, Put(i, off, src, order));
    }
  }

  lemma {:induction false} ClearAbove(bits: seq<bool>, n: nat)
    requires n <= |bits| && forall b :: 0 <= b < |bits| ==> bits[b] == (b < n)
    ensures ClearBits(bits) == |bits| - n
    decreases |bits|
  {
    if n < |bits| {
      ClearAbove(bits[..|bits| - 1], n);
    } else {
      NoneClear(bits);
    }
  }

  lemma {:induction false} BlankLacks(size: nat, i: nat, from: nat, end: nat)
    requires BMAPSTART + size / BPB + 1 < size <= WORD && i < NINODES && from <= end <= NDIRECT
    ensures Lacks(Blank(size), i, from, end) == end - from
    decreases end - from
  {
    if from < end { BlankLacks(size, i, from + 1, end); }
  }

  // On a new file system the first chunk of any file can be written exactly when the data blocks are enough.
  lemma {:induction false} FirstChunk(size: nat, i: nat, src: seq<Byte>)
    requires BMAPSTART + size / BPB + 1 < size <= WORD && i < NINODES && |src| <= MAXCHUNK
    ensures var m := Machine(Image(Blank(size)), Blank(size));
            (exists order :: Enabled(m, Put(i, 0, src, order))) <==>
            (|src| + BSIZE - 1) / BSIZE <= size - (BMAPSTART + size / BPB + 1)
  {
    hide Enabled, Lacks, ClearBits, Good, Image;
    var s := Blank(size);
    BlankGood(size);
    CanPutIff(Layout(2, LOGSIZE), Machine(Image(s), s), i, 0, src);
    ClearAbove(s.bitmap, s.nmeta);
    BlankLacks(size, i, 0, EndBlock(0, |src|));
  }
}
