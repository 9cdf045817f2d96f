// log.c on top of bio.c: the loops that move blocks between the cache, the log and their home
// locations, proved to make exactly the writes of RedoLog.CommitWrites and RedoLog.RecoverWrites,
// and the counters shared by concurrent calls, proved to move as in LogReservation.

module LogDriver {
  import opened Common
  import opened Blocks
  import opened BufferCache
  import opened Bio
  import opened RedoLog
  import R = LogReservation

  // ---------- which buffers are pinned ----------

  function DirtyBufs(c: Cache): (r: set<nat>) {
    set i: nat | i < |c.bufs| && c.bufs[i].dirty
  }

  // Nobody references a buffer.
  predicate Quiet(c: Cache) {
    forall i :: 0 <= i < |c.bufs| ==> c.bufs[i].refcnt == 0
  }

  // The dirty buffers are exactly the cached copies of `blocks`.
  predicate Pinned(c: Cache, blocks: seq<nat>) {
    && (forall i :: 0 <= i < |c.bufs| && c.bufs[i].dirty ==> c.bufs[i].blockno in blocks)
    && (forall k :: 0 <= k < |blocks| ==> DirtyCopy(c, blocks[k]))
  }

  predicate DirtyCopy(c: Cache, b: nat) {
    exists i :: 0 <= i < |c.bufs| && Tagged(c.bufs[i], ROOTDEV, b) && c.bufs[i].dirty
  }

  lemma {:induction false} ImageSize(bufs: seq<Buf>, s: set<nat>)
    requires Unique(bufs) && forall i :: i in s ==> i < |bufs| && bufs[i].dev == ROOTDEV
    ensures |set i | i in s :: bufs[i].blockno| == |s|
    decreases |s|
  {
    var image := set i | i in s :: bufs[i].blockno;
    if s == {} {
      assert image == {};
    } else {
      var x :| x in s;
      ImageSize(bufs, s - {x});
      var rest := set i | i in s - {x} :: bufs[i].blockno;
      assert image == rest + {bufs[x].blockno};
      assert bufs[x].blockno !in rest;
    }
  }

  function Elems(blocks: seq<nat>): (r: set<nat>)
    ensures |r| <= |blocks| && forall b :: b in r <==> b in blocks
  {
    if blocks == [] then {} else Elems(blocks[..|blocks| - 1]) + {blocks[|blocks| - 1]}
  }

  function Below(n: nat): (r: set<nat>)
    ensures |r| == n && forall i :: i in r <==> 0 <= i < n
  {
    if n == 0 then {} else Below(n - 1) + {n - 1}
  }

  // At most one dirty buffer for each block of the transaction.
  lemma PinnedCount(c: Cache, blocks: seq<nat>)
    requires Inv(c) && Pinned(c, blocks)
    ensures |DirtyBufs(c)| <= |blocks|
  {
    var image := set i | i in DirtyBufs(c) :: c.bufs[i].blockno;
    ImageSize(c.bufs, DirtyBufs(c));
    SubsetSize(image, Elems(blocks));
  }

  // bget finds a buffer when the block is cached, or when the dirty and the referenced buffers
  // together do not fill the cache.
  lemma PickSucceeds(c: Cache, bno: nat, held: set<nat>)
    requires Inv(c)
    requires (exists i :: 0 <= i < |c.bufs| && Tagged(c.bufs[i], ROOTDEV, bno)) || |DirtyBufs(c)| + |held| < |c.bufs|
    requires forall i :: 0 <= i < |c.bufs| && c.bufs[i].refcnt > 0 ==> i in held
    ensures Pick(c, ROOTDEV, bno) < |c.bufs|
  {
    if i :| 0 <= i < |c.bufs| && Tagged(c.bufs[i], ROOTDEV, bno) {
      InLru(c, i);
    } else {
      var all := Below(|c.bufs|);
      var busy := DirtyBufs(c) + held;
      if all <= busy {
        SubsetSize(all, busy);
      }
      var i :| i in all && i !in busy;
      InLru(c, i);
      assert Reusable(c.bufs[i]);
    }
  }

  // ---------- when commit() finds a buffer ----------

  lemma {:induction false} ElemsSize(blocks: seq<nat>)
    requires Distinct(blocks)
    ensures |Elems(blocks)| == |blocks|
  {
    if blocks != [] {
      var front := blocks[..|blocks| - 1];
      assert Distinct(front) && blocks[|blocks| - 1] !in front;
      ElemsSize(front);
    }
  }

  lemma SameSize<T>(a: set<T>, b: set<T>)
    requires a <= b && |a| == |b|
    ensures a == b
  {
    assert b == a + (b - a);
  }

  function DirtyBlocks(c: Cache): (r: set<nat>) { set i | i in DirtyBufs(c) :: c.bufs[i].blockno }

  lemma PinnedBlocks(c: Cache, blocks: seq<nat>)
    requires Pinned(c, blocks)
    ensures DirtyBlocks(c) == Elems(blocks)
  {
    hide Elems;
    forall b | b in blocks
      ensures b in DirtyBlocks(c)
    {
      var k :| 0 <= k < |blocks| && blocks[k] == b;
      assert DirtyCopy(c, blocks[k]);
      var i: nat :| i < |c.bufs| && Tagged(c.bufs[i], ROOTDEV, b) && c.bufs[i].dirty;
      assert i in DirtyBufs(c);
    }
  }

  lemma DirtyOnRoot(c: Cache)
    requires Inv(c)
    ensures Unique(c.bufs) && IsOrder(c.lru, |c.bufs|)
    ensures forall i :: i in DirtyBufs(c) ==> i < |c.bufs| && c.bufs[i].dev == ROOTDEV
  {
  }

  // One dirty buffer for each block of the transaction.
  lemma PinnedExactly(c: Cache, blocks: seq<nat>)
    requires Inv(c) && Pinned(c, blocks) && Distinct(blocks)
    ensures |DirtyBufs(c)| == |blocks| <= |c.bufs|
  {
    hide Inv, Pinned, DirtyBufs, Elems, Unique, Distinct;
    DirtyOnRoot(c);
    ImageSize(c.bufs, DirtyBufs(c));
    ElemsSize(blocks);
    PinnedBlocks(c, blocks);
    SubsetSize(DirtyBufs(c), Below(|c.bufs|));
  }

  // When commit() starts, a bread of a log block finds a buffer exactly when the transaction is smaller
  // than the cache. With NBUF blocks in it every buffer is dirty and bget panics.
  lemma CommitFindsIff(c: Cache, blocks: seq<nat>, bno: nat)
    requires Inv(c) && Quiet(c) && Pinned(c, blocks) && Distinct(blocks) && bno !in blocks
    ensures Pick(c, ROOTDEV, bno) < |c.bufs| <==> |blocks| < |c.bufs|
  {
    hide Inv;
    PinnedExactly(c, blocks);
    if |blocks| < |c.bufs| {
      PickSucceeds(c, bno, {});
    } else {
      SameSize(DirtyBufs(c), Below(|c.bufs|));
      DirtyOnRoot(c);
      forall i | 0 <= i < |c.bufs|
        ensures c.bufs[i].dirty && c.bufs[i].blockno in blocks
      {
        assert i in DirtyBufs(c);
      }
    }
  }

  // In a quiet cache a block without a dirty buffer shows its disk contents.
  lemma CleanView(c: Cache, blocks: seq<nat>)
    requires Inv(c) && Quiet(c) && Pinned(c, blocks)
    ensures Cached(blocks, Mem(c), c.disk)
  {
    forall b | 0 <= b < |c.disk| && b !in blocks
      ensures View(c, b) == c.disk[b]
    {
      var i := Where(c.bufs, b);
      assert i < |c.bufs| ==> BufOk(c.bufs[i], c.disk, i in c.unsaved);
    }
  }

  // ---------- moving one block ----------

  // With one buffer held, a second bread succeeds: its block is pinned or the cache has room.
  lemma SecondPick(c: Cache, c1: Cache, first: nat, bno: nat, blocks: seq<nat>)
    requires Inv(c) && Quiet(c) && Pinned(c, blocks) && Inv(c1) && |c1.bufs| == |c.bufs| && first < |c.bufs|
    requires c1.bufs == c.bufs[first := c1.bufs[first]] && (c1.bufs[first].dirty ==> c.bufs[first].dirty)
    requires Reusable(c.bufs[first]) || c.bufs[first].blockno != bno
    requires |blocks| + 1 < |c.bufs| || bno in blocks
    ensures Pick(c1, ROOTDEV, bno) < |c.bufs|
  {
    PinnedCount(c, blocks);
    if bno in blocks {
      assert DirtyCopy(c, bno);
      var i :| 0 <= i < |c.bufs| && Tagged(c.bufs[i], ROOTDEV, bno) && c.bufs[i].dirty;
      assert Tagged(c1.bufs[i], ROOTDEV, bno);
    } else {
      SubsetSize(DirtyBufs(c1), DirtyBufs(c));
    }
    PickSucceeds(c1, bno, {first});
  }

  predicate HeldOnce(b: Buf) { b.locked && b.valid && b.refcnt == 1 }

  function Freed(b: Buf): (r: Buf) { b.(locked := false, refcnt := if b.refcnt == 0 then 0 else b.refcnt - 1) }

  // memmove into a locked buffer, then bwrite.
  lemma {:induction false} StoreEffect(c: Cache, to: nat, x: Block)
    requires Inv(c) && to < |c.bufs| && HeldOnce(c.bufs[to]) && c.unsaved == {}
    ensures Enabled(c, Store(to, x)) && c.bufs[to].blockno < |c.disk|
    ensures var c1 := Next(c, Store(to, x));
            Enabled(c1, Bwrite(to)) &&
            var c2 := Next(c1, Bwrite(to));
            && Inv(c2) && c2.unsaved == {} && c2.lru == c.lru
            && c2.bufs == c.bufs[to := c.bufs[to].(dirty := false, data := x)]
            && Mem(c2) == Mem(c)[c.bufs[to].blockno := x]
  {
    var c1 := Next(c, Store(to, x));
    StepKeepsInv(c, Store(to, x));
    StepMem(c, Store(to, x));
    StepKeepsInv(c1, Bwrite(to));
    StepMem(c1, Bwrite(to));
  }

  // brelse of two locked buffers.
  lemma {:induction false} ReleaseEffect(c: Cache, from: nat, to: nat)
    requires Inv(c) && from < |c.bufs| && to < |c.bufs| && from != to
    requires HeldOnce(c.bufs[from]) && HeldOnce(c.bufs[to]) && c.unsaved == {}
    ensures Enabled(c, Release(from))
    ensures var c1 := Next(c, Release(from));
            Enabled(c1, Release(to)) &&
            var c2 := Next(c1, Release(to));
            && c2.unsaved == {} && c2.bufs == c.bufs[from := Freed(c.bufs[from])][to := Freed(c.bufs[to])]
            && Mem(c2) == Mem(c)
  {
    var c1 := Next(c, Release(from));
    StepKeepsInv(c, Release(from));
    StepMem(c, Release(from));
    StepMem(c1, Release(to));
  }

  // The cache after memmove, bwrite and the two brelse on a pair of locked buffers.
  lemma {:induction false} TransferEffect(c: Cache, from: nat, to: nat)
    requires Inv(c) && from < |c.bufs| && to < |c.bufs| && from != to
    requires HeldOnce(c.bufs[from]) && HeldOnce(c.bufs[to]) && c.unsaved == {}
    ensures Enabled(c, Store(to, c.bufs[from].data)) && c.bufs[to].blockno < |c.disk|
    ensures var c1 := Next(c, Store(to, c.bufs[from].data));
            Enabled(c1, Bwrite(to)) &&
            var c2 := Next(c1, Bwrite(to));
            Enabled(c2, Release(from)) &&
            var c3 := Next(c2, Release(from));
            Enabled(c3, Release(to)) &&
            var c4 := Next(c3, Release(to));
            && c4.unsaved == {}
            && c4.bufs == c.bufs[from := Freed(c.bufs[from])]
                                [to := Freed(c.bufs[to]).(dirty := false, data := c.bufs[from].data)]
            && Mem(c4) == Mem(c)[c.bufs[to].blockno := c.bufs[from].data]
  {
    hide Inv, Mem;
    var x := c.bufs[from].data;
    StoreEffect(c, to, x);
    ReleaseEffect(Next(Next(c, Store(to, x)), Bwrite(to)), from, to);
  }

  // memmove, bwrite and the two brelse on a pair of locked buffers.
  method Transfer(cache: BCache, from: nat, to: nat)
    requires cache.Valid() && from < NBUF && to < NBUF && from != to
    requires HeldOnce(cache.bufs[from]) && HeldOnce(cache.bufs[to]) && cache.unsaved == {}
    modifies cache
    ensures cache.Valid() && cache.unsaved == {}
    ensures var b, x := old(cache.bufs), old(cache.bufs[from].data);
            && cache.bufs == b[from := Freed(b[from])][to := Freed(b[to]).(dirty := false, data := x)]
            && Mem(cache.State()) == old(Mem(cache.State()))[b[to].blockno := x]
            && cache.trace == old(cache.trace) + [Write(b[to].blockno, x)]
  {
    hide Inv, Mem;
    TransferEffect(cache.State(), from, to);
    cache.StoreData(to, cache.bufs[from].data);
    cache.WriteBlock(to);
    cache.Brelse(from);
    cache.Brelse(to);
  }

  // A buffer handed out by bread: a dirty one is handed out for its own block only.
  predicate Fetched(before: Buf, after: Buf, bno: nat) {
    && HeldOnce(after) && Tagged(after, ROOTDEV, bno)
    && (before.dirty ==> after.dirty && Tagged(before, ROOTDEV, bno))
    && (after.dirty ==> before.dirty)
  }

  // Two breads in a row on a quiet cache.
  method FetchPair(cache: BCache, b1: nat, b2: nat, ghost blocks: seq<nat>) returns (first: nat, second: nat)
    requires cache.Valid() && Quiet(cache.State()) && Pinned(cache.State(), blocks)
    requires b1 != b2 && b1 < |cache.disk| && b2 < |cache.disk|
    requires |blocks| + 1 < NBUF || (|blocks| < NBUF && b2 in blocks)
    modifies cache`bufs
    ensures cache.Valid() && first < NBUF && second < NBUF && first != second
    ensures cache.bufs == old(cache.bufs)[first := cache.bufs[first]][second := cache.bufs[second]]
    ensures Fetched(old(cache.bufs[first]), cache.bufs[first], b1)
    ensures Fetched(old(cache.bufs[second]), cache.bufs[second], b2)
    ensures Mem(cache.State()) == old(Mem(cache.State()))
    ensures cache.bufs[first].data == Mem(cache.State())[b1] && cache.bufs[second].data == Mem(cache.State())[b2]
  {
    hide Inv, Mem;
    ghost var c := cache.State();
    PinnedCount(c, blocks);
    PickSucceeds(c, b1, {});
    first := FetchFirst(cache, b1);
    SecondPick(c, cache.State(), first, b2, blocks);
    second := FetchNext(cache, b2, first);
  }

  method FetchFirst(cache: BCache, b1: nat) returns (i: nat)
    requires cache.Valid() && Quiet(cache.State()) && b1 < |cache.disk| && Pick(cache.State(), ROOTDEV, b1) < NBUF
    modifies cache`bufs
    ensures cache.Valid() && i < NBUF && cache.bufs == old(cache.bufs)[i := cache.bufs[i]]
    ensures Fetched(old(cache.bufs[i]), cache.bufs[i], b1)
    ensures (old(Reusable(cache.bufs[i])) || old(cache.bufs[i].blockno) == b1)
    ensures Mem(cache.State()) == old(Mem(cache.State())) && cache.bufs[i].data == Mem(cache.State())[b1]
  {
    hide Mem;
    i := cache.Bread(b1);
  }

  method FetchNext(cache: BCache, b2: nat, ghost first: nat) returns (i: nat)
    requires cache.Valid() && b2 < |cache.disk| && Pick(cache.State(), ROOTDEV, b2) < NBUF
    requires first < NBUF && cache.bufs[first].blockno != b2 && HeldOnce(cache.bufs[first])
    requires forall j :: 0 <= j < NBUF && j != first ==> cache.bufs[j].refcnt == 0
    modifies cache`bufs
    ensures cache.Valid() && i < NBUF && i != first && cache.bufs == old(cache.bufs)[i := cache.bufs[i]]
    ensures Fetched(old(cache.bufs[i]), cache.bufs[i], b2)
    ensures Mem(cache.State()) == old(Mem(cache.State())) && cache.bufs[i].data == Mem(cache.State())[b2]
  {
    hide Mem;
    i := cache.Bread(b2);
  }

  // What the pins are after dst was written back.
  predicate PinnedBut(c: Cache, blocks: seq<nat>, dst: nat) {
    && (forall i :: 0 <= i < |c.bufs| && c.bufs[i].dirty ==> c.bufs[i].blockno in blocks && c.bufs[i].blockno != dst)
    && (forall k :: 0 <= k < |blocks| && blocks[k] != dst ==> DirtyCopy(c, blocks[k]))
  }

  lemma CopyPins(c: Cache, r: Cache, from: nat, to: nat, bf: Buf, bt: Buf, src: nat, dst: nat, blocks: seq<nat>)
    requires Inv(c) && Inv(r) && Pinned(c, blocks) && |r.bufs| == |c.bufs| && from < |c.bufs| && to < |c.bufs|
    requires from != to
    requires src != dst && Fetched(c.bufs[from], bf, src) && Fetched(c.bufs[to], bt, dst)
    requires exists x :: r.bufs == c.bufs[from := Freed(bf)][to := Freed(bt).(dirty := false, data := x)]
    ensures PinnedBut(r, blocks, dst)
  {
    forall i | 0 <= i < |r.bufs| && r.bufs[i].dirty
      ensures r.bufs[i].blockno in blocks && r.bufs[i].blockno != dst
    {
      assert i != to && c.bufs[i].dirty && r.bufs[i].blockno == c.bufs[i].blockno;
      assert Tagged(r.bufs[to], ROOTDEV, dst);
    }
    forall k | 0 <= k < |blocks| && blocks[k] != dst
      ensures DirtyCopy(r, blocks[k])
    {
      assert DirtyCopy(c, blocks[k]);
      var i :| 0 <= i < |c.bufs| && Tagged(c.bufs[i], ROOTDEV, blocks[k]) && c.bufs[i].dirty;
      assert i != to && r.bufs[i].dirty && Tagged(r.bufs[i], ROOTDEV, blocks[k]);
    }
  }

  // Transfer on two fetched buffers of a cache that was quiet in state c.
  method CopyFetched(cache: BCache, from: nat, to: nat, src: nat, dst: nat, ghost c: Cache, ghost blocks: seq<nat>)
    requires cache.Valid() && Inv(c) && Quiet(c) && Pinned(c, blocks) && |c.bufs| == NBUF
    requires from < NBUF && to < NBUF && from != to && src != dst && cache.unsaved == {}
    requires cache.bufs == c.bufs[from := cache.bufs[from]][to := cache.bufs[to]]
    requires Fetched(c.bufs[from], cache.bufs[from], src) && Fetched(c.bufs[to], cache.bufs[to], dst)
    modifies cache
    ensures cache.Valid() && Quiet(cache.State()) && PinnedBut(cache.State(), blocks, dst)
    ensures var x := old(cache.bufs[from].data);
            && dst < |old(cache.disk)|
            && Mem(cache.State()) == old(Mem(cache.State()))[dst := x]
            && cache.trace == old(cache.trace) + [Write(dst, x)]
  {
    hide Inv, Mem;
    ghost var bf, bt := cache.bufs[from], cache.bufs[to];
    Transfer(cache, from, to);
    ghost var r := cache.State();
    assert r.bufs == c.bufs[from := Freed(bf)][to := Freed(bt).(dirty := false, data := bf.data)];
    assert Inv(r);
    CopyPins(c, r, from, to, bf, bt, src, dst, blocks);
  }

  // The bio.c calls by which write_log and install_trans copy block src to block dst: the log
  // block is read first, then the home block, and the copy goes to disk before both are released.
  method CopyBlock(cache: BCache, src: nat, dst: nat, srcFirst: bool, ghost blocks: seq<nat>)
    requires cache.Valid() && Quiet(cache.State()) && Pinned(cache.State(), blocks)
    requires src != dst && src < |cache.disk| && dst < |cache.disk|
    requires |blocks| + 1 < NBUF || (|blocks| < NBUF && (if srcFirst then dst else src) in blocks)
    modifies cache
    ensures cache.Valid() && Quiet(cache.State()) && PinnedBut(cache.State(), blocks, dst)
    ensures var x := old(Mem(cache.State()))[src];
            && Mem(cache.State()) == old(Mem(cache.State()))[dst := x]
            && cache.trace == old(cache.trace) + [Write(dst, x)]
  {
    hide Inv, Mem;
    ghost var c := cache.State();
    QuietSaved(c);
    if srcFirst {
      var from, to := FetchPair(cache, src, dst, blocks);
      CopyFetched(cache, from, to, src, dst, c, blocks);
    } else {
      var to, from := FetchPair(cache, dst, src, blocks);
      CopyFetched(cache, from, to, src, dst, c, blocks);
    }
  }

  lemma QuietSaved(c: Cache)
    requires Inv(c) && Quiet(c)
    ensures c.unsaved == {}
  {
    forall i
      ensures i !in c.unsaved
    {
      assert 0 <= i < |c.bufs| ==> BufOk(c.bufs[i], c.disk, i in c.unsaved);
    }
  }

  // ---------- rewriting one block ----------

  // Store, bwrite and brelse on one locked buffer.
  lemma RewriteEffect(c: Cache, i: nat, x: Block)
    requires Inv(c) && i < |c.bufs| && HeldOnce(c.bufs[i]) && c.unsaved == {}
    ensures Enabled(c, Store(i, x))
    ensures var c1 := Next(c, Store(i, x));
            Enabled(c1, Bwrite(i)) &&
            var c2 := Next(c1, Bwrite(i));
            Enabled(c2, Release(i)) &&
            var c3 := Next(c2, Release(i));
            && c3.unsaved == {}
            && c3.bufs == c.bufs[i := Freed(c.bufs[i]).(dirty := false, data := x)]
            && Mem(c3) == Mem(c)[c.bufs[i].blockno := x]
  {
    var steps := [Store(i, x), Bwrite(i), Release(i)];
    var c1 := Next(c, steps[0]);
    StepKeepsInv(c, steps[0]);
    StepMem(c, steps[0]);
    var c2 := Next(c1, steps[1]);
    StepKeepsInv(c1, steps[1]);
    StepMem(c1, steps[1]);
    StepMem(c2, steps[2]);
  }

  method Rewrite(cache: BCache, i: nat, x: Block)
    requires cache.Valid() && i < NBUF && HeldOnce(cache.bufs[i]) && cache.unsaved == {}
    modifies cache
    ensures cache.Valid()
    ensures var b := old(cache.bufs);
            && cache.bufs == b[i := Freed(b[i]).(dirty := false, data := x)]
            && Mem(cache.State()) == old(Mem(cache.State()))[b[i].blockno := x]
            && cache.trace == old(cache.trace) + [Write(b[i].blockno, x)]
  {
    hide Inv, Mem;
    RewriteEffect(cache.State(), i, x);
    cache.StoreData(i, x);
    cache.WriteBlock(i);
    cache.Brelse(i);
  }

  lemma RewritePins(c: Cache, r: Cache, i: nat, b: Buf, bno: nat, blocks: seq<nat>)
    requires Inv(c) && Inv(r) && Pinned(c, blocks) && |r.bufs| == |c.bufs| && i < |c.bufs| && bno !in blocks
    requires Fetched(c.bufs[i], b, bno)
    requires exists x :: r.bufs == c.bufs[i := Freed(b).(dirty := false, data := x)]
    ensures Pinned(r, blocks)
  {
    forall k | 0 <= k < |blocks|
      ensures DirtyCopy(r, blocks[k])
    {
      assert DirtyCopy(c, blocks[k]);
      var j :| 0 <= j < |c.bufs| && Tagged(c.bufs[j], ROOTDEV, blocks[k]) && c.bufs[j].dirty;
      assert r.bufs[j] == c.bufs[j];
    }
  }

  // Installing a prefix of the transaction leaves every log block alone.
  lemma {:induction false} InstallFrame<T>(l: Layout, blocks: seq<nat>, m: seq<T>, k: nat, b: nat)
    requires Loggable(l, blocks, |m|) && k <= |blocks| && l.Holds(b)
    ensures Apply(m, InstallWrites(l, blocks, m)[..k])[b] == m[b]
  {
    ApplyFrame(m, InstallWrites(l, blocks, m)[..k], b);
  }

  // write_log reads no log block, so each round copies what the cache showed at the start.
  lemma {:induction false} LogNth(l: Layout, blocks: seq<nat>, m: Disk, k: nat)
    requires Loggable(l, blocks, |m|) && k < |blocks|
    ensures |LogWrites(l, blocks, m)| == |blocks| && Fits(LogWrites(l, blocks, m), |m|)
    ensures var w := LogWrites(l, blocks, m)[k];
            && w == Write(l.start + k + 1, Apply(m, LogWrites(l, blocks, m)[..k])[blocks[k]])
            && Apply(m, LogWrites(l, blocks, m)[..k + 1]) == Apply(m, LogWrites(l, blocks, m)[..k])[w.bno := w.data]
  {
    var ws := LogWrites(l, blocks, m);
    LogWritesEffect(l, blocks, m, m, k);
    assert !l.Holds(blocks[k]);
    assert ws[..k + 1] == ws[..k] + [ws[k]];
    ApplyLast(m, ws[..k], ws[k]);
  }

  // The next write of install_trans copies what its log block shows at that moment.
  lemma {:induction false} InstallNth<T>(l: Layout, blocks: seq<nat>, m: seq<T>, k: nat)
    requires Loggable(l, blocks, |m|) && k < |blocks|
    ensures |InstallWrites(l, blocks, m)| == |blocks| && Fits(InstallWrites(l, blocks, m), |m|)
    ensures var w := InstallWrites(l, blocks, m)[k];
            && w == Write(blocks[k], Apply(m, InstallWrites(l, blocks, m)[..k])[l.start + k + 1])
            && Apply(m, InstallWrites(l, blocks, m)[..k + 1]) ==
               Apply(m, InstallWrites(l, blocks, m)[..k])[w.bno := w.data]
  {
    var ws := InstallWrites(l, blocks, m);
    InstallFrame(l, blocks, m, k, l.start + k + 1);
    assert ws[..k + 1] == ws[..k] + [ws[k]];
    ApplyLast(m, ws[..k], ws[k]);
  }

  // With m the cache contents when commit() starts, its first two phases write m's copies and the
  // header, and the other two are a recovery of what the cache then shows.
  lemma CommitComposes(l: Layout, blocks: seq<nat>, m: Disk)
    requires CommitReady(l, blocks, m, m) && blocks != []
    ensures var m1 := Apply(m, LogWrites(l, blocks, m));
            && m1[l.start] == m[l.start]
            && var m2 := m1[l.start := EncodeHead(m[l.start], blocks)];
               CommitWrites(l, blocks, m) ==
                 LogWrites(l, blocks, m) + [Write(l.start, m2[l.start])] + RecoverWrites(l, blocks, m2)
  {
    var n := |blocks|;
    assert LogWrites(l, blocks, m)[..n] == LogWrites(l, blocks, m);
    LogWritesEffect(l, blocks, m, m, n);
    CommitShape(l, blocks, m, m);
  }

  // Stop the machine when the disk it booted from has received the first j writes of a trace whose
  // commit started after `base` writes and logs n blocks: the disk ends up as d or as m.
  ghost predicate SurvivesCut(l: Layout, boot: Disk, trace: seq<Write<Block>>, j: nat, cuts: seq<nat>,
                              base: nat, n: nat, d: Disk, m: Disk)
    requires Fits(trace, |boot|)
  {
    j <= |trace| && Survives(l, Apply(boot, trace[..j]), cuts, if j <= base + n then d else m)
  }

  ghost predicate AtomicCommit(l: Layout, boot: Disk, trace: seq<Write<Block>>, base: nat, n: nat, d: Disk, m: Disk)
    requires Fits(trace, |boot|)
  {
    forall j: nat, cuts: seq<nat> :: base <= j <= |trace| ==> SurvivesCut(l, boot, trace, j, cuts, base, n, d, m)
  }

  lemma {:induction false} CutSurvives(l: Layout, blocks: seq<nat>, m: Disk, d: Disk, boot: Disk,
                                       base: seq<Write<Block>>, j: nat, cuts: seq<nat>)
    requires CommitReady(l, blocks, m, d) && Fits(base, |boot|) && d == Apply(boot, base)
    requires |base| <= j <= |base + CommitWrites(l, blocks, m)|
    ensures SurvivesCut(l, boot, base + CommitWrites(l, blocks, m), j, cuts, |base|, |blocks|, d, m)
  {
    var ws, k := CommitWrites(l, blocks, m), j - |base|;
    assert (base + ws)[..j] == base + ws[..k];
    ApplyConcat(boot, base, ws[..k]);
    CrashAtomicity(l, blocks, m, d, k, cuts);
  }

  lemma {:induction false} TraceSurvives(l: Layout, blocks: seq<nat>, m: Disk, d: Disk, boot: Disk,
          base: seq<Write<Block>>)
    requires CommitReady(l, blocks, m, d) && Fits(base, |boot|) && d == Apply(boot, base)
    ensures Fits(base + CommitWrites(l, blocks, m), |boot|)
    ensures AtomicCommit(l, boot, base + CommitWrites(l, blocks, m), |base|, |blocks|, d, m)
  {
    var trace := base + CommitWrites(l, blocks, m);
    assert Fits(trace, |boot|);
    forall j: nat, cuts: seq<nat> | |base| <= j <= |trace|
      ensures SurvivesCut(l, boot, trace, j, cuts, |base|, |blocks|, d, m)
    {
      CutSurvives(l, blocks, m, d, boot, base, j, cuts);
    }
  }

  lemma {:induction false} TraceCompletes(l: Layout, blocks: seq<nat>, m: Disk, d: Disk, boot: Disk,
          base: seq<Write<Block>>)
    requires CommitReady(l, blocks, m, d) && Fits(base, |boot|) && d == Apply(boot, base)
    ensures Fits(base + CommitWrites(l, blocks, m), |boot|)
    ensures Names(l, Apply(boot, base + CommitWrites(l, blocks, m)), [])
    ensures SameHome(l, Apply(boot, base + CommitWrites(l, blocks, m)), m)
  {
    var ws := CommitWrites(l, blocks, m);
    ApplyConcat(boot, base, ws);
    CommitCompletes(l, blocks, m, d);
  }

  lemma PrefixStep<T>(pre: seq<T>, ws: seq<T>, k: nat)
    requires k < |ws|
    ensures ws[..k + 1][..k] == ws[..k] && pre + ws[..k + 1] == pre + ws[..k] + [ws[k]]
  {
  }

  // The pins left when the first one is gone.
  function Left(pins: seq<nat>): (r: seq<nat>) { if pins == [] then [] else pins[1..] }

  // Writing back the first pinned block leaves the others pinned.
  lemma {:induction false} Unpin(c: Cache, pins: seq<nat>, dst: nat)
    requires PinnedBut(c, pins, dst) && (pins != [] ==> Distinct(pins) && pins[0] == dst)
    ensures Pinned(c, Left(pins))
  {
    var rest := Left(pins);
    forall j | 0 <= j < |rest|
      ensures DirtyCopy(c, rest[j])
    {
      assert rest[j] == pins[j + 1];
    }
  }

  // The home block of a round of install_trans, and the pins before it.
  lemma {:induction false} HomeBlock(l: Layout, blocks: seq<nat>, size: nat, tail: nat, pins: seq<nat>)
    requires Loggable(l, blocks, size) && tail < |blocks| && (pins == blocks[tail..] || pins == [])
    ensures !l.Holds(blocks[tail]) && l.Holds(l.start + tail + 1) && l.start + tail + 1 < size && blocks[tail] < size
    ensures pins != [] ==> Distinct(pins) && pins[0] == blocks[tail] && blocks[tail] in pins
    ensures forall k :: 0 <= k < |pins| ==> !l.Holds(pins[k])
    ensures forall k :: 0 <= k < |Left(pins)| ==> !l.Holds(Left(pins)[k])
  {
    forall k | 0 <= k < |pins|
      ensures pins[k] == blocks[tail + k] && !l.Holds(pins[k])
    {
    }
  }

  // bread, copy the data out, brelse.
  method ReadOnce(cache: BCache, bno: nat) returns (x: Block)
    requires cache.Valid() && Quiet(cache.State()) && Pinned(cache.State(), []) && bno < |cache.disk|
    modifies cache
    ensures cache.Valid() && Quiet(cache.State()) && Pinned(cache.State(), [])
    ensures Mem(cache.State()) == old(Mem(cache.State())) && cache.trace == old(cache.trace)
    ensures x == old(cache.disk[bno])
  {
    hide Inv, Mem;
    ghost var c := cache.State();
    CleanView(c, []);
    PinnedCount(c, []);
    PickSucceeds(c, bno, {});
    QuietSaved(c);
    var i := FetchFirst(cache, bno);
    x := cache.bufs[i].data;
    StepMem(cache.State(), Release(i));
    cache.Brelse(i);
  }

  // The rounds of write_head's loop, and what they start from and lead to.
  lemma HeadStart(data: Block, blocks: seq<nat>)
    requires Encodable(blocks)
    ensures var first := PutWordSpec(data, 0, |blocks|);
            PutWords(first, blocks, 0) == first && PutWords(first, blocks, |blocks|) == EncodeHead(data, blocks)
  {
  }

  lemma HeadRound(first: Block, blocks: seq<nat>, k: nat)
    requires Encodable(blocks) && k < |blocks|
    ensures PutWords(first, blocks, k + 1) == PutWordSpec(PutWords(first, blocks, k), k + 1, blocks[k])
  {
  }

  // ---------- struct log ----------

  class Log {
    const cache: BCache
    const l: Layout
    const block: array<nat> // lh.block
    var n: nat              // lh.n
    var outstanding: nat
    var committing: bool

    constructor (cache: BCache, l: Layout)
      ensures this.cache == cache && this.l == l && fresh(block) && block.Length == LOGSIZE
      ensures n == 0 && outstanding == 0 && !committing
    {
      this.cache, this.l := cache, l;
      block := new nat[LOGSIZE](_ => 0);
      n, outstanding, committing := 0, 0, false;
    }

    ghost predicate Valid()
      reads this, block
    {
      block.Length == LOGSIZE && n <= LOGSIZE
    }

    ghost function Blocks(): (r: seq<nat>)
      requires Valid()
      reads this, block
    {
      block[..n]
    }

    // The log can copy `pins` (the dirty blocks) and its transaction without running out of buffers.
    ghost predicate Ready(pins: seq<nat>)
      reads this, block, cache
    {
      && Valid() && cache.Valid() && Quiet(cache.State()) && Pinned(cache.State(), pins)
      && Loggable(l, Blocks(), |cache.disk|) && |pins| < NBUF
      && (forall k :: 0 <= k < |pins| ==> !l.Holds(pins[k]))
    }

    // write_head: bread the header block, overwrite the count and the block numbers, bwrite it.
    method WriteHead(ghost pins: seq<nat>)
      requires Ready(pins)
      modifies cache
      ensures Ready(pins)
      ensures var head := EncodeHead(old(Mem(cache.State()))[l.start], Blocks());
              && Mem(cache.State()) == old(Mem(cache.State()))[l.start := head]
              && cache.trace == old(cache.trace) + [Write(l.start, head)]
    {
      hide Inv, Mem;
      ghost var c := cache.State();
      QuietSaved(c);
      PinnedCount(c, pins);
      PickSucceeds(c, l.start, {});
      var i := FetchFirst(cache, l.start);
      ghost var b := cache.bufs[i];
      var head := FillHead(cache.bufs[i].data);
      Rewrite(cache, i, head);
      ghost var r := cache.State();
      assert r.bufs == c.bufs[i := Freed(b).(dirty := false, data := head)];
      RewritePins(c, r, i, b, l.start, pins);
    }

    // The loop of write_head on the data of the header buffer.
    method FillHead(data: Block) returns (head: Block)
      requires Valid() && Encodable(Blocks())
      ensures head == EncodeHead(data, Blocks())
    {
      hide Inv, Mem, PutWords, PutWordSpec, EncodeHead, GetWord;
      head := PutWordSpec(data, 0, n);
      ghost var first := head;
      HeadStart(data, Blocks());
      for k := 0 to n
        invariant head == PutWords(first, Blocks(), k)
      {
        HeadRound(first, Blocks(), k);
        head := PutWordSpec(head, k + 1, block[k]);
      }
    }

    // One round of write_log.
    method CopyToLog(tail: nat, ghost w: Write<Block>)
      requires Valid() && Ready(Blocks()) && tail < n && w == Write(l.start + tail + 1, Mem(cache.State())[block[tail]])
      modifies cache
      ensures Ready(Blocks())
      ensures Mem(cache.State()) == old(Mem(cache.State()))[w.bno := w.data]
      ensures cache.trace == old(cache.trace) + [w]
    {
      hide Inv, Mem;
      assert !l.Holds(Blocks()[tail]);
      CopyBlock(cache, block[tail], l.start + tail + 1, false, Blocks());
    }

    // The same round, seen from the start of the loop: m is what the cache showed then.
    method LogRound(tail: nat, ghost m: Disk, ghost base: seq<Write<Block>>)
      requires Valid() && tail < n && Ready(Blocks()) && |m| == |cache.disk|
      requires Mem(cache.State()) == Apply(m, LogWrites(l, Blocks(), m)[..tail])
      requires cache.trace == base + LogWrites(l, Blocks(), m)[..tail]
      modifies cache
      ensures Ready(Blocks())
      ensures Mem(cache.State()) == Apply(m, LogWrites(l, Blocks(), m)[..tail + 1])
      ensures cache.trace == base + LogWrites(l, Blocks(), m)[..tail + 1]
    {
      hide Inv, Mem, Quiet, Pinned, Apply;
      ghost var ws := LogWrites(l, Blocks(), m);
      LogNth(l, Blocks(), m, tail);
      PrefixStep(base, ws, tail);
      CopyToLog(tail, ws[tail]);
    }

    // write_log: each modified block goes from the cache to its log block.
    method WriteLog()
      requires Valid() && Ready(Blocks())
      modifies cache
      ensures Ready(Blocks())
      ensures var ws := LogWrites(l, Blocks(), old(Mem(cache.State())));
              && Mem(cache.State()) == Apply(old(Mem(cache.State())), ws)
              && cache.trace == old(cache.trace) + ws
    {
      hide Inv, Mem;
      ghost var m, base := Mem(cache.State()), cache.trace;
      ghost var ws := LogWrites(l, Blocks(), m);
      for tail := 0 to n
        invariant Ready(Blocks())
        invariant Mem(cache.State()) == Apply(m, ws[..tail])
        invariant cache.trace == base + ws[..tail]
      {
        LogRound(tail, m, base);
      }
      assert ws[..n] == ws;
    }

    // One round of install_trans, when the blocks from `tail` on are pinned, or none.
    method CopyHome(tail: nat, ghost pins: seq<nat>, ghost w: Write<Block>)
      requires Valid() && tail < n && l.start + tail + 1 < |cache.disk| && w.bno < |cache.disk|
      requires w.bno == block[tail] && w.data == Mem(cache.State())[l.start + tail + 1]
      requires (pins == Blocks()[tail..] || pins == []) && Ready(pins)
      modifies cache
      ensures Ready(Left(pins))
      ensures Mem(cache.State()) == old(Mem(cache.State()))[w.bno := w.data]
      ensures cache.trace == old(cache.trace) + [w]
    {
      hide Inv, Mem, Quiet, Pinned, PinnedBut, Loggable;
      HomeBlock(l, Blocks(), |cache.disk|, tail, pins);
      CopyBlock(cache, l.start + tail + 1, block[tail], true, pins);
      Unpin(cache.State(), pins, block[tail]);
    }

    // install_trans: each log block goes to its home location. In commit the home blocks are still
    // pinned and each copy unpins one; in recovery nothing is pinned.
    method InstallTrans(ghost pinned: seq<nat>)
      requires Valid() && Ready(pinned) && (pinned == Blocks() || pinned == [])
      modifies cache
      ensures Ready([])
      ensures var ws := InstallWrites(l, Blocks(), old(Mem(cache.State())));
              && Mem(cache.State()) == Apply(old(Mem(cache.State())), ws)
              && cache.trace == old(cache.trace) + ws
    {
      hide Inv, Mem, Quiet, Pinned;
      ghost var m, pins, base := Mem(cache.State()), pinned, cache.trace;
      ghost var ws := InstallWrites(l, Blocks(), m);
      for tail := 0 to n
        invariant Ready(pins) && (pins == Blocks()[tail..] || pins == [])
        invariant Mem(cache.State()) == Apply(m, ws[..tail])
        invariant cache.trace == base + ws[..tail]
      {
        InstallRound(tail, pins, m, base);
        pins := Left(pins);
      }
      assert ws[..n] == ws;
    }

    // The same round, seen from the start of the loop: m is what the cache showed then.
    method InstallRound(tail: nat, ghost pins: seq<nat>, ghost m: Disk, ghost base: seq<Write<Block>>)
      requires Valid() && tail < n && Ready(pins) && (pins == Blocks()[tail..] || pins == []) && |m| == |cache.disk|
      requires Mem(cache.State()) == Apply(m, InstallWrites(l, Blocks(), m)[..tail])
      requires cache.trace == base + InstallWrites(l, Blocks(), m)[..tail]
      modifies cache
      ensures Ready(Left(pins))
      ensures Mem(cache.State()) == Apply(m, InstallWrites(l, Blocks(), m)[..tail + 1])
      ensures cache.trace == base + InstallWrites(l, Blocks(), m)[..tail + 1]
    {
      hide Inv, Mem, Quiet, Pinned, Apply;
      ghost var ws := InstallWrites(l, Blocks(), m);
      InstallNth(l, Blocks(), m, tail);
      PrefixStep(base, ws, tail);
      CopyHome(tail, pins, ws[tail]);
    }

    // The first half of commit(): write_log, then the header write that commits.
    method LogAndCommit()
      requires Valid() && Ready(Blocks())
      requires Apply(Mem(cache.State()), LogWrites(l, Blocks(), Mem(cache.State())))[l.start] ==
               Mem(cache.State())[l.start]
      modifies cache
      ensures Ready(Blocks())
      ensures var m, ws := old(Mem(cache.State())), LogWrites(l, Blocks(), old(Mem(cache.State())));
              var head := EncodeHead(m[l.start], Blocks());
              && Mem(cache.State()) == Apply(m, ws)[l.start := head]
              && cache.trace == old(cache.trace) + (ws + [Write(l.start, head)])
    {
      hide Inv, Mem;
      ghost var m := Mem(cache.State());
      ghost var ws := LogWrites(l, Blocks(), m);
      WriteLog();
      WriteHead(Blocks());
      Assoc(old(cache.trace), ws, [Write(l.start, EncodeHead(m[l.start], Blocks()))]);
    }

    // The second half, and all of recovery after read_head: install_trans, then clear the header.
    method InstallAndClear(ghost pinned: seq<nat>)
      requires Valid() && Ready(pinned) && (pinned == Blocks() || pinned == [])
      modifies this`n, cache
      ensures Ready([]) && n == 0
      ensures cache.trace == old(cache.trace) + RecoverWrites(l, old(Blocks()), old(Mem(cache.State())))
    {
      hide Inv, Mem;
      ghost var blocks, m := Blocks(), Mem(cache.State());
      InstallTrans(pinned);
      assert InstallWrites(l, blocks, m)[..|blocks|] == InstallWrites(l, blocks, m);
      InstallFrame(l, blocks, m, |blocks|, l.start);
      n := 0;
      WriteHead([]);
      Assoc(old(cache.trace), InstallWrites(l, blocks, m), [Write(l.start, EncodeHead(m[l.start], []))]);
    }

    // commit: write the log, write the header, install, erase.
    method Commit()
      requires Valid() && Ready(Blocks()) && Names(l, cache.disk, [])
      modifies this`n, cache
      ensures Ready([]) && n == 0
      ensures cache.trace == old(cache.trace) + CommitWrites(l, old(Blocks()), old(Mem(cache.State())))
    {
      hide Inv, Mem;
      ghost var blocks, m := Blocks(), Mem(cache.State());
      if n > 0 {
        assert CommitReady(l, blocks, m, m) by { CleanView(cache.State(), blocks); }
        CommitComposes(l, blocks, m);
        LogAndCommit();
        ghost var first := LogWrites(l, blocks, m) + [Write(l.start, EncodeHead(m[l.start], blocks))];
        ghost var m2 := Mem(cache.State());
        InstallAndClear(blocks);
        Assoc(old(cache.trace), first, RecoverWrites(l, blocks, m2));
      }
    }

    // What commit() promises its callers: the transaction is on disk and the log empty when it
    // returns, and a crash after any k of its writes, with any number of interrupted recoveries,
    // ends with all of the transaction or none of it.
    method CommitAtomically()
      requires Valid() && Ready(Blocks()) && Names(l, cache.disk, [])
      modifies this`n, cache
      ensures Ready([]) && n == 0 && Names(l, cache.disk, []) && SameHome(l, cache.disk, old(Mem(cache.State())))
      ensures AtomicCommit(l, cache.boot, cache.trace, |old(cache.trace)|, |old(Blocks())|,
                           old(cache.disk), old(Mem(cache.State())))
    {
      hide Inv, Mem;
      ghost var blocks, m := Blocks(), Mem(cache.State());
      assert CommitReady(l, blocks, m, cache.disk) by { CleanView(cache.State(), blocks); }
      TraceSurvives(l, blocks, m, cache.disk, cache.boot, cache.trace);
      TraceCompletes(l, blocks, m, cache.disk, cache.boot, cache.trace);
      Commit();
    }

    // read_head: the header block on disk becomes the in-memory header.
    method ReadHead()
      requires Valid() && cache.Valid() && Quiet(cache.State()) && Pinned(cache.State(), [])
      requires l.start < |cache.disk| && HasHeader(cache.disk[l.start])
      modifies this`n, block, cache
      ensures Valid() && Blocks() == DecodeHead(old(cache.disk[l.start]))
      ensures cache.Valid() && Quiet(cache.State()) && Pinned(cache.State(), [])
      ensures Mem(cache.State()) == old(Mem(cache.State())) && cache.trace == old(cache.trace)
    {
      hide Inv, Mem;
      var head := ReadOnce(cache, l.start);
      n := GetWord(head, 0);
      for k := 0 to n
        invariant n == GetWord(head, 0)
        invariant forall j :: 0 <= j < k ==> block[j] == GetWord(head, j + 1)
        modifies block
      {
        block[k] := GetWord(head, k + 1);
      }
    }

    // recover_from_log, at boot: nothing is dirty and the cache shows the disk.
    method RecoverFromLog()
      requires Valid() && cache.Valid() && Quiet(cache.State()) && Pinned(cache.State(), [])
      requires exists blocks :: Names(l, cache.disk, blocks)
      modifies this`n, block, cache
      ensures Ready([]) && n == 0
      ensures forall blocks :: Names(l, old(cache.disk), blocks) ==>
                cache.trace == old(cache.trace) + RecoverWrites(l, blocks, old(cache.disk))
    {
      hide Inv, Mem;
      CleanView(cache.State(), []);
      assert Mem(cache.State()) == cache.disk;
      ReadHead();
      InstallAndClear([]);
    }

    // ---------- begin_op, log_write, end_op ----------

    // The counters as one state of the reservation machine.
    ghost predicate Matches(s: R.State)
      reads this, block
    {
      Valid() && s.blocks == Blocks() && s.outstanding == outstanding && s.committing == committing
    }

    // One trip through the loop of begin_op: false means sleep and try again.
    method TryBegin(ghost s: R.State, ghost p: nat) returns (ok: bool)
      requires Matches(s) && p < |s.procs| && s.procs[p] == R.Outside
      modifies this`outstanding
      ensures ok <==> !old(committing) && old(n) + (old(outstanding) + 1) * MAXOPBLOCKS <= LOGSIZE
      ensures outstanding == old(outstanding) + if ok then 1 else 0
      ensures ok == R.Enabled(s, R.Begin(p), l.size)
      ensures Matches(if ok then R.Next(s, R.Begin(p), l.size) else s)
    {
      hide Inv, Mem;
      if committing {
        ok := false;
      } else if n + (outstanding + 1) * MAXOPBLOCKS > LOGSIZE {
        ok := false;
      } else {
        outstanding := outstanding + 1;
        ok := true;
      }
    }

    // The guard of log_write: false stands for a panic.
    method PassesGuard(ghost s: R.State) returns (ok: bool)
      requires Matches(s)
      ensures ok <==> n < LOGSIZE && n < l.size - 1 && outstanding >= 1
      ensures ok == !R.GuardPanics(s, l.size)
    {
      hide Inv, Mem;
      ok := !(n >= LOGSIZE || n >= l.size - 1) && !(outstanding < 1);
    }

    // log_write under log.lock: absorb or append, and pin the buffer.
    method Append(i: nat, ghost s: R.State, ghost p: nat)
      requires cache.Valid() && Enabled(cache.State(), LogWrite(i))
      requires Matches(s) && R.Inv(s) && R.Enabled(s, R.Append(p), l.size)
      requires s.procs[p].passed.bno == cache.bufs[i].blockno
      modifies this`n, block, cache`bufs, cache`unsaved
      ensures Matches(R.Next(s, R.Append(p), l.size))
      ensures var b := old(cache.bufs[i].blockno);
              Blocks() == if b in old(Blocks()) then old(Blocks()) else old(Blocks()) + [b]
      ensures cache.Valid() && cache.State() == Next(old(cache.State()), LogWrite(i))
    {
      hide Inv, Mem;
      R.ReservedAtLeast(s.procs, p);
      var b := cache.bufs[i].blockno;
      var k := 0;
      while k < n && block[k] != b
        invariant 0 <= k <= n && b !in block[..k]
      {
        k := k + 1;
      }
      if k < n { assert b == Blocks()[k]; }
      block[k] := b;
      if k == n { n := n + 1; }
      cache.MarkDirty(i);
    }

    // end_op under log.lock: the last call out is told to commit.
    method End(ghost s: R.State, ghost p: nat) returns (doCommit: bool)
      requires Matches(s) && !committing && R.Enabled(s, R.End(p), l.size)
      modifies this`outstanding, this`committing
      ensures outstanding == old(outstanding) - 1 && (doCommit <==> outstanding == 0) && (committing <==> doCommit)
      ensures Matches(R.Next(s, R.End(p), l.size))
      ensures doCommit <==> R.Next(s, R.End(p), l.size).procs[p] == R.Committer
    {
      hide Inv, Mem;
      outstanding := outstanding - 1;
      doCommit := false;
      if outstanding == 0 {
        doCommit := true;
        committing := true;
      }
    }
  }
}
