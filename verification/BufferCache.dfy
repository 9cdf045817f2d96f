// The buffer cache of bio.c over the atomic block disk of memide.c: the cache as a value, its
// atomic steps, and what every interleaving of those steps shows to the callers of bread.

module BufferCache {
  import opened Blocks

  const ROOTDEV := 1

  // struct buf without its list links. `locked` is the sleep lock.
  datatype Buf = Buf(dev: nat, blockno: nat, valid: bool, dirty: bool, refcnt: nat, locked: bool, data: Block)

  // lru lists the buffers from most to least recently released (bcache.head.next first).
  // unsaved holds the buffers whose holder has changed the data and not yet passed them to
  // log_write or bwrite.
  datatype Cache = Cache(bufs: seq<Buf>, lru: seq<nat>, disk: Disk, unsaved: set<nat>)

  datatype Step =
    | Get(dev: nat, bno: nat)         // bget up to release(&bcache.lock)
    | Lock(i: nat)                    // acquiresleep
    | Fill(i: nat)                    // iderw on a buffer without B_VALID
    | Store(i: nat, data: Block)      // the holder changes b->data
    | LogWrite(i: nat)                // log_write sets B_DIRTY
    | Bwrite(i: nat)                  // bwrite: iderw with B_DIRTY
    | Release(i: nat)                 // brelse

  predicate Tagged(b: Buf, dev: nat, bno: nat) { b.dev == dev && b.blockno == bno }

  predicate Reusable(b: Buf) { b.refcnt == 0 && !b.dirty }

  predicate InBufs(c: Cache) { forall k :: 0 <= k < |c.lru| ==> c.lru[k] < |c.bufs| }

  // The first buffer tagged (dev, bno) in list order from position k, or NBUF when there is none.
  function FindFrom(bufs: seq<Buf>, lru: seq<nat>, dev: nat, bno: nat, k: nat): (i: nat)
    requires k <= |lru| && forall j :: 0 <= j < |lru| ==> lru[j] < |bufs|
    ensures i < |bufs| ==> Tagged(bufs[i], dev, bno)
    ensures i >= |bufs| ==> forall j :: k <= j < |lru| ==> !Tagged(bufs[lru[j]], dev, bno)
    decreases |lru| - k
  {
    if k == |lru| then |bufs|
    else if Tagged(bufs[lru[k]], dev, bno) then lru[k]
    else FindFrom(bufs, lru, dev, bno, k + 1)
  }

  // The least recently released reusable buffer among the first k, or |bufs| when there is none.
  function VictimAmong(bufs: seq<Buf>, lru: seq<nat>, k: nat): (i: nat)
    requires k <= |lru| && forall j :: 0 <= j < |lru| ==> lru[j] < |bufs|
    ensures i < |bufs| ==> Reusable(bufs[i])
    ensures i >= |bufs| ==> forall j :: 0 <= j < k ==> !Reusable(bufs[lru[j]])
  {
    if k == 0 then |bufs|
    else if Reusable(bufs[lru[k - 1]]) then lru[k - 1]
    else VictimAmong(bufs, lru, k - 1)
  }

  // The buffer found is the first one tagged in list order.
  lemma {:induction false} FindFirst(bufs: seq<Buf>, lru: seq<nat>, dev: nat, bno: nat, k: nat) returns (p: nat)
    requires k <= |lru| && forall j :: 0 <= j < |lru| ==> lru[j] < |bufs|
    requires FindFrom(bufs, lru, dev, bno, k) < |bufs|
    ensures k <= p < |lru| && lru[p] == FindFrom(bufs, lru, dev, bno, k) && Tagged(bufs[lru[p]], dev, bno)
    ensures forall j :: k <= j < p ==> !Tagged(bufs[lru[j]], dev, bno)
    decreases |lru| - k
  {
    p := k;
    if !Tagged(bufs[lru[k]], dev, bno) { p := FindFirst(bufs, lru, dev, bno, k + 1); }
  }

  // The victim is the reusable buffer released longest ago: every one behind it in the list is busy or dirty.
  lemma {:induction false} VictimLast(bufs: seq<Buf>, lru: seq<nat>, k: nat) returns (p: nat)
    requires k <= |lru| && forall j :: 0 <= j < |lru| ==> lru[j] < |bufs|
    requires VictimAmong(bufs, lru, k) < |bufs|
    ensures p < k && lru[p] == VictimAmong(bufs, lru, k) && Reusable(bufs[lru[p]])
    ensures forall j :: p < j < k ==> !Reusable(bufs[lru[j]])
  {
    p := k - 1;
    if !Reusable(bufs[lru[k - 1]]) { p := VictimLast(bufs, lru, k - 1); }
  }

  // The buffer bget settles on; |bufs| stands for the panic "bget: no buffers".
  function Pick(c: Cache, dev: nat, bno: nat): (i: nat)
    requires InBufs(c)
    ensures i < |c.bufs| ==> Tagged(c.bufs[i], dev, bno) || Reusable(c.bufs[i])
  {
    var hit := FindFrom(c.bufs, c.lru, dev, bno, 0);
    if hit < |c.bufs| then hit else VictimAmong(c.bufs, c.lru, |c.lru|)
  }

  // lru with i moved to the front.
  function MoveToFront(lru: seq<nat>, i: nat): (r: seq<nat>) {
    [i] + Without(lru, i)
  }

  function Without(lru: seq<nat>, i: nat): (r: seq<nat>) {
    if lru == [] then []
    else if lru[0] == i then lru[1..]
    else [lru[0]] + Without(lru[1..], i)
  }

  predicate Enabled(c: Cache, step: Step) {
    match step
    case Get(dev, bno) => InBufs(c) && dev == ROOTDEV && bno < |c.disk| && Pick(c, dev, bno) < |c.bufs|
    case Lock(i) => i < |c.bufs| && !c.bufs[i].locked && c.bufs[i].refcnt > 0
    case Fill(i) =>
      && i < |c.bufs| && c.bufs[i].locked && !c.bufs[i].valid && !c.bufs[i].dirty
      && c.bufs[i].dev == ROOTDEV && c.bufs[i].blockno < |c.disk|
    case Store(i, data) => i < |c.bufs| && c.bufs[i].locked && c.bufs[i].valid
    case LogWrite(i) => i < |c.bufs| && c.bufs[i].locked && c.bufs[i].valid
    case Bwrite(i) =>
      && i < |c.bufs| && c.bufs[i].locked && c.bufs[i].valid
      && c.bufs[i].dev == ROOTDEV && c.bufs[i].blockno < |c.disk|
    case Release(i) => i < |c.bufs| && c.bufs[i].locked && c.bufs[i].refcnt > 0 && i !in c.unsaved
  }

  function Next(c: Cache, step: Step): (r: Cache)
    requires Enabled(c, step)
  {
    match step
    case Get(dev, bno) =>
      var i := Pick(c, dev, bno);
      var b := c.bufs[i];
      c.(bufs := c.bufs[i :=
        if Tagged(b, dev, bno) then b.(refcnt := b.refcnt + 1)
        else b.(dev := dev, blockno := bno, valid := false, dirty := false, refcnt := 1)])
    case Lock(i) => c.(bufs := c.bufs[i := c.bufs[i].(locked := true)])
    case Fill(i) => c.(bufs := c.bufs[i := c.bufs[i].(valid := true, data := c.disk[c.bufs[i].blockno])])
    case Store(i, data) => c.(bufs := c.bufs[i := c.bufs[i].(data := data)], unsaved := c.unsaved + {i})
    case LogWrite(i) => c.(bufs := c.bufs[i := c.bufs[i].(dirty := true)], unsaved := c.unsaved - {i})
    case Bwrite(i) =>
      Cache(c.bufs[i := c.bufs[i].(dirty := false)], c.lru,
            c.disk[c.bufs[i].blockno := c.bufs[i].data], c.unsaved - {i})
    case Release(i) =>
      var b := c.bufs[i];
      Cache(c.bufs[i := b.(refcnt := b.refcnt - 1, locked := false)],
            if b.refcnt == 1 then MoveToFront(c.lru, i) else c.lru, c.disk, c.unsaved)
  }

  // ---------- the invariant ----------

  predicate IsOrder(lru: seq<nat>, n: nat) {
    && |lru| == n
    && (forall k :: 0 <= k < n ==> lru[k] < n)
    && (forall j, k :: 0 <= j < k < n ==> lru[j] != lru[k])
    && (forall i :: 0 <= i < n ==> i in lru)
  }

  // Each block of a real device (dev 0 tags never-used buffers) has at most one buffer.
  predicate Unique(bufs: seq<Buf>) {
    forall i, j :: 0 <= i < j < |bufs| && bufs[i].dev != 0 ==> !Tagged(bufs[j], bufs[i].dev, bufs[i].blockno)
  }

  predicate BufOk(b: Buf, disk: Disk, unsaved: bool) {
    && (b.locked ==> b.refcnt > 0)
    && ((b.dirty || unsaved) ==> b.valid)
    && (unsaved ==> b.locked)
    && (b.valid || b.refcnt > 0 ==> b.dev == ROOTDEV && b.blockno < |disk|)
    && (b.valid && !b.dirty && !unsaved ==> b.data == disk[b.blockno])
  }

  predicate Inv(c: Cache) {
    && IsOrder(c.lru, |c.bufs|)
    && Unique(c.bufs)
    && (forall i :: 0 <= i < |c.bufs| ==> BufOk(c.bufs[i], c.disk, i in c.unsaved))
    && (forall i :: i in c.unsaved ==> i < |c.bufs|)
  }

  // ---------- what bread shows ----------

  // The index of the buffer that holds block b, or |bufs|.
  function Where(bufs: seq<Buf>, b: nat): (i: nat)
    ensures i <= |bufs|
    ensures i < |bufs| ==> Tagged(bufs[i], ROOTDEV, b)
    ensures i == |bufs| ==> forall j :: 0 <= j < |bufs| ==> !Tagged(bufs[j], ROOTDEV, b)
  {
    if bufs == [] then 0
    else
      var n := |bufs| - 1;
      var i := Where(bufs[..n], b);
      if i < n then i else if Tagged(bufs[n], ROOTDEV, b) then n else n + 1
  }

  // The contents of block b as seen through the cache.
  function View(c: Cache, b: nat): (r: Block)
    requires b < |c.disk|
  {
    var i := Where(c.bufs, b);
    if i < |c.bufs| && c.bufs[i].valid then c.bufs[i].data else c.disk[b]
  }

  function Mem(c: Cache): (m: Disk)
    ensures |m| == |c.disk|
  {
    seq(|c.disk|, b requires 0 <= b < |c.disk| => View(c, b))
  }

  lemma WhereUnique(c: Cache, i: nat)
    requires Unique(c.bufs) && i < |c.bufs| && c.bufs[i].dev == ROOTDEV
    ensures Where(c.bufs, c.bufs[i].blockno) == i
  {
  }

  // A locked, filled buffer holds exactly what the cache shows for its block: bread is the view.
  lemma HolderSeesView(c: Cache, i: nat)
    requires Inv(c) && i < |c.bufs| && c.bufs[i].valid
    ensures c.bufs[i].data == View(c, c.bufs[i].blockno)
  {
    WhereUnique(c, i);
  }

  // ---------- every step keeps the invariant ----------

  // Replacing one buffer by a well-formed one with the same tag.
  lemma SameTag(c: Cache, i: nat, b: Buf, unsaved: set<nat>)
    requires Inv(c) && i < |c.bufs| && Tagged(b, c.bufs[i].dev, c.bufs[i].blockno)
    requires unsaved - {i} == c.unsaved - {i} && BufOk(b, c.disk, i in unsaved)
    ensures Inv(c.(bufs := c.bufs[i := b], unsaved := unsaved))
  {
    var r := c.(bufs := c.bufs[i := b], unsaved := unsaved);
    forall j | 0 <= j < |r.bufs|
      ensures BufOk(r.bufs[j], r.disk, j in r.unsaved)
    {
      assert j != i ==> (j in unsaved <==> j in c.unsaved - {i});
    }
    forall j | j in unsaved
      ensures j < |r.bufs|
    {
      assert j != i ==> j in c.unsaved - {i};
    }
  }

  lemma {:induction false} InLru(c: Cache, i: nat)
    requires Inv(c) && i < |c.bufs|
    ensures exists k :: 0 <= k < |c.lru| && c.lru[k] == i
  {
    assert i in c.lru;
  }

  // bget hands out a buffer for the block without creating a second one.
  lemma GetKeepsInv(c: Cache, dev: nat, bno: nat)
    requires Inv(c) && Enabled(c, Get(dev, bno))
    ensures Inv(Next(c, Get(dev, bno)))
  {
    var i := Pick(c, dev, bno);
    var r := Next(c, Get(dev, bno));
    if Tagged(c.bufs[i], dev, bno) {
      SameTag(c, i, r.bufs[i], c.unsaved);
    } else {
      assert forall j :: 0 <= j < |c.lru| ==> !Tagged(c.bufs[c.lru[j]], dev, bno);
      forall j | 0 <= j < |c.bufs|
        ensures !Tagged(c.bufs[j], dev, bno)
      {
        InLru(c, j);
      }
      assert Reusable(c.bufs[i]);
      assert i !in c.unsaved;
    }
  }

  lemma BwriteKeepsInv(c: Cache, i: nat)
    requires Inv(c) && Enabled(c, Bwrite(i))
    ensures Inv(Next(c, Bwrite(i)))
  {
    var r := Next(c, Bwrite(i));
    forall j | 0 <= j < |r.bufs|
      ensures BufOk(r.bufs[j], r.disk, j in r.unsaved)
    {
      if j != i {
        assert !(c.bufs[j].dev == ROOTDEV && c.bufs[j].blockno == c.bufs[i].blockno);
      }
    }
  }

  lemma {:induction false} WithoutMembers(lru: seq<nat>, i: nat)
    requires forall j, k :: 0 <= j < k < |lru| ==> lru[j] != lru[k]
    ensures i in lru ==> |Without(lru, i)| == |lru| - 1
    ensures forall x :: x in Without(lru, i) <==> x in lru && x != i
    ensures forall j, k :: 0 <= j < k < |Without(lru, i)| ==> Without(lru, i)[j] != Without(lru, i)[k]
  {
    if lru != [] {
      assert forall x :: x in lru <==> x == lru[0] || x in lru[1..];
      assert lru[0] !in lru[1..];
      if lru[0] != i {
        WithoutMembers(lru[1..], i);
        var w := Without(lru[1..], i);
        assert lru[0] !in w;
        assert forall x :: x in [lru[0]] + w <==> x == lru[0] || x in w;
      }
    }
  }

  lemma MoveKeepsOrder(lru: seq<nat>, n: nat, i: nat)
    requires IsOrder(lru, n) && i < n
    ensures IsOrder(MoveToFront(lru, i), n)
  {
    WithoutMembers(lru, i);
    var r := MoveToFront(lru, i);
    var w := Without(lru, i);
    assert i !in w;
    forall k | 0 <= k < n
      ensures r[k] < n
    {
      assert k > 0 ==> w[k - 1] in w;
    }
    forall x | 0 <= x < n
      ensures x in r
    {
      assert x == i || x in w;
    }
  }

  // a comes before b in the list: it is nearer to the most recently used end.
  predicate Ahead(lru: seq<nat>, a: nat, b: nat) {
    exists p, q :: 0 <= p < q < |lru| && lru[p] == a && lru[q] == b
  }

  lemma {:induction false} WithoutAhead(lru: seq<nat>, i: nat, a: nat, b: nat)
    requires (forall j, k :: 0 <= j < k < |lru| ==> lru[j] != lru[k]) && a != i && b != i
    ensures Ahead(Without(lru, i), a, b) <==> Ahead(lru, a, b)
  {
    if lru != [] {
      ConsAhead(lru[0], lru[1..], a, b);
      assert [lru[0]] + lru[1..] == lru;
      if lru[0] != i {
        WithoutAhead(lru[1..], i, a, b);
        ConsAhead(lru[0], Without(lru[1..], i), a, b);
        WithoutMembers(lru[1..], i);
      }
    }
  }

  lemma {:induction false} ConsAhead(x: nat, lru: seq<nat>, a: nat, b: nat)
    ensures Ahead([x] + lru, a, b) <==> (x == a && b in lru) || Ahead(lru, a, b)
  {
    var r := [x] + lru;
    if Ahead(r, a, b) {
      var p, q :| 0 <= p < q < |r| && r[p] == a && r[q] == b;
      assert lru[q - 1] == b;
      if p > 0 { assert lru[p - 1] == a; }
    }
    if x == a && b in lru {
      var q :| 0 <= q < |lru| && lru[q] == b;
      assert r[0] == a && r[q + 1] == b;
    }
    if Ahead(lru, a, b) {
      var p, q :| 0 <= p < q < |lru| && lru[p] == a && lru[q] == b;
      assert r[p + 1] == a && r[q + 1] == b;
    }
  }

  // r is the list with i in front and all others in the order they had.
  ghost predicate InFront(r: seq<nat>, lru: seq<nat>, i: nat) {
    |r| == |lru| && r != [] && r[0] == i && forall a, b :: a != i && b != i ==> (Ahead(r, a, b) <==> Ahead(lru, a, b))
  }

  // A release that drops the last reference makes the buffer the most recently used one and keeps the order of
  // all others; any other release leaves the list as it was.
  lemma {:induction false} ReleaseOrder(c: Cache, i: nat)
    requires Inv(c) && Enabled(c, Release(i))
    ensures var r := Next(c, Release(i)).lru;
            if c.bufs[i].refcnt == 1 then InFront(r, c.lru, i) else r == c.lru
  {
    if c.bufs[i].refcnt == 1 {
      var r := Next(c, Release(i)).lru;
      WithoutMembers(c.lru, i);
      forall a: nat, b: nat | a != i && b != i
        ensures Ahead(r, a, b) <==> Ahead(c.lru, a, b)
      {
        ConsAhead(i, Without(c.lru, i), a, b);
        WithoutAhead(c.lru, i, a, b);
      }
    }
  }

  lemma ReleaseKeepsInv(c: Cache, i: nat)
    requires Inv(c) && Enabled(c, Release(i))
    ensures Inv(Next(c, Release(i)))
  {
    SameTag(c, i, Next(c, Release(i)).bufs[i], c.unsaved);
    MoveKeepsOrder(c.lru, |c.bufs|, i);
  }

  lemma StepKeepsInv(c: Cache, step: Step)
    requires Inv(c) && Enabled(c, step)
    ensures Inv(Next(c, step))
  {
    var r := Next(c, step);
    match step {
      case Get(dev, bno) => GetKeepsInv(c, dev, bno);
      case Lock(i) => SameTag(c, i, r.bufs[i], r.unsaved);
      case Fill(i) => SameTag(c, i, r.bufs[i], r.unsaved);
      case Store(i, data) => SameTag(c, i, r.bufs[i], r.unsaved);
      case LogWrite(i) => SameTag(c, i, r.bufs[i], r.unsaved);
      case Bwrite(i) => BwriteKeepsInv(c, i);
      case Release(i) => ReleaseKeepsInv(c, i);
    }
  }

  // ---------- transparency ----------

  // What a holder's change does to the contents of the blocks.
  function Stored(m: Disk, c: Cache, step: Step): (r: Disk)
    requires |m| == |c.disk| && Enabled(c, step)
    requires Inv(c)
  {
    match step
    case Store(i, data) => m[c.bufs[i].blockno := data]
    case _ => m
  }

  lemma GetKeepsView(c: Cache, dev: nat, bno: nat, b: nat)
    requires Inv(c) && Enabled(c, Get(dev, bno)) && b < |c.disk|
    ensures View(Next(c, Get(dev, bno)), b) == View(c, b)
  {
    var i := Pick(c, dev, bno);
    var r := Next(c, Get(dev, bno));
    GetKeepsInv(c, dev, bno);
    var w := Where(c.bufs, b);
    if w < |c.bufs| && w != i {
      assert r.bufs[w] == c.bufs[w];
      WhereUnique(r, w);
    } else if w == i && !Tagged(c.bufs[i], dev, bno) {
      assert Reusable(c.bufs[i]);
    }
  }

  lemma SameTagView(c: Cache, r: Cache, i: nat, b: nat)
    requires Inv(c) && Inv(r) && i < |c.bufs| && |r.disk| == |c.disk| && b < |c.disk|
    requires |r.bufs| == |c.bufs| && r.bufs == c.bufs[i := r.bufs[i]]
    requires Tagged(r.bufs[i], c.bufs[i].dev, c.bufs[i].blockno)
    requires b != c.bufs[i].blockno ==> r.disk[b] == c.disk[b]
    ensures Where(r.bufs, b) == Where(c.bufs, b)
    ensures b != c.bufs[i].blockno || (c.bufs[i].dev != ROOTDEV && r.disk == c.disk) ==> View(r, b) == View(c, b)
    ensures c.bufs[i].dev == ROOTDEV && b == c.bufs[i].blockno && r.bufs[i].valid ==> View(r, b) == r.bufs[i].data
  {
    var w := Where(c.bufs, b);
    if w < |c.bufs| {
      assert Tagged(r.bufs[w], ROOTDEV, b);
      WhereUnique(r, w);
    } else {
      forall j | 0 <= j < |r.bufs|
        ensures !Tagged(r.bufs[j], ROOTDEV, b)
      {
        assert !Tagged(c.bufs[j], ROOTDEV, b);
      }
    }
    if c.bufs[i].dev == ROOTDEV && b == c.bufs[i].blockno {
      WhereUnique(c, i);
    }
  }

  // Only a holder's own change of the data alters what the cache shows; filling, logging,
  // writing back, releasing and recycling buffers are invisible.
  lemma StepView(c: Cache, step: Step, b: nat)
    requires Inv(c) && Enabled(c, step) && b < |c.disk|
    ensures |Next(c, step).disk| == |c.disk|
    ensures View(Next(c, step), b) == Stored(Mem(c), c, step)[b]
  {
    StepKeepsInv(c, step);
    var r := Next(c, step);
    if step.Get? {
      GetKeepsView(c, step.dev, step.bno, b);
    } else {
      var i := step.i;
      SameTagView(c, r, i, b);
      if c.bufs[i].valid { HolderSeesView(c, i); }
      if b == c.bufs[i].blockno {
        WhereUnique(c, i);
      }
    }
  }

  predicate CanRun(c: Cache, steps: seq<Step>)
    decreases |steps|
  {
    steps == [] || (Enabled(c, steps[0]) && CanRun(Next(c, steps[0]), steps[1..]))
  }

  function Run(c: Cache, steps: seq<Step>): (r: Cache)
    requires CanRun(c, steps)
    decreases |steps|
  {
    if steps == [] then c else Run(Next(c, steps[0]), steps[1..])
  }

  // The contents a caller would expect from the changes made during a run, with no cache at all.
  function Expected(m: Disk, c: Cache, steps: seq<Step>): (r: Disk)
    requires Inv(c) && CanRun(c, steps) && |m| == |c.disk|
    decreases |steps|
  {
    if steps == [] then m
    else
      StepKeepsInv(c, steps[0]);
      Expected(Stored(m, c, steps[0]), Next(c, steps[0]), steps[1..])
  }

  // CACHE TRANSPARENCY. After any interleaving of steps in which every changed buffer is logged or
  // written before it is released, each block shows the last contents stored for it, whatever
  // buffers were recycled on the way; and the invariant (at most one buffer a block, no dirty
  // buffer recycled) still holds.
  lemma {:induction false} Transparent(c: Cache, steps: seq<Step>)
    requires Inv(c) && CanRun(c, steps)
    ensures Inv(Run(c, steps))
    ensures Mem(Run(c, steps)) == Expected(Mem(c), c, steps)
    decreases |steps|
  {
    if steps != [] {
      var step := steps[0];
      StepKeepsInv(c, step);
      StepMem(c, step);
      Transparent(Next(c, step), steps[1..]);
    }
  }

  lemma StepMem(c: Cache, step: Step)
    requires Inv(c) && Enabled(c, step)
    ensures |Next(c, step).disk| == |c.disk|
    ensures Mem(Next(c, step)) == Stored(Mem(c), c, step)
  {
    forall b: nat | b < |c.disk|
      ensures View(Next(c, step), b) == Stored(Mem(c), c, step)[b]
    {
      StepView(c, step, b);
    }
    assert |Next(c, step).disk| == |c.disk|;
  }

  // A dirty buffer keeps its block and its B_DIRTY flag through every step except the bwrite of
  // that very buffer: it is never recycled.
  lemma DirtyStays(c: Cache, step: Step, i: nat)
    requires Inv(c) && Enabled(c, step) && i < |c.bufs| && c.bufs[i].dirty && step != Bwrite(i)
    ensures var b := Next(c, step).bufs[i]; b.dirty && Tagged(b, c.bufs[i].dev, c.bufs[i].blockno)
  {
  }
}
