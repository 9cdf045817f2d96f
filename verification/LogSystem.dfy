// The whole logging system over time: the buffer cache, the reservation counters and the on-disk log run
// together, through any number of transactions, readers, crashes and interrupted recoveries.

module LogSystem {
  import opened Common
  import opened Blocks
  import opened RedoLog
  import C = BufferCache
  import D = LogDriver
  import R = LogReservation

  // The commit in progress: what the cache showed and what the disk held when it began, and how many of
  // its block writes are done.
  datatype Commit = NoCommit | Writing(mem: Disk, disk: Disk, k: nat)

  // owner: the call that is changing each unsaved buffer. saved: the contents that a crash now would leave, by
  // the last header write; it is not in the code.
  datatype Sys = Sys(cache: C.Cache, log: R.State, owner: map<nat, nat>, commit: Commit, saved: Disk)

  datatype Step =
    | Begin(p: nat)                         // begin_op
    | Touch(step: C.Step)                   // bget, acquiresleep, a disk read or brelse, by a call or a reader
    | Change(p: nat, i: nat, data: Block)   // a call changes the buffer it holds
    | Guard(p: nat, i: nat)                 // log_write passes its guard
    | Log(p: nat, i: nat)                   // log_write records the block and pins the buffer
    | End(p: nat)                           // end_op; the last call out starts the commit
    | Flush(p: nat, i: nat)                 // the committer fills buffer i and writes it
    | Done(p: nat)                          // commit() returns
    | Finish(p: nat)                        // log.committing = 0
    | Crash(cuts: seq<nat>)                 // power fails; recoveries are cut short; one completes

  // ---------- what commit() writes next ----------

  // The k-th write, when the cache shows m: a copy into the log, the header, a copy home, the empty header.
  function NextWrite(l: Layout, blocks: seq<nat>, m: Disk, k: nat): (w: Blocks.Write<Block>)
    requires Loggable(l, blocks, |m|) && k < 2 * |blocks| + 2
  {
    var n := |blocks|;
    if k < n then Blocks.Write(l.start + 1 + k, m[blocks[k]])
    else if k == n then Blocks.Write(l.start, EncodeHead(m[l.start], blocks))
    else if k <= 2 * n then Blocks.Write(blocks[k - n - 1], m[l.start + 1 + (k - n - 1)])
    else Blocks.Write(l.start, EncodeHead(m[l.start], []))
  }

  lemma {:induction false} LogPart(l: Layout, blocks: seq<nat>, mem: Disk, k: nat)
    requires CommitReady(l, blocks, mem, mem) && blocks != [] && k <= |blocks|
    ensures NextWrite(l, blocks, Apply(mem, CommitWrites(l, blocks, mem)[..k]), k) == CommitWrites(l, blocks, mem)[k]
  {
    hide EncodeHead;
    CommitPrefix(l, blocks, mem, mem, k);
    LogWritesEffect(l, blocks, mem, mem, k);
  }

  // The log copies and the header, after j of the home blocks were written.
  lemma {:induction false} HomeArea(l: Layout, blocks: seq<nat>, mem: Disk, j: nat)
    requires CommitReady(l, blocks, mem, mem) && blocks != [] && j <= |blocks|
    ensures var e := CommitPoint(l, blocks, mem, mem);
            && j <= |RecoverWrites(l, blocks, e)|
            && var m := Apply(e, RecoverWrites(l, blocks, e)[..j]);
               && m[l.start] == EncodeHead(mem[l.start], blocks)
               && forall i :: 0 <= i < |blocks| ==> m[l.start + 1 + i] == mem[blocks[i]]
  {
    hide EncodeHead;
    var e := CommitPoint(l, blocks, mem, mem);
    AtCommitPoint(l, blocks, mem, mem);
    InstallKeeps(l, e, blocks, mem, j);
    assert RecoverWrites(l, blocks, e)[..j] == InstallWrites(l, blocks, e)[..j];
  }

  // The writes behind the header write.
  lemma {:induction false} HomeNth(l: Layout, blocks: seq<nat>, mem: Disk, k: nat)
    requires Loggable(l, blocks, |mem|) && blocks != [] && |blocks| < k < 2 * |blocks| + 2
    ensures k < |CommitWrites(l, blocks, mem)|
    ensures CommitWrites(l, blocks, mem)[k] ==
            if k <= 2 * |blocks| then Blocks.Write(blocks[k - |blocks| - 1], mem[blocks[k - |blocks| - 1]])
            else Blocks.Write(l.start, EncodeHead(EncodeHead(mem[l.start], blocks), []))
  {
    hide EncodeHead;
  }

  lemma {:induction false} HomePart(l: Layout, blocks: seq<nat>, mem: Disk, k: nat)
    requires CommitReady(l, blocks, mem, mem) && blocks != [] && |blocks| < k < 2 * |blocks| + 2
    ensures NextWrite(l, blocks, Apply(mem, CommitWrites(l, blocks, mem)[..k]), k) == CommitWrites(l, blocks, mem)[k]
  {
    hide EncodeHead, RecoverWrites, CommitWrites, CommitPoint, Apply, Names;
    HomeNth(l, blocks, mem, k);
    CommitPrefix(l, blocks, mem, mem, k);
    HomeArea(l, blocks, mem, k - |blocks| - 1);
  }

  // What the code copies at each step is what RedoLog says commit() writes.
  lemma NextWriteIs(l: Layout, blocks: seq<nat>, mem: Disk, k: nat)
    requires CommitReady(l, blocks, mem, mem) && k < |CommitWrites(l, blocks, mem)|
    ensures NextWrite(l, blocks, Apply(mem, CommitWrites(l, blocks, mem)[..k]), k) == CommitWrites(l, blocks, mem)[k]
  {
    if k <= |blocks| { LogPart(l, blocks, mem, k); } else { HomePart(l, blocks, mem, k); }
  }

  // ---------- recovery ----------

  // The disk after recoveries cut after cuts[0], cuts[1], ... writes and one that completes.
  function Recovered(l: Layout, d: Disk, cuts: seq<nat>): (r: Disk)
    requires l.start < |d|
    ensures |r| == |d|
    decreases |cuts|
  {
    if !HasHeader(d[l.start]) || !Loggable(l, DecodeHead(d[l.start]), |d|) then d
    else
      var ws := RecoverWrites(l, DecodeHead(d[l.start]), d);
      if cuts == [] then Apply(d, ws)
      else Recovered(l, Apply(d, ws[..if cuts[0] < |ws| then cuts[0] else |ws|]), cuts[1..])
  }

  lemma {:induction false} RecoveredDelivers(l: Layout, d: Disk, blocks: seq<nat>, cuts: seq<nat>, target: Disk)
    requires Promises(l, d, blocks, target)
    ensures SameHome(l, Recovered(l, d, cuts), target) && Names(l, Recovered(l, d, cuts), [])
    decreases |cuts|
  {
    hide DecodeHead, EncodeHead, RecoverWrites, Owes;
    var ws := RecoverWrites(l, blocks, d);
    if cuts == [] {
      RecoverDelivers(l, d, blocks, target);
    } else {
      var k := if cuts[0] < |ws| then cuts[0] else |ws|;
      CutKeepsPromise(l, d, blocks, target, k);
      RecoveredDelivers(l, Apply(d, ws[..k]), NamesAfter(blocks, k), cuts[1..], target);
    }
  }

  // ---------- the machine ----------

  // A log of any size, on a disk whose block numbers fit a word.
  predicate LayoutOk(l: Layout, size: nat) { l.size >= 1 && l.start + l.size <= size <= WORD }

  // What anybody does to the cache, calls and readers alike.
  predicate IsTouch(step: C.Step) { step.Get? || step.Lock? || step.Fill? || step.Release? }

  // The number of writes of commit() on this transaction.
  function Total(blocks: seq<nat>): (n: nat) { if blocks == [] then 0 else 2 * |blocks| + 2 }

  predicate HoldsBuf(c: C.Cache, i: nat, bno: nat) {
    i < |c.bufs| && c.bufs[i].locked && c.bufs[i].valid && C.Tagged(c.bufs[i], C.ROOTDEV, bno) && bno < |c.disk|
  }

  predicate Enabled(l: Layout, s: Sys, step: Step) {
    match step
    case Begin(p) => R.Enabled(s.log, R.Begin(p), l.size)
    case Touch(t) => IsTouch(t) && C.Enabled(s.cache, t)
    case Change(p, i, data) =>
      && R.IsActive(s.log, p) && C.Enabled(s.cache, C.Store(i, data)) && !l.Holds(s.cache.bufs[i].blockno)
      && (i in s.owner ==> s.owner[i] == p)
    case Guard(p, i) =>
      && i < |s.cache.bufs| && i in s.owner && s.owner[i] == p
      && R.Enabled(s.log, R.Guard(p, s.cache.bufs[i].blockno), l.size)
    case Log(p, i) =>
      && R.Enabled(s.log, R.Append(p), l.size) && C.Enabled(s.cache, C.LogWrite(i))
      && s.log.procs[p].passed == R.Passed(s.cache.bufs[i].blockno)
    case End(p) =>
      && R.Enabled(s.log, R.End(p), l.size) && (forall i :: i in s.owner ==> s.owner[i] != p)
      && (s.log.outstanding == 1 ==> |s.log.blocks| < l.size)
    case Flush(p, i) =>
      && p < |s.log.procs| && s.log.procs[p] == R.Committer && s.commit.Writing? && s.commit.k < Total(s.log.blocks)
      && Loggable(l, s.log.blocks, |s.cache.disk|)
      && HoldsBuf(s.cache, i, NextWrite(l, s.log.blocks, C.Mem(s.cache), s.commit.k).bno)
    case Done(p) =>
      R.Enabled(s.log, R.Committed(p), l.size) && s.commit.Writing? && s.commit.k == Total(s.log.blocks)
    case Finish(p) => R.Enabled(s.log, R.Finish(p), l.size) && s.commit.NoCommit?
    case Crash(_) => l.start < |s.cache.disk|
  }

  // binit after a reboot: no buffer holds anything.
  function FreshCache(n: nat, d: Disk): (c: C.Cache) {
    C.Cache(seq(n, _ => C.Buf(0, 0, false, false, 0, false, seq(BSIZE, _ => 0))),
            seq(n, k requires 0 <= k < n => n - 1 - k), d, {})
  }

  // The contents become safe with the header write, which is write number |blocks|.
  function SavedAfter(s: Sys): (d: Disk)
    requires s.commit.Writing?
  {
    if s.commit.k == |s.log.blocks| then s.commit.mem else s.saved
  }

  function WriteCache(c: C.Cache, i: nat, x: Block): (r: C.Cache)
    requires i < |c.bufs| && c.bufs[i].locked && c.bufs[i].valid && c.bufs[i].dev == C.ROOTDEV
    requires c.bufs[i].blockno < |c.disk|
  {
    C.Next(C.Next(c, C.Store(i, x)), C.Bwrite(i))
  }

  function Next(l: Layout, s: Sys, step: Step): (r: Sys)
    requires Enabled(l, s, step)
  {
    match step
    case Begin(p) => s.(log := R.Next(s.log, R.Begin(p), l.size))
    case Touch(t) => s.(cache := C.Next(s.cache, t))
    case Change(p, i, data) => s.(cache := C.Next(s.cache, C.Store(i, data)), owner := s.owner[i := p])
    case Guard(p, i) => s.(log := R.Next(s.log, R.Guard(p, s.cache.bufs[i].blockno), l.size))
    case Log(p, i) =>
      s.(log := R.Next(s.log, R.Append(p), l.size), cache := C.Next(s.cache, C.LogWrite(i)), owner := s.owner - {i})
    case End(p) =>
      var log := R.Next(s.log, R.End(p), l.size);
      s.(log := log, commit := if log.committing then Writing(C.Mem(s.cache), s.cache.disk, 0) else s.commit)
    case Flush(p, i) =>
      var w := NextWrite(l, s.log.blocks, C.Mem(s.cache), s.commit.k);
      s.(cache := WriteCache(s.cache, i, w.data), commit := s.commit.(k := s.commit.k + 1), saved := SavedAfter(s))
    case Done(p) => s.(log := R.Next(s.log, R.Committed(p), l.size), commit := NoCommit)
    case Finish(p) => s.(log := R.Next(s.log, R.Finish(p), l.size))
    case Crash(cuts) =>
      var d := Recovered(l, s.cache.disk, cuts);
      Sys(FreshCache(|s.cache.bufs|, d), R.Initial(|s.log.procs|), map[], NoCommit, s.saved)
  }

  // ---------- the invariant ----------

  // Every unsaved buffer belongs to an active call and holds a block outside the log.
  ghost predicate Changing(l: Layout, s: Sys) {
    && s.owner.Keys == s.cache.unsaved
    && (forall i :: i in s.owner ==>
          R.IsActive(s.log, s.owner[i]) && i < |s.cache.bufs| && !l.Holds(s.cache.bufs[i].blockno))
  }

  // Logged blocks, and those on their way into the log, are blocks of the disk outside the log.
  ghost predicate Homes(l: Layout, s: Sys) {
    && (forall k :: 0 <= k < |s.log.blocks| ==> s.log.blocks[k] < |s.cache.disk| && !l.Holds(s.log.blocks[k]))
    && (forall p :: 0 <= p < |s.log.procs| && s.log.procs[p].Active? && s.log.procs[p].passed.Passed? ==>
          s.log.procs[p].passed.bno < |s.cache.disk| && !l.Holds(s.log.procs[p].passed.bno))
  }

  // The blocks whose buffers are still pinned after k writes.
  function Left(blocks: seq<nat>, k: nat): (r: seq<nat>) {
    if k <= |blocks| + 1 then blocks else if k <= 2 * |blocks| + 1 then blocks[k - |blocks| - 1..] else []
  }

  // No commit is running: the log on disk is empty, and the disk holds the saved contents.
  ghost predicate Open(l: Layout, s: Sys) {
    && D.Pinned(s.cache, s.log.blocks) && Names(l, s.cache.disk, []) && SameHome(l, s.cache.disk, s.saved)
    && (s.log.committing ==> s.log.blocks == [])
  }

  // A commit is running: the disk and the cache have seen its first k writes.
  ghost predicate Busy(l: Layout, s: Sys)
    requires s.commit.Writing?
  {
    var blocks, mem, d, k := s.log.blocks, s.commit.mem, s.commit.disk, s.commit.k;
    && s.log.committing && s.cache.unsaved == {} && CommitReady(l, blocks, mem, d)
    && k <= |CommitWrites(l, blocks, mem)|
    && s.cache.disk == Apply(d, CommitWrites(l, blocks, mem)[..k])
    && C.Mem(s.cache) == Apply(mem, CommitWrites(l, blocks, mem)[..k])
    && D.Pinned(s.cache, Left(blocks, k)) && SameHome(l, s.saved, if k <= |blocks| then d else mem)
  }

  ghost predicate Inv(l: Layout, s: Sys) {
    && C.Inv(s.cache) && R.Inv(s.log) && LayoutOk(l, |s.cache.disk|) && |s.saved| == |s.cache.disk|
    && Changing(l, s) && Homes(l, s) && (if s.commit.Writing? then Busy(l, s) else Open(l, s))
  }

  // ---------- the cache ----------

  // No dirty or unsaved buffer loses its block, its contents or its flag to a touch.
  lemma {:induction false} TouchBufs(c: C.Cache, t: C.Step, i: nat)
    requires C.Inv(c) && IsTouch(t) && C.Enabled(c, t) && i < |c.bufs| && (c.bufs[i].dirty || i in c.unsaved)
    ensures var b := C.Next(c, t).bufs[i]; b.dirty == c.bufs[i].dirty && C.Tagged(b, c.bufs[i].dev, c.bufs[i].blockno)
  {
    assert C.BufOk(c.bufs[i], c.disk, i in c.unsaved);
  }

  // A touch dirties nothing.
  lemma {:induction false} TouchClean(c: C.Cache, t: C.Step, i: nat)
    requires C.Inv(c) && IsTouch(t) && C.Enabled(c, t) && i < |c.bufs| && C.Next(c, t).bufs[i].dirty
    ensures c.bufs[i].dirty
  {
  }

  lemma {:induction false} TouchFrame(c: C.Cache, t: C.Step)
    requires C.Inv(c) && IsTouch(t) && C.Enabled(c, t)
    ensures var r := C.Next(c, t);
            && C.Inv(r) && |r.bufs| == |c.bufs| && r.disk == c.disk && r.unsaved == c.unsaved && C.Mem(r) == C.Mem(c)
  {
    C.StepKeepsInv(c, t);
    C.StepMem(c, t);
  }

  lemma {:induction false} TouchPinned(c: C.Cache, t: C.Step, blocks: seq<nat>)
    requires C.Inv(c) && IsTouch(t) && C.Enabled(c, t) && D.Pinned(c, blocks)
    ensures D.Pinned(C.Next(c, t), blocks)
  {
    hide C.Inv, C.Next, C.Enabled;
    TouchFrame(c, t);
    var r := C.Next(c, t);
    forall i | 0 <= i < |r.bufs| && r.bufs[i].dirty
      ensures r.bufs[i].blockno in blocks
    {
      TouchClean(c, t, i);
      TouchBufs(c, t, i);
    }
    forall k | 0 <= k < |blocks|
      ensures D.DirtyCopy(r, blocks[k])
    {
      assert D.DirtyCopy(c, blocks[k]);
      var i: nat :| i < |c.bufs| && C.Tagged(c.bufs[i], C.ROOTDEV, blocks[k]) && c.bufs[i].dirty;
      TouchBufs(c, t, i);
    }
  }

  // With nothing unsaved, the cache differs from the disk only at the pinned blocks.
  lemma {:induction false} PinnedCached(c: C.Cache, blocks: seq<nat>)
    requires C.Inv(c) && c.unsaved == {} && D.Pinned(c, blocks)
    ensures Cached(blocks, C.Mem(c), c.disk)
  {
    forall b | 0 <= b < |c.disk| && b !in blocks
      ensures C.View(c, b) == c.disk[b]
    {
      var i := C.Where(c.bufs, b);
      assert i < |c.bufs| ==> C.BufOk(c.bufs[i], c.disk, i in c.unsaved);
    }
  }

  // The committer's write through a buffer it holds.
  lemma {:induction false} WriteFrame(c: C.Cache, i: nat, x: Block, bno: nat)
    requires C.Inv(c) && c.unsaved == {} && HoldsBuf(c, i, bno)
    ensures var r := WriteCache(c, i, x);
            && C.Inv(r) && r.unsaved == {} && r.bufs == c.bufs[i := c.bufs[i].(dirty := false, data := x)]
            && r.disk == c.disk[bno := x] && C.Mem(r) == C.Mem(c)[bno := x]
  {
    var c1 := C.Next(c, C.Store(i, x));
    C.StepKeepsInv(c, C.Store(i, x));
    C.StepMem(c, C.Store(i, x));
    C.StepKeepsInv(c1, C.Bwrite(i));
    C.StepMem(c1, C.Bwrite(i));
  }

  // Writing a block that is not pinned leaves the pins; writing the first pinned one leaves the others.
  lemma {:induction false} WritePinned(c: C.Cache, r: C.Cache, i: nat, bno: nat, pins: seq<nat>, left: seq<nat>)
    requires C.Inv(c) && i < |c.bufs| && C.Tagged(c.bufs[i], C.ROOTDEV, bno) && D.Pinned(c, pins) && Distinct(pins)
    requires |r.bufs| == |c.bufs| && r.bufs == c.bufs[i := r.bufs[i]] && !r.bufs[i].dirty
    requires C.Tagged(r.bufs[i], C.ROOTDEV, bno)
    requires if bno in pins then pins != [] && pins[0] == bno && left == pins[1..] else left == pins
    ensures D.Pinned(r, left)
  {
    forall j | 0 <= j < |r.bufs| && r.bufs[j].dirty
      ensures r.bufs[j].blockno in left
    {
      assert j != i && c.bufs[j].dirty && c.bufs[j].blockno in pins;
      assert C.BufOk(c.bufs[j], c.disk, j in c.unsaved);
      assert c.bufs[j].blockno != bno;
    }
    forall k | 0 <= k < |left|
      ensures D.DirtyCopy(r, left[k])
    {
      var o := if bno in pins then k + 1 else k;
      assert left[k] == pins[o] && D.DirtyCopy(c, pins[o]);
      var j :| 0 <= j < |c.bufs| && C.Tagged(c.bufs[j], C.ROOTDEV, pins[o]) && c.bufs[j].dirty;
      assert j != i && C.Tagged(r.bufs[j], C.ROOTDEV, left[k]) && r.bufs[j].dirty;
    }
  }

  // Which pins the k-th write releases.
  lemma {:induction false} LeftStep(l: Layout, blocks: seq<nat>, m: Disk, k: nat)
    requires Loggable(l, blocks, |m|) && k < Total(blocks)
    ensures var pins, left, bno := Left(blocks, k), Left(blocks, k + 1), NextWrite(l, blocks, m, k).bno;
            && Distinct(pins)
            && if bno in pins then pins != [] && pins[0] == bno && left == pins[1..] else left == pins
  {
    hide EncodeHead;
    var n := |blocks|;
    var pins := Left(blocks, k);
    forall i | 0 <= i < |pins|
      ensures pins[i] in blocks && !l.Holds(pins[i])
    {
    }
    if n < k <= 2 * n {
      assert pins[0] == blocks[k - n - 1];
    }
  }

  lemma FreshInv(n: nat, d: Disk)
    ensures C.Inv(FreshCache(n, d)) && C.Mem(FreshCache(n, d)) == d && D.Pinned(FreshCache(n, d), [])
  {
    var c := FreshCache(n, d);
    forall i | 0 <= i < n
      ensures i in c.lru
    {
      assert c.lru[n - 1 - i] == i;
    }
  }

  // ---------- every step keeps the invariant ----------

  lemma {:induction false} TouchKeeps(l: Layout, s: Sys, t: C.Step)
    requires Inv(l, s) && Enabled(l, s, Touch(t))
    ensures Inv(l, Next(l, s, Touch(t)))
  {
    hide C.Inv, R.Inv, D.Pinned, CommitWrites, CommitReady, C.Next, C.Enabled, Names;
    TouchFrame(s.cache, t);
    TouchPinned(s.cache, t, if s.commit.Writing? then Left(s.log.blocks, s.commit.k) else s.log.blocks);
    forall i | i in s.owner
      ensures C.Next(s.cache, t).bufs[i].blockno == s.cache.bufs[i].blockno
    {
      TouchBufs(s.cache, t, i);
    }
  }

  // While a call is active no commit runs.
  lemma {:induction false} ActiveOpen(l: Layout, s: Sys, p: nat)
    requires Inv(l, s) && R.IsActive(s.log, p)
    ensures s.commit == NoCommit && !s.log.committing && s.log.outstanding > 0
  {
    R.NoCalls(s.log.procs);
  }

  lemma {:induction false} StorePinned(c: C.Cache, i: nat, data: Block, blocks: seq<nat>)
    requires C.Enabled(c, C.Store(i, data)) && D.Pinned(c, blocks)
    ensures D.Pinned(C.Next(c, C.Store(i, data)), blocks)
  {
    var r := C.Next(c, C.Store(i, data));
    forall k | 0 <= k < |blocks|
      ensures D.DirtyCopy(r, blocks[k])
    {
      assert D.DirtyCopy(c, blocks[k]);
      var j :| 0 <= j < |c.bufs| && C.Tagged(c.bufs[j], C.ROOTDEV, blocks[k]) && c.bufs[j].dirty;
      assert C.Tagged(r.bufs[j], C.ROOTDEV, blocks[k]) && r.bufs[j].dirty;
    }
  }

  lemma {:induction false} ChangeKeeps(l: Layout, s: Sys, p: nat, i: nat, data: Block)
    requires Inv(l, s) && Enabled(l, s, Change(p, i, data))
    ensures Inv(l, Next(l, s, Change(p, i, data)))
  {
    hide C.Inv, R.Inv, D.Pinned, Names, SameHome;
    ActiveOpen(l, s, p);
    C.StepKeepsInv(s.cache, C.Store(i, data));
    StorePinned(s.cache, i, data, s.log.blocks);
    assert s.owner[i := p].Keys == s.cache.unsaved + {i};
  }

  // Steps of the counters alone.
  lemma {:induction false} CountKeeps(l: Layout, s: Sys, log: R.State)
    requires Inv(l, s) && s.commit == NoCommit && R.Inv(log) && log.blocks == s.log.blocks
    requires |log.procs| == |s.log.procs|
    requires log.committing ==> log.blocks == []
    requires forall i :: i in s.owner ==> R.IsActive(log, s.owner[i])
    requires forall p :: 0 <= p < |log.procs| && log.procs[p].Active? && log.procs[p].passed.Passed? ==>
               log.procs[p].passed.bno < |s.cache.disk| && !l.Holds(log.procs[p].passed.bno)
    ensures Inv(l, s.(log := log))
  {
  }

  lemma {:induction false} BeginKeeps(l: Layout, s: Sys, p: nat)
    requires Inv(l, s) && Enabled(l, s, Begin(p))
    ensures Inv(l, Next(l, s, Begin(p)))
  {
    R.StepKeepsInv(s.log, R.Begin(p), l.size);
    CountKeeps(l, s, R.Next(s.log, R.Begin(p), l.size));
  }

  lemma {:induction false} GuardKeeps(l: Layout, s: Sys, p: nat, i: nat)
    requires Inv(l, s) && Enabled(l, s, Guard(p, i))
    ensures Inv(l, Next(l, s, Guard(p, i)))
  {
    ActiveOpen(l, s, p);
    var b := s.cache.bufs[i].blockno;
    assert C.BufOk(s.cache.bufs[i], s.cache.disk, i in s.cache.unsaved);
    R.StepKeepsInv(s.log, R.Guard(p, b), l.size);
    CountKeeps(l, s, R.Next(s.log, R.Guard(p, b), l.size));
  }

  lemma {:induction false} FinishKeeps(l: Layout, s: Sys, p: nat)
    requires Inv(l, s) && Enabled(l, s, Finish(p))
    ensures Inv(l, Next(l, s, Finish(p)))
  {
    R.StepKeepsInv(s.log, R.Finish(p), l.size);
    CountKeeps(l, s, R.Next(s.log, R.Finish(p), l.size));
  }

  // The logged block's buffer is pinned, and the transaction names it.
  lemma {:induction false} LogPinned(c: C.Cache, i: nat, blocks: seq<nat>, more: seq<nat>)
    requires C.Inv(c) && C.Enabled(c, C.LogWrite(i)) && D.Pinned(c, blocks)
    requires more == (if c.bufs[i].blockno in blocks then blocks else blocks + [c.bufs[i].blockno])
    ensures D.Pinned(C.Next(c, C.LogWrite(i)), more)
  {
    var r, b := C.Next(c, C.LogWrite(i)), c.bufs[i].blockno;
    assert C.BufOk(c.bufs[i], c.disk, i in c.unsaved);
    assert C.Tagged(r.bufs[i], C.ROOTDEV, b) && r.bufs[i].dirty;
    forall k | 0 <= k < |more|
      ensures D.DirtyCopy(r, more[k])
    {
      if more[k] != b {
        assert D.DirtyCopy(c, blocks[k]);
        var j :| 0 <= j < |c.bufs| && C.Tagged(c.bufs[j], C.ROOTDEV, blocks[k]) && c.bufs[j].dirty;
        assert C.Tagged(r.bufs[j], C.ROOTDEV, more[k]) && r.bufs[j].dirty;
      }
    }
  }

  lemma {:induction false} LogKeeps(l: Layout, s: Sys, p: nat, i: nat)
    requires Inv(l, s) && Enabled(l, s, Log(p, i))
    ensures Inv(l, Next(l, s, Log(p, i)))
  {
    hide C.Inv, R.Inv, D.Pinned, Names, SameHome;
    ActiveOpen(l, s, p);
    R.StepKeepsInv(s.log, R.Append(p), l.size);
    C.StepKeepsInv(s.cache, C.LogWrite(i));
    LogPinned(s.cache, i, s.log.blocks, R.Next(s.log, R.Append(p), l.size).blocks);
    assert (s.owner - {i}).Keys == s.cache.unsaved - {i};
  }

  lemma {:induction false} OneCall(procs: seq<R.Proc>, p: nat, q: nat)
    requires p < |procs| && q < |procs| && procs[p].Active? && procs[q].Active? && R.Calls(procs) == 1
    ensures p == q
  {
    if p != q {
      var rest := procs[p := R.Outside];
      assert rest[q].Active?;
      R.UpdateCounts(procs, p, R.Outside);
      R.NoCalls(rest);
    }
  }

  // The transaction when the last call ends: nothing is unsaved, and the log can hold it.
  lemma {:induction false} EndReady(l: Layout, s: Sys, p: nat)
    requires Inv(l, s) && Enabled(l, s, End(p)) && s.log.outstanding == 1
    ensures s.cache.unsaved == {} && CommitReady(l, s.log.blocks, C.Mem(s.cache), s.cache.disk)
  {
    hide C.Inv, Names;
    ActiveOpen(l, s, p);
    forall i | i in s.owner
      ensures false
    {
      OneCall(s.log.procs, p, s.owner[i]);
    }
    assert s.cache.unsaved == {};
    PinnedCached(s.cache, s.log.blocks);
  }

  // The last call can always end in a log of more than LOGSIZE blocks. In a smaller one the run stops where
  // two calls have raced past the guard and the transaction does not fit.
  lemma EndFits(l: Layout, s: Sys, p: nat)
    requires Inv(l, s) && l.size > LOGSIZE && R.Enabled(s.log, R.End(p), l.size)
    ensures |s.log.blocks| < l.size
  {
  }

  lemma NothingWritten(l: Layout, blocks: seq<nat>, mem: Disk, d: Disk)
    requires CommitReady(l, blocks, mem, d)
    ensures Apply(d, CommitWrites(l, blocks, mem)[..0]) == d && Apply(mem, CommitWrites(l, blocks, mem)[..0]) == mem
  {
    assert CommitWrites(l, blocks, mem)[..0] == [];
  }

  lemma {:induction false} EndKeeps(l: Layout, s: Sys, p: nat)
    requires Inv(l, s) && Enabled(l, s, End(p))
    ensures Inv(l, Next(l, s, End(p)))
  {
    hide C.Inv, R.Inv, D.Pinned, CommitWrites, CommitReady, Names;
    ActiveOpen(l, s, p);
    R.StepKeepsInv(s.log, R.End(p), l.size);
    if s.log.outstanding == 1 {
      EndReady(l, s, p);
      NothingWritten(l, s.log.blocks, C.Mem(s.cache), s.cache.disk);
    } else {
      CountKeeps(l, s, R.Next(s.log, R.End(p), l.size));
    }
  }

  lemma {:induction false} ReadyTwice(l: Layout, blocks: seq<nat>, mem: Disk, d: Disk)
    requires CommitReady(l, blocks, mem, d)
    ensures CommitReady(l, blocks, mem, mem)
  {
    assert l.start !in blocks;
  }

  lemma {:induction false} OneMore(d: Disk, ws: seq<Blocks.Write<Block>>, k: nat)
    requires Fits(ws, |d|) && k < |ws|
    ensures Apply(d, ws[..k + 1]) == Apply(d, ws[..k])[ws[k].bno := ws[k].data]
  {
    assert ws[..k + 1] == ws[..k] + [ws[k]];
    ApplyLast(d, ws[..k], ws[k]);
  }

  lemma {:induction false} FlushKeeps(l: Layout, s: Sys, p: nat, i: nat)
    requires Inv(l, s) && Enabled(l, s, Flush(p, i))
    ensures Inv(l, Next(l, s, Flush(p, i)))
  {
    hide C.Inv, R.Inv, D.Pinned, CommitWrites, CommitReady, Names, NextWrite, Left, WriteCache, C.Mem, SameHome,
         Loggable;
    var blocks, mem, d, k := s.log.blocks, s.commit.mem, s.commit.disk, s.commit.k;
    BusyFacts(l, s);
    var ws := CommitWrites(l, blocks, mem);
    ReadyTwice(l, blocks, mem, d);
    NextWriteIs(l, blocks, mem, k);
    var w := ws[k];
    WriteFrame(s.cache, i, w.data, w.bno);
    OneMore(d, ws, k);
    OneMore(mem, ws, k);
    LeftStep(l, blocks, C.Mem(s.cache), k);
    WritePinned(s.cache, WriteCache(s.cache, i, w.data), i, w.bno, Left(blocks, k), Left(blocks, k + 1));
    SavedStep(l, s);
  }

  lemma BusyFacts(l: Layout, s: Sys)
    requires s.commit.Writing? && Busy(l, s)
    ensures var ws := CommitWrites(l, s.log.blocks, s.commit.mem);
            && |ws| == Total(s.log.blocks) && Fits(ws, |s.commit.mem|)
            && |s.commit.mem| == |s.commit.disk| == |s.cache.disk|
            && Loggable(l, s.log.blocks, |s.cache.disk|) && |C.Mem(s.cache)| == |s.cache.disk|
  {
  }

  lemma SavedStep(l: Layout, s: Sys)
    requires s.commit.Writing? && Busy(l, s) && |s.saved| == |s.cache.disk|
    ensures SameHome(l, SavedAfter(s), if s.commit.k + 1 <= |s.log.blocks| then s.commit.disk else s.commit.mem)
    ensures |SavedAfter(s)| == |s.cache.disk|
  {
  }

  lemma {:induction false} DoneKeeps(l: Layout, s: Sys, p: nat)
    requires Inv(l, s) && Enabled(l, s, Done(p))
    ensures Inv(l, Next(l, s, Done(p)))
  {
    hide C.Inv, D.Pinned, CommitWrites, Names, C.Mem;
    BusyFacts(l, s);
    R.StepKeepsInv(s.log, R.Committed(p), l.size);
    var blocks, mem, d := s.log.blocks, s.commit.mem, s.commit.disk;
    CommitCompletes(l, blocks, mem, d);
    var ws := CommitWrites(l, blocks, mem);
    assert ws[..|ws|] == ws;
    NothingWritten(l, blocks, mem, d);
  }

  // What the disk promises right now, whatever step comes next.
  lemma {:induction false} PromisedNow(l: Layout, s: Sys) returns (blocks: seq<nat>, target: Disk)
    requires Inv(l, s)
    ensures Promises(l, s.cache.disk, blocks, target) && SameHome(l, target, s.saved)
  {
    hide C.Inv, R.Inv, D.Pinned, CommitWrites, C.Mem, EncodeHead, DecodeHead, RecoverWrites, LogWrites;
    if s.commit.NoCommit? {
      blocks, target := [], s.cache.disk;
    } else {
      var mem, d, k := s.commit.mem, s.commit.disk, s.commit.k;
      CommitPrefix(l, s.log.blocks, mem, d, k);
      if k <= |s.log.blocks| {
        BeforeCommitPoint(l, s.log.blocks, mem, d, k);
        blocks, target := [], d;
      } else {
        var e, j := CommitPoint(l, s.log.blocks, mem, d), k - |s.log.blocks| - 1;
        AtCommitPoint(l, s.log.blocks, mem, d);
        CutKeepsPromise(l, e, s.log.blocks, mem, j);
        blocks, target := NamesAfter(s.log.blocks, j), mem;
      }
    }
  }

  // CRASH SAFETY AT ANY POINT. Power may fail after any step of any run; however often recovery is cut short,
  // the recovery that completes leaves the saved contents at every block outside the log.
  lemma {:induction false} CrashNow(l: Layout, s: Sys, cuts: seq<nat>)
    requires Inv(l, s)
    ensures SameHome(l, Recovered(l, s.cache.disk, cuts), s.saved) && Names(l, Recovered(l, s.cache.disk, cuts), [])
  {
    hide Inv, Recovered, Promises;
    LayoutFacts(l, s);
    var blocks, target := PromisedNow(l, s);
    RecoveredDelivers(l, s.cache.disk, blocks, cuts, target);
  }

  lemma LayoutFacts(l: Layout, s: Sys)
    requires Inv(l, s)
    ensures LayoutOk(l, |s.cache.disk|) && |s.saved| == |s.cache.disk|
  {
  }

  lemma {:induction false} CrashKeeps(l: Layout, s: Sys, cuts: seq<nat>)
    requires Inv(l, s)
    ensures Enabled(l, s, Crash(cuts)) && Inv(l, Next(l, s, Crash(cuts)))
  {
    hide C.Inv, R.Inv, D.Pinned, Recovered, FreshCache, Names, SameHome;
    CrashNow(l, s, cuts);
    var d := Recovered(l, s.cache.disk, cuts);
    FreshInv(|s.cache.bufs|, d);
    FreshIs(|s.cache.bufs|, d);
    R.InitialInv(|s.log.procs|);
  }

  lemma FreshIs(n: nat, d: Disk)
    ensures FreshCache(n, d).disk == d && FreshCache(n, d).unsaved == {}
  {
  }

  lemma {:induction false} StepKeeps(l: Layout, s: Sys, step: Step)
    requires Inv(l, s) && Enabled(l, s, step)
    ensures Inv(l, Next(l, s, step))
  {
    hide Inv, Enabled, Next;
    match step {
      case Begin(p) => BeginKeeps(l, s, p);
      case Touch(t) => TouchKeeps(l, s, t);
      case Change(p, i, data) => ChangeKeeps(l, s, p, i, data);
      case Guard(p, i) => GuardKeeps(l, s, p, i);
      case Log(p, i) => LogKeeps(l, s, p, i);
      case End(p) => EndKeeps(l, s, p);
      case Flush(p, i) => FlushKeeps(l, s, p, i);
      case Done(p) => DoneKeeps(l, s, p);
      case Finish(p) => FinishKeeps(l, s, p);
      case Crash(cuts) => CrashKeeps(l, s, cuts);
    }
  }

  // ---------- every run ----------

  ghost predicate CanRun(l: Layout, s: Sys, steps: seq<Step>)
    decreases |steps|
  {
    steps == [] || (Enabled(l, s, steps[0]) && CanRun(l, Next(l, s, steps[0]), steps[1..]))
  }

  ghost function Run(l: Layout, s: Sys, steps: seq<Step>): (r: Sys)
    requires CanRun(l, s, steps)
    decreases |steps|
  {
    if steps == [] then s else Run(l, Next(l, s, steps[0]), steps[1..])
  }

  lemma {:induction false} RunKeeps(l: Layout, s: Sys, steps: seq<Step>)
    requires Inv(l, s) && CanRun(l, s, steps)
    ensures Inv(l, Run(l, s, steps))
    decreases |steps|
  {
    hide Inv, Enabled, Next;
    if steps != [] {
      StepKeeps(l, s, steps[0]);
      RunKeeps(l, Next(l, s, steps[0]), steps[1..]);
    }
  }

  // A machine that has booted from a disk with an empty log.
  function Boot(nbuf: nat, nproc: nat, d: Disk): (s: Sys) {
    Sys(FreshCache(nbuf, d), R.Initial(nproc), map[], NoCommit, d)
  }

  lemma {:induction false} BootInv(l: Layout, nbuf: nat, nproc: nat, d: Disk)
    requires LayoutOk(l, |d|) && Names(l, d, [])
    ensures Inv(l, Boot(nbuf, nproc, d))
  {
    hide C.Inv, R.Inv, D.Pinned, FreshCache, Names;
    FreshInv(nbuf, d);
    FreshIs(nbuf, d);
    R.InitialInv(nproc);
  }

  // CRASH SAFETY OVER TIME. After any run from boot, with any number of transactions, readers and earlier
  // crashes, a crash now leaves exactly the saved contents; and when no call is active and no commit runs,
  // those are all the changes the calls have made.
  lemma {:induction false} CrashSafe(l: Layout, nbuf: nat, nproc: nat, d: Disk, steps: seq<Step>, cuts: seq<nat>)
    requires LayoutOk(l, |d|) && Names(l, d, []) && CanRun(l, Boot(nbuf, nproc, d), steps)
    ensures var s := Run(l, Boot(nbuf, nproc, d), steps);
            && l.start < |s.cache.disk|
            && SameHome(l, Recovered(l, s.cache.disk, cuts), s.saved) && Names(l, Recovered(l, s.cache.disk, cuts), [])
            && (s.log.outstanding == 0 && !s.log.committing ==> SameHome(l, C.Mem(s.cache), s.saved))
  {
    hide Inv, Enabled, Next, Run, CanRun, Boot, Recovered;
    BootInv(l, nbuf, nproc, d);
    RunKeeps(l, Boot(nbuf, nproc, d), steps);
    var s := Run(l, Boot(nbuf, nproc, d), steps);
    LayoutFacts(l, s);
    CrashNow(l, s, cuts);
    if s.log.outstanding == 0 && !s.log.committing { QuietSaved(l, s); }
  }

  lemma {:induction false} QuietSaved(l: Layout, s: Sys)
    requires Inv(l, s) && s.log.outstanding == 0 && !s.log.committing
    ensures SameHome(l, C.Mem(s.cache), s.saved)
  {
    hide C.Inv, C.Mem, Names;
    R.NoCalls(s.log.procs);
    assert forall i :: i in s.owner ==> R.IsActive(s.log, s.owner[i]);
    assert s.cache.unsaved == {};
    PinnedCached(s.cache, []);
  }

  // A commit starts with nothing unsaved and every logged block pinned, and nothing else; so a commit with no
  // reader about finds buffers exactly when the transaction is smaller than the cache.
  lemma {:induction false} CommitStart(l: Layout, nbuf: nat, nproc: nat, d: Disk, steps: seq<Step>, bno: nat)
    requires LayoutOk(l, |d|) && Names(l, d, []) && CanRun(l, Boot(nbuf, nproc, d), steps)
    ensures var s := Run(l, Boot(nbuf, nproc, d), steps);
            s.commit.Writing? && s.commit.k == 0 ==>
              && D.Pinned(s.cache, s.log.blocks) && Loggable(l, s.log.blocks, |s.cache.disk|)
              && Names(l, s.cache.disk, [])
              && C.InBufs(s.cache)
              && (D.Quiet(s.cache) && l.Holds(bno) ==>
                    (C.Pick(s.cache, C.ROOTDEV, bno) < |s.cache.bufs| <==> |s.log.blocks| < |s.cache.bufs|))
  {
    hide Inv, Enabled, Next, Run, CanRun, Boot;
    BootInv(l, nbuf, nproc, d);
    RunKeeps(l, Boot(nbuf, nproc, d), steps);
    var s := Run(l, Boot(nbuf, nproc, d), steps);
    if s.commit.Writing? && s.commit.k == 0 {
      StartFacts(l, s);
      if D.Quiet(s.cache) && l.Holds(bno) { D.CommitFindsIff(s.cache, s.log.blocks, bno); }
    }
  }

  lemma StartFacts(l: Layout, s: Sys)
    requires Inv(l, s) && s.commit.Writing? && s.commit.k == 0
    ensures C.Inv(s.cache) && C.InBufs(s.cache) && D.Pinned(s.cache, s.log.blocks) && Names(l, s.cache.disk, [])
    ensures Loggable(l, s.log.blocks, |s.cache.disk|)
  {
    NothingWritten(l, s.log.blocks, s.commit.mem, s.commit.disk);
  }
}
