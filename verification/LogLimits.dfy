// What happens at the limits of the log and of the cache: runs of the logging system from boot that fill
// every buffer, or that overrun the log area, and what the commit of an overrun leaves behind.

module LogLimits {
  import opened Common
  import opened Blocks
  import opened RedoLog
  import C = BufferCache
  import D = LogDriver
  import R = LogReservation
  import opened LogSystem

  // ---------- runs, one step at a time ----------

  ghost predicate Reaches(l: Layout, s0: Sys, s: Sys) {
    exists steps :: CanRun(l, s0, steps) && Run(l, s0, steps) == s
  }

  lemma {:induction false} RunThen(l: Layout, s: Sys, steps: seq<Step>, step: Step)
    requires CanRun(l, s, steps) && Enabled(l, Run(l, s, steps), step)
    ensures CanRun(l, s, steps + [step]) && Run(l, s, steps + [step]) == Next(l, Run(l, s, steps), step)
    decreases |steps|
  {
    hide Enabled, Next;
    if steps == [] {
      assert steps + [step] == [step] && [step][1..] == [];
      assert CanRun(l, Next(l, s, step), []) && Run(l, Next(l, s, step), []) == Next(l, s, step);
    } else {
      assert (steps + [step])[1..] == steps[1..] + [step];
      RunThen(l, Next(l, s, steps[0]), steps[1..], step);
    }
  }

  lemma {:induction false} ReachesNext(l: Layout, s0: Sys, s: Sys, step: Step)
    requires Reaches(l, s0, s) && Enabled(l, s, step)
    ensures Reaches(l, s0, Next(l, s, step))
  {
    hide Enabled, Next, CanRun, Run;
    var steps :| CanRun(l, s0, steps) && Run(l, s0, steps) == s;
    RunThen(l, s0, steps, step);
  }

  lemma {:induction false} ReachesStart(l: Layout, s: Sys)
    ensures Reaches(l, s, s)
  {
    assert CanRun(l, s, []) && Run(l, s, []) == s;
  }

  // ---------- bread ----------

  predicate Uncached(c: C.Cache, bno: nat) {
    forall i :: 0 <= i < |c.bufs| ==> !C.Tagged(c.bufs[i], C.ROOTDEV, bno)
  }

  // The cache with block bno in buffer i, held by its reader.
  function Took(c: C.Cache, i: nat, bno: nat): (r: C.Cache)
    requires i < |c.bufs| && bno < |c.disk|
  {
    c.(bufs := c.bufs[i := C.Buf(C.ROOTDEV, bno, true, false, 1, true, c.disk[bno])])
  }

  lemma {:induction false} Take(l: Layout, s0: Sys, s: Sys, bno: nat) returns (i: nat)
    requires Reaches(l, s0, s) && C.Inv(s.cache) && bno < |s.cache.disk| && Uncached(s.cache, bno)
    requires C.Pick(s.cache, C.ROOTDEV, bno) < |s.cache.bufs|
    ensures i < |s.cache.bufs| && C.Reusable(s.cache.bufs[i])
    ensures Reaches(l, s0, s.(cache := Took(s.cache, i, bno)))
  {
    hide Reaches;
    var c := s.cache;
    i := C.Pick(c, C.ROOTDEV, bno);
    assert C.BufOk(c.bufs[i], c.disk, i in c.unsaved);
    ReachesNext(l, s0, s, Touch(C.Get(C.ROOTDEV, bno)));
    var s1 := Next(l, s, Touch(C.Get(C.ROOTDEV, bno)));
    ReachesNext(l, s0, s1, Touch(C.Lock(i)));
    var s2 := Next(l, s1, Touch(C.Lock(i)));
    ReachesNext(l, s0, s2, Touch(C.Fill(i)));
    assert Next(l, s2, Touch(C.Fill(i))).cache.bufs == Took(c, i, bno).bufs;
    assert Next(l, s2, Touch(C.Fill(i))) == s.(cache := Took(c, i, bno));
  }

  // ---------- log_write ----------

  // The call p has changed the buffer it holds to x and is past the guard of log_write.
  function Marked(s: Sys, p: nat, i: nat, x: Block): (r: Sys)
    requires R.IsActive(s.log, p) && i < |s.cache.bufs|
  {
    var b := s.cache.bufs[i];
    s.(cache := s.cache.(bufs := s.cache.bufs[i := b.(data := x)], unsaved := s.cache.unsaved + {i}),
       owner := s.owner[i := p],
       log := s.log.(procs := s.log.procs[p := s.log.procs[p].(passed := R.Passed(b.blockno))]))
  }

  lemma {:induction false} Mark(l: Layout, s0: Sys, s: Sys, p: nat, i: nat, x: Block)
    requires Reaches(l, s0, s) && R.IsActive(s.log, p) && s.log.procs[p].passed == R.Nothing
    requires i < |s.cache.bufs| && s.cache.bufs[i].locked && s.cache.bufs[i].valid && i !in s.owner
    requires !l.Holds(s.cache.bufs[i].blockno) && !R.GuardPanics(s.log, l.size)
    ensures Reaches(l, s0, Marked(s, p, i, x))
  {
    hide Reaches;
    ReachesNext(l, s0, s, Change(p, i, x));
    var s1 := Next(l, s, Change(p, i, x));
    ReachesNext(l, s0, s1, Guard(p, i));
    assert Next(l, s1, Guard(p, i)) == Marked(s, p, i, x);
  }

  // log_write has recorded the block, and brelse has let the buffer go.
  function Recorded(l: Layout, s: Sys, p: nat, i: nat): (r: Sys)
    requires R.Enabled(s.log, R.Append(p), l.size) && i < |s.cache.bufs|
  {
    var c, b := s.cache, s.cache.bufs[i];
    s.(cache := C.Cache(c.bufs[i := b.(dirty := true, refcnt := 0, locked := false)], C.MoveToFront(c.lru, i),
                        c.disk, c.unsaved - {i}),
       owner := s.owner - {i}, log := R.Next(s.log, R.Append(p), l.size))
  }

  lemma {:induction false} Record(l: Layout, s0: Sys, s: Sys, p: nat, i: nat)
    requires Reaches(l, s0, s) && R.Enabled(s.log, R.Append(p), l.size) && i < |s.cache.bufs|
    requires s.cache.bufs[i].locked && s.cache.bufs[i].valid && s.cache.bufs[i].refcnt == 1
    requires s.log.procs[p].passed == R.Passed(s.cache.bufs[i].blockno)
    ensures Reaches(l, s0, Recorded(l, s, p, i))
  {
    hide Reaches, C.MoveToFront;
    ReachesNext(l, s0, s, Log(p, i));
    var s1 := Next(l, s, Log(p, i));
    ReachesNext(l, s0, s1, Touch(C.Release(i)));
    assert Next(l, s1, Touch(C.Release(i))) == Recorded(l, s, p, i);
  }

  // ---------- a block at a time ----------

  lemma {:induction false} ReachesInv(l: Layout, s0: Sys, s: Sys)
    requires Inv(l, s0) && Reaches(l, s0, s)
    ensures Inv(l, s) && C.Inv(s.cache) && R.Inv(s.log) && LayoutOk(l, |s.cache.disk|)
    ensures s.commit.NoCommit? ==> D.Pinned(s.cache, s.log.blocks)
  {
    var steps :| CanRun(l, s0, steps) && Run(l, s0, steps) == s;
    RunKeeps(l, s0, steps);
  }

  // A new block finds a buffer while the pinned and the held ones do not fill the cache.
  lemma {:induction false} Finds(s: Sys, bno: nat, held: set<nat>)
    requires C.Inv(s.cache) && R.Inv(s.log) && D.Pinned(s.cache, s.log.blocks)
    requires |s.log.blocks| + |held| < |s.cache.bufs|
    requires forall i :: 0 <= i < |s.cache.bufs| && s.cache.bufs[i].refcnt > 0 ==> i in held
    ensures C.Pick(s.cache, C.ROOTDEV, bno) < |s.cache.bufs|
  {
    hide C.Inv, D.Pinned;
    D.PinnedExactly(s.cache, s.log.blocks);
    D.PickSucceeds(s.cache, bno, held);
  }

  // Nobody holds a buffer, and no commit runs.
  predicate Calm(s: Sys) { s.owner == map[] && s.cache.unsaved == {} && D.Quiet(s.cache) && s.commit.NoCommit? }

  // Call p logs block bno with contents x.
  lemma {:induction false} LogOne(l: Layout, s0: Sys, s: Sys, p: nat, bno: nat, x: Block) returns (r: Sys, i: nat)
    requires Inv(l, s0) && Reaches(l, s0, s) && Calm(s) && |s.log.blocks| < |s.cache.bufs|
    requires R.IsActive(s.log, p) && s.log.procs[p].passed == R.Nothing && s.log.procs[p].unspent > 0
    requires !R.GuardPanics(s.log, l.size) && bno !in s.log.blocks
    requires bno < |s.cache.disk| && !l.Holds(bno) && Uncached(s.cache, bno)
    ensures Reaches(l, s0, r) && Calm(r) && r.cache.disk == s.cache.disk
    ensures r.log == s.log.(blocks := s.log.blocks + [bno],
                            procs := s.log.procs[p := R.Active(s.log.procs[p].unspent - 1, R.Nothing)])
    ensures i < |s.cache.bufs| && r.cache.bufs == s.cache.bufs[i := C.Buf(C.ROOTDEV, bno, true, true, 0, false, x)]
  {
    hide Reaches, Inv, C.Inv, R.Inv, D.Pinned, C.MoveToFront, Enabled, Next;
    ReachesInv(l, s0, s);
    Finds(s, bno, {});
    i := Take(l, s0, s, bno);
    var s1 := s.(cache := Took(s.cache, i, bno));
    Mark(l, s0, s1, p, i, x);
    var s2 := Marked(s1, p, i, x);
    Record(l, s0, s2, p, i);
    r := Recorded(l, s2, p, i);
  }

  // ---------- three calls fill the log ----------

  // The counters after the three calls have logged blocks base .. base + k - 1.
  function Logged(base: nat, k: nat): (log: R.State)
    requires k <= LOGSIZE
  {
    R.Filled(k).(blocks := seq(k, i => base + i))
  }

  predicate At(s: Sys, d: Disk, base: nat, k: nat)
    requires k <= LOGSIZE
  {
    && Calm(s) && s.cache.disk == d && |s.cache.bufs| == NBUF && s.log == Logged(base, k)
    && forall i :: 0 <= i < NBUF && s.cache.bufs[i].dev == C.ROOTDEV ==> base <= s.cache.bufs[i].blockno < base + k
  }

  // n blocks from base on, all of the disk and outside the log.
  predicate Outside(l: Layout, d: Disk, base: nat, n: nat) {
    base + n <= |d| && (base + n <= l.start || l.start + l.size <= base)
  }

  lemma {:induction false} ThreeBegin(l: Layout, d: Disk, base: nat) returns (s: Sys)
    ensures Reaches(l, Boot(NBUF, 3, d), s) && At(s, d, base, 0)
  {
    hide Reaches;
    var s0 := Boot(NBUF, 3, d);
    ReachesStart(l, s0);
    ReachesNext(l, s0, s0, Begin(0));
    var s1 := Next(l, s0, Begin(0));
    ReachesNext(l, s0, s1, Begin(1));
    var s2 := Next(l, s1, Begin(1));
    ReachesNext(l, s0, s2, Begin(2));
    s := Next(l, s2, Begin(2));
  }

  lemma LoggedNext(base: nat, k: nat)
    requires k < LOGSIZE
    ensures var s, p := Logged(base, k), R.WhoWrites(k);
            && p < 3 && s.procs[p].Active? && s.procs[p].passed == R.Nothing && s.procs[p].unspent > 0
            && base + k !in s.blocks
            && Logged(base, k + 1) == s.(blocks := s.blocks + [base + k],
                                         procs := s.procs[p := R.Active(s.procs[p].unspent - 1, R.Nothing)])
  {
  }

  lemma {:induction false} FillTo(l: Layout, d: Disk, base: nat, k: nat) returns (s: Sys)
    requires LayoutOk(l, |d|) && Names(l, d, []) && k <= LOGSIZE && k < l.size && Outside(l, d, base, k)
    ensures Reaches(l, Boot(NBUF, 3, d), s) && At(s, d, base, k)
  {
    hide Reaches, Names, Boot, Logged, D.Quiet;
    if k == 0 {
      s := ThreeBegin(l, d, base);
    } else {
      var t := FillTo(l, d, base, k - 1);
      BootInv(l, NBUF, 3, d);
      LoggedNext(base, k - 1);
      LoggedIs(base, k - 1);
      var i;
      s, i := LogOne(l, Boot(NBUF, 3, d), t, R.WhoWrites(k - 1), base + k - 1, d[base + k - 1]);
    }
  }

  lemma LoggedIs(base: nat, k: nat)
    requires k <= LOGSIZE
    ensures var s := Logged(base, k);
            && |s.blocks| == k && |s.procs| == 3 && s.outstanding == 3 && !s.committing
            && (forall i :: 0 <= i < k ==> s.blocks[i] == base + i)
            && forall p :: 0 <= p < 3 ==> s.procs[p] == R.Active(R.Left(k, p), R.Nothing)
  {
  }

  // ---------- a full transaction leaves the commit no buffer ----------

  lemma {:induction false} ThreeEnd(l: Layout, s0: Sys, s: Sys, d: Disk, base: nat, k: nat) returns (r: Sys)
    requires Inv(l, s0) && Reaches(l, s0, s) && k <= LOGSIZE && k < l.size && At(s, d, base, k)
    ensures Reaches(l, s0, r) && r.commit.Writing? && r.commit.k == 0 && r.cache == s.cache
    ensures r.log.blocks == s.log.blocks
  {
    hide Reaches, Inv, D.Quiet, Logged;
    LoggedIs(base, k);
    ReachesNext(l, s0, s, End(0));
    var s1 := Next(l, s, End(0));
    ReachesNext(l, s0, s1, End(1));
    var s2 := Next(l, s1, End(1));
    ReachesNext(l, s0, s2, End(2));
    r := Next(l, s2, End(2));
  }

  // NBUF and LOGSIZE are the same. Three calls within their reservations fill a log of more than LOGSIZE
  // blocks with NBUF blocks, and when the last of them ends the commit that starts finds every buffer pinned:
  // its first bread of a log block panics.
  lemma {:induction false} CommitCanRunOut(l: Layout, d: Disk, base: nat) returns (s: Sys)
    requires LayoutOk(l, |d|) && Names(l, d, []) && l.size > LOGSIZE && Outside(l, d, base, NBUF)
    ensures Reaches(l, Boot(NBUF, 3, d), s)
    ensures s.commit.Writing? && s.commit.k == 0 && |s.log.blocks| == |s.cache.bufs| == NBUF
    ensures C.InBufs(s.cache) && forall bno :: l.Holds(bno) ==> C.Pick(s.cache, C.ROOTDEV, bno) >= |s.cache.bufs|
  {
    hide Reaches, Names, Boot, Logged, Inv;
    BootInv(l, NBUF, 3, d);
    var t := FillTo(l, d, base, NBUF);
    s := ThreeEnd(l, Boot(NBUF, 3, d), t, d, base, NBUF);
    LoggedIs(base, NBUF);
    ReachesInv(l, Boot(NBUF, 3, d), s);
    StartFacts(l, s);
    forall bno | l.Holds(bno)
      ensures C.Pick(s.cache, C.ROOTDEV, bno) >= |s.cache.bufs|
    {
      D.CommitFindsIff(s.cache, s.log.blocks, bno);
    }
  }

  // ---------- two calls race past the guard ----------

  // Buffers i and j hold two new blocks for their readers.
  predicate HoldTwo(c: C.Cache, r: C.Cache, i: nat, j: nat, bno: nat, x: Block, y: Block) {
    && i < |c.bufs| && j < |c.bufs| && i != j && r.disk == c.disk
    && r.bufs == c.bufs[i := C.Buf(C.ROOTDEV, bno, true, false, 1, true, x)]
                       [j := C.Buf(C.ROOTDEV, bno + 1, true, false, 1, true, y)]
  }

  lemma {:induction false} TakeTwo(l: Layout, s0: Sys, t: Sys, d: Disk, base: nat, k: nat)
      returns (s: Sys, i: nat, j: nat)
    requires Inv(l, s0) && Reaches(l, s0, t) && k < LOGSIZE - 1 && At(t, d, base, k) && base + k + 1 < |d|
    ensures Reaches(l, s0, s) && HoldTwo(t.cache, s.cache, i, j, base + k, d[base + k], d[base + k + 1])
    ensures s.cache.unsaved == {} && s == t.(cache := s.cache)
  {
    hide Reaches, Inv, C.Inv, R.Inv, D.Pinned, Enabled, Next, Logged;
    LoggedIs(base, k);
    ReachesInv(l, s0, t);
    Finds(t, base + k, {});
    i := Take(l, s0, t, base + k);
    var s1 := t.(cache := Took(t.cache, i, base + k));
    ReachesInv(l, s0, s1);
    Finds(s1, base + k + 1, {i});
    j := Take(l, s0, s1, base + k + 1);
    s := s1.(cache := Took(s1.cache, j, base + k + 1));
  }

  // Calls 1 and 2 hold the next two blocks, changed, and are both past the guard.
  lemma {:induction false} BothPass(l: Layout, s0: Sys, t: Sys, d: Disk, base: nat, k: nat, x: Block)
      returns (s: Sys, i: nat, j: nat)
    requires Inv(l, s0) && Reaches(l, s0, t) && k < LOGSIZE - 1 && k + 2 == l.size && At(t, d, base, k)
    requires Outside(l, d, base, k + 2)
    ensures Reaches(l, s0, s) && HoldTwo(t.cache, s.cache, i, j, base + k, x, x) && s.commit.NoCommit?
    ensures s.cache.unsaved == {i, j} && s.owner == map[i := 1, j := 2]
    ensures s.log == t.log.(procs := t.log.procs[1 := R.Active(R.Left(k, 1), R.Passed(base + k))]
                                                [2 := R.Active(R.Left(k, 2), R.Passed(base + k + 1))])
  {
    hide Reaches, Inv, Enabled, Next, Logged, D.Quiet;
    LoggedIs(base, k);
    var s2;
    s2, i, j := TakeTwo(l, s0, t, d, base, k);
    Mark(l, s0, s2, 1, i, x);
    var s3 := Marked(s2, 1, i, x);
    Mark(l, s0, s3, 2, j, x);
    s := Marked(s3, 2, j, x);
  }

  // Both record their blocks.
  lemma {:induction false} BothRecord(l: Layout, s0: Sys, t: Sys, d: Disk, base: nat, k: nat, x: Block)
      returns (s: Sys, j: nat)
    requires Inv(l, s0) && Reaches(l, s0, t) && k < LOGSIZE - 1 && k + 2 == l.size && At(t, d, base, k)
    requires Outside(l, d, base, k + 2)
    ensures Reaches(l, s0, s) && s.commit.NoCommit? && s.owner == map[] && s.cache.disk == d
    ensures s.log.blocks == t.log.blocks + [base + k, base + k + 1] && |s.log.procs| == 3
    ensures s.log.outstanding == 3 && !s.log.committing
    ensures forall p :: 0 <= p < 3 ==> s.log.procs[p].Active? && s.log.procs[p].passed == R.Nothing
    ensures j < |s.cache.bufs| && s.cache.bufs[j].valid && s.cache.bufs[j].blockno == base + k + 1
    ensures s.cache.bufs[j].data == x
  {
    hide Reaches, Inv, Enabled, Next, C.MoveToFront, Logged, D.Quiet;
    LoggedIs(base, k);
    var a, i;
    a, i, j := BothPass(l, s0, t, d, base, k, x);
    Record(l, s0, a, 1, i);
    var b := Recorded(l, a, 1, i);
    Record(l, s0, b, 2, j);
    s := Recorded(l, b, 2, j);
  }

  // A call ends and others go on.
  lemma {:induction false} EndOne(l: Layout, s0: Sys, s: Sys, p: nat)
    requires Reaches(l, s0, s) && R.IsActive(s.log, p) && s.log.procs[p].passed == R.Nothing && s.log.outstanding > 1
    requires s.owner == map[] && !s.log.committing
    ensures var log := s.log.(outstanding := s.log.outstanding - 1, procs := s.log.procs[p := R.Outside]);
            Reaches(l, s0, s.(log := log))
  {
    hide Reaches;
    ReachesNext(l, s0, s, End(p));
  }

  // OVERRUN. With a log of at most LOGSIZE blocks the transaction can have as many blocks as the log area,
  // one more than fit behind the header; the call that ends last will commit it. Its last block holds x.
  lemma {:induction false} OverrunReached(l: Layout, d: Disk, base: nat, x: Block) returns (s: Sys)
    requires LayoutOk(l, |d|) && Names(l, d, []) && 2 <= l.size <= LOGSIZE && Outside(l, d, base, l.size)
    ensures Reaches(l, Boot(NBUF, 3, d), s) && s.cache.disk == d && s.owner == map[]
    ensures s.log.outstanding == 1 && R.Enabled(s.log, R.End(2), l.size) && |s.log.blocks| == l.size
    ensures forall i :: 0 <= i < l.size ==> s.log.blocks[i] == base + i
    ensures C.Mem(s.cache)[base + l.size - 1] == x
  {
    hide Reaches, Names, Boot, Inv, C.Inv, R.Inv, D.Pinned, C.Mem, Logged, Enabled, Next, D.Quiet;
    var s0, k := Boot(NBUF, 3, d), l.size - 2;
    BootInv(l, NBUF, 3, d);
    var t := FillTo(l, d, base, k);
    LoggedIs(base, k);
    var c, j := BothRecord(l, s0, t, d, base, k, x);
    EndOne(l, s0, c, 0);
    var e := c.(log := c.log.(outstanding := 2, procs := c.log.procs[0 := R.Outside]));
    EndOne(l, s0, e, 1);
    s := e.(log := e.log.(outstanding := 1, procs := e.log.procs[1 := R.Outside]));
    ReachesInv(l, s0, s);
    ShowsData(s.cache, j);
  }

  lemma ShowsData(c: C.Cache, i: nat)
    requires C.Inv(c) && i < |c.bufs| && c.bufs[i].valid
    ensures c.bufs[i].blockno < |c.disk| && C.Mem(c)[c.bufs[i].blockno] == c.bufs[i].data
  {
    assert C.BufOk(c.bufs[i], c.disk, i in c.unsaved);
    C.HolderSeesView(c, i);
  }

  // ---------- what the commit of an overrun leaves ----------

  // The writes of commit(), which does not look whether the blocks fit behind the header.
  function RawCommit(l: Layout, blocks: seq<nat>, mem: Disk): (ws: seq<Blocks.Write<Block>>)
    requires Encodable(blocks) && InRange(blocks, |mem|) && l.start + |blocks| < |mem|
    ensures Fits(ws, |mem|) && |ws| == 2 * |blocks| + 2
  {
    var head := EncodeHead(mem[l.start], blocks);
    LogWrites(l, blocks, mem) + [Blocks.Write(l.start, head)]
    + HomeWrites(blocks, mem) + [Blocks.Write(l.start, EncodeHead(head, []))]
  }

  // They are the writes of a transaction that fits.
  lemma RawIsCommit(l: Layout, blocks: seq<nat>, mem: Disk)
    requires Loggable(l, blocks, |mem|) && blocks != []
    ensures RawCommit(l, blocks, mem) == CommitWrites(l, blocks, mem)
  {
  }

  // The writes of recover_from_log(), which trusts the header.
  function RawRecover(l: Layout, blocks: seq<nat>, d: Disk): (ws: seq<Blocks.Write<Block>>)
    requires InRange(blocks, |d|) && l.start + |blocks| < |d|
    ensures Fits(ws, |d|) && |ws| == |blocks| + 1
  {
    InstallWrites(l, blocks, d) + [Blocks.Write(l.start, EncodeHead(d[l.start], []))]
  }

  // Recoveries cut after cuts[0], cuts[1], ... writes, and one that completes.
  function RawRecovered(l: Layout, d: Disk, cuts: seq<nat>): (r: Disk)
    requires l.start < |d|
    ensures |r| == |d|
    decreases |cuts|
  {
    if !HasHeader(d[l.start]) || !InRange(DecodeHead(d[l.start]), |d|) || l.start + GetWord(d[l.start], 0) >= |d| then d
    else
      var ws := RawRecover(l, DecodeHead(d[l.start]), d);
      if cuts == [] then Apply(d, ws)
      else RawRecovered(l, Apply(d, ws[..if cuts[0] < |ws| then cuts[0] else |ws|]), cuts[1..])
  }

  // The header names this transaction or none.
  predicate Heads(l: Layout, d: Disk, blocks: seq<nat>) {
    && l.start < |d| && HasHeader(d[l.start])
    && (DecodeHead(d[l.start]) == blocks || DecodeHead(d[l.start]) == [])
  }

  lemma {:induction false} Untouched(l: Layout, d: Disk, blocks: seq<nat>, j: nat, x: nat)
    requires Heads(l, d, blocks) && InRange(blocks, |d|) && l.start + |blocks| < |d| && l.start !in blocks
    requires x !in blocks && x != l.start && x < |d|
    ensures var ws := RawRecover(l, DecodeHead(d[l.start]), d);
            j <= |ws| ==> Apply(d, ws[..j])[x] == d[x] && Heads(l, Apply(d, ws[..j]), blocks)
  {
    hide EncodeHead, DecodeHead, HasHeader, RawRecover, Apply;
    var named := DecodeHead(d[l.start]);
    var ws := RawRecover(l, named, d);
    RecoversAt(l, named, d);
    if j <= |ws| {
      forall i | 0 <= i < |named|
        ensures ws[i].bno != x && ws[i].bno != l.start
      {
        assert ws[i].bno == named[i] && named[i] in blocks;
      }
      ApplyFrame(d, ws[..j], x);
      if j <= |named| {
        ApplyFrame(d, ws[..j], l.start);
      } else {
        ApplyDistinct(d, ws[..j], |named|);
        HeadRoundTrip(d[l.start], []);
      }
    }
  }

  lemma RecoversAt(l: Layout, blocks: seq<nat>, d: Disk)
    requires InRange(blocks, |d|) && l.start + |blocks| < |d|
    ensures var ws := RawRecover(l, blocks, d);
            && (forall i :: 0 <= i < |blocks| ==> ws[i].bno == blocks[i])
            && ws[|blocks|] == Blocks.Write(l.start, EncodeHead(d[l.start], []))
  {
    hide EncodeHead;
  }

  // However recoveries are cut short, they leave a block the transaction does not name alone.
  lemma {:induction false} NeverRepaired(l: Layout, d: Disk, blocks: seq<nat>, cuts: seq<nat>, x: nat)
    requires Heads(l, d, blocks) && InRange(blocks, |d|) && l.start + |blocks| < |d| && l.start !in blocks
    requires x !in blocks && x != l.start && x < |d|
    ensures RawRecovered(l, d, cuts)[x] == d[x]
    decreases |cuts|
  {
    hide EncodeHead, RawRecover, Heads;
    HeadsDecode(l, d, blocks);
    var ws := RawRecover(l, DecodeHead(d[l.start]), d);
    var j := if cuts == [] then |ws| else if cuts[0] < |ws| then cuts[0] else |ws|;
    Untouched(l, d, blocks, j, x);
    if cuts == [] {
      assert ws[..|ws|] == ws;
    } else {
      NeverRepaired(l, Apply(d, ws[..j]), blocks, cuts[1..], x);
    }
  }

  lemma HeadsDecode(l: Layout, d: Disk, blocks: seq<nat>)
    requires Heads(l, d, blocks) && InRange(blocks, |d|) && l.start + |blocks| < |d|
    ensures HasHeader(d[l.start]) && InRange(DecodeHead(d[l.start]), |d|) && l.start + GetWord(d[l.start], 0) < |d|
    ensures |DecodeHead(d[l.start])| == GetWord(d[l.start], 0)
  {
  }

  lemma WritesAt(l: Layout, blocks: seq<nat>, mem: Disk)
    requires Encodable(blocks) && InRange(blocks, |mem|) && l.start + |blocks| < |mem|
    ensures var ws, n := RawCommit(l, blocks, mem), |blocks|;
            && (forall i :: 0 <= i < n ==> ws[i] == Blocks.Write(l.start + 1 + i, mem[blocks[i]]))
            && ws[n] == Blocks.Write(l.start, EncodeHead(mem[l.start], blocks))
            && (forall i :: n < i <= 2 * n ==> ws[i].bno == blocks[i - n - 1])
            && ws[2 * n + 1] == Blocks.Write(l.start, EncodeHead(EncodeHead(mem[l.start], blocks), []))
  {
    hide EncodeHead;
  }

  // The first k writes of the commit of an overrun, at the first block behind the log area.
  lemma {:induction false} SpillsOver(l: Layout, blocks: seq<nat>, mem: Disk, d: Disk, k: nat)
    requires |mem| == |d| && Encodable(blocks) && InRange(blocks, |mem|) && l.start + |blocks| < |mem|
    requires 1 <= l.size <= |blocks| && l.start + l.size !in blocks && k <= 2 * |blocks| + 2
    ensures Apply(d, RawCommit(l, blocks, mem)[..k])[l.start + l.size] ==
            if k < l.size then d[l.start + l.size] else mem[blocks[l.size - 1]]
  {
    hide EncodeHead, RawCommit, Apply;
    var ws, n, x := RawCommit(l, blocks, mem), |blocks|, l.start + l.size;
    WritesAt(l, blocks, mem);
    forall i | 0 <= i < |ws| && i != l.size - 1
      ensures ws[i].bno != x
    {
      if n < i <= 2 * n { assert ws[i].bno == blocks[i - n - 1]; }
    }
    if k < l.size { ApplyFrame(d, ws[..k], x); } else { ApplyDistinct(d, ws[..k], l.size - 1); }
  }

  // And at the header.
  lemma {:induction false} SpillHeads(l: Layout, blocks: seq<nat>, mem: Disk, d: Disk, k: nat)
    requires |mem| == |d| && Encodable(blocks) && InRange(blocks, |mem|) && l.start + |blocks| < |mem|
    requires l.start !in blocks && Heads(l, d, []) && k <= 2 * |blocks| + 2
    ensures Heads(l, Apply(d, RawCommit(l, blocks, mem)[..k]), blocks)
  {
    hide EncodeHead, DecodeHead, HasHeader, RawCommit, Apply;
    var ws, n := RawCommit(l, blocks, mem), |blocks|;
    WritesAt(l, blocks, mem);
    forall i | 0 <= i < |ws| && i != n && i != 2 * n + 1
      ensures ws[i].bno != l.start
    {
      if n < i { assert ws[i].bno == blocks[i - n - 1]; }
    }
    if k <= n {
      ApplyFrame(d, ws[..k], l.start);
    } else if k <= 2 * n + 1 {
      ApplyDistinct(d, ws[..k], n);
      HeadRoundTrip(mem[l.start], blocks);
    } else {
      ApplyDistinct(d, ws[..k], 2 * n + 1);
      HeadRoundTrip(EncodeHead(mem[l.start], blocks), []);
    }
  }

  // AN OVERRUN IS NOT ATOMIC. The block behind the log area is in no transaction, and old and new contents
  // agree on it. Stop the commit after any number k of its writes and recover: the block has its contents
  // exactly when fewer than l.size writes were made, or what was written there happens to be the same.
  lemma {:induction false} OverrunTearsIff(l: Layout, blocks: seq<nat>, mem: Disk, d: Disk, k: nat, cuts: seq<nat>)
    requires |mem| == |d| && Encodable(blocks) && InRange(blocks, |mem|) && l.start + |blocks| < |mem|
    requires 1 <= l.size <= |blocks| && l.start !in blocks && l.start + l.size !in blocks && Heads(l, d, [])
    requires Cached(blocks, mem, d) && k <= 2 * |blocks| + 2
    ensures var x, r := l.start + l.size, RawRecovered(l, Apply(d, RawCommit(l, blocks, mem)[..k]), cuts);
            && mem[x] == d[x]
            && (r[x] == d[x] <==> k < l.size || mem[blocks[l.size - 1]] == d[x])
  {
    hide RawCommit, RawRecovered, Heads;
    SpillsOver(l, blocks, mem, d, k);
    SpillHeads(l, blocks, mem, d, k);
    NeverRepaired(l, Apply(d, RawCommit(l, blocks, mem)[..k]), blocks, cuts, l.start + l.size);
  }

  // mkfs.c:33 makes a log of LOGSIZE blocks. Whatever the block behind it holds, a run from boot ends in a
  // transaction whose commit replaces it by other contents, for good.
  lemma {:induction false} OverrunLoses(l: Layout, d: Disk, base: nat, x: Block, k: nat, cuts: seq<nat>)
      returns (s: Sys)
    requires LayoutOk(l, |d|) && Names(l, d, []) && l.size == LOGSIZE && l.start + l.size < |d|
    requires Outside(l, d, base, l.size) && base > l.start + l.size && x != d[l.start + l.size]
    requires l.size <= k <= 2 * l.size + 2
    ensures Reaches(l, Boot(NBUF, 3, d), s) && s.cache.disk == d && s.log.outstanding == 1
    ensures R.Enabled(s.log, R.End(2), l.size) && |s.log.blocks| == l.size && s.owner == map[]
    ensures Encodable(s.log.blocks) && InRange(s.log.blocks, |d|)
    ensures RawRecovered(l, Apply(d, RawCommit(l, s.log.blocks, C.Mem(s.cache))[..k]), cuts)[l.start + l.size] == x
  {
    hide Reaches, Boot, RawCommit, RawRecovered, C.Mem, EncodeHead, DecodeHead, HasHeader;
    s := OverrunReached(l, d, base, x);
    var blocks := s.log.blocks;
    SpillsOver(l, blocks, C.Mem(s.cache), d, k);
    SpillHeads(l, blocks, C.Mem(s.cache), d, k);
    NeverRepaired(l, Apply(d, RawCommit(l, blocks, C.Mem(s.cache))[..k]), blocks, cuts, l.start + l.size);
  }

  // ---------- every commit can be finished ----------

  // The cache with block bno in buffer i, held by its reader, whether it was cached before or not.
  predicate Holding(c: C.Cache, r: C.Cache, i: nat, bno: nat) {
    && i < |c.bufs| && |r.bufs| == |c.bufs| && r.disk == c.disk && r.lru == c.lru && r.unsaved == c.unsaved
    && r.bufs == c.bufs[i := r.bufs[i]] && HoldsBuf(r, i, bno) && r.bufs[i].refcnt == 1
  }

  lemma {:induction false} TakeCached(l: Layout, s0: Sys, s: Sys, bno: nat, i: nat) returns (r: Sys)
    requires Reaches(l, s0, s) && C.Inv(s.cache) && D.Quiet(s.cache) && bno < |s.cache.disk|
    requires i < |s.cache.bufs| && C.Tagged(s.cache.bufs[i], C.ROOTDEV, bno)
    requires C.Pick(s.cache, C.ROOTDEV, bno) == i
    ensures Reaches(l, s0, r) && r == s.(cache := r.cache) && Holding(s.cache, r.cache, i, bno)
  {
    hide Reaches;
    var c := s.cache;
    assert C.BufOk(c.bufs[i], c.disk, i in c.unsaved);
    ReachesNext(l, s0, s, Touch(C.Get(C.ROOTDEV, bno)));
    var s1 := Next(l, s, Touch(C.Get(C.ROOTDEV, bno)));
    ReachesNext(l, s0, s1, Touch(C.Lock(i)));
    r := Next(l, s1, Touch(C.Lock(i)));
    if !r.cache.bufs[i].valid {
      ReachesNext(l, s0, r, Touch(C.Fill(i)));
      r := Next(l, r, Touch(C.Fill(i)));
    }
  }

  lemma {:induction false} PickCached(c: C.Cache, bno: nat, i: nat)
    requires C.Inv(c) && i < |c.bufs| && C.Tagged(c.bufs[i], C.ROOTDEV, bno)
    ensures C.InBufs(c) && C.Pick(c, C.ROOTDEV, bno) == i
  {
    C.InLru(c, i);
    var hit := C.FindFrom(c.bufs, c.lru, C.ROOTDEV, bno, 0);
    assert hit < |c.bufs| && C.Tagged(c.bufs[hit], C.ROOTDEV, bno);
  }

  // While a commit runs, a bread finds a buffer: its block is cached or the pinned ones do not fill the cache.
  lemma {:induction false} TakeAny(l: Layout, s0: Sys, s: Sys, bno: nat) returns (r: Sys, i: nat)
    requires Reaches(l, s0, s) && C.Inv(s.cache) && D.Quiet(s.cache) && bno < |s.cache.disk|
    requires |D.DirtyBufs(s.cache)| < |s.cache.bufs|
    ensures Reaches(l, s0, r) && r == s.(cache := r.cache) && Holding(s.cache, r.cache, i, bno)
  {
    hide Reaches, C.Inv, Enabled, Next;
    if j :| 0 <= j < |s.cache.bufs| && C.Tagged(s.cache.bufs[j], C.ROOTDEV, bno) {
      i := j;
      PickCached(s.cache, bno, i);
      r := TakeCached(l, s0, s, bno, i);
    } else {
      D.PickSucceeds(s.cache, bno, {});
      i := Take(l, s0, s, bno);
      r := s.(cache := Took(s.cache, i, bno));
    }
  }

  lemma {:induction false} BusyNow(l: Layout, s: Sys)
    requires Inv(l, s) && s.commit.Writing?
    ensures C.Inv(s.cache) && s.cache.unsaved == {} && s.owner == map[] && Loggable(l, s.log.blocks, |s.cache.disk|)
    ensures D.Pinned(s.cache, Left(s.log.blocks, s.commit.k)) && s.commit.k <= Total(s.log.blocks)
    ensures s.log.committing && |C.Mem(s.cache)| == |s.cache.disk|
  {
    BusyFacts(l, s);
    assert s.owner.Keys == {};
  }

  lemma LeftSize(blocks: seq<nat>, k: nat)
    ensures |Left(blocks, k)| <= |blocks|
  {
  }

  // Where the next write goes does not depend on what the cache shows.
  lemma {:induction false} WriteBno(l: Layout, blocks: seq<nat>, m: Disk, q: Disk, k: nat)
    requires Loggable(l, blocks, |m|) && k < 2 * |blocks| + 2 && |q| == |m|
    ensures NextWrite(l, blocks, m, k).bno == NextWrite(l, blocks, q, k).bno < |m|
  {
    hide EncodeHead;
  }

  // The committer's write, and its brelse.
  lemma {:induction false} FlushRelease(l: Layout, s0: Sys, s: Sys, p: nat, i: nat, bno: nat) returns (r: Sys)
    requires Reaches(l, s0, s) && Enabled(l, s, Flush(p, i)) && C.Inv(s.cache) && s.cache.unsaved == {}
    requires s.cache.bufs[i].refcnt == 1 && HoldsBuf(s.cache, i, bno)
    requires forall j :: 0 <= j < |s.cache.bufs| && j != i ==> s.cache.bufs[j].refcnt == 0
    ensures Reaches(l, s0, r) && r.commit == s.commit.(k := s.commit.k + 1) && r.log == s.log
    ensures |r.cache.bufs| == |s.cache.bufs| && D.Quiet(r.cache)
  {
    hide Reaches, NextWrite, C.Mem, C.MoveToFront, C.Inv;
    ReachesNext(l, s0, s, Flush(p, i));
    var w := NextWrite(l, s.log.blocks, C.Mem(s.cache), s.commit.k);
    WriteFrame(s.cache, i, w.data, bno);
    var s1 := Next(l, s, Flush(p, i));
    ReachesNext(l, s0, s1, Touch(C.Release(i)));
    r := Next(l, s1, Touch(C.Release(i)));
  }

  // One more write of the commit.
  lemma {:induction false} FlushOne(l: Layout, s0: Sys, s: Sys, p: nat) returns (r: Sys)
    requires Inv(l, s0) && Reaches(l, s0, s) && s.commit.Writing? && s.commit.k < Total(s.log.blocks)
    requires p < |s.log.procs| && s.log.procs[p] == R.Committer && D.Quiet(s.cache)
    requires |s.log.blocks| < |s.cache.bufs|
    ensures Reaches(l, s0, r) && r.commit == s.commit.(k := s.commit.k + 1) && r.log == s.log
    ensures |r.cache.bufs| == |s.cache.bufs| && D.Quiet(r.cache)
  {
    hide Reaches, Inv, C.Inv, D.Pinned, Next, NextWrite, Left, D.DirtyBufs, Loggable, C.Mem;
    ReachesInv(l, s0, s);
    BusyNow(l, s);
    LeftSize(s.log.blocks, s.commit.k);
    D.PinnedCount(s.cache, Left(s.log.blocks, s.commit.k));
    var bno := NextWrite(l, s.log.blocks, C.Mem(s.cache), s.commit.k).bno;
    WriteBno(l, s.log.blocks, C.Mem(s.cache), C.Mem(s.cache), s.commit.k);
    var t, i := TakeAny(l, s0, s, bno);
    ReachesInv(l, s0, t);
    BusyNow(l, t);
    WriteBno(l, s.log.blocks, C.Mem(s.cache), C.Mem(t.cache), s.commit.k);
    r := FlushRelease(l, s0, t, p, i, bno);
  }

  lemma {:induction false} FlushAll(l: Layout, s0: Sys, s: Sys, p: nat) returns (r: Sys)
    requires Inv(l, s0) && Reaches(l, s0, s) && s.commit.Writing? && s.commit.k <= Total(s.log.blocks)
    requires p < |s.log.procs| && s.log.procs[p] == R.Committer && D.Quiet(s.cache)
    requires |s.log.blocks| < |s.cache.bufs|
    ensures Reaches(l, s0, r) && r.commit == s.commit.(k := Total(s.log.blocks)) && r.log == s.log
    ensures |r.cache.bufs| == |s.cache.bufs| && D.Quiet(r.cache)
    decreases Total(s.log.blocks) - s.commit.k
  {
    hide Reaches, Inv, D.Quiet;
    r := s;
    if s.commit.k < Total(s.log.blocks) {
      var t := FlushOne(l, s0, s, p);
      r := FlushAll(l, s0, t, p);
    }
  }

  // A COMMIT CAN ALWAYS BE FINISHED when no reader is about and the transaction is smaller than the cache: some
  // steps make the rest of its writes and open the log again, and then the disk holds outside the log what the
  // cache showed when the commit began.
  lemma {:induction false} CommitFinishes(l: Layout, s0: Sys, s: Sys, p: nat) returns (r: Sys)
    requires Inv(l, s0) && Reaches(l, s0, s) && s.commit.Writing?
    requires p < |s.log.procs| && s.log.procs[p] == R.Committer && D.Quiet(s.cache)
    requires |s.log.blocks| < |s.cache.bufs|
    ensures Reaches(l, s0, r) && r.commit.NoCommit? && r.log.blocks == [] && !r.log.committing
    ensures SameHome(l, r.cache.disk, s.commit.mem) && Names(l, r.cache.disk, []) && D.Quiet(r.cache)
    ensures r.log.outstanding == s.log.outstanding == 0 && r.log.procs == s.log.procs[p := R.Outside]
  {
    hide Reaches, Inv, D.Quiet, Names, SameHome, C.Inv, D.Pinned, Left, Loggable, R.Inv;
    ReachesInv(l, s0, s);
    BusyNow(l, s);
    NoneOut(s.log);
    var t := FlushAll(l, s0, s, p);
    ReachesInv(l, s0, t);
    WrittenHome(l, t);
    ReachesNext(l, s0, t, Done(p));
    var u := Next(l, t, Done(p));
    ReachesNext(l, s0, u, Finish(p));
    r := Next(l, u, Finish(p));
  }

  lemma NoneOut(log: R.State)
    requires R.Inv(log) && log.committing
    ensures log.outstanding == 0
  {
  }

  lemma {:induction false} WrittenHome(l: Layout, s: Sys)
    requires Inv(l, s) && s.commit.Writing? && s.commit.k == Total(s.log.blocks)
    ensures SameHome(l, s.cache.disk, s.commit.mem) && Names(l, s.cache.disk, [])
  {
    hide C.Inv, R.Inv, D.Pinned, CommitWrites, C.Mem, Names, SameHome;
    BusyFacts(l, s);
    var ws := CommitWrites(l, s.log.blocks, s.commit.mem);
    CommitCompletes(l, s.log.blocks, s.commit.mem, s.commit.disk);
    assert ws[..|ws|] == ws;
  }
}
