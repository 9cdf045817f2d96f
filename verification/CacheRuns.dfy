// Whole runs of the buffer cache: in which order buffers are recycled, and that references and sleep locks
// add up.

module CacheRuns {
  import opened Common
  import opened Blocks
  import opened BufferCache

  lemma {:induction false} RunLast(c: Cache, steps: seq<Step>, step: Step)
    requires CanRun(c, steps + [step])
    ensures CanRun(c, steps) && Enabled(Run(c, steps), step) && Run(c, steps + [step]) == Next(Run(c, steps), step)
    decreases |steps|
  {
    hide Enabled, Next;
    if steps == [] {
      assert [] + [step] == [step] && [step][1..] == [];
      assert Run(Next(c, step), []) == Next(c, step);
    } else {
      assert (steps + [step])[1..] == steps[1..] + [step];
      RunLast(Next(c, steps[0]), steps[1..], step);
    }
  }

  lemma {:induction false} RunKeeps(c: Cache, steps: seq<Step>)
    requires Inv(c) && CanRun(c, steps)
    ensures Inv(Run(c, steps)) && |Run(c, steps).bufs| == |c.bufs|
    decreases |steps|
  {
    hide Inv, Enabled, Next;
    if steps != [] {
      StepKeepsInv(c, steps[0]);
      SameSize(c, steps[0]);
      RunKeeps(Next(c, steps[0]), steps[1..]);
    }
  }

  lemma SameSize(c: Cache, step: Step)
    requires Enabled(c, step)
    ensures |Next(c, step).bufs| == |c.bufs|
  {
  }

  // ---------- least recently used ----------

  // The number, counted from 1, of the last step that released buffer i for good; 0 when there was none.
  function LastFree(c: Cache, steps: seq<Step>, i: nat): (k: nat)
    requires CanRun(c, steps)
    ensures k <= |steps|
    decreases |steps|
  {
    if steps == [] then 0
    else
      var n := |steps| - 1;
      assert steps == steps[..n] + [steps[n]];
      RunLast(c, steps[..n], steps[n]);
      var b := Run(c, steps[..n]);
      if steps[n] == Release(i) && b.bufs[i].refcnt == 1 then n + 1 else LastFree(c, steps[..n], i)
  }

  lemma FreeNow(c: Cache, steps: seq<Step>, step: Step, i: nat)
    requires CanRun(c, steps + [step])
    ensures CanRun(c, steps) && Enabled(Run(c, steps), step)
    ensures LastFree(c, steps + [step], i) ==
            if step == Release(i) && Run(c, steps).bufs[i].refcnt == 1 then |steps| + 1 else LastFree(c, steps, i)
  {
    RunLast(c, steps, step);
    assert (steps + [step])[..|steps|] == steps;
  }

  // Every two buffers of the list are ordered one way or the other.
  lemma {:induction false} EitherWay(lru: seq<nat>, n: nat, a: nat, b: nat)
    requires IsOrder(lru, n) && a < n && b < n && a != b
    ensures Ahead(lru, a, b) <==> !Ahead(lru, b, a)
  {
    assert a in lru && b in lru;
    var p, q :| 0 <= p < |lru| && 0 <= q < |lru| && lru[p] == a && lru[q] == b;
    if p < q { assert Ahead(lru, a, b); } else { assert Ahead(lru, b, a); }
  }

  lemma FrontAhead(lru: seq<nat>, n: nat, b: nat)
    requires IsOrder(lru, n) && b < n && lru[0] != b
    ensures Ahead(lru, lru[0], b)
  {
    assert b in lru;
    var q :| 0 <= q < |lru| && lru[q] == b;
    assert lru[0] == lru[0] && lru[q] == b;
  }

  lemma {:induction false} StepOrder(c: Cache, step: Step)
    requires Inv(c) && Enabled(c, step) && !step.Release?
    ensures Next(c, step).lru == c.lru
  {
  }

  lemma Ordered(c: Cache)
    requires Inv(c)
    ensures IsOrder(c.lru, |c.bufs|)
  {
  }

  // RECENCY. After any run, of two buffers the one nearer to the front of the list was released later, whoever
  // used them in between; buffers never released keep their first order behind all others.
  lemma {:induction false} RecentFirst(c: Cache, steps: seq<Step>, a: nat, b: nat)
    requires Inv(c) && CanRun(c, steps) && a < |c.bufs| && b < |c.bufs| && a != b
    ensures Ahead(Run(c, steps).lru, a, b) <==>
            var x, y := LastFree(c, steps, a), LastFree(c, steps, b); x > y || (x == 0 == y && Ahead(c.lru, a, b))
    decreases |steps|
  {
    hide Inv, Enabled, Next, Ahead, IsOrder;
    if steps != [] {
      var front, last := steps[..|steps| - 1], steps[|steps| - 1];
      assert steps == front + [last];
      RunLast(c, front, last);
      RunKeeps(c, front);
      RunKeeps(c, steps);
      var f, r := Run(c, front), Run(c, steps);
      FreeNow(c, front, last, a);
      FreeNow(c, front, last, b);
      RecentFirst(c, front, a, b);
      RecentFirst(c, front, b, a);
      Ordered(f);
      Ordered(r);
      if last.Release? {
        ReleaseOrder(f, last.i);
        if f.bufs[last.i].refcnt == 1 && last.i == a {
          FrontAhead(r.lru, |r.bufs|, b);
        } else if f.bufs[last.i].refcnt == 1 && last.i == b {
          FrontAhead(r.lru, |r.bufs|, a);
          EitherWay(r.lru, |r.bufs|, a, b);
        }
      } else {
        StepOrder(f, last);
      }
    }
  }

  lemma {:induction false} VictimBehind(c: Cache, bno: nat, v: nat, j: nat)
    requires Inv(c) && (forall i :: 0 <= i < |c.bufs| ==> !Tagged(c.bufs[i], ROOTDEV, bno))
    requires v == Pick(c, ROOTDEV, bno) && v < |c.bufs| && j < |c.bufs| && j != v && Reusable(c.bufs[j])
    ensures Ahead(c.lru, j, v)
  {
    var p := VictimLast(c.bufs, c.lru, |c.lru|);
    InLru(c, j);
    var q :| 0 <= q < |c.lru| && c.lru[q] == j;
    assert q < p && c.lru[p] == v;
  }

  // RECYCLING. After any run, a block that is not cached gets the buffer that was released longest ago among
  // those nobody refers to and that are not pinned; it gets none exactly when there is no such buffer.
  lemma {:induction false} VictimOldest(c: Cache, steps: seq<Step>, bno: nat)
    requires Inv(c) && CanRun(c, steps)
    requires forall i :: 0 <= i < |Run(c, steps).bufs| ==> !Tagged(Run(c, steps).bufs[i], ROOTDEV, bno)
    ensures var r := Run(c, steps);
            && InBufs(r) && |r.bufs| == |c.bufs|
            && var v := Pick(r, ROOTDEV, bno);
               if v < |r.bufs| then
                 && r.bufs[v].refcnt == 0 && !r.bufs[v].dirty
                 && forall j :: 0 <= j < |r.bufs| && j != v && r.bufs[j].refcnt == 0 && !r.bufs[j].dirty ==>
                      || LastFree(c, steps, j) > LastFree(c, steps, v)
                      || (LastFree(c, steps, j) == 0 == LastFree(c, steps, v) && Ahead(c.lru, j, v))
               else forall j :: 0 <= j < |r.bufs| ==> r.bufs[j].refcnt > 0 || r.bufs[j].dirty
  {
    hide Run, CanRun, Ahead, LastFree;
    RunKeeps(c, steps);
    var r := Run(c, steps);
    var v := Pick(r, ROOTDEV, bno);
    forall j | 0 <= j < |r.bufs| && j != v && Reusable(r.bufs[j]) && v < |r.bufs|
      ensures || LastFree(c, steps, j) > LastFree(c, steps, v)
              || (LastFree(c, steps, j) == 0 == LastFree(c, steps, v) && Ahead(c.lru, j, v))
    {
      VictimBehind(r, bno, v, j);
      RecentFirst(c, steps, j, v);
    }
    if v >= |r.bufs| {
      forall j | 0 <= j < |r.bufs|
        ensures !Reusable(r.bufs[j])
      {
        InLru(r, j);
      }
    }
  }

  // ---------- references and locks ----------

  // What a run adds to the references of buffer i: one for every bget that ends at it, less the releases.
  function Refs(c: Cache, steps: seq<Step>, i: nat): (n: int)
    requires CanRun(c, steps)
    decreases |steps|
  {
    if steps == [] then 0
    else
      (match steps[0]
       case Get(dev, bno) => if Pick(c, dev, bno) == i then 1 else 0
       case Release(j) => if j == i then -1 else 0
       case _ => 0) + Refs(Next(c, steps[0]), steps[1..], i)
  }

  // A buffer is referred to once for every bget that ended at it and has not been released.
  lemma {:induction false} RefsAddUp(c: Cache, steps: seq<Step>, i: nat)
    requires CanRun(c, steps) && i < |c.bufs|
    ensures |Run(c, steps).bufs| == |c.bufs|
    ensures Run(c, steps).bufs[i].refcnt == c.bufs[i].refcnt + Refs(c, steps, i)
    decreases |steps|
  {
    if steps != [] {
      SameSize(c, steps[0]);
      RefsAddUp(Next(c, steps[0]), steps[1..], i);
    }
  }

  function Locks(steps: seq<Step>, i: nat): (n: int) {
    if steps == [] then 0
    else
      (match steps[0]
       case Lock(j) => if j == i then 1 else 0
       case Release(j) => if j == i then -1 else 0
       case _ => 0) + Locks(steps[1..], i)
  }

  // The sleep lock of a buffer is held exactly when it was taken once more than it was released.
  lemma {:induction false} LocksAddUp(c: Cache, steps: seq<Step>, i: nat)
    requires CanRun(c, steps) && i < |c.bufs|
    ensures |Run(c, steps).bufs| == |c.bufs|
    ensures Run(c, steps).bufs[i].locked <==> (if c.bufs[i].locked then 1 else 0) + Locks(steps, i) == 1
    ensures 0 <= (if c.bufs[i].locked then 1 else 0) + Locks(steps, i) <= 1
    decreases |steps|
  {
    if steps != [] {
      SameSize(c, steps[0]);
      LocksAddUp(Next(c, steps[0]), steps[1..], i);
    }
  }
}
