// bio.c itself: the buffers, the doubly linked list through them, and the operations that change
// both in place, each proved to be the corresponding step of BufferCache.

module Bio {
  import opened Blocks
  import opened BufferCache

  // bcache.head is the node after the NBUF buffers.
  const HEAD: nat := NBUF

  // The node at position k of the ring that starts at the head and runs through lru.
  function At(lru: seq<nat>, k: nat): (i: nat) {
    if 1 <= k <= |lru| then lru[k - 1] else HEAD
  }

  // next and prev link the head and the buffers of lru, in that order, into a ring.
  predicate Ring(next: seq<nat>, prev: seq<nat>, lru: seq<nat>) {
    && |next| == |prev| == NBUF + 1
    && (forall k :: 0 <= k < |lru| ==> lru[k] < NBUF)
    && (forall j, k :: 0 <= j < k < |lru| ==> lru[j] != lru[k])
    && (forall k :: 0 <= k <= |lru| ==> next[At(lru, k)] == At(lru, k + 1))
    && (forall k :: 0 <= k <= |lru| ==> prev[At(lru, k + 1)] == At(lru, k))
  }

  // b->next->prev = b->prev; b->prev->next = b->next
  lemma Unlink(next: seq<nat>, prev: seq<nat>, lru: seq<nat>, k: nat)
    requires Ring(next, prev, lru) && k < |lru|
    ensures next[lru[k]] < |prev| && prev[lru[k]] < |next|
    ensures Ring(next[prev[lru[k]] := next[lru[k]]], prev[next[lru[k]] := prev[lru[k]]], lru[..k] + lru[k + 1..])
  {
    var i := lru[k];
    assert At(lru, k + 1) == i;
    assert prev[At(lru, k + 1)] == At(lru, k);
    assert next[At(lru, k + 1)] == At(lru, k + 2);
    var r := lru[..k] + lru[k + 1..];
    var n, p := next[At(lru, k) := At(lru, k + 2)], prev[At(lru, k + 2) := At(lru, k)];
    forall j | 0 <= j <= |r|
      ensures n[At(r, j)] == At(r, j + 1) && p[At(r, j + 1)] == At(r, j)
    {
      var o := if j <= k then j else j + 1;
      assert At(r, j) == At(lru, o);
      assert At(r, j + 1) == if j < k then At(lru, o + 1) else if j == k then At(lru, k + 2) else At(lru, o + 1);
      assert next[At(lru, o)] == At(lru, o + 1);
      assert prev[At(lru, o + 1)] == At(lru, o);
    }
  }

  // b->next = head.next; b->prev = &head; head.next->prev = b; head.next = b
  lemma InsertFront(next: seq<nat>, prev: seq<nat>, lru: seq<nat>, i: nat)
    requires Ring(next, prev, lru) && i < NBUF && i !in lru
    ensures next[HEAD] < |prev|
    ensures Ring(next[i := next[HEAD]][HEAD := i], prev[i := HEAD][next[HEAD] := i], [i] + lru)
  {
    var r := [i] + lru;
    assert next[At(lru, 0)] == At(lru, 1);
    var n, p := next[i := next[HEAD]][HEAD := i], prev[i := HEAD][next[HEAD] := i];
    forall j | 0 <= j <= |r|
      ensures n[At(r, j)] == At(r, j + 1) && p[At(r, j + 1)] == At(r, j)
    {
      if j >= 1 {
        assert At(r, j + 1) == At(lru, j);
        assert j >= 2 ==> At(r, j) == At(lru, j - 1);
        assert next[At(lru, j - 1)] == At(lru, j);
        assert prev[At(lru, j)] == At(lru, j - 1);
      }
    }
  }

  lemma {:induction false} WithoutAt(lru: seq<nat>, k: nat)
    requires k < |lru| && forall j :: 0 <= j < k ==> lru[j] != lru[k]
    ensures Without(lru, lru[k]) == lru[..k] + lru[k + 1..]
  {
    if k > 0 {
      WithoutAt(lru[1..], k - 1);
      assert lru[1..][..k - 1] == lru[1..k];
      assert lru[..k] == [lru[0]] + lru[1..k];
    }
  }

  // The cache binit leaves.
  lemma FreshInv(c: Cache)
    requires |c.bufs| == |c.lru| == NBUF && c.unsaved == {}
    requires forall k :: 0 <= k < NBUF ==> c.lru[k] == NBUF - 1 - k
    requires forall i :: 0 <= i < NBUF ==>
               c.bufs[i].refcnt == 0 && !c.bufs[i].dirty && c.bufs[i].dev == 0 && !c.bufs[i].valid && !c.bufs[i].locked
    ensures Inv(c) && Mem(c) == c.disk
  {
    forall i | 0 <= i < NBUF
      ensures i in c.lru
    {
      assert c.lru[NBUF - 1 - i] == i;
    }
  }

  lemma OrderOf(c: Cache)
    requires Inv(c)
    ensures IsOrder(c.lru, |c.bufs|)
  {
  }

  // bget, acquiresleep and, on a buffer without the block's contents, a disk read: what bread leaves.
  lemma {:induction false} BreadEffect(c: Cache, bno: nat) returns (i: nat, r: Cache)
    requires Inv(c) && |c.bufs| == NBUF && bno < |c.disk| && Pick(c, ROOTDEV, bno) < NBUF
    requires forall j :: 0 <= j < NBUF && Tagged(c.bufs[j], ROOTDEV, bno) ==> !c.bufs[j].locked
    ensures i == Pick(c, ROOTDEV, bno) && Enabled(c, Get(ROOTDEV, bno))
    ensures var c1 := Next(c, Get(ROOTDEV, bno));
            && Enabled(c1, Lock(i))
            && var c2 := Next(c1, Lock(i));
               && (!c2.bufs[i].valid ==> Enabled(c2, Fill(i)))
               && r == if c2.bufs[i].valid then c2 else Next(c2, Fill(i))
    ensures Inv(r) && Mem(r) == Mem(c) && |r.bufs| == NBUF && r.bufs == c.bufs[i := r.bufs[i]]
    ensures Tagged(r.bufs[i], ROOTDEV, bno) && r.bufs[i].locked && r.bufs[i].valid && r.bufs[i].data == Mem(c)[bno]
    ensures var b := c.bufs[i];
            && r.bufs[i].refcnt == 1 + (if Tagged(b, ROOTDEV, bno) then b.refcnt else 0)
            && r.bufs[i].dirty == (Tagged(b, ROOTDEV, bno) && b.dirty)
  {
    i := Pick(c, ROOTDEV, bno);
    var c1 := Next(c, Get(ROOTDEV, bno));
    assert Inv(c1) && Mem(c1) == Mem(c) by { StepKeepsInv(c, Get(ROOTDEV, bno)); StepMem(c, Get(ROOTDEV, bno)); }
    var c2 := Next(c1, Lock(i));
    assert Inv(c2) && Mem(c2) == Mem(c1) by { StepKeepsInv(c1, Lock(i)); StepMem(c1, Lock(i)); }
    r := c2;
    if !c2.bufs[i].valid {
      r := Next(c2, Fill(i));
      assert Inv(r) && Mem(r) == Mem(c2) by { StepKeepsInv(c2, Fill(i)); StepMem(c2, Fill(i)); }
    }
    HolderSeesView(r, i);
  }

  // No buffer caches a block that the first loop of bget does not find.
  lemma {:induction false} Missed(c: Cache, dev: nat, bno: nat, i: nat)
    requires IsOrder(c.lru, |c.bufs|) && FindFrom(c.bufs, c.lru, dev, bno, 0) >= |c.bufs| && i < |c.bufs|
    ensures !Tagged(c.bufs[i], dev, bno)
  {
    assert i in c.lru;
  }

  class BCache {
    var bufs: seq<Buf>
    var next: seq<nat>
    var prev: seq<nat>
    var disk: Disk
    ghost var lru: seq<nat>
    ghost var unsaved: set<nat>
    ghost const boot: Disk             // the disk found at boot
    ghost var trace: seq<Write<Block>> // every write that reached it since, in order

    ghost function State(): Cache
      reads this
    {
      Cache(bufs, lru, disk, unsaved)
    }

    ghost predicate Valid()
      reads this
    {
      && |bufs| == NBUF && Ring(next, prev, lru) && Inv(State())
      && Fits(trace, |boot|) && disk == Apply(boot, trace)
    }

    // binit, on the disk found at boot: no buffer is tagged, locked or valid.
    constructor (d: Disk)
      ensures Valid() && boot == disk == d && Mem(State()) == d && unsaved == {} && trace == []
      ensures forall i :: 0 <= i < NBUF ==> bufs[i].refcnt == 0 && !bufs[i].dirty
    {
      bufs := seq(NBUF, _ => Buf(0, 0, false, false, 0, false, seq(BSIZE, _ => 0)));
      next := seq(NBUF + 1, _ => HEAD);
      prev := seq(NBUF + 1, _ => HEAD);
      disk, boot := d, d;
      lru, unsaved, trace := [], {}, [];
      new;
      label Fresh:
      for b: nat := 0 to NBUF
        invariant bufs == old@Fresh(bufs) && disk == d && unsaved == {} && trace == []
        invariant |lru| == b && (forall k :: 0 <= k < b ==> lru[k] == b - 1 - k)
        invariant Ring(next, prev, lru)
      {
        InsertHead(b);
      }
      FreshInv(State());
    }

    // Links buffer i in front of the list.
    method InsertHead(i: nat)
      requires Ring(next, prev, lru) && i < NBUF && i !in lru
      modifies this`next, this`prev, this`lru
      ensures Ring(next, prev, lru) && lru == [i] + old(lru)
    {
      InsertFront(next, prev, lru, i);
      next := next[i := next[HEAD]];
      prev := prev[i := HEAD];
      prev := prev[next[HEAD] := i];
      next := next[HEAD := i];
      lru := [i] + lru;
    }

    // Takes the buffer at position k out of the list.
    method Remove(i: nat, ghost k: nat)
      requires Ring(next, prev, lru) && k < |lru| && lru[k] == i
      modifies this`next, this`prev, this`lru
      ensures Ring(next, prev, lru) && lru == old(lru)[..k] + old(lru)[k + 1..]
    {
      Unlink(next, prev, lru, k);
      assert next[i] != i by { assert next[At(lru, k + 1)] == At(lru, k + 2); }
      prev := prev[next[i] := prev[i]];
      next := next[prev[i] := next[i]];
      lru := lru[..k] + lru[k + 1..];
    }

    // bget: a hit in list order, else the least recently released buffer that is neither
    // referenced nor dirty. A result of HEAD is the panic "bget: no buffers".
    method Bget(dev: nat, bno: nat) returns (i: nat)
      requires Valid() && dev == ROOTDEV && bno < |disk|
      modifies this`bufs
      ensures Valid() && i == Pick(old(State()), dev, bno)
      ensures i >= NBUF ==> State() == old(State())
      ensures i < NBUF ==> State() == Next(old(State()), Get(dev, bno))
      ensures i < NBUF ==>
                var b := old(bufs)[i];
                bufs == old(bufs)[i :=
                  if Tagged(b, dev, bno) then b.(refcnt := b.refcnt + 1)
                  else b.(dev := dev, blockno := bno, valid := false, dirty := false, refcnt := 1)]
    {
      hide Inv, FindFrom, VictimAmong;
      ghost var c := State();
      OrderOf(c);
      i := Lookup(dev, bno);
      if i != HEAD {
        assert Pick(c, dev, bno) == i;
        assert Inv(Next(c, Get(dev, bno))) by { StepKeepsInv(c, Get(dev, bno)); }
        bufs := bufs[i := bufs[i].(refcnt := bufs[i].refcnt + 1)];
        assert State() == Next(c, Get(dev, bno));
        return;
      }
      i := Victim();
      assert Pick(c, dev, bno) == i;
      if i != HEAD {
        Missed(c, dev, bno, i);
        assert Inv(Next(c, Get(dev, bno))) by { StepKeepsInv(c, Get(dev, bno)); }
        bufs := bufs[i := bufs[i].(dev := dev, blockno := bno, valid := false, dirty := false, refcnt := 1)];
        assert State() == Next(c, Get(dev, bno));
      }
    }

    // The first loop of bget, from the head on: the buffer that caches the block, or the list head.
    method Lookup(dev: nat, bno: nat) returns (b: nat)
      requires Valid()
      ensures b == FindFrom(bufs, lru, dev, bno, 0) && (b < NBUF ==> Tagged(bufs[b], dev, bno)) && b <= HEAD
    {
      hide Inv;
      OrderOf(State());
      b := next[HEAD];
      ghost var k: nat := 1;
      assert next[At(lru, 0)] == At(lru, 1);
      while b != HEAD
        invariant 1 <= k <= |lru| + 1 && b == At(lru, k)
        invariant FindFrom(bufs, lru, dev, bno, 0) == FindFrom(bufs, lru, dev, bno, k - 1)
        decreases |lru| + 1 - k
      {
        if bufs[b].dev == dev && bufs[b].blockno == bno {
          return b;
        }
        assert next[At(lru, k)] == At(lru, k + 1);
        b := next[b];
        k := k + 1;
      }
    }

    // The second loop, from the tail on: the unreferenced clean buffer released longest ago, or the list head.
    method Victim() returns (b: nat)
      requires Valid()
      ensures b == VictimAmong(bufs, lru, |lru|) && (b < NBUF ==> Reusable(bufs[b])) && b <= HEAD
    {
      hide Inv;
      OrderOf(State());
      b := prev[HEAD];
      ghost var k := |lru|;
      assert prev[At(lru, |lru| + 1)] == At(lru, |lru|);
      while b != HEAD
        invariant 0 <= k <= |lru| && b == At(lru, k)
        invariant VictimAmong(bufs, lru, |lru|) == VictimAmong(bufs, lru, k)
        decreases k
      {
        if bufs[b].refcnt == 0 && !bufs[b].dirty {
          return b;
        }
        assert prev[At(lru, k)] == At(lru, k - 1);
        b := prev[b];
        k := k - 1;
      }
    }

    method AcquireSleep(i: nat)
      requires Valid() && Enabled(State(), Lock(i))
      modifies this`bufs
      ensures Valid() && State() == Next(old(State()), Lock(i))
      ensures bufs == old(bufs)[i := old(bufs)[i].(locked := true)]
    {
      StepKeepsInv(State(), Lock(i));
      bufs := bufs[i := bufs[i].(locked := true)];
    }

    // iderw on a buffer that is not dirty and not valid: a disk read.
    method ReadBlock(i: nat)
      requires Valid() && Enabled(State(), Fill(i))
      modifies this`bufs
      ensures Valid() && State() == Next(old(State()), Fill(i))
      ensures var b := old(bufs)[i]; bufs == old(bufs)[i := b.(valid := true, data := disk[b.blockno])]
    {
      StepKeepsInv(State(), Fill(i));
      bufs := bufs[i := bufs[i].(data := disk[bufs[i].blockno])];
      bufs := bufs[i := bufs[i].(valid := true)];
    }

    // The holder overwrites the data of its buffer (memmove in log.c and fs.c).
    method StoreData(i: nat, data: Block)
      requires Valid() && Enabled(State(), Store(i, data))
      modifies this`bufs, this`unsaved
      ensures Valid() && State() == Next(old(State()), Store(i, data))
      ensures bufs == old(bufs)[i := old(bufs)[i].(data := data)]
    {
      StepKeepsInv(State(), Store(i, data));
      bufs := bufs[i := bufs[i].(data := data)];
      unsaved := unsaved + {i};
    }

    // The cache part of log_write: B_DIRTY pins the buffer.
    method MarkDirty(i: nat)
      requires Valid() && Enabled(State(), LogWrite(i))
      modifies this`bufs, this`unsaved
      ensures Valid() && State() == Next(old(State()), LogWrite(i))
      ensures bufs == old(bufs)[i := old(bufs)[i].(dirty := true)]
    {
      StepKeepsInv(State(), LogWrite(i));
      bufs := bufs[i := bufs[i].(dirty := true)];
      unsaved := unsaved - {i};
    }

    // bwrite: set B_DIRTY, then iderw writes the block and clears it.
    method WriteBlock(i: nat)
      requires Valid() && Enabled(State(), Bwrite(i))
      modifies this`bufs, this`disk, this`unsaved, this`trace
      ensures Valid() && State() == Next(old(State()), Bwrite(i))
      ensures var b := old(bufs)[i];
              bufs == old(bufs)[i := b.(dirty := false)] && disk == old(disk)[b.blockno := b.data]
      ensures trace == old(trace) + [Write(bufs[i].blockno, bufs[i].data)]
    {
      hide Inv;
      ghost var c := Next(State(), Bwrite(i));
      assert Inv(c) by { StepKeepsInv(State(), Bwrite(i)); }
      var bno, data := bufs[i].blockno, bufs[i].data;
      ApplyLast(boot, trace, Write(bno, data));
      bufs := bufs[i := bufs[i].(dirty := true)];
      disk := disk[bno := data];
      bufs := bufs[i := bufs[i].(dirty := false)];
      unsaved := unsaved - {i};
      trace := trace + [Write(bno, data)];
      assert State() == c;
    }

    // brelse: unlock, drop the reference, and move a free buffer to the front of the list.
    method Brelse(i: nat)
      requires Valid() && Enabled(State(), Release(i))
      modifies this`bufs, this`next, this`prev, this`lru
      ensures Valid() && State() == Next(old(State()), Release(i))
      ensures var b := old(bufs)[i]; bufs == old(bufs)[i := b.(refcnt := b.refcnt - 1, locked := false)]
      ensures if old(bufs[i].refcnt) == 1 then InFront(lru, old(lru), i) else lru == old(lru)
    {
      hide Inv, InFront, Without;
      ReleaseOrder(State(), i);
      OrderOf(State());
      ghost var c := Next(State(), Release(i));
      assert Inv(c) by { StepKeepsInv(State(), Release(i)); }
      ghost var k := Position(i);
      assert Without(lru, i) == lru[..k] + lru[k + 1..] by { WithoutAt(lru, k); }
      bufs := bufs[i := bufs[i].(locked := false)];
      bufs := bufs[i := bufs[i].(refcnt := bufs[i].refcnt - 1)];
      if bufs[i].refcnt == 0 {
        Remove(i, k);
        InsertHead(i);
      }
      assert State() == c;
    }

    // bread, when nobody holds the block and bget finds a buffer: the buffer comes back locked and
    // valid, holding what the cache shows for the block, and nothing else changes.
    method Bread(bno: nat) returns (i: nat)
      requires Valid() && bno < |disk| && Pick(State(), ROOTDEV, bno) < NBUF
      requires forall j :: 0 <= j < NBUF && Tagged(bufs[j], ROOTDEV, bno) ==> !bufs[j].locked
      modifies this`bufs
      ensures Valid() && i == Pick(old(State()), ROOTDEV, bno) && Tagged(bufs[i], ROOTDEV, bno)
      ensures bufs[i].locked && bufs[i].valid && bufs[i].data == old(Mem(State()))[bno]
      ensures bufs[i].refcnt == 1 + old(if Tagged(bufs[i], ROOTDEV, bno) then bufs[i].refcnt else 0)
      ensures bufs[i].dirty == old(Tagged(bufs[i], ROOTDEV, bno) && bufs[i].dirty)
      ensures bufs == old(bufs)[i := bufs[i]] && Mem(State()) == old(Mem(State()))
    {
      ghost var k, c3 := BreadEffect(State(), bno);
      hide Inv;
      i := Bget(ROOTDEV, bno);
      AcquireSleep(i);
      if !bufs[i].valid {
        ReadBlock(i);
      }
      assert State() == c3;
    }

    // Where buffer i stands in the list.
    ghost function Position(i: nat): (k: nat)
      requires Valid() && i < NBUF
      reads this
      ensures k < |lru| && lru[k] == i
    {
      assert i in lru;
      var k :| 0 <= k < |lru| && lru[k] == i;
      k
    }
  }
}
