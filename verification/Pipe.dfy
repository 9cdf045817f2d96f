// Pipes (pipe.c): a 512-byte ring with two counters that wrap at 2^32. A writer or reader holds the pipe's
// lock from one point where it may sleep to the next; what happens in between is one segment.

module Pipe {
  import opened Common

  const PIPESIZE := 512

  // The ring and its counters.
  datatype Ring = Ring(data: seq<int>, nread: nat, nwrite: nat)

  // A ring with its history: every byte stored and every byte delivered, in order.
  datatype State = State(ring: Ring, stored: seq<int>, delivered: seq<int>)

  predicate Full(r: Ring) { r.nwrite == (r.nread + PIPESIZE) % WORD }

  predicate Empty(r: Ring) { r.nread == r.nwrite }

  function Put(r: Ring, b: int): (q: Ring)
    requires |r.data| == PIPESIZE
  {
    r.(data := r.data[r.nwrite % PIPESIZE := b], nwrite := (r.nwrite + 1) % WORD)
  }

  function Get(r: Ring): (b: int)
    requires |r.data| == PIPESIZE
  {
    r.data[r.nread % PIPESIZE]
  }

  function Advance(r: Ring): (q: Ring) { r.(nread := (r.nread + 1) % WORD) }

  // What was delivered is the start of what was stored; the rest, at most PIPESIZE bytes, is in the ring.
  ghost predicate Inv(s: State) {
    && |s.ring.data| == PIPESIZE && s.delivered <= s.stored && |s.stored| <= |s.delivered| + PIPESIZE
    && s.ring.nwrite == |s.stored| % WORD && s.ring.nread == |s.delivered| % WORD
    && forall k {:trigger s.stored[k]} :: |s.delivered| <= k < |s.stored| ==> s.ring.data[k % PIPESIZE] == s.stored[k]
  }

  // The counters tell full and empty apart, even when one has wrapped and the other has not.
  lemma {:induction false} Occupancy(s: State)
    requires Inv(s)
    ensures Full(s.ring) <==> |s.stored| == |s.delivered| + PIPESIZE
    ensures Empty(s.ring) <==> |s.stored| == |s.delivered|
  {
    var r, n := |s.delivered|, |s.stored| - |s.delivered|;
    Offset(r, n);
    Offset(r, PIPESIZE);
  }

  // Counters less than 2^32 apart are equal exactly when the distance is zero.
  lemma {:induction false} Offset(r: nat, n: nat)
    requires n <= PIPESIZE
    ensures (r + n) % WORD == (r % WORD + n) % WORD
    ensures (r + n) % WORD == (if r % WORD + n < WORD then r % WORD + n else r % WORD + n - WORD)
  {
  }

  lemma {:induction false} Slot(n: nat)
    ensures n % WORD % PIPESIZE == n % PIPESIZE
  {
    var q := n / WORD;
    assert n == q * WORD + n % WORD;
    assert q * WORD == (q * 8388608) * PIPESIZE;
    ModShift(q * 8388608, n % WORD);
  }

  lemma {:induction false} ModShift(q: nat, m: nat)
    ensures (q * PIPESIZE + m) % PIPESIZE == m % PIPESIZE
  {
    if q > 0 {
      ModShift(q - 1, m);
      assert q * PIPESIZE + m == (q - 1) * PIPESIZE + m + PIPESIZE;
    }
  }

  // Distinct bytes in the ring are in different slots.
  lemma {:induction false} SlotsApart(k: nat, n: nat)
    requires k < n < k + PIPESIZE
    ensures k % PIPESIZE != n % PIPESIZE
  {
  }

  lemma {:induction false} PutKeeps(s: State, b: int)
    requires Inv(s) && !Full(s.ring)
    ensures Inv(State(Put(s.ring, b), s.stored + [b], s.delivered))
  {
    Occupancy(s);
    var n := |s.stored|;
    Slot(n);
    var r := State(Put(s.ring, b), s.stored + [b], s.delivered);
    forall k | |r.delivered| <= k < |r.stored|
      ensures r.ring.data[k % PIPESIZE] == r.stored[k]
    {
      if k < n {
        SlotsApart(k, n);
        assert s.ring.data[k % PIPESIZE] == s.stored[k];
      }
    }
    assert r.ring.nwrite == |r.stored| % WORD by { Offset(n, 1); }
  }

  // The byte read is the oldest one stored and not yet delivered.
  lemma {:induction false} GetKeeps(s: State)
    requires Inv(s) && !Empty(s.ring)
    ensures |s.delivered| < |s.stored| && Get(s.ring) == s.stored[|s.delivered|]
    ensures Inv(State(Advance(s.ring), s.stored, s.delivered + [Get(s.ring)]))
  {
    Occupancy(s);
    var n := |s.delivered|;
    Slot(n);
    assert s.ring.data[n % PIPESIZE] == s.stored[n];
    Offset(n, 1);
    assert s.delivered + [s.stored[n]] == s.stored[..n + 1];
  }

  // ---------- any interleaving of readers and writers ----------

  datatype Step = Store(b: int) | Deliver

  predicate Enabled(s: State, step: Step) {
    |s.ring.data| == PIPESIZE && if step.Store? then !Full(s.ring) else !Empty(s.ring)
  }

  function Next(s: State, step: Step): (r: State)
    requires Enabled(s, step)
  {
    match step
    case Store(b) => State(Put(s.ring, b), s.stored + [b], s.delivered)
    case Deliver => State(Advance(s.ring), s.stored, s.delivered + [Get(s.ring)])
  }

  ghost predicate CanRun(s: State, steps: seq<Step>)
    decreases |steps|
  {
    steps == [] || (Enabled(s, steps[0]) && CanRun(Next(s, steps[0]), steps[1..]))
  }

  ghost function Run(s: State, steps: seq<Step>): (r: State)
    requires CanRun(s, steps)
    decreases |steps|
  {
    if steps == [] then s else Run(Next(s, steps[0]), steps[1..])
  }

  function Stores(steps: seq<Step>): (bytes: seq<int>) {
    if steps == [] then [] else (if steps[0].Store? then [steps[0].b] else []) + Stores(steps[1..])
  }

  lemma {:induction false} StepKeeps(s: State, step: Step)
    requires Inv(s) && Enabled(s, step)
    ensures var r := Next(s, step);
            Inv(r) && s.delivered <= r.delivered && r.stored == s.stored + Stores([step])
  {
    if step.Store? {
      PutKeeps(s, step.b);
    } else {
      GetKeeps(s);
      assert s.stored + [] == s.stored;
    }
  }

  lemma {:induction false} Transitive(a: seq<int>, b: seq<int>, c: seq<int>)
    requires a <= b <= c
    ensures a <= c
  {
  }

  lemma Bounded(s: State)
    requires Inv(s)
    ensures s.delivered <= s.stored && |s.stored| - |s.delivered| <= PIPESIZE
  {
  }

  lemma NoStores(s: seq<int>)
    ensures s + Stores([]) == s
  {
  }

  lemma {:induction false} StoresStep(s: seq<int>, r: seq<int>, steps: seq<Step>)
    requires steps != [] && r == s + Stores([steps[0]])
    ensures s + Stores(steps) == r + Stores(steps[1..])
  {
    var x, t := Stores([steps[0]]), Stores(steps[1..]);
    assert x == if steps[0].Store? then [steps[0].b] else [];
    hide Stores;
    assert s + (x + t) == s + x + t;
  }

  // Bytes come out in the order they went in, none invented and none lost, and never more than PIPESIZE are
  // in between, however long the run.
  lemma {:induction false} Fifo(s: State, steps: seq<Step>)
    requires Inv(s) && CanRun(s, steps)
    ensures var r := Run(s, steps);
            && Inv(r) && r.stored == s.stored + Stores(steps) && s.delivered <= r.delivered <= r.stored
            && |r.stored| - |r.delivered| <= PIPESIZE
    decreases |steps|
  {
    hide Inv, Next, Enabled, Stores;
    if steps == [] {
      Bounded(s);
      NoStores(s.stored);
    } else {
      var r := Next(s, steps[0]);
      StepKeeps(s, steps[0]);
      Fifo(r, steps[1..]);
      StoresStep(s.stored, r.stored, steps);
      Transitive(s.delivered, r.delivered, Run(s, steps).delivered);
    }
  }

  // How a call that holds the lock goes on: it returns, or it sleeps and tries again.
  datatype Outcome = Returned(n: int) | Sleeps

  class PipeBuf {
    const data: array<int>
    var nread: nat
    var nwrite: nat
    var readopen: bool
    var writeopen: bool
    ghost var stored: seq<int>
    ghost var delivered: seq<int>

    ghost function Abs(): (s: State)
      reads this, data
    {
      State(Ring(data[..], nread, nwrite), stored, delivered)
    }

    ghost predicate Valid()
      reads this, data
    {
      data.Length == PIPESIZE && Inv(Abs())
    }

    // pipealloc.
    constructor ()
      ensures Valid() && fresh(data) && stored == [] && delivered == [] && readopen && writeopen
    {
      data := new int[PIPESIZE];
      nread, nwrite, stored, delivered := 0, 0, [], [];
      readopen, writeopen := true, true;
    }

    // pipeclose: the pipe goes when both ends are closed.
    method Close(writable: bool) returns (gone: bool)
      modifies this`readopen, this`writeopen
      ensures writeopen == (old(writeopen) && !writable) && readopen == (old(readopen) && writable)
      ensures gone == (!readopen && !writeopen)
    {
      if writable {
        writeopen := false;
      } else {
        readopen := false;
      }
      gone := !readopen && !writeopen;
    }

    // The storing loop of pipewrite: from byte i on, while there is room.
    method Fill(addr: seq<int>, i: nat) returns (j: nat)
      requires Valid() && i <= |addr|
      modifies this`nwrite, this`stored, data
      ensures Valid() && i <= j <= |addr| && stored == old(stored) + addr[i..j]
      ensures j < |addr| ==> |stored| == |delivered| + PIPESIZE
    {
      j := i;
      while j < |addr| && nwrite != (nread + PIPESIZE) % WORD
        invariant Valid() && i <= j <= |addr| && stored == old(stored) + addr[i..j]
      {
        PutKeeps(Abs(), addr[j]);
        ghost var before := data[..];
        data[nwrite % PIPESIZE] := addr[j];
        assert data[..] == before[nwrite % PIPESIZE := addr[j]];
        nwrite := (nwrite + 1) % WORD;
        stored := stored + [addr[j]];
        assert addr[i..j + 1] == addr[i..j] + [addr[j]];
        j := j + 1;
      }
      if j < |addr| {
        Occupancy(Abs());
      }
    }

    // pipewrite from byte i on, up to the point where it returns or sleeps. It returns n when every byte is
    // stored; with the ring full it gives up when nobody can read any more or the caller was killed, and
    // sleeps otherwise.
    method Write(addr: seq<int>, i: nat, killed: bool) returns (r: Outcome, j: nat)
      requires Valid() && i <= |addr|
      modifies this`nwrite, this`stored, data
      ensures Valid() && i <= j <= |addr| && stored == old(stored) + addr[i..j]
      ensures if j == |addr| then r == Returned(|addr|)
              else |stored| == |delivered| + PIPESIZE && r == if !readopen || killed then Returned(-1) else Sleeps
    {
      j := Fill(addr, i);
      if j == |addr| {
        return Returned(|addr|), j;
      }
      if !readopen || killed {
        return Returned(-1), j;
      }
      return Sleeps, j;
    }

    // The copying loop of piperead.
    method Drain(n: nat) returns (out: seq<int>)
      requires Valid()
      modifies this`nread, this`delivered
      ensures Valid() && |out| <= n && delivered == old(delivered) + out
      ensures |out| < n ==> |delivered| == |stored|
    {
      out := [];
      while |out| < n
        invariant Valid() && |out| <= n && delivered == old(delivered) + out
        decreases n - |out|
      {
        if nread == nwrite {
          Occupancy(Abs());
          break;
        }
        GetKeeps(Abs());
        var b := data[nread % PIPESIZE];
        delivered := delivered + [b];
        nread := (nread + 1) % WORD;
        out := out + [b];
      }
    }

    // piperead up to the point where it returns or sleeps. It waits exactly while the ring is empty and
    // somebody can still write, and then returns the bytes there are, at most n.
    method Read(n: nat, killed: bool) returns (r: Outcome, out: seq<int>)
      requires Valid()
      modifies this`nread, this`delivered
      ensures Valid() && delivered == old(delivered) + out
      ensures if old(|stored| == |delivered| && writeopen)
              then out == [] && r == if killed then Returned(-1) else Sleeps
              else r == Returned(|out|) && |out| <= n && (|out| < n ==> |delivered| == |stored|)
    {
      out := [];
      Occupancy(Abs());
      if nread == nwrite && writeopen {
        return if killed then Returned(-1) else Sleeps, [];
      }
      out := Drain(n);
      r := Returned(|out|);
    }
  }
}
