// How concurrent file-system calls share the log (begin_op, log_write, end_op in log.c), as a
// machine whose steps are the critical sections of log.lock, plus the guard at the top of
// log_write, which reads the counters without the lock.

module LogReservation {
  import opened Blocks

  // What a process is doing with the log. An active call may still add `unspent` new blocks;
  // `passed` holds the block of a log_write that is past the guard and not yet under the lock.
  datatype Pending = Nothing | Passed(bno: nat)
  datatype Proc = Outside | Active(unspent: nat, passed: Pending) | Committer

  datatype State = State(blocks: seq<nat>, outstanding: nat, committing: bool, procs: seq<Proc>)

  datatype Step =
    | Begin(p: nat)          // begin_op gets past its loop
    | Guard(p: nat, b: nat)  // log_write passes the guard
    | Append(p: nat)         // log_write records the block
    | End(p: nat)            // end_op gives up its reservation
    | Committed(p: nat)      // commit() has set log.lh.n = 0
    | Finish(p: nat)         // end_op clears log.committing

  function Initial(nproc: nat): (s: State) {
    State([], 0, false, seq(nproc, _ => Outside))
  }

  predicate IsActive(s: State, p: nat) {
    p < |s.procs| && s.procs[p].Active?
  }

  // begin_op lets a call in.
  predicate Admissible(s: State) {
    !s.committing && |s.blocks| + (s.outstanding + 1) * MAXOPBLOCKS <= LOGSIZE
  }

  // The two panics at the top of log_write, for a log of `size` blocks.
  predicate GuardPanics(s: State, size: nat) {
    |s.blocks| >= LOGSIZE || |s.blocks| >= size - 1 || s.outstanding < 1
  }

  // A call adds at most MAXOPBLOCKS new blocks; re-writing a logged block is absorbed.
  predicate WithinReservation(s: State, p: nat, b: nat)
    requires IsActive(s, p)
  {
    b in s.blocks || s.procs[p].unspent > 0
  }

  predicate Enabled(s: State, step: Step, size: nat) {
    match step
    case Begin(p) => p < |s.procs| && s.procs[p] == Outside && Admissible(s)
    case Guard(p, b) => IsActive(s, p) && s.procs[p].passed == Nothing && !GuardPanics(s, size)
    case Append(p) => IsActive(s, p) && s.procs[p].passed.Passed? && WithinReservation(s, p, s.procs[p].passed.bno)
    case End(p) => IsActive(s, p) && s.procs[p].passed == Nothing && s.outstanding > 0
    case Committed(p) => p < |s.procs| && s.procs[p] == Committer
    case Finish(p) => p < |s.procs| && s.procs[p] == Committer && s.blocks == []
  }

  function Next(s: State, step: Step, size: nat): (t: State)
    requires Enabled(s, step, size)
  {
    match step
    case Begin(p) =>
      s.(outstanding := s.outstanding + 1, procs := s.procs[p := Active(MAXOPBLOCKS, Nothing)])
    case Guard(p, b) =>
      s.(procs := s.procs[p := s.procs[p].(passed := Passed(b))])
    case Append(p) =>
      var b := s.procs[p].passed.bno;
      if b in s.blocks then s.(procs := s.procs[p := s.procs[p].(passed := Nothing)])
      else s.(blocks := s.blocks + [b], procs := s.procs[p := Active(s.procs[p].unspent - 1, Nothing)])
    case End(p) =>
      if s.outstanding == 1 then s.(outstanding := 0, committing := true, procs := s.procs[p := Committer])
      else s.(outstanding := s.outstanding - 1, procs := s.procs[p := Outside])
    case Committed(p) => s.(blocks := [])
    case Finish(p) => s.(committing := false, procs := s.procs[p := Outside])
  }

  // ---------- runs ----------

  predicate CanRun(s: State, steps: seq<Step>, size: nat)
    decreases |steps|
  {
    steps == [] || (Enabled(s, steps[0], size) && CanRun(Next(s, steps[0], size), steps[1..], size))
  }

  function Run(s: State, steps: seq<Step>, size: nat): (t: State)
    requires CanRun(s, steps, size)
    decreases |steps|
  {
    if steps == [] then s else Run(Next(s, steps[0], size), steps[1..], size)
  }

  // ---------- the invariant ----------

  // What process p has reserved and not used.
  function Unspent(p: Proc): (r: nat) { if p.Active? then p.unspent else 0 }

  function Reserved(procs: seq<Proc>): (r: nat) {
    if procs == [] then 0 else Reserved(procs[..|procs| - 1]) + Unspent(procs[|procs| - 1])
  }

  function Calls(procs: seq<Proc>): (r: nat) {
    if procs == [] then 0 else Calls(procs[..|procs| - 1]) + (if procs[|procs| - 1].Active? then 1 else 0)
  }

  lemma {:induction false} UpdateCounts(procs: seq<Proc>, p: nat, q: Proc)
    requires p < |procs|
    ensures Reserved(procs[p := q]) == Reserved(procs) - Unspent(procs[p]) + Unspent(q)
    ensures Calls(procs[p := q]) == Calls(procs) - (if procs[p].Active? then 1 else 0) + (if q.Active? then 1 else 0)
  {
    var n := |procs| - 1;
    if p == n {
      assert procs[p := q][..n] == procs[..n];
    } else {
      assert procs[p := q][..n] == procs[..n][p := q];
      UpdateCounts(procs[..n], p, q);
    }
  }

  lemma {:induction false} ReservedBound(procs: seq<Proc>)
    requires forall i :: 0 <= i < |procs| ==> Unspent(procs[i]) <= MAXOPBLOCKS
    ensures Reserved(procs) <= Calls(procs) * MAXOPBLOCKS
  {
    if procs != [] { ReservedBound(procs[..|procs| - 1]); }
  }

  lemma {:induction false} NoCalls(procs: seq<Proc>)
    ensures Calls(procs) == 0 <==> forall i :: 0 <= i < |procs| ==> !procs[i].Active?
  {
    if procs != [] { NoCalls(procs[..|procs| - 1]); }
  }

  // lh.n plus the unspent reservations fits the log; logged blocks are distinct; committing means
  // that no call is outstanding and exactly one process commits; an idle log is empty.
  predicate Inv(s: State) {
    && |s.blocks| + Reserved(s.procs) <= LOGSIZE
    && (forall i, j :: 0 <= i < j < |s.blocks| ==> s.blocks[i] != s.blocks[j])
    && s.outstanding == Calls(s.procs)
    && (forall i :: 0 <= i < |s.procs| ==> Unspent(s.procs[i]) <= MAXOPBLOCKS)
    && (s.committing ==> s.outstanding == 0)
    && (!s.committing ==> forall i :: 0 <= i < |s.procs| ==> s.procs[i] != Committer)
    && (s.committing ==> exists i :: 0 <= i < |s.procs| && s.procs[i] == Committer)
    && (forall i, j :: 0 <= i < j < |s.procs| ==> s.procs[i] != Committer || s.procs[j] != Committer)
    && (s.outstanding == 0 && !s.committing ==> s.blocks == [])
  }

  lemma {:induction false} InitialInv(nproc: nat)
    ensures Inv(Initial(nproc))
  {
    var procs := Initial(nproc).procs;
    Idle(procs);
    NoCalls(procs);
  }

  lemma {:induction false} Idle(procs: seq<Proc>)
    requires forall i :: 0 <= i < |procs| ==> procs[i] == Outside
    ensures Reserved(procs) == 0
  {
    if procs != [] { Idle(procs[..|procs| - 1]); }
  }

  lemma {:induction false} EndKeepsInv(s: State, p: nat, size: nat)
    requires Inv(s) && Enabled(s, End(p), size)
    ensures Inv(Next(s, End(p), size))
  {
    var t := Next(s, End(p), size);
    NoCalls(s.procs);
    UpdateCounts(s.procs, p, t.procs[p]);
    assert t.procs[p] == if s.outstanding == 1 then Committer else Outside;
  }

  lemma {:induction false} AppendKeepsInv(s: State, p: nat, size: nat)
    requires Inv(s) && Enabled(s, Append(p), size)
    ensures Inv(Next(s, Append(p), size))
  {
    NoCalls(s.procs);
    UpdateCounts(s.procs, p, Next(s, Append(p), size).procs[p]);
  }

  lemma {:induction false} StepKeepsInv(s: State, step: Step, size: nat)
    requires Inv(s) && Enabled(s, step, size)
    ensures Inv(Next(s, step, size))
  {
    var t := Next(s, step, size);
    match step {
      case Begin(p) =>
        ReservedBound(s.procs);
        UpdateCounts(s.procs, p, t.procs[p]);
      case Guard(p, b) => UpdateCounts(s.procs, p, t.procs[p]);
      case Append(p) => AppendKeepsInv(s, p, size);
      case End(p) => EndKeepsInv(s, p, size);
      case Committed(p) =>
      case Finish(p) => UpdateCounts(s.procs, p, t.procs[p]);
    }
  }

  // Over every interleaving of any number of processes the invariant holds.
  lemma {:induction false} RunKeepsInv(s: State, steps: seq<Step>, size: nat)
    requires Inv(s) && CanRun(s, steps, size)
    ensures Inv(Run(s, steps, size))
    decreases |steps|
  {
    if steps != [] {
      StepKeepsInv(s, steps[0], size);
      RunKeepsInv(Next(s, steps[0], size), steps[1..], size);
    }
  }

  ghost predicate Reachable(s: State, size: nat) {
    exists nproc: nat, steps: seq<Step> ::
      CanRun(Initial(nproc), steps, size) && Run(Initial(nproc), steps, size) == s
  }

  // RESERVATION INVARIANT, for every reachable state of a log of any size.
  lemma ReachableInv(s: State, size: nat)
    requires Reachable(s, size)
    ensures Inv(s)
  {
    var nproc: nat, steps: seq<Step> :| CanRun(Initial(nproc), steps, size) && Run(Initial(nproc), steps, size) == s;
    InitialInv(nproc);
    RunKeepsInv(Initial(nproc), steps, size);
  }

  // begin_op lets a call in exactly when nobody commits and the logged blocks, a full reservation for every
  // call that is under way and one more fit LOGSIZE.
  lemma {:induction false} BeginIff(s: State, size: nat, p: nat)
    requires Reachable(s, size) && p < |s.procs| && s.procs[p] == Outside
    ensures Enabled(s, Begin(p), size) <==>
            && (forall q :: 0 <= q < |s.procs| ==> s.procs[q] != Committer)
            && |s.blocks| + Calls(s.procs) * MAXOPBLOCKS + MAXOPBLOCKS <= LOGSIZE
    ensures Enabled(s, Begin(p), size) ==>
              var t := Next(s, Begin(p), size);
              t.blocks == s.blocks && t.procs == s.procs[p := Active(MAXOPBLOCKS, Nothing)] && !t.committing
  {
    ReachableInv(s, size);
  }

  // end_op never finds log.committing set, so its panic is dead code.
  lemma EndNeverPanics(s: State, size: nat, p: nat)
    requires Reachable(s, size) && IsActive(s, p)
    ensures !s.committing && s.outstanding > 0
  {
    ReachableInv(s, size);
    NoCalls(s.procs);
  }

  // ---------- waiting in begin_op ends ----------

  predicate NoneInLogWrite(s: State) {
    forall i :: 0 <= i < |s.procs| ==> s.procs[i].Active? ==> s.procs[i].passed == Nothing
  }

  // From any state in which no log_write is half done, letting the outstanding calls end and the
  // last of them commit makes begin_op admissible again: a waiting call is not stuck.
  lemma {:induction false} WaitersGetIn(s: State, size: nat) returns (steps: seq<Step>)
    requires Inv(s) && NoneInLogWrite(s)
    ensures CanRun(s, steps, size) && Admissible(Run(s, steps, size))
    decreases s.outstanding, s.committing, |s.blocks|
  {
    NoCalls(s.procs);
    var step;
    if s.outstanding > 0 {
      var p :| 0 <= p < |s.procs| && s.procs[p].Active?;
      step := End(p);
      if s.outstanding == 1 {
        steps := CommitterGetsThem(s, p, size);
        return;
      }
    } else if s.committing {
      var p :| 0 <= p < |s.procs| && s.procs[p] == Committer;
      step := if s.blocks == [] then Finish(p) else Committed(p);
    } else {
      return [];
    }
    StepKeepsInv(s, step, size);
    var rest := WaitersGetIn(Next(s, step, size), size);
    steps := [step] + rest;
    assert steps[1..] == rest;
  }

  // The last call to end commits and re-opens the log.
  lemma CommitterGetsThem(s: State, p: nat, size: nat) returns (steps: seq<Step>)
    requires Inv(s) && IsActive(s, p) && s.procs[p].passed == Nothing && s.outstanding == 1
    ensures CanRun(s, steps, size) && Admissible(Run(s, steps, size))
  {
    var s1 := Next(s, End(p), size);
    var s2 := Next(s1, Committed(p), size);
    steps := [End(p), Committed(p), Finish(p)];
    assert steps[1..] == [Committed(p), Finish(p)];
    assert steps[1..][1..] == [Finish(p)];
    var s3 := Next(s2, Finish(p), size);
    assert Run(s2, [Finish(p)], size) == Run(s3, [], size) == s3;
    assert Run(s1, steps[1..], size) == s3;
  }

  // ---------- does the transaction fit the log area? ----------

  lemma {:induction false} RunThen(s: State, steps: seq<Step>, step: Step, size: nat)
    requires CanRun(s, steps, size) && Enabled(Run(s, steps, size), step, size)
    ensures CanRun(s, steps + [step], size)
    ensures Run(s, steps + [step], size) == Next(Run(s, steps, size), step, size)
    decreases |steps|
  {
    if steps != [] {
      assert (steps + [step])[1..] == steps[1..] + [step];
      RunThen(Next(s, steps[0], size), steps[1..], step, size);
    }
  }

  lemma ReachableThen(s: State, step: Step, size: nat)
    requires Reachable(s, size) && Enabled(s, step, size)
    ensures Reachable(Next(s, step, size), size)
  {
    var nproc: nat, steps: seq<Step> :| CanRun(Initial(nproc), steps, size) && Run(Initial(nproc), steps, size) == s;
    RunThen(Initial(nproc), steps, step, size);
  }

  // Three calls that have together logged blocks 0..k-1, process WhoWrites(i) having logged block i.
  function WhoWrites(k: nat): (p: nat) { if k < 10 then 0 else if k < 19 then 1 else if k < 29 then 2 else 1 }

  function Left(k: nat, p: nat): (r: nat)
    requires k <= LOGSIZE && p < 3
  {
    if p == 0 then (if k < 10 then 10 - k else 0)
    else if p == 1 then (if k < 10 then 10 else if k < 19 then 20 - k else if k < 30 then 1 else 0)
    else (if k < 19 then 10 else if k < 29 then 29 - k else 0)
  }

  function Filled(k: nat): (s: State)
    requires k <= LOGSIZE
  {
    State(seq(k, i => i), 3, false, [Active(Left(k, 0), Nothing), Active(Left(k, 1), Nothing),
        Active(Left(k, 2), Nothing)])
  }

  lemma EmptyFilledReachable(size: nat)
    ensures Reachable(Filled(0), size)
  {
    var s0 := Initial(3);
    assert CanRun(s0, [], size) && Run(s0, [], size) == s0;
    ReachableThen(s0, Begin(0), size);
    var s1 := Next(s0, Begin(0), size);
    ReachableThen(s1, Begin(1), size);
    var s2 := Next(s1, Begin(1), size);
    ReachableThen(s2, Begin(2), size);
    assert Next(s2, Begin(2), size) == Filled(0);
  }

  lemma {:induction false} FilledReachable(k: nat, size: nat)
    requires k <= LOGSIZE && k < size
    ensures Reachable(Filled(k), size)
  {
    if k == 0 {
      EmptyFilledReachable(size);
    } else {
      FilledReachable(k - 1, size);
      var p, s := WhoWrites(k - 1), Filled(k - 1);
      ReachableThen(s, Guard(p, k - 1), size);
      var t := Next(s, Guard(p, k - 1), size);
      ReachableThen(t, Append(p), size);
      FilledStep(k, size);
    }
  }

  lemma FilledStep(k: nat, size: nat)
    requires 1 <= k <= LOGSIZE && k < size
    ensures var s, p := Filled(k - 1), WhoWrites(k - 1);
            Enabled(s, Guard(p, k - 1), size) && Enabled(Next(s, Guard(p, k - 1), size), Append(p), size) &&
            Next(Next(s, Guard(p, k - 1), size), Append(p), size) == Filled(k)
  {
    assert k - 1 !in Filled(k - 1).blocks;
    assert Filled(k).blocks == Filled(k - 1).blocks + [k - 1];
  }

  // Two calls pass the unlocked guard together when one slot is left, and both append.
  lemma Race(size: nat) returns (s: State)
    requires 2 <= size <= LOGSIZE
    ensures Reachable(s, size) && |s.blocks| == size
  {
    var k := size - 2;
    var s0 := Filled(k);
    FilledReachable(k, size);
    ReachableThen(s0, Guard(1, k), size);
    var s1 := Next(s0, Guard(1, k), size);
    ReachableThen(s1, Guard(2, k + 1), size);
    var s2 := Next(s1, Guard(2, k + 1), size);
    ReachableThen(s2, Append(1), size);
    var s3 := Next(s2, Append(1), size);
    ReachableThen(s3, Append(2), size);
    s := Next(s3, Append(2), size);
  }

  // Every reachable transaction has room behind the header block of a log of `size` blocks.
  ghost predicate AlwaysFits(size: nat) {
    forall s :: Reachable(s, size) ==> |s.blocks| <= size - 1
  }

  lemma {:induction false} TinyLogStaysEmpty(s: State, steps: seq<Step>, size: nat)
    requires size <= 1 && CanRun(s, steps, size) && s.blocks == []
    requires forall i :: 0 <= i < |s.procs| ==> s.procs[i].Active? ==> s.procs[i].passed == Nothing
    ensures Run(s, steps, size).blocks == []
    decreases |steps|
  {
    if steps != [] { TinyLogStaysEmpty(Next(s, steps[0], size), steps[1..], size); }
  }

  lemma TinyLogEmpty(s: State, size: nat)
    requires Reachable(s, size) && size <= 1
    ensures s.blocks == []
  {
    var nproc: nat, steps: seq<Step> :| CanRun(Initial(nproc), steps, size) && Run(Initial(nproc), steps, size) == s;
    TinyLogStaysEmpty(Initial(nproc), steps, size);
  }

  // The log area is never overrun exactly when it is larger than LOGSIZE blocks (or too small to
  // log anything at all). mkfs makes it LOGSIZE blocks, so the unlocked guard can be raced past.
  lemma AlwaysFitsIff(size: nat)
    requires size >= 1
    ensures AlwaysFits(size) <==> size == 1 || size > LOGSIZE
  {
    if size > LOGSIZE {
      forall s | Reachable(s, size)
        ensures |s.blocks| <= size - 1
      {
        ReachableInv(s, size);
      }
    } else if size == 1 {
      forall s | Reachable(s, size)
        ensures |s.blocks| <= size - 1
      {
        TinyLogEmpty(s, size);
      }
    } else {
      var s := Race(size);
    }
  }

  // A call that stays within its reservation and logs a new block is never stopped by the guard.
  ghost predicate ReservationSuffices(size: nat) {
    forall s, p: nat, b ::
      Reachable(s, size) && IsActive(s, p) && s.procs[p].unspent > 0 && b !in s.blocks ==> !GuardPanics(s, size)
  }

  // That holds exactly for a log larger than LOGSIZE blocks: with the LOGSIZE blocks mkfs gives
  // it, a call with reservation left can find the log "full" and panic.
  lemma ReservationSufficesIff(size: nat)
    requires size >= 1
    ensures ReservationSuffices(size) <==> size > LOGSIZE
  {
    if size > LOGSIZE {
      forall s, p: nat, b | Reachable(s, size) && IsActive(s, p) && s.procs[p].unspent > 0 && b !in s.blocks
        ensures !GuardPanics(s, size)
      {
        ReachableInv(s, size);
        NoCalls(s.procs);
        ReservedAtLeast(s.procs, p);
      }
    } else {
      var k := size - 1;
      FilledReachable(k, size);
      var s, p := Filled(k), WhoWrites(k);
      assert IsActive(s, p) && s.procs[p].unspent > 0 && GuardPanics(s, size);
      assert k !in s.blocks;
    }
  }

  lemma {:induction false} ReservedAtLeast(procs: seq<Proc>, p: nat)
    requires p < |procs|
    ensures Reserved(procs) >= Unspent(procs[p])
  {
    if p < |procs| - 1 { ReservedAtLeast(procs[..|procs| - 1], p); }
  }

  // ---------- the guard comes before absorption ----------

  // A call in the middle of its work that writes a block which is already logged. No new slot is
  // needed for it.
  predicate Relogs(s: State, p: nat, b: nat) {
    IsActive(s, p) && s.procs[p].passed == Nothing && b in s.blocks
  }

  // The guard never stops such a call.
  ghost predicate AbsorptionSafe(size: nat) {
    forall s, p: nat, b :: Reachable(s, size) && Relogs(s, p, b) ==> !GuardPanics(s, size)
  }

  // A log filled up to what its guard allows rejects the blocks it holds, whatever its size.
  lemma AbsorptionCanPanic(size: nat) returns (s: State)
    requires size >= 2
    ensures Reachable(s, size) && Relogs(s, 0, 0) && GuardPanics(s, size)
  {
    var k := if size > LOGSIZE then LOGSIZE else size - 1;
    FilledReachable(k, size);
    s := Filled(k);
    assert s.blocks[0] == 0;
  }

  // So absorption is safe for no log that can hold a block.
  lemma AbsorptionSafeIff(size: nat)
    ensures AbsorptionSafe(size) <==> size <= 1
  {
    if size <= 1 {
      forall s | Reachable(s, size)
        ensures s.blocks == []
      {
        TinyLogEmpty(s, size);
      }
    } else {
      var s := AbsorptionCanPanic(size);
    }
  }

  // The condition a caller can look up: re-logging passes exactly while the transaction is below both
  // limits. In a log of more than LOGSIZE blocks a reservation left to anyone is enough.
  lemma RelogPassesIff(s: State, size: nat, p: nat, b: nat)
    requires Reachable(s, size) && Relogs(s, p, b)
    ensures !GuardPanics(s, size) <==> |s.blocks| < LOGSIZE && |s.blocks| < size - 1
    ensures size > LOGSIZE ==> (!GuardPanics(s, size) <==> |s.blocks| < LOGSIZE)
    ensures size > LOGSIZE && Reserved(s.procs) > 0 ==> !GuardPanics(s, size)
  {
    ReachableInv(s, size);
    NoCalls(s.procs);
  }
}
