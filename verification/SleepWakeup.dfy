// sleep and wakeup (proc.c) as an interleaving of single steps, for any number of processes, channels
// and locks. Each channel has a condition and names the lock lk under which the condition is changed;
// channels may share a lock, as the two of a pipe do. Sleepers check the condition under lk and hand lk over
// for ptable.lock; whoever makes a condition true owes a wakeup on its channel, and does it before or after
// releasing lk, but before going to sleep.

module SleepWakeup {
  datatype Option = None | Some(value: nat)

  // Where a process is.
  datatype Place =
    | Out               // holds no lock
    | Locked(l: nat)    // holds lock l
    | Checked(c: nat)   // holds the lock of channel c, has seen its condition false
    | Both(c: nat)      // in sleep: holds that lock and ptable.lock
    | Going(c: nat)     // in sleep: holds ptable.lock only
    | Asleep(c: nat)    // SLEEPING on c
    | Woken(c: nat)     // RUNNABLE again, not yet run
    | Resumed(c: nat)   // back from sched, holding ptable.lock
    | Relock(c: nat)    // about to take the lock of c again

  // In wakeup1 for channel c, at slot k, holding ptable.lock.
  datatype Wake = NoWake | Waking(c: nat, k: nat)

  // owes: the channels whose condition this process has made true without a wakeup since.
  datatype Proc = Proc(at: Place, owes: set<nat>, wake: Wake)

  // lockOf[c] is the lock of channel c.
  datatype State = State(procs: seq<Proc>, cond: seq<bool>, lockOf: seq<nat>, lk: seq<Option>, plock: Option)

  datatype Step =
    | Acquire(p: nat, l: nat)
    | Check(p: nat, c: nat)
    | SleepTakeP(p: nat)
    | SleepDropLk(p: nat)
    | SleepSwitch(p: nat)
    | Resume(p: nat)
    | ResumeDropP(p: nat)
    | MakeFalse(p: nat, c: nat)
    | MakeTrue(p: nat, c: nat)
    | Release(p: nat)
    | WakeTakeP(p: nat, c: nat)
    | WakeSlot(p: nat)
    | WakeDone(p: nat)
    | Kill(p: nat, q: nat)

  // The channel a process is going to sleep on, sleeps on, or comes back from.
  predicate Sleeper(at: Place) { at.Both? || at.Going? || at.Asleep? || at.Woken? || at.Resumed? || at.Relock? }

  predicate PlaceOk(s: State, at: Place) {
    match at
    case Out => true
    case Locked(l) => l < |s.lk|
    case Checked(c) => c < |s.cond|
    case _ => at.c < |s.cond|
  }

  predicate HoldsLk(s: State, at: Place, l: nat) {
    match at
    case Locked(m) => m == l
    case Checked(c) => c < |s.lockOf| && s.lockOf[c] == l
    case Both(c) => c < |s.lockOf| && s.lockOf[c] == l
    case _ => false
  }

  predicate HoldsP(q: Proc) { q.at.Both? || q.at.Going? || q.at.Resumed? || q.wake.Waking? }

  // This process has still to wake whoever sleeps on c in slot p.
  predicate Owes(q: Proc, c: nat, p: nat) {
    c in q.owes || (q.wake.Waking? && q.wake.c == c && q.wake.k <= p)
  }

  ghost predicate Shape(s: State) {
    && |s.lockOf| == |s.cond| && (forall c :: 0 <= c < |s.lockOf| ==> s.lockOf[c] < |s.lk|)
    && (forall p :: 0 <= p < |s.procs| ==> PlaceOk(s, s.procs[p].at))
    && (forall p :: 0 <= p < |s.procs| && s.procs[p].wake.Waking? ==> s.procs[p].wake.k <= |s.procs|)
    && (s.plock.Some? ==> s.plock.value < |s.procs|)
    && (forall l :: 0 <= l < |s.lk| && s.lk[l].Some? ==> s.lk[l].value < |s.procs|)
  }

  // The locks are held by exactly the processes that believe they hold them.
  ghost predicate Locks(s: State) {
    && (forall p :: 0 <= p < |s.procs| ==> (HoldsP(s.procs[p]) <==> s.plock == Some(p)))
    && (forall p, l {:trigger HoldsLk(s, s.procs[p].at, l)} :: 0 <= p < |s.procs| && 0 <= l < |s.lk| ==>
          (HoldsLk(s, s.procs[p].at, l) <==> s.lk[l] == Some(p)))
  }

  // A process on its way to sleep, asleep or coming back has done all its wakeups.
  ghost predicate Settled(s: State) {
    forall p :: 0 <= p < |s.procs| && Sleeper(s.procs[p].at) ==> s.procs[p].owes == {} && s.procs[p].wake == NoWake
  }

  // Some process still owes slot p a wakeup on c.
  ghost predicate Coming(s: State, c: nat, p: nat) {
    exists w {:trigger s.procs[w]} :: 0 <= w < |s.procs| && Owes(s.procs[w], c, p)
  }

  // A process past its check but still holding the lock sees the condition false; one on its way to sleep,
  // or asleep, while the condition is true, has a wakeup coming.
  ghost predicate Awaited(s: State)
    requires Shape(s)
  {
    && (forall p :: 0 <= p < |s.procs| && (s.procs[p].at.Checked? || s.procs[p].at.Both?) ==> !s.cond[s.procs[p].at.c])
    && (forall p :: 0 <= p < |s.procs| && (s.procs[p].at.Going? || s.procs[p].at.Asleep?) && s.cond[s.procs[p].at.c] ==>
          Coming(s, s.procs[p].at.c, p))
  }

  ghost predicate Inv(s: State) { Shape(s) && Locks(s) && Settled(s) && Awaited(s) }

  // p holds the lock of channel c and is not inside wakeup.
  predicate Owns(s: State, q: Proc, c: nat) {
    c < |s.cond| == |s.lockOf| && (q.at.Locked? || q.at.Checked?) && HoldsLk(s, q.at, s.lockOf[c]) && q.wake == NoWake
  }

  predicate Enabled(s: State, step: Step) {
    && step.p < |s.procs| && |s.lockOf| == |s.cond|
    && var q := s.procs[step.p];
       match step
       case Acquire(p, l) =>
         && l < |s.lk| && s.lk[l] == None && q.wake == NoWake
         && (q.at == Out || (q.at.Relock? && q.at.c < |s.lockOf| && s.lockOf[q.at.c] == l))
       case Check(p, c) => Owns(s, q, c) && !s.cond[c]
       case SleepTakeP(p) => q.at.Checked? && q.wake == NoWake && q.owes == {} && s.plock == None
       case SleepDropLk(p) => q.at.Both? && q.at.c < |s.lockOf| && s.lockOf[q.at.c] < |s.lk|
       case SleepSwitch(p) => q.at.Going?
       case Resume(p) => q.at.Woken? && s.plock == None
       case ResumeDropP(p) => q.at.Resumed?
       case MakeFalse(p, c) => Owns(s, q, c)
       case MakeTrue(p, c) => Owns(s, q, c)
       case Release(p) =>
         && q.wake == NoWake && (q.at.Locked? || q.at.Checked?)
         && (q.at.Locked? ==> q.at.l < |s.lk|) && (q.at.Checked? ==> q.at.c < |s.lockOf| && s.lockOf[q.at.c] < |s.lk|)
       case WakeTakeP(p, c) => (q.at.Out? || q.at.Locked? || q.at.Checked?) && q.wake == NoWake && s.plock == None
       case WakeSlot(p) => q.wake.Waking? && q.wake.k < |s.procs|
       case WakeDone(p) => q.wake.Waking? && q.wake.k == |s.procs|
       case Kill(p, k) => q.at.Out? && s.plock == None && k < |s.procs|
  }

  function Rouse(q: Proc): (r: Proc) { if q.at.Asleep? then q.(at := Woken(q.at.c)) else q }

  // The lock a process that is past Acquire holds.
  function LockOf(s: State, at: Place): (l: nat) {
    if at.Locked? then at.l else if at.Checked? && at.c < |s.lockOf| then s.lockOf[at.c] else 0
  }

  function Next(s: State, step: Step): (r: State)
    requires Enabled(s, step)
  {
    var p := step.p;
    var q := s.procs[p];
    match step
    case Acquire(_, l) => s.(procs := s.procs[p := q.(at := Locked(l))], lk := s.lk[l := Some(p)])
    case Check(_, c) => s.(procs := s.procs[p := q.(at := Checked(c))])
    case SleepTakeP(_) => s.(procs := s.procs[p := q.(at := Both(q.at.c))], plock := Some(p))
    case SleepDropLk(_) => s.(procs := s.procs[p := q.(at := Going(q.at.c))], lk := s.lk[s.lockOf[q.at.c] := None])
    case SleepSwitch(_) => s.(procs := s.procs[p := q.(at := Asleep(q.at.c))], plock := None)
    case Resume(_) => s.(procs := s.procs[p := q.(at := Resumed(q.at.c))], plock := Some(p))
    case ResumeDropP(_) => s.(procs := s.procs[p := q.(at := Relock(q.at.c))], plock := None)
    case MakeFalse(_, c) => s.(procs := s.procs[p := q.(at := Locked(s.lockOf[c]))], cond := s.cond[c := false])
    case MakeTrue(_, c) =>
      s.(procs := s.procs[p := q.(at := Locked(s.lockOf[c]), owes := q.owes + {c})], cond := s.cond[c := true])
    case Release(_) => s.(procs := s.procs[p := q.(at := Out)], lk := s.lk[LockOf(s, q.at) := None])
    case WakeTakeP(_, c) => s.(procs := s.procs[p := q.(owes := q.owes - {c}, wake := Waking(c, 0))], plock := Some(p))
    case WakeSlot(_) =>
      var k := q.wake.k;
      var woken := if s.procs[k].at == Asleep(q.wake.c) then s.procs[k := Rouse(s.procs[k])] else s.procs;
      s.(procs := woken[p := q.(wake := Waking(q.wake.c, k + 1))])
    case WakeDone(_) => s.(procs := s.procs[p := q.(wake := NoWake)], plock := None)
    case Kill(_, k) => s.(procs := s.procs[k := Rouse(s.procs[k])])
  }

  lemma {:induction false} StepShape(s: State, step: Step)
    requires Inv(s) && Enabled(s, step)
    ensures Shape(Next(s, step)) && |Next(s, step).procs| == |s.procs| && Next(s, step).lockOf == s.lockOf
    ensures |Next(s, step).lk| == |s.lk|
  {
    hide Locks, Settled, Awaited;
  }

  lemma {:induction false} StepHoldsP(s: State, step: Step, p: nat)
    requires Inv(s) && Enabled(s, step) && p < |s.procs| == |Next(s, step).procs|
    ensures HoldsP(Next(s, step).procs[p]) <==> Next(s, step).plock == Some(p)
  {
    assert HoldsP(s.procs[p]) <==> s.plock == Some(p);
    assert HoldsP(s.procs[step.p]) <==> s.plock == Some(step.p);
  }

  lemma {:induction false} StepHoldsLk(s: State, step: Step, p: nat, l: nat)
    requires Inv(s) && Enabled(s, step) && p < |s.procs| == |Next(s, step).procs| && l < |s.lk| == |Next(s, step).lk|
    ensures HoldsLk(Next(s, step), Next(s, step).procs[p].at, l) <==> Next(s, step).lk[l] == Some(p)
  {
    assert HoldsLk(s, s.procs[p].at, l) <==> s.lk[l] == Some(p);
    assert HoldsLk(s, s.procs[step.p].at, l) <==> s.lk[l] == Some(step.p);
  }

  lemma {:induction false} StepLocks(s: State, step: Step)
    requires Inv(s) && Enabled(s, step)
    ensures Shape(Next(s, step)) && Locks(Next(s, step)) && |Next(s, step).procs| == |s.procs|
  {
    hide Next, Enabled, HoldsP, HoldsLk, Awaited, Settled;
    StepShape(s, step);
    var r := Next(s, step);
    forall p | 0 <= p < |r.procs|
      ensures HoldsP(r.procs[p]) <==> r.plock == Some(p)
    {
      StepHoldsP(s, step, p);
    }
    forall p, l | 0 <= p < |r.procs| && 0 <= l < |r.lk|
      ensures HoldsLk(r, r.procs[p].at, l) <==> r.lk[l] == Some(p)
    {
      StepHoldsLk(s, step, p, l);
    }
  }

  lemma {:induction false} StepSettled(s: State, step: Step)
    requires Inv(s) && Enabled(s, step)
    ensures Settled(Next(s, step))
  {
  }

  // Past the check, nobody else can have made the condition true.
  lemma {:induction false} StepChecked(s: State, step: Step, p: nat)
    requires Inv(s) && Enabled(s, step) && Shape(Next(s, step))
    requires p < |s.procs| && (Next(s, step).procs[p].at.Checked? || Next(s, step).procs[p].at.Both?)
    ensures !Next(s, step).cond[Next(s, step).procs[p].at.c]
  {
    hide Settled;
    var c := Next(s, step).procs[p].at.c;
    var l := s.lockOf[c];
    assert HoldsLk(s, s.procs[p].at, l) <==> s.lk[l] == Some(p);
    assert HoldsLk(s, s.procs[step.p].at, l) <==> s.lk[l] == Some(step.p);
  }

  // A wakeup that was coming is still coming, or has arrived.
  lemma {:induction false} StepOwes(s: State, step: Step, c: nat, p: nat, w: nat)
    requires Inv(s) && Enabled(s, step) && w < |s.procs| && p < |s.procs| && Owes(s.procs[w], c, p)
    requires s.procs[p].at == Going(c) || s.procs[p].at == Asleep(c)
    requires Next(s, step).procs[p].at == Going(c) || Next(s, step).procs[p].at == Asleep(c)
    ensures w < |Next(s, step).procs| && Owes(Next(s, step).procs[w], c, p)
  {
    assert HoldsP(s.procs[p]) <==> s.plock == Some(p);
    assert HoldsP(s.procs[w]) <==> s.plock == Some(w);
  }

  lemma {:induction false} StepSleeper(s: State, step: Step, p: nat)
    requires Inv(s) && Enabled(s, step) && Shape(Next(s, step)) && |Next(s, step).procs| == |s.procs|
    requires p < |s.procs| && (Next(s, step).procs[p].at.Going? || Next(s, step).procs[p].at.Asleep?)
    requires Next(s, step).cond[Next(s, step).procs[p].at.c]
    ensures Coming(Next(s, step), Next(s, step).procs[p].at.c, p)
  {
    var r := Next(s, step);
    var c := r.procs[p].at.c;
    if !s.cond[c] {
      assert step.MakeTrue? && Owes(r.procs[step.p], c, p);
    } else {
      assert s.procs[p].at == Going(c) || s.procs[p].at == Asleep(c);
      var w :| 0 <= w < |s.procs| && Owes(s.procs[w], c, p);
      StepOwes(s, step, c, p, w);
    }
  }

  // Every step keeps the invariant.
  lemma {:induction false} StepKeeps(s: State, step: Step)
    requires Inv(s) && Enabled(s, step)
    ensures Inv(Next(s, step)) && |Next(s, step).procs| == |s.procs|
  {
    hide Next, Enabled, Locks, Settled, Coming;
    StepLocks(s, step);
    StepSettled(s, step);
    var r := Next(s, step);
    forall p | 0 <= p < |r.procs| && (r.procs[p].at.Checked? || r.procs[p].at.Both?)
      ensures !r.cond[r.procs[p].at.c]
    {
      StepChecked(s, step, p);
    }
    forall p | 0 <= p < |r.procs| && (r.procs[p].at.Going? || r.procs[p].at.Asleep?) && r.cond[r.procs[p].at.c]
      ensures Coming(r, r.procs[p].at.c, p)
    {
      StepSleeper(s, step, p);
    }
  }

  // ---------- every run ----------

  // n processes, all locks free; channel c has condition conds[c] and lock lockOf[c].
  function Init(n: nat, conds: seq<bool>, lockOf: seq<nat>, locks: nat): (s: State) {
    State(seq(n, _ => Proc(Out, {}, NoWake)), conds, lockOf, seq(locks, _ => None), None)
  }

  ghost predicate CanRun(s: State, steps: seq<Step>)
    decreases |steps|
  {
    steps == [] || (Enabled(s, steps[0]) && CanRun(Next(s, steps[0]), steps[1..]))
  }

  ghost function Run(s: State, steps: seq<Step>): (r: State)
    requires CanRun(s, steps)
    decreases |steps|
  {
    if steps == [] then s else Run(Next(s, steps[0]), steps[1..])
  }

  lemma {:induction false} RunKeeps(s: State, steps: seq<Step>)
    requires Inv(s) && CanRun(s, steps)
    ensures Inv(Run(s, steps))
    decreases |steps|
  {
    hide Inv, Enabled, Next;
    if steps != [] {
      StepKeeps(s, steps[0]);
      RunKeeps(Next(s, steps[0]), steps[1..]);
    }
  }

  // Every channel has a lock.
  predicate Wired(conds: seq<bool>, lockOf: seq<nat>, locks: nat) {
    |lockOf| == |conds| && forall c :: 0 <= c < |lockOf| ==> lockOf[c] < locks
  }

  // No lost wakeup: in every reachable state, if a process sleeps on a channel whose condition is true, some
  // process that is not asleep itself is still between making it true and reaching that sleeper's slot in
  // wakeup.
  lemma {:induction false} NoLostWakeup(n: nat, conds: seq<bool>, lockOf: seq<nat>, locks: nat, steps: seq<Step>,
          p: nat)
    requires Wired(conds, lockOf, locks) && CanRun(Init(n, conds, lockOf, locks), steps)
    ensures var s := Run(Init(n, conds, lockOf, locks), steps);
            && Shape(s)
            && (p < |s.procs| && s.procs[p].at.Asleep? && s.cond[s.procs[p].at.c] ==>
                  exists w {:trigger s.procs[w]} :: 0 <= w < |s.procs| && Owes(s.procs[w], s.procs[p].at.c, p) &&
                      !Sleeper(s.procs[w].at))
  {
    hide Enabled, Next, Locks;
    InitInv(n, conds, lockOf, locks);
    RunKeeps(Init(n, conds, lockOf, locks), steps);
    var s := Run(Init(n, conds, lockOf, locks), steps);
    if p < |s.procs| && s.procs[p].at.Asleep? && s.cond[s.procs[p].at.c] {
      assert Coming(s, s.procs[p].at.c, p);
    }
  }

  lemma InitInv(n: nat, conds: seq<bool>, lockOf: seq<nat>, locks: nat)
    requires Wired(conds, lockOf, locks)
    ensures Inv(Init(n, conds, lockOf, locks))
  {
  }

  // Once every wakeup owed on c has been done, nobody sleeps on c unless its condition is false.
  lemma {:induction false} Quiescent(n: nat, conds: seq<bool>, lockOf: seq<nat>, locks: nat, steps: seq<Step>, c: nat)
    requires Wired(conds, lockOf, locks) && CanRun(Init(n, conds, lockOf, locks), steps)
    requires var s := Run(Init(n, conds, lockOf, locks), steps);
             && c < |s.cond| && s.cond[c]
             && forall w, p :: 0 <= w < |s.procs| && 0 <= p < |s.procs| ==> !Owes(s.procs[w], c, p)
    ensures var s := Run(Init(n, conds, lockOf, locks), steps);
            forall p :: 0 <= p < |s.procs| ==> s.procs[p].at != Asleep(c)
  {
    hide Enabled, Next, Locks, Run, CanRun;
    var s := Run(Init(n, conds, lockOf, locks), steps);
    InitInv(n, conds, lockOf, locks);
    RunKeeps(Init(n, conds, lockOf, locks), steps);
    forall p | 0 <= p < |s.procs|
      ensures s.procs[p].at != Asleep(c)
    {
      assert !Coming(s, c, p);
    }
  }

  // ---------- sleepers can be woken ----------

  ghost predicate Reaches(s: State, r: State) { exists steps :: CanRun(s, steps) && Run(s, steps) == r }

  lemma {:induction false} RunThen(s: State, steps: seq<Step>, step: Step)
    requires CanRun(s, steps) && Enabled(Run(s, steps), step)
    ensures CanRun(s, steps + [step]) && Run(s, steps + [step]) == Next(Run(s, steps), step)
    decreases |steps|
  {
    hide Enabled, Next;
    if steps == [] {
      assert steps + [step] == [step] && [step][1..] == [];
      assert CanRun(Next(s, step), []) && Run(Next(s, step), []) == Next(s, step);
    } else {
      assert (steps + [step])[1..] == steps[1..] + [step];
      RunThen(Next(s, steps[0]), steps[1..], step);
    }
  }

  lemma {:induction false} ReachesNext(s: State, r: State, step: Step)
    requires Reaches(s, r) && Enabled(r, step)
    ensures Reaches(s, Next(r, step))
  {
    hide Enabled, Next, CanRun, Run;
    var steps :| CanRun(s, steps) && Run(s, steps) == r;
    RunThen(s, steps, step);
  }

  lemma ReachesSelf(s: State)
    ensures Reaches(s, s)
  {
    assert CanRun(s, []) && Run(s, []) == s;
  }

  lemma {:induction false} ReachesInv(s: State, r: State)
    requires Inv(s) && Reaches(s, r)
    ensures Inv(r)
  {
    hide Inv, CanRun, Run;
    var steps :| CanRun(s, steps) && Run(s, steps) == r;
    RunKeeps(s, steps);
  }

  // From s to r nobody has moved but process w, except that sleepers may have been woken.
  ghost predicate OnlyWoke(s: State, r: State, w: nat) {
    && |r.procs| == |s.procs| && r.cond == s.cond && w < |s.procs| && r.procs[w].owes == s.procs[w].owes
    && forall q {:trigger r.procs[q]} {:trigger s.procs[q]} :: 0 <= q < |s.procs| && q != w ==>
         r.procs[q] == s.procs[q] || r.procs[q] == Rouse(s.procs[q])
  }

  // Process w goes through the rest of wakeup1: whoever sleeps on its channel in a slot still ahead is woken.
  lemma {:induction false} FinishWake(s0: State, s: State, w: nat) returns (r: State)
    requires Inv(s0) && Reaches(s0, s) && w < |s.procs| && s.procs[w].wake.Waking?
    ensures Reaches(s0, r) && r.plock == None && OnlyWoke(s, r, w)
    ensures var c := s.procs[w].wake.c;
            forall q {:trigger r.procs[q]} :: s.procs[w].wake.k <= q < |s.procs| && s.procs[q].at == Asleep(c) ==>
              r.procs[q].at == Woken(c)
    decreases if s.procs[w].wake.k < |s.procs| then |s.procs| - s.procs[w].wake.k else 0
  {
    hide Reaches, Locks, Awaited;
    ReachesInv(s0, s);
    assert !Sleeper(s.procs[w].at);
    if s.procs[w].wake.k == |s.procs| {
      ReachesNext(s0, s, WakeDone(w));
      r := Next(s, WakeDone(w));
    } else {
      ReachesNext(s0, s, WakeSlot(w));
      var t := Next(s, WakeSlot(w));
      assert OnlyWoke(s, t, w);
      r := FinishWake(s0, t, w);
    }
  }

  // Whoever holds ptable.lock can go on until it is free.
  lemma {:induction false} FreeP(s0: State, s: State) returns (r: State)
    requires Inv(s0) && Reaches(s0, s)
    ensures Reaches(s0, r) && r.plock == None && |r.procs| == |s.procs| && r.cond == s.cond
    ensures forall q {:trigger r.procs[q]} :: 0 <= q < |s.procs| ==> r.procs[q].owes == s.procs[q].owes
    ensures forall q {:trigger r.procs[q]} :: 0 <= q < |s.procs| && s.procs[q].at.Asleep? ==>
              r.procs[q].at == s.procs[q].at || r.procs[q].at == Woken(s.procs[q].at.c)
    ensures forall q {:trigger r.procs[q]} :: 0 <= q < |s.procs| && !HoldsP(s.procs[q]) && !s.procs[q].at.Asleep? ==>
              r.procs[q] == s.procs[q]
  {
    hide Reaches, Awaited;
    ReachesInv(s0, s);
    r := s;
    if s.plock.Some? {
      var x := s.plock.value;
      assert HoldsP(s.procs[x]);
      if s.procs[x].wake.Waking? {
        r := FinishWake(s0, s, x);
      } else if s.procs[x].at.Resumed? {
        ReachesNext(s0, s, ResumeDropP(x));
        r := Next(s, ResumeDropP(x));
      } else {
        if s.procs[x].at.Both? {
          ReachesNext(s0, s, SleepDropLk(x));
          r := Next(s, SleepDropLk(x));
        }
        ReachesNext(s0, r, SleepSwitch(x));
        r := Next(r, SleepSwitch(x));
      }
    }
  }

  // NO SLEEPER IS STUCK. In every reachable state a process that sleeps on a channel whose condition is true can
  // still be woken: some steps of the others end with it runnable.
  lemma {:induction false} CanBeWoken(s0: State, s: State, p: nat) returns (r: State)
    requires Inv(s0) && Reaches(s0, s) && p < |s.procs| && s.procs[p].at.Asleep? && s.procs[p].at.c < |s.cond|
    requires s.cond[s.procs[p].at.c]
    ensures Reaches(s0, r) && |r.procs| == |s.procs| && r.procs[p].at == Woken(s.procs[p].at.c)
  {
    hide Reaches, Locks;
    ReachesInv(s0, s);
    var c := s.procs[p].at.c;
    assert Coming(s, c, p);
    var w: nat :| w < |s.procs| && Owes(s.procs[w], c, p);
    if s.procs[w].wake.Waking? && s.procs[w].wake.c == c && s.procs[w].wake.k <= p {
      r := FinishWake(s0, s, w);
    } else {
      var t := FreeP(s0, s);
      r := t;
      if t.procs[p].at == Asleep(c) {
        ReachesInv(s0, t);
        NotWaking(t, w);
        ReachesNext(s0, t, WakeTakeP(w, c));
        var u := Next(t, WakeTakeP(w, c));
        r := FinishWake(s0, u, w);
      }
    }
  }

  lemma NotWaking(s: State, w: nat)
    requires Inv(s) && s.plock == None && w < |s.procs| && s.procs[w].owes != {}
    ensures s.procs[w].wake == NoWake && (s.procs[w].at.Out? || s.procs[w].at.Locked? || s.procs[w].at.Checked?)
  {
    assert !HoldsP(s.procs[w]);
    assert !Sleeper(s.procs[w].at);
  }

  // A process that has seen its condition false and owes no wakeup can go to sleep, and one that was woken can
  // come back to where it takes its lock again.
  lemma {:induction false} CanSleep(s0: State, s: State, p: nat) returns (r: State)
    requires Inv(s0) && Reaches(s0, s) && p < |s.procs| && s.procs[p].at.Checked?
    requires s.procs[p].wake == NoWake && s.procs[p].owes == {}
    ensures Reaches(s0, r) && |r.procs| == |s.procs| && r.procs[p].at == Asleep(s.procs[p].at.c)
  {
    hide Reaches, Awaited, Locks;
    var t := FreeP(s0, s);
    ReachesInv(s0, t);
    ReachesNext(s0, t, SleepTakeP(p));
    var u := Next(t, SleepTakeP(p));
    ReachesNext(s0, u, SleepDropLk(p));
    var v := Next(u, SleepDropLk(p));
    ReachesNext(s0, v, SleepSwitch(p));
    r := Next(v, SleepSwitch(p));
  }

  lemma {:induction false} CanResume(s0: State, s: State, p: nat) returns (r: State)
    requires Inv(s0) && Reaches(s0, s) && p < |s.procs| && s.procs[p].at.Woken?
    ensures Reaches(s0, r) && |r.procs| == |s.procs| && r.procs[p].at == Relock(s.procs[p].at.c) && r.plock == None
  {
    hide Reaches, Awaited, Locks;
    ReachesInv(s0, s);
    assert s.procs[p].wake == NoWake;
    var t := FreeP(s0, s);
    ReachesInv(s0, t);
    ReachesNext(s0, t, Resume(p));
    var u := Next(t, Resume(p));
    ReachesNext(s0, u, ResumeDropP(p));
    r := Next(u, ResumeDropP(p));
  }
}
