// fork, exit, wait and kill (proc.c) on the process table. The code between acquire and release of
// ptable.lock is one step; fork's steps outside the lock are steps of their own, and so are scheduling
// decisions. Processes are slots of the table; a slot's own address is the channel wait() sleeps on.

module ExitWait {
  datatype PState = UNUSED | EMBRYO | SLEEPING | RUNNABLE | RUNNING | ZOMBIE

  datatype Chan = NoChan | ProcChan(slot: int) | OtherChan(id: nat)

  // making: the slot this process is filling in fork, or -1.
  datatype Proc = Proc(state: PState, pid: nat, parent: int, chan: Chan, killed: bool, making: int)

  type Table = seq<Proc>

  // ---------- wakeup1 ----------

  function Roused(q: Proc, c: Chan): (r: Proc) {
    if q.state == SLEEPING && q.chan == c then q.(state := RUNNABLE) else q
  }

  function WakeAll(t: Table, c: Chan): (r: Table)
    ensures |r| == |t| && forall i :: 0 <= i < |t| ==> r[i] == Roused(t[i], c)
  {
    seq(|t|, i requires 0 <= i < |t| => Roused(t[i], c))
  }

  // ---------- exit ----------

  predicate ZombieChild(t: Table, p: int, i: int) { 0 <= i < |t| && t[i].parent == p && t[i].state == ZOMBIE }

  // One of the first n slots is a zombie child of p.
  predicate HasZombie(t: Table, p: int, n: int) { exists k :: 0 <= k < n && ZombieChild(t, p, k) }

  // Slot i after exit of cur.
  function Left(t: Table, cur: int, init: int, i: int): (q: Proc)
    requires 0 <= cur < |t| && 0 <= i < |t|
  {
    var q := Roused(t[i], ProcChan(t[cur].parent));
    var r := if HasZombie(t, cur, |t|) then Roused(q, ProcChan(init)) else q;
    var u := if t[i].parent == cur then r.(parent := init) else r;
    if i == cur then u.(state := ZOMBIE) else u
  }

  function ExitOf(t: Table, cur: int, init: int): (r: Table)
    requires 0 <= cur < |t|
    ensures |r| == |t| && forall i :: 0 <= i < |t| ==> r[i] == Left(t, cur, init, i)
  {
    seq(|t|, i requires 0 <= i < |t| => Left(t, cur, init, i))
  }

  // ---------- wait ----------

  // The first zombie child of p, or |t|.
  function FirstZombie(t: Table, p: int, i: nat): (k: nat)
    requires i <= |t|
    ensures i <= k <= |t| && (k < |t| ==> ZombieChild(t, p, k)) && forall j :: i <= j < k ==> !ZombieChild(t, p, j)
    decreases |t| - i
  {
    if i == |t| || ZombieChild(t, p, i) then i else FirstZombie(t, p, i + 1)
  }

  // A zombie slot once its parent has collected it.
  function Reaped(q: Proc): (r: Proc) { q.(state := UNUSED, pid := 0, parent := -1, killed := false) }

  predicate HasKids(t: Table, p: int) { exists k {:trigger t[k]} :: 0 <= k < |t| && t[k].parent == p }

  function FirstUnused(t: Table, i: nat): (k: nat)
    requires i <= |t|
    ensures i <= k <= |t| && (k < |t| ==> t[k].state == UNUSED) && forall j :: i <= j < k ==> t[j].state != UNUSED
    decreases |t| - i
  {
    if i == |t| || t[i].state == UNUSED then i else FirstUnused(t, i + 1)
  }

  // ---------- what wakeup and exit leave alone ----------

  // Pid, channel, mark and fork of a slot are the same.
  predicate SameBut(q: Proc, r: Proc) {
    r.pid == q.pid && r.chan == q.chan && r.killed == q.killed && r.making == q.making
  }

  predicate WokenByExit(t: Table, cur: int, init: int, i: int)
    requires 0 <= cur < |t| && 0 <= i < |t|
  {
    && t[i].state == SLEEPING
    && (|| t[i].chan == ProcChan(t[cur].parent)
        || (t[i].chan == ProcChan(init) && exists k :: 0 <= k < |t| && t[k].parent == cur && t[k].state == ZOMBIE))
  }

  lemma {:induction false} ExitFrame(t: Table, cur: int, init: int, i: int)
    requires 0 <= cur < |t| && 0 <= i < |t|
    ensures var r := ExitOf(t, cur, init)[i];
            && SameBut(t[i], r) && r.parent == (if t[i].parent == cur then init else t[i].parent)
            && r.state == (if i == cur then ZOMBIE else if WokenByExit(t, cur, init, i) then RUNNABLE else t[i].state)
  {
    if HasZombie(t, cur, |t|) {
      var k :| 0 <= k < |t| && ZombieChild(t, cur, k);
      assert t[k].parent == cur && t[k].state == ZOMBIE;
    } else {
      forall k | 0 <= k < |t|
        ensures t[k].parent != cur || t[k].state != ZOMBIE
      {
        assert !ZombieChild(t, cur, k);
      }
    }
  }

  // ---------- the table in memory ----------

  class Ptable {
    var t: Table
    var nextpid: nat
    const init: int

    // Exactly the sleepers on c become runnable, and nothing else about any slot changes.
    method Wakeup1(c: Chan)
      modifies this`t
      ensures t == WakeAll(old(t), c) && |t| == |old(t)|
      ensures forall i {:trigger t[i]} :: 0 <= i < |t| ==>
                var q := old(t)[i];
                && t[i].state == (if q.state == SLEEPING && q.chan == c then RUNNABLE else q.state)
                && SameBut(q, t[i]) && t[i].parent == q.parent
    {
      var i := 0;
      while i < |t|
        invariant 0 <= i <= |t| == |old(t)|
        invariant forall j :: 0 <= j < |t| ==> t[j] == if j < i then Roused(old(t)[j], c) else old(t)[j]
      {
        if t[i].state == SLEEPING && t[i].chan == c {
          t := t[i := t[i].(state := RUNNABLE)];
        }
        i := i + 1;
      }
    }

    // The part of exit() under ptable.lock. The children go to init; the caller becomes a zombie; whoever
    // sleeps on the parent is woken, and whoever sleeps on init is if init got a zombie.
    method Exit(cur: int)
      requires 0 <= cur < |t| && t[cur].state == RUNNING && t[cur].parent != cur && init != cur
      modifies this`t
      ensures t == ExitOf(old(t), cur, init) && |t| == |old(t)|
      ensures forall i {:trigger t[i]} :: 0 <= i < |t| ==>
                && SameBut(old(t)[i], t[i])
                && t[i].parent == (if old(t)[i].parent == cur then init else old(t)[i].parent)
                && t[i].state == (if i == cur then ZOMBIE
                                  else if WokenByExit(old(t), cur, init, i) then RUNNABLE
                                  else old(t)[i].state)
    {
      ghost var t0 := t;
      Wakeup1(ProcChan(t[cur].parent));
      ghost var t1 := t;
      var i := 0;
      while i < |t|
        invariant 0 <= i <= |t| == |t0|
        invariant forall j :: 0 <= j < |t| ==> t[j] == Mid(t0, t1, cur, init, i, j)
      {
        if t[i].parent == cur {
          t := t[i := t[i].(parent := init)];
          if t[i].state == ZOMBIE {
            Wakeup1(ProcChan(init));
          }
        }
        MidStep(t0, t1, cur, init, i);
        i := i + 1;
      }
      t := t[cur := t[cur].(state := ZOMBIE)];
      assert t == ExitOf(t0, cur, init);
      forall j | 0 <= j < |t|
        ensures SameBut(t0[j], t[j]) && t[j].parent == (if t0[j].parent == cur then init else t0[j].parent)
        ensures t[j].state ==
                if j == cur then ZOMBIE else if WokenByExit(t0, cur, init, j) then RUNNABLE else t0[j].state
      {
        ExitFrame(t0, cur, init, j);
      }
    }

    // One round of wait(): a zombie child is collected and its pid returned; -1 when there are no children
    // or the caller was killed; otherwise the caller goes to sleep on its own slot.
    method WaitRound(cur: int) returns (r: int, slept: bool)
      requires 0 <= cur < |t| && t[cur].state == RUNNING
      modifies this`t
      ensures var k := FirstZombie(old(t), cur, 0);
              if k < |old(t)| then
                && !slept && r == old(t)[k].pid
                && t == old(t)[k := old(t)[k].(state := UNUSED, pid := 0, parent := -1, killed := false)]
              else if (exists j {:trigger old(t)[j]} :: 0 <= j < |old(t)| && old(t)[j].parent == cur)
                      && !old(t)[cur].killed then
                slept && t == old(t)[cur := old(t)[cur].(state := SLEEPING, chan := ProcChan(cur))]
              else !slept && r == -1 && t == old(t)
    {
      var havekids := false;
      var i := 0;
      r, slept := -1, false;
      while i < |t|
        invariant 0 <= i <= |t| && t == old(t) && FirstZombie(t, cur, 0) == FirstZombie(t, cur, i)
        invariant havekids <==> exists k {:trigger t[k]} :: 0 <= k < i && t[k].parent == cur
      {
        if t[i].parent == cur {
          havekids := true;
          if t[i].state == ZOMBIE {
            r := t[i].pid;
            t := t[i := Reaped(t[i])];
            return;
          }
        }
        i := i + 1;
      }
      if havekids && !t[cur].killed {
        slept := true;
        t := t[cur := t[cur].(state := SLEEPING, chan := ProcChan(cur))];
      }
    }

    // allocproc, up to the release of the lock: the slot, or |t|.
    method AllocSlot() returns (n: nat)
      modifies this
      ensures n == FirstUnused(old(t), 0)
      ensures if n < |old(t)| then
                && t == old(t)[n := old(t)[n].(state := EMBRYO, pid := old(nextpid))]
                && nextpid == old(nextpid) + 1
              else
                t == old(t) && nextpid == old(nextpid)
    {
      n := 0;
      while n < |t|
        invariant 0 <= n <= |t| && t == old(t) && nextpid == old(nextpid) && FirstUnused(t, 0) == FirstUnused(t, n)
      {
        if t[n].state == UNUSED {
          t, nextpid := t[n := t[n].(state := EMBRYO, pid := nextpid)], nextpid + 1;
          return;
        }
        n := n + 1;
      }
    }

    method Kill(pid: nat) returns (r: int)
      modifies this`t
      ensures var k := WithPid(old(t), pid, 0);
              if k < |old(t)| then
                && r == 0
                && var q := old(t)[k];
                t == old(t)[k := q.(killed := true, state := if q.state == SLEEPING then RUNNABLE else q.state)]
              else r == -1 && t == old(t)
    {
      var i := 0;
      while i < |t|
        invariant 0 <= i <= |t| && t == old(t) && WithPid(t, pid, 0) == WithPid(t, pid, i)
      {
        if t[i].pid == pid {
          t := t[i := t[i].(killed := true)];
          if t[i].state == SLEEPING {
            t := t[i := t[i].(state := RUNNABLE)];
          }
          return 0;
        }
        i := i + 1;
      }
      return -1;
    }
  }

  // Slot j when the loop of exit() has passed i slots.
  function Mid(t0: Table, t1: Table, cur: int, init: int, i: int, j: int): (q: Proc)
    requires 0 <= i <= |t0| == |t1| && 0 <= j < |t0|
  {
    var r := if HasZombie(t0, cur, i) then Roused(t1[j], ProcChan(init)) else t1[j];
    if j < i && t0[j].parent == cur then r.(parent := init) else r
  }

  lemma {:induction false} MidStep(t0: Table, t1: Table, cur: int, init: int, i: int)
    requires 0 <= i < |t0| == |t1|
    ensures HasZombie(t0, cur, i + 1) <==> ZombieChild(t0, cur, i) || HasZombie(t0, cur, i)
  {
  }

  // ---------- the steps ----------

  // reaped: the pids wait() has returned, in order.
  datatype State = State(t: Table, nextpid: nat, reaped: seq<nat>)

  datatype Step =
    | Alloc(p: int)               // fork: allocproc takes a slot
    | Abort(p: int)               // fork: no kernel stack or no page table, the slot goes back
    | SetParent(p: int)           // fork: np->parent, outside the lock
    | Publish(p: int)             // fork: np becomes RUNNABLE
    | Schedule(p: int)
    | Yield(p: int)
    | Sleep(p: int, id: nat)      // on a channel that is not a process
    | Wakeup(p: int, id: nat)
    | Kill(p: int, pid: nat)
    | Exit(p: int)
    | WaitReap(p: int)            // wait: a zombie child is found
    | WaitSleep(p: int)           // wait: there are children, none a zombie

  // p runs in the kernel, outside fork.
  predicate Runs(t: Table, p: int) { 0 <= p < |t| && t[p].state == RUNNING && t[p].making == -1 }

  // p is in fork, filling a slot. It may be off the CPU for a while.
  predicate Forks(t: Table, p: int) { 0 <= p < |t| && t[p].state == RUNNING && 0 <= t[p].making < |t| }

  predicate Enabled(s: State, step: Step, init: int) {
    var t, p := s.t, step.p;
    match step
    case Alloc(_) => Runs(t, p) && FirstUnused(t, 0) < |t|
    case Abort(_) => Forks(t, p) && t[t[p].making].parent == -1
    case SetParent(_) => Forks(t, p)
    case Publish(_) => Forks(t, p) && t[t[p].making].parent == p
    case Schedule(_) => 0 <= p < |t| && t[p].state == RUNNABLE
    case Yield(_) => 0 <= p < |t| && t[p].state == RUNNING
    case Sleep(_, _) => 0 <= p < |t| && t[p].state == RUNNING
    case Wakeup(_, _) => 0 <= p < |t|
    case Kill(_, _) => 0 <= p < |t|
    case Exit(_) => Runs(t, p) && p != init
    case WaitReap(_) => Runs(t, p) && FirstZombie(t, p, 0) < |t|
    case WaitSleep(_) => Runs(t, p) && FirstZombie(t, p, 0) == |t| && HasKids(t, p) && !t[p].killed
  }

  // The first slot with the pid, or |t|.
  function WithPid(t: Table, pid: nat, i: nat): (k: nat)
    requires i <= |t|
    ensures i <= k <= |t| && (k < |t| ==> t[k].pid == pid) && forall j :: i <= j < k ==> t[j].pid != pid
    decreases |t| - i
  {
    if i == |t| || t[i].pid == pid then i else WithPid(t, pid, i + 1)
  }

  function Next(s: State, step: Step, init: int): (r: State)
    requires Enabled(s, step, init)
  {
    var t, p := s.t, step.p;
    match step
    case Alloc(_) =>
      var n := FirstUnused(t, 0);
      State(t[n := t[n].(state := EMBRYO, pid := s.nextpid)][p := t[p].(making := n)], s.nextpid + 1, s.reaped)
    case Abort(_) => s.(t := t[t[p].making := t[t[p].making].(state := UNUSED)][p := t[p].(making := -1)])
    case SetParent(_) => s.(t := t[t[p].making := t[t[p].making].(parent := p)])
    case Publish(_) => s.(t := t[t[p].making := t[t[p].making].(state := RUNNABLE)][p := t[p].(making := -1)])
    case Schedule(_) => s.(t := t[p := t[p].(state := RUNNING, chan := NoChan)])
    case Yield(_) => s.(t := t[p := t[p].(state := RUNNABLE)])
    case Sleep(_, id) => s.(t := t[p := t[p].(state := SLEEPING, chan := OtherChan(id))])
    case Wakeup(_, id) => s.(t := WakeAll(t, OtherChan(id)))
    case Kill(_, pid) =>
      var k := WithPid(t, pid, 0);
      if k == |t| then s
      else s.(t := t[k := t[k].(killed := true, state := if t[k].state == SLEEPING then RUNNABLE else t[k].state)])
    case Exit(_) => s.(t := ExitOf(t, p, init))
    case WaitReap(_) =>
      var k := FirstZombie(t, p, 0);
      State(t[k := Reaped(t[k])], s.nextpid, s.reaped + [t[k].pid])
    case WaitSleep(_) => s.(t := t[p := t[p].(state := SLEEPING, chan := ProcChan(p))])
  }

  // ---------- the invariant ----------

  predicate Alive(q: Proc) { q.state != UNUSED && q.state != ZOMBIE }

  // A recorded parent is alive and no embryo; unused slots record none; init has none and is alive; every
  // other process that has left EMBRYO has one.
  ghost predicate Family(t: Table, init: int) {
    && 0 <= init < |t| && Alive(t[init]) && t[init].state != EMBRYO && t[init].parent == -1
    && (forall i {:trigger t[i].parent} :: 0 <= i < |t| && t[i].parent != -1 ==>
          0 <= t[i].parent < |t| && Alive(t[t[i].parent]) && t[t[i].parent].state != EMBRYO &&
          t[i].parent != i && t[i].state != UNUSED)
    && (forall i {:trigger t[i].parent} ::
          0 <= i < |t| && i != init && t[i].state != UNUSED && t[i].state != EMBRYO ==> t[i].parent != -1)
  }

  // The slot a fork is filling is an embryo that only this fork knows; its parent is not set or is the
  // forking process. A process in fork is alive.
  ghost predicate Forking(t: Table) {
    forall p {:trigger t[p].making} :: 0 <= p < |t| && t[p].making != -1 ==>
      && 0 <= t[p].making < |t| && t[t[p].making].state == EMBRYO && Alive(t[p]) && t[p].state != EMBRYO
      && (t[t[p].making].parent == -1 || t[t[p].making].parent == p)
  }

  ghost predicate Embryos(t: Table) {
    forall p, q {:trigger t[p].making, t[q].making} :: 0 <= p < |t| && 0 <= q < |t| && p != q && t[p].making != -1 ==>
        t[p].making != t[q].making
  }

  // Nobody sleeps in wait() while a child is a zombie.
  ghost predicate NoMissedExit(t: Table) {
    forall p, i {:trigger t[p].chan, t[i].parent} ::
      0 <= p < |t| && t[p].state == SLEEPING && t[p].chan == ProcChan(p) ==> !ZombieChild(t, p, i)
  }

  // Only wait() sleeps on a process, and on its own.
  ghost predicate Channels(t: Table) {
    forall p {:trigger t[p].chan} :: 0 <= p < |t| && t[p].state == SLEEPING ==>
      t[p].chan.OtherChan? || t[p].chan == ProcChan(p)
  }

  // Pids in use are distinct, were handed out, and were not reaped; no pid was reaped twice.
  ghost predicate Pids(s: State) {
    && (forall i {:trigger s.t[i].pid} :: 0 <= i < |s.t| && s.t[i].state != UNUSED ==>
          s.t[i].pid < s.nextpid && s.t[i].pid !in s.reaped)
    && (forall i, j {:trigger s.t[i].pid, s.t[j].pid} ::
          0 <= i < j < |s.t| && s.t[i].state != UNUSED && s.t[j].state != UNUSED ==> s.t[i].pid != s.t[j].pid)
    && (forall i :: 0 <= i < |s.reaped| ==> s.reaped[i] < s.nextpid)
    && (forall i, j :: 0 <= i < j < |s.reaped| ==> s.reaped[i] != s.reaped[j])
  }

  ghost predicate Inv(s: State, init: int) {
    Family(s.t, init) && Forking(s.t) && Embryos(s.t) && NoMissedExit(s.t) && Channels(s.t) && Pids(s)
  }

  // ---------- scheduling ----------

  predicate Active(q: Proc) { q.state == SLEEPING || q.state == RUNNABLE || q.state == RUNNING }

  // Only who runs, sleeps or waits for a CPU has changed.
  ghost predicate Shuffled(t: Table, r: Table) {
    && |r| == |t|
    && forall i {:trigger r[i]} :: 0 <= i < |t| ==>
         && r[i].pid == t[i].pid && r[i].parent == t[i].parent && r[i].making == t[i].making
         && (r[i].state == t[i].state || (Active(r[i]) && Active(t[i])))
  }

  lemma {:induction false} ShuffledFamily(t: Table, r: Table, init: int)
    requires Family(t, init) && Shuffled(t, r)
    ensures Family(r, init)
  {
  }

  lemma {:induction false} ShuffledForking(t: Table, r: Table)
    requires Forking(t) && Embryos(t) && Shuffled(t, r)
    ensures Forking(r) && Embryos(r)
  {
  }

  lemma {:induction false} ShuffledPids(s: State, r: Table)
    requires Pids(s) && Shuffled(s.t, r)
    ensures Pids(s.(t := r))
  {
  }

  // A sleeper in wait() was one before, and the zombies are the same.
  lemma {:induction false} ShuffledChannels(t: Table, r: Table)
    requires Channels(t) && NoMissedExit(t) && Shuffled(t, r)
    requires forall i {:trigger r[i]} :: 0 <= i < |r| && r[i].state == SLEEPING && !r[i].chan.OtherChan? ==>
               t[i].state == SLEEPING && t[i].chan == r[i].chan
    ensures Channels(r) && NoMissedExit(r)
  {
    forall p, i | 0 <= p < |r| && r[p].state == SLEEPING && r[p].chan == ProcChan(p)
      ensures !ZombieChild(r, p, i)
    {
      if 0 <= i < |r| {
        assert t[p].chan == ProcChan(p) && t[i].parent == r[i].parent;
        assert !ZombieChild(t, p, i);
      }
    }
  }

  lemma {:induction false} ShuffledKeeps(s: State, r: Table, init: int)
    requires Inv(s, init) && Shuffled(s.t, r)
    requires forall i {:trigger r[i]} :: 0 <= i < |r| && r[i].state == SLEEPING && !r[i].chan.OtherChan? ==>
               s.t[i].state == SLEEPING && s.t[i].chan == r[i].chan
    ensures Inv(s.(t := r), init)
  {
    ShuffledFamily(s.t, r, init);
    ShuffledForking(s.t, r);
    ShuffledPids(s, r);
    ShuffledChannels(s.t, r);
  }

  predicate IsScheduling(step: Step) { step.Schedule? || step.Yield? || step.Sleep? || step.Wakeup? || step.Kill? }

  lemma {:induction false} StepShuffles(s: State, step: Step, init: int)
    requires Enabled(s, step, init) && IsScheduling(step)
    ensures var r := Next(s, step, init);
            && r == s.(t := r.t) && Shuffled(s.t, r.t)
            && forall i {:trigger r.t[i]} :: 0 <= i < |r.t| && r.t[i].state == SLEEPING && !r.t[i].chan.OtherChan? ==>
                 s.t[i].state == SLEEPING && s.t[i].chan == r.t[i].chan
  {
  }

  lemma {:induction false} WaitSleepMisses(t: Table, r: Table, p: int)
    requires Channels(t) && NoMissedExit(t) && 0 <= p < |t|
    requires r == t[p := t[p].(state := SLEEPING, chan := ProcChan(p))]
    requires FirstZombie(t, p, 0) == |t| && t[p].state == RUNNING
    ensures Channels(r) && NoMissedExit(r)
  {
    forall q, i | 0 <= q < |r| && r[q].state == SLEEPING && r[q].chan == ProcChan(q)
      ensures !ZombieChild(r, q, i)
    {
      if 0 <= i < |r| {
        assert t[q].chan == t[q].chan && t[i].parent == r[i].parent;
        assert !ZombieChild(t, q, i);
      }
    }
  }

  lemma {:induction false} StepWaitSleep(s: State, p: int, init: int)
    requires Inv(s, init) && Enabled(s, WaitSleep(p), init)
    ensures Inv(Next(s, WaitSleep(p), init), init)
  {
    var r := Next(s, WaitSleep(p), init).t;
    assert Shuffled(s.t, r);
    ShuffledFamily(s.t, r, init);
    ShuffledForking(s.t, r);
    ShuffledPids(s, r);
    WaitSleepMisses(s.t, r, p);
  }

  // ---------- fork ----------

  // What a step of fork by p does to the slot n it fills.
  ghost predicate ForkChange(t: Table, r: Table, p: int, n: int) {
    && |r| == |t| && 0 <= p < |t| && 0 <= n < |t| && p != n && t[p].state == RUNNING
    && r[p] == t[p].(making := r[p].making) && (r[p].making == -1 || (r[p].making == n && r[n].state == EMBRYO))
    && (forall i {:trigger r[i]} {:trigger t[i]} :: 0 <= i < |t| && i != p && i != n ==> r[i] == t[i])
    && (forall q {:trigger t[q].making} :: 0 <= q < |t| && q != p ==> t[q].making != n)
    && (t[n].state == UNUSED || t[n].state == EMBRYO) && t[n].making == -1 && r[n].making == -1
    && (r[n].state == EMBRYO || (r[n].state == UNUSED && r[n].parent == -1) ||
          (r[n].state == RUNNABLE && r[n].parent == p))
    && (r[n].parent == -1 || r[n].parent == p)
  }

  lemma {:induction false} ForkFamily(t: Table, r: Table, p: int, n: int, init: int)
    requires Family(t, init) && ForkChange(t, r, p, n)
    ensures Family(r, init)
  {
    forall i | 0 <= i < |r| && r[i].parent != -1
      ensures 0 <= r[i].parent < |r| && Alive(r[r[i].parent]) && r[r[i].parent].state != EMBRYO && r[i].parent != i
      ensures r[i].state != UNUSED
    {
      if i != n { assert t[i].parent == r[i].parent; }
    }
    forall i | 0 <= i < |r| && i != init && r[i].state != UNUSED && r[i].state != EMBRYO
      ensures r[i].parent != -1
    {
      if i != n { assert t[i].parent == r[i].parent; }
    }
  }

  lemma {:induction false} ForkForking(t: Table, r: Table, p: int, n: int)
    requires Forking(t) && Embryos(t) && ForkChange(t, r, p, n)
    ensures Forking(r) && Embryos(r)
  {
    forall q | 0 <= q < |r| && r[q].making != -1
      ensures q != n && (q != p ==> r[q].making == t[q].making && t[q].making != n)
    {
      if q != p { assert t[q].making != n; }
    }
    forall q | 0 <= q < |r| && r[q].making != -1 && q != p
      ensures 0 <= r[q].making < |r| && r[r[q].making].state == EMBRYO && Alive(r[q]) && r[q].state != EMBRYO
      ensures r[r[q].making].parent == -1 || r[r[q].making].parent == q
    {
      assert t[q].making == r[q].making;
    }
  }

  lemma {:induction false} ForkChannels(t: Table, r: Table, p: int, n: int)
    requires Channels(t) && NoMissedExit(t) && ForkChange(t, r, p, n)
    ensures Channels(r) && NoMissedExit(r)
  {
    forall q, i | 0 <= q < |r| && r[q].state == SLEEPING && r[q].chan == ProcChan(q)
      ensures !ZombieChild(r, q, i)
    {
      if 0 <= i < |r| {
        assert t[q].chan == ProcChan(q) && t[i].parent == t[i].parent;
        assert !ZombieChild(t, q, i);
      }
    }
  }

  lemma {:induction false} ForkPids(s: State, r: Table, p: int, n: int)
    requires Pids(s) && ForkChange(s.t, r, p, n) && r[n].pid == s.t[n].pid
    requires (s.t[n].state == UNUSED ==> r[n].state == UNUSED)
    ensures Pids(s.(t := r))
  {
    forall i | 0 <= i < |r|
      ensures r[i].pid == s.t[i].pid && (s.t[i].state == UNUSED ==> r[i].state == UNUSED)
    {
    }
  }

  lemma {:induction false} AllocPids(s: State, r: State, p: int, n: int)
    requires Pids(s) && ForkChange(s.t, r.t, p, n) && r.t[n].pid == s.nextpid && r.nextpid == s.nextpid + 1
    requires r.reaped == s.reaped
    ensures Pids(r)
  {
    forall i | 0 <= i < |r.t| && i != n
      ensures r.t[i].pid == s.t[i].pid && r.t[i].state == s.t[i].state
    {
    }
    assert s.nextpid !in s.reaped;
  }

  predicate IsFork(step: Step) { step.Alloc? || step.Abort? || step.SetParent? || step.Publish? }

  // The pid of the slot is new, or it stays.
  ghost predicate ForkPid(s: State, r: State, n: int)
    requires 0 <= n < |s.t| == |r.t|
  {
    && r.reaped == s.reaped
    && if r.nextpid == s.nextpid then r.t[n].pid == s.t[n].pid && (s.t[n].state == UNUSED ==> r.t[n].state == UNUSED)
       else r.nextpid == s.nextpid + 1 && r.t[n].pid == s.nextpid
  }

  lemma {:induction false} StepAlloc(s: State, p: int, init: int)
    requires Forking(s.t) && Family(s.t, init) && Enabled(s, Alloc(p), init)
    ensures var n, r := FirstUnused(s.t, 0), Next(s, Alloc(p), init);
            ForkChange(s.t, r.t, p, n) && ForkPid(s, r, n)
  {
    var n := FirstUnused(s.t, 0);
    assert s.t[n].parent == -1 && s.t[n].making == -1;
  }

  lemma {:induction false} StepFill(s: State, step: Step, init: int)
    requires Forking(s.t) && Embryos(s.t) && Enabled(s, step, init) && (step.Abort? || step.SetParent? || step.Publish?)
    ensures var n, r := s.t[step.p].making, Next(s, step, init);
            ForkChange(s.t, r.t, step.p, n) && ForkPid(s, r, n)
  {
    var p := step.p;
    var n := s.t[p].making;
    assert s.t[n].state == EMBRYO && s.t[n].making == -1;
    forall q | 0 <= q < |s.t| && q != p
      ensures s.t[q].making != n
    {
      assert s.t[p].making == n;
    }
  }

  lemma {:induction false} StepFork(s: State, step: Step, init: int) returns (n: int)
    requires Forking(s.t) && Embryos(s.t) && Family(s.t, init) && Enabled(s, step, init) && IsFork(step)
    ensures ForkChange(s.t, Next(s, step, init).t, step.p, n) && ForkPid(s, Next(s, step, init), n)
  {
    hide Next, Enabled, ForkChange, ForkPid;
    if step.Alloc? {
      StepAlloc(s, step.p, init);
      n := FirstUnused(s.t, 0);
    } else {
      StepFill(s, step, init);
      n := s.t[step.p].making;
    }
  }

  lemma {:induction false} ForkKeeps(s: State, r: State, p: int, n: int, init: int)
    requires Inv(s, init) && ForkChange(s.t, r.t, p, n) && ForkPid(s, r, n)
    ensures Inv(r, init)
  {
    ForkFamily(s.t, r.t, p, n, init);
    ForkForking(s.t, r.t, p, n);
    ForkChannels(s.t, r.t, p, n);
    if r.nextpid == s.nextpid {
      ForkPids(s, r.t, p, n);
      assert r == s.(t := r.t);
    } else {
      AllocPids(s, r, p, n);
    }
  }

  // ---------- exit ----------

  // What exit does to parents and states.
  ghost predicate Orphaned(t: Table, r: Table, cur: int, init: int) {
    && |r| == |t| && 0 <= cur < |t| && r[cur].state == ZOMBIE
    && forall i {:trigger r[i]} {:trigger t[i]} :: 0 <= i < |t| ==>
         && r[i].parent == (if t[i].parent == cur then init else t[i].parent)
         && (i != cur ==> r[i].state == t[i].state || (Active(r[i]) && Active(t[i])))
  }

  lemma {:induction false} OrphanedParent(t: Table, r: Table, cur: int, init: int, i: int)
    requires Family(t, init) && Orphaned(t, r, cur, init) && cur != init && t[cur].state == RUNNING
    requires 0 <= i < |r| && r[i].parent != -1
    ensures 0 <= r[i].parent < |r| && Alive(r[r[i].parent]) && r[r[i].parent].state != EMBRYO && r[i].parent != i
    ensures r[i].state != UNUSED
  {
    var q := r[i].parent;
    assert t[i].parent != -1;
    assert q == init || q == t[i].parent;
    assert q != cur && (r[q].state == t[q].state || (Active(r[q]) && Active(t[q])));
  }

  lemma {:induction false} OrphanedFamily(t: Table, r: Table, cur: int, init: int)
    requires Family(t, init) && Orphaned(t, r, cur, init) && cur != init && t[cur].state == RUNNING
    ensures Family(r, init)
  {
    assert r[init].parent == -1 && Alive(r[init]) && r[init].state != EMBRYO by { assert t[init].parent == -1; }
    forall i | 0 <= i < |r| && i != init && r[i].state != UNUSED && r[i].state != EMBRYO
      ensures r[i].parent != -1
    {
      assert t[i].parent != -1;
    }
    forall i | 0 <= i < |r| && r[i].parent != -1
      ensures 0 <= r[i].parent < |r| && Alive(r[r[i].parent]) && r[r[i].parent].state != EMBRYO && r[i].parent != i
      ensures r[i].state != UNUSED
    {
      OrphanedParent(t, r, cur, init, i);
    }
  }

  lemma {:induction false} ExitFamily(t: Table, cur: int, init: int)
    requires Family(t, init) && 0 <= cur < |t| && cur != init && t[cur].state == RUNNING
    ensures Family(ExitOf(t, cur, init), init)
  {
    OrphanedFamily(t, ExitOf(t, cur, init), cur, init);
  }

  lemma {:induction false} ExitForking(t: Table, cur: int, init: int)
    requires Forking(t) && Embryos(t) && 0 <= cur < |t| && t[cur].making == -1 && t[cur].state == RUNNING
    ensures Forking(ExitOf(t, cur, init)) && Embryos(ExitOf(t, cur, init))
  {
    var r := ExitOf(t, cur, init);
    forall q | 0 <= q < |r|
      ensures r[q].making == t[q].making
    {
    }
    forall q | 0 <= q < |r| && r[q].making != -1
      ensures 0 <= r[q].making < |r| && r[r[q].making].state == EMBRYO && Alive(r[q]) && r[q].state != EMBRYO
      ensures r[r[q].making].parent == -1 || r[r[q].making].parent == q
    {
      assert t[q].making == r[q].making;
    }
  }

  // Whoever still sleeps in wait() after an exit has no zombie child: the parent was woken, and init was
  // woken if it inherited one.
  lemma {:induction false} ExitChannels(t: Table, cur: int, init: int)
    requires Channels(t) && NoMissedExit(t) && 0 <= cur < |t| && t[cur].state == RUNNING && t[cur].parent != cur
    ensures Channels(ExitOf(t, cur, init)) && NoMissedExit(ExitOf(t, cur, init))
  {
    var r := ExitOf(t, cur, init);
    forall p | 0 <= p < |r| && r[p].state == SLEEPING
      ensures t[p].state == SLEEPING && t[p].chan == r[p].chan && r[p].chan != ProcChan(t[cur].parent)
      ensures HasZombie(t, cur, |t|) ==> r[p].chan != ProcChan(init)
    {
      assert r[p] == Left(t, cur, init, p);
    }
    forall p, i | 0 <= p < |r| && r[p].state == SLEEPING && r[p].chan == ProcChan(p)
      ensures !ZombieChild(r, p, i)
    {
      if 0 <= i < |r| {
        assert t[p].chan == ProcChan(p) && t[i].parent == t[i].parent;
        assert !ZombieChild(t, p, i) && r[i] == Left(t, cur, init, i);
        assert i != cur && t[i].parent == cur && t[i].state == ZOMBIE ==> ZombieChild(t, cur, i);
      }
    }
  }

  lemma {:induction false} ExitPids(s: State, cur: int, init: int)
    requires Pids(s) && 0 <= cur < |s.t| && s.t[cur].state == RUNNING
    ensures Pids(s.(t := ExitOf(s.t, cur, init)))
  {
    var r := ExitOf(s.t, cur, init);
    forall i | 0 <= i < |r|
      ensures r[i].pid == s.t[i].pid && (s.t[i].state == UNUSED <==> r[i].state == UNUSED)
    {
      assert r[i] == Left(s.t, cur, init, i);
    }
  }

  lemma {:induction false} ExitKeeps(s: State, cur: int, init: int)
    requires Inv(s, init) && Runs(s.t, cur) && cur != init
    ensures Inv(s.(t := ExitOf(s.t, cur, init)), init)
  {
    assert s.t[cur].parent != cur;
    ExitFamily(s.t, cur, init);
    ExitForking(s.t, cur, init);
    ExitChannels(s.t, cur, init);
    ExitPids(s, cur, init);
  }

  // ---------- wait ----------

  lemma {:induction false} ReapFamily(t: Table, r: Table, k: int, init: int)
    requires Family(t, init) && 0 <= k < |t| && t[k].state == ZOMBIE && r == t[k := Reaped(t[k])]
    ensures Family(r, init)
  {
    forall i | 0 <= i < |r| && r[i].parent != -1
      ensures 0 <= r[i].parent < |r| && Alive(r[r[i].parent]) && r[r[i].parent].state != EMBRYO && r[i].parent != i
      ensures r[i].state != UNUSED
    {
      assert t[i].parent != -1;
    }
  }

  lemma {:induction false} ReapForking(t: Table, r: Table, k: int)
    requires Forking(t) && Embryos(t) && 0 <= k < |t| && t[k].state == ZOMBIE && r == t[k := Reaped(t[k])]
    ensures Forking(r) && Embryos(r)
  {
    forall q | 0 <= q < |r|
      ensures r[q].making == t[q].making
    {
    }
  }

  lemma {:induction false} ReapChannels(t: Table, k: int)
    requires Channels(t) && NoMissedExit(t) && 0 <= k < |t| && t[k].state == ZOMBIE
    ensures Channels(t[k := Reaped(t[k])]) && NoMissedExit(t[k := Reaped(t[k])])
  {
    var r := t[k := Reaped(t[k])];
    forall p, i | 0 <= p < |r| && r[p].state == SLEEPING && r[p].chan == ProcChan(p)
      ensures !ZombieChild(r, p, i)
    {
      if 0 <= i < |r| {
        assert t[p].chan == ProcChan(p) && t[i].parent == t[i].parent;
        assert !ZombieChild(t, p, i);
      }
    }
  }

  lemma {:induction false} ReapPids(s: State, k: int)
    requires Pids(s) && 0 <= k < |s.t| && s.t[k].state == ZOMBIE
    ensures Pids(State(s.t[k := Reaped(s.t[k])], s.nextpid, s.reaped + [s.t[k].pid]))
  {
    var r := s.t[k := Reaped(s.t[k])];
    forall i | 0 <= i < |r| && r[i].state != UNUSED
      ensures r[i].pid == s.t[i].pid && s.t[i].pid != s.t[k].pid && i != k
    {
      assert s.t[i].pid < s.nextpid && s.t[k].pid < s.nextpid;
    }
    assert s.t[k].pid !in s.reaped;
  }

  lemma {:induction false} ReapKeeps(s: State, k: int, init: int)
    requires Inv(s, init) && 0 <= k < |s.t| && s.t[k].state == ZOMBIE
    ensures Inv(State(s.t[k := Reaped(s.t[k])], s.nextpid, s.reaped + [s.t[k].pid]), init)
  {
    ReapFamily(s.t, s.t[k := Reaped(s.t[k])], k, init);
    ReapForking(s.t, s.t[k := Reaped(s.t[k])], k);
    ReapChannels(s.t, k);
    ReapPids(s, k);
  }

  // ---------- every run ----------

  // Every step keeps the invariant.
  lemma {:induction false} StepKeeps(s: State, step: Step, init: int)
    requires Inv(s, init) && Enabled(s, step, init)
    ensures Inv(Next(s, step, init), init)
  {
    if IsScheduling(step) {
      StepShuffles(s, step, init);
      ShuffledKeeps(s, Next(s, step, init).t, init);
    } else if IsFork(step) {
      var n := StepFork(s, step, init);
      ForkKeeps(s, Next(s, step, init), step.p, n, init);
    } else if step.Exit? {
      ExitKeeps(s, step.p, init);
    } else if step.WaitReap? {
      ReapKeeps(s, FirstZombie(s.t, step.p, 0), init);
    } else {
      StepWaitSleep(s, step.p, init);
    }
  }

  ghost predicate CanRun(s: State, steps: seq<Step>, init: int)
    decreases |steps|
  {
    steps == [] || (Enabled(s, steps[0], init) && CanRun(Next(s, steps[0], init), steps[1..], init))
  }

  ghost function Run(s: State, steps: seq<Step>, init: int): (r: State)
    requires CanRun(s, steps, init)
    decreases |steps|
  {
    if steps == [] then s else Run(Next(s, steps[0], init), steps[1..], init)
  }

  lemma {:induction false} RunKeeps(s: State, steps: seq<Step>, init: int)
    requires Inv(s, init) && CanRun(s, steps, init)
    ensures Inv(Run(s, steps, init), init)
    decreases |steps|
  {
    if steps != [] {
      StepKeeps(s, steps[0], init);
      RunKeeps(Next(s, steps[0], init), steps[1..], init);
    }
  }

  // userinit: slot 0 is init, with pid 1; the other slots are unused.
  function Boot(n: nat): (s: State)
    requires n >= 1
  {
    State([Proc(RUNNABLE, 1, -1, NoChan, false, -1)] + seq(n - 1, _ => Proc(UNUSED, 0, -1, NoChan, false, -1)), 2, [])
  }

  ghost predicate Booted(t: Table) {
    && |t| >= 1 && t[0] == Proc(RUNNABLE, 1, -1, NoChan, false, -1)
    && forall i {:trigger t[i]} :: 0 < i < |t| ==> t[i] == Proc(UNUSED, 0, -1, NoChan, false, -1)
  }

  lemma {:induction false} BootedFamily(t: Table)
    requires Booted(t)
    ensures Family(t, 0) && Forking(t) && Embryos(t)
  {
  }

  lemma {:induction false} BootedRest(t: Table)
    requires Booted(t)
    ensures NoMissedExit(t) && Channels(t) && Pids(State(t, 2, []))
  {
  }

  lemma {:induction false} BootInv(n: nat)
    requires n >= 1
    ensures Inv(Boot(n), 0)
  {
    hide Family, Forking, Embryos, NoMissedExit, Channels, Pids;
    BootedFamily(Boot(n).t);
    BootedRest(Boot(n).t);
  }

  // A zombie has a live parent, and that parent is not asleep in wait().
  lemma {:induction false} ZombieSeen(t: Table, init: int, i: int)
    requires Family(t, init) && NoMissedExit(t) && 0 <= i < |t| && t[i].state == ZOMBIE
    ensures var p := t[i].parent; 0 <= p < |t| && Alive(t[p]) && !(t[p].state == SLEEPING && t[p].chan == ProcChan(p))
  {
    var p := t[i].parent;
    assert t[p].chan == t[p].chan && ZombieChild(t, p, i);
  }

  // In every reachable state: a recorded parent is neither UNUSED nor ZOMBIE; every zombie has a parent, and
  // that parent is not asleep in wait(); no pid was returned by two waits, and no process has a pid that was.
  lemma {:induction false} ExitWaitSafe(n: nat, steps: seq<Step>)
    requires n >= 1 && CanRun(Boot(n), steps, 0)
    ensures var s := Run(Boot(n), steps, 0);
            && (forall i {:trigger s.t[i].parent} :: 0 <= i < |s.t| && s.t[i].parent != -1 ==>
                  0 <= s.t[i].parent < |s.t| && Alive(s.t[s.t[i].parent]))
            && (forall i {:trigger s.t[i].parent} :: 0 <= i < |s.t| && s.t[i].state == ZOMBIE ==>
                  var p := s.t[i].parent; 0 <= p < |s.t| && !(s.t[p].state == SLEEPING && s.t[p].chan == ProcChan(p)))
            && (forall i, j :: 0 <= i < j < |s.reaped| ==> s.reaped[i] != s.reaped[j])
            && (forall i {:trigger s.t[i].pid} :: 0 <= i < |s.t| && s.t[i].state != UNUSED ==> s.t[i].pid !in s.reaped)
  {
    hide Enabled, Next, Boot;
    BootInv(n);
    RunKeeps(Boot(n), steps, 0);
    var s := Run(Boot(n), steps, 0);
    forall i | 0 <= i < |s.t| && s.t[i].state == ZOMBIE
      ensures var p := s.t[i].parent; 0 <= p < |s.t| && !(s.t[p].state == SLEEPING && s.t[p].chan == ProcChan(p))
    {
      ZombieSeen(s.t, 0, i);
    }
  }

  // ---------- whom kill() reaches ----------

  // kill() does not look at the state of a slot. A slot keeps its pid when fork gives it up, and has pid 0
  // when it was reaped or never used; no process has such a pid.
  ghost predicate Stale(s: State) {
    && s.nextpid >= 1
    && (forall i {:trigger s.t[i].pid} :: 0 <= i < |s.t| ==>
          s.t[i].pid < s.nextpid && (s.t[i].state != UNUSED ==> s.t[i].pid >= 1))
    && (forall i, j {:trigger s.t[i].pid, s.t[j].pid} ::
          0 <= i < |s.t| && 0 <= j < |s.t| && s.t[i].state == UNUSED && s.t[j].state != UNUSED ==>
              s.t[i].pid != s.t[j].pid)
  }

  // No pid changes, and no slot is taken or given up.
  ghost predicate SamePids(t: Table, r: Table) {
    |r| == |t| && forall i {:trigger r[i]} :: 0 <= i < |t| ==>
        r[i].pid == t[i].pid && (r[i].state == UNUSED <==> t[i].state == UNUSED)
  }

  lemma {:induction false} SameStale(s: State, r: State)
    requires Stale(s) && SamePids(s.t, r.t) && r.nextpid == s.nextpid
    ensures Stale(r)
  {
  }

  lemma {:induction false} StepSamePids(s: State, step: Step, init: int)
    requires Enabled(s, step, init) && Forking(s.t) && !step.Alloc? && !step.Abort? && !step.WaitReap?
    ensures SamePids(s.t, Next(s, step, init).t) && Next(s, step, init).nextpid == s.nextpid
  {
    var r := Next(s, step, init);
    if step.Exit? {
      forall i | 0 <= i < |s.t|
        ensures r.t[i].pid == s.t[i].pid && (r.t[i].state == UNUSED <==> s.t[i].state == UNUSED)
      {
        assert r.t[i] == Left(s.t, step.p, init, i);
      }
    } else if step.Publish? || step.SetParent? {
      assert s.t[s.t[step.p].making].state == EMBRYO;
    }
  }

  // One slot n changes its pid or its state.
  lemma {:induction false} OneStale(s: State, r: State, n: int)
    requires Stale(s) && |r.t| == |s.t| && 0 <= n < |s.t| && s.nextpid <= r.nextpid
    requires forall i {:trigger r.t[i]} :: 0 <= i < |s.t| && i != n ==>
             r.t[i].pid == s.t[i].pid && (r.t[i].state == UNUSED <==> s.t[i].state == UNUSED)
    requires r.t[n].pid < r.nextpid && (r.t[n].state != UNUSED ==> r.t[n].pid >= 1)
    requires forall i {:trigger s.t[i].pid} ::
               0 <= i < |s.t| && i != n && (r.t[n].state == UNUSED <==> s.t[i].state != UNUSED) ==>
               s.t[i].pid != r.t[n].pid
    ensures Stale(r)
  {
    forall i | 0 <= i < |r.t|
      ensures r.t[i].pid < r.nextpid && (r.t[i].state != UNUSED ==> r.t[i].pid >= 1)
    {
      if i != n { assert s.t[i].pid < s.nextpid; }
    }
    forall i, j | 0 <= i < |r.t| && 0 <= j < |r.t| && r.t[i].state == UNUSED && r.t[j].state != UNUSED
      ensures r.t[i].pid != r.t[j].pid
    {
      assert i != n ==> s.t[i].pid == r.t[i].pid;
      assert j != n ==> s.t[j].pid == r.t[j].pid;
    }
  }

  lemma {:induction false} AllocStale(s: State, p: int, init: int)
    requires Stale(s) && Enabled(s, Alloc(p), init)
    ensures Stale(Next(s, Alloc(p), init))
  {
    OneStale(s, Next(s, Alloc(p), init), FirstUnused(s.t, 0));
  }

  lemma {:induction false} AbortStale(s: State, p: int, init: int)
    requires Stale(s) && Pids(s) && Forking(s.t) && Enabled(s, Abort(p), init)
    ensures Stale(Next(s, Abort(p), init))
  {
    var n := s.t[p].making;
    assert s.t[n].state == EMBRYO;
    OneStale(s, Next(s, Abort(p), init), n);
  }

  lemma {:induction false} ReapStale(s: State, p: int, init: int)
    requires Stale(s) && Enabled(s, WaitReap(p), init)
    ensures Stale(Next(s, WaitReap(p), init))
  {
    OneStale(s, Next(s, WaitReap(p), init), FirstZombie(s.t, p, 0));
  }

  lemma {:induction false} StepStale(s: State, step: Step, init: int)
    requires Inv(s, init) && Stale(s) && Enabled(s, step, init)
    ensures Stale(Next(s, step, init))
  {
    hide Next, Enabled, Stale, Family, Forking, Embryos, NoMissedExit, Channels, Pids;
    if step.Alloc? {
      AllocStale(s, step.p, init);
    } else if step.Abort? {
      AbortStale(s, step.p, init);
    } else if step.WaitReap? {
      ReapStale(s, step.p, init);
    } else {
      StepSamePids(s, step, init);
      SameStale(s, Next(s, step, init));
    }
  }

  lemma {:induction false} RunStale(s: State, steps: seq<Step>, init: int)
    requires Inv(s, init) && Stale(s) && CanRun(s, steps, init)
    ensures Stale(Run(s, steps, init)) && Inv(Run(s, steps, init), init)
    decreases |steps|
  {
    hide Inv, Stale, Enabled, Next;
    if steps != [] {
      StepKeeps(s, steps[0], init);
      StepStale(s, steps[0], init);
      RunStale(Next(s, steps[0], init), steps[1..], init);
    }
  }

  predicate HasPid(t: Table, pid: nat, i: int) { 0 <= i < |t| && t[i].state != UNUSED && t[i].pid == pid }

  // In every reachable state kill(pid) marks a process exactly when some process has that pid, and then it is
  // that one and no other; for any other pid it fails, or marks a slot nobody uses.
  lemma {:induction false} KillReaches(n: nat, steps: seq<Step>, pid: nat)
    requires n >= 1 && CanRun(Boot(n), steps, 0)
    ensures var t := Run(Boot(n), steps, 0).t;
            var k := WithPid(t, pid, 0);
            && (HasPid(t, pid, k) <==> exists i :: HasPid(t, pid, i))
            && (forall i :: HasPid(t, pid, i) ==> i == k)
  {
    hide Enabled, Next, Boot, Family, Forking, Embryos, NoMissedExit, Channels;
    BootInv(n);
    BootStale(n);
    RunStale(Boot(n), steps, 0);
    var s := Run(Boot(n), steps, 0);
    var k := WithPid(s.t, pid, 0);
    forall i | HasPid(s.t, pid, i)
      ensures i == k
    {
      assert s.t[i].pid == pid && s.t[k].pid == pid;
    }
  }

  lemma BootStale(n: nat)
    requires n >= 1
    ensures Stale(Boot(n))
  {
  }

  // No unused slot is marked killed, so the next process in it starts unmarked: allocproc does not clear it.
  predicate Unmarked(t: Table) { forall i {:trigger t[i]} :: 0 <= i < |t| && t[i].state == UNUSED ==> !t[i].killed }

  // A kill of a pid that only an unused slot has, or a fork given up after its embryo was killed.
  predicate LeavesMark(s: State, step: Step, init: int)
    requires Enabled(s, step, init)
  {
    match step
    case Kill(_, pid) => var k := WithPid(s.t, pid, 0); k < |s.t| && s.t[k].state == UNUSED
    case Abort(p) => s.t[s.t[p].making].killed
    case _ => false
  }

  // Unused slots stay unmarked exactly when the step is neither.
  lemma {:induction false} UnmarkedIff(s: State, step: Step, init: int)
    requires Forking(s.t) && Unmarked(s.t) && Enabled(s, step, init)
    ensures Unmarked(Next(s, step, init).t) <==> !LeavesMark(s, step, init)
  {
    var r := Next(s, step, init).t;
    if step.Exit? {
      forall i | 0 <= i < |r| && r[i].state == UNUSED
        ensures !r[i].killed
      {
        assert r[i] == Left(s.t, step.p, init, i) && s.t[i].state == UNUSED;
      }
    } else if step.Kill? {
      var k := WithPid(s.t, step.pid, 0);
      if k < |s.t| { assert r[k].killed; }
    } else if step.Abort? {
      var n := s.t[step.p].making;
      assert s.t[n].state == EMBRYO && n != step.p && r[n].state == UNUSED && r[n].killed == s.t[n].killed;
    } else if step.Publish? || step.SetParent? {
      assert s.t[s.t[step.p].making].state == EMBRYO;
    }
  }

  // A process allocated in a marked slot is killed before it runs; in an unmarked one it is not.
  lemma BornMarked(s: State, p: int, init: int)
    requires Enabled(s, Alloc(p), init)
    ensures var n := FirstUnused(s.t, 0); n != p && Next(s, Alloc(p), init).t[n].killed == s.t[n].killed
  {
  }

  // kill(0) on a fresh table is such a step.
  lemma KillZero(n: nat)
    requires n >= 2
    ensures var s := Boot(n); Enabled(s, Kill(0, 0), 0) && LeavesMark(s, Kill(0, 0), 0) && Unmarked(s.t)
  {
    var s := Boot(n);
    assert s.t[1].pid == 0 && s.t[0].pid == 1;
    assert WithPid(s.t, 0, 0) == 1;
  }

  // init forks, the embryo is killed, and the fork is given up: the slot keeps the mark, and the next
  // process made in it is killed before it runs.
  lemma {:induction false} KilledEmbryo(n: nat)
    requires n >= 2
    ensures var steps := [Schedule(0), Alloc(0), Kill(0, 2)];
            && CanRun(Boot(n), steps, 0) && Unmarked(Run(Boot(n), steps, 0).t)
            && Enabled(Run(Boot(n), steps, 0), Abort(0), 0) && LeavesMark(Run(Boot(n), steps, 0), Abort(0), 0)
    ensures var steps := [Schedule(0), Alloc(0), Kill(0, 2), Abort(0), Alloc(0)];
            && CanRun(Boot(n), steps, 0)
            && Run(Boot(n), steps, 0).t[1] == Proc(EMBRYO, 3, -1, NoChan, true, -1)
  {
    hide Enabled, Next;
    var s0 := Boot(n);
    var s1, s2, s3 := KilledRun(n);
    var s4 := Next(s3, Abort(0), 0);
    var s5 := Next(s4, Alloc(0), 0);
    assert [Abort(0), Alloc(0)][1..] == [Alloc(0)];
    assert CanRun(s3, [Abort(0), Alloc(0)], 0) && Run(s3, [Abort(0), Alloc(0)], 0) == s5 by {
      assert CanRun(s4, [Alloc(0)], 0) && Run(s4, [Alloc(0)], 0) == s5;
    }
    RunThree(s0, Schedule(0), Alloc(0), Kill(0, 2), [], s3);
    RunThree(s0, Schedule(0), Alloc(0), Kill(0, 2), [Abort(0), Alloc(0)], s5);
    assert [Schedule(0), Alloc(0), Kill(0, 2)] + [] == [Schedule(0), Alloc(0), Kill(0, 2)];
    assert [Schedule(0), Alloc(0), Kill(0, 2)] + [Abort(0), Alloc(0)]
        == [Schedule(0), Alloc(0), Kill(0, 2), Abort(0), Alloc(0)];
  }

  lemma {:induction false} RunThree(s: State, a: Step, b: Step, c: Step, rest: seq<Step>, r: State)
    requires Enabled(s, a, 0) && Enabled(Next(s, a, 0), b, 0) && Enabled(Next(Next(s, a, 0), b, 0), c, 0)
    requires CanRun(Next(Next(Next(s, a, 0), b, 0), c, 0), rest, 0)
    requires Run(Next(Next(Next(s, a, 0), b, 0), c, 0), rest, 0) == r
    ensures CanRun(s, [a, b, c] + rest, 0) && Run(s, [a, b, c] + rest, 0) == r
  {
    hide Enabled, Next;
    var s1 := Next(s, a, 0);
    var s2 := Next(s1, b, 0);
    assert ([c] + rest)[1..] == rest && ([b, c] + rest)[1..] == [c] + rest && ([a, b, c] + rest)[1..] == [b, c] + rest;
    assert CanRun(s2, [c] + rest, 0) && Run(s2, [c] + rest, 0) == r;
    assert CanRun(s1, [b, c] + rest, 0) && Run(s1, [b, c] + rest, 0) == r;
  }

  lemma {:induction false} KilledRun(n: nat) returns (s1: State, s2: State, s3: State)
    requires n >= 2
    ensures Enabled(Boot(n), Schedule(0), 0) && s1 == Next(Boot(n), Schedule(0), 0)
    ensures Enabled(s1, Alloc(0), 0) && s2 == Next(s1, Alloc(0), 0)
    ensures Enabled(s2, Kill(0, 2), 0) && s3 == Next(s2, Kill(0, 2), 0)
    ensures Unmarked(s3.t) && Enabled(s3, Abort(0), 0) && LeavesMark(s3, Abort(0), 0)
    ensures var s4 := Next(s3, Abort(0), 0);
            Enabled(s4, Alloc(0), 0) && Next(s4, Alloc(0), 0).t[1] == Proc(EMBRYO, 3, -1, NoChan, true, -1)
  {
    s1 := Next(Boot(n), Schedule(0), 0);
    assert FirstUnused(s1.t, 0) == 1;
    s2 := Next(s1, Alloc(0), 0);
    assert WithPid(s2.t, 2, 0) == 1;
    s3 := Next(s2, Kill(0, 2), 0);
    var s4 := Next(s3, Abort(0), 0);
    assert s4.t[0].state == RUNNING && s4.t[1].state == UNUSED;
    assert FirstUnused(s4.t, 0) == 1;
  }

  // ---------- the life of a slot ----------

  // The only ways in which a step changes the state of slot i.
  predicate Moves(s: State, step: Step, init: int, i: int, to: PState)
    requires Enabled(s, step, init) && 0 <= i < |s.t|
  {
    var t, p := s.t, step.p;
    match t[i].state
    case UNUSED => step.Alloc? && to == EMBRYO && forall j :: 0 <= j < i ==> t[j].state != UNUSED
    case EMBRYO => i == t[p].making && ((step.Abort? && to == UNUSED) || (step.Publish? && to == RUNNABLE))
    case SLEEPING =>
      && to == RUNNABLE
      && (|| (step.Wakeup? && t[i].chan == OtherChan(step.id))
          || (step.Kill? && t[i].pid == step.pid)
          || (step.Exit? && WokenByExit(t, p, init, i)))
    case RUNNABLE => step.Schedule? && i == p && to == RUNNING
    case RUNNING =>
      && i == p
      && (|| (step.Yield? && to == RUNNABLE)
          || ((step.Sleep? || step.WaitSleep?) && to == SLEEPING)
          || (step.Exit? && to == ZOMBIE))
    case ZOMBIE => step.WaitReap? && t[i].parent == p && to == UNUSED
  }

  lemma {:induction false} LifeOfState(s: State, step: Step, init: int, i: int)
    requires Forking(s.t) && Embryos(s.t) && Enabled(s, step, init) && 0 <= i < |s.t|
    ensures var r := Next(s, step, init).t[i]; r.state != s.t[i].state ==> Moves(s, step, init, i, r.state)
  {
    hide ExitOf, WokenByExit, Embryos;
    if step.Exit? {
      ExitFrame(s.t, step.p, init, i);
    } else if IsFork(step) && !step.Alloc? {
      assert s.t[s.t[step.p].making].state == EMBRYO;
    }
  }

  // Pids come with Alloc and go with WaitReap; a parent is set by the fork in charge, passed to init by exit or
  // cleared with WaitReap.
  lemma {:induction false} Lifecycle(s: State, step: Step, init: int, i: int)
    requires Forking(s.t) && Embryos(s.t) && Enabled(s, step, init) && 0 <= i < |s.t|
    ensures var q, r := s.t[i], Next(s, step, init).t[i];
            && (r.state != q.state ==> Moves(s, step, init, i, r.state))
            && (r.pid != q.pid ==> (step.Alloc? && r.pid == s.nextpid && r.state == EMBRYO)
                                   || (step.WaitReap? && r.pid == 0 && r.state == UNUSED))
            && (r.parent != q.parent ==> (step.SetParent? && i == s.t[step.p].making && r.parent == step.p)
                                         || (step.Exit? && q.parent == step.p && r.parent == init)
                                         || (step.WaitReap? && r.parent == -1))
  {
    hide ExitOf, WokenByExit, Moves;
    LifeOfState(s, step, init, i);
    if step.Exit? {
      ExitFrame(s.t, step.p, init, i);
    } else if IsFork(step) && !step.Alloc? {
      assert s.t[s.t[step.p].making].state == EMBRYO;
    }
  }

  // ---------- who is marked killed ----------

  lemma {:induction false} RunLast(s: State, steps: seq<Step>, init: int, step: Step)
    requires CanRun(s, steps + [step], init)
    ensures CanRun(s, steps, init) && Enabled(Run(s, steps, init), step, init)
    ensures Run(s, steps + [step], init) == Next(Run(s, steps, init), step, init)
    decreases |steps|
  {
    hide Enabled, Next;
    if steps == [] {
      assert [] + [step] == [step] && [step][1..] == [];
      assert Run(Next(s, step, init), [], init) == Next(s, step, init);
    } else {
      assert (steps + [step])[1..] == steps[1..] + [step];
      RunLast(Next(s, steps[0], init), steps[1..], init, step);
    }
  }

  // The state before step k of a run.
  ghost function Before(s: State, steps: seq<Step>, init: int, k: nat): (r: State)
    requires k <= |steps|
  {
    if CanRun(s, steps[..k], init) then Run(s, steps[..k], init) else s
  }

  // Step k was a kill of the process with this pid, then in slot i; or it gave slot i, marked, this pid.
  ghost predicate Marks(s: State, steps: seq<Step>, init: int, i: int, pid: nat, k: nat) {
    && k < |steps| && 0 <= i < |Before(s, steps, init, k).t|
    && var b := Before(s, steps, init, k);
       || (steps[k].Kill? && steps[k].pid == pid && b.t[i].pid == pid)
       || (steps[k].Alloc? && b.nextpid == pid && b.t[i].killed)
  }

  ghost predicate Marked(s: State, steps: seq<Step>, init: int, i: int, pid: nat) {
    exists k :: Marks(s, steps, init, i, pid, k)
  }

  lemma {:induction false} MarksFront(s: State, front: seq<Step>, step: Step, init: int, i: int, pid: nat)
    requires CanRun(s, front, init) && 0 <= i < |Run(s, front, init).t|
    ensures Marked(s, front + [step], init, i, pid) <==>
            || Marked(s, front, init, i, pid)
            || (step.Kill? && step.pid == pid && Run(s, front, init).t[i].pid == pid)
            || (step.Alloc? && Run(s, front, init).nextpid == pid && Run(s, front, init).t[i].killed)
  {
    hide Run, CanRun;
    var steps, n := front + [step], |front|;
    assert steps[..n] == front && front[..n] == front;
    forall k: nat | k < n
      ensures Marks(s, steps, init, i, pid, k) == Marks(s, front, init, i, pid, k)
    {
      assert steps[..k] == front[..k];
    }
    if Marked(s, steps, init, i, pid) {
      var k: nat :| Marks(s, steps, init, i, pid, k);
      if k < n { assert Marks(s, front, init, i, pid, k); }
    }
    if Marked(s, front, init, i, pid) {
      var k: nat :| Marks(s, front, init, i, pid, k);
      assert Marks(s, steps, init, i, pid, k);
    }
    assert Marks(s, steps, init, i, pid, n) <==>
           || (step.Kill? && step.pid == pid && Run(s, front, init).t[i].pid == pid)
           || (step.Alloc? && Run(s, front, init).nextpid == pid && Run(s, front, init).t[i].killed);
  }

  // What a step does to the mark of slot i.
  lemma {:induction false} StepMark(s: State, step: Step, init: int, i: int)
    requires Forking(s.t) && Stale(s) && Enabled(s, step, init) && 0 <= i < |s.t|
    ensures var q, r := s.t[i], Next(s, step, init).t[i];
            r.killed <==> if step.WaitReap? && r.pid != q.pid then false
                          else q.killed || (step.Kill? && WithPid(s.t, step.pid, 0) == i)
  {
    hide ExitOf, WokenByExit;
    if step.Exit? { ExitFrame(s.t, step.p, init, i); }
  }

  // nextpid never goes down, so a pid handed out later was not a slot's pid before.
  lemma {:induction false} PidsGrow(s: State, steps: seq<Step>, init: int, k: nat)
    requires Inv(s, init) && Stale(s) && CanRun(s, steps, init) && k <= |steps|
    ensures var b := Before(s, steps, init, k);
            && CanRun(s, steps[..k], init) && b == Run(s, steps[..k], init)
            && Stale(b) && |b.t| == |s.t| == |Run(s, steps, init).t|
            && b.nextpid <= Run(s, steps, init).nextpid
            && (k < |steps| && steps[k].Alloc? ==> b.nextpid < Run(s, steps, init).nextpid)
    decreases |steps|
  {
    hide Inv, Stale, Enabled, Next;
    if k == |steps| {
      assert steps[..k] == steps;
      RunStale(s, steps, init);
      SameSize(s, steps, init);
    } else {
      var front, last := steps[..|steps| - 1], steps[|steps| - 1];
      assert steps == front + [last];
      RunLast(s, front, init, last);
      PidsGrow(s, front, init, k);
      assert front[..k] == steps[..k];
      NextPid(Run(s, front, init), last, init);
      if k == |front| { assert front[..k] == front; } else { assert front[k] == steps[k]; }
    }
  }

  lemma NextPid(s: State, step: Step, init: int)
    requires Enabled(s, step, init)
    ensures var r := Next(s, step, init);
            r.nextpid == s.nextpid + (if step.Alloc? then 1 else 0) && |r.t| == |s.t|
  {
  }

  lemma {:induction false} SameSize(s: State, steps: seq<Step>, init: int)
    requires CanRun(s, steps, init)
    ensures |Run(s, steps, init).t| == |s.t|
    decreases |steps|
  {
    hide Enabled, Next;
    if steps != [] {
      NextPid(s, steps[0], init);
      SameSize(Next(s, steps[0], init), steps[1..], init);
    }
  }

  // A pid that is still to be handed out has not been marked.
  lemma {:induction false} FreshUnmarked(s: State, steps: seq<Step>, init: int, i: int)
    requires Inv(s, init) && Stale(s) && CanRun(s, steps, init) && 0 <= i < |s.t|
    ensures !Marked(s, steps, init, i, Run(s, steps, init).nextpid)
  {
    hide Inv, CanRun, Run;
    var pid := Run(s, steps, init).nextpid;
    if Marked(s, steps, init, i, pid) {
      var k: nat :| Marks(s, steps, init, i, pid, k);
      PidsGrow(s, steps, init, k);
    }
  }

  // The first slot with the pid of a process is its own.
  lemma {:induction false} OwnPid(s: State, i: int)
    requires Stale(s) && Pids(s) && 0 <= i < |s.t| && s.t[i].state != UNUSED
    ensures WithPid(s.t, s.t[i].pid, 0) == i
  {
    var k := WithPid(s.t, s.t[i].pid, 0);
    assert s.t[k].pid == s.t[i].pid;
  }

  lemma {:induction false} KilledStep(s: State, front: seq<Step>, last: Step, init: int, i: int)
    requires Inv(s, init) && Stale(s) && CanRun(s, front + [last], init) && 0 <= i < |s.t|
    requires CanRun(s, front, init) && |Run(s, front, init).t| == |s.t| == |Run(s, front + [last], init).t|
    requires Run(s, front, init).t[i].state != UNUSED ==>
               (Run(s, front, init).t[i].killed <==> Marked(s, front, init, i, Run(s, front, init).t[i].pid))
    requires Run(s, front + [last], init).t[i].state != UNUSED
    ensures var r := Run(s, front + [last], init); r.t[i].killed <==> Marked(s, front + [last], init, i, r.t[i].pid)
  {
    hide Marked, Run, CanRun, Enabled, Next, Stale, Family, Embryos, NoMissedExit, Channels, Pids;
    RunLast(s, front, init, last);
    RunStale(s, front, init);
    var f, r := Run(s, front, init), Run(s, front + [last], init);
    Lifecycle(f, last, init, i);
    StepMark(f, last, init, i);
    MarksFront(s, front, last, init, i, r.t[i].pid);
    if r.t[i].pid != f.t[i].pid {
      FreshUnmarked(s, front, init, i);
      NotNow(f, i);
    } else {
      StaysUsed(f, last, init, i);
      OwnPid(f, i);
      NotNow(f, i);
    }
  }

  lemma NotNow(s: State, i: int)
    requires Stale(s) && 0 <= i < |s.t|
    ensures s.t[i].pid < s.nextpid
  {
  }

  lemma {:induction false} StaysUsed(s: State, step: Step, init: int, i: int)
    requires Stale(s) && Enabled(s, step, init) && 0 <= i < |s.t| && Next(s, step, init).t[i].pid == s.t[i].pid
    requires Next(s, step, init).t[i].state != UNUSED && Forking(s.t) && Embryos(s.t)
    ensures s.t[i].state != UNUSED
  {
    Lifecycle(s, step, init, i);
    NotNow(s, i);
  }

  // WHO IS KILLED. In every reachable state a process is marked killed exactly when some step of the run was a
  // kill of its pid, or it was made in a slot that was marked already.
  lemma {:induction false} KilledIff(n: nat, steps: seq<Step>, i: int)
    requires n >= 1 && CanRun(Boot(n), steps, 0) && 0 <= i < |Run(Boot(n), steps, 0).t|
    requires Run(Boot(n), steps, 0).t[i].state != UNUSED
    ensures var p := Run(Boot(n), steps, 0).t[i]; p.killed <==> Marked(Boot(n), steps, 0, i, p.pid)
    decreases |steps|
  {
    hide Marked, Enabled, Next, Inv, Stale, Boot, Run, CanRun;
    var s := Boot(n);
    BootInv(n);
    BootStale(n);
    SameSize(s, steps, 0);
    if steps == [] {
      NoneMarked(n, i);
    } else {
      var front, last := steps[..|steps| - 1], steps[|steps| - 1];
      assert steps == front + [last];
      RunLast(s, front, 0, last);
      SameSize(s, front, 0);
      if Run(s, front, 0).t[i].state != UNUSED { KilledIff(n, front, i); }
      KilledStep(s, front, last, 0, i);
    }
  }

  lemma NoneMarked(n: nat, i: int)
    requires n >= 1 && 0 <= i < |Boot(n).t|
    ensures CanRun(Boot(n), [], 0) && Run(Boot(n), [], 0) == Boot(n)
    ensures !Boot(n).t[i].killed && !Marked(Boot(n), [], 0, i, Boot(n).t[i].pid)
  {
  }

  // ---------- every zombie can be collected ----------

  ghost predicate Reaches(s: State, r: State, init: int) {
    exists steps :: CanRun(s, steps, init) && Run(s, steps, init) == r
  }

  lemma {:induction false} RunThen(s: State, steps: seq<Step>, step: Step, init: int)
    requires CanRun(s, steps, init) && Enabled(Run(s, steps, init), step, init)
    ensures CanRun(s, steps + [step], init) && Run(s, steps + [step], init) == Next(Run(s, steps, init), step, init)
    decreases |steps|
  {
    hide Enabled, Next;
    if steps == [] {
      assert steps + [step] == [step] && [step][1..] == [];
      assert CanRun(Next(s, step, init), [], init) && Run(Next(s, step, init), [], init) == Next(s, step, init);
    } else {
      assert (steps + [step])[1..] == steps[1..] + [step];
      RunThen(Next(s, steps[0], init), steps[1..], step, init);
    }
  }

  lemma {:induction false} ReachesNext(s: State, r: State, step: Step, init: int)
    requires Inv(s, init) && Reaches(s, r, init) && Enabled(r, step, init)
    ensures Reaches(s, Next(r, step, init), init) && Inv(r, init) && Inv(Next(r, step, init), init)
  {
    hide Inv, Enabled, Next, CanRun, Run;
    var steps :| CanRun(s, steps, init) && Run(s, steps, init) == r;
    RunThen(s, steps, step, init);
    RunKeeps(s, steps, init);
    StepKeeps(r, step, init);
  }

  lemma {:induction false} ReachesInv(s: State, r: State, init: int)
    requires Inv(s, init) && Reaches(s, r, init)
    ensures Inv(r, init)
  {
    hide Inv, CanRun, Run;
    var steps :| CanRun(s, steps, init) && Run(s, steps, init) == r;
    RunKeeps(s, steps, init);
  }

  predicate Zombie(t: Table, i: int, p: int, pid: nat) {
    0 <= i < |t| && t[i].state == ZOMBIE && t[i].parent == p && t[i].pid == pid
  }

  // The parent of a zombie can get to the CPU.
  lemma {:induction false} ParentRuns(s: State, t: State, init: int, i: int, p: int, pid: nat) returns (r: State)
    requires Inv(s, init) && Reaches(s, t, init) && Zombie(t.t, i, p, pid)
    ensures Reaches(s, r, init) && Zombie(r.t, i, p, pid) && 0 <= p < |r.t| && r.t[p].state == RUNNING
    ensures |r.t| == |t.t| && r.t[p].making == t.t[p].making
  {
    hide Reaches, Forking, Embryos, Pids;
    ReachesInv(s, t, init);
    ZombieSeen(t.t, init, i);
    assert Alive(t.t[p]) && t.t[p].state != EMBRYO by { assert t.t[i].parent == p; }
    r := t;
    if r.t[p].state == SLEEPING {
      assert r.t[p].chan.OtherChan?;
      var step := Wakeup(p, r.t[p].chan.id);
      ReachesNext(s, r, step, init);
      r := Next(r, step, init);
    }
    if r.t[p].state == RUNNABLE {
      ReachesNext(s, r, Schedule(p), init);
      r := Next(r, Schedule(p), init);
    }
  }

  // It can finish or give up the fork it may be in.
  lemma {:induction false} ParentReady(s: State, t: State, init: int, i: int, p: int, pid: nat) returns (r: State)
    requires Inv(s, init) && Reaches(s, t, init) && Zombie(t.t, i, p, pid)
    ensures Reaches(s, r, init) && Zombie(r.t, i, p, pid) && Runs(r.t, p)
  {
    hide Reaches, Embryos, NoMissedExit, Channels, Pids, Family;
    r := ParentRuns(s, t, init, i, p, pid);
    ReachesInv(s, r, init);
    if r.t[p].making != -1 {
      var n := r.t[p].making;
      assert r.t[n].state == EMBRYO && (r.t[n].parent == -1 || r.t[n].parent == p);
      var step := if r.t[n].parent == -1 then Abort(p) else Publish(p);
      ReachesNext(s, r, step, init);
      r := Next(r, step, init);
    }
  }

  lemma {:induction false} CollectAll(s: State, t: State, init: int, i: int, p: int, pid: nat) returns (r: State)
    requires Inv(s, init) && Reaches(s, t, init) && Zombie(t.t, i, p, pid) && Runs(t.t, p)
    ensures Reaches(s, r, init) && |r.t| == |t.t| && r.t[i].state == UNUSED
    ensures r.reaped != [] && r.reaped[|r.reaped| - 1] == pid
    decreases i - FirstZombie(t.t, p, 0)
  {
    hide Reaches, Inv;
    var k := FirstZombie(t.t, p, 0);
    assert k <= i by { assert ZombieChild(t.t, p, i); }
    ReachesNext(s, t, WaitReap(p), init);
    r := Next(t, WaitReap(p), init);
    if k < i {
      forall j | 0 <= j <= k
        ensures !ZombieChild(r.t, p, j)
      {
        assert j < k ==> r.t[j] == t.t[j] && !ZombieChild(t.t, p, j);
      }
      r := CollectAll(s, r, init, i, p, pid);
    }
  }

  // NO ZOMBIE IS STUCK. In every reachable state every zombie can be collected: some steps end with its slot
  // unused and its pid returned by wait().
  lemma {:induction false} CanBeReaped(n: nat, s: State, i: int) returns (r: State)
    requires n >= 1 && Reaches(Boot(n), s, 0) && 0 <= i < |s.t| && s.t[i].state == ZOMBIE
    ensures Reaches(Boot(n), r, 0) && i < |r.t| && r.t[i].state == UNUSED
    ensures r.reaped != [] && r.reaped[|r.reaped| - 1] == s.t[i].pid
  {
    hide Reaches, Inv, Boot;
    BootInv(n);
    var p, pid := s.t[i].parent, s.t[i].pid;
    var t := ParentReady(Boot(n), s, 0, i, p, pid);
    r := CollectAll(Boot(n), t, 0, i, p, pid);
  }
}
