/**
  What the thread package promises over whole runs: who gets a mutex and when, that no wakeup is lost, and how long
  a runnable thread waits.
 */
module UthreadRuns {
  import opened Uthread

  // ---------------------------------------------------------------- queues of mutexes and condition variables

  ghost predicate Waiting(id: Queue) {
    id.Mutexq? || id.Condq?
  }

  /** The steps that take threads off the queue of a mutex or a condition variable. */
  ghost predicate Pops(st: Step, id: Queue) {
    match id
    case Mutexq(m) => st == Unlock(m) || (st.CondWait? && st.m == m)
    case Condq(c) => st == Signal(c) || st == Broadcast(c)
    case _ => false
  }

  lemma WakeOther(s: State, u: nat, id: Queue)
    requires Waiting(id) && (Th(s, u).status == Wait ==> Home(Th(s, u)) != id)
    ensures Q(WakeUp(s, u), id) == Q(s, id)
  {
  }

  lemma LinkTail(s: State, u: nat, t: Thread, id: Queue)
    requires Waiting(id)
    ensures Q(Link(s, u, t), id) == if Home(t) == id then Q(s, id) + [u] else Q(s, id)
  {
  }

  lemma {:induction false} SignalsOther(s: State, c: nat, k: nat, id: Queue)
    requires Inv(s) && Now(s).status == OnCpu && Waiting(id) && id != Condq(c)
    ensures Q(Signals(s, c, k), id) == Q(s, id)
  {
    if k != 0 {
      SignalsOther(s, c, k - 1, id);
      SignalsKeep(s, c, k - 1);
      SignalOther(Signals(s, c, k - 1), c, id);
    }
  }

  lemma SignalOther(s: State, c: nat, id: Queue)
    requires Inv(s) && Waiting(id) && id != Condq(c)
    ensures Q(SignalStep(s, c), id) == Q(s, id)
  {
    if Q(s, Condq(c)) != [] {
      var u := Q(s, Condq(c))[0];
      assert QueueOk(s, Condq(c)) && u in Q(s, Condq(c));
      WakeOther(s, u, id);
    }
  }

  lemma UnlockQueues(s: State, m: nat, id: Queue)
    requires Inv(s) && Waiting(id)
    ensures Q(UnlockStep(s, m), id)
      == if id == Mutexq(m) && Q(s, id) != [] then Q(s, id)[1..] else Q(s, id)
  {
    if Q(s, Mutexq(m)) != [] {
      assert QueueOk(s, Mutexq(m)) && Q(s, Mutexq(m))[0] in Q(s, Mutexq(m));
    }
  }

  lemma ExitQueues(s: State, v: int, id: Queue)
    requires Inv(s) && Waiting(id) && Now(s).status == OnCpu && Now(s).at == Running
    ensures Q(ExitStep(s, v), id) == Q(s, id)
  {
    var t := Now(s).(status := Zombie, exit := v, exited := true);
    assert JoinOk(s, s.cur) && PlaceOk(s, REAPER);
    LinkTail(s, s.cur, t, id);
    if t.detached {
      WakeOther(Link(s, s.cur, t), REAPER, id);
    } else if t.waiter.Some? {
      WakeOther(Link(s, s.cur, t), t.waiter.value, id);
    }
  }

  lemma JoinLoopQueues(s: State, u: nat, id: Queue)
    requires Waiting(id) && |s.th| == MAX_THREADS && u < |s.th| && s.cur < |s.th| && s.cur != REAPER
    requires u != REAPER || !s.th[REAPER].exited
    requires s.th[REAPER].status == Wait ==> s.th[REAPER].at == InReaper
    requires s.th[u].exited ==> s.th[u].status == Zombie
    ensures Q(JoinLoop(s, u), id) == Q(s, id)
  {
    if s.th[u].exited {
      var s1 := Continue(s);
      var t := Th(s1, u).(detached := true);
      LinkTail(s1, u, t, id);
      WakeOther(Link(s1, u, t), REAPER, id);
    }
  }

  lemma JoinQueues(s: State, u: int, id: Queue)
    requires Inv(s) && Waiting(id) && Now(s).status == OnCpu && Now(s).at == Running
    ensures Q(JoinStep(s, u), id) == Q(s, id)
  {
    if JoinCode(s, u) == 0 {
      assert PlaceOk(s, s.cur) && PlaceOk(s, REAPER) && PlaceOk(s, u);
      JoinLoopQueues(Update(s, u, Th(s, u).(waiter := Some(s.cur))), u, id);
    }
  }

  lemma LockQueues(s: State, m: nat, queued: Where, id: Queue)
    requires Waiting(id)
    ensures Q(s, id) <= Q(LockAs(s, m, queued), id)
  {
  }

  lemma SetPrioQueues(s: State, u: int, prio: int, id: Queue)
    requires Waiting(id)
    ensures Q(SetPrioStep(s, u, prio), id) == Q(s, id)
  {
  }

  lemma DispatchQueues(s: State, id: Queue)
    requires Inv(s) && Waiting(id)
    ensures Q(Dispatch(s), id) == Q(s, id)
  {
    var p := Highest(s, MAX_PRIO + 1);
    if Q(s, Runq(p)) != [] {
      assert QueueOk(s, Runq(p)) && Q(s, Runq(p))[0] in Q(s, Runq(p));
    }
  }

  lemma ResumeQueues(s: State, id: Queue)
    requires Inv(s) && Waiting(id) && Now(s).status == OnCpu && Now(s).at != Running
    ensures Q(s, id) <= Q(ResumeStep(s), id)
  {
    assert PlaceOk(s, s.cur) && PlaceOk(s, REAPER);
    match Now(s).at
    case InCondWait(c, m) => LockQueues(s, m, InRelock(m), id);
    case InJoin(u) =>
      assert JoinOk(s, s.cur) && PlaceOk(s, u);
      JoinLoopQueues(s, u, id);
    case InReaper =>
    case _ =>
  }

  lemma CallQueues(s: State, prio: int, at: Where, id: Queue)
    requires Waiting(id)
    ensures Q(CreateStep(s, prio), id) == Q(s, id) && Q(YieldStep(s), id) == Q(s, id) && Q(s, id) <= Q(BlockAs(s, at), id)
  {
  }

  lemma DetachQueues(s: State, u: int, id: Queue)
    ensures Q(DetachStep(s, u), id) == Q(s, id)
  {
  }

  lemma CondWaitQueues(s: State, c: nat, m: nat, id: Queue)
    requires Inv(s) && Waiting(id) && id != Mutexq(m)
    ensures Q(s, id) <= Q(CondWaitStep(s, c, m), id)
  {
    UnlockQueues(s, m, id);
    CallQueues(UnlockStep(s, m), 0, InCondWait(c, m), id);
  }

  /** Away from the steps that take threads off it, such a queue only grows, and at its end. */
  lemma QueueGrows(s: State, st: Step, id: Queue)
    requires Inv(s) && Enabled(s, st) && Waiting(id) && !Pops(st, id)
    ensures Q(s, id) <= Q(Apply(s, st), id)
  {
    match st
    case TryLock(m) =>
    case Lock(m) => LockQueues(s, m, InLock(m), id);
    case Unlock(m) => UnlockQueues(s, m, id);
    case CondWait(c, m) => CondWaitQueues(s, c, m, id);
    case Signal(c) => SignalOther(s, c, id);
    case Broadcast(c) => SignalsOther(s, c, |Q(s, Condq(c))|, id);
    case _ => OtherQueues(s, st, id);
  }

  lemma OtherQueues(s: State, st: Step, id: Queue)
    requires Inv(s) && Enabled(s, st) && Waiting(id)
    requires !st.TryLock? && !st.Lock? && !st.Unlock? && !st.CondWait? && !st.Signal? && !st.Broadcast?
    ensures Q(s, id) <= Q(Apply(s, st), id)
  {
    match st
    case Create(prio) => CallQueues(s, prio, InBlock, id);
    case Exit(v) => ExitQueues(s, v, id);
    case Join(u) => JoinQueues(s, u, id);
    case Detach(u) => DetachQueues(s, u, id);
    case Yield => CallQueues(s, 0, InBlock, id);
    case Block => CallQueues(s, 0, InBlock, id);
    case Wake(u) => WakeOther(s, u, id);
    case SetPrio(u, prio) => SetPrioQueues(s, u, prio, id);
    case Switch => DispatchQueues(s, id);
    case Resume => ResumeQueues(s, id);
    case _ =>
  }

  // ---------------------------------------------------------------- mutexes

  lemma JoinLoopOwner(s: State, u: nat)
    ensures JoinLoop(s, u).owner == s.owner
  {
  }

  lemma ExitOwner(s: State, v: int)
    ensures ExitStep(s, v).owner == s.owner
  {
  }

  lemma SetPrioOwner(s: State, u: int, prio: int)
    ensures SetPrioStep(s, u, prio).owner == s.owner
  {
  }

  lemma SchedulingOwner(s: State, u: nat)
    ensures Dispatch(s).owner == s.owner && WakeUp(s, u).owner == s.owner
  {
  }

  lemma ReapOwner(s: State)
    ensures ReapStep(s).owner == s.owner
  {
  }

  lemma LockOwner(s: State, k: nat, queued: Where, m: nat)
    requires m in s.owner
    ensures m in LockAs(s, k, queued).owner && LockAs(s, k, queued).owner[m] == s.owner[m]
  {
  }

  lemma ResumeOwner(s: State, m: nat)
    requires m in s.owner
    ensures m in ResumeStep(s).owner && ResumeStep(s).owner[m] == s.owner[m]
  {
    match Now(s).at
    case InCondWait(_, k) => LockOwner(s, k, InRelock(k), m);
    case InJoin(u) => JoinLoopOwner(s, u);
    case InReaper => ReapOwner(s);
    case _ =>
  }

  /** What giving up the mutex k does to the owner of m. */
  ghost predicate GivenUp(s: State, s': State, k: nat, m: nat)
    requires m in s.owner
  {
    if k != m then m in s'.owner && s'.owner[m] == s.owner[m]
    else if Q(s, Mutexq(m)) == [] then m !in s'.owner
    else m in s'.owner && s'.owner[m] == Q(s, Mutexq(m))[0] && Q(s', Mutexq(m)) == Q(s, Mutexq(m))[1..]
  }

  lemma UnlockOwner(s: State, k: nat, m: nat)
    requires Inv(s) && m in s.owner
    ensures GivenUp(s, UnlockStep(s, k), k, m)
  {
    UnlockQueues(s, k, Mutexq(m));
  }

  lemma CondWaitOwner(s: State, c: nat, k: nat, m: nat)
    requires Inv(s) && m in s.owner
    ensures GivenUp(s, CondWaitStep(s, c, k), k, m)
  {
    UnlockOwner(s, k, m);
    assert Q(CondWaitStep(s, c, k), Mutexq(m)) == Q(UnlockStep(s, k), Mutexq(m));
  }

  lemma OwnerSame(s: State, st: Step, m: nat)
    requires m in s.owner && !st.Unlock? && !st.CondWait?
    ensures m in Apply(s, st).owner && Apply(s, st).owner[m] == s.owner[m]
  {
    match st
    case Exit(v) => ExitOwner(s, v);
    case Join(u) => if JoinCode(s, u) == 0 { JoinLoopOwner(Update(s, u, Th(s, u).(waiter := Some(s.cur))), u); }
    case Wake(u) => SchedulingOwner(s, u);
    case SetPrio(u, prio) => SetPrioOwner(s, u, prio);
    case Lock(k) => LockOwner(s, k, InLock(k), m);
    case Broadcast(c) => SignalsOwner(s, c, |Q(s, Condq(c))|);
    case Switch => SchedulingOwner(s, 0);
    case Resume => ResumeOwner(s, m);
    case _ =>
  }

  /** What a step does to the owner of m. */
  lemma OwnerStep(s: State, st: Step, m: nat)
    requires Inv(s) && m in s.owner
    ensures if Pops(st, Mutexq(m)) then GivenUp(s, Apply(s, st), m, m)
            else m in Apply(s, st).owner && Apply(s, st).owner[m] == s.owner[m]
  {
    match st
    case Unlock(k) => UnlockOwner(s, k, m);
    case CondWait(c, k) => CondWaitOwner(s, c, k, m);
    case _ => OwnerSame(s, st, m);
  }

  lemma {:induction false} SignalsOwner(s: State, c: nat, k: nat)
    ensures Signals(s, c, k).owner == s.owner
  {
    if k != 0 { SignalsOwner(s, c, k - 1); }
  }

  lemma PrefixDrop(a: seq<nat>, b: seq<nat>, j: nat)
    requires a <= b && j <= |a|
    ensures a[j..] <= b[j..]
  {
  }

  /** How many of the steps give up m, by uthread_mtx_unlock or in uthread_cond_wait. */
  function Unlocks(steps: seq<Step>, m: nat): nat {
    if steps == [] then 0
    else (if steps[0] == Unlock(m) || (steps[0].CondWait? && steps[0].m == m) then 1 else 0) + Unlocks(steps[1..], m)
  }

  /** What a step does to an owned mutex: it passes to the first thread waiting, or keeps its owner while its queue
      grows at the end. */
  ghost predicate PassedOn(s: State, st: Step, s': State, m: nat)
    requires m in s.owner
  {
    if Pops(st, Mutexq(m)) then GivenUp(s, s', m, m)
    else m in s'.owner && s'.owner[m] == s.owner[m] && Q(s, Mutexq(m)) <= Q(s', Mutexq(m))
  }

  /** Each of the steps does that, as long as the mutex is owned. */
  ghost predicate Passes(s: State, steps: seq<Step>, m: nat)
    decreases steps
  {
    steps != [] && m in s.owner ==>
      PassedOn(s, steps[0], Apply(s, steps[0]), m) && Passes(Apply(s, steps[0]), steps[1..], m)
  }

  lemma {:induction false} RunPasses(s: State, steps: seq<Step>, m: nat)
    requires Inv(s) && AllEnabled(s, steps)
    ensures Passes(s, steps, m)
    decreases steps
  {
    if steps != [] {
      StepKeeps(s, steps[0]);
      if m in s.owner {
        OwnerStep(s, steps[0], m);
        if !Pops(steps[0], Mutexq(m)) { QueueGrows(s, steps[0], Mutexq(m)); }
      }
      RunPasses(Apply(s, steps[0]), steps[1..], m);
    }
  }

  lemma {:induction false} PassesInOrder(s: State, steps: seq<Step>, m: nat)
    requires Passes(s, steps, m) && m in s.owner && Unlocks(steps, m) <= |Q(s, Mutexq(m))|
    ensures var s', j := Run(s, steps), Unlocks(steps, m);
      && m in s'.owner && s'.owner[m] == (if j == 0 then s.owner[m] else Q(s, Mutexq(m))[j - 1])
      && Q(s, Mutexq(m))[j..] <= Q(s', Mutexq(m))
    decreases steps
  {
    if steps != [] {
      var s1, rest := Apply(s, steps[0]), steps[1..];
      assert Run(s, steps) == Run(s1, rest);
      PassesInOrder(s1, rest, m);
      if !Pops(steps[0], Mutexq(m)) { PrefixDrop(Q(s, Mutexq(m)), Q(s1, Mutexq(m)), Unlocks(rest, m)); }
    }
  }

  /** The threads waiting for an owned mutex get it in the order they came, one with every unlock: after j
      unlocks the owner is the one that was at position j - 1, those behind it still wait in the same order
      ahead of all that came later, and nobody else, by uthread_mtx_trylock or otherwise, had it in between. */
  lemma MutexIsFifo(s: State, steps: seq<Step>, m: nat)
    requires Inv(s) && AllEnabled(s, steps) && m in s.owner && Unlocks(steps, m) <= |Q(s, Mutexq(m))|
    ensures var s', j := Run(s, steps), Unlocks(steps, m);
      && m in s'.owner && s'.owner[m] == (if j == 0 then s.owner[m] else Q(s, Mutexq(m))[j - 1])
      && Q(s, Mutexq(m))[j..] <= Q(s', Mutexq(m))
  {
    RunPasses(s, steps, m);
    PassesInOrder(s, steps, m);
  }

  /** A thread that runs on after it was suspended in uthread_mtx_lock, or in taking the mutex again at the end of
      uthread_cond_wait, owns the mutex. */
  lemma LockReturnsOwning(s: State, m: nat)
    requires Inv(s) && Now(s).status == OnCpu
    requires Now(s).at == InLock(m) || Now(s).at == InRelock(m) || Now(s).at == InSelfLock(m)
    ensures Owns(Apply(s, Resume), m) && Now(Apply(s, Resume)).at == Running
  {
    assert PlaceOk(s, s.cur);
  }

  /** A thread woken in uthread_cond_wait either returns owning the mutex or waits for it in its queue. */
  lemma CondWaitReturnsOwning(s: State, c: nat, m: nat)
    requires Inv(s) && Now(s).status == OnCpu && Now(s).at == InCondWait(c, m)
    ensures var s' := Apply(s, Resume);
      if m !in s.owner then Owns(s', m) && Now(s').at == Running
      else s'.cur in Q(s', Mutexq(m)) && Now(s').at == InRelock(m) && Now(s').status == Wait
  {
    assert PlaceOk(s, s.cur);
  }

  // ---------------------------------------------------------------- condition variables

  lemma OwnerNotQueued(s: State, m: nat)
    requires Inv(s) && Owns(s, m)
    ensures s.cur !in Q(s, Mutexq(m))
  {
    assert Q(s, Mutexq(m)) == Q(s, Mutexq(m));
  }

  lemma UnlockLeavesCaller(s: State, m: nat)
    requires Now(s).status == OnCpu
    ensures UnlockStep(s, m).cur == s.cur && Now(UnlockStep(s, m)) == Now(s)
    ensures |UnlockStep(s, m).th| == |s.th|
  {
  }

  lemma BlockSuspends(s: State, c: nat, m: nat)
    requires s.cur < |s.th|
    ensures var s' := BlockAs(s, InCondWait(c, m));
      && s'.cur == s.cur && Q(s', Condq(c)) == Q(s, Condq(c)) + [s.cur]
      && Now(s').status == Wait && Now(s').at == InCondWait(c, m)
  {
  }

  /** uthread_cond_wait queues its caller, gives the mutex up and suspends the caller, with no switch in between. */
  lemma CondWaitIsAtomic(s: State, c: nat, m: nat)
    requires Inv(s) && Enabled(s, CondWait(c, m))
    ensures var s' := Apply(s, CondWait(c, m));
      && s'.cur == s.cur && Q(s', Condq(c)) == Q(s, Condq(c)) + [s.cur]
      && Now(s').status == Wait && Now(s').at == InCondWait(c, m)
      && (m in s'.owner ==> s'.owner[m] != s.cur)
  {
    CondWaitOwner(s, c, m, m);
    OwnerNotQueued(s, m);
    UnlockQueues(s, m, Condq(c));
    UnlockLeavesCaller(s, m);
    BlockSuspends(UnlockStep(s, m), c, m);
  }

  /** uthread_cond_signal makes the thread that has waited longest runnable. */
  lemma SignalTakesFirst(s: State, c: nat)
    requires Inv(s) && Q(s, Condq(c)) != []
    ensures var s', u := SignalStep(s, c), Q(s, Condq(c))[0];
      && Q(s', Condq(c)) == Q(s, Condq(c))[1..] && u < |s.th| && s'.th == s.th[u := s.th[u].(status := Runnable)]
  {
    var u := Q(s, Condq(c))[0];
    assert QueueOk(s, Condq(c)) && u in Q(s, Condq(c));
  }

  /** th with the threads in l runnable. */
  function Awake(th: seq<Thread>, l: seq<nat>): seq<Thread> {
    if l == [] then th
    else
      var rest, u := Awake(th, l[..|l| - 1]), l[|l| - 1];
      if u < |rest| then rest[u := rest[u].(status := Runnable)] else rest
  }

  lemma {:induction false} AwakeIs(th: seq<Thread>, l: seq<nat>)
    ensures |Awake(th, l)| == |th|
    ensures forall u: nat {:trigger Awake(th, l)[u]} :: u < |th| ==>
              Awake(th, l)[u] == if u in l then th[u].(status := Runnable) else th[u]
  {
    if l != [] {
      AwakeIs(th, l[..|l| - 1]);
      assert l == l[..|l| - 1] + [l[|l| - 1]];
    }
  }

  /** From s to s' the first thread on c's queue, if any, left it and became runnable. */
  ghost predicate TookFirst(s: State, s': State, c: nat) {
    Q(s, Condq(c)) != [] ==>
      var u := Q(s, Condq(c))[0];
      Q(s', Condq(c)) == Q(s, Condq(c))[1..] && u < |s.th| && s'.th == s.th[u := s.th[u].(status := Runnable)]
  }

  /** Each of k signals does that. */
  ghost predicate Taking(s: State, c: nat, k: nat) {
    k != 0 ==> Taking(s, c, k - 1) && TookFirst(Signals(s, c, k - 1), Signals(s, c, k), c)
  }

  lemma {:induction false} SignalsTaking(s: State, c: nat, k: nat)
    requires Inv(s) && Now(s).status == OnCpu
    ensures Taking(s, c, k)
  {
    if k != 0 {
      SignalsTaking(s, c, k - 1);
      SignalsKeep(s, c, k - 1);
      if Q(Signals(s, c, k - 1), Condq(c)) != [] { SignalTakesFirst(Signals(s, c, k - 1), c); }
    }
  }

  /** k signals take the first k, and nothing but their status changes. */
  lemma {:induction false} SignalsTake(s: State, c: nat, k: nat)
    requires Taking(s, c, k) && k <= |Q(s, Condq(c))|
    ensures Q(Signals(s, c, k), Condq(c)) == Q(s, Condq(c))[k..]
    ensures Signals(s, c, k).th == Awake(s.th, Q(s, Condq(c))[..k])
  {
    if k != 0 {
      SignalsTake(s, c, k - 1);
      assert Q(s, Condq(c))[..k][..k - 1] == Q(s, Condq(c))[..k - 1];
    }
  }

  lemma SignalsLeft(s: State, c: nat, k: nat)
    requires Inv(s) && Now(s).status == OnCpu && k <= |Q(s, Condq(c))|
    ensures |Q(Signals(s, c, k), Condq(c))| == |Q(s, Condq(c))| - k
  {
    SignalsTaking(s, c, k);
    SignalsTake(s, c, k);
  }

  /** uthread_cond_broadcast makes all of them runnable. */
  lemma BroadcastTakesAll(s: State, c: nat)
    requires Inv(s) && Now(s).status == OnCpu
    ensures var s' := BroadcastStep(s, c);
      && Q(s', Condq(c)) == [] && |s'.th| == |s.th|
      && forall u: nat {:trigger s'.th[u]} :: u < |s.th| ==>
           s'.th[u] == if u in Q(s, Condq(c)) then s.th[u].(status := Runnable) else s.th[u]
  {
    var l := Q(s, Condq(c));
    SignalsTaking(s, c, |l|);
    SignalsTake(s, c, |l|);
    assert l[..|l|] == l;
    AwakeIs(s.th, l);
  }

  function Count(steps: seq<Step>, st: Step): nat {
    if steps == [] then 0 else (if steps[0] == st then 1 else 0) + Count(steps[1..], st)
  }

  /** u is at position k of c's queue. */
  ghost predicate WaitsAt(s: State, c: nat, k: int, u: nat) {
    0 <= k < |Q(s, Condq(c))| && Q(s, Condq(c))[k] == u
  }

  /** st takes the thread at position k off c's queue. */
  ghost predicate Reaches(st: Step, c: nat, k: int) {
    st == Broadcast(c) || (st == Signal(c) && k == 0)
  }

  /** What the step st that leads to s' does to the thread u at position k: a signal where it is the first, or a
      broadcast, makes it runnable; any other signal brings it one nearer the front, and nothing else moves it. */
  ghost predicate Served(s': State, st: Step, c: nat, k: int, u: nat) {
    if Reaches(st, c, k) then u !in Q(s', Condq(c)) && Th(s', u).status == Runnable
    else WaitsAt(s', c, if st == Signal(c) then k - 1 else k, u)
  }

  lemma CondStep(s: State, st: Step, c: nat, k: nat, u: nat)
    requires Inv(s) && Enabled(s, st) && WaitsAt(s, c, k, u)
    ensures Served(Apply(s, st), st, c, k, u)
  {
    assert QueueOk(s, Condq(c)) && u in Q(s, Condq(c));
    if st == Signal(c) {
      SignalTakesFirst(s, c);
    } else if st == Broadcast(c) {
      BroadcastTakesAll(s, c);
    } else {
      QueueGrows(s, st, Condq(c));
    }
  }

  /** u at position k in s', and served there by the step last. */
  ghost predicate InTurn(s': State, last: Step, c: nat, k: int, u: nat) {
    WaitsAt(s', c, k, u) && Served(Apply(s', last), last, c, k, u)
  }

  /** u, at position k, is one nearer the front after each signal among the steps, and served by the step last. */
  ghost predicate Nears(s: State, steps: seq<Step>, last: Step, c: nat, k: int, u: nat)
    decreases steps
  {
    if steps == [] then InTurn(s, last, c, k, u)
    else Nears(Apply(s, steps[0]), steps[1..], last, c, if steps[0] == Signal(c) then k - 1 else k, u)
  }

  lemma CondNext(s: State, st: Step, c: nat, k: nat, u: nat)
    requires Inv(s) && Enabled(s, st) && WaitsAt(s, c, k, u) && !Reaches(st, c, k)
    ensures Inv(Apply(s, st)) && WaitsAt(Apply(s, st), c, if st == Signal(c) then k - 1 else k, u)
  {
    StepKeeps(s, st);
    CondStep(s, st, c, k, u);
  }

  lemma {:induction false} WaiterNears(s: State, steps: seq<Step>, last: Step, c: nat, k: nat, u: nat)
    requires Inv(s) && AllEnabled(s, steps) && Enabled(Run(s, steps), last) && WaitsAt(s, c, k, u)
    requires Count(steps, Signal(c)) <= k && Count(steps, Broadcast(c)) == 0
    ensures Nears(s, steps, last, c, k, u)
    decreases steps
  {
    if steps == [] {
      CondStep(s, last, c, k, u);
    } else {
      CondNext(s, steps[0], c, k, u);
      WaiterNears(Apply(s, steps[0]), steps[1..], last, c, if steps[0] == Signal(c) then k - 1 else k, u);
    }
  }

  lemma {:induction false} NearsCounts(s: State, steps: seq<Step>, last: Step, c: nat, k: int, u: nat)
    requires Nears(s, steps, last, c, k, u)
    ensures InTurn(Run(s, steps), last, c, k - Count(steps, Signal(c)), u)
    decreases steps
  {
    if steps != [] {
      var s1, k1 := Apply(s, steps[0]), if steps[0] == Signal(c) then k - 1 else k;
      assert Run(s, steps) == Run(s1, steps[1..]);
      assert k - Count(steps, Signal(c)) == k1 - Count(steps[1..], Signal(c));
      NearsCounts(s1, steps[1..], last, c, k1, u);
    }
  }

  /** The thread at position k of c's queue waits until signal k + 1 or a broadcast: as long as neither came it is
      still there, one nearer the front with every signal, and the step that is the one or the other makes it
      runnable. */
  lemma CondIsFifo(s: State, steps: seq<Step>, last: Step, c: nat, k: nat, u: nat)
    requires Inv(s) && AllEnabled(s, steps) && Enabled(Run(s, steps), last) && WaitsAt(s, c, k, u)
    requires Count(steps, Signal(c)) <= k && Count(steps, Broadcast(c)) == 0
    ensures InTurn(Run(s, steps), last, c, k - Count(steps, Signal(c)), u)
  {
    WaiterNears(s, steps, last, c, k, u);
    NearsCounts(s, steps, last, c, k, u);
  }

  // ---------------------------------------------------------------- scheduling

  /** uthread_switch takes the first of the runnable threads with the highest priority. */
  lemma SwitchTakesHighest(s: State, v: nat)
    requires Inv(s) && Enabled(s, Switch) && v < |s.th| && s.th[v].status == Runnable
    ensures var u := Apply(s, Switch).cur;
      && u < |s.th| && s.th[u].status == Runnable && s.th[v].prio <= s.th[u].prio
      && Q(s, Runq(s.th[u].prio)) != [] && Q(s, Runq(s.th[u].prio))[0] == u
      && Now(Apply(s, Switch)) == s.th[u].(status := OnCpu)
  {
    var p := Highest(s, MAX_PRIO + 1);
    HighestIs(s, MAX_PRIO + 1);
    assert PlaceOk(s, v);
    assert QueueOk(s, Runq(p)) && Q(s, Runq(p))[0] in Q(s, Runq(p));
    assert QueueOk(s, Runq(s.th[v].prio)) && v in Q(s, Runq(s.th[v].prio));
  }

  function Index(l: seq<nat>, u: nat): nat {
    if l == [] || l[0] == u then 0 else 1 + Index(l[1..], u)
  }

  lemma {:induction false} IndexAppend(l: seq<nat>, v: nat, u: nat)
    requires u in l
    ensures Index(l + [v], u) == Index(l, u)
  {
    if l[0] != u {
      assert (l + [v])[1..] == l[1..] + [v];
      IndexAppend(l[1..], v, u);
    }
  }

  lemma {:induction false} IndexRemove(l: seq<nat>, v: nat, u: nat)
    requires u in l && u != v
    ensures u in Remove(l, v) && Index(Remove(l, v), u) <= Index(l, u)
  {
    if l[0] == v {
      assert u in l[1..];
    } else if l[0] != u {
      IndexRemove(l[1..], v, u);
    }
  }

  /** u is runnable and on its queue, u's turn is its position there. */
  ghost predicate Ready(s: State, u: nat) {
    u < |s.th| && s.th[u].status == Runnable && u in Q(s, Runq(s.th[u].prio))
  }

  function Turn(s: State, u: nat): nat {
    Index(Q(s, Runq(Th(s, u).prio)), u)
  }

  /** From s to s' u stays ready at its priority and loses no position. */
  ghost predicate NotLater(s: State, s': State, u: nat) {
    Ready(s, u) ==> Ready(s', u) && Th(s', u).prio == Th(s, u).prio && Turn(s', u) <= Turn(s, u)
  }

  lemma UpdateNotLater(s: State, v: nat, t: Thread, u: nat)
    requires v == u && Ready(s, u) ==> t.status == Runnable && t.prio == Th(s, u).prio
    ensures NotLater(s, Update(s, v, t), u)
  {
  }

  lemma LinkNotLater(s: State, v: nat, t: Thread, u: nat)
    requires v != u || !Ready(s, u)
    ensures NotLater(s, Link(s, v, t), u)
  {
    if Ready(s, u) { IndexAppend(Q(s, Runq(s.th[u].prio)), v, u); }
  }

  lemma MoveNotLater(s: State, v: nat, t: Thread, u: nat)
    requires v != u || !Ready(s, u)
    ensures NotLater(s, Move(s, v, t), u)
  {
    if Ready(s, u) {
      var l := Q(s, Runq(s.th[u].prio));
      IndexRemove(l, v, u);
      IndexAppend(l, v, u);
      IndexAppend(Remove(l, v), v, u);
    }
  }

  lemma WakeNotLater(s: State, v: nat, u: nat)
    ensures NotLater(s, WakeUp(s, v), u)
  {
    if Th(s, v).status == Wait { MoveNotLater(s, v, Th(s, v).(status := Runnable), u); }
  }

  lemma {:induction false} SignalsNotLater(s: State, c: nat, k: nat, u: nat)
    ensures NotLater(s, Signals(s, c, k), u)
  {
    if k != 0 {
      SignalsNotLater(s, c, k - 1, u);
      var s1 := Signals(s, c, k - 1);
      if Q(s1, Condq(c)) != [] { WakeNotLater(s1, Q(s1, Condq(c))[0], u); }
    }
  }

  lemma ReapableNotLater(s: State, v: nat, t: Thread, u: nat)
    requires v != u || !Ready(s, u)
    ensures NotLater(s, Reapable(s, v, t), u)
  {
    LinkNotLater(s, v, t, u);
    WakeNotLater(Link(s, v, t), REAPER, u);
  }

  lemma ExitNotLater(s: State, v: int, u: nat)
    requires u != s.cur
    ensures NotLater(s, ExitStep(s, v), u)
  {
    var t := Now(s).(status := Zombie, exit := v, exited := true);
    ReapableNotLater(s, s.cur, t, u);
    LinkNotLater(s, s.cur, t, u);
    if t.waiter.Some? { WakeNotLater(Link(s, s.cur, t), t.waiter.value, u); }
  }

  lemma JoinLoopNotLater(s: State, v: nat, u: nat)
    requires u != s.cur && (Th(s, v).exited ==> v != u || !Ready(s, u))
    ensures NotLater(s, JoinLoop(s, v), u)
  {
    if Th(s, v).exited {
      var s1 := Continue(s);
      UpdateNotLater(s, s.cur, Now(s).(at := Running), u);
      ReapableNotLater(s1, v, Th(s1, v).(detached := true), u);
    } else {
      LinkNotLater(s, s.cur, Now(s).(status := Wait, at := InJoin(v)), u);
    }
  }

  lemma JoinNotLater(s: State, v: int, u: nat)
    requires u != s.cur && u < |s.th| && (Ready(s, u) ==> !s.th[u].exited)
    ensures NotLater(s, JoinStep(s, v), u)
  {
    if JoinCode(s, v) == 0 {
      var s1 := Update(s, v, Th(s, v).(waiter := Some(s.cur)));
      UpdateNotLater(s, v, Th(s, v).(waiter := Some(s.cur)), u);
      JoinLoopNotLater(s1, v, u);
    }
  }

  lemma LockNotLater(s: State, m: nat, queued: Where, u: nat)
    requires u != s.cur
    ensures NotLater(s, LockAs(s, m, queued), u)
  {
    LinkNotLater(s, s.cur, Now(s).(status := Wait, at := queued), u);
    LinkNotLater(s, s.cur, Now(s).(status := Wait, at := InSelfLock(m)), u);
  }

  lemma UnlockNotLater(s: State, m: nat, u: nat)
    ensures NotLater(s, UnlockStep(s, m), u)
  {
    if Q(s, Mutexq(m)) != [] {
      var next := Q(s, Mutexq(m))[0];
      WakeNotLater(s.(owner := s.owner[m := next]), next, u);
    }
  }

  lemma ReapNotLater(s: State, u: nat)
    requires Inv(s) && u != s.cur
    ensures NotLater(s, ReapStep(s), u)
  {
    if Ready(s, u) {
      DrainKeeps(s);
      var s' := Drained(s);
      LinkNotLater(s', s.cur, Now(s').(status := Wait, at := InReaper), u);
    }
  }

  lemma ResumeNotLater(s: State, u: nat)
    requires Inv(s) && u != s.cur && u < |s.th|
    ensures NotLater(s, ResumeStep(s), u)
  {
    match Now(s).at
    case InCondWait(c, m) => LockNotLater(s, m, InRelock(m), u);
    case InJoin(v) =>
      assert PlaceOk(s, u);
      JoinLoopNotLater(s, v, u);
    case InReaper => ReapNotLater(s, u);
    case _ => UpdateNotLater(s, s.cur, Now(s).(at := Running), u);
  }

  lemma SetPrioNotLater(s: State, v: int, prio: int, u: nat)
    requires v != u
    ensures NotLater(s, SetPrioStep(s, v, prio), u)
  {
    if SetPrioCode(s, v, prio) == 0 {
      MoveNotLater(s, v, s.th[v].(prio := prio), u);
      UpdateNotLater(s, v, s.th[v].(prio := prio), u);
    }
  }

  lemma CondWaitNotLater(s: State, c: nat, m: nat, u: nat)
    requires u != s.cur
    ensures NotLater(s, CondWaitStep(s, c, m), u)
  {
    UnlockNotLater(s, m, u);
    var s1 := UnlockStep(s, m);
    LinkNotLater(s1, s1.cur, Now(s1).(status := Wait, at := InCondWait(c, m)), u);
  }

  lemma CreateNotLater(s: State, prio: int, u: nat)
    ensures NotLater(s, CreateStep(s, prio), u)
  {
    var v := FreeSlot(s.th, 0);
    FreeSlotIs(s.th, 0);
    if v < |s.th| && 0 <= prio <= MAX_PRIO {
      LinkNotLater(s, v, BLANK.(status := Runnable, prio := prio), u);
    }
  }

  lemma DetachNotLater(s: State, v: int, u: nat)
    ensures NotLater(s, DetachStep(s, v), u)
  {
    if DetachCode(s, v) == 0 { UpdateNotLater(s, v, Th(s, v).(detached := true), u); }
  }

  lemma SignalNotLater(s: State, c: nat, u: nat)
    ensures NotLater(s, SignalStep(s, c), u)
  {
    if Q(s, Condq(c)) != [] { WakeNotLater(s, Q(s, Condq(c))[0], u); }
  }

  ghost predicate OnMutex(st: Step) {
    st.Lock? || st.TryLock? || st.Unlock?
  }

  lemma MutexNotLater(s: State, st: Step, u: nat)
    requires u != s.cur && OnMutex(st)
    ensures NotLater(s, Apply(s, st), u)
  {
    match st
    case Lock(m) => LockNotLater(s, m, InLock(m), u);
    case Unlock(m) => UnlockNotLater(s, m, u);
    case _ =>
  }

  ghost predicate OnCond(st: Step) {
    st.CondWait? || st.Signal? || st.Broadcast?
  }

  lemma CondNotLater(s: State, st: Step, u: nat)
    requires u != s.cur && OnCond(st)
    ensures NotLater(s, Apply(s, st), u)
  {
    match st
    case CondWait(c, m) => CondWaitNotLater(s, c, m, u);
    case Signal(c) => SignalNotLater(s, c, u);
    case Broadcast(c) => SignalsNotLater(s, c, |Q(s, Condq(c))|, u);
  }

  lemma CallNotLater(s: State, st: Step, u: nat)
    requires u != s.cur && u < |s.th| && !OnMutex(st) && !OnCond(st) && st != Switch && st != Resume
    requires !(st.SetPrio? && st.id == u) && (Ready(s, u) ==> !s.th[u].exited)
    ensures NotLater(s, Apply(s, st), u)
  {
    match st
    case Create(prio) => CreateNotLater(s, prio, u);
    case Exit(v) => ExitNotLater(s, v, u);
    case Join(v) => JoinNotLater(s, v, u);
    case Detach(v) => DetachNotLater(s, v, u);
    case Yield => LinkNotLater(s, s.cur, Now(s).(status := Runnable), u);
    case Block => LinkNotLater(s, s.cur, Now(s).(status := Wait, at := InBlock), u);
    case Wake(v) => WakeNotLater(s, v, u);
    case SetPrio(v, prio) => SetPrioNotLater(s, v, prio, u);
    case _ =>
  }

  /** A step other than a switch, or a change of u's priority, costs a runnable thread no position. */
  lemma StepNotLater(s: State, st: Step, u: nat)
    requires Inv(s) && Enabled(s, st) && u < |s.th| && st != Switch && !(st.SetPrio? && st.id == u)
    ensures NotLater(s, Apply(s, st), u)
  {
    if Ready(s, u) {
      assert PlaceOk(s, u);
      if st == Resume { ResumeNotLater(s, u); }
      else if OnMutex(st) { MutexNotLater(s, st, u); }
      else if OnCond(st) { CondNotLater(s, st, u); }
      else { CallNotLater(s, st, u); }
    }
  }

  /** The head of u's queue leaves for no other queue. */
  lemma HeadLeaves(s: State, v: nat, t: Thread, u: nat)
    requires Ready(s, u) && v != u && Home(Th(s, v)) == Runq(s.th[u].prio) && Home(t) == NoQueue
    requires Q(s, Runq(s.th[u].prio))[0] == v
    ensures NotLater(s, Move(s, v, t), u) && Turn(Move(s, v, t), u) == Turn(s, u) - 1
  {
    var l := Q(s, Runq(s.th[u].prio));
    assert Remove(l, v) == l[1..] && u in l[1..];
  }

  /** A switch takes u itself or, if u's queue is the highest, brings it one position nearer. */
  lemma SwitchNearer(s: State, u: nat)
    requires Inv(s) && Enabled(s, Switch) && Ready(s, u) && Highest(s, MAX_PRIO + 1) == s.th[u].prio
    ensures var s' := Apply(s, Switch);
      s'.cur == u || (NotLater(s, s', u) && Turn(s', u) == Turn(s, u) - 1)
  {
    var v := Q(s, Runq(s.th[u].prio))[0];
    if v != u {
      assert QueueOk(s, Runq(s.th[u].prio)) && v in Q(s, Runq(s.th[u].prio));
      HeadLeaves(s, v, Th(s, v).(status := OnCpu), u);
      assert Apply(s, Switch) == Move(s, v, Th(s, v).(status := OnCpu)).(cur := v);
    }
  }

  function Switches(steps: seq<Step>): nat {
    if steps == [] then 0 else (if steps[0] == Switch then 1 else 0) + Switches(steps[1..])
  }

  /** Some switch among the steps goes to u. */
  ghost predicate Dispatched(s: State, steps: seq<Step>, u: nat)
    decreases steps
  {
    steps != [] && ((steps[0] == Switch && Apply(s, Switch).cur == u) || Dispatched(Apply(s, steps[0]), steps[1..], u))
  }

  /** At every switch u's priority is the highest with anything runnable, and nobody resets u's priority. */
  ghost predicate Undisturbed(s: State, steps: seq<Step>, u: nat, prio: nat)
    decreases steps
  {
    steps == [] ||
    (&& (steps[0] == Switch ==> Highest(s, MAX_PRIO + 1) == prio)
     && !(steps[0].SetPrio? && steps[0].id == u)
     && Undisturbed(Apply(s, steps[0]), steps[1..], u, prio))
  }

  /** A thread at position k of the highest queue that has anything on it runs within k + 1 switches. */
  lemma {:induction false} WaitIsBounded(s: State, steps: seq<Step>, u: nat)
    requires Inv(s) && AllEnabled(s, steps) && Ready(s, u) && Undisturbed(s, steps, u, s.th[u].prio)
    ensures Switches(steps) > Turn(s, u) ==> Dispatched(s, steps, u)
    decreases steps
  {
    if steps != [] && !Dispatched(s, steps, u) {
      var st, s1 := steps[0], Apply(s, steps[0]);
      StepKeeps(s, st);
      if st == Switch {
        SwitchNearer(s, u);
      } else {
        StepNotLater(s, st, u);
      }
      WaitIsBounded(s1, steps[1..], u);
    }
  }

  // ---------------------------------------------------------------- joins

  /** The thread waiting in a join becomes runnable when its target exits, and takes its exit value. */
  lemma ExitWakesJoiner(s: State, v: int)
    requires Inv(s) && Enabled(s, Exit(v)) && !Now(s).detached && Now(s).waiter.Some?
    ensures var s', a := Apply(s, Exit(v)), Now(s).waiter.value;
      && a < |s'.th| && s'.th[a].status != Wait && s'.th[a].at == InJoin(s.cur)
      && s'.th[s.cur].status == Zombie && s'.th[s.cur].exit == v
  {
    assert JoinOk(s, s.cur);
  }

  // ---------------------------------------------------------------- two joiners of one thread

  /** Only four threads exist, all of the highest priority; ready are the runnable ones, reap the reaper's queue. */
  ghost predicate Four(s: State, t0: Thread, t1: Thread, t2: Thread, t3: Thread, ready: seq<nat>, reap: seq<nat>, cur: nat) {
    && s.th == [t0, t1, t2, t3] + seq(MAX_THREADS - 4, _ => BLANK) && s.cur == cur && !s.halted
    && Q(s, Runq(MAX_PRIO)) == ready && Q(s, Reapq) == reap
  }

  const ASLEEP := Thread(Wait, MAX_PRIO, false, false, 0, None, InReaper)
  const AWAKE := ASLEEP.(status := Runnable)
  const FIRST := Thread(OnCpu, MAX_PRIO, true, false, 0, None, Running)
  const YIELDED := FIRST.(status := Runnable)
  const READY := Thread(Runnable, MAX_PRIO, false, false, 0, None, Running)
  const JOINING := Thread(Wait, MAX_PRIO, false, false, 0, None, InJoin(3))
  const JOINED := JOINING.(status := Runnable)
  const DEAD := Thread(Zombie, MAX_PRIO, false, true, 0, Some(2), Running)

  lemma CreateTwo()
    ensures AllEnabled(Initial(), [Create(MAX_PRIO), Create(MAX_PRIO)])
    ensures Four(Run(Initial(), [Create(MAX_PRIO), Create(MAX_PRIO)]), ASLEEP, FIRST, READY, READY, [2, 3], [], 1)
  {
    var s0 := Initial();
    FreeSlotIs(s0.th, 0);
    assert Four(s0, ASLEEP, FIRST, BLANK, BLANK, [], [], 1);
    assert s0.th[0] == ASLEEP && s0.th[1] == FIRST && s0.th[2] == BLANK;
    assert FreeSlot(s0.th, 0) == 2;
    var s1 := Apply(s0, Create(MAX_PRIO));
    assert Four(s1, ASLEEP, FIRST, READY, BLANK, [2], [], 1);
    FreeSlotIs(s1.th, 0);
    assert s1.th[0] == ASLEEP && s1.th[1] == FIRST && s1.th[2] == READY && s1.th[3] == BLANK;
    assert FreeSlot(s1.th, 0) == 3;
    var st := Create(MAX_PRIO);
    assert [st, st][1..] == [st];
    assert Run(s0, [st, st]) == Run(s1, [st]) == Apply(s1, st);
    assert AllEnabled(s1, [st]);
  }

  /** The first thread yields to thread 2, which joins thread 3. */
  lemma FirstJoin(s: State)
    requires Four(s, ASLEEP, FIRST, READY, READY, [2, 3], [], 1)
    ensures AllEnabled(s, [Yield, Switch, Join(3)])
    ensures Four(Run(s, [Yield, Switch, Join(3)]), ASLEEP, YIELDED, JOINING, READY.(waiter := Some(2)), [3, 1], [], 2)
  {
    FourYields(s, ASLEEP, READY, READY, [2, 3], []);
    SwitchToSecond(Apply(s, Yield), ASLEEP, READY, READY, [3, 1], []);
    JoinsThird(Apply(Apply(s, Yield), Switch));
    ThreeSteps(s, Yield, Switch, Join(3));
  }

  lemma FourYields(s: State, t0: Thread, t2: Thread, t3: Thread, ready: seq<nat>, reap: seq<nat>)
    requires Four(s, t0, FIRST, t2, t3, ready, reap, 1)
    ensures Enabled(s, Yield) && Four(Apply(s, Yield), t0, YIELDED, t2, t3, ready + [1], reap, 1)
  {
  }

  lemma SwitchToSecond(s: State, t0: Thread, t2: Thread, t3: Thread, rest: seq<nat>, reap: seq<nat>)
    requires Four(s, t0, YIELDED, t2, t3, [2] + rest, reap, 1) && t2.status == Runnable && t2.prio == MAX_PRIO
    ensures Enabled(s, Switch) && Four(Apply(s, Switch), t0, YIELDED, t2.(status := OnCpu), t3, rest, reap, 2)
  {
    assert ([2] + rest)[1..] == rest;
  }

  lemma JoinsThird(s: State)
    requires Four(s, ASLEEP, YIELDED, READY.(status := OnCpu), READY, [3, 1], [], 2)
    ensures Enabled(s, Join(3)) && Four(Apply(s, Join(3)), ASLEEP, YIELDED, JOINING, READY.(waiter := Some(2)), [3, 1], [], 2)
  {
  }

  /** Thread 3 exits, which makes thread 2 runnable, and the first thread runs again. */
  lemma TargetExits(s: State)
    requires Four(s, ASLEEP, YIELDED, JOINING, READY.(waiter := Some(2)), [3, 1], [], 2)
    ensures AllEnabled(s, [Switch, Exit(0), Switch])
    ensures Four(Run(s, [Switch, Exit(0), Switch]), ASLEEP, FIRST, JOINED, DEAD, [2], [], 1)
  {
    var s1 := Apply(s, Switch);
    assert Four(s1, ASLEEP, YIELDED, JOINING, READY.(status := OnCpu, waiter := Some(2)), [1], [], 3);
    ThirdExits(s1);
    SwitchToFirst(Apply(s1, Exit(0)));
    ThreeSteps(s, Switch, Exit(0), Switch);
  }

  lemma ThirdExits(s: State)
    requires Four(s, ASLEEP, YIELDED, JOINING, READY.(status := OnCpu, waiter := Some(2)), [1], [], 3)
    ensures Enabled(s, Exit(0)) && Four(Apply(s, Exit(0)), ASLEEP, YIELDED, JOINED, DEAD, [1, 2], [], 3)
  {
  }

  lemma SwitchToFirst(s: State)
    requires Four(s, ASLEEP, YIELDED, JOINED, DEAD, [1, 2], [], 3)
    ensures Enabled(s, Switch) && Four(Apply(s, Switch), ASLEEP, FIRST, JOINED, DEAD, [2], [], 1)
  {
  }

  /** Instead, thread 3 yields, and the first thread runs again while thread 2 waits. */
  lemma TargetYields(s: State)
    requires Four(s, ASLEEP, YIELDED, JOINING, READY.(waiter := Some(2)), [3, 1], [], 2)
    ensures AllEnabled(s, [Switch, Yield, Switch])
    ensures Four(Run(s, [Switch, Yield, Switch]), ASLEEP, FIRST, JOINING, READY.(waiter := Some(2)), [3], [], 1)
  {
    var s1 := Apply(s, Switch);
    assert Four(s1, ASLEEP, YIELDED, JOINING, READY.(status := OnCpu, waiter := Some(2)), [1], [], 3);
    ThirdYields(s1);
    BackToFirst(Apply(s1, Yield));
    ThreeSteps(s, Switch, Yield, Switch);
  }

  lemma ThirdYields(s: State)
    requires Four(s, ASLEEP, YIELDED, JOINING, READY.(status := OnCpu, waiter := Some(2)), [1], [], 3)
    ensures Enabled(s, Yield) && Four(Apply(s, Yield), ASLEEP, YIELDED, JOINING, READY.(waiter := Some(2)), [1, 3], [], 3)
  {
  }

  lemma BackToFirst(s: State)
    requires Four(s, ASLEEP, YIELDED, JOINING, READY.(waiter := Some(2)), [1, 3], [], 3)
    ensures Enabled(s, Switch)
    ensures Four(Apply(s, Switch), ASLEEP, FIRST, JOINING, READY.(waiter := Some(2)), [3], [], 1)
  {
  }

  /** A second join of thread 3 queues it for the reaper; when thread 2 finishes its own join, once more. */
  lemma SecondJoin(s: State)
    requires Four(s, ASLEEP, FIRST, JOINED, DEAD, [2], [], 1)
    ensures JoinCode(s, 3) == 0 && !JoinGuard(s, 3)
    ensures AllEnabled(JoinStep(s, 3), [Yield, Switch, Resume])
    ensures Q(Run(JoinStep(s, 3), [Yield, Switch, Resume]), Reapq) == [3, 3] && !Distinct([3, 3])
  {
    var twice: seq<nat> := [3, 3];
    assert twice[0] == twice[1];
    var s1 := JoinStep(s, 3);
    var dead := DEAD.(waiter := Some(1), detached := true);
    JoinsDead(s);
    FourYields(s1, AWAKE, JOINED, dead, [2, 0], [3]);
    SwitchToSecond(Apply(s1, Yield), AWAKE, JOINED, dead, [0, 1], [3]);
    FinishTwice(Apply(Apply(s1, Yield), Switch));
    ThreeSteps(s1, Yield, Switch, Resume);
  }

  lemma JoinsDead(s: State)
    requires Four(s, ASLEEP, FIRST, JOINED, DEAD, [2], [], 1)
    ensures JoinCode(s, 3) == 0 && !JoinGuard(s, 3)
    ensures Four(JoinStep(s, 3), AWAKE, FIRST, JOINED, DEAD.(waiter := Some(1), detached := true), [2, 0], [3], 1)
  {
  }

  lemma FinishTwice(s: State)
    requires Four(s, AWAKE, YIELDED, JOINED.(status := OnCpu), DEAD.(waiter := Some(1), detached := true), [0, 1], [3], 2)
    ensures Enabled(s, Resume) && Q(Apply(s, Resume), Reapq) == [3, 3]
  {
  }

  lemma ThreeSteps(s: State, a: Step, b: Step, c: Step)
    ensures Run(s, [a, b, c]) == Apply(Apply(Apply(s, a), b), c)
    ensures AllEnabled(s, [a, b, c]) <==> Enabled(s, a) && Enabled(Apply(s, a), b) && Enabled(Apply(Apply(s, a), b), c)
  {
    var s1, s2 := Apply(s, a), Apply(Apply(s, a), b);
    assert [a, b, c][1..] == [b, c] && [b, c][1..] == [c];
    assert Run(s, [a, b, c]) == Run(s1, [b, c]) == Run(s2, [c]) == Run(Apply(s2, c), []);
    assert AllEnabled(s, [a, b, c]) <==> Enabled(s, a) && AllEnabled(s1, [b, c]);
    assert AllEnabled(s1, [b, c]) <==> Enabled(s1, b) && AllEnabled(s2, [c]);
    assert AllEnabled(s2, [c]) <==> Enabled(s2, c);
  }

  lemma RunThree(s: State, a: seq<Step>, b: seq<Step>, c: seq<Step>)
    requires AllEnabled(s, a) && AllEnabled(Run(s, a), b) && AllEnabled(Run(Run(s, a), b), c)
    ensures AllEnabled(s, a + b + c) && Run(s, a + b + c) == Run(Run(Run(s, a), b), c)
  {
    RunAppend(s, a, b);
    RunAppend(s, a + b, c);
  }

  lemma TwoJoinersRun() returns (steps: seq<Step>)
    ensures AllEnabled(Initial(), steps)
    ensures Four(Run(Initial(), steps), ASLEEP, FIRST, JOINED, DEAD, [2], [], 1)
  {
    CreateTwo();
    var a := [Create(MAX_PRIO), Create(MAX_PRIO)];
    var b := [Yield, Switch, Join(3)];
    var c := [Switch, Exit(0), Switch];
    FirstJoin(Run(Initial(), a));
    TargetExits(Run(Run(Initial(), a), b));
    RunThree(Initial(), a, b, c);
    steps := a + b + c;
  }

  lemma JoinerWaitsRun() returns (steps: seq<Step>)
    ensures AllEnabled(Initial(), steps)
    ensures Four(Run(Initial(), steps), ASLEEP, FIRST, JOINING, READY.(waiter := Some(2)), [3], [], 1)
  {
    CreateTwo();
    var a := [Create(MAX_PRIO), Create(MAX_PRIO)];
    var b := [Yield, Switch, Join(3)];
    var c := [Switch, Yield, Switch];
    FirstJoin(Run(Initial(), a));
    TargetYields(Run(Run(Initial(), a), b));
    RunThree(Initial(), a, b, c);
    steps := a + b + c;
  }

  /** uthread_join looks at its caller's waiter, not at its target's: two threads can join a third, and then its one
      link is put on the reaper's queue twice. */
  lemma TwoJoinersBreakTheQueue() returns (steps: seq<Step>)
    ensures AllEnabled(Initial(), steps)
    ensures var s := Run(Initial(), steps);
      && Inv(s) && Now(s).status == OnCpu && Now(s).at == Running && JoinCode(s, 3) == 0
      && AllEnabled(JoinStep(s, 3), [Yield, Switch, Resume])
      && !Distinct(Q(Run(JoinStep(s, 3), [Yield, Switch, Resume]), Reapq))
  {
    steps := TwoJoinersRun();
    SecondJoin(Run(Initial(), steps));
    InitialOk();
    RunKeeps(Initial(), steps);
  }

  lemma {:induction false} RunAppend(s: State, a: seq<Step>, b: seq<Step>)
    ensures Run(s, a + b) == Run(Run(s, a), b)
    ensures AllEnabled(s, a) && AllEnabled(Run(s, a), b) ==> AllEnabled(s, a + b)
    decreases a
  {
    if a == [] {
      assert a + b == b;
    } else {
      assert (a + b)[1..] == a[1..] + b;
      RunAppend(Apply(s, a[0]), a[1..], b);
    }
  }
}
