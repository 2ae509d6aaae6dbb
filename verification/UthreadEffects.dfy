/**
  What each call of the thread package does to the thread table, the queues and the owners of mutexes: what it
  changes, and that it changes nothing else.  And that a thread that has come out of uthread_mtx_lock is alone.
 */
module UthreadEffects {
  import opened Errno
  import opened Uthread
  import opened UthreadRuns

  /** Every thread but those in s is as it was. */
  ghost predicate OthersSame(s: State, s': State, u: set<nat>) {
    |s'.th| == |s.th| && forall v: nat {:trigger s'.th[v]} :: v < |s.th| && v !in u ==> s'.th[v] == s.th[v]
  }

  /** Every queue but those in ids is as it was. */
  ghost predicate QueuesSame(s: State, s': State, ids: set<Queue>) {
    forall id {:trigger Q(s', id)} :: id !in ids ==> Q(s', id) == Q(s, id)
  }

  /** Nothing but threads and queues changed. */
  ghost predicate SameRest(s: State, s': State) {
    s'.owner == s.owner && s'.cur == s.cur && s'.halted == s.halted
  }

  /** Thread u came to the end of queue id, and nothing else moved. */
  ghost predicate Joined(s: State, s': State, id: Queue, u: nat) {
    Q(s', id) == Q(s, id) + [u] && QueuesSame(s, s', {id})
  }

  ghost predicate Valid(s: State) {
    s.cur < |s.th| && Now(s).status == OnCpu
  }

  // ---------------------------------------------------------------- mutexes

  /** uthread_mtx_lock takes a free mutex and runs on; it queues behind another owner, and waits there; and it waits
      outside of all queues where the caller owns the mutex already. */
  lemma LockIs(s: State, m: nat)
    requires Valid(s) && Now(s).at == Running
    ensures var s' := Apply(s, Lock(m));
      s'.cur == s.cur && s'.halted == s.halted && OthersSame(s, s', {s.cur}) &&
      if m !in s.owner then
        s'.owner == s.owner[m := s.cur] && Now(s') == Now(s) && QueuesSame(s, s', {})
      else
        s'.owner == s.owner &&
        if s.owner[m] == s.cur then Now(s') == Now(s).(status := Wait, at := InSelfLock(m)) && QueuesSame(s, s', {})
        else Now(s') == Now(s).(status := Wait, at := InLock(m)) && Joined(s, s', Mutexq(m), s.cur)
  {
  }

  /** uthread_mtx_trylock takes a free mutex, and does nothing else. */
  lemma TryLockIs(s: State, m: nat)
    ensures var s' := Apply(s, TryLock(m));
      s' == if m !in s.owner then s.(owner := s.owner[m := s.cur]) else s
  {
  }

  /** uthread_mtx_unlock frees a mutex nobody waits for; otherwise the first thread waiting owns it, and becomes
      runnable at the end of its run queue. */
  lemma UnlockIs(s: State, m: nat)
    requires Inv(s) && Valid(s)
    ensures var s' := Apply(s, Unlock(m));
      if Q(s, Mutexq(m)) == [] then s' == s.(owner := s.owner - {m})
      else
        var u := Q(s, Mutexq(m))[0];
        && s'.owner == s.owner[m := u] && s'.cur == s.cur && s'.halted == s.halted
        && u < |s.th| && s'.th == s.th[u := s.th[u].(status := Runnable)]
        && Q(s', Mutexq(m)) == Q(s, Mutexq(m))[1..] && Q(s', Runq(s.th[u].prio)) == Q(s, Runq(s.th[u].prio)) + [u]
        && QueuesSame(s, s', {Mutexq(m), Runq(s.th[u].prio)})
  {
    if Q(s, Mutexq(m)) != [] {
      assert QueueOk(s, Mutexq(m)) && Q(s, Mutexq(m))[0] in Q(s, Mutexq(m));
    }
  }

  // ---------------------------------------------------------------- condition variables

  /** The first thread waiting, u, went to the end of its run queue. */
  ghost predicate Signalled(s: State, s': State, c: nat, u: nat) {
    && SameRest(s, s') && u < |s.th| && s'.th == s.th[u := s.th[u].(status := Runnable)]
    && Q(s, Condq(c)) == [u] + Q(s', Condq(c)) && Q(s', Runq(s.th[u].prio)) == Q(s, Runq(s.th[u].prio)) + [u]
    && QueuesSame(s, s', {Condq(c), Runq(s.th[u].prio)})
  }

  ghost predicate AfterSignal(s: State, s': State, c: nat) {
    if Q(s, Condq(c)) == [] then s' == s else Signalled(s, s', c, Q(s, Condq(c))[0])
  }

  /** uthread_cond_signal: that, if there is one. */
  lemma SignalIs(s: State, c: nat)
    requires Inv(s)
    ensures AfterSignal(s, Apply(s, Signal(c)), c) && Apply(s, Signal(c)) == SignalStep(s, c)
  {
    if Q(s, Condq(c)) != [] {
      assert QueueOk(s, Condq(c)) && Q(s, Condq(c))[0] in Q(s, Condq(c));
    }
  }

  /** uthread_cond_wait: what giving up the mutex does, and then the caller waits at the end of c's queue. */
  lemma CondWaitIs(s: State, c: nat, m: nat)
    requires Inv(s) && Enabled(s, CondWait(c, m))
    ensures var s1, s' := Apply(s, Unlock(m)), Apply(s, CondWait(c, m));
      && SameRest(s1, s') && OthersSame(s1, s', {s.cur}) && Joined(s1, s', Condq(c), s.cur)
      && Now(s') == Now(s).(status := Wait, at := InCondWait(c, m))
  {
    UnlockLeavesCaller(s, m);
    SuspendIs(UnlockStep(s, m), c, m);
  }

  lemma SuspendIs(s: State, c: nat, m: nat)
    requires s.cur < |s.th|
    ensures var s' := BlockAs(s, InCondWait(c, m));
      && SameRest(s, s') && OthersSame(s, s', {s.cur}) && Joined(s, s', Condq(c), s.cur)
      && Now(s') == Now(s).(status := Wait, at := InCondWait(c, m))
  {
  }

  /** The threads in l of priority p, in the order of l. */
  function OfPrio(th: seq<Thread>, l: seq<nat>, p: nat): seq<nat> {
    if l == [] then []
    else
      var u := l[|l| - 1];
      OfPrio(th, l[..|l| - 1], p) + if u < |th| && th[u].prio == p then [u] else []
  }

  /** Each of k signals takes the thread that is first then. */
  ghost predicate AllSignalled(s: State, c: nat, k: nat) {
    k != 0 ==> AllSignalled(s, c, k - 1) && AfterSignal(Signals(s, c, k - 1), Signals(s, c, k), c)
  }

  lemma {:induction false} SignalsAre(s: State, c: nat, k: nat)
    requires Inv(s) && Now(s).status == OnCpu
    ensures AllSignalled(s, c, k)
  {
    if k != 0 {
      SignalsAre(s, c, k - 1);
      SignalsKeep(s, c, k - 1);
      OneSignal(Signals(s, c, k - 1), Signals(s, c, k), c);
    }
  }

  lemma OneSignal(s: State, s': State, c: nat)
    requires Inv(s) && s' == SignalStep(s, c)
    ensures AfterSignal(s, s', c)
  {
    SignalIs(s, c);
  }

  /** The threads in l came to the queue id, if it is the run queue of their priority, in the order of l. */
  ghost predicate Came(s: State, s': State, l: seq<nat>, id: Queue) {
    && SameRest(s, s') && |s'.th| == |s.th|
    && Q(s', id) == Q(s, id) + if id.Runq? then OfPrio(s.th, l, id.prio) else []
  }

  ghost predicate SamePrios(s: State, s': State) {
    |s'.th| == |s.th| && forall u: nat {:trigger s'.th[u]} :: u < |s.th| ==> s'.th[u].prio == s.th[u].prio
  }

  lemma {:induction false} SignalsQueue(s: State, c: nat, k: nat, id: Queue)
    requires AllSignalled(s, c, k) && k <= |Q(s, Condq(c))| && id != Condq(c)
    ensures Came(s, Signals(s, c, k), Q(s, Condq(c))[..k], id) && SamePrios(s, Signals(s, c, k))
    ensures Q(Signals(s, c, k), Condq(c)) == Q(s, Condq(c))[k..]
  {
    if k != 0 {
      SignalsQueue(s, c, k - 1, id);
      CameNext(s, Signals(s, c, k - 1), Signals(s, c, k), c, Q(s, Condq(c)), k, id);
    }
  }

  lemma CameNext(s: State, s1: State, s2: State, c: nat, l: seq<nat>, k: nat, id: Queue)
    requires 0 < k <= |l| && Q(s1, Condq(c)) == l[k - 1..] && AfterSignal(s1, s2, c)
    requires Came(s, s1, l[..k - 1], id) && id != Condq(c) && SamePrios(s, s1)
    ensures Came(s, s2, l[..k], id) && SamePrios(s, s2) && Q(s2, Condq(c)) == l[k..]
  {
    assert l[..k][..k - 1] == l[..k - 1] && l[k - 1..] == [l[k - 1]] + l[k..];
    assert s1.th[l[k - 1]].prio == s.th[l[k - 1]].prio;
  }

  /** uthread_cond_broadcast: all threads waiting go to the ends of their run queues, in the order they came. */
  lemma BroadcastIs(s: State, c: nat)
    requires Inv(s) && Valid(s)
    ensures var s', l := Apply(s, Broadcast(c)), Q(s, Condq(c));
      && SameRest(s, s') && Q(s', Condq(c)) == [] && |s'.th| == |s.th|
      && (forall u: nat {:trigger s'.th[u]} :: u < |s.th| ==>
            s'.th[u] == if u in l then s.th[u].(status := Runnable) else s.th[u])
      && forall id {:trigger Q(s', id)} :: id != Condq(c) ==>
           Q(s', id) == Q(s, id) + (if id.Runq? then OfPrio(s.th, l, id.prio) else [])
  {
    var l := Q(s, Condq(c));
    assert l[..|l|] == l;
    BroadcastTakesAll(s, c);
    SignalsAre(s, c, |l|);
    forall id | id != Condq(c)
      ensures Q(BroadcastStep(s, c), id) == Q(s, id) + (if id.Runq? then OfPrio(s.th, l, id.prio) else [])
    {
      SignalsQueue(s, c, |l|, id);
    }
    SignalsQueue(s, c, |l|, Reapq);
  }

  // ---------------------------------------------------------------- scheduling

  /** uthread_yield: the caller goes to the end of its run queue. */
  lemma YieldIs(s: State)
    requires Valid(s)
    ensures var s' := Apply(s, Yield);
      && SameRest(s, s') && OthersSame(s, s', {s.cur}) && Now(s') == Now(s).(status := Runnable)
      && Joined(s, s', Runq(Now(s).prio), s.cur)
  {
  }

  /** uthread_block: the caller waits on no queue. */
  lemma BlockIs(s: State)
    requires Valid(s)
    ensures var s' := Apply(s, Block);
      && SameRest(s, s') && OthersSame(s, s', {s.cur}) && Now(s') == Now(s).(status := Wait, at := InBlock)
      && QueuesSame(s, s', {})
  {
  }

  /** uthread_wake: a thread that waits, on no queue, goes to the end of its run queue; any other is left alone. */
  lemma WakeIs(s: State, u: nat)
    requires u < |s.th| && (s.th[u].status == Wait ==> Home(s.th[u]) == NoQueue)
    ensures var s' := Apply(s, Wake(u));
      if s.th[u].status != Wait then s' == s
      else
        && SameRest(s, s') && s'.th == s.th[u := s.th[u].(status := Runnable)]
        && Joined(s, s', Runq(s.th[u].prio), u)
  {
  }

  /** uthread_switch: the thread it goes to leaves its run queue and is on the CPU. */
  lemma SwitchIs(s: State)
    requires Inv(s) && Enabled(s, Switch)
    ensures var s' := Apply(s, Switch); var u := s'.cur;
      && u < |s.th| && s.th[u].status == Runnable && s'.th == s.th[u := s.th[u].(status := OnCpu)]
      && s'.owner == s.owner && s'.halted == s.halted
      && Q(s, Runq(s.th[u].prio)) == [u] + Q(s', Runq(s.th[u].prio)) && QueuesSame(s, s', {Runq(s.th[u].prio)})
  {
    var p := Highest(s, MAX_PRIO + 1);
    HighestIs(s, MAX_PRIO + 1);
    assert QueueOk(s, Runq(p)) && Q(s, Runq(p))[0] in Q(s, Runq(p));
  }

  /** uthread_setprio.  A runnable thread goes to the end of its new run queue, any other only gets the priority. */
  lemma SetPrioIs(s: State, u: int, prio: int)
    requires Inv(s)
    ensures var s' := Apply(s, SetPrio(u, prio));
      if prio < 0 || prio > MAX_PRIO then SetPrioCode(s, u, prio) == EINVAL && s' == s
      else if u < 0 || u >= |s.th| || s.th[u].status == NoState || s.th[u].status == Zombie then
        SetPrioCode(s, u, prio) == ESRCH && s' == s
      else
        && SetPrioCode(s, u, prio) == 0 && SameRest(s, s') && s'.th == s.th[u := s.th[u].(prio := prio)]
        && if s.th[u].status != Runnable then QueuesSame(s, s', {})
           else
             && QueuesSame(s, s', {Runq(s.th[u].prio), Runq(prio)})
             && Q(s', Runq(prio)) == Remove(Q(s, Runq(prio)), u) + [u]
             && (s.th[u].prio != prio ==> Q(s', Runq(s.th[u].prio)) == Remove(Q(s, Runq(s.th[u].prio)), u))
  {
    if 0 <= u < |s.th| && 0 <= prio <= MAX_PRIO && s.th[u].status == Runnable && s.th[u].prio != prio {
      assert QueueOk(s, Runq(prio));
      RemoveNothing(Q(s, Runq(prio)), u);
    }
  }

  lemma {:induction false} RemoveNothing(l: seq<nat>, u: nat)
    requires u !in l
    ensures Remove(l, u) == l
  {
    if l != [] { RemoveNothing(l[1..], u); }
  }

  // ---------------------------------------------------------------- threads

  /** After uthread_init: the reaper waits in its loop, the thread that called it runs, detached, every other slot is free,
      and no queue holds a thread and no mutex has an owner. */
  lemma InitialIs(u: nat, id: Queue, m: nat)
    ensures var s := Initial();
      && |s.th| == 64 && s.cur == 1 && !s.halted && Q(s, id) == [] && m !in s.owner
      && s.th[0] == Thread(Wait, 7, false, false, 0, None, InReaper)
      && s.th[1] == Thread(OnCpu, 7, true, false, 0, None, Running)
      && (2 <= u < 64 ==> s.th[u].status == NoState && s.th[u].waiter == None)
  {
  }

  /** uthread_create: the first free slot holds a runnable thread of the given priority, at the end of its run queue,
      that nobody waits for and that is not detached. */
  lemma CreateIs(s: State, prio: int)
    requires Inv(s)
    ensures var s' := Apply(s, Create(prio));
      if forall v: nat :: v < |s.th| ==> s.th[v].status != NoState then s' == s
      else if prio < 0 || prio > MAX_PRIO then s' == s.(halted := true)
      else
        exists u: nat :: u < |s.th| && s.th[u].status == NoState && (forall v: nat :: v < u ==> s.th[v].status != NoState)
          && s'.th == s.th[u := Thread(Runnable, prio, false, false, 0, None, Running)]
          && SameRest(s, s') && Joined(s, s', Runq(prio), u)
  {
    FreeSlotIs(s.th, 0);
    var u := FreeSlot(s.th, 0);
    if u < |s.th| { assert PlaceOk(s, u); }
  }

  /** What becomes of the reaper when something is put on its queue. */
  function Roused(t: Thread): Thread {
    if t.status == Wait then t.(status := Runnable) else t
  }

  /** Where u has been put at the end of the reaper's queue, and the reaper been woken if it waited. */
  ghost predicate Reaped(s: State, s': State, u: nat) {
    && Q(s', Reapq) == Q(s, Reapq) + [u] && REAPER < |s.th| && |s'.th| == |s.th| && s'.th[REAPER] == Roused(s.th[REAPER])
    && if s.th[REAPER].status == Wait then
         && Q(s', Runq(s.th[REAPER].prio)) == Q(s, Runq(s.th[REAPER].prio)) + [REAPER]
         && QueuesSame(s, s', {Reapq, Runq(s.th[REAPER].prio)})
       else QueuesSame(s, s', {Reapq})
  }

  /** make_reapable. */
  lemma ReapableIs(s: State, u: nat, t: Thread)
    requires u < |s.th| && u != REAPER && REAPER < |s.th| && t.status == Zombie && t.detached
    requires s.th[REAPER].status == Wait ==> Home(s.th[REAPER]) == NoQueue
    ensures var s' := Reapable(s, u, t);
      SameRest(s, s') && OthersSame(s, s', {u, REAPER}) && Reaped(s, s', u) && s'.th[u] == t
  {
  }

  lemma ReaperHome(s: State)
    requires Inv(s)
    ensures REAPER < |s.th| && s.th[REAPER].at == InReaper
    ensures s.th[REAPER].status == Wait ==> Home(s.th[REAPER]) == NoQueue
  {
    assert PlaceOk(s, REAPER);
  }

  lemma ExitsDetached(s: State, v: int)
    requires Valid(s) && Now(s).detached && s.cur != REAPER && REAPER < |s.th|
    requires s.th[REAPER].status == Wait ==> Home(s.th[REAPER]) == NoQueue
    ensures var s' := Apply(s, Exit(v));
      && SameRest(s, s') && Now(s') == Now(s).(status := Zombie, exit := v, exited := true)
      && Reaped(s, s', s.cur) && OthersSame(s, s', {s.cur, REAPER})
  {
    ReapableIs(s, s.cur, Now(s).(status := Zombie, exit := v, exited := true));
  }

  lemma ExitsAttached(s: State, v: int)
    requires Valid(s) && !Now(s).detached
    requires Now(s).waiter.Some? && Th(s, Now(s).waiter.value).status == Wait ==>
      Now(s).waiter.value < |s.th| && Home(Th(s, Now(s).waiter.value)) == NoQueue
    ensures var s' := Apply(s, Exit(v)); var t := Now(s);
      && SameRest(s, s') && Now(s') == t.(status := Zombie, exit := v, exited := true)
      && if t.waiter.Some? && Th(s, t.waiter.value).status == Wait then
           var a := t.waiter.value;
           && a < |s.th| && OthersSame(s, s', {s.cur, a}) && s'.th[a] == s.th[a].(status := Runnable)
           && Joined(s, s', Runq(s.th[a].prio), a)
         else OthersSame(s, s', {s.cur}) && QueuesSame(s, s', {})
  {
  }

  /** uthread_exit: the caller is dead and leaves its value.  If it is detached the reaper gets it; otherwise whoever
      waits for it is woken. */
  lemma ExitIs(s: State, v: int)
    requires Inv(s) && Valid(s) && Now(s).at == Running
    ensures var s' := Apply(s, Exit(v)); var t := Now(s);
      && SameRest(s, s') && Now(s') == t.(status := Zombie, exit := v, exited := true)
      && if t.detached then Reaped(s, s', s.cur) && OthersSame(s, s', {s.cur, REAPER})
         else if t.waiter.Some? && Th(s, t.waiter.value).status == Wait then
           var a := t.waiter.value;
           && a < |s.th| && OthersSame(s, s', {s.cur, a}) && s'.th[a] == s.th[a].(status := Runnable)
           && Joined(s, s', Runq(s.th[a].prio), a)
         else OthersSame(s, s', {s.cur}) && QueuesSame(s, s', {})
  {
    assert PlaceOk(s, s.cur) && JoinOk(s, s.cur);
    ReaperHome(s);
    if Now(s).detached { ExitsDetached(s, v); } else { ExitsAttached(s, v); }
  }

  /** The errors of uthread_join, in the order they are found. */
  lemma JoinCodeIs(s: State, u: int)
    ensures JoinCode(s, u) ==
      if u < 0 || u >= |s.th| || s.th[u].status == NoState then ESRCH
      else if Now(s).waiter.Some? && Now(s).waiter.value == u then EDEADLK
      else if Now(s).waiter.Some? || s.th[u].detached then EINVAL
      else 0
    ensures JoinCode(s, u) != 0 ==> Apply(s, Join(u)) == s
  {
  }

  /** A join of a live thread makes the caller its waiter and suspends it, on no queue. */
  lemma JoinWaits(s: State, u: nat)
    requires Valid(s) && Now(s).at == Running && JoinCode(s, u) == 0 && !s.th[u].exited
    ensures var s' := Apply(s, Join(u));
      && SameRest(s, s') && OthersSame(s, s', {s.cur, u}) && QueuesSame(s, s', {})
      && (u != s.cur ==> s'.th[u] == s.th[u].(waiter := Some(s.cur)))
      && Now(s') == Now(s).(status := Wait, at := InJoin(u), waiter := if u == s.cur then Some(u) else Now(s).waiter)
  {
  }

  /** A join of a dead thread detaches it, gives it to the reaper and runs on. */
  lemma JoinTakes(s: State, u: nat)
    requires Inv(s) && Valid(s) && Now(s).at == Running && JoinCode(s, u) == 0 && s.th[u].exited
    ensures var s' := Apply(s, Join(u));
      && SameRest(s, s') && OthersSame(s, s', {u, REAPER}) && Reaped(s, s', u)
      && s'.th[u] == s.th[u].(waiter := Some(s.cur), detached := true) && Now(s').at == Running
  {
    assert PlaceOk(s, s.cur) && PlaceOk(s, u);
    ReaperHome(s);
    TakesDead(s, u);
  }

  lemma TakesDead(s: State, u: nat)
    requires Valid(s) && Now(s).at == Running && JoinCode(s, u) == 0 && s.th[u].exited && s.th[u].status == Zombie
    requires u != REAPER && REAPER < |s.th| && (s.th[REAPER].status == Wait ==> Home(s.th[REAPER]) == NoQueue)
    ensures var s' := Apply(s, Join(u));
      && SameRest(s, s') && OthersSame(s, s', {u, REAPER}) && Reaped(s, s', u)
      && s'.th[u] == s.th[u].(waiter := Some(s.cur), detached := true) && Now(s').at == Running
  {
    var s1 := Continue(Update(s, u, s.th[u].(waiter := Some(s.cur))));
    assert s1.th == s.th[u := s.th[u].(waiter := Some(s.cur))];
    ReapableIs(s1, u, s.th[u].(waiter := Some(s.cur), detached := true));
    assert Apply(s, Join(u)) == Reapable(s1, u, s.th[u].(waiter := Some(s.cur), detached := true));
  }

  /** uthread_detach: its errors, in the order they are found; a live thread is detached and nothing else happens, and
      for a dead one an assertion ends the process. */
  lemma DetachIs(s: State, u: int)
    ensures var s' := Apply(s, Detach(u));
      if u < 0 || u >= |s.th| || s.th[u].status == NoState then DetachCode(s, u) == ESRCH && s' == s
      else if s.th[u].detached || Now(s).waiter.Some? then DetachCode(s, u) == EINVAL && s' == s
      else
        && DetachCode(s, u) == 0
        && s' == if s.th[u].status == Zombie then s.(halted := true) else s.(th := s.th[u := s.th[u].(detached := true)])
  {
  }

  // ---------------------------------------------------------------- going on with a call

  /** A thread that runs again in uthread_block, uthread_mtx_lock or the end of uthread_cond_wait is out of the call. */
  lemma ResumeReturns(s: State)
    requires Valid(s) && (Now(s).at == InBlock || Now(s).at.InLock? || Now(s).at.InSelfLock? || Now(s).at.InRelock?)
    ensures Apply(s, Resume) == s.(th := s.th[s.cur := Now(s).(at := Running)])
  {
  }

  /** In uthread_cond_wait it takes the mutex if it is free, and queues for it otherwise. */
  lemma ResumeRelocks(s: State, c: nat, m: nat)
    requires Inv(s) && Valid(s) && Now(s).at == InCondWait(c, m)
    ensures var s' := Apply(s, Resume);
      s'.cur == s.cur && s'.halted == s.halted && OthersSame(s, s', {s.cur}) &&
      if m !in s.owner then
        s'.owner == s.owner[m := s.cur] && Now(s') == Now(s).(at := Running) && QueuesSame(s, s', {})
      else
        s'.owner == s.owner && Now(s') == Now(s).(status := Wait, at := InRelock(m)) && Joined(s, s', Mutexq(m), s.cur)
  {
    assert PlaceOk(s, s.cur);
  }

  /** In uthread_join it waits again, unless its target is dead, which the reaper gets then. */
  lemma ResumeJoins(s: State, u: nat)
    requires Inv(s) && Valid(s) && Now(s).at == InJoin(u)
    ensures u < |s.th|
    ensures var s' := Apply(s, Resume);
      if s.th[u].exited then
        && SameRest(s, s') && OthersSame(s, s', {s.cur, u, REAPER}) && Reaped(s, s', u)
        && s'.th[u] == s.th[u].(detached := true) && Now(s') == Now(s).(at := Running)
      else
        && SameRest(s, s') && OthersSame(s, s', {s.cur}) && QueuesSame(s, s', {}) && Now(s') == Now(s).(status := Wait)
  {
    assert PlaceOk(s, s.cur) && JoinOk(s, s.cur) && PlaceOk(s, u);
    ReaperHome(s);
    if s.th[u].exited { JoinEnds(s, u); } else { JoinGoesOn(s, u); }
  }

  lemma JoinEnds(s: State, u: nat)
    requires Valid(s) && Now(s).at == InJoin(u) && u < |s.th| && s.th[u].exited && s.th[u].status == Zombie
    requires u != REAPER && REAPER < |s.th| && s.cur != REAPER && (s.th[REAPER].status == Wait ==> Home(s.th[REAPER]) == NoQueue)
    ensures var s' := Apply(s, Resume);
      && SameRest(s, s') && OthersSame(s, s', {s.cur, u, REAPER}) && Reaped(s, s', u)
      && s'.th[u] == s.th[u].(detached := true) && Now(s') == Now(s).(at := Running)
  {
    ReapableIs(Continue(s), u, s.th[u].(detached := true));
  }

  lemma JoinGoesOn(s: State, u: nat)
    requires Valid(s) && Now(s).at == InJoin(u) && u < |s.th| && !s.th[u].exited
    ensures var s' := Apply(s, Resume);
      SameRest(s, s') && OthersSame(s, s', {s.cur}) && QueuesSame(s, s', {}) && Now(s') == Now(s).(status := Wait)
  {
  }

  /** The reaper clears the slots of the dead threads on its queue; if no other thread is left the process ends, and if
      there is one it waits again. */
  lemma ResumeReaps(s: State)
    requires Inv(s) && Valid(s) && Now(s).at == InReaper
    ensures var s' := Apply(s, Resume);
      && s'.owner == s.owner && s'.cur == s.cur && |s'.th| == |s.th| && Q(s', Reapq) == [] && QueuesSame(s, s', {Reapq})
      && (forall u: nat {:trigger s'.th[u]} :: u < |s.th| && u != s.cur ==>
            s'.th[u] == if s.th[u].status == Zombie && s.th[u].detached then BLANK else s.th[u])
      && (s'.halted <==> s.halted || forall u: nat :: u < |s.th| && u != REAPER ==> s'.th[u].status == NoState)
      && (!s'.halted ==> Now(s') == Now(s).(status := Wait, at := InReaper))
  {
    assert PlaceOk(s, s.cur) && QueueOk(s, Reapq);
    DrainKeeps(s);
    RoundEnds(s, Drained(s));
  }

  lemma RoundEnds(s: State, d: State)
    requires Valid(s) && d == Drained(s) && |d.th| == |s.th| && s.cur == REAPER && Now(s).at == InReaper
    ensures var s' := Apply(s, Resume);
      && (forall u: nat :: u < |s.th| && u != REAPER ==> s'.th[u] == d.th[u])
      && (s'.halted <==> d.halted || forall u: nat :: u < |s.th| && u != REAPER ==> s'.th[u].status == NoState)
  {
  }

  // ---------------------------------------------------------------- mutual exclusion

  /** The threads that are inside a mutex, as their callers see it: uthread_mtx_lock, a successful uthread_mtx_trylock or
      uthread_cond_wait has returned, and neither uthread_mtx_unlock nor uthread_cond_wait been called since. */
  ghost function Inside(s: State, inside: set<(nat, nat)>, st: Step): set<(nat, nat)> {
    var u, s' := s.cur, Apply(s, st);
    match st
    case Unlock(m) => inside - {(u, m)}
    case CondWait(_, m) => inside - {(u, m)}
    case TryLock(m) => if m !in s.owner then inside + {(u, m)} else inside
    case Lock(m) => if Now(s').status == OnCpu then inside + {(u, m)} else inside
    case Resume =>
      if Now(s').status != OnCpu then inside
      else (
        match Now(s).at
        case InLock(m) => inside + {(u, m)}
        case InSelfLock(m) => inside + {(u, m)}
        case InRelock(m) => inside + {(u, m)}
        case InCondWait(_, m) => inside + {(u, m)}
        case _ => inside)
    case _ => inside
  }

  ghost function InsideAfter(s: State, inside: set<(nat, nat)>, steps: seq<Step>): set<(nat, nat)>
    decreases steps
  {
    if steps == [] then inside else InsideAfter(Apply(s, steps[0]), Inside(s, inside, steps[0]), steps[1..])
  }

  /** Whoever is inside a mutex owns it. */
  ghost predicate InsideOwns(s: State, inside: set<(nat, nat)>) {
    forall u: nat, m: nat {:trigger (u, m) in inside} :: (u, m) in inside ==> m in s.owner && s.owner[m] == u
  }

  lemma InsideStep(s: State, inside: set<(nat, nat)>, st: Step)
    requires Inv(s) && Enabled(s, st) && InsideOwns(s, inside)
    ensures InsideOwns(Apply(s, st), Inside(s, inside, st))
  {
    var s' := Apply(s, st);
    forall u: nat, m: nat | (u, m) in Inside(s, inside, st) ensures m in s'.owner && s'.owner[m] == u {
      if (u, m) in inside {
        OwnerStep(s, st, m);
      } else {
        EntersOwning(s, inside, st, u, m);
      }
    }
  }

  lemma EntersOwning(s: State, inside: set<(nat, nat)>, st: Step, u: nat, m: nat)
    requires Inv(s) && Enabled(s, st) && (u, m) in Inside(s, inside, st) && (u, m) !in inside
    ensures m in Apply(s, st).owner && Apply(s, st).owner[m] == u
  {
    assert PlaceOk(s, s.cur);
    if st == Lock(m) {
      LockIs(s, m);
    } else if st == Resume {
      if Now(s).at.InCondWait? { ResumeRelocks(s, Now(s).at.c, m); } else { LockReturnsOwning(s, m); }
    }
  }

  lemma {:induction false} InsideRun(s: State, inside: set<(nat, nat)>, steps: seq<Step>)
    requires Inv(s) && AllEnabled(s, steps) && InsideOwns(s, inside)
    ensures InsideOwns(Run(s, steps), InsideAfter(s, inside, steps))
    decreases steps
  {
    if steps != [] {
      StepKeeps(s, steps[0]);
      InsideStep(s, inside, steps[0]);
      InsideRun(Apply(s, steps[0]), Inside(s, inside, steps[0]), steps[1..]);
    }
  }

  /** Mutual exclusion: over every run from the start, two threads are never inside one mutex, and whoever is inside
      owns it. */
  lemma MutualExclusion(steps: seq<Step>, u: nat, v: nat, m: nat)
    requires AllEnabled(Initial(), steps)
    ensures var inside := InsideAfter(Initial(), {}, steps); var s := Run(Initial(), steps);
      && ((u, m) in inside && (v, m) in inside ==> u == v)
      && ((u, m) in inside ==> m in s.owner && s.owner[m] == u)
  {
    InitialOk();
    InsideRun(Initial(), {}, steps);
  }
}
