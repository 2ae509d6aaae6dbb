/**
  The calls of the thread package as they are carried out on the thread table and the queues, and the proof that
  each does what the machine's step says.
 */
module UthreadSystemImpl {
  import opened Errno
  import opened Uthread
  import opened UtLinks
  import UthreadRuns
  import UtQueue

  lemma HomelessUnlinked(s: State, u: nat)
    requires QueuesOk(s) && u < |s.th| && Home(s.th[u]) == NoQueue
    ensures OnNone(s.q, u)
  {
    forall id | id != NoQueue ensures u !in Get(s.q, id) {
      assert QueueOk(s, id) && Get(s.q, id) == Q(s, id);
    }
  }

  /** The caller of uthread_cond_wait on the queue, and nothing else done yet. */
  function Queueing(s: State, c: nat): State {
    s.(q := s.q[Condq(c) := Q(s, Condq(c)) + [s.cur]])
  }

  /** The first thread of run queue i runs. */
  function TakeUp(s: State, i: nat): State {
    if Q(s, Runq(i)) == [] then s
    else
      var u := Q(s, Runq(i))[0];
      Update(s.(q := s.q[Runq(i) := Q(s, Runq(i))[1..]], cur := u), u, Th(s, u).(status := OnCpu))
  }

  lemma DispatchIs(s: State, i: nat)
    requires Inv(s) && i <= MAX_PRIO && Q(s, Runq(i)) != []
    requires forall p: nat {:trigger Runq(p)} :: i < p <= MAX_PRIO ==> Q(s, Runq(p)) == []
    ensures Dispatch(s) == TakeUp(s, i)
  {
    HighestIs(s, MAX_PRIO + 1);
    assert Highest(s, MAX_PRIO + 1) == i;
    assert QueueOk(s, Runq(i)) && Q(s, Runq(i))[0] in Q(s, Runq(i));
  }

  /** The first thread on the reaper's list is destroyed. */
  function DestroyFirst(s: State): State {
    if Q(s, Reapq) == [] then s
    else Update(s.(q := s.q[Reapq := Q(s, Reapq)[1..]]), Q(s, Reapq)[0], BLANK)
  }

  /** The first k threads of l, the reaper's list, are destroyed. */
  function DrainedTo(s: State, l: seq<nat>, k: nat): State
    requires k <= |l|
  {
    s.(th := Blanked(s.th, l[..k]), q := if k == 0 then s.q else s.q[Reapq := l[k..]])
  }

  lemma NotYet(s: State, l: seq<nat>)
    ensures DrainedTo(s, l, 0) == s
  {
    assert l[..0] == [];
  }

  lemma DrainedNext(s: State, l: seq<nat>, k: nat)
    requires k < |l| && l == Q(s, Reapq)
    ensures DestroyFirst(DrainedTo(s, l, k)) == DrainedTo(s, l, k + 1) && Q(DrainedTo(s, l, k + 1), Reapq) == l[k + 1..]
  {
    assert l[..k + 1][..k] == l[..k] && l[k..][1..] == l[k + 1..];
    assert Q(DrainedTo(s, l, k), Reapq) == l[k..];
    if k == 0 { NotYet(s, l); }
  }

  lemma AllDrained(s: State, l: seq<nat>, k: nat)
    requires l == Q(s, Reapq) && k <= |l| && l[k..] == []
    ensures DrainedTo(s, l, k) == Drained(s)
  {
    assert k == |l| && l[..k] == l;
  }

  /** The queues a step uses are there. */
  ghost predicate StepKnown(st: Step, ids: set<Id>) {
    match st
    case Lock(m) => Mutexq(m) in ids
    case Unlock(m) => Mutexq(m) in ids
    case CondWait(c, m) => Condq(c) in ids && Mutexq(m) in ids
    case Signal(c) => Condq(c) in ids
    case Broadcast(c) => Condq(c) in ids
    case _ => true
  }

  /** So is the queue of a mutex that a thread still has to lock. */
  ghost predicate WaitsKnown(th: seq<Thread>, ids: set<Id>) {
    forall u {:trigger th[u]} :: 0 <= u < |th| && th[u].at.InCondWait? ==> Mutexq(th[u].at.m) in ids
  }

  lemma WakeAt(s: State, u: nat, v: nat)
    ensures Th(WakeUp(s, u), v).at == Th(s, v).at
  {
  }

  lemma UnlockAt(s: State, m: nat, v: nat)
    ensures Th(UnlockStep(s, m), v).at == Th(s, v).at && UnlockStep(s, m).cur == s.cur
  {
    if Q(s, Mutexq(m)) != [] { WakeAt(s.(owner := s.owner[m := Q(s, Mutexq(m))[0]]), Q(s, Mutexq(m))[0], v); }
  }

  lemma {:induction false} SignalsAt(s: State, c: nat, k: nat, v: nat)
    ensures Th(Signals(s, c, k), v).at == Th(s, v).at
  {
    if k != 0 {
      SignalsAt(s, c, k - 1, v);
      var s1 := Signals(s, c, k - 1);
      if Q(s1, Condq(c)) != [] { WakeAt(s1, Q(s1, Condq(c))[0], v); }
    }
  }

  lemma BlockAt(s: State, at: Where, v: nat)
    ensures Th(BlockAs(s, at), v).at == if v == s.cur && v < |s.th| then at else Th(s, v).at
  {
  }

  lemma ReapableAt(s: State, u: nat, t: Thread, v: nat)
    requires t.at == Th(s, u).at
    ensures Th(Reapable(s, u, t), v).at == Th(s, v).at
  {
    WakeAt(Uthread.Link(s, u, t), REAPER, v);
  }

  lemma ExitAt(s: State, x: int, v: nat)
    ensures Th(ExitStep(s, x), v).at == Th(s, v).at
  {
    var t := Now(s).(status := Zombie, exit := x, exited := true);
    if t.detached {
      ReapableAt(s, s.cur, t, v);
    } else if t.waiter.Some? {
      WakeAt(Uthread.Link(s, s.cur, t), t.waiter.value, v);
    }
  }

  lemma JoinLoopAt(s: State, u: nat, v: nat)
    ensures Th(JoinLoop(s, u), v).at.InCondWait? ==> Th(JoinLoop(s, u), v).at == Th(s, v).at
  {
    if Th(s, u).exited {
      ReapableAt(Continue(s), u, Th(Continue(s), u).(detached := true), v);
    } else {
      BlockAt(s, InJoin(u), v);
    }
  }

  lemma ReapAt(s: State, v: nat)
    ensures Th(ReapStep(s), v).at.InCondWait? ==> Th(ReapStep(s), v).at == Th(s, v).at
  {
    BlankedIs(s.th, Q(s, Reapq));
    BlockAt(Drained(s), InReaper, v);
  }

  lemma ResumeAt(s: State, v: nat)
    ensures Th(ResumeStep(s), v).at.InCondWait? ==> Th(ResumeStep(s), v).at == Th(s, v).at
  {
    match Now(s).at
    case InJoin(u) => JoinLoopAt(s, u, v);
    case InReaper => ReapAt(s, v);
    case _ =>
  }

  /** A thread comes to wait on a condition variable by calling uthread_cond_wait. */
  lemma AtAfter(s: State, st: Step, v: nat)
    requires Th(Apply(s, st), v).at.InCondWait?
    ensures Th(Apply(s, st), v).at == Th(s, v).at || (st.CondWait? && Th(Apply(s, st), v).at == InCondWait(st.c, st.m))
  {
    match st
    case Unlock(m) => UnlockAt(s, m, v);
    case CondWait(c, m) => CondWaitAt(s, c, m, v);
    case Signal(c) => SignalsAt(s, c, 1, v);
    case Broadcast(c) => SignalsAt(s, c, |Q(s, Condq(c))|, v);
    case _ => OthersAt(s, st, v);
  }

  lemma CondWaitAt(s: State, c: nat, m: nat, v: nat)
    requires Th(CondWaitStep(s, c, m), v).at.InCondWait?
    ensures Th(CondWaitStep(s, c, m), v).at == Th(s, v).at || Th(CondWaitStep(s, c, m), v).at == InCondWait(c, m)
  {
    UnlockAt(s, m, v);
    BlockAt(UnlockStep(s, m), InCondWait(c, m), v);
  }

  lemma OthersAt(s: State, st: Step, v: nat)
    requires Th(Apply(s, st), v).at.InCondWait?
    requires !st.Unlock? && !st.CondWait? && !st.Signal? && !st.Broadcast?
    ensures Th(Apply(s, st), v).at == Th(s, v).at
  {
    match st
    case Exit(x) => ExitAt(s, x, v);
    case Join(id) => if JoinCode(s, id) == 0 { JoinLoopAt(Update(s, id, Th(s, id).(waiter := Some(s.cur))), id, v); }
    case Block => BlockAt(s, InBlock, v);
    case Wake(u) => WakeAt(s, u, v);
    case Resume => ResumeAt(s, v);
    case _ =>
  }

  lemma StepKeepsWaits(s: State, st: Step, ids: set<Id>)
    requires |Apply(s, st).th| == |s.th| && WaitsKnown(s.th, ids) && StepKnown(st, ids)
    ensures WaitsKnown(Apply(s, st).th, ids)
  {
    var s' := Apply(s, st);
    forall u | 0 <= u < |s'.th| && s'.th[u].at.InCondWait? ensures Mutexq(s'.th[u].at.m) in ids {
      AtAfter(s, st, u);
      assert Th(s, u) == s.th[u];
    }
  }

  /** The run queues, and the queues of a number of mutexes and condition variables. */
  function Ids(mutexes: nat, conds: nat): seq<Id> {
    seq(MAX_PRIO + 1, p requires 0 <= p => Runq(p)) + seq(mutexes, m requires 0 <= m => Mutexq(m))
    + seq(conds, c requires 0 <= c => Condq(c))
  }

  lemma IdsIs(mutexes: nat, conds: nat)
    ensures forall p: nat {:trigger Runq(p)} :: p <= MAX_PRIO ==> Runq(p) in Ids(mutexes, conds)
    ensures forall m: nat {:trigger Mutexq(m)} :: m < mutexes ==> Mutexq(m) in Ids(mutexes, conds)
    ensures forall c: nat {:trigger Condq(c)} :: c < conds ==> Condq(c) in Ids(mutexes, conds)
    ensures NoQueue !in Ids(mutexes, conds) && Reapq !in Ids(mutexes, conds)
  {
    var ids := Ids(mutexes, conds);
    forall p: nat | p <= MAX_PRIO ensures Runq(p) in ids { assert ids[p] == Runq(p); }
    forall m: nat | m < mutexes ensures Mutexq(m) in ids { assert ids[MAX_PRIO + 1 + m] == Mutexq(m); }
    forall c: nat | c < conds ensures Condq(c) in ids { assert ids[MAX_PRIO + 1 + mutexes + c] == Condq(c); }
  }

  class UthreadSystem {
    const th: array<Thread>
    /** The links of the threads, and the queues they are on. */
    const queues: Queues
    var owner: map<nat, nat>
    var cur: nat
    var halted: bool

    ghost function View(): State
      reads this, th, queues
    {
      State(th[..], queues.q, owner, cur, halted)
    }

    ghost predicate Sized()
      reads this, queues, queues.parts
    {
      && th.Length == MAX_THREADS && cur < MAX_THREADS
      && this !in queues.parts && th !in queues.parts && queues.Valid()
    }

    /** The state between two steps. */
    ghost predicate Ready()
      reads this, th, queues, queues.parts
    {
      Sized() && Inv(View()) && WaitsKnown(th[..], queues.table.Keys)
    }

    /** Both pointers of a thread's link are NULL exactly if its status puts it on no queue. */
    ghost predicate LinksTell()
      requires Sized()
      reads this, th, queues, queues.parts
    {
      forall u: nat {:trigger queues.links[u]} :: u < MAX_THREADS ==>
        && (queues.links[u].next == null <==> Home(th[u]) == NoQueue)
        && (queues.links[u].prev == null <==> Home(th[u]) == NoQueue)
    }

    lemma LinksDoTell()
      requires Sized() && Inv(View())
      ensures LinksTell()
    {
      forall u: nat | u < MAX_THREADS
        ensures queues.links[u].next == null <==> Home(th[u]) == NoQueue
        ensures queues.links[u].prev == null <==> Home(th[u]) == NoQueue
      {
        queues.LinkedIff(u);
        if Home(th[u]) == NoQueue {
          HomelessUnlinked(View(), u);
        } else {
          assert QueueOk(View(), Home(th[u])) && u in Get(queues.q, Home(th[u]));
        }
      }
    }

    /** What uthread_init leaves, with a number of initialised mutexes and condition variables. */
    constructor (mutexes: nat, conds: nat)
      ensures Ready() && View() == Initial() && fresh(th) && fresh(queues) && fresh(queues.parts)
      ensures forall m: nat {:trigger Mutexq(m)} :: m < mutexes ==> Mutexq(m) in queues.table
      ensures forall c: nat {:trigger Condq(c)} :: c < conds ==> Condq(c) in queues.table
    {
      IdsIs(mutexes, conds);
      InitialOk();
      queues := new Queues(Ids(mutexes, conds));
      th := new Thread[MAX_THREADS](u =>
        if u == REAPER then Thread(Wait, MAX_PRIO, false, false, 0, None, InReaper)
        else if u == 1 then Thread(OnCpu, MAX_PRIO, true, false, 0, None, Running)
        else BLANK);
      owner, cur, halted := map[], 1, false;
      new;
      assert th[..] == Initial().th;
    }

    /** uthread_setprio.  A runnable thread goes to the end of its new queue, off its old one if it is on it. */
    method SetPrio(id: int, prio: int) returns (ret: int)
      requires Sized()
      requires ValidId(View(), id) && th[id].status == Runnable ==>
                 OnNone(queues.q, id) || (id in Get(queues.q, Runq(th[id].prio)) && QueuesOk(View()))
      modifies th, queues`q, queues.parts
      ensures Sized()
      ensures ret == SetPrioCode(old(View()), id, prio)
      ensures ret == 0 && old(th[id]).status == Runnable && old(OnNone(queues.q, id)) ==>
                View() == Link(old(View()), id, old(th[id]).(prio := prio))
      ensures !(ret == 0 && old(th[id]).status == Runnable && old(OnNone(queues.q, id))) ==>
                View() == SetPrioStep(old(View()), id, prio)
    {
      if prio < 0 || prio > MAX_PRIO { return EINVAL; }
      if id < 0 || id >= MAX_THREADS || th[id].status == NoState || th[id].status == Zombie { return ESRCH; }
      if th[id].status == Runnable {
        var linked := queues.IsLinked(id);
        if linked {
          RemovedUnlinked(View(), id);
          queues.Remove(Runq(th[id].prio), id);
        }
        th[id] := th[id].(prio := prio);
        queues.Enqueue(Runq(prio), id);
      } else {
        th[id] := th[id].(prio := prio);
      }
      return 0;
    }

    /** uthread_wake, for a thread that is on no queue any more if it waits. */
    method Wake(u: nat)
      requires Sized() && u < MAX_THREADS && th[u].prio <= MAX_PRIO && (th[u].status == Wait ==> OnNone(queues.q, u))
      modifies th, queues`q, queues.parts
      ensures Sized()
      ensures View() == if old(th[u]).status == Wait then Link(old(View()), u, old(th[u]).(status := Runnable)) else old(View())
    {
      if th[u].status == Wait {
        ghost var s := View();
        th[u] := th[u].(status := Runnable);
        var ret := SetPrio(u, th[u].prio);
        assert View() == Link(s, u, s.th[u].(status := Runnable));
      }
    }

    /** uthread_yield, up to the switch. */
    method Yield()
      requires Sized() && OnNone(queues.q, cur) && th[cur].status == OnCpu && th[cur].prio <= MAX_PRIO
      modifies th, queues`q, queues.parts
      ensures Sized()
      ensures View() == YieldStep(old(View()))
    {
      ghost var s := View();
      th[cur] := th[cur].(status := Runnable);
      var ret := SetPrio(cur, th[cur].prio);
      assert View() == Link(s, s.cur, s.th[s.cur].(status := Runnable));
    }

    /** uthread_block, up to the switch; at is where the thread will go on. */
    method Block(at: Where)
      requires Sized()
      modifies th
      ensures Sized()
      ensures th[..] == old(th[..])[cur := old(th[cur]).(status := Wait, at := at)]
    {
      th[cur] := th[cur].(status := Wait, at := at);
    }

    /** uthread_switch, once a thread is runnable. */
    method Switch()
      requires Sized() && Inv(View()) && Now(View()).status != OnCpu && SomeRunnable(View())
      modifies th, queues`q, queues.parts, `cur
      ensures Sized()
      ensures View() == Dispatch(old(View()))
    {
      ghost var s := View();
      HighestIs(s, MAX_PRIO + 1);
      var i := MAX_PRIO + 1;
      while i > 0
        invariant Sized() && 0 <= i <= MAX_PRIO + 1 && View() == s
        invariant forall p: nat {:trigger Runq(p)} :: i <= p <= MAX_PRIO ==> Q(s, Runq(p)) == []
      {
        i := i - 1;
        var empty := queues.Empty(Runq(i));
        if !empty {
          DispatchIs(s, i);
          SwitchTo(i);
          return;
        }
      }
    }

    /** The first thread of a run queue gets the processor. */
    method SwitchTo(i: nat)
      requires Sized() && i <= MAX_PRIO && Get(queues.q, Runq(i)) != []
      modifies th, queues`q, queues.parts, `cur
      ensures Sized() && View() == TakeUp(old(View()), i)
    {
      var u := queues.Dequeue(Runq(i));
      cur := u;
      th[u] := th[u].(status := OnCpu);
    }

    /** uthread_mtx_lock, and the end of uthread_cond_wait. */
    method Lock(m: nat, queued: Where)
      requires Sized() && OnNone(queues.q, cur) && (queued == InLock(m) || queued == InRelock(m))
      requires Mutexq(m) in queues.table
      modifies th, queues`q, queues.parts, `owner
      ensures Sized()
      ensures View() == LockAs(old(View()), m, queued)
    {
      ghost var s := View();
      if m !in owner {
        owner := owner[m := cur];
        th[cur] := th[cur].(at := Running);
      } else if cur != owner[m] {
        queues.Enqueue(Mutexq(m), cur);
        Block(queued);
        assert View() == Link(s, s.cur, s.th[s.cur].(status := Wait, at := queued));
      } else {
        Block(InSelfLock(m));
      }
    }

    method TryLock(m: nat) returns (got: bool)
      requires Sized()
      modifies `owner
      ensures Sized()
      ensures got == (m !in old(owner)) && View() == TryLockStep(old(View()), m)
    {
      if m !in owner {
        owner := owner[m := cur];
        return true;
      }
      return false;
    }

    /** What taking the first thread off a queue relies on. */
    ghost predicate HeadOk(id: Id)
      reads this, th, queues
    {
      Get(queues.q, id) != [] ==>
        var u := Get(queues.q, id)[0];
        u < th.Length && th[u].prio <= MAX_PRIO && th[u].status == Wait && Home(th[u]) == id
        && OnNone(queues.q[id := Get(queues.q, id)[1..]], u)
    }

    method Unlock(m: nat)
      requires Sized() && m in owner && owner[m] == cur && HeadOk(Mutexq(m)) && Mutexq(m) in queues.table
      modifies th, queues`q, queues.parts, `owner
      ensures Sized()
      ensures View() == UnlockStep(old(View()), m)
    {
      ghost var s := View();
      var empty := queues.Empty(Mutexq(m));
      if empty {
        owner := owner - {m};
      } else {
        var next := queues.Dequeue(Mutexq(m));
        owner := owner[m := next];
        Wake(next);
        assert View() == WakeUp(s.(owner := s.owner[m := next]), next);
      }
    }

    /** The first thread that waits on a condition variable is taken off its queue and woken. */
    method WakeFirst(c: nat)
      requires Sized() && HeadOk(Condq(c)) && Condq(c) in queues.table && Get(queues.q, Condq(c)) != []
      modifies th, queues`q, queues.parts
      ensures Sized()
      ensures View() == SignalStep(old(View()), c)
    {
      ghost var s := View();
      var u := queues.Dequeue(Condq(c));
      Wake(u);
      assert View() == WakeUp(s, u);
    }

    method Signal(c: nat)
      requires Sized() && HeadOk(Condq(c)) && Condq(c) in queues.table
      modifies th, queues`q, queues.parts
      ensures Sized()
      ensures View() == SignalStep(old(View()), c)
    {
      var empty := queues.Empty(Condq(c));
      if !empty { WakeFirst(c); }
    }

    /** uthread_cond_wait, up to the switch. */
    method CondWait(c: nat, m: nat)
      requires Sized() && Owns(View(), m) && th[cur].status == OnCpu && OnNone(queues.q, cur) && HeadOk(Mutexq(m))
      requires Condq(c) in queues.table && Mutexq(m) in queues.table
      modifies th, queues`q, queues.parts, `owner
      ensures Sized()
      ensures View() == CondWaitStep(old(View()), c, m)
    {
      ghost var s := View();
      QueueAndUnlock(c, m);
      CondWaitOrder(s, c, m);
      Block(InCondWait(c, m));
    }

    /** uthread_cond_wait, up to where it blocks. */
    method QueueAndUnlock(c: nat, m: nat)
      requires Sized() && m in owner && owner[m] == cur && th[cur].status == OnCpu
      requires OnNone(queues.q, cur) && HeadOk(Mutexq(m))
      requires Condq(c) in queues.table && Mutexq(m) in queues.table
      modifies th, queues`q, queues.parts, `owner
      ensures Sized() && cur == old(cur) && Now(View()) == old(Now(View()))
      ensures View() == UnlockStep(Queueing(old(View()), c), m)
    {
      ghost var s := View();
      HeadStays(s, m, c);
      queues.Enqueue(Condq(c), cur);
      assert View() == Queueing(s, c);
      Unlock(m);
    }

    /** uthread_cond_broadcast */
    method Broadcast(c: nat)
      requires Sized() && Inv(View()) && th[cur].status == OnCpu && Condq(c) in queues.table
      modifies th, queues`q, queues.parts
      ensures Sized()
      ensures View() == BroadcastStep(old(View()), c)
    {
      SignalLoops(View(), c);
      SignalAll(c, View());
    }

    /** The loop of uthread_cond_broadcast. */
    method SignalAll(c: nat, ghost s: State)
      requires Sized() && View() == s && Condq(c) in queues.table && SignalsOk(s, c)
      modifies th, queues`q, queues.parts
      ensures Sized()
      ensures View() == BroadcastStep(s, c)
    {
      ghost var k := 0;
      var empty := NobodyWaits(c, s, k);
      while !empty
        invariant Sized() && k <= |Q(s, Condq(c))| && View() == Signals(s, c, k)
        invariant empty <==> k == |Q(s, Condq(c))|
        decreases |Q(s, Condq(c))| - k
      {
        WakeNext(c, s, k);
        k := k + 1;
        empty := NobodyWaits(c, s, k);
      }
    }

    /** Its test, after k turns. */
    method NobodyWaits(c: nat, ghost s: State, ghost k: nat) returns (empty: bool)
      requires Sized() && View() == Signals(s, c, k) && Condq(c) in queues.table && SignalsOk(s, c) && k <= |Q(s, Condq(c))|
      ensures empty <==> k == |Q(s, Condq(c))|
    {
      StillWaiting(s, c, k);
      empty := queues.Empty(Condq(c));
    }

    /** One turn of it. */
    method WakeNext(c: nat, ghost s: State, ghost k: nat)
      requires Sized() && View() == Signals(s, c, k) && Condq(c) in queues.table
      requires SignalsOk(s, c) && k < |Q(s, Condq(c))|
      modifies th, queues`q, queues.parts
      ensures Sized() && View() == Signals(s, c, k + 1)
    {
      StillWaiting(s, c, k);
      assert LoopOk(s, c, k);
      WakeFirst(c);
    }

    /** uthread_alloc */
    method Alloc() returns (u: int)
      requires th.Length == MAX_THREADS
      ensures u == if FreeSlot(th[..], 0) == MAX_THREADS then -1 else FreeSlot(th[..], 0)
    {
      for i := 0 to MAX_THREADS
        invariant FreeSlot(th[..], 0) == FreeSlot(th[..], i)
      {
        if th[i].status == NoState { return i; }
      }
      return -1;
    }

    /** uthread_create; the thread's id, or -1.  Where the priority cannot be set the process ends. */
    method Create(prio: int) returns (u: int)
      requires Sized() && Inv(View())
      modifies th, queues`q, queues.parts, `halted
      ensures Sized()
      ensures View() == CreateStep(old(View()), prio)
      ensures u == if FreeSlot(old(th[..]), 0) == MAX_THREADS then -1 else FreeSlot(old(th[..]), 0)
    {
      ghost var s := View();
      FreeSlotIs(th[..], 0);
      u := Alloc();
      if u == -1 { return; }
      HomelessUnlinked(s, u);
      Begin(u, prio);
    }

    /** The part of uthread_create that fills the slot. */
    method Begin(u: nat, prio: int)
      requires Sized() && u < MAX_THREADS && OnNone(queues.q, u)
      modifies th, queues`q, queues.parts, `halted
      ensures Sized()
      ensures prio < 0 || prio > MAX_PRIO ==> View() == Update(old(View()), u, BLANK).(halted := true)
      ensures 0 <= prio <= MAX_PRIO ==> View() == Link(old(View()), u, BLANK.(status := Runnable, prio := prio))
    {
      th[u] := BLANK.(status := Runnable);
      var ret := SetPrio(u, prio);
      if ret != 0 { th[u], halted := BLANK, true; }
    }

    /** make_reapable */
    method MakeReapable(u: nat)
      requires Sized() && u < MAX_THREADS && th[u].detached && th[u].status == Zombie && OnNone(queues.q, u)
      requires th[REAPER].prio <= MAX_PRIO && (th[REAPER].status == Wait ==> OnNone(queues.q, REAPER) && Home(th[REAPER]) == NoQueue)
      requires u != REAPER
      modifies th, queues`q, queues.parts
      ensures Sized()
      ensures View() == WakeUp(old(View()).(q := old(queues.q)[Reapq := Get(old(queues.q), Reapq) + [u]]), REAPER)
    {
      if th[REAPER].status == Wait { StillUnlinked(queues.q, Reapq, u, REAPER); }
      queues.EnqueueReap(u);
      Wake(REAPER);
    }

    /** uthread_exit, up to the switch. */
    method Exit(v: int)
      requires Sized() && Inv(View()) && th[cur].status == OnCpu && th[cur].at == Running
      modifies th, queues`q, queues.parts
      ensures Sized()
      ensures View() == ExitStep(old(View()), v)
    {
      ExitReady(View());
      ExitIs(View(), v);
      Die(v);
    }

    /** The body of uthread_exit. */
    method Die(v: int)
      requires Sized() && cur != REAPER && OnNone(queues.q, cur)
      requires WakeReady(View(), REAPER) && (th[cur].waiter.Some? && !th[cur].detached ==> WakeReady(View(), th[cur].waiter.value))
      modifies th, queues`q, queues.parts
      ensures Sized() && View() == Died(old(View()), v)
    {
      th[cur] := th[cur].(status := Zombie, exit := v, exited := true);
      if th[cur].detached {
        MakeReapable(cur);
      } else if th[cur].waiter.Some? {
        WakeWaiter(th[cur].waiter.value);
      }
    }

    /** uthread_wake on a thread other than the caller that is in a join. */
    method WakeWaiter(u: nat)
      requires Sized() && WakeReady(View(), u)
      modifies th, queues`q, queues.parts
      ensures Sized() && View() == WakeUp(old(View()), u)
    {
      Wake(u);
    }

    /** The loop of uthread_join, as far as it gets before it switches, and what follows it. */
    method JoinLoop(u: nat)
      requires Sized() && u < MAX_THREADS && (th[u].exited ==>
                 th[u].status == Zombie && OnNone(queues.q, u) && u != REAPER && u != cur)
      requires th[REAPER].prio <= MAX_PRIO && (th[REAPER].status == Wait ==> OnNone(queues.q, REAPER) && Home(th[REAPER]) == NoQueue)
      requires cur != REAPER
      modifies th, queues`q, queues.parts
      ensures Sized()
      ensures View() == Uthread.JoinLoop(old(View()), u)
    {
      ghost var s := View();
      if !th[u].exited {
        Block(InJoin(u));
        assert View() == BlockAs(s, InJoin(u));
      } else {
        th[cur] := th[cur].(at := Running);
        th[u] := th[u].(detached := true);
        MakeReapable(u);
        assert View() == FinishJoin(Continue(s), u);
      }
    }

    /** uthread_join, as far as it gets before it switches. */
    method Join(id: int) returns (ret: int)
      requires Sized() && Inv(View()) && th[cur].status == OnCpu && th[cur].at == Running
      modifies th, queues`q, queues.parts
      ensures Sized()
      ensures ret == JoinCode(old(View()), id) && View() == JoinStep(old(View()), id)
    {
      ghost var s := View();
      assert PlaceOk(s, cur);
      if id < 0 || id >= MAX_THREADS || th[id].status == NoState { return ESRCH; }
      if th[cur].waiter == Some(id) { return EDEADLK; }
      if th[cur].waiter != None || th[id].detached { return EINVAL; }
      JoinReady(s, id);
      th[id] := th[id].(waiter := Some(cur));
      JoinLoop(id);
      return 0;
    }

    /** uthread_detach */
    method Detach(id: int) returns (ret: int)
      requires Sized() && Inv(View()) && th[cur].status == OnCpu
      modifies th, `halted
      ensures Sized()
      ensures ret == DetachCode(old(View()), id) && View() == DetachStep(old(View()), id)
    {
      if id < 0 || id >= MAX_THREADS || th[id].status == NoState { return ESRCH; }
      if th[id].detached || th[cur].waiter != None { return EINVAL; }
      if th[id].status == Zombie {
        halted := true;
      } else {
        th[id] := th[id].(detached := true);
      }
      return 0;
    }

    /** The reaper's walk over its list: every thread it visits leaves the list and has its slot cleared. */
    method Drain()
      requires Sized()
      modifies th, queues`q, queues.parts
      ensures Sized()
      ensures View() == Drained(old(View()))
    {
      ghost var s, l, k := View(), Get(queues.q, Reapq), 0;
      NotYet(s, l);
      var link := queues.FirstReap();
      while link != queues.reap.head
        invariant Sized() && queues.AtFront(link)
        invariant k <= |l| && Get(queues.q, Reapq) == l[k..] && View() == DrainedTo(s, l, k)
        decreases |l| - k
      {
        DrainedNext(s, l, k);
        link := DestroyNext(link);
        k := k + 1;
      }
      AllDrained(s, l, k);
    }

    /** One turn of it. */
    method DestroyNext(link: UtQueue.Link) returns (next: UtQueue.Link)
      requires Sized() && queues.AtFront(link) && link != queues.reap.head
      modifies th, queues`q, queues.parts
      ensures Sized() && queues.AtFront(next)
      ensures View() == DestroyFirst(old(View()))
    {
      var u: nat;
      next, u := queues.DequeueReap(link);
      th[u] := BLANK;
    }

    /** One round of the reaper. */
    method ReapRound()
      requires Sized() && Inv(View()) && th[cur].status == OnCpu && th[cur].at == InReaper
      modifies th, queues`q, queues.parts, `halted
      ensures Sized()
      ensures View() == ReapStep(old(View()))
    {
      ghost var s := View();
      DrainKeeps(s);
      Drain();
      var u := 0;
      while u < MAX_THREADS && (u == REAPER || th[u].status == NoState)
        invariant 0 <= u <= MAX_THREADS
        invariant forall v :: 0 <= v < u && v != REAPER ==> th[v].status == NoState
      {
        u := u + 1;
      }
      if u == MAX_THREADS {
        halted := true;
      } else {
        Block(InReaper);
        assert View() == BlockAs(Drained(s), InReaper);
      }
    }

    /** What a thread does when it is switched to in the middle of a call. */
    method Resume()
      requires Ready() && th[cur].status == OnCpu && th[cur].at != Running
      modifies th, queues`q, queues.parts, `owner, `halted
      ensures Sized()
      ensures View() == ResumeStep(old(View()))
    {
      ghost var s := View();
      HomelessUnlinked(s, cur);
      assert PlaceOk(s, cur);
      var at := th[cur].at;
      if at.InCondWait? {
        Lock(at.m, InRelock(at.m));
      } else if at.InJoin? {
        ResumeReady(s, at.u);
        JoinLoop(at.u);
      } else if at.InReaper? {
        ReapRound();
      } else {
        th[cur] := th[cur].(at := Running);
      }
    }

    /** Any step the current thread can take keeps the invariant and is the machine's; afterwards the links still
        tell who is on a queue. */
    method Take(st: Step)
      requires Ready() && Enabled(View(), st) && StepKnown(st, queues.table.Keys)
      modifies th, queues`q, queues.parts, `owner, `cur, `halted
      ensures Ready() && LinksTell() && View() == Apply(old(View()), st)
    {
      StepKeeps(View(), st);
      StepKeepsWaits(View(), st, queues.table.Keys);
      CarryOut(st);
      LinksDoTell();
    }

    /** Any run. */
    method Execute(steps: seq<Step>)
      requires Ready() && AllEnabled(View(), steps)
      requires forall k :: 0 <= k < |steps| ==> StepKnown(steps[k], queues.table.Keys)
      modifies th, queues`q, queues.parts, `owner, `cur, `halted
      ensures Ready() && LinksTell() && View() == Run(old(View()), steps)
    {
      LinksDoTell();
      for k := 0 to |steps|
        invariant Ready() && LinksTell() && AllEnabled(View(), steps[k..])
        invariant Run(View(), steps[k..]) == Run(old(View()), steps)
      {
        assert steps[k..][1..] == steps[k + 1..];
        Take(steps[k]);
      }
    }

    method CarryOut(st: Step)
      requires Ready() && Enabled(View(), st) && StepKnown(st, queues.table.Keys)
      modifies th, queues`q, queues.parts, `owner, `cur, `halted
      ensures Sized()
      ensures View() == Apply(old(View()), st)
    {
      ghost var s := View();
      StepReady(s, st);
      var ret := 0;
      match st {
        case Create(prio) => ret := Create(prio);
        case Exit(v) => Exit(v);
        case Join(u) => ret := Join(u);
        case Detach(u) => ret := Detach(u);
        case Yield => Yield();
        case Block => Block(InBlock);
        case Wake(u) => Wake(u);
        case SetPrio(u, prio) => ret := SetPrio(u, prio);
        case Switch => Switch();
        case Resume => Resume();
        case _ => Synchronise(st);
      }
    }

    /** The calls on mutexes and condition variables. */
    method Synchronise(st: Step)
      requires Ready() && Enabled(View(), st) && StepKnown(st, queues.table.Keys)
      requires st.Lock? || st.TryLock? || st.Unlock? || st.CondWait? || st.Signal? || st.Broadcast?
      modifies th, queues`q, queues.parts, `owner
      ensures Sized() && View() == Apply(old(View()), st)
    {
      StepReady(View(), st);
      match st {
        case Lock(m) => Lock(m, InLock(m));
        case TryLock(m) => var got := TryLock(m);
        case Unlock(m) => Unlock(m);
        case CondWait(c, m) => CondWait(c, m);
        case Signal(c) => Signal(c);
        case Broadcast(c) => Broadcast(c);
      }
    }
  }

  /** u may be woken: if it waits, it is on no queue and belongs on none. */
  ghost predicate WakeReady(s: State, u: nat) {
    u < |s.th| && s.th[u].prio <= MAX_PRIO && (s.th[u].status == Wait ==> OnNone(s.q, u) && Home(s.th[u]) == NoQueue)
  }

  lemma ExitReady(s: State)
    requires Inv(s) && Now(s).status == OnCpu && Now(s).at == Running
    ensures s.cur != REAPER && OnNone(s.q, s.cur) && WakeReady(s, REAPER)
    ensures Now(s).waiter.Some? && !Now(s).detached ==> WakeReady(s, Now(s).waiter.value) && Now(s).waiter.value != s.cur
  {
    assert PlaceOk(s, s.cur) && PlaceOk(s, REAPER) && JoinOk(s, s.cur);
    HomelessUnlinked(s, s.cur);
    if s.th[REAPER].status == Wait { HomelessUnlinked(s, REAPER); }
    if Now(s).waiter.Some? && !Now(s).detached {
      var w := Now(s).waiter.value;
      assert PlaceOk(s, w);
      if s.th[w].status == Wait { HomelessUnlinked(s, w); }
    }
  }

  /** uthread_exit one after the other: the thread is dead, and then the reaper or the waiter is told. */
  function Died(s: State, v: int): State {
    var t := Now(s).(status := Zombie, exit := v, exited := true);
    var dead := Update(s, s.cur, t);
    if t.detached then WakeUp(dead.(q := s.q[Reapq := Q(s, Reapq) + [s.cur]]), REAPER)
    else if t.waiter.Some? then WakeUp(dead, t.waiter.value)
    else dead
  }

  lemma ExitIs(s: State, v: int)
    requires s.cur < |s.th|
    ensures ExitStep(s, v) == Died(s, v)
  {
  }

  /** What uthread_join relies on about its target and the reaper. */
  lemma JoinReady(s: State, u: nat)
    requires Inv(s) && Now(s).status == OnCpu && u < |s.th|
    ensures s.cur == REAPER || s.th[REAPER].status != OnCpu
    ensures s.th[u].exited && !s.th[u].detached ==> s.th[u].status == Zombie && OnNone(s.q, u) && u != REAPER && u != s.cur
    ensures s.th[REAPER].prio <= MAX_PRIO
    ensures s.th[REAPER].status == Wait ==> OnNone(s.q, REAPER) && Home(s.th[REAPER]) == NoQueue
    ensures Now(s).at != InReaper ==> s.cur != REAPER
  {
    assert PlaceOk(s, u) && PlaceOk(s, REAPER) && PlaceOk(s, s.cur);
    if Home(s.th[u]) == NoQueue { HomelessUnlinked(s, u); }
    if s.th[REAPER].status == Wait { HomelessUnlinked(s, REAPER); }
  }

  lemma ResumeReady(s: State, u: nat)
    requires Inv(s) && Now(s).status == OnCpu && Now(s).at == InJoin(u)
    ensures u < |s.th| && !s.th[u].detached
    ensures s.th[u].exited ==> s.th[u].status == Zombie && OnNone(s.q, u) && u != REAPER && u != s.cur
    ensures s.th[REAPER].prio <= MAX_PRIO && s.cur != REAPER
    ensures s.th[REAPER].status == Wait ==> OnNone(s.q, REAPER) && Home(s.th[REAPER]) == NoQueue
  {
    assert JoinOk(s, s.cur);
    JoinReady(s, u);
  }

  lemma StepReady(s: State, st: Step)
    requires Inv(s) && Enabled(s, st)
    ensures Now(s).status == OnCpu ==> OnNone(s.q, s.cur) && Now(s).prio <= MAX_PRIO
    ensures st.Wake? ==>
              st.u < MAX_THREADS && s.th[st.u].prio <= MAX_PRIO && (s.th[st.u].status == Wait ==> OnNone(s.q, st.u))
    ensures st.SetPrio? && ValidId(s, st.id) && s.th[st.id].status == Runnable ==>
              st.id in Get(s.q, Runq(s.th[st.id].prio)) && !OnNone(s.q, st.id)
    ensures (st.Unlock? || st.CondWait?) && Q(s, Mutexq(st.m)) != [] ==> HeadReady(s, Mutexq(st.m))
    ensures st.Signal? && Q(s, Condq(st.c)) != [] ==> HeadReady(s, Condq(st.c))
  {
    assert PlaceOk(s, s.cur);
    if Now(s).status == OnCpu { HomelessUnlinked(s, s.cur); }
    match st
    case Wake(u) =>
      assert PlaceOk(s, u);
      if s.th[u].status == Wait { HomelessUnlinked(s, u); }
    case SetPrio(u, prio) => if ValidId(s, u) { assert QueueOk(s, Runq(s.th[u].prio)); }
    case Unlock(m) => if Q(s, Mutexq(m)) != [] { HeadUnlinked(s, Mutexq(m)); }
    case CondWait(_, m) => if Q(s, Mutexq(m)) != [] { HeadUnlinked(s, Mutexq(m)); }
    case Signal(c) => if Q(s, Condq(c)) != [] { HeadUnlinked(s, Condq(c)); }
    case _ =>
  }

  ghost predicate HeadReady(s: State, id: Id)
    requires Q(s, id) != []
  {
    var u := Q(s, id)[0];
    u < |s.th| && s.th[u].prio <= MAX_PRIO && Home(s.th[u]) == id && OnNone(s.q[id := Q(s, id)[1..]], u)
  }

  lemma StillUnlinked(q: map<Id, seq<nat>>, id: Id, u: nat, v: nat)
    requires OnNone(q, v) && u != v && id != NoQueue
    ensures OnNone(q[id := Get(q, id) + [u]], v)
  {
    var q' := q[id := Get(q, id) + [u]];
    forall id' | id' != NoQueue ensures v !in Get(q', id') {
      assert v !in Get(q, id');
    }
  }

  /** After k signals of a broadcast: as many fewer wait, and the first of them can be taken off. */
  ghost predicate LoopOk(s: State, c: nat, k: nat) {
    var s' := Signals(s, c, k);
    && |s'.th| == |s.th| && s'.cur == s.cur && |Q(s', Condq(c))| == |Q(s, Condq(c))| - k
    && (Q(s', Condq(c)) != [] ==> (
          var u := Q(s', Condq(c))[0];
          && u < |s'.th| && s'.th[u].prio <= MAX_PRIO && s'.th[u].status == Wait && Home(s'.th[u]) == Condq(c)
          && OnNone(s'.q[Condq(c) := Q(s', Condq(c))[1..]], u)))
  }

  ghost predicate SignalsOk(s: State, c: nat) {
    forall k: nat {:trigger LoopOk(s, c, k)} :: k <= |Q(s, Condq(c))| ==> LoopOk(s, c, k)
  }

  lemma SignalLoops(s: State, c: nat)
    requires Inv(s) && Now(s).status == OnCpu
    ensures SignalsOk(s, c)
  {
    forall k: nat | k <= |Q(s, Condq(c))| ensures LoopOk(s, c, k) {
      SignalLoop(s, c, k);
    }
  }

  lemma StillWaiting(s: State, c: nat, k: nat)
    requires SignalsOk(s, c) && k <= |Q(s, Condq(c))|
    ensures |Q(Signals(s, c, k), Condq(c))| == |Q(s, Condq(c))| - k
  {
    assert LoopOk(s, c, k);
  }

  lemma SignalLoop(s: State, c: nat, k: nat)
    requires Inv(s) && Now(s).status == OnCpu && k <= |Q(s, Condq(c))|
    ensures LoopOk(s, c, k)
  {
    UthreadRuns.SignalsLeft(s, c, k);
    SignalsKeep(s, c, k);
    if Q(Signals(s, c, k), Condq(c)) != [] { HeadUnlinked(Signals(s, c, k), Condq(c)); }
  }

  /** The caller of uthread_cond_wait on the queue changes nothing about who gets the mutex. */
  lemma HeadStays(s: State, m: nat, c: nat)
    requires Q(s, Mutexq(m)) != [] ==>
               s.cur != Q(s, Mutexq(m))[0] && OnNone(s.q[Mutexq(m) := Q(s, Mutexq(m))[1..]], Q(s, Mutexq(m))[0])
    ensures var q := s.q[Condq(c) := Q(s, Condq(c)) + [s.cur]];
      Get(q, Mutexq(m)) == Q(s, Mutexq(m)) &&
      (Q(s, Mutexq(m)) != [] ==> OnNone(q[Mutexq(m) := Q(s, Mutexq(m))[1..]], Q(s, Mutexq(m))[0]))
  {
    var q := s.q[Condq(c) := Q(s, Condq(c)) + [s.cur]];
    var l := Q(s, Mutexq(m));
    if l != [] {
      var q' := q[Mutexq(m) := l[1..]];
      forall id | id != NoQueue ensures l[0] !in Get(q', id) {
        assert l[0] !in Get(s.q[Mutexq(m) := l[1..]], id);
      }
    }
  }

  /** Queueing before unlocking and queueing after it come to the same. */
  lemma CondWaitOrder(s: State, c: nat, m: nat)
    requires s.cur < |s.th|
    requires Q(s, Mutexq(m)) != [] ==>
               var u := Q(s, Mutexq(m))[0]; u < |s.th| && u != s.cur && s.th[u].status == Wait && Home(s.th[u]) == Mutexq(m)
    ensures var s1 := UnlockStep(Queueing(s, c), m);
      s1.(th := s1.th[s.cur := Now(s).(status := Wait, at := InCondWait(c, m))]) == CondWaitStep(s, c, m)
  {
    var s1 := UnlockStep(Queueing(s, c), m);
    assert s1.q == CondWaitStep(s, c, m).q;
  }

  /** The first thread of a queue waits there, and once it is taken off it is on no queue. */
  lemma HeadUnlinked(s: State, id: Id)
    requires Inv(s) && id != NoQueue && Q(s, id) != []
    ensures var u := Q(s, id)[0];
      u < |s.th| && s.th[u].prio <= MAX_PRIO && Home(s.th[u]) == id && OnNone(s.q[id := Q(s, id)[1..]], u)
  {
    var l, u := Q(s, id), Q(s, id)[0];
    assert QueueOk(s, id) && u in l;
    assert PlaceOk(s, u);
    var q' := s.q[id := l[1..]];
    forall id' | id' != NoQueue ensures u !in Get(q', id') {
      assert QueueOk(s, id');
    }
  }

  lemma RemovedUnlinked(s: State, u: nat)
    requires QueuesOk(s) && u < |s.th| && s.th[u].status == Runnable
    ensures OnNone(s.q[Runq(s.th[u].prio) := Remove(Q(s, Runq(s.th[u].prio)), u)], u)
  {
    var q' := s.q[Runq(s.th[u].prio) := Remove(Q(s, Runq(s.th[u].prio)), u)];
    forall id | id != NoQueue ensures u !in Get(q', id) {
      assert QueueOk(s, id);
      RemoveIs(Q(s, id), u);
    }
  }
}
