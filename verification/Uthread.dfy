/**
  The user-level thread package as a machine.  A step is the code a thread runs between two context switches, and
  a suspended thread remembers where it is suspended.
 */
module Uthread {
  import opened Errno

  const MAX_THREADS: nat := 64
  const MAX_PRIO: nat := 7
  const REAPER: nat := 0

  datatype Status = NoState | OnCpu | Runnable | Wait | Zombie

  datatype Option<T> = None | Some(value: T)

  /** What a thread does when it runs next: its own code, or the rest of the call it is in. */
  datatype Where =
    | Running
    | InBlock
    | InLock(m: nat)
    | InSelfLock(m: nat)
    | InCondWait(c: nat, m: nat)
    | InRelock(m: nat)
    | InJoin(u: nat)
    | InReaper

  /** uthread_t, without its context and its link. */
  datatype Thread = Thread(status: Status, prio: nat, detached: bool, exited: bool, exit: int, waiter: Option<nat>, at: Where)

  const BLANK := Thread(NoState, 0, false, false, 0, None, Running)

  /** The queues a thread's one link can be on. */
  datatype Queue = NoQueue | Runq(prio: nat) | Mutexq(m: nat) | Condq(c: nat) | Reapq

  /** q: the contents of the queues, the thread that came first at the front; owner: the mutexes somebody owns. */
  datatype State = State(th: seq<Thread>, q: map<Queue, seq<nat>>, owner: map<nat, nat>, cur: nat, halted: bool)

  function Q(s: State, id: Queue): seq<nat> {
    if id in s.q then s.q[id] else []
  }

  /** The queue a thread in this condition belongs on. */
  function Home(t: Thread): Queue {
    match t.status
    case Runnable => Runq(t.prio)
    case Wait => (
      match t.at
      case InLock(m) => Mutexq(m)
      case InRelock(m) => Mutexq(m)
      case InCondWait(c, _) => Condq(c)
      case _ => NoQueue)
    case Zombie => if t.detached then Reapq else NoQueue
    case _ => NoQueue
  }

  function Remove(l: seq<nat>, u: nat): seq<nat> {
    if l == [] then [] else if l[0] == u then l[1..] else [l[0]] + Remove(l[1..], u)
  }

  function Th(s: State, u: nat): Thread {
    if u < |s.th| then s.th[u] else BLANK
  }

  function Now(s: State): Thread {
    Th(s, s.cur)
  }

  /** A change that leaves the thread where it is queued. */
  function Update(s: State, u: nat, t: Thread): State {
    if u < |s.th| then s.(th := s.th[u := t]) else s
  }

  /** A change that puts a thread on no queue at the end of the queue it now belongs on. */
  function Link(s: State, u: nat, t: Thread): State {
    var to := Home(t);
    Update(s.(q := if to == NoQueue then s.q else s.q[to := Q(s, to) + [u]]), u, t)
  }

  /** A change that takes the thread's link to the end of the queue it now belongs on. */
  function Move(s: State, u: nat, t: Thread): State {
    var from, to := Home(Th(s, u)), Home(t);
    var q := if from == NoQueue then s.q else s.q[from := Remove(Q(s, from), u)];
    var s' := s.(q := q);
    Update(s.(q := if to == NoQueue then q else q[to := Q(s', to) + [u]]), u, t)
  }

  // ---------------------------------------------------------------- the steps

  /** uthread_wake */
  function WakeUp(s: State, u: nat): State {
    if Th(s, u).status == Wait then Move(s, u, Th(s, u).(status := Runnable)) else s
  }

  function BlockAs(s: State, at: Where): State {
    Link(s, s.cur, Now(s).(status := Wait, at := at))
  }

  function Continue(s: State): State {
    Update(s, s.cur, Now(s).(at := Running))
  }

  /** The highest priority below k that has a runnable thread, or k when there is none. */
  function Highest(s: State, k: nat): nat {
    if k == 0 then 0
    else if Q(s, Runq(k - 1)) != [] then k - 1
    else if Highest(s, k - 1) == k - 1 then k
    else Highest(s, k - 1)
  }

  ghost predicate SomeRunnable(s: State) {
    Highest(s, MAX_PRIO + 1) <= MAX_PRIO
  }

  /** uthread_switch, once there is something to switch to. */
  function Dispatch(s: State): State {
    var p := Highest(s, MAX_PRIO + 1);
    if Q(s, Runq(p)) == [] then s
    else
      var u := Q(s, Runq(p))[0];
      Move(s, u, Th(s, u).(status := OnCpu)).(cur := u)
  }

  /** The first slot in state NO_STATE from k on. */
  function FreeSlot(th: seq<Thread>, k: nat): nat
    requires k <= |th|
    decreases |th| - k
  {
    if k == |th| || th[k].status == NoState then k else FreeSlot(th, k + 1)
  }

  /** For a priority out of range the process ends, once there is a slot for the thread. */
  function CreateStep(s: State, prio: int): State {
    var u := FreeSlot(s.th, 0);
    if u == |s.th| then s
    else if prio < 0 || prio > MAX_PRIO then Update(s, u, BLANK).(halted := true)
    else Link(s, u, BLANK.(status := Runnable, prio := prio))
  }

  function YieldStep(s: State): State {
    Link(s, s.cur, Now(s).(status := Runnable))
  }

  /** make_reapable, for a zombie u becoming detached, or a detached thread becoming a zombie. */
  function Reapable(s: State, u: nat, t: Thread): State {
    WakeUp(Link(s, u, t), REAPER)
  }

  function ExitStep(s: State, v: int): State {
    var t := Now(s).(status := Zombie, exit := v, exited := true);
    if t.detached then Reapable(s, s.cur, t)
    else
      var s' := Link(s, s.cur, t);
      if t.waiter.Some? then WakeUp(s', t.waiter.value) else s'
  }

  predicate ValidId(s: State, u: int) {
    0 <= u < |s.th| && s.th[u].status != NoState
  }

  /** The error uthread_join returns at once, or 0. */
  function JoinCode(s: State, u: int): int {
    if !ValidId(s, u) then ESRCH
    else if Now(s).waiter == Some(u) then EDEADLK
    else if Now(s).waiter.Some? || s.th[u].detached then EINVAL
    else 0
  }

  /** The rest of uthread_join once its target has exited. */
  function FinishJoin(s: State, u: nat): State {
    Reapable(s, u, Th(s, u).(detached := true))
  }

  function JoinLoop(s: State, u: nat): State {
    if Th(s, u).exited then FinishJoin(Continue(s), u) else BlockAs(s, InJoin(u))
  }

  function JoinStep(s: State, u: int): State {
    if JoinCode(s, u) != 0 then s
    else JoinLoop(Update(s, u, Th(s, u).(waiter := Some(s.cur))), u)
  }

  function DetachCode(s: State, u: int): int {
    if !ValidId(s, u) then ESRCH
    else if s.th[u].detached || Now(s).waiter.Some? then EINVAL
    else 0
  }

  /** For a zombie an assertion that it is detached already ends the process. */
  function DetachStep(s: State, u: int): State {
    if DetachCode(s, u) != 0 then s
    else if s.th[u].status == Zombie then s.(halted := true)
    else Update(s, u, Th(s, u).(detached := true))
  }

  function SetPrioCode(s: State, u: int, prio: int): int {
    if prio < 0 || prio > MAX_PRIO then EINVAL
    else if !ValidId(s, u) || s.th[u].status == Zombie then ESRCH
    else 0
  }

  function SetPrioStep(s: State, u: int, prio: int): State {
    if SetPrioCode(s, u, prio) != 0 then s
    else if s.th[u].status == Runnable then Move(s, u, s.th[u].(prio := prio))
    else Update(s, u, s.th[u].(prio := prio))
  }

  /** uthread_mtx_lock; queued says where the caller is while it waits in the mutex's queue. */
  function LockAs(s: State, m: nat, queued: Where): State {
    if m !in s.owner then Continue(s.(owner := s.owner[m := s.cur]))
    else if s.owner[m] == s.cur then BlockAs(s, InSelfLock(m))
    else BlockAs(s, queued)
  }

  function TryLockStep(s: State, m: nat): State {
    if m !in s.owner then s.(owner := s.owner[m := s.cur]) else s
  }

  /** uthread_mtx_unlock: the mutex goes to the first thread waiting for it. */
  function UnlockStep(s: State, m: nat): State {
    if Q(s, Mutexq(m)) == [] then s.(owner := s.owner - {m})
    else
      var next := Q(s, Mutexq(m))[0];
      WakeUp(s.(owner := s.owner[m := next]), next)
  }

  function CondWaitStep(s: State, c: nat, m: nat): State {
    BlockAs(UnlockStep(s, m), InCondWait(c, m))
  }

  function SignalStep(s: State, c: nat): State {
    if Q(s, Condq(c)) == [] then s else WakeUp(s, Q(s, Condq(c))[0])
  }

  /** Signals the first k threads. */
  function Signals(s: State, c: nat, k: nat): State {
    if k == 0 then s else SignalStep(Signals(s, c, k - 1), c)
  }

  function BroadcastStep(s: State, c: nat): State {
    Signals(s, c, |Q(s, Condq(c))|)
  }

  /** The slots in l go back to NO_STATE. */
  function Blanked(th: seq<Thread>, l: seq<nat>): seq<Thread> {
    if l == [] then th
    else
      var rest := Blanked(th, l[..|l| - 1]);
      var u := l[|l| - 1];
      if u < |rest| then rest[u := BLANK] else rest
  }

  predicate NobodyElse(th: seq<Thread>) {
    forall u :: 0 <= u < |th| && u != REAPER ==> th[u].status == NoState
  }

  /** Every thread on the reaper's queue is taken off and its slot cleared. */
  function Drained(s: State): State {
    s.(th := Blanked(s.th, Q(s, Reapq)), q := if Q(s, Reapq) == [] then s.q else s.q[Reapq := []])
  }

  /** One round of the reaper: it empties its queue and blocks again, or ends the process. */
  function ReapStep(s: State): State {
    var s' := Drained(s);
    if NobodyElse(s'.th) then s'.(halted := true) else BlockAs(s', InReaper)
  }

  /** What a thread does when it is switched to in the middle of a call. */
  function ResumeStep(s: State): State {
    match Now(s).at
    case InCondWait(c, m) => LockAs(s, m, InRelock(m))
    case InJoin(u) => JoinLoop(s, u)
    case InReaper => ReapStep(s)
    case _ => Continue(s)
  }

  datatype Step =
    | Create(prio: int)
    | Exit(v: int)
    | Join(id: int)
    | Detach(id: int)
    | Yield
    | Block
    | Wake(u: nat)
    | SetPrio(id: int, newPrio: int)
    | Lock(m: nat)
    | TryLock(m: nat)
    | Unlock(m: nat)
    | CondWait(c: nat, m: nat)
    | Signal(c: nat)
    | Broadcast(c: nat)
    | Switch
    | Resume

  function Apply(s: State, st: Step): State {
    match st
    case Create(prio) => CreateStep(s, prio)
    case Exit(v) => ExitStep(s, v)
    case Join(u) => JoinStep(s, u)
    case Detach(u) => DetachStep(s, u)
    case Yield => YieldStep(s)
    case Block => BlockAs(s, InBlock)
    case Wake(u) => WakeUp(s, u)
    case SetPrio(u, prio) => SetPrioStep(s, u, prio)
    case Lock(m) => LockAs(s, m, InLock(m))
    case TryLock(m) => TryLockStep(s, m)
    case Unlock(m) => UnlockStep(s, m)
    case CondWait(c, m) => CondWaitStep(s, c, m)
    case Signal(c) => SignalStep(s, c)
    case Broadcast(c) => BroadcastStep(s, c)
    case Switch => Dispatch(s)
    case Resume => ResumeStep(s)
  }

  /** Nobody waits for the target yet. */
  ghost predicate JoinGuard(s: State, u: int) {
    JoinCode(s, u) == 0 ==> s.th[u].waiter == None
  }

  ghost predicate DetachGuard(s: State, u: int) {
    DetachCode(s, u) == 0 && s.th[u].status != Zombie ==> s.th[u].waiter == None
  }

  ghost predicate Owns(s: State, m: nat) {
    m in s.owner && s.owner[m] == s.cur
  }

  /** uthread_wake is not called on a thread that is in a queue of a mutex or a condition variable. */
  ghost predicate WakeGuard(s: State, u: nat) {
    Th(s, u).status != NoState && (Th(s, u).status == Wait ==> Home(Th(s, u)) == NoQueue)
  }

  /** What the callers of the package see to. */
  ghost predicate CallOk(s: State, st: Step) {
    match st
    case Join(u) => JoinGuard(s, u)
    case Detach(u) => DetachGuard(s, u)
    case Wake(u) => WakeGuard(s, u)
    case Unlock(m) => Owns(s, m)
    case CondWait(_, m) => Owns(s, m)
    case _ => true
  }

  /** When a step can happen: it is the current thread's next one. */
  ghost predicate Enabled(s: State, st: Step) {
    && !s.halted
    && if st == Switch then Now(s).status != OnCpu && SomeRunnable(s)
       else Now(s).status == OnCpu && (st == Resume <==> Now(s).at != Running) && CallOk(s, st)
  }

  // ---------------------------------------------------------------- the invariant

  ghost predicate Distinct(l: seq<nat>) {
    forall j, k {:trigger l[j], l[k]} :: 0 <= j < k < |l| ==> l[j] != l[k]
  }

  /** A queue holds exactly the threads that belong on it, each once. */
  ghost predicate QueueOk(s: State, id: Queue) {
    && Distinct(Q(s, id))
    && (forall u: nat {:trigger u in Q(s, id)} :: u in Q(s, id) <==> u < |s.th| && Home(s.th[u]) == id)
  }

  ghost predicate QueuesOk(s: State) {
    forall id {:trigger Q(s, id)} :: id != NoQueue ==> QueueOk(s, id)
  }

  /** Where a thread can be, given its status, and what it owns there. */
  ghost predicate PlaceOk(s: State, u: nat)
    requires u < |s.th|
  {
    var t := s.th[u];
    && t.prio <= MAX_PRIO && (t.exited <==> t.status == Zombie)
    && (t.status == NoState ==> t == BLANK)
    && (t.status == Zombie ==> t.at == Running)
    && (t.status == Wait ==> t.at != Running)
    && (t.status == OnCpu ==> u == s.cur)
    && (t.at == InReaper <==> u == REAPER)
    && (match t.at
        case InLock(m) => t.status != Wait ==> m in s.owner && s.owner[m] == u
        case InRelock(m) => t.status != Wait ==> m in s.owner && s.owner[m] == u
        case InSelfLock(m) => m in s.owner && s.owner[m] == u
        case InCondWait(_, m) => m in s.owner ==> s.owner[m] != u
        case _ => true)
  }

  /** The thread that waits in a join is the waiter of its target, and the other way round. */
  ghost predicate JoinOk(s: State, u: nat)
    requires u < |s.th|
  {
    var t := s.th[u];
    && (t.at.InJoin? ==>
          var v := t.at.u;
          && v < |s.th| && s.th[v].waiter == Some(u) && !s.th[v].detached && s.th[v].status != NoState
          && (t.status == Wait ==> s.th[v].status != Zombie))
    && (t.waiter.Some? && !t.detached ==> t.waiter.value < |s.th| && s.th[t.waiter.value].at == InJoin(u))
  }

  ghost predicate OwnersOk(s: State) {
    forall m {:trigger Q(s, Mutexq(m))} {:trigger m in s.owner} ::
      if m in s.owner then s.owner[m] < |s.th| && s.owner[m] !in Q(s, Mutexq(m)) else Q(s, Mutexq(m)) == []
  }

  ghost predicate PlacesOk(s: State) {
    forall u: nat {:trigger PlaceOk(s, u)} :: u < |s.th| ==> PlaceOk(s, u)
  }

  ghost predicate JoinsOk(s: State) {
    forall u: nat {:trigger JoinOk(s, u)} :: u < |s.th| ==> JoinOk(s, u)
  }

  ghost predicate ReaperOk(s: State) {
    Th(s, REAPER).status == Wait ==> Q(s, Reapq) == []
  }

  ghost predicate Inv(s: State) {
    && |s.th| == MAX_THREADS && s.cur < MAX_THREADS
    && QueuesOk(s) && PlacesOk(s) && JoinsOk(s) && OwnersOk(s) && ReaperOk(s)
  }

  // ---------------------------------------------------------------- queues and moves

  lemma {:induction false} RemoveIs(l: seq<nat>, u: nat)
    requires Distinct(l)
    ensures Distinct(Remove(l, u))
    ensures forall v: nat {:trigger v in Remove(l, u)} :: v in Remove(l, u) <==> v in l && v != u
  {
    if l != [] {
      var rest := Remove(l[1..], u);
      assert Distinct(l[1..]);
      RemoveIs(l[1..], u);
      assert forall v: nat :: v in l <==> v == l[0] || v in l[1..];
      assert l[0] !in l[1..];
      if l[0] != u {
        assert forall v: nat :: v in [l[0]] + rest <==> v == l[0] || v in rest;
        assert l[0] !in rest;
      }
    }
  }

  lemma AppendIs(l: seq<nat>, u: nat)
    requires Distinct(l) && u !in l
    ensures Distinct(l + [u])
    ensures forall v: nat {:trigger v in l + [u]} :: v in l + [u] <==> v in l || v == u
  {
  }

  lemma MoveKeepsQueue(s: State, u: nat, t: Thread, id: Queue)
    requires QueuesOk(s) && u < |s.th| && id != NoQueue
    ensures QueueOk(Move(s, u, t), id)
  {
    var from, to := Home(s.th[u]), Home(t);
    var l := Q(s, id);
    var l' := if id == from then Remove(l, u) else l;
    RemoveIs(l, u);
    assert QueueOk(s, id);
    assert u !in l';
    AppendIs(l', u);
    var s' := Move(s, u, t);
    assert Q(s', id) == if id == to then l' + [u] else l';
  }

  lemma MoveKeepsQueues(s: State, u: nat, t: Thread)
    requires QueuesOk(s) && u < |s.th|
    ensures QueuesOk(Move(s, u, t))
  {
    forall id | id != NoQueue ensures QueueOk(Move(s, u, t), id) {
      MoveKeepsQueue(s, u, t, id);
    }
  }

  lemma UpdateKeepsQueues(s: State, u: nat, t: Thread)
    requires QueuesOk(s) && u < |s.th| && Home(t) == Home(s.th[u])
    ensures QueuesOk(Update(s, u, t))
  {
    var s' := Update(s, u, t);
    forall id | id != NoQueue ensures QueueOk(s', id) {
      assert QueueOk(s, id);
      assert Q(s', id) == Q(s, id);
    }
  }

  // ---------------------------------------------------------------- what a change to one thread keeps

  lemma MoveOwners(s: State, u: nat, t: Thread)
    requires OwnersOk(s) && QueuesOk(s) && u < |s.th|
    requires Home(t).Mutexq? ==> Home(t).m in s.owner && s.owner[Home(t).m] != u
    ensures OwnersOk(Move(s, u, t))
  {
    var s' := Move(s, u, t);
    forall m: nat
      ensures if m in s'.owner then s'.owner[m] < |s'.th| && s'.owner[m] !in Q(s', Mutexq(m)) else Q(s', Mutexq(m)) == []
    {
      assert QueueOk(s, Mutexq(m));
      MoveKeepsQueue(s, u, t, Mutexq(m));
    }
  }

  lemma ThPlaces(s: State, s': State, u: nat)
    requires PlacesOk(s) && u < |s.th| && s'.owner == s.owner && s'.cur == s.cur
    requires |s'.th| == |s.th| && s'.th == s.th[u := s'.th[u]] && PlaceOk(s', u)
    ensures PlacesOk(s')
  {
    forall v: nat | v < |s'.th| ensures PlaceOk(s', v) {
      assert PlaceOk(s, v);
    }
  }

  /** t' is in the same join as t, if any, and is as good a target of one. */
  ghost predicate JoinSame(t: Thread, t': Thread) {
    && t'.at.InJoin? == t.at.InJoin? && (t.at.InJoin? ==> t'.at == t.at)
    && t'.waiter == t.waiter && t'.detached == t.detached
    && (t'.status == NoState <==> t.status == NoState) && (t'.status == Zombie <==> t.status == Zombie)
  }

  lemma ThJoins(s: State, s': State, u: nat)
    requires JoinsOk(s) && u < |s.th| && |s'.th| == |s.th| && s'.th == s.th[u := s'.th[u]]
    requires JoinSame(s.th[u], s'.th[u])
    requires s'.th[u].at.InJoin? && s'.th[u].status == Wait ==> s.th[u].status == Wait || Th(s, s.th[u].at.u).status != Zombie
    ensures JoinsOk(s')
  {
    forall v: nat | v < |s'.th| ensures JoinOk(s', v) {
      assert JoinOk(s, v);
    }
  }

  // ---------------------------------------------------------------- waking and blocking

  lemma WakeKeepsMost(s: State, u: nat)
    requires QueuesOk(s) && PlacesOk(s) && OwnersOk(s) && u < |s.th|
    requires Home(s.th[u]).Mutexq? ==> Home(s.th[u]).m in s.owner && s.owner[Home(s.th[u]).m] == u
    ensures var s' := WakeUp(s, u); QueuesOk(s') && PlacesOk(s') && OwnersOk(s')
  {
    if s.th[u].status == Wait {
      var s' := WakeUp(s, u);
      MoveKeepsQueues(s, u, s'.th[u]);
      MoveOwners(s, u, s'.th[u]);
      assert PlaceOk(s, u);
      ThPlaces(s, s', u);
    }
  }

  lemma WakeKeepsJoins(s: State, u: nat)
    requires JoinsOk(s) && ReaperOk(s) && u < |s.th|
    ensures JoinsOk(WakeUp(s, u)) && ReaperOk(WakeUp(s, u))
  {
    if s.th[u].status == Wait { ThJoins(s, WakeUp(s, u), u); }
  }

  lemma WakeKeeps(s: State, u: nat)
    requires Inv(s) && u < |s.th|
    requires Home(s.th[u]).Mutexq? ==> Home(s.th[u]).m in s.owner && s.owner[Home(s.th[u]).m] == u
    ensures Inv(WakeUp(s, u))
  {
    WakeKeepsMost(s, u);
    WakeKeepsJoins(s, u);
  }

  /** What being suspended at a place asks for. */
  ghost predicate MayBlock(s: State, at: Where) {
    match at
    case Running => false
    case InBlock => s.cur != REAPER
    case InLock(m) => s.cur != REAPER && m in s.owner && s.owner[m] != s.cur
    case InRelock(m) => s.cur != REAPER && m in s.owner && s.owner[m] != s.cur
    case InSelfLock(m) => s.cur != REAPER && m in s.owner && s.owner[m] == s.cur
    case InCondWait(_, m) => s.cur != REAPER && (m in s.owner ==> s.owner[m] != s.cur)
    case InJoin(u) => false
    case InReaper => s.cur == REAPER && Q(s, Reapq) == []
  }

  lemma BlockKeeps(s: State, at: Where)
    requires Inv(s) && Now(s).status == OnCpu && !Now(s).at.InJoin? && MayBlock(s, at)
    ensures Inv(BlockAs(s, at))
  {
    var s' := BlockAs(s, at);
    MoveKeepsQueues(s, s.cur, s'.th[s.cur]);
    MoveOwners(s, s.cur, s'.th[s.cur]);
    assert PlaceOk(s, s.cur);
    ThPlaces(s, s', s.cur);
    ThJoins(s, s', s.cur);
  }

  lemma ContinueKeeps(s: State)
    requires Inv(s) && Now(s).status == OnCpu && !Now(s).at.InJoin? && !Now(s).at.InReaper?
    ensures Inv(Continue(s))
  {
    var s' := Continue(s);
    assert PlaceOk(s, s.cur);
    UpdateKeepsQueues(s, s.cur, s'.th[s.cur]);
    ThPlaces(s, s', s.cur);
    ThJoins(s, s', s.cur);
  }

  // ---------------------------------------------------------------- scheduling

  lemma {:induction false} HighestIs(s: State, k: nat)
    ensures Highest(s, k) <= k
    ensures Highest(s, k) < k ==> Q(s, Runq(Highest(s, k))) != []
    ensures forall p: nat {:trigger Runq(p)} :: Highest(s, k) < p < k ==> Q(s, Runq(p)) == []
    ensures Highest(s, k) == k ==> forall p: nat {:trigger Runq(p)} :: p < k ==> Q(s, Runq(p)) == []
  {
    if k != 0 { HighestIs(s, k - 1); }
  }

  lemma DispatchKeeps(s: State)
    requires Inv(s) && Now(s).status != OnCpu && SomeRunnable(s)
    ensures Inv(Dispatch(s)) && Now(Dispatch(s)).status == OnCpu
  {
    HighestIs(s, MAX_PRIO + 1);
    var p := Highest(s, MAX_PRIO + 1);
    var u, s' := Q(s, Runq(p))[0], Dispatch(s);
    assert QueueOk(s, Runq(p)) && u in Q(s, Runq(p));
    assert PlaceOk(s, u);
    MoveKeepsQueues(s, u, s'.th[u]);
    MoveOwners(s, u, s'.th[u]);
    var mid := s'.(cur := s.cur);
    forall id | id != NoQueue ensures QueueOk(s', id) { assert QueueOk(mid, id); assert Q(s', id) == Q(mid, id); }
    forall m: nat
      ensures if m in s'.owner then s'.owner[m] < |s'.th| && s'.owner[m] !in Q(s', Mutexq(m)) else Q(s', Mutexq(m)) == []
    {
      assert Q(s', Mutexq(m)) == Q(mid, Mutexq(m));
    }
    ThJoins(s, s', u);
    forall v: nat | v < |s'.th| ensures PlaceOk(s', v) {
      assert PlaceOk(s, v);
    }
  }

  lemma YieldKeeps(s: State)
    requires Inv(s) && Now(s).status == OnCpu && Now(s).at == Running
    ensures Inv(YieldStep(s))
  {
    var s' := YieldStep(s);
    assert PlaceOk(s, s.cur);
    MoveKeepsQueues(s, s.cur, s'.th[s.cur]);
    MoveOwners(s, s.cur, s'.th[s.cur]);
    ThPlaces(s, s', s.cur);
    ThJoins(s, s', s.cur);
  }

  lemma SetPrioKeeps(s: State, u: int, prio: int)
    requires Inv(s)
    ensures Inv(SetPrioStep(s, u, prio))
  {
    if SetPrioCode(s, u, prio) == 0 {
      var s' := SetPrioStep(s, u, prio);
      assert PlaceOk(s, u);
      if s.th[u].status == Runnable {
        MoveKeepsQueues(s, u, s'.th[u]);
        MoveOwners(s, u, s'.th[u]);
      } else {
        UpdateKeepsQueues(s, u, s'.th[u]);
      }
      ThPlaces(s, s', u);
      ThJoins(s, s', u);
    }
  }

  lemma {:induction false} FreeSlotIs(th: seq<Thread>, k: nat)
    requires k <= |th|
    ensures k <= FreeSlot(th, k) <= |th|
    ensures FreeSlot(th, k) < |th| ==> th[FreeSlot(th, k)].status == NoState
    ensures forall j :: k <= j < FreeSlot(th, k) ==> th[j].status != NoState
    decreases |th| - k
  {
    if k < |th| && th[k].status != NoState { FreeSlotIs(th, k + 1); }
  }

  lemma HaltKeeps(s: State)
    requires Inv(s)
    ensures Inv(s.(halted := true))
  {
    var s' := s.(halted := true);
    forall id | id != NoQueue ensures QueueOk(s', id) { assert QueueOk(s, id); assert Q(s', id) == Q(s, id); }
    forall m: nat
      ensures if m in s'.owner then s'.owner[m] < |s'.th| && s'.owner[m] !in Q(s', Mutexq(m)) else Q(s', Mutexq(m)) == []
    {
      assert Q(s', Mutexq(m)) == Q(s, Mutexq(m));
    }
    forall u: nat | u < |s'.th| ensures PlaceOk(s', u) { assert PlaceOk(s, u); }
    forall u: nat | u < |s'.th| ensures JoinOk(s', u) { assert JoinOk(s, u); }
  }

  lemma CreateKeeps(s: State, prio: int)
    requires Inv(s)
    ensures Inv(CreateStep(s, prio))
  {
    FreeSlotIs(s.th, 0);
    var u, s' := FreeSlot(s.th, 0), CreateStep(s, prio);
    if u < |s.th| {
      assert PlaceOk(s, u);
      if prio < 0 || prio > MAX_PRIO {
        assert s' == s.(halted := true);
        HaltKeeps(s);
        return;
      }
      MoveKeepsQueues(s, u, s'.th[u]);
      MoveOwners(s, u, s'.th[u]);
      ThPlaces(s, s', u);
      forall v: nat | v < |s'.th| ensures JoinOk(s', v) {
        assert JoinOk(s, v);
      }
    }
  }

  // ---------------------------------------------------------------- mutexes and condition variables

  lemma AcquireKeeps(s: State, m: nat)
    requires Inv(s) && m !in s.owner && Now(s).at == Running
    ensures Inv(s.(owner := s.owner[m := s.cur]))
  {
    var s' := s.(owner := s.owner[m := s.cur]);
    assert Q(s, Mutexq(m)) == [];
    forall id | id != NoQueue ensures QueueOk(s', id) { assert QueueOk(s, id); assert Q(s', id) == Q(s, id); }
    forall k: nat
      ensures if k in s'.owner then s'.owner[k] < |s'.th| && s'.owner[k] !in Q(s', Mutexq(k)) else Q(s', Mutexq(k)) == []
    {
      assert Q(s', Mutexq(k)) == Q(s, Mutexq(k));
    }
    forall u: nat | u < |s'.th| ensures PlaceOk(s', u) { assert PlaceOk(s, u); }
    forall u: nat | u < |s'.th| ensures JoinOk(s', u) { assert JoinOk(s, u); }
  }

  lemma LockKeeps(s: State, m: nat, queued: Where)
    requires Inv(s) && Now(s).status == OnCpu && !Now(s).at.InJoin? && s.cur != REAPER
    requires queued == InLock(m) || queued == InRelock(m)
    ensures Inv(LockAs(s, m, queued))
  {
    assert PlaceOk(s, s.cur);
    if m !in s.owner {
      ContinueKeeps(s);
      AcquireKeeps(Continue(s), m);
    } else if s.owner[m] == s.cur {
      BlockKeeps(s, InSelfLock(m));
    } else {
      BlockKeeps(s, queued);
    }
  }

  /** Whoever runs and owns m is the only one placed where that takes owning m. */
  lemma OnlyOwner(s: State, m: nat, u: nat)
    requires PlacesOk(s) && Owns(s, m) && Now(s).at == Running && u < |s.th| && s.cur < |s.th|
    ensures s.th[u].at != InSelfLock(m)
    ensures (s.th[u].at == InLock(m) || s.th[u].at == InRelock(m)) ==> s.th[u].status == Wait
  {
    assert PlaceOk(s, u);
  }

  lemma ReleaseKeeps(s: State, m: nat)
    requires Inv(s) && Owns(s, m) && Now(s).at == Running && Q(s, Mutexq(m)) == []
    ensures Inv(s.(owner := s.owner - {m}))
  {
    var s' := s.(owner := s.owner - {m});
    forall id | id != NoQueue ensures QueueOk(s', id) { assert QueueOk(s, id); assert Q(s', id) == Q(s, id); }
    forall k: nat
      ensures if k in s'.owner then s'.owner[k] < |s'.th| && s'.owner[k] !in Q(s', Mutexq(k)) else Q(s', Mutexq(k)) == []
    {
      assert Q(s', Mutexq(k)) == Q(s, Mutexq(k));
    }
    forall u: nat | u < |s'.th| ensures PlaceOk(s', u) {
      assert PlaceOk(s, u);
      OnlyOwner(s, m, u);
      if s.th[u].status == Wait && (s.th[u].at == InLock(m) || s.th[u].at == InRelock(m)) {
        assert QueueOk(s, Mutexq(m));
      }
    }
    forall u: nat | u < |s'.th| ensures JoinOk(s', u) { assert JoinOk(s, u); }
  }

  lemma HandOffPlaces(s: State, m: nat, next: nat)
    requires Inv(s) && Owns(s, m) && Now(s).at == Running && next < |s.th| && s.th[next].status == Wait
    requires s.th[next].at == InLock(m) || s.th[next].at == InRelock(m)
    ensures PlacesOk(WakeUp(s.(owner := s.owner[m := next]), next))
  {
    var s' := WakeUp(s.(owner := s.owner[m := next]), next);
    forall u: nat | u < |s'.th| ensures PlaceOk(s', u) {
      assert PlaceOk(s, u);
      OnlyOwner(s, m, u);
    }
  }

  lemma HandOffOwners(s: State, m: nat)
    requires QueuesOk(s) && OwnersOk(s) && Owns(s, m) && Q(s, Mutexq(m)) != [] && Q(s, Mutexq(m))[0] < |s.th|
    requires Home(Th(s, Q(s, Mutexq(m))[0])) == Mutexq(m)
    ensures OwnersOk(UnlockStep(s, m))
  {
    var next := Q(s, Mutexq(m))[0];
    var s' := UnlockStep(s, m);
    assert QueueOk(s, Mutexq(m));
    forall k: nat
      ensures if k in s'.owner then s'.owner[k] < |s'.th| && s'.owner[k] !in Q(s', Mutexq(k)) else Q(s', Mutexq(k)) == []
    {
      assert Q(s', Mutexq(k)) == if k == m then Q(s, Mutexq(m))[1..] else Q(s, Mutexq(k));
    }
  }

  /** The mutex goes to the thread that waited longest, which can run, and nothing else changes hands. */
  lemma HandOffKeeps(s: State, m: nat)
    requires Inv(s) && Owns(s, m) && Now(s).at == Running && Q(s, Mutexq(m)) != []
    ensures Inv(UnlockStep(s, m))
    ensures var s', next := UnlockStep(s, m), Q(s, Mutexq(m))[0];
      && s'.owner == s.owner[m := next] && next != s.cur && next < |s'.th| && s'.th[next].status == Runnable
      && Q(s', Mutexq(m)) == Q(s, Mutexq(m))[1..] && next in Q(s', Runq(s.th[next].prio))
  {
    var next := Q(s, Mutexq(m))[0];
    var s1 := s.(owner := s.owner[m := next]);
    assert QueueOk(s, Mutexq(m)) && next in Q(s, Mutexq(m));
    forall id | id != NoQueue ensures QueueOk(s1, id) { assert QueueOk(s, id); assert Q(s1, id) == Q(s, id); }
    MoveKeepsQueues(s1, next, s.th[next].(status := Runnable));
    HandOffPlaces(s, m, next);
    HandOffOwners(s, m);
    ThJoins(s, WakeUp(s1, next), next);
  }

  lemma UnlockKeeps(s: State, m: nat)
    requires Inv(s) && Owns(s, m) && Now(s).status == OnCpu && Now(s).at == Running
    ensures Inv(UnlockStep(s, m)) && Now(UnlockStep(s, m)) == Now(s) && UnlockStep(s, m).cur == s.cur
  {
    if Q(s, Mutexq(m)) == [] {
      ReleaseKeeps(s, m);
    } else {
      HandOffKeeps(s, m);
      assert QueueOk(s, Mutexq(m)) && Q(s, Mutexq(m))[0] in Q(s, Mutexq(m));
    }
  }

  lemma CondWaitKeeps(s: State, c: nat, m: nat)
    requires Inv(s) && Owns(s, m) && Now(s).status == OnCpu && Now(s).at == Running
    ensures Inv(CondWaitStep(s, c, m))
  {
    UnlockKeeps(s, m);
    assert PlaceOk(s, s.cur);
    BlockKeeps(UnlockStep(s, m), InCondWait(c, m));
  }

  lemma SignalKeeps(s: State, c: nat)
    requires Inv(s) && Now(s).status == OnCpu
    ensures Inv(SignalStep(s, c)) && Now(SignalStep(s, c)) == Now(s) && SignalStep(s, c).cur == s.cur
  {
    if Q(s, Condq(c)) != [] {
      var u := Q(s, Condq(c))[0];
      assert QueueOk(s, Condq(c)) && u in Q(s, Condq(c));
      WakeKeeps(s, u);
    }
  }

  lemma {:induction false} SignalsKeep(s: State, c: nat, k: nat)
    requires Inv(s) && Now(s).status == OnCpu
    ensures Inv(Signals(s, c, k)) && Now(Signals(s, c, k)) == Now(s) && Signals(s, c, k).cur == s.cur
  {
    if k != 0 {
      SignalsKeep(s, c, k - 1);
      SignalKeeps(Signals(s, c, k - 1), c);
    }
  }

  // ---------------------------------------------------------------- exit, join and detach

  lemma LinkKeepsMost(s: State, u: nat, t: Thread)
    requires QueuesOk(s) && PlacesOk(s) && OwnersOk(s) && u < |s.th| && Home(s.th[u]) == NoQueue
    requires !Home(t).Mutexq? && PlaceOk(Link(s, u, t), u)
    ensures var s' := Link(s, u, t); QueuesOk(s') && PlacesOk(s') && OwnersOk(s')
  {
    assert Link(s, u, t) == Move(s, u, t);
    MoveKeepsQueues(s, u, t);
    MoveOwners(s, u, t);
    ThPlaces(s, Link(s, u, t), u);
  }

  /** Waking the reaper after something came onto its queue. */
  lemma ReapableKeepsMost(s: State, u: nat, t: Thread)
    requires QueuesOk(s) && PlacesOk(s) && OwnersOk(s) && |s.th| == MAX_THREADS && u < |s.th| && u != REAPER
    requires Home(s.th[u]) == NoQueue && Home(t) == Reapq && PlaceOk(Link(s, u, t), u)
    ensures var s' := Reapable(s, u, t);
      QueuesOk(s') && PlacesOk(s') && OwnersOk(s') && ReaperOk(s') && s'.th[REAPER].status != Wait
    ensures Q(Reapable(s, u, t), Reapq) == Q(s, Reapq) + [u]
  {
    assert PlaceOk(s, REAPER);
    LinkKeepsMost(s, u, t);
    WakeKeepsMost(Link(s, u, t), REAPER);
  }

  lemma ExitKeepsMost(s: State, v: int)
    requires Inv(s) && Now(s).status == OnCpu && Now(s).at == Running
    ensures var s' := ExitStep(s, v); QueuesOk(s') && PlacesOk(s') && OwnersOk(s') && ReaperOk(s')
  {
    var u := s.cur;
    var t := Now(s).(status := Zombie, exit := v, exited := true);
    assert PlaceOk(s, u) && JoinOk(s, u) && PlaceOk(s, REAPER);
    if t.detached {
      ReapableKeepsMost(s, u, t);
    } else {
      LinkKeepsMost(s, u, t);
      if t.waiter.Some? { WakeKeepsMost(Link(s, u, t), t.waiter.value); }
    }
  }

  lemma ExitKeepsJoins(s: State, v: int)
    requires JoinsOk(s) && |s.th| == MAX_THREADS && s.cur < |s.th| && Now(s).at == Running && PlaceOk(s, REAPER)
    requires Now(s).status == OnCpu
    ensures JoinsOk(ExitStep(s, v))
  {
    var s' := ExitStep(s, v);
    assert JoinOk(s, s.cur);
    forall w: nat | w < |s'.th| ensures JoinOk(s', w) {
      assert JoinOk(s, w);
      ExitThread(s, v, w);
      if w != s.cur && s.th[w].at.InJoin? { ExitThread(s, v, s.th[w].at.u); }
      if s.th[w].waiter.Some? && s.th[w].waiter.value < |s.th| { ExitThread(s, v, s.th[w].waiter.value); }
    }
  }

  /** What uthread_exit does to each thread: to the caller, to the caller's waiter and to the reaper. */
  lemma ExitThread(s: State, v: int, w: nat)
    requires s.cur < |s.th| && w < |s.th| && Now(s).status == OnCpu && s.th[REAPER].at == InReaper && Now(s).at == Running
    ensures |ExitStep(s, v).th| == |s.th|
    ensures var t, t' := s.th[w], ExitStep(s, v).th[w];
      if w == s.cur then t' == t.(status := Zombie, exit := v, exited := true)
      else t' == t || (t.status == Wait && t' == t.(status := Runnable)
                       && if Now(s).detached then w == REAPER else Now(s).waiter == Some(w))
    ensures !Now(s).detached && Now(s).waiter == Some(w) ==> ExitStep(s, v).th[w].status != Wait
  {
  }

  lemma ExitKeeps(s: State, v: int)
    requires Inv(s) && Now(s).status == OnCpu && Now(s).at == Running
    ensures Inv(ExitStep(s, v))
  {
    assert PlaceOk(s, REAPER);
    ExitKeepsMost(s, v);
    ExitKeepsJoins(s, v);
  }

  /** Nobody waits for u in a join, and apart from what u's waiter field says joins are in order. */
  ghost predicate JoinsBut(s: State, u: nat) {
    forall v: nat {:trigger JoinOk(s, v)} :: v < |s.th| ==> s.th[v].at != InJoin(u) && (v != u ==> JoinOk(s, v))
  }

  lemma FinishJoinKeeps(s: State, u: nat)
    requires |s.th| == MAX_THREADS && s.cur < MAX_THREADS
    requires QueuesOk(s) && PlacesOk(s) && OwnersOk(s) && JoinsBut(s, u)
    requires u < |s.th| && s.th[u].status == Zombie && !s.th[u].detached
    ensures Inv(FinishJoin(s, u)) && Q(FinishJoin(s, u), Reapq) == Q(s, Reapq) + [u]
  {
    var s' := FinishJoin(s, u);
    assert PlaceOk(s, u);
    assert PlaceOk(s, REAPER);
    ReapableKeepsMost(s, u, s.th[u].(detached := true));
    forall w: nat | w < |s'.th| ensures JoinOk(s', w) {
      if w != u { assert JoinOk(s, w); }
      assert JoinOk(s, w) ==> s.th[w].at != InJoin(u);
      assert PlaceOk(s, w);
    }
  }

  lemma ResumeJoinKeeps(s: State, u: nat)
    requires Inv(s) && Now(s).status == OnCpu && Now(s).at == InJoin(u)
    ensures Inv(JoinLoop(s, u))
  {
    var c := s.cur;
    assert PlaceOk(s, c) && JoinOk(s, c) && PlaceOk(s, u);
    if s.th[u].exited {
      var s1 := Continue(s);
      UpdateKeepsQueues(s, c, s1.th[c]);
      ThPlaces(s, s1, c);
      forall v: nat | v < |s1.th| ensures s1.th[v].at != InJoin(u) && (v != u ==> JoinOk(s1, v)) {
        assert JoinOk(s, v);
      }
      FinishJoinKeeps(s1, u);
    } else {
      var s' := BlockAs(s, InJoin(u));
      LinkKeepsMost(s, c, s'.th[c]);
      ThJoins(s, s', c);
    }
  }

  /** The target of a join gets its waiter; until the join is through, that is all that is not in order. */
  lemma WaiterSet(s: State, u: nat)
    requires Inv(s) && Now(s).status == OnCpu && Now(s).at == Running && JoinCode(s, u) == 0 && s.th[u].waiter == None
    ensures var s1 := Update(s, u, Th(s, u).(waiter := Some(s.cur)));
      QueuesOk(s1) && PlacesOk(s1) && OwnersOk(s1) && ReaperOk(s1) && JoinsBut(s1, u)
  {
    var s1 := Update(s, u, Th(s, u).(waiter := Some(s.cur)));
    assert PlaceOk(s, u) && JoinOk(s, u);
    UpdateKeepsQueues(s, u, s1.th[u]);
    ThPlaces(s, s1, u);
    forall v: nat | v < |s1.th| ensures s1.th[v].at != InJoin(u) && (v != u ==> JoinOk(s1, v)) {
      assert JoinOk(s, v);
    }
    assert OwnersOk(s1) by {
      forall m: nat
        ensures if m in s1.owner then s1.owner[m] < |s1.th| && s1.owner[m] !in Q(s1, Mutexq(m)) else Q(s1, Mutexq(m)) == []
      {
        assert Q(s1, Mutexq(m)) == Q(s, Mutexq(m));
      }
    }
  }

  lemma JoinBlocks(s: State, u: nat)
    requires Inv(s) && Now(s).status == OnCpu && Now(s).at == Running && JoinCode(s, u) == 0 && s.th[u].waiter == None
    requires !s.th[u].exited
    ensures Inv(JoinStep(s, u))
  {
    var c := s.cur;
    var s1 := Update(s, u, Th(s, u).(waiter := Some(c)));
    var s' := BlockAs(s1, InJoin(u));
    WaiterSet(s, u);
    assert PlaceOk(s1, c) && PlaceOk(s1, u) && JoinOk(s, u);
    LinkKeepsMost(s1, c, s'.th[c]);
    forall v: nat | v < |s'.th| ensures JoinOk(s', v) {
      assert v != u ==> JoinOk(s1, v);
      assert s1.th[v].at != InJoin(u);
      assert JoinOk(s, v);
    }
  }

  lemma JoinKeeps(s: State, u: int)
    requires Inv(s) && Now(s).status == OnCpu && Now(s).at == Running && JoinGuard(s, u)
    ensures Inv(JoinStep(s, u))
  {
    if JoinCode(s, u) == 0 {
      assert PlaceOk(s, u);
      if s.th[u].exited {
        WaiterSet(s, u);
        var s1 := Update(s, u, Th(s, u).(waiter := Some(s.cur)));
        assert Continue(s1) == s1;
        FinishJoinKeeps(s1, u);
      } else {
        JoinBlocks(s, u);
      }
    }
  }

  lemma DetachKeeps(s: State, u: int)
    requires Inv(s) && Now(s).status == OnCpu && DetachGuard(s, u)
    ensures Inv(DetachStep(s, u))
  {
    if DetachCode(s, u) == 0 {
      if s.th[u].status == Zombie {
        HaltKeeps(s);
      } else {
        var s' := DetachStep(s, u);
        assert PlaceOk(s, u);
        UpdateKeepsQueues(s, u, s'.th[u]);
        ThPlaces(s, s', u);
        forall v: nat | v < |s'.th| ensures JoinOk(s', v) {
          assert JoinOk(s, v);
        }
      }
    }
  }

  // ---------------------------------------------------------------- the reaper

  lemma {:induction false} BlankedIs(th: seq<Thread>, l: seq<nat>)
    ensures |Blanked(th, l)| == |th|
    ensures forall u: nat {:trigger Blanked(th, l)[u]} :: u < |th| ==> Blanked(th, l)[u] == if u in l then BLANK else th[u]
  {
    if l != [] {
      BlankedIs(th, l[..|l| - 1]);
      assert l == l[..|l| - 1] + [l[|l| - 1]];
    }
  }

  /** The reaper's round: every zombie on its queue goes back to NO_STATE, nothing else does, and the queue is empty. */
  lemma DrainKeeps(s: State)
    requires Inv(s)
    ensures var s' := Drained(s);
      && Inv(s') && Q(s', Reapq) == []
      && forall u: nat :: u < |s.th| ==> s'.th[u] == if s.th[u].status == Zombie && s.th[u].detached then BLANK else s.th[u]
  {
    var l := Q(s, Reapq);
    var s' := Drained(s);
    BlankedIs(s.th, l);
    assert QueueOk(s, Reapq);
    forall u: nat | u < |s.th| ensures u in l <==> s.th[u].status == Zombie && s.th[u].detached { assert PlaceOk(s, u); }
    forall id | id != NoQueue ensures QueueOk(s', id) { assert QueueOk(s, id); assert id != Reapq ==> Q(s', id) == Q(s, id); }
    forall m: nat
      ensures if m in s'.owner then s'.owner[m] < |s'.th| && s'.owner[m] !in Q(s', Mutexq(m)) else Q(s', Mutexq(m)) == []
    {
      assert Q(s', Mutexq(m)) == Q(s, Mutexq(m));
    }
    forall u: nat | u < |s'.th| ensures PlaceOk(s', u) { assert PlaceOk(s, u); }
    forall u: nat | u < |s'.th| ensures JoinOk(s', u) {
      assert JoinOk(s, u);
      if s.th[u].waiter.Some? && !s.th[u].detached { assert PlaceOk(s, s.th[u].waiter.value); }
    }
  }

  lemma ReapKeeps(s: State)
    requires Inv(s) && Now(s).status == OnCpu && Now(s).at == InReaper
    ensures Inv(ReapStep(s))
  {
    assert PlaceOk(s, s.cur);
    DrainKeeps(s);
    var s' := Drained(s);
    if NobodyElse(s'.th) {
      HaltKeeps(s');
    } else {
      BlockKeeps(s', InReaper);
    }
  }

  // ---------------------------------------------------------------- runs

  lemma ResumeKeeps(s: State)
    requires Inv(s) && Now(s).status == OnCpu && Now(s).at != Running
    ensures Inv(ResumeStep(s))
  {
    assert PlaceOk(s, s.cur);
    match Now(s).at
    case InCondWait(c, m) => LockKeeps(s, m, InRelock(m));
    case InJoin(u) => ResumeJoinKeeps(s, u);
    case InReaper => ReapKeeps(s);
    case _ => ContinueKeeps(s);
  }

  /** Every step keeps the invariant. */
  lemma StepKeeps(s: State, st: Step)
    requires Inv(s) && Enabled(s, st)
    ensures Inv(Apply(s, st))
  {
    assert PlaceOk(s, s.cur);
    match st
    case Create(prio) => CreateKeeps(s, prio);
    case Exit(v) => ExitKeeps(s, v);
    case Join(u) => JoinKeeps(s, u);
    case Detach(u) => DetachKeeps(s, u);
    case Yield => YieldKeeps(s);
    case Block => BlockKeeps(s, InBlock);
    case Wake(u) => WakeKeeps(s, u);
    case SetPrio(u, prio) => SetPrioKeeps(s, u, prio);
    case Lock(m) => LockKeeps(s, m, InLock(m));
    case TryLock(m) => if m !in s.owner { AcquireKeeps(s, m); }
    case Unlock(m) => UnlockKeeps(s, m);
    case CondWait(c, m) => CondWaitKeeps(s, c, m);
    case Signal(c) => SignalKeeps(s, c);
    case Broadcast(c) => SignalsKeep(s, c, |Q(s, Condq(c))|);
    case Switch => DispatchKeeps(s);
    case Resume => ResumeKeeps(s);
  }

  function Run(s: State, steps: seq<Step>): State
    decreases steps
  {
    if steps == [] then s else Run(Apply(s, steps[0]), steps[1..])
  }

  ghost predicate AllEnabled(s: State, steps: seq<Step>)
    decreases steps
  {
    steps == [] || (Enabled(s, steps[0]) && AllEnabled(Apply(s, steps[0]), steps[1..]))
  }

  /** After uthread_init: the reaper waits, and the first thread, detached, runs. */
  function Initial(): State {
    State([Thread(Wait, MAX_PRIO, false, false, 0, None, InReaper), Thread(OnCpu, MAX_PRIO, true, false, 0, None, Running)]
          + seq(MAX_THREADS - 2, _ => BLANK), map[], map[], 1, false)
  }

  lemma InitialOk()
    ensures Inv(Initial())
  {
    var s := Initial();
    forall u: nat | u < |s.th| ensures PlaceOk(s, u) && JoinOk(s, u) {
      assert u >= 2 ==> s.th[u] == BLANK;
    }
    forall id | id != NoQueue ensures QueueOk(s, id) {
      forall u: nat | u < |s.th| ensures Home(s.th[u]) != id {
        assert u >= 2 ==> s.th[u] == BLANK;
      }
    }
  }

  lemma {:induction false} RunKeeps(s: State, steps: seq<Step>)
    requires Inv(s) && AllEnabled(s, steps)
    ensures Inv(Run(s, steps))
    decreases steps
  {
    if steps != [] {
      StepKeeps(s, steps[0]);
      RunKeeps(Apply(s, steps[0]), steps[1..]);
    }
  }

  /** Over every run from the start a thread is on at most one queue, and its status says which. */
  lemma LinkIsExclusive(steps: seq<Step>, u: nat, id: Queue, id': Queue)
    requires AllEnabled(Initial(), steps) && u < MAX_THREADS && id != NoQueue && id' != NoQueue
    ensures var s := Run(Initial(), steps);
      && |s.th| == MAX_THREADS
      && (u in Q(s, id) && u in Q(s, id') ==> id == id')
      && (forall p: nat :: u in Q(s, Runq(p)) <==> s.th[u].status == Runnable && s.th[u].prio == p)
      && (s.th[u].status == OnCpu ==> u == s.cur && u !in Q(s, id))
      && (s.th[u].status == NoState ==> u !in Q(s, id))
      && (s.th[u].status == Wait && u in Q(s, id) ==> id.Mutexq? || id.Condq?)
      && (s.th[u].status == Zombie ==> (u in Q(s, id) <==> id == Reapq && s.th[u].detached))
      && Distinct(Q(s, id))
  {
    InitialOk();
    RunKeeps(Initial(), steps);
    var s := Run(Initial(), steps);
    assert QueueOk(s, id) && QueueOk(s, id') && PlaceOk(s, u);
    forall p: nat ensures u in Q(s, Runq(p)) <==> s.th[u].status == Runnable && s.th[u].prio == p {
      assert QueueOk(s, Runq(p));
    }
  }
}
