/**
  Joins never wait in a ring.  Threads are told apart by incarnation, a slot and how many threads it has held, and
  every join by when it started.
 */
module UthreadJoins {
  import opened Uthread
  import UthreadRuns

  /** What a thread can turn into unless it calls uthread_join or its slot is taken by a new thread: it is in no join
      that it was not in, and its waiter stays until its slot is cleared. */
  ghost predicate CalmThread(t: Thread, t': Thread) {
    && (t'.at.InJoin? ==> t'.at == t.at)
    && (t.waiter.Some? || t.status == NoState ==> t'.waiter.Some? || t'.status == NoState)
  }

  ghost predicate Calm(s: State, s': State) {
    |s'.th| == |s.th| && forall u: nat {:trigger s'.th[u]} :: u < |s.th| ==> CalmThread(s.th[u], s'.th[u])
  }

  lemma BlockCalm(s: State, at: Where)
    requires at.InJoin? ==> at == Now(s).at
    requires Now(s).status != NoState
    ensures Calm(s, BlockAs(s, at))
  {
  }

  lemma WakeCalm(s: State, u: nat)
    ensures Calm(s, WakeUp(s, u))
  {
  }

  lemma {:induction false} SignalsCalm(s: State, c: nat, k: nat)
    ensures Calm(s, Signals(s, c, k))
  {
    if k != 0 {
      SignalsCalm(s, c, k - 1);
      var s1 := Signals(s, c, k - 1);
      if Q(s1, Condq(c)) != [] { WakeCalm(s1, Q(s1, Condq(c))[0]); }
    }
  }

  lemma ReapableCalm(s: State, u: nat, t: Thread)
    requires u < |s.th| && CalmThread(s.th[u], t)
    ensures Calm(s, Reapable(s, u, t))
  {
    WakeCalm(Link(s, u, t), REAPER);
  }

  lemma ExitCalm(s: State, v: int)
    requires Now(s).status == OnCpu
    ensures Calm(s, ExitStep(s, v))
  {
    var t := Now(s).(status := Zombie, exit := v, exited := true);
    if t.waiter.Some? { WakeCalm(Link(s, s.cur, t), t.waiter.value); }
    if s.cur < |s.th| { ReapableCalm(s, s.cur, t); }
  }

  lemma UnlockCalm(s: State, m: nat)
    ensures Calm(s, UnlockStep(s, m)) && UnlockStep(s, m).cur == s.cur
    ensures Now(s).status == OnCpu ==> Now(UnlockStep(s, m)).status == OnCpu
  {
    if Q(s, Mutexq(m)) != [] {
      var next := Q(s, Mutexq(m))[0];
      WakeCalm(s.(owner := s.owner[m := next]), next);
    }
  }

  lemma CondWaitCalm(s: State, c: nat, m: nat)
    requires Now(s).status == OnCpu
    ensures Calm(s, CondWaitStep(s, c, m))
  {
    UnlockCalm(s, m);
    BlockCalm(UnlockStep(s, m), InCondWait(c, m));
  }

  /** Going on with a join: the caller stays in it or leaves it. */
  lemma JoinLoopCalm(s: State, v: nat)
    requires Now(s).status == OnCpu && v < |s.th|
    ensures var s' := JoinLoop(s, v);
      && |s'.th| == |s.th|
      && forall u: nat {:trigger s'.th[u]} :: u < |s.th| ==>
           || CalmThread(s.th[u], s'.th[u])
           || (u == s.cur && s'.th[u] == s.th[u].(status := Wait, at := InJoin(v)))
  {
    if Th(s, v).exited {
      ReapableCalm(Continue(s), v, Th(Continue(s), v).(detached := true));
    }
  }

  ghost predicate AllDead(s: State) {
    forall u: nat {:trigger u in Q(s, Reapq)} :: u in Q(s, Reapq) ==> Th(s, u).status == Zombie
  }

  lemma ReapCalm(s: State)
    requires Now(s).status == OnCpu && AllDead(s)
    ensures Calm(s, ReapStep(s))
  {
    BlankedIs(s.th, Q(s, Reapq));
    assert s.cur !in Q(s, Reapq);
  }

  lemma LockCalm(s: State, m: nat, queued: Where)
    requires !queued.InJoin? && Now(s).status == OnCpu
    ensures Calm(s, LockAs(s, m, queued))
  {
    BlockCalm(s, queued);
    BlockCalm(s, InSelfLock(m));
  }

  lemma ResumeCalm(s: State)
    requires (Now(s).at == InReaper ==> AllDead(s)) && Now(s).status == OnCpu && (Now(s).at.InJoin? ==> Now(s).at.u < |s.th|)
    ensures Calm(s, ResumeStep(s))
  {
    match Now(s).at
    case InCondWait(c, m) => LockCalm(s, m, InRelock(m));
    case InJoin(v) => JoinLoopCalm(s, v);
    case InReaper => ReapCalm(s);
    case _ =>
  }

  /** A step that can happen whatever the queues hold and whatever the callers see to, past the assertions of the
      code: uthread_switch asserts that the thread it takes is runnable, and the reaper that those on its list are
      dead. */
  ghost predicate Possible(s: State, st: Step) {
    if st == Switch then Now(s).status != OnCpu && Th(s, Dispatch(s).cur).status == Runnable
    else Now(s).status == OnCpu && (st == Resume <==> Now(s).at != Running) && (Now(s).at == InReaper ==> AllDead(s))
  }

  /** The slot a step fills, if any. */
  function Filled(s: State, st: Step): nat {
    if st.Create? then FreeSlot(s.th, 0) else |s.th|
  }

  lemma CreateCalm(s: State, prio: int)
    ensures |CreateStep(s, prio).th| == |s.th| && FreeSlot(s.th, 0) <= |s.th|
    ensures forall u: nat {:trigger CreateStep(s, prio).th[u]} :: u < |s.th| ==>
      if u == FreeSlot(s.th, 0) then !CreateStep(s, prio).th[u].at.InJoin? else CreateStep(s, prio).th[u] == s.th[u]
  {
    FreeSlotIs(s.th, 0);
  }

  lemma StepCalm(s: State, st: Step)
    requires Possible(s, st) && !st.Join? && !st.Create? && (Now(s).at.InJoin? ==> Now(s).at.u < |s.th|)
    ensures Calm(s, Apply(s, st))
  {
    match st
    case Exit(v) => ExitCalm(s, v);
    case Block => BlockCalm(s, InBlock);
    case Wake(u) => WakeCalm(s, u);
    case Lock(m) => LockCalm(s, m, InLock(m));
    case Unlock(m) => UnlockCalm(s, m);
    case CondWait(c, m) => CondWaitCalm(s, c, m);
    case Signal(c) => if Q(s, Condq(c)) != [] { WakeCalm(s, Q(s, Condq(c))[0]); }
    case Broadcast(c) => SignalsCalm(s, c, |Q(s, Condq(c))|);
    case Resume => ResumeCalm(s);
    case _ =>
  }

  // ---------------------------------------------------------------- incarnations and join times

  /** A state with its past: how many threads each slot has held, which of its target's threads the thread in a slot
      joined last and when, and the time. */
  datatype History = History(s: State, gen: seq<nat>, goal: seq<nat>, time: seq<nat>, clock: nat)

  /** A step, with what the queues hold when it is taken. */
  datatype Turn = Turn(st: Step, q: map<Queue, seq<nat>>)

  function Track(h: History, st: Step): History {
    var u := Filled(h.s, st);
    var joins := st.Join? && JoinCode(h.s, st.id) == 0 && st.id < |h.gen|;
    History(
      Apply(h.s, st),
      if u < |h.gen| then h.gen[u := h.gen[u] + 1] else h.gen,
      if joins && h.s.cur < |h.goal| then h.goal[h.s.cur := h.gen[st.id]] else h.goal,
      if joins && h.s.cur < |h.time| then h.time[h.s.cur := h.clock] else h.time,
      h.clock + 1)
  }

  function Take(h: History, m: Turn): History {
    Track(h.(s := h.s.(q := m.q)), m.st)
  }

  function RunTurns(h: History, turns: seq<Turn>): History
    decreases turns
  {
    if turns == [] then h else RunTurns(Take(h, turns[0]), turns[1..])
  }

  /** Each step is possible where it is made, and no thread joins itself. */
  ghost predicate AllPossible(h: History, turns: seq<Turn>)
    decreases turns
  {
    turns == [] ||
    (&& Possible(h.s.(q := turns[0].q), turns[0].st) && turns[0].st != Join(h.s.cur)
     && AllPossible(Take(h, turns[0]), turns[1..]))
  }

  /** The thread in slot a is in a join with the thread that is in slot b now. */
  ghost predicate Joins(h: History, a: nat, b: nat) {
    && a < |h.s.th| && h.s.th[a].at == InJoin(b) && b < |h.s.th|
    && a < |h.goal| && b < |h.gen| && h.goal[a] == h.gen[b]
  }

  ghost predicate Sized(h: History) {
    |h.gen| == |h.s.th| && |h.goal| == |h.s.th| && |h.time| == |h.s.th|
  }

  ghost predicate InPast(h: History, a: nat)
    requires Sized(h) && a < |h.s.th|
  {
    h.s.th[a].at.InJoin? ==> h.s.th[a].at.u < |h.s.th| && h.goal[a] <= h.gen[h.s.th[a].at.u] && h.time[a] < h.clock
  }

  /** A thread somebody has joined has a waiter, unless it is gone, and if it is in a join itself it was there first. */
  ghost predicate EdgeOk(h: History, a: nat, b: nat)
    requires Sized(h)
  {
    Joins(h, a, b) ==>
      && (h.s.th[b].waiter.Some? || h.s.th[b].status == NoState)
      && (h.s.th[b].at.InJoin? ==> h.time[b] < h.time[a])
  }

  ghost predicate InOrder(h: History) {
    && Sized(h) && (forall a: nat {:trigger InPast(h, a)} :: a < |h.s.th| ==> InPast(h, a))
    && (forall a: nat, b: nat {:trigger EdgeOk(h, a, b)} :: EdgeOk(h, a, b))
  }

  lemma CalmInOrder(h: History, h': History)
    requires InOrder(h) && Calm(h.s, h'.s)
    requires h'.gen == h.gen && h'.goal == h.goal && h'.time == h.time && h'.clock == h.clock + 1
    ensures InOrder(h')
  {
    forall a: nat | a < |h'.s.th| ensures InPast(h', a) {
      assert InPast(h, a) && CalmThread(h.s.th[a], h'.s.th[a]);
    }
    forall a: nat, b: nat ensures EdgeOk(h', a, b) {
      assert EdgeOk(h, a, b);
      if Joins(h', a, b) { assert CalmThread(h.s.th[a], h'.s.th[a]) && CalmThread(h.s.th[b], h'.s.th[b]); }
    }
  }

  /** Whoever joined the thread that was in the slot before has not joined the new one. */
  lemma CreateInOrder(h: History, prio: int)
    requires InOrder(h)
    ensures InOrder(Track(h, Create(prio)))
  {
    var h' := Track(h, Create(prio));
    CreateCalm(h.s, prio);
    forall a: nat | a < |h'.s.th| ensures InPast(h', a) {
      assert InPast(h, a);
    }
    forall a: nat, b: nat ensures EdgeOk(h', a, b) {
      assert EdgeOk(h, a, b);
      if Joins(h', a, b) {
        assert InPast(h, a);
        assert h'.s.th[a] == h.s.th[a];
      }
    }
  }

  /** What a join that is no error does to each thread. */
  lemma JoinEffect(s: State, v: nat, u: nat)
    requires Now(s).status == OnCpu && Now(s).at == Running && v < |s.th| && v != s.cur && u < |s.th|
    requires JoinCode(s, v) == 0
    ensures |JoinStep(s, v).th| == |s.th|
    ensures CalmThread(s.th[u], JoinStep(s, v).th[u]) || (u == s.cur && JoinStep(s, v).th[u].at == InJoin(v))
    ensures JoinStep(s, v).th[v].waiter.Some? || JoinStep(s, v).th[v].status == NoState
  {
    var s1 := Update(s, v, Th(s, v).(waiter := Some(s.cur)));
    JoinLoopCalm(s1, v);
    assert CalmThread(s1.th[v], JoinStep(s, v).th[v]);
  }

  /** A thread somebody waits for cannot start a join, so nobody has joined its caller. */
  lemma NobodyJoined(h: History, a: nat, v: nat)
    requires InOrder(h) && Now(h.s).status == OnCpu && JoinCode(h.s, v) == 0
    ensures !Joins(h, a, h.s.cur)
  {
    assert EdgeOk(h, a, h.s.cur);
  }

  lemma JoinInOrder(h: History, v: nat)
    requires InOrder(h) && Now(h.s).status == OnCpu && Now(h.s).at == Running && JoinCode(h.s, v) == 0 && v != h.s.cur
    ensures InOrder(Track(h, Join(v)))
  {
    var h', c := Track(h, Join(v)), h.s.cur;
    forall u: nat | u < |h.s.th|
      ensures |h'.s.th| == |h.s.th|
      ensures CalmThread(h.s.th[u], h'.s.th[u]) || (u == c && h'.s.th[u].at == InJoin(v))
      ensures h'.s.th[v].waiter.Some? || h'.s.th[v].status == NoState
    {
      JoinEffect(h.s, v, u);
    }
    forall a: nat | a < |h'.s.th| ensures InPast(h', a) {
      assert InPast(h, a);
    }
    forall a: nat, b: nat ensures EdgeOk(h', a, b) {
      if Joins(h', a, b) { JoinEdge(h, v, a, b); }
    }
  }

  lemma JoinEdge(h: History, v: nat, a: nat, b: nat)
    requires InOrder(h) && Now(h.s).status == OnCpu && Now(h.s).at == Running && JoinCode(h.s, v) == 0 && v != h.s.cur
    requires Sized(Track(h, Join(v))) && Joins(Track(h, Join(v)), a, b)
    ensures EdgeOk(Track(h, Join(v)), a, b)
  {
    JoinEffect(h.s, v, a);
    JoinEffect(h.s, v, b);
    assert InPast(h, a) && InPast(h, b) && EdgeOk(h, a, b);
    NobodyJoined(h, a, v);
  }

  lemma TurnInOrder(h: History, m: Turn)
    requires InOrder(h) && Possible(h.s.(q := m.q), m.st) && m.st != Join(h.s.cur)
    ensures InOrder(Take(h, m))
  {
    var g := h.(s := h.s.(q := m.q));
    QueuesDoNotMatter(h, g);
    match m.st
    case Create(prio) => CreateInOrder(g, prio);
    case Join(v) =>
      if JoinCode(g.s, v) == 0 {
        JoinInOrder(g, v);
      } else {
        CalmInOrder(g, Take(h, m));
      }
    case _ =>
      if g.s.cur < |g.s.th| { assert InPast(g, g.s.cur); }
      StepCalm(g.s, m.st);
      CalmInOrder(g, Take(h, m));
  }

  lemma QueuesDoNotMatter(h: History, g: History)
    requires InOrder(h) && g == h.(s := h.s.(q := g.s.q))
    ensures InOrder(g)
  {
    forall a: nat | a < |g.s.th| ensures InPast(g, a) { assert InPast(h, a); }
    forall a: nat, b: nat ensures EdgeOk(g, a, b) { assert EdgeOk(h, a, b); }
  }

  lemma {:induction false} TurnsInOrder(h: History, turns: seq<Turn>)
    requires InOrder(h) && AllPossible(h, turns)
    ensures InOrder(RunTurns(h, turns))
    decreases turns
  {
    if turns != [] {
      TurnInOrder(h, turns[0]);
      TurnsInOrder(Take(h, turns[0]), turns[1..]);
    }
  }

  /** The start, nothing having happened. */
  function Beginning(): History {
    var none: seq<nat> := seq(MAX_THREADS, _ => 0);
    History(Initial(), none, none, none, 0)
  }

  lemma BeginningInOrder()
    ensures InOrder(Beginning())
  {
    var h := Beginning();
    forall a: nat | a < |h.s.th| ensures !h.s.th[a].at.InJoin? {
      assert a >= 2 ==> h.s.th[a] == BLANK;
    }
  }

  /** Threads that have joined each other, one after the other. */
  ghost predicate Chain(h: History, p: seq<nat>) {
    |p| >= 2 && forall k {:trigger p[k]} :: 0 < k < |p| ==> Joins(h, p[k - 1], p[k])
  }

  lemma {:induction false} TimesFall(h: History, p: seq<nat>)
    requires InOrder(h) && Chain(h, p) && p[|p| - 1] < |h.s.th| && h.s.th[p[|p| - 1]].at.InJoin?
    ensures p[0] < |h.time| && p[|p| - 1] < |h.time| && h.time[p[|p| - 1]] < h.time[p[0]]
  {
    var b := p[|p| - 1];
    assert Joins(h, p[|p| - 2], b) && EdgeOk(h, p[|p| - 2], b);
    if |p| > 2 {
      var p' := p[..|p| - 1];
      forall k | 0 < k < |p'| ensures Joins(h, p'[k - 1], p'[k]) {
        assert p'[k] == p[k] && Joins(h, p[k - 1], p[k]);
      }
      TimesFall(h, p');
    }
  }

  /** Over every run in which no thread joins itself, whatever else callers do and whatever the queues hold: along a
      chain of joins every thread but the last started its join later than the next, so no chain comes back to where it
      started. */
  lemma JoinsNeverRing(turns: seq<Turn>, p: seq<nat>)
    requires AllPossible(Beginning(), turns) && Chain(RunTurns(Beginning(), turns), p)
    ensures var h := RunTurns(Beginning(), turns);
      && p[0] != p[|p| - 1]
      && (p[|p| - 1] < |h.s.th| && h.s.th[p[|p| - 1]].at.InJoin? ==>
            p[0] < |h.time| && p[|p| - 1] < |h.time| && h.time[p[|p| - 1]] < h.time[p[0]])
  {
    BeginningInOrder();
    TurnsInOrder(Beginning(), turns);
    var h := RunTurns(Beginning(), turns);
    assert Joins(h, p[0], p[1]);
    if p[|p| - 1] < |h.s.th| && h.s.th[p[|p| - 1]].at.InJoin? { TimesFall(h, p); }
  }

  // ---------------------------------------------------------------- runs within the contract

  ghost predicate NoSelfJoin(s: State, steps: seq<Step>)
    decreases steps
  {
    steps != [] ==> steps[0] != Join(s.cur) && NoSelfJoin(Apply(s, steps[0]), steps[1..])
  }

  /** Every thread in a join has joined the thread that is in its target's slot now. */
  ghost predicate Current(h: History) {
    forall a: nat {:trigger h.s.th[a]} :: a < |h.s.th| && h.s.th[a].at.InJoin? ==> Joins(h, a, h.s.th[a].at.u)
  }

  lemma EnabledIsPossible(s: State, st: Step)
    requires Inv(s) && Enabled(s, st)
    ensures Possible(s, st)
  {
    if st == Switch {
      HighestIs(s, MAX_PRIO + 1);
      var p := Highest(s, MAX_PRIO + 1);
      assert QueueOk(s, Runq(p)) && Q(s, Runq(p))[0] in Q(s, Runq(p));
    } else {
      assert QueueOk(s, Reapq);
    }
  }

  lemma StaysCurrent(h: History, st: Step)
    requires Inv(h.s) && Enabled(h.s, st) && InOrder(h) && Current(h) && st != Join(h.s.cur)
    ensures Current(Track(h, st))
  {
    EnabledIsPossible(h.s, st);
    match st
    case Create(prio) => CreatedCurrent(h, prio);
    case Join(v) => JoinedCurrent(h, v);
    case _ =>
      if h.s.cur < |h.s.th| { assert InPast(h, h.s.cur); }
      StepCalm(h.s, st);
      CalmCurrent(h, Track(h, st));
  }

  lemma CreatedCurrent(h: History, prio: int)
    requires JoinsOk(h.s) && InOrder(h) && Current(h)
    ensures Current(Track(h, Create(prio)))
  {
    var h' := Track(h, Create(prio));
    CreateCalm(h.s, prio);
    FreeSlotIs(h.s.th, 0);
    forall a: nat | a < |h'.s.th| && h'.s.th[a].at.InJoin? ensures Joins(h', a, h'.s.th[a].at.u) {
      assert h'.s.th[a] == h.s.th[a] && JoinOk(h.s, a);
    }
  }

  lemma JoinedCurrent(h: History, v: int)
    requires InOrder(h) && Current(h) && Now(h.s).status == OnCpu && Now(h.s).at == Running && v != h.s.cur
    ensures Current(Track(h, Join(v)))
  {
    var h' := Track(h, Join(v));
    if JoinCode(h.s, v) == 0 {
      forall a: nat | a < |h'.s.th| && h'.s.th[a].at.InJoin? ensures Joins(h', a, h'.s.th[a].at.u) {
        JoinEffect(h.s, v, a);
      }
    }
  }

  lemma CalmCurrent(h: History, h': History)
    requires Current(h) && Calm(h.s, h'.s) && h'.gen == h.gen && h'.goal == h.goal
    ensures Current(h')
  {
    forall a: nat | a < |h'.s.th| && h'.s.th[a].at.InJoin? ensures Joins(h', a, h'.s.th[a].at.u) {
      assert CalmThread(h.s.th[a], h'.s.th[a]);
    }
  }

  /** A run of the machine is a run here, with the queues it has. */
  lemma {:induction false} MachineRun(h: History, steps: seq<Step>) returns (turns: seq<Turn>)
    requires Inv(h.s) && AllEnabled(h.s, steps) && NoSelfJoin(h.s, steps) && InOrder(h) && Current(h)
    ensures AllPossible(h, turns) && RunTurns(h, turns).s == Run(h.s, steps) && Current(RunTurns(h, turns))
    decreases steps
  {
    turns := [];
    if steps != [] {
      var turn := Turn(steps[0], h.s.q);
      assert h.(s := h.s.(q := turn.q)) == h;
      EnabledIsPossible(h.s, steps[0]);
      StepKeeps(h.s, steps[0]);
      StaysCurrent(h, steps[0]);
      TurnInOrder(h, turn);
      var rest := MachineRun(Take(h, turn), steps[1..]);
      turns := [turn] + rest;
      assert turns[1..] == rest;
    }
  }

  /** A path of threads each of which is in uthread_join, waiting for the next one's slot. */
  ghost predicate SlotChain(s: State, p: seq<nat>) {
    |p| >= 2 && forall k {:trigger p[k]} :: 0 < k < |p| ==> p[k - 1] < |s.th| && s.th[p[k - 1]].at == InJoin(p[k])
  }

  /** In runs within the contract of the package no thread waits for one that waits for it in turn. */
  lemma SlotsNeverRing(steps: seq<Step>, p: seq<nat>)
    requires AllEnabled(Initial(), steps) && NoSelfJoin(Initial(), steps) && SlotChain(Run(Initial(), steps), p)
    ensures p[0] != p[|p| - 1]
  {
    InitialOk();
    BeginningInOrder();
    var h := Beginning();
    assert Current(h) by {
      assert forall a: nat :: a < |h.s.th| ==> a < 2 || h.s.th[a] == BLANK;
    }
    var turns := MachineRun(h, steps);
    var h' := RunTurns(h, turns);
    forall k | 0 < k < |p| ensures Joins(h', p[k - 1], p[k]) {
      var b := p[k];
      assert p[k - 1] < |h'.s.th| && h'.s.th[p[k - 1]].at == InJoin(b);
    }
    JoinsNeverRing(turns, p);
  }

  // ---------------------------------------------------------------- what a join promises

  ghost function Joiners(s: State, u: nat): set<nat> {
    set w: nat | w < |s.th| && s.th[w].at == InJoin(u)
  }

  function Occurs(l: seq<nat>, u: nat): nat {
    if l == [] then 0 else (if l[0] == u then 1 else 0) + Occurs(l[1..], u)
  }

  /** How often u has been or is going to be put on the reaper's list: by itself when it exits detached, and by each
      thread that has joined it. */
  ghost function Claims(s: State, u: nat): nat {
    Occurs(Q(s, Reapq), u) + |Joiners(s, u)| + if Th(s, u).detached && Th(s, u).status != Zombie then 1 else 0
  }

  /** The exit of u, if it runs next. */
  function Exits(s: State, u: nat, v: int): State {
    ExitStep(s.(cur := u), v)
  }

  ghost predicate WakesAll(s: State, u: nat) {
    forall w: nat, v: int {:trigger Th(Exits(s, u, v), w)} :: w in Joiners(s, u) ==> Th(Exits(s, u, v), w).status != Wait
  }

  /** What joins and detaches promise about u: it is destroyed at most once, and its exit leaves nobody waiting for it. */
  ghost predicate Promise(s: State, u: nat) {
    Claims(s, u) <= 1 && (Th(s, u).status != Zombie && Th(s, u).status != NoState ==> WakesAll(s, u))
  }

  lemma {:induction false} OccursOnce(l: seq<nat>, u: nat)
    requires Distinct(l)
    ensures Occurs(l, u) == if u in l then 1 else 0
  {
    if l != [] {
      OccursOnce(l[1..], u);
      assert l[0] !in l[1..];
    }
  }

  lemma {:induction false} OccursAppend(l: seq<nat>, u: nat)
    ensures Occurs(l + [u], u) == Occurs(l, u) + 1
  {
    if l != [] {
      assert (l + [u])[1..] == l[1..] + [u];
      OccursAppend(l[1..], u);
    }
  }

  lemma OneJoiner(s: State, u: nat)
    requires JoinsOk(s)
    ensures Joiners(s, u) != {} ==> u < |s.th| && s.th[u].waiter.Some? && !s.th[u].detached && Joiners(s, u) == {s.th[u].waiter.value}
  {
    forall w | w in Joiners(s, u) ensures u < |s.th| && s.th[u].waiter == Some(w) && !s.th[u].detached {
      assert JoinOk(s, w);
    }
  }

  /** The invariant keeps the promise. */
  lemma InvPromises(s: State, u: nat)
    requires Inv(s) && u < |s.th|
    ensures Promise(s, u)
  {
    OneJoiner(s, u);
    assert QueueOk(s, Reapq) && PlaceOk(s, u) && JoinOk(s, u);
    OccursOnce(Q(s, Reapq), u);
    if Th(s, u).status != Zombie && Joiners(s, u) != {} {
      forall w: nat, v: int | w in Joiners(s, u) ensures Th(Exits(s, u, v), w).status != Wait {
        assert JoinOk(s, w);
      }
    }
  }

  lemma TwoJoiners(s: State, u: nat, a: nat, b: nat)
    requires a in Joiners(s, u) && b in Joiners(s, u) && a != b
    ensures Claims(s, u) >= 2
  {
    assert {a, b} <= Joiners(s, u);
    Subset({a, b}, Joiners(s, u));
  }

  lemma Subset(a: set<nat>, b: set<nat>)
    requires a <= b
    ensures |a| <= |b|
  {
    assert b == a + (b - a);
  }

  /** What is left of u's join by a when a second thread joins u too. */
  lemma SecondJoinClaims(s: State, u: nat, a: nat)
    requires Inv(s) && Now(s).status == OnCpu && Now(s).at == Running && JoinCode(s, u) == 0 && u < |s.th|
    requires s.th[u].waiter == Some(a)
    ensures Claims(JoinStep(s, u), u) >= 2
  {
    assert JoinOk(s, u) && JoinOk(s, a) && PlaceOk(s, u) && PlaceOk(s, a) && PlaceOk(s, REAPER);
    if s.th[u].exited {
      JoinsExited(s, u, a);
      OccursAppend(Q(s, Reapq), u);
      assert {a} <= Joiners(JoinStep(s, u), u);
      Subset({a}, Joiners(JoinStep(s, u), u));
    } else {
      JoinsLive(s, u, a);
      TwoJoiners(JoinStep(s, u), u, a, s.cur);
    }
  }

  lemma JoinsExited(s: State, u: nat, a: nat)
    requires s.cur < |s.th| && u < |s.th| && a < |s.th| && JoinCode(s, u) == 0 && a != s.cur && u != s.cur
    requires s.th[u].exited && s.th[u].status == Zombie && s.th[a].at == InJoin(u) && u != REAPER
    requires Th(s, REAPER).status == Wait ==> Home(Th(s, REAPER)) == NoQueue
    ensures Q(JoinStep(s, u), Reapq) == Q(s, Reapq) + [u] && a in Joiners(JoinStep(s, u), u)
  {
  }

  lemma JoinsLive(s: State, u: nat, a: nat)
    requires s.cur < |s.th| && u < |s.th| && a < |s.th| && JoinCode(s, u) == 0 && a != s.cur
    requires !s.th[u].exited && s.th[a].at == InJoin(u)
    ensures a in Joiners(JoinStep(s, u), u) && s.cur in Joiners(JoinStep(s, u), u)
  {
  }

  /** A join that is no error keeps what is promised about its target exactly if the target has no waiter yet.  The
      code looks at the caller's own waiter instead: then the target is going to be destroyed twice. */
  lemma JoinKeepsIff(s: State, u: nat)
    requires Inv(s) && Now(s).status == OnCpu && Now(s).at == Running && JoinCode(s, u) == 0
    ensures Promise(JoinStep(s, u), u) <==> s.th[u].waiter == None
    ensures Inv(JoinStep(s, u)) <==> s.th[u].waiter == None
  {
    if s.th[u].waiter == None {
      JoinKeeps(s, u);
      InvPromises(JoinStep(s, u), u);
    } else {
      SecondJoinClaims(s, u, s.th[u].waiter.value);
      if Inv(JoinStep(s, u)) { InvPromises(JoinStep(s, u), u); }
    }
  }

  /** A detach that is no error, of a thread that has not exited, keeps it exactly if nobody waits for the thread:
      otherwise the joiner is not woken by the exit, and the thread is going to be destroyed twice. */
  lemma DetachKeepsIff(s: State, u: nat)
    requires Inv(s) && Now(s).status == OnCpu && Now(s).at == Running && DetachCode(s, u) == 0 && s.th[u].status != Zombie
    ensures Promise(DetachStep(s, u), u) <==> s.th[u].waiter == None
    ensures Inv(DetachStep(s, u)) <==> s.th[u].waiter == None
    ensures s.th[u].waiter.Some? && s.th[u].waiter != Some(u) && Th(s, s.th[u].waiter.value).status == Wait ==>
      !WakesAll(DetachStep(s, u), u)
  {
    if s.th[u].waiter == None {
      DetachKeeps(s, u);
      InvPromises(DetachStep(s, u), u);
    } else {
      DetachWaited(s, u, s.th[u].waiter.value);
      if Inv(DetachStep(s, u)) { InvPromises(DetachStep(s, u), u); }
    }
  }

  lemma DetachWaited(s: State, u: nat, a: nat)
    requires Inv(s) && Now(s).status == OnCpu && Now(s).at == Running && DetachCode(s, u) == 0 && s.th[u].status != Zombie
    requires s.th[u].waiter == Some(a)
    ensures Claims(DetachStep(s, u), u) >= 2
    ensures Th(s, a).status == Wait && a != u ==> !WakesAll(DetachStep(s, u), u)
  {
    assert JoinOk(s, u) && JoinOk(s, a) && PlaceOk(s, a);
    var s' := DetachStep(s, u);
    assert a in Joiners(s', u);
    assert {a} <= Joiners(s', u);
    Subset({a}, Joiners(s', u));
    assert a != REAPER;
    assert a != u ==> Th(Exits(s', u, 0), a).status == Th(s, a).status;
  }

  /** A run to such a detach: thread 2 waits in its join for thread 3, the first thread detaches thread 3, and when
      that exits thread 2 is not woken. */
  lemma DetachStrandsJoiner() returns (steps: seq<Step>)
    ensures AllEnabled(Initial(), steps)
    ensures var s := Run(Initial(), steps);
      && Inv(s) && Now(s).status == OnCpu && Now(s).at == Running && DetachCode(s, 3) == 0 && 2 in Joiners(s, 3)
      && Promise(s, 3) && !Promise(DetachStep(s, 3), 3) && !WakesAll(DetachStep(s, 3), 3)
  {
    steps := UthreadRuns.JoinerWaitsRun();
    var s := Run(Initial(), steps);
    InitialOk();
    RunKeeps(Initial(), steps);
    WaiterAndTarget(s);
    InvPromises(s, 3);
    DetachKeepsIff(s, 3);
  }

  lemma WaiterAndTarget(s: State)
    requires UthreadRuns.Four(s, UthreadRuns.ASLEEP, UthreadRuns.FIRST, UthreadRuns.JOINING,
                              UthreadRuns.READY.(waiter := Some(2)), [3], [], 1)
    ensures |s.th| > 3 && Now(s) == UthreadRuns.FIRST
    ensures s.th[2] == UthreadRuns.JOINING && s.th[3] == UthreadRuns.READY.(waiter := Some(2))
  {
  }
}
