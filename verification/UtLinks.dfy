/**
  The links of all threads and the queues they are on: runq_table, the queues of mutexes and condition variables,
  and the reaper's list.  Each thread has one link.
 */
module UtLinks {
  import opened UtQueue
  import Uthread

  /** Which queue: a run queue, that of a mutex or of a condition variable, or the reaper's. */
  type Id = Uthread.Queue

  function Get(q: map<Id, seq<nat>>, id: Id): seq<nat> {
    if id in q then q[id] else []
  }

  /** u is on no queue. */
  ghost predicate OnNone(q: map<Id, seq<nat>>, u: nat) {
    forall id {:trigger Get(q, id)} :: id != Uthread.NoQueue ==> u !in Get(q, id)
  }

  function Number(l: Link): nat {
    if l.thread >= 0 then l.thread else 0
  }

  function Order(s: seq<Link>): seq<nat> {
    seq(|s|, i requires 0 <= i < |s| => Number(s[i]))
  }

  lemma OrderSnoc(s: seq<Link>, l: Link)
    ensures Order(s + [l]) == Order(s) + [Number(l)]
  {
  }

  lemma OrderWithout(s: seq<Link>, k: nat)
    requires k < |s|
    ensures Order(Without(s, k)) == Order(s)[..k] + Order(s)[k + 1..]
  {
  }

  /** Taking out the only place where u is. */
  lemma {:induction false} RemoveAt(l: seq<nat>, u: nat, k: nat)
    requires k < |l| && l[k] == u && u !in l[..k]
    ensures Uthread.Remove(l, u) == l[..k] + l[k + 1..]
  {
    if k != 0 {
      assert l[0] == l[..k][0] && l[1..][..k - 1] == l[..k][1..];
      RemoveAt(l[1..], u, k - 1);
    }
  }

  /** Two queues with no part in common. */
  ghost predicate Separate(a: UtQueue, b: UtQueue) {
    a != b && a.waiters != b.waiters && a.waiters.head != b.waiters.head
  }

  /** A queue as utqueue_init leaves it. */
  ghost predicate IsEmpty(t: UtQueue)
    reads t, t.waiters, t.waiters.head, t.waiters.items
  {
    t.Valid() && t.waiters.items == [] && t.waiters.head.thread == -1
  }

  /** The links of the zeroed thread table. */
  method MakeLinks(n: nat) returns (links: seq<Link>)
    ensures |links| == n && fresh(set l | l in links)
    ensures forall i {:trigger links[i]} :: 0 <= i < n ==> links[i].thread == i && Unlinked(links[i])
  {
    links := [];
    while |links| < n
      invariant |links| <= n && fresh(set l | l in links)
      invariant forall i {:trigger links[i]} :: 0 <= i < |links| ==> links[i].thread == i && Unlinked(links[i])
    {
      var l := new Link(|links|);
      links := links + [l];
    }
  }

  /** utqueue_init for each of a number of queues. */
  method MakeQueues(ids: seq<Id>) returns (t: map<Id, UtQueue>, ghost parts: set<object>)
    ensures t.Keys == (set id | id in ids) && fresh(parts)
    ensures forall id {:trigger t[id]} :: id in t ==>
      IsEmpty(t[id]) && t[id] in parts && t[id].waiters in parts && t[id].waiters.head in parts
    ensures forall id, id' {:trigger t[id], t[id']} :: id in t && id' in t && id != id' ==> Separate(t[id], t[id'])
  {
    t, parts := map[], {};
    for k := 0 to |ids|
      invariant t.Keys == (set id | id in ids[..k]) && fresh(parts)
      invariant forall id {:trigger t[id]} :: id in t ==>
        IsEmpty(t[id]) && t[id] in parts && t[id].waiters in parts && t[id].waiters.head in parts
      invariant forall id, id' {:trigger t[id], t[id']} :: id in t && id' in t && id != id' ==> Separate(t[id], t[id'])
    {
      var queue := new UtQueue();
      ReversedAt(queue.waiters.items);
      t := t[ids[k] := queue];
      parts := parts + {queue, queue.waiters, queue.waiters.head};
    }
    assert ids[..|ids|] == ids;
  }

  class Queues {
    /** The ut_link of every thread. */
    const links: seq<Link>
    /** The run queues, and the queues of the mutexes and condition variables there are. */
    const table: map<Id, UtQueue>
    const reap: List
    /** Everything the queues are made of. */
    ghost const parts: set<object>
    /** The threads on each queue, the one that came first at the front. */
    ghost var q: map<Id, seq<nat>>

    ghost predicate Known(id: Id) {
      id in table || id == Uthread.Reapq
    }

    ghost function ListOf(id: Id): List {
      if id in table then table[id].waiters else reap
    }

    ghost predicate Mine(l: Link) {
      0 <= l.thread < |links| && links[l.thread] == l
    }

    /** No two queues have a part in common, and no header is a thread's link. */
    ghost predicate Apart(id: Id, id': Id) {
      && ListOf(id) != ListOf(id') && ListOf(id).head != ListOf(id').head
      && (id in table && id' in table ==> table[id] != table[id'])
    }

    ghost predicate Shape() {
      && |links| == Uthread.MAX_THREADS
      && (forall i {:trigger links[i]} :: 0 <= i < |links| ==> links[i].thread == i && links[i] in parts)
      && this !in parts && Uthread.NoQueue !in table && Uthread.Reapq !in table
      && (forall p: nat {:trigger Uthread.Runq(p)} :: p <= Uthread.MAX_PRIO ==> Uthread.Runq(p) in table)
      && (forall id {:trigger table[id]} :: id in table ==> table[id] in parts)
      && (forall id {:trigger ListOf(id)} :: Known(id) ==>
            ListOf(id) in parts && ListOf(id).head in parts && ListOf(id).head.thread == -1)
      && (forall id, id' {:trigger Apart(id, id')} :: Known(id) && Known(id') && id != id' ==> Apart(id, id'))
    }

    /** The links on a queue in the order the threads came. */
    ghost function Queued(id: Id): seq<Link>
      reads ListOf(id)
    {
      if id in table then Reversed(ListOf(id).items) else ListOf(id).items
    }

    /** What queue id is made of. */
    ghost function Of(id: Id): set<object>
      reads ListOf(id)
    {
      {ListOf(id), ListOf(id).head} + (set l | l in ListOf(id).items) + if id in table then {table[id]} else {}
    }

    ghost predicate AllMine(s: seq<Link>) {
      forall k {:trigger s[k]} :: 0 <= k < |s| ==> Mine(s[k])
    }

    /** The queue is a proper list of thread links, those of the threads in order. */
    ghost predicate Holds(id: Id, order: seq<nat>)
      reads Of(id)
    {
      && AllMine(Queued(id)) && ListOf(id).Valid()
      && (id in table ==> table[id].size == |ListOf(id).items|)
      && Order(Queued(id)) == order
    }

    ghost predicate Once(q: map<Id, seq<nat>>, id: Id, id': Id, u: nat) {
      id != Uthread.NoQueue && id' != Uthread.NoQueue && u in Get(q, id) && u in Get(q, id') ==> id == id'
    }

    /** Nobody is on two queues. */
    ghost predicate Exclusive(q: map<Id, seq<nat>>) {
      forall id, id', u: nat {:trigger Once(q, id, id', u)} :: Once(q, id, id', u)
    }

    /** A thread that is on no queue has its link unlinked. */
    ghost predicate Loose(q: map<Id, seq<nat>>, u: nat)
      reads set l | l in links
    {
      u < |links| && OnNone(q, u) ==> Unlinked(links[u])
    }

    ghost predicate Sound(id: Id, order: seq<nat>)
      reads ListOf(id), Of(id)
    {
      Of(id) <= parts && Holds(id, order)
    }

    /** The queue id holds what q says. */
    ghost predicate Here(q: map<Id, seq<nat>>, id: Id)
      reads ListOf(id), Of(id)
    {
      Sound(id, Get(q, id))
    }

    /** The queues are what q says. */
    ghost predicate Show(q: map<Id, seq<nat>>)
      reads parts
    {
      && Shape()
      && (forall id {:trigger Get(q, id)} :: Known(id) || Get(q, id) == [])
      && (forall id {:trigger Here(q, id)} :: Known(id) ==> Of(id) <= parts && Here(q, id))
      && Exclusive(q)
      && (forall u: nat {:trigger Loose(q, u)} :: Loose(q, u))
    }

    ghost predicate Valid()
      reads `q, parts
    {
      Show(q)
    }

    /** Every queue is empty: the run queues as uthread_sched_init leaves them, the queues of the mutexes and
        condition variables that there are, and the reaper's list. */
    constructor (ids: seq<Id>)
      requires Uthread.NoQueue !in ids && Uthread.Reapq !in ids
      requires forall p: nat {:trigger Uthread.Runq(p)} :: p <= Uthread.MAX_PRIO ==> Uthread.Runq(p) in ids
      ensures Valid() && q == map[] && fresh(parts) && forall id :: Known(id) <==> id in ids || id == Uthread.Reapq
    {
      var ls := MakeLinks(Uthread.MAX_THREADS);
      var t, ps := MakeQueues(ids);
      var r := new List();
      links, table, reap, q := ls, t, r, map[];
      parts := ps + (set l | l in ls) + {r, r.head};
      new;
      forall id, id' | Known(id) && Known(id') && id != id' ensures Apart(id, id') {
        assert id in table && id' in table ==> Separate(table[id], table[id']);
      }
      ShowNothing();
    }

    lemma ShowNothing()
      requires Shape() && reap.Valid() && reap.items == []
      requires forall id {:trigger table[id]} :: id in table ==> IsEmpty(table[id])
      requires forall i {:trigger links[i]} :: 0 <= i < |links| ==> Unlinked(links[i])
      ensures Show(map[])
    {
      forall id | Known(id) ensures Of(id) <= parts && Sound(id, []) {
        assert id in table ==> IsEmpty(table[id]);
        assert ListOf(id).items == [] && Get(map[], id) == [];
      }
    }

    lemma HoldsAt(id: Id)
      requires Valid() && Known(id)
      ensures Of(id) <= parts && Sound(id, Get(q, id))
    {
      assert Here(q, id);
    }

    /** Who is on the queue is what its list says. */
    lemma OnQueue(id: Id, order: seq<nat>, l: Link)
      requires Holds(id, order) && Mine(l)
      ensures l in ListOf(id).items <==> l.thread in order
    {
      var items, s := ListOf(id).items, Queued(id);
      ReversedAt(items);
      if l in items {
        var k :| 0 <= k < |items| && items[k] == l;
        assert s[if id in table then |items| - 1 - k else k] == l;
        assert order[if id in table then |items| - 1 - k else k] == l.thread;
      }
      if l.thread in order {
        var k :| 0 <= k < |order| && order[k] == l.thread;
        var j := if id in table then |items| - 1 - k else k;
        assert s[k] == items[j] && Mine(items[j]);
      }
    }

    lemma ItemsMine(id: Id, order: seq<nat>, l: Link)
      requires Holds(id, order) && l in ListOf(id).items
      ensures Mine(l)
    {
      var items := ListOf(id).items;
      ReversedAt(items);
      var k :| 0 <= k < |items| && items[k] == l;
      assert Queued(id)[if id in table then |items| - 1 - k else k] == l;
    }

    lemma OneQueue(q: map<Id, seq<nat>>, id: Id, id': Id, u: nat)
      requires Exclusive(q)
      ensures Once(q, id, id', u)
    {
    }

    /** The links of two queues are different ones. */
    lemma NotShared(id: Id, id': Id, l: Link)
      requires Valid() && Known(id) && Known(id') && id != id' && l in ListOf(id).items
      ensures l !in ListOf(id').items && Mine(l)
    {
      HoldsAt(id);
      HoldsAt(id');
      ItemsMine(id, Get(q, id), l);
      OnQueue(id, Get(q, id), l);
      OnQueue(id', Get(q, id'), l);
      OneQueue(q, id, id', l.thread);
    }

    /** Whether both pointers of a thread's link are set; they are if and only if it is on a queue. */
    method IsLinked(u: nat) returns (b: bool)
      requires Valid() && u < |links|
      ensures b <==> !OnNone(q, u)
      ensures !b <==> links[u].next == null && links[u].prev == null
    {
      LinkedIff(u);
      b := links[u].prev != null && links[u].next != null;
    }

    lemma LinkedIff(u: nat)
      requires Valid() && u < |links|
      ensures OnNone(q, u) <==> Unlinked(links[u])
      ensures OnNone(q, u) <==> links[u].next == null
      ensures OnNone(q, u) <==> links[u].prev == null
    {
      assert Loose(q, u);
      if !OnNone(q, u) {
        var id :| id != Uthread.NoQueue && u in Get(q, id);
        assert Known(id);
        HoldsAt(id);
        OnQueue(id, Get(q, id), links[u]);
        var items := ListOf(id).items;
        var k :| 0 <= k < |items| && items[k] == links[u];
        assert items[k].next == ListOf(id).At(k + 1) && items[k].prev == ListOf(id).At(k - 1);
      }
    }

    method Empty(id: Id) returns (b: bool)
      requires Valid() && id in table
      ensures b <==> Get(q, id) == []
    {
      HoldsAt(id);
      ReversedAt(ListOf(id).items);
      b := table[id].Empty();
    }

    /** What has no part in changed is as before. */
    twostate predicate StandElse(changed: set<object>)
      reads parts
    {
      forall id, order {:trigger Sound(id, order)} ::
        old(Of(id)) !! changed && old(Of(id)) <= parts && old(Sound(id, order)) ==>
          Of(id) == old(Of(id)) && Sound(id, order)
    }

    /** The queue itself, and the link that joins it. */
    method Append(id: Id, l: Link)
      requires Shape() && id in table && Holds(id, Get(q, id)) && Mine(l) && Unlinked(l)
      modifies Of(id), l
      ensures Holds(id, Get(q, id) + [l.thread]) && Of(id) <= old(Of(id)) + {l}
      ensures StandElse(old(Of(id)) + {l})
    {
      ghost var items := ListOf(id).items;
      ReversedAt(items);
      OrderSnoc(Queued(id), l);
      table[id].Enqueue(l);
      ReversedAt(ListOf(id).items);
      forall id', order | old(Of(id')) !! old(Of(id)) + {l} && old(Of(id')) <= parts && old(Sound(id', order))
        ensures Sound(id', order) && Of(id') == old(Of(id'))
      {
        assert ListOf(id') in old(Of(id')) && ListOf(id') !in old(Of(id));
        assert unchanged(ListOf(id'));
        assert Of(id') == old(Of(id')) && unchanged(old(Of(id')));
      }
    }

    /** utqueue_enqueue for thread u; the assertion that its link is on no list holds. */
    method Enqueue(id: Id, u: nat)
      requires Valid() && id in table && u < |links| && OnNone(q, u)
      modifies `q, parts
      ensures Valid() && q == old(q)[id := old(Get(q, id)) + [u]]
    {
      ghost var before, after := q, q[id := Get(q, id) + [u]];
      var l := links[u];
      HoldsAt(id);
      LinkedIff(u);
      OthersApart(id, u);
      OffQueue(id);
      Longer(before, after, id, u);
      Append(id, l);
      assert Of(id) <= parts && Here(after, id);
      forall id' | id' != id
        ensures if Known(id') then Of(id') <= parts && Here(after, id') else Get(after, id') == []
      {
        assert Get(after, id') == Get(before, id');
        if Known(id') { assert old(Here(before, id')); }
      }
      forall v: nat ensures Loose(after, v) {
        if v < |links| && OnNone(after, v) {
          assert OnNone(before, v) && old(Loose(before, v));
          assert links[v] !in old(Of(id)) && links[v] != l;
        }
      }
      assert Show(after);
      q := after;
    }

    /** u on queue id and on no other. */
    lemma Longer(q: map<Id, seq<nat>>, q': map<Id, seq<nat>>, id: Id, u: nat)
      requires Exclusive(q) && OnNone(q, u) && id != Uthread.NoQueue && q' == q[id := Get(q, id) + [u]]
      ensures Exclusive(q')
      ensures forall v: nat {:trigger OnNone(q', v)} :: OnNone(q', v) ==> OnNone(q, v) && v != u && v !in Get(q, id)
    {
      forall v: nat | OnNone(q', v) ensures OnNone(q, v) && v != u && v !in Get(q, id) {
        assert v !in Get(q', id);
        forall id' | id' != Uthread.NoQueue ensures v !in Get(q, id') {
          assert v !in Get(q', id');
        }
      }
      forall id1, id2, v: nat ensures Once(q', id1, id2, v) {
        assert Once(q, id1, id2, v);
        assert v in Get(q', id1) ==> v in Get(q, id1) || (id1 == id && v == u);
        assert v in Get(q', id2) ==> v in Get(q, id2) || (id2 == id && v == u);
      }
    }

    /** Nothing of another queue belongs to this one, nor is it the link of u. */
    lemma OthersApart(id: Id, u: nat)
      requires Valid() && Known(id) && u < |links| && (u in Get(q, id) || OnNone(q, u))
      ensures forall id' {:trigger Get(q, id')} :: Known(id') && id' != id ==> Of(id') !! Of(id) && links[u] !in Of(id')
    {
      forall id' | Known(id') && id' != id ensures Of(id') !! Of(id) && links[u] !in Of(id') {
        OtherApart(id, id', u);
      }
    }

    lemma OtherApart(id: Id, id': Id, u: nat)
      requires Valid() && Known(id) && Known(id') && id' != id && u < |links| && (u in Get(q, id) || OnNone(q, u))
      ensures Of(id') !! Of(id) && links[u] !in Of(id')
    {
      assert Apart(id, id');
      ItemsApart(id, id');
      NoParts(id, id');
      HoldsAt(id');
      OnQueue(id', Get(q, id'), links[u]);
      OneQueue(q, id, id', u);
      NotPart(id', links[u]);
    }

    lemma ItemsApart(id: Id, id': Id)
      requires Valid() && Known(id) && Known(id') && id' != id
      ensures forall l :: l in ListOf(id').items ==> l !in ListOf(id).items && l.thread >= 0
      ensures forall l :: l in ListOf(id).items ==> l.thread >= 0
    {
      HoldsAt(id);
      forall l | l in ListOf(id').items ensures l !in ListOf(id).items && l.thread >= 0 {
        NotShared(id', id, l);
      }
      forall l | l in ListOf(id).items ensures l.thread >= 0 {
        ItemsMine(id, Get(q, id), l);
      }
    }

    lemma NotPart(id: Id, l: Link)
      requires l !in ListOf(id).items && l != ListOf(id).head
      ensures l !in Of(id)
    {
    }

    lemma NoParts(id: Id, id': Id)
      requires Apart(id, id') && ListOf(id).head.thread == -1 && ListOf(id').head.thread == -1
      requires forall l :: l in ListOf(id').items ==> l !in ListOf(id).items && l.thread >= 0
      requires forall l :: l in ListOf(id).items ==> l.thread >= 0
      ensures Of(id') !! Of(id)
    {
      forall o: object | o in Of(id') ensures o !in Of(id) {
        if o is Link {
          NotPart(id, o as Link);
        }
      }
    }

    /** The links of threads that are not on the queue are no part of it. */
    lemma OffQueue(id: Id)
      requires Valid() && Known(id)
      ensures forall v: nat {:trigger links[v]} :: v < |links| && v !in Get(q, id) ==> links[v] !in Of(id)
    {
      HoldsAt(id);
      forall v: nat | v < |links| && v !in Get(q, id) ensures links[v] !in Of(id) {
        OnQueue(id, Get(q, id), links[v]);
      }
    }

    /** A queue holds threads of the table, each once. */
    lemma OrderIs(id: Id, order: seq<nat>)
      requires Holds(id, order)
      ensures Uthread.Distinct(order) && forall k :: 0 <= k < |order| ==> order[k] < |links|
    {
      var items, s := ListOf(id).items, Queued(id);
      ReversedAt(items);
      forall k | 0 <= k < |order| ensures order[k] < |links| {
        assert Mine(s[k]);
      }
      forall j, k | 0 <= j < k < |order| ensures order[j] != order[k] {
        assert Mine(s[j]) && Mine(s[k]);
        assert s[j] == items[if id in table then |items| - 1 - j else j];
        assert s[k] == items[if id in table then |items| - 1 - k else k];
      }
    }

    /** u off queue id, where it was. */
    lemma Shorter(q: map<Id, seq<nat>>, q': map<Id, seq<nat>>, id: Id, u: nat)
      requires Exclusive(q) && id != Uthread.NoQueue
      requires forall id' {:trigger Get(q', id')} :: id' != id ==> Get(q', id') == Get(q, id')
      requires forall v: nat {:trigger v in Get(q', id)} :: v in Get(q', id) <==> v in Get(q, id) && v != u
      ensures Exclusive(q')
      ensures forall v: nat {:trigger OnNone(q', v)} :: OnNone(q', v) && v != u ==> OnNone(q, v) && v !in Get(q, id)
    {
      forall v: nat | OnNone(q', v) && v != u ensures OnNone(q, v) && v !in Get(q, id) {
        assert v !in Get(q', id);
        forall id' | id' != Uthread.NoQueue ensures v !in Get(q, id') {
          assert v !in Get(q', id');
        }
      }
      forall id1, id2, v: nat ensures Once(q', id1, id2, v) {
        assert Once(q, id1, id2, v);
        assert v in Get(q', id1) ==> v in Get(q, id1);
        assert v in Get(q', id2) ==> v in Get(q, id2);
      }
    }

    lemma FirstQueued(id: Id, order: seq<nat>)
      requires Holds(id, order) && order != []
      ensures Queued(id) != [] && Queued(id)[0] in ListOf(id).items && Mine(Queued(id)[0]) && Queued(id)[0].thread == order[0]
      ensures Order(Queued(id)[1..]) == order[1..] && AllMine(Queued(id)[1..])
    {
      var items, s := ListOf(id).items, Queued(id);
      ReversedAt(items);
      assert Mine(s[0]);
      assert s[0] == items[if id in table then |items| - 1 else 0];
    }

    /** utqueue_dequeue on the queue itself. */
    method TakeFront(id: Id) returns (l: Link)
      requires Shape() && id in table && Sound(id, Get(q, id)) && Get(q, id) != []
      modifies Of(id)
      ensures Mine(l) && l.thread == Get(q, id)[0] && l in old(Of(id)) && Unlinked(l)
      ensures Holds(id, Get(q, id)[1..]) && Of(id) <= old(Of(id)) && StandElse(old(Of(id)))
    {
      FirstQueued(id, Get(q, id));
      l := table[id].Dequeue();
      ReversedAt(ListOf(id).items);
      forall id', order | old(Of(id')) !! old(Of(id)) && old(Of(id')) <= parts && old(Sound(id', order))
        ensures Sound(id', order) && Of(id') == old(Of(id'))
      {
        assert ListOf(id') in old(Of(id')) && ListOf(id') !in old(Of(id));
        assert unchanged(ListOf(id'));
        assert Of(id') == old(Of(id')) && unchanged(old(Of(id')));
      }
    }

    method Dequeue(id: Id) returns (u: nat)
      requires Valid() && id in table && Get(q, id) != []
      modifies `q, parts
      ensures Valid() && u == old(Get(q, id))[0] && u < |links| && q == old(q)[id := old(Get(q, id))[1..]]
    {
      ghost var before, after, first := q, q[id := Get(q, id)[1..]], Get(q, id)[0];
      HoldsAt(id);
      OrderIs(id, Get(q, id));
      OthersApart(id, first);
      OffQueue(id);
      Shorter(before, after, id, first);
      var l := TakeFront(id);
      u := l.thread;
      assert Of(id) <= parts && Here(after, id);
      forall id' | id' != id
        ensures if Known(id') then Of(id') <= parts && Here(after, id') else Get(after, id') == []
      {
        assert Get(after, id') == Get(before, id');
        if Known(id') { assert old(Here(before, id')); }
      }
      forall v: nat ensures Loose(after, v) {
        if v < |links| && OnNone(after, v) && v != first {
          assert OnNone(before, v) && old(Loose(before, v));
          assert links[v] !in old(Of(id));
        }
      }
      assert Show(after);
      q := after;
    }

    /** Where thread u is in its queue. */
    lemma Position(id: Id, order: seq<nat>, u: nat) returns (k: nat)
      requires Holds(id, order) && u in order
      ensures u < |links| && k < |Queued(id)| && Queued(id)[k] == links[u] && links[u] in ListOf(id).items
      ensures Order(Without(Queued(id), k)) == Uthread.Remove(order, u)
    {
      k :| 0 <= k < |order| && order[k] == u;
      OrderIs(id, order);
      RemoveAt(order, u, k);
      OrderWithout(Queued(id), k);
      assert Mine(Queued(id)[k]);
      OnQueue(id, order, links[u]);
    }

    /** utqueue_remove on the queue itself. */
    method CutOut(id: Id, u: nat, ghost k: nat)
      requires Shape() && id in table && Sound(id, Get(q, id)) && u < |links| && links[u] in ListOf(id).items
      requires k < |Queued(id)| && Queued(id)[k] == links[u]
      requires Order(Without(Queued(id), k)) == Uthread.Remove(Get(q, id), u)
      modifies Of(id)
      ensures Unlinked(links[u])
      ensures Holds(id, Uthread.Remove(Get(q, id), u)) && Of(id) <= old(Of(id)) && StandElse(old(Of(id)))
    {
      var l := links[u];
      table[id].Remove(l, k);
      ReversedAt(ListOf(id).items);
      forall id', order | old(Of(id')) !! old(Of(id)) && old(Of(id')) <= parts && old(Sound(id', order))
        ensures Sound(id', order) && Of(id') == old(Of(id'))
      {
        assert ListOf(id') in old(Of(id')) && ListOf(id') !in old(Of(id));
        assert unchanged(ListOf(id'));
        assert Of(id') == old(Of(id')) && unchanged(old(Of(id')));
      }
    }

    method Remove(id: Id, u: nat)
      requires Valid() && id in table && u in Get(q, id)
      modifies `q, parts
      ensures Valid() && q == old(q)[id := Uthread.Remove(old(Get(q, id)), u)]
    {
      ghost var before, after := q, q[id := Uthread.Remove(Get(q, id), u)];
      HoldsAt(id);
      OrderIs(id, Get(q, id));
      OthersApart(id, u);
      OffQueue(id);
      Uthread.RemoveIs(Get(q, id), u);
      Shorter(before, after, id, u);
      ghost var k := Position(id, Get(q, id), u);
      CutOut(id, u, k);
      assert Of(id) <= parts && Here(after, id);
      forall id' | id' != id
        ensures if Known(id') then Of(id') <= parts && Here(after, id') else Get(after, id') == []
      {
        assert Get(after, id') == Get(before, id');
        if Known(id') { assert old(Here(before, id')); }
      }
      forall v: nat ensures Loose(after, v) {
        if v < |links| && OnNone(after, v) && v != u {
          assert OnNone(before, v) && old(Loose(before, v));
          assert links[v] !in old(Of(id));
        }
      }
      assert Show(after);
      q := after;
    }

    /** list_insert_tail on the reaper's list. */
    method AppendReap(l: Link)
      requires Shape() && Sound(Uthread.Reapq, Get(q, Uthread.Reapq)) && Mine(l) && Unlinked(l)
      modifies Of(Uthread.Reapq), l
      ensures Holds(Uthread.Reapq, Get(q, Uthread.Reapq) + [l.thread]) && Of(Uthread.Reapq) <= old(Of(Uthread.Reapq)) + {l}
      ensures StandElse(old(Of(Uthread.Reapq)) + {l})
    {
      OrderSnoc(reap.items, l);
      assert Inserted(reap.items, |reap.items|, l) == reap.items + [l];
      reap.InsertBefore(reap.head, l, |reap.items|);
      forall id', order | old(Of(id')) !! old(Of(Uthread.Reapq)) + {l} && old(Of(id')) <= parts && old(Sound(id', order))
        ensures Sound(id', order) && Of(id') == old(Of(id'))
      {
        assert ListOf(id') in old(Of(id')) && ListOf(id') !in old(Of(Uthread.Reapq));
        assert unchanged(ListOf(id'));
        assert Of(id') == old(Of(id')) && unchanged(old(Of(id')));
      }
    }

    method EnqueueReap(u: nat)
      requires Valid() && u < |links| && OnNone(q, u)
      modifies `q, parts
      ensures Valid() && q == old(q)[Uthread.Reapq := old(Get(q, Uthread.Reapq)) + [u]]
    {
      ghost var before, after := q, q[Uthread.Reapq := Get(q, Uthread.Reapq) + [u]];
      var l := links[u];
      HoldsAt(Uthread.Reapq);
      LinkedIff(u);
      OthersApart(Uthread.Reapq, u);
      OffQueue(Uthread.Reapq);
      Longer(before, after, Uthread.Reapq, u);
      AppendReap(l);
      assert Of(Uthread.Reapq) <= parts && Here(after, Uthread.Reapq);
      forall id' | id' != Uthread.Reapq
        ensures if Known(id') then Of(id') <= parts && Here(after, id') else Get(after, id') == []
      {
        assert Get(after, id') == Get(before, id');
        if Known(id') { assert old(Here(before, id')); }
      }
      forall v: nat ensures Loose(after, v) {
        if v < |links| && OnNone(after, v) {
          assert OnNone(before, v) && old(Loose(before, v));
          assert links[v] !in old(Of(Uthread.Reapq)) && links[v] != l;
        }
      }
      assert Show(after);
      q := after;
    }

    /** One turn of the reaper's walk on the list itself. */
    method TakeReap(link: Link) returns (next: Link)
      requires Shape() && Sound(Uthread.Reapq, Get(q, Uthread.Reapq)) && reap.items != [] && link == reap.items[0]
      modifies Of(Uthread.Reapq)
      ensures Get(q, Uthread.Reapq) != [] && Mine(link) && link.thread == Get(q, Uthread.Reapq)[0] && link in old(Of(Uthread.Reapq))
      ensures Unlinked(link) && next == reap.At(0)
      ensures Holds(Uthread.Reapq, Get(q, Uthread.Reapq)[1..]) && Of(Uthread.Reapq) <= old(Of(Uthread.Reapq))
      ensures StandElse(old(Of(Uthread.Reapq)))
    {
      ghost var items := reap.items;
      assert Mine(Queued(Uthread.Reapq)[0]);
      next := TakeFirst(reap, link);
      assert items[1..] == reap.items && Order(items[1..]) == Order(items)[1..];
      forall id', order | old(Of(id')) !! old(Of(Uthread.Reapq)) && old(Of(id')) <= parts && old(Sound(id', order))
        ensures Sound(id', order) && Of(id') == old(Of(id'))
      {
        assert ListOf(id') in old(Of(id')) && ListOf(id') !in old(Of(Uthread.Reapq));
        assert unchanged(ListOf(id'));
        assert Of(id') == old(Of(id')) && unchanged(old(Of(id')));
      }
    }

    /** Where the reaper's walk stands. */
    ghost predicate AtFront(link: Link)
      reads `q, reap
    {
      link == reap.At(0) && (link == reap.head <==> Get(q, Uthread.Reapq) == [])
    }

    lemma FrontIs()
      requires Valid()
      ensures AtFront(reap.At(0))
      ensures |reap.items| == |Get(q, Uthread.Reapq)|
    {
      HoldsAt(Uthread.Reapq);
      AtHeader(reap);
    }

    /** list_iterate_begin */
    method FirstReap() returns (link: Link)
      requires Valid()
      ensures AtFront(link)
    {
      FrontIs();
      HoldsAt(Uthread.Reapq);
      link := reap.head.next;
    }

    /** One turn of the reaper's walk: the thread visited leaves the list. */
    method DequeueReap(link: Link) returns (next: Link, u: nat)
      requires Valid() && AtFront(link) && link != reap.head
      modifies `q, parts
      ensures Valid() && u == old(Get(q, Uthread.Reapq))[0] && u < |links| && AtFront(next)
      ensures q == old(q)[Uthread.Reapq := old(Get(q, Uthread.Reapq))[1..]]
    {
      ghost var before, after := q, q[Uthread.Reapq := Get(q, Uthread.Reapq)[1..]];
      HoldsAt(Uthread.Reapq);
      OrderIs(Uthread.Reapq, Get(q, Uthread.Reapq));
      FrontIs();
      u := link.thread;
      OthersApart(Uthread.Reapq, Get(q, Uthread.Reapq)[0]);
      OffQueue(Uthread.Reapq);
      Shorter(before, after, Uthread.Reapq, Get(q, Uthread.Reapq)[0]);
      next := TakeReap(link);
      assert Of(Uthread.Reapq) <= parts && Here(after, Uthread.Reapq);
      forall id' | id' != Uthread.Reapq
        ensures if Known(id') then Of(id') <= parts && Here(after, id') else Get(after, id') == []
      {
        assert Get(after, id') == Get(before, id');
        if Known(id') { assert old(Here(before, id')); }
      }
      forall v: nat ensures Loose(after, v) {
        if v < |links| && OnNone(after, v) && v != u {
          assert OnNone(before, v) && old(Loose(before, v));
          assert links[v] !in old(Of(Uthread.Reapq));
        }
      }
      assert Show(after);
      q := after;
      FrontIs();
    }
  }
}
