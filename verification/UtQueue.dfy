/**
  The circular doubly linked list of list.h, and the thread queue built on it: threads enter at the head of the
  list and leave at its tail, or from the middle.
 */
module UtQueue {

  /** A list_link_t, with the number of the thread it is embedded in; a header is in none, and has -1. */
  class Link {
    const thread: int
    var next: Link?
    var prev: Link?

    constructor (thread: int)
      ensures this.thread == thread && next == null && prev == null
    {
      this.thread := thread;
      next, prev := null, null;
    }
  }

  /** On no list. */
  ghost predicate Unlinked(l: Link)
    reads l
  {
    l.next == null && l.prev == null
  }

  ghost predicate Distinct(s: seq<Link>) {
    forall j, k {:trigger s[j], s[k]} :: 0 <= j < k < |s| ==> s[j] != s[k]
  }

  /** s with l put before position k. */
  ghost function Inserted(s: seq<Link>, k: nat, l: Link): seq<Link>
    requires k <= |s|
  {
    s[..k] + [l] + s[k..]
  }

  ghost function Without(s: seq<Link>, k: nat): seq<Link>
    requires k < |s|
  {
    s[..k] + s[k + 1..]
  }

  lemma DistinctWithout(s: seq<Link>, k: nat, h: Link)
    requires Distinct(s) && k < |s| && h !in s
    ensures Distinct(Without(s, k)) && h !in Without(s, k) && |Without(s, k)| == |s| - 1
    ensures forall j {:trigger Without(s, k)[j]} :: 0 <= j < |s| - 1 ==>
              Without(s, k)[j] == (if j < k then s[j] else s[j + 1]) && Without(s, k)[j] != s[k]
  {
  }

  lemma DistinctInserted(s: seq<Link>, k: nat, l: Link)
    requires Distinct(s) && k <= |s| && l !in s
    ensures Distinct(Inserted(s, k, l)) && (forall m :: m in Inserted(s, k, l) ==> m == l || m in s)
    ensures |Inserted(s, k, l)| == |s| + 1
    ensures forall j {:trigger Inserted(s, k, l)[j]} :: 0 <= j <= |s| ==>
              Inserted(s, k, l)[j] == if j < k then s[j] else if j == k then l else s[j - 1]
  {
  }

  class List {
    const head: Link
    /** The links in the order of l_next. */
    ghost var items: seq<Link>

    /** What comes at position k of s going round; the header is at both ends. */
    ghost function Nth(s: seq<Link>, k: int): Link {
      if 0 <= k < |s| then s[k] else head
    }

    ghost function At(k: int): Link
      reads this
    {
      Nth(items, k)
    }

    /** Following l_next from the header one meets the links of s. */
    ghost predicate Forward(s: seq<Link>)
      reads head`next, s`next
    {
      head.next == Nth(s, 0) && forall k {:trigger s[k].next} :: 0 <= k < |s| ==> s[k].next == Nth(s, k + 1)
    }

    /** And following l_prev, in the opposite order. */
    ghost predicate Backward(s: seq<Link>)
      reads head`prev, s`prev
    {
      head.prev == Nth(s, |s| - 1) && forall k {:trigger s[k].prev} :: 0 <= k < |s| ==> s[k].prev == Nth(s, k - 1)
    }

    ghost predicate Valid()
      reads this, head, items
    {
      head !in items && Distinct(items) && Forward(items) && Backward(items)
    }

    /** list_init */
    constructor ()
      ensures Valid() && items == [] && fresh(head) && head.thread == -1
    {
      head := new Link(-1);
      items := [];
      new;
      head.next, head.prev := head, head;
    }

    /** list_empty */
    method Empty() returns (b: bool)
      requires Valid()
      ensures b <==> items == []
    {
      b := head.next == head;
      assert items != [] ==> items[0] in items;
    }

    /** list_insert_before: l goes before the link at position k; k == |items| is the header. */
    method InsertBefore(old_: Link, l: Link, ghost k: nat)
      requires Valid() && k <= |items| && old_ == At(k) && Unlinked(l) && l != head
      modifies this, head, items, l
      ensures Valid() && items == Inserted(old(items), k, l)
    {
      NotListed(l);
      var before := old_.prev;
      assert before == At(k - 1);
      l.next := old_;
      l.prev := before;
      HookNext(before, l, items, k);
      HookPrev(old_, l, items, k);
      DistinctInserted(items, k, l);
      items := Inserted(items, k, l);
    }

    lemma NotListed(l: Link)
      requires Forward(items) && l.next == null
      ensures l !in items
    {
    }

    method HookNext(before: Link, l: Link, ghost was: seq<Link>, ghost k: nat)
      requires Distinct(was) && head !in was && Forward(was) && k <= |was| && l !in was && l != head
      requires before == Nth(was, k - 1) && l.next == Nth(was, k)
      modifies before`next
      ensures Forward(Inserted(was, k, l))
    {
      before.next := l;
      DistinctInserted(was, k, l);
    }

    method HookPrev(old_: Link, l: Link, ghost was: seq<Link>, ghost k: nat)
      requires Distinct(was) && head !in was && Backward(was) && k <= |was| && l !in was && l != head
      requires old_ == Nth(was, k) && l.prev == Nth(was, k - 1)
      modifies old_`prev
      ensures Backward(Inserted(was, k, l))
    {
      old_.prev := l;
      DistinctInserted(was, k, l);
    }

    /** list_remove, which works on the link alone. */
    method Remove(l: Link, ghost k: nat)
      requires Valid() && k < |items| && l == items[k]
      modifies this, head, items
      ensures Valid() && items == Without(old(items), k) && Unlinked(l)
    {
      Unhook(l, k);
      l.next, l.prev := null, null;
    }

    /** The links before and behind l come to be neighbours. */
    method Unhook(l: Link, ghost k: nat)
      requires Valid() && k < |items| && l == items[k]
      modifies this, head, items
      ensures Valid() && items == Without(old(items), k) && l !in items
    {
      assert items[k].next == At(k + 1) && items[k].prev == At(k - 1);
      var prev, next := l.prev, l.next;
      SetNext(prev, next, items, k);
      SetPrev(next, prev, items, k);
      DistinctWithout(items, k, head);
      items := Without(items, k);
    }

    method SetNext(prev: Link, next: Link, ghost was: seq<Link>, ghost k: nat)
      requires Distinct(was) && head !in was && Forward(was) && k < |was|
      requires prev == Nth(was, k - 1) && next == Nth(was, k + 1)
      modifies prev`next
      ensures Forward(Without(was, k))
    {
      prev.next := next;
      DistinctWithout(was, k, head);
    }

    method SetPrev(next: Link, prev: Link, ghost was: seq<Link>, ghost k: nat)
      requires Distinct(was) && head !in was && Backward(was) && k < |was|
      requires prev == Nth(was, k - 1) && next == Nth(was, k + 1)
      modifies next`prev
      ensures Backward(Without(was, k))
    {
      next.prev := prev;
      DistinctWithout(was, k, head);
    }
  }

  /** The threads in the order they will leave a queue: the tail of the list first. */
  ghost function Reversed(s: seq<Link>): seq<Link> {
    if s == [] then [] else Reversed(s[1..]) + [s[0]]
  }

  lemma {:induction false} ReversedAt(s: seq<Link>)
    ensures |Reversed(s)| == |s| && forall k :: 0 <= k < |s| ==> Reversed(s)[k] == s[|s| - 1 - k]
  {
    if s != [] { ReversedAt(s[1..]); }
  }

  lemma ReversedPush(s: seq<Link>, l: Link)
    ensures Reversed([l] + s) == Reversed(s) + [l]
  {
    assert ([l] + s)[1..] == s;
  }

  lemma {:induction false} ReversedWithout(s: seq<Link>, k: nat)
    requires k < |s|
    ensures |Reversed(s)| == |s|
    ensures Reversed(Without(s, k)) == Without(Reversed(s), |s| - 1 - k)
  {
    var rest := s[1..];
    ReversedAt(rest);
    if k == 0 {
      assert Without(s, 0) == rest;
      assert Without(Reversed(s), |s| - 1) == Reversed(rest);
    } else {
      ReversedWithout(rest, k - 1);
      assert Without(s, k) == [s[0]] + Without(rest, k - 1);
      ReversedPush(Without(rest, k - 1), s[0]);
      assert Without(Reversed(rest) + [s[0]], |s| - 1 - k) == Without(Reversed(rest), |s| - 1 - k) + [s[0]];
    }
  }

  /** uthread_queue.c */
  class UtQueue {
    const waiters: List
    var size: int

    ghost predicate Valid()
      reads this, waiters, waiters.head, waiters.items
    {
      waiters.Valid() && size == |waiters.items|
    }

    /** The queue, the thread that came first at the front. */
    ghost function Fifo(): seq<Link>
      reads this, waiters
    {
      Reversed(waiters.items)
    }

    /** utqueue_init */
    constructor ()
      ensures Valid() && Fifo() == [] && fresh(waiters) && fresh(waiters.head) && waiters.head.thread == -1
    {
      waiters := new List();
      size := 0;
    }

    /** utqueue_empty */
    method Empty() returns (b: bool)
      requires Valid()
      ensures b <==> Fifo() == []
    {
      ReversedAt(waiters.items);
      b := waiters.Empty();
      assert b == (size == 0);
    }

    /** utqueue_enqueue */
    method Enqueue(l: Link)
      requires Valid() && Unlinked(l) && l != waiters.head
      modifies this, waiters, waiters.head, waiters.items, l
      ensures Valid() && Fifo() == old(Fifo()) + [l] && waiters.items == [l] + old(waiters.items)
    {
      ReversedPush(waiters.items, l);
      assert waiters.items != [] ==> waiters.head.next == waiters.items[0];
      assert Inserted(waiters.items, 0, l) == [l] + waiters.items;
      waiters.InsertBefore(waiters.head.next, l, 0);
      size := size + 1;
    }

    /** utqueue_dequeue: the thread that has waited longest, or none. */
    method Dequeue() returns (l: Link?)
      requires Valid()
      modifies this, waiters, waiters.head, waiters.items
      ensures Valid()
      ensures old(Fifo()) == [] ==> l == null && Fifo() == []
      ensures old(Fifo()) != [] ==> l == old(Fifo())[0] && Fifo() == old(Fifo())[1..] && Unlinked(l)
      ensures forall m :: m in waiters.items ==> m in old(waiters.items)
    {
      ReversedAt(waiters.items);
      var empty := Empty();
      if empty { return null; }
      var n := |waiters.items|;
      ReversedWithout(waiters.items, n - 1);
      l := waiters.head.prev;
      waiters.Remove(l, n - 1);
      size := size - 1;
      assert Without(old(Fifo()), 0) == old(Fifo())[1..];
    }

    /** utqueue_remove */
    method Remove(l: Link, ghost k: nat)
      requires Valid() && k < |Fifo()| && Fifo()[k] == l
      modifies this, waiters, waiters.head, waiters.items
      ensures Valid() && Fifo() == Without(old(Fifo()), k) && Unlinked(l)
      ensures forall m :: m in waiters.items ==> m in old(waiters.items)
    {
      ReversedAt(waiters.items);
      ghost var j := |waiters.items| - 1 - k;
      ReversedWithout(waiters.items, j);
      waiters.Remove(l, j);
      size := size - 1;
    }
  }

  /** The threads the links are embedded in. */
  function Threads(s: seq<Link>): seq<int> {
    if s == [] then [] else [s[0].thread] + Threads(s[1..])
  }

  /** One step of a walk that removes what it visits. */
  method TakeFirst(list: List, link: Link) returns (next: Link)
    requires list.Valid() && list.items != [] && link == list.items[0]
    modifies list, list.head, list.items
    ensures list.Valid() && old(list.items) == [link] + list.items && Unlinked(link) && next == list.At(0)
  {
    assert list.items[0].next == list.At(1);
    next := link.next;
    list.Remove(link, 0);
  }

  /** list_iterate_begin to list_iterate_end with a list_remove in between, on any list: the macro looks up the next
      link before the current one goes.  order holds the threads in the order they were taken off. */
  method DrainAll(list: List) returns (order: seq<int>)
    requires list.Valid()
    modifies list, list.head, list.items
    ensures list.Valid() && list.items == []
    ensures order == Threads(old(list.items))
    ensures forall l :: l in old(list.items) ==> Unlinked(l)
  {
    ghost var was := list.items;
    order := [];
    var link := list.head.next;
    AtHeader(list);
    while link != list.head
      invariant list.Valid() && link == list.At(0) && (link == list.head <==> list.items == [])
      invariant order + Threads(list.items) == Threads(was)
      invariant forall k :: 0 <= k < |list.items| ==> list.items[k] in was
      invariant forall l :: l in was && l !in list.items ==> Unlinked(l)
      decreases |list.items|
    {
      ghost var before := list.items;
      order := order + [link.thread];
      link := TakeFirst(list, link);
      assert before[1..] == list.items;
      AtHeader(list);
    }
  }

  lemma AtHeader(list: List)
    requires list.Valid()
    ensures list.At(0) == list.head <==> list.items == []
  {
    assert list.items != [] ==> list.items[0] in list.items;
  }
}
