// The run queue: items that may be served, and getters that wait for one.
module Runques {
  import opened Lists

  // The three disciplines of the run queue's item container.
  datatype Order<!T> = Fifo | Lifo | Priority(rank: T -> int) {
    // pop() may return the element at index i of the items, which are in order of insertion
    predicate Picks(items: seq<T>, i: nat)
      requires i < |items|
    {
      match this
      case Fifo => i == 0
      case Lifo => i == |items| - 1
      case Priority(rank) => forall j | 0 <= j < |items| :: rank(items[j]) <= rank(items[i])
    }
  }

  datatype Outcome<T> = Pending | Thrown | Got(value: T)

  // runque_awaitable: a getter that found nothing, linked into the stack of waiters.
  class Awaitable<T> {
    var next: Awaitable?<T>
    var result: Outcome<T>

    constructor (next: Awaitable?<T>)
      ensures this.next == next && result == Pending
    {
      this.next, result := next, Pending;
    }

    method Resume(outcome: Outcome<T>)
      requires result == Pending && outcome != Pending
      modifies this`result
      ensures result == outcome
    {
      result := outcome;
    }
  }

  ghost function Nth<T>(list: seq<Awaitable<T>>, i: nat): Awaitable?<T> {
    if i < |list| then list[i] else null
  }

  ghost predicate Chained<T>(head: Awaitable?<T>, list: seq<Awaitable<T>>)
    reads list
  {
    && (forall i, j | 0 <= i < j < |list| :: list[i] != list[j])
    && head == Nth(list, 0)
    && (forall i | 0 <= i < |list| :: list[i].next == Nth(list, i + 1))
    && (forall i | 0 <= i < |list| :: list[i].result == Pending)
  }

  lemma ChainedTail<T>(head: Awaitable?<T>, list: seq<Awaitable<T>>)
    requires Chained(head, list) && list != []
    ensures Chained(list[0].next, list[1..])
  {
    var tail := list[1..];
    forall i | 0 <= i < |tail| ensures tail[i].next == Nth(tail, i + 1) && tail[i].result == Pending {
      assert tail[i] == list[i + 1];
    }
  }

  lemma ChainedCons<T>(a: Awaitable<T>, list: seq<Awaitable<T>>)
    requires a !in list && Chained(a.next, list) && a.result == Pending
    ensures Chained(a, [a] + list)
  {
    var all := [a] + list;
    forall i | 0 <= i < |all| ensures all[i].next == Nth(all, i + 1) && all[i].result == Pending {
      if i > 0 { assert all[i] == list[i - 1]; }
    }
  }

  // Every accepted value is stored or was given to a getter; in FIFO order, in exactly that order.
  ghost predicate Accounted<T>(fifo: bool, log: seq<T>, items: seq<T>, given: seq<T>) {
    && multiset(log) == multiset(items) + multiset(given)
    && (fifo ==> log == given + items)
  }

  lemma AccountStored<T>(fifo: bool, log: seq<T>, items: seq<T>, given: seq<T>, v: T)
    requires Accounted(fifo, log, items, given)
    ensures Accounted(fifo, log + [v], items + [v], given)
  {
    assert given + (items + [v]) == (given + items) + [v];
  }

  lemma AccountHanded<T>(fifo: bool, log: seq<T>, given: seq<T>, v: T)
    requires Accounted(fifo, log, [], given)
    ensures Accounted(fifo, log + [v], [], given + [v])
  {}

  lemma AccountTaken<T>(order: Order<T>, log: seq<T>, items: seq<T>, given: seq<T>, i: nat)
    requires i < |items| && order.Picks(items, i)
    requires Accounted(order.Fifo?, log, items, given)
    ensures Accounted(order.Fifo?, log, Without(items, i), given + [items[i]])
  {
    WithoutMultiset(items, i);
    if order.Fifo? { assert given + items == (given + [items[0]]) + Without(items, 0); }
  }

  lemma Shifted<T>(takers: seq<T>, parked: seq<T>)
    requires parked != []
    ensures takers + [parked[0]] + parked[1..] == takers + parked
  {}

  class Runque<T(==)> {
    const order: Order<T>
    var waiters: Awaitable?<T>
    var items: seq<T>
    var interrupted: bool
    // history: the parked getters from the top of the stack, the accepted values, the given values and
    // for each of these the getter that had been parked for it, null if none had; the refused getters
    ghost var parked: seq<Awaitable<T>>
    ghost var log: seq<T>
    ghost var given: seq<T>
    ghost var takers: seq<Awaitable?<T>>
    ghost var refused: seq<Awaitable<T>>

    ghost predicate Valid()
      reads this, Getters()
    {
      Sorted() && Answered(|takers|)
    }

    // Everything but the answers: a getter is resumed after the lock was given up.
    ghost predicate Sorted()
      reads this, parked
    {
      && Chained(waiters, parked)
      && (items != [] ==> parked == [])
      && (interrupted ==> parked == [])
      && Accounted(order.Fifo?, log, items, given)
      && |takers| == |given|
    }

    // What the first n of the getters that had been parked, and the refused, have come back with.
    ghost predicate Answered(n: nat)
      requires n <= |takers| <= |given|
      reads this, Getters()
    {
      && (forall i | 0 <= i < n && takers[i] != null :: takers[i].result == Got(given[i]))
      && (forall a | a in refused :: a.result == Thrown)
    }

    lemma TakerAnswered(i: nat)
      requires Valid() && i < |takers| && takers[i] != null
      ensures |takers| == |given| && takers[i].result == Got(given[i])
    {}

    ghost function Getters(): set<Awaitable<T>>
      reads this
    {
      Cells() + (set a | a in refused) + set a: Awaitable<T> | a in takers
    }

    // Getters were served from the top of the stack down, and otherwise the stack is as it was.
    twostate predicate Handed()
      reads this
    {
      refused == old(refused) && old(given) <= given && takers + parked == old(takers + parked)
    }

    // ... and those left were refused.
    twostate predicate Closed()
      reads this
    {
      && old(refused) <= refused && old(given) <= given && parked == []
      && takers + refused[|old(refused)|..] == old(takers + parked)
    }

    ghost function Cells(): set<Awaitable<T>>
      reads this
    {
      set a | a in parked
    }

    constructor (order: Order<T>)
      ensures Valid() && this.order == order && !interrupted
      ensures items == [] && parked == [] && log == [] && given == [] && takers == [] && refused == []
    {
      this.order := order;
      waiters, items, interrupted := null, [], false;
      parked, log, given, takers, refused := [], [], [], [], [];
    }

    method Pop() returns (v: T, ghost i: nat)
      requires items != []
      modifies this`items
      ensures i < |old(items)| && order.Picks(old(items), i)
      ensures v == old(items)[i] && items == Without(old(items), i)
    {
      var k := 0;
      match order {
        case Fifo =>
        case Lifo => k := |items| - 1;
        case Priority(rank) =>
          for j := 1 to |items|
            invariant k < |items|
            invariant forall l | 0 <= l < j :: rank(items[l]) <= rank(items[k])
          {
            if rank(items[k]) < rank(items[j]) { k := j; }
          }
      }
      v, i := items[k], k;
      items := items[..k] + items[k + 1..];
    }

    // get(): throws, takes an item, or parks the caller on top of the stack of waiters
    method Get() returns (r: Outcome<T>, a: Awaitable?<T>)
      requires Valid()
      modifies this
      ensures Valid() && log == old(log) && interrupted == old(interrupted) && refused == old(refused)
      ensures takers == old(takers) + if r.Got? then [null] else []
      ensures interrupted ==> r == Thrown && items == old(items) && parked == old(parked) && given == old(given)
      ensures !interrupted && old(items) != [] ==>
        && r.Got? && parked == old(parked) && given == old(given) + [r.value]
        && exists i ::
             && 0 <= i < |old(items)| && order.Picks(old(items), i)
             && r.value == old(items)[i] && items == Without(old(items), i)
      ensures !interrupted && old(items) == [] ==>
        r == Pending && a != null && fresh(a) && parked == [a] + old(parked) && items == [] && given == old(given)
    {
      if interrupted {
        return Thrown, null;
      }
      if items != [] {
        var v := Take();
        return Got(v), null;
      }
      a := Park();
      r := Pending;
    }

    method Take() returns (v: T)
      requires Valid() && items != []
      modifies this`items, this`given, this`takers
      ensures Valid() && given == old(given) + [v] && takers == old(takers) + [null]
      ensures exists i ::
        0 <= i < |old(items)| && order.Picks(old(items), i) && v == old(items)[i] && items == Without(old(items), i)
    {
      ghost var before := items;
      ghost var i: nat;
      v, i := Pop();
      AccountTaken(order, log, before, given, i);
      given := given + [v];
      takers := takers + [null];
    }

    method Park() returns (a: Awaitable<T>)
      requires Valid() && items == [] && !interrupted
      modifies this`waiters, this`parked
      ensures Valid() && fresh(a) && parked == [a] + old(parked)
    {
      a := new Awaitable(waiters);
      ChainedCons(a, parked);
      waiters := a;
      parked := [a] + parked;
    }

    // put(): stores the value or hands it to the getter parked last
    method Put(v: T) returns (ok: bool)
      requires Valid()
      modifies this, parked
      ensures Valid() && interrupted == old(interrupted) && Handed()
      ensures ok == !interrupted
      ensures !ok ==> log == old(log) && items == old(items) && given == old(given) && parked == old(parked)
      ensures ok ==> log == old(log) + [v]
      ensures ok && old(parked) == [] ==> items == old(items) + [v] && given == old(given) && parked == []
      ensures ok && old(parked) != [] ==>
        && items == old(items) && given == old(given) + [v]
        && old(parked)[0].result == Got(v) && parked == old(parked)[1..]
    {
      if interrupted {
        return false;
      }
      if waiters == null {
        Store(v);
      } else {
        Give(v);
      }
      ok := true;
    }

    method Give(v: T)
      requires Valid() && !interrupted && parked != []
      modifies this`waiters, this`parked, this`log, this`given, this`takers, parked
      ensures Valid() && Handed() && log == old(log) + [v] && given == old(given) + [v]
      ensures old(parked)[0].result == Got(v) && parked == old(parked)[1..]
    {
      var awaken := Choose(v);
      Hand(awaken, v);
      Shifted(old(takers), old(parked));
    }

    method Store(v: T)
      requires Valid() && !interrupted && parked == []
      modifies this`items, this`log
      ensures Valid() && items == old(items) + [v] && log == old(log) + [v]
    {
      AccountStored(order.Fifo?, log, items, given, v);
      items := items + [v];
      log := log + [v];
    }

    // takes the getter on top off the stack; it is resumed after the lock was given up
    method Choose(v: T) returns (awaken: Awaitable<T>)
      requires Valid() && !interrupted && parked != []
      modifies this`waiters, this`parked, this`log, this`given, this`takers
      ensures Sorted() && awaken == old(parked)[0] && parked == old(parked)[1..]
      ensures awaken.result == Pending && awaken !in parked
      ensures log == old(log) + [v] && given == old(given) + [v] && takers == old(takers) + [awaken]
      ensures Answered(|old(takers)|)
    {
      assert Accounted(order.Fifo?, log + [v], items, given + [v]) by { AccountHanded(order.Fifo?, log, given, v); }
      awaken := PopWaiter();
      given := given + [v];
      takers := takers + [awaken];
      log := log + [v];
    }

    // resumes the getter with its value
    method Hand(awaken: Awaitable<T>, v: T)
      requires Sorted() && takers != [] && awaken.result == Pending && awaken !in parked
      requires takers[|takers| - 1] == awaken && given[|given| - 1] == v && Answered(|takers| - 1)
      modifies awaken`result
      ensures Valid() && awaken.result == Got(v)
    {
      awaken.Resume(Got(v));
    }

    method PopWaiter() returns (awaken: Awaitable<T>)
      requires Valid() && parked != []
      modifies this`waiters, this`parked
      ensures awaken == old(parked)[0] && parked == old(parked)[1..] && awaken !in parked
      ensures Chained(waiters, parked) && awaken.result == Pending
    {
      ChainedTail(waiters, parked);
      awaken := waiters;
      waiters := awaken.next;
      parked := parked[1..];
    }

    // interrupt(): detaches the whole stack and resumes every parked getter with the exception
    method Interrupt()
      requires Valid()
      modifies this, parked
      ensures Valid() && interrupted && parked == []
      ensures items == old(items) && log == old(log) && given == old(given) && takers == old(takers)
      ensures refused == old(refused) + old(parked)
      ensures forall i | 0 <= i < |old(parked)| :: old(parked)[i].result == Thrown
    {
      ghost var all := parked;
      var list := Detach();
      Apart(all);
      ThrowAll(list, all);
      refused := refused + all;
    }

    method Detach() returns (list: Awaitable?<T>)
      requires Valid()
      modifies this`interrupted, this`waiters, this`parked
      ensures Valid() && interrupted && parked == [] && Chained(list, old(parked))
    {
      interrupted := true;
      list := waiters;
      waiters := null;
      parked := [];
    }

    lemma Apart(all: seq<Awaitable<T>>)
      requires Valid() && forall i | 0 <= i < |all| :: all[i].result == Pending
      ensures forall i | 0 <= i < |takers| && takers[i] != null :: takers[i] !in all
      ensures forall a | a in refused :: a !in all
    {}
  }

  // The loop over the detached stack: a getter may go away once it is resumed, so next is read first.
  method ThrowAll<T>(head: Awaitable?<T>, ghost all: seq<Awaitable<T>>)
    requires Chained(head, all)
    modifies all`result
    ensures forall i | 0 <= i < |all| :: all[i].result == Thrown
  {
    var list := head;
    ghost var n := 0;
    while list != null
      invariant 0 <= n <= |all| && list == Nth(all, n)
      invariant forall i | 0 <= i < |all| :: all[i].result == if i < n then Thrown else Pending
      decreases |all| - n
    {
      var next := list.next;
      list.Resume(Thrown);
      n := n + 1;
      list := next;
    }
  }
}
