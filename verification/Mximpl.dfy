// The mutex as its code runs: whole calls, with no step of another call in between.
module Mximpl {
  import opened Lists

  class MxWait {
    var next: MxWait?

    constructor ()
      ensures next == null
    {
      next := null;
    }
  }

  datatype MxState = Free | Taken | Waiters(head: MxWait) {
    function GetWaiter(): MxWait? {
      if Waiters? then head else null
    }
  }

  ghost predicate Distinct(s: seq<MxWait>) {
    forall e | e in s :: multiset(s)[e] == 1
  }

  lemma DistinctHead(s: seq<MxWait>)
    requires Distinct(s) && s != []
    ensures s[0] !in s[1..] && Distinct(s[1..])
  {
    assert s == [s[0]] + s[1..];
    assert multiset(s)[s[0]] == 1;
    forall e | e in s[1..] ensures multiset(s[1..])[e] == 1 { assert e in s; }
  }

  lemma DistinctMore(s: seq<MxWait>, t: seq<MxWait>, e: MxWait)
    requires Distinct(s + t) && e !in s && e !in t
    ensures Distinct(s + ([e] + t))
  {
    forall x | x in s + ([e] + t) ensures multiset(s + ([e] + t))[x] == 1 {
      assert x != e ==> x in s + t;
      assert multiset(s + t)[e] == 0;
    }
  }

  lemma MoveOne(todo: seq<MxWait>, done: seq<MxWait>)
    requires todo != [] && Distinct(todo + done)
    ensures todo[0] !in todo[1..] && todo[0] !in done
    ensures Distinct(todo[1..] + ([todo[0]] + done))
    ensures Reversed<MxWait>(todo) + done == Reversed<MxWait>(todo[1..]) + ([todo[0]] + done)
  {
    var c, rest := todo[0], todo[1..];
    assert todo + done == [c] + (rest + done);
    DistinctHead(todo + done);
    assert (todo + done)[1..] == rest + done;
    assert c !in rest + done;
    assert c !in rest && c !in done;
    DistinctMore(rest, done, c);
  }

  // following next from root visits s and ends at null
  ghost predicate Linked(root: MxWait?, s: seq<MxWait>)
    reads s
    decreases |s|
  {
    if s == [] then root == null else root == s[0] && Linked(s[0].next, s[1..])
  }

  class MutexImpl {
    var state: MxState
    var waiters: MxWait?
    ghost var ready: seq<MxWait>
    ghost var stack: seq<MxWait>

    ghost predicate Valid()
      reads this, ready, stack
    {
      && Linked(waiters, ready) && Linked(state.GetWaiter(), stack)
      && Distinct(ready + stack)
      && (state.Free? ==> ready == [])
      && (state.Waiters? <==> stack != [])
    }

    // those who wait, oldest first
    ghost function Queue(): seq<MxWait>
      reads this
    {
      ready + Reversed<MxWait>(stack)
    }

    constructor ()
      ensures Valid() && state == Free && Queue() == []
    {
      state, waiters, ready, stack := Free, null, [], [];
    }

    // The number of exchanges that fail although the expected value is there comes from outside.
    method Lock(entry: MxWait, spurious: nat) returns (owned: bool)
      requires Valid() && entry !in Queue()
      modifies this, entry
      ensures Valid() && !state.Free?
      ensures owned == old(state.Free?)
      ensures Queue() == if owned then [] else old(Queue()) + [entry]
    {
      assert entry !in ready && entry !in stack by {
        ReversedMultiset<MxWait>(stack);
        assert multiset(stack)[entry] == multiset(Reversed<MxWait>(stack))[entry];
      }
      var expected, desired, left := Free, Taken, spurious;
      while state != expected || left > 0
        invariant Valid() && unchanged(this)
        invariant if expected == Free then desired == Taken
                  else expected == state && desired == Waiters(entry) && entry.next == state.GetWaiter()
        decreases left, if state == expected then 0 else 1
      {
        if state == expected { left := left - 1; }
        expected := state;
        if !expected.Free? {
          entry.next := expected.GetWaiter();
          desired := Waiters(entry);
        } else {
          desired := Taken;
        }
      }
      state := desired;
      if !expected.Free? {
        stack := [entry] + stack;
        assert stack[1..] == old(stack);
        DistinctMore(old(ready), old(stack), entry);
      }
      owned := expected.Free?;
    }

    method TryLock(spurious: nat) returns (owned: bool)
      requires Valid()
      modifies this
      ensures Valid() && !state.Free? && Queue() == old(Queue())
      ensures owned == old(state.Free?)
    {
      var left := spurious;
      while state != Free || left > 0
        invariant Valid() && unchanged(this)
        decreases left
      {
        if state != Free { return false; }
        left := left - 1;
      }
      state := Taken;
      owned := true;
    }

    // Returns the waiter whose coroutine is resumed: it owns the mutex from then on.
    method Release() returns (resumed: MxWait?)
      requires Valid() && !state.Free?
      modifies this, stack
      ensures Valid()
      ensures old(Queue()) == [] ==> resumed == null && state.Free? && Queue() == []
      ensures old(Queue()) != [] ==> resumed == old(Queue())[0] && !state.Free?
      ensures old(Queue()) != [] ==> Queue() == old(Queue())[1..]
    {
      var head := waiters;
      if head == null {
        if state == Taken {
          state := Free;
          return null;
        }
        head := Grab();
      }
      DistinctHead(ready + stack);
      assert (ready + stack)[1..] == ready[1..] + stack;
      assert Queue() == old(Queue()) && Queue()[1..] == ready[1..] + Reversed<MxWait>(stack);
      resumed := head;
      waiters := head.next;
      ready := ready[1..];
    }

    // The exchange and the reversal in release().
    method Grab() returns (head: MxWait?)
      requires Valid() && state.Waiters? && waiters == null
      modifies this, stack
      ensures state == Taken && waiters == null && stack == [] && ready == Reversed<MxWait>(old(stack))
      ensures Linked(head, ready) && Distinct(ready + stack) && ready != []
    {
      var cur := state.GetWaiter();
      state := Taken;
      assert ready + stack == stack;
      head := Reverse(cur, stack);
      ready, stack := Reversed<MxWait>(stack), [];
      assert ready + stack == ready;
    }

    static method Reverse(first: MxWait?, ghost list: seq<MxWait>) returns (head: MxWait?)
      requires Linked(first, list) && Distinct(list)
      modifies list
      ensures Linked(head, Reversed<MxWait>(list)) && Distinct(Reversed<MxWait>(list))
    {
      var cur := first;
      head := null;
      ghost var todo, done: seq<MxWait> := list, [];
      while cur != null
        invariant Linked(cur, todo) && Linked(head, done) && Distinct(todo + done)
        invariant Reversed<MxWait>(list) == Reversed<MxWait>(todo) + done
        invariant forall e | e in todo :: e in list
        decreases |todo|
      {
        assert todo[0] in list;
        MoveOne(todo, done);
        ghost var was := done;
        var next := cur.next;
        cur.next := head;
        head := cur;
        cur := next;
        todo, done := todo[1..], [todo[0]] + done;
        assert done[1..] == was;
      }
      assert todo == [] && Reversed<MxWait>(list) == done;
      assert todo + done == done;
    }
  }
}
