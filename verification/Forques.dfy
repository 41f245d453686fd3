// The queue as an object: a root chain, a run queue and the items, tied to the states of System.
module Forques {
  import opened Tags
  import opened Values
  import opened Lists
  import opened Runques
  import opened Chains
  import T = Trees
  import C = Cascade
  import S = System
  import R = Runs
  import opened Places
  import opened Flat
  import opened Survivors

  lemma {:induction false} BuildOccurs(s: seq<Item>, q: seq<Key>, x: nat)
    requires Occurs(Build(s), q, x)
    ensures exists i :: 0 <= i < |s| && s[i] == Item(x, q)
  {
    if s == [] {
      FreshOccurs(true, q, x);
    } else {
      var r, l := s[..|s| - 1], s[|s| - 1];
      OccursReserve(Build(r), l.path, l.id, q, x);
      if Occurs(Build(r), q, x) {
        BuildOccurs(r, q, x);
        var i :| 0 <= i < |r| && r[i] == Item(x, q);
        assert s[i] == Item(x, q);
      }
    }
  }

  lemma BuildUnique(paths: seq<seq<Key>>, done: set<nat>)
    ensures PathUnique(Build(Remaining(paths, done)))
  {
    var s := Remaining(paths, done);
    forall q, r, x | Occurs(Build(s), q, x) && Occurs(Build(s), r, x) ensures q == r {
      BuildOccurs(s, q, x);
      BuildOccurs(s, r, x);
      SurvivorsLive(paths, done);
    }
  }

  lemma {:induction false} ReserveOccurs(t: T.Tree, z: seq<Key>, y: nat, q: seq<Key>, x: nat)
    requires Occurs(t, q, x) || (q == z && x == y)
    ensures Occurs(T.Reserve(t, z, y), q, x)
    decreases |z|
  {
    var t' := T.Reserve(t, z, y);
    if Occurs(t, q, x) {
      var i: nat :| i <= |t.later| && OccursIn(SegAt(t, i), q, x);
      if i == |t.later| && z != [] && q != [] && q[0] == z[0] {
        ReserveOccurs(T.ChildFor(T.Last(t), z[0]), z[1..], y, q[1..], x);
      }
      assert OccursIn(SegAt(t', i), q, x);
    } else if z == [] {
      assert OccursIn(SegAt(t', |t'.later|), q, x);
    } else {
      ReserveOccurs(T.ChildFor(T.Last(t), z[0]), z[1..], y, q[1..], x);
      assert OccursIn(SegAt(t', |t.later|), q, x);
    }
  }

  lemma {:induction false} LiveOccurs(paths: seq<seq<Key>>, done: set<nat>, x: nat)
    requires Live(paths, done, x)
    ensures Occurs(Build(Remaining(paths, done)), paths[x], x)
    decreases |paths|
  {
    var n := |paths| - 1;
    if x < n { LiveOccurs(paths[..n], done, x); }
    var r := Remaining(paths[..n], done);
    if n in done {
      assert Remaining(paths, done) == r;
    } else {
      BuildSnoc(r, Item(n, paths[n]));
      ReserveOccurs(Build(r), paths[n], n, paths[x], x);
    }
  }

  // Items handed to getters, one after the other.
  ghost predicate Handed(s: S.State, xs: seq<nat>, s': S.State) {
    && multiset(xs) <= s.stored && (xs != [] ==> !s.drained)
    && s' == s.(stored := s.stored - multiset(xs), held := s.held + Elements(xs))
  }

  lemma HandedFirst(s: S.State, xs: seq<nat>, s': S.State) returns (mid: S.State)
    requires Handed(s, xs, s') && xs != []
    ensures S.ObtainStep(s, xs[0], mid) && Handed(mid, xs[1..], s')
  {
    var x, rest := xs[0], xs[1..];
    mid := s.(stored := s.stored - multiset{x}, held := s.held + {x});
    assert xs == [x] + rest;
    assert multiset(xs) == multiset{x} + multiset(rest);
    assert s.stored - multiset(xs) == (s.stored - multiset{x}) - multiset(rest);
    assert Elements(xs) == {x} + Elements(rest);
    assert s.held + Elements(xs) == mid.held + Elements(rest);
  }

  lemma {:induction false} HandedInv(s: S.State, xs: seq<nat>, s': S.State)
    requires S.Inv(s) && Handed(s, xs, s')
    ensures S.Inv(s')
    decreases |xs|
  {
    if xs == [] {
      HandedNone(s, s');
    } else {
      var mid := HandedFirst(s, xs, s');
      S.ObtainInv(s, xs[0], mid);
      HandedInv(mid, xs[1..], s');
    }
  }

  lemma HandedNone(s: S.State, s': S.State)
    ensures Handed(s, [], s') <==> s' == s
  {
    var none: seq<nat> := [];
    assert multiset(none) == multiset{} && Elements(none) == {};
    assert s.stored - multiset(none) == s.stored && s.held + Elements(none) == s.held;
  }

  // What a call does: one event, and then the items xs handed to getters that had been waiting.
  ghost predicate Did(s: S.State, e: S.Event, xs: seq<nat>, s': S.State) {
    exists mid :: S.Step(s, e, mid) && Handed(mid, xs, s')
  }

  lemma DidInv(s: S.State, e: S.Event, xs: seq<nat>, s': S.State)
    requires S.Inv(s) && Did(s, e, xs, s')
    ensures S.Inv(s')
  {
    var mid :| S.Step(s, e, mid) && Handed(mid, xs, s');
    S.StepInv(s, e, mid);
    HandedInv(mid, xs, s');
  }

  lemma RunOn(kind: Kind, states: seq<S.State>, events: seq<S.Event>, e: S.Event, s: S.State)
    requires R.Run(kind, states, events) && S.Step(states[|events|], e, s)
    ensures R.Run(kind, states + [s], events + [e])
  {
    var ss, es := states + [s], events + [e];
    forall i | 0 <= i < |es| ensures S.Step(ss[i], es[i], ss[i + 1]) {
      if i < |events| { assert S.Step(states[i], events[i], states[i + 1]); }
    }
  }

  lemma {:induction false} HandedRun(kind: Kind, states: seq<S.State>, events: seq<S.Event>, xs: seq<nat>, s: S.State)
    returns (ss: seq<S.State>, es: seq<S.Event>)
    requires R.Run(kind, states, events) && Handed(states[|events|], xs, s)
    ensures R.Run(kind, ss, es) && ss[|es|] == s && states <= ss && events <= es
    decreases |xs|
  {
    if xs == [] {
      HandedNone(states[|events|], s);
      ss, es := states, events;
    } else {
      var mid := HandedFirst(states[|events|], xs, s);
      RunOn(kind, states, events, S.ObtainEvent(xs[0]), mid);
      ss, es := HandedRun(kind, states + [mid], events + [S.ObtainEvent(xs[0])], xs[1..], s);
    }
  }

  // Whatever is called, and in whatever order, the states passed through form a run, to which
  // everything proved of runs applies.
  lemma CallsRun(kind: Kind, states: seq<S.State>, events: seq<S.Event>, e: S.Event, xs: seq<nat>, s: S.State)
    returns (ss: seq<S.State>, es: seq<S.Event>)
    requires R.Run(kind, states, events) && Did(states[|events|], e, xs, s)
    ensures R.Run(kind, ss, es) && ss[|es|] == s && states <= ss && events + [e] <= es
  {
    var mid :| S.Step(states[|events|], e, mid) && Handed(mid, xs, s);
    RunOn(kind, states, events, e, mid);
    ss, es := HandedRun(kind, states + [mid], events + [e], xs, s);
  }

  // What the run queue accounts for: from the values accepted and the getters served before and
  // after a call, the items handed out by the call.
  datatype Books = Books(items: seq<nat>, given: seq<nat>, log: seq<nat>)

  ghost predicate Balanced(b: Books) { multiset(b.log) == multiset(b.items) + multiset(b.given) }

  lemma Delivered(b: Books, c: Books, put: seq<nat>)
    requires Balanced(b) && Balanced(c) && b.given <= c.given && c.log == b.log + put
    ensures var xs := c.given[|b.given|..];
      c.given == b.given + xs && multiset(b.items) + multiset(put) == multiset(c.items) + multiset(xs)
  {
    var xs := c.given[|b.given|..];
    assert c.given == b.given + xs;
    assert multiset(c.log) == multiset(b.log) + multiset(put);
    assert multiset(c.given) == multiset(b.given) + multiset(xs);
    assert multiset(c.log) == multiset(b.given) + (multiset(b.items) + multiset(put));
    assert multiset(c.log) == multiset(b.given) + (multiset(c.items) + multiset(xs));
    Cancel(multiset(b.given), multiset(b.items) + multiset(put), multiset(c.items) + multiset(xs));
  }

  lemma Cancel(a: multiset<nat>, b: multiset<nat>, c: multiset<nat>)
    requires a + b == a + c
    ensures b == c
  {
    forall x ensures b[x] == c[x] { assert (a + b)[x] == (a + c)[x]; }
  }

  lemma HandedOut(mid: S.State, items: seq<nat>, given: seq<nat>, xs: seq<nat>)
    requires S.Inv(mid) && mid.stored == multiset(items) + multiset(xs) && mid.held == Elements(given) - mid.done
    ensures Handed(mid, xs, mid.(stored := multiset(items), held := Elements(given + xs) - mid.done))
  {
    forall x | x in xs ensures x !in mid.done && !mid.drained {
      assert x in multiset(xs);
      StoredLive(mid, x);
    }
    HeldMore(given, xs, mid.done);
    Remains(multiset(items), multiset(xs));
    if xs != [] { assert xs[0] in xs; }
  }

  lemma HeldMore(given: seq<nat>, xs: seq<nat>, done: set<nat>)
    requires forall x | x in xs :: x !in done
    ensures Elements(given + xs) - done == Elements(given) - done + Elements(xs)
  {
    ElementsConcat(given, xs);
  }

  lemma Remains(a: multiset<nat>, b: multiset<nat>)
    ensures a + b - b == a && b <= a + b
  {}

  lemma StoredLive(s: S.State, x: nat)
    requires S.Inv(s) && x in s.stored
    ensures x !in s.done && !S.AllDone(s.paths, s.done) && !s.drained
  {
    assert x in S.Frontier(s);
  }

  // The state after a call: the event's own state, less what waiting getters got.
  ghost function Served(mid: S.State, c: Books): S.State {
    mid.(stored := multiset(c.items), held := Elements(c.given) - mid.done)
  }

  lemma Finish(s: S.State, e: S.Event, mid: S.State, b: Books, c: Books, put: seq<nat>)
    requires S.Inv(s) && S.Step(s, e, mid)
    requires Balanced(b) && Balanced(c) && b.given <= c.given && c.log == b.log + put
    requires mid.stored == multiset(b.items) + multiset(put) && mid.held == Elements(b.given) - mid.done
    ensures S.Inv(Served(mid, c)) && Did(s, e, c.given[|b.given|..], Served(mid, c))
  {
    var xs := c.given[|b.given|..];
    S.StepInv(s, e, mid);
    Delivered(b, c, put);
    HandedOut(mid, c.items, b.given, xs);
    DidInv(s, e, xs, Served(mid, c));
  }

  ghost predicate TakenFrom(items: seq<nat>, x: nat, rest: seq<nat>) {
    exists i :: 0 <= i < |items| && items[i] == x && rest == Without(items, i)
  }

  lemma ObtainOne(s: S.State, items: seq<nat>, given: seq<nat>, x: nat, rest: seq<nat>)
    requires S.Inv(s) && s.stored == multiset(items) && s.held == Elements(given) - s.done && TakenFrom(items, x, rest)
    ensures var s' := s.(stored := multiset(rest), held := Elements(given + [x]) - s.done);
      S.ObtainStep(s, x, s') && S.Inv(s')
  {
    TakenMultiset(items, x, rest);
    HandedOut(s, rest, given, [x]);
    var s' := s.(stored := multiset(rest), held := Elements(given + [x]) - s.done);
    var mid := HandedFirst(s, [x], s');
    HandedNone(mid, s');
    S.ObtainInv(s, x, mid);
  }

  lemma TakenMultiset(items: seq<nat>, x: nat, rest: seq<nat>)
    requires TakenFrom(items, x, rest)
    ensures multiset(items) == multiset(rest) + multiset([x])
  {
    var i :| 0 <= i < |items| && items[i] == x && rest == Without(items, i);
    WithoutMultiset(items, i);
    assert multiset([x]) == multiset{x};
  }

  // The state a finalization leads to before waiting getters are served.
  ghost function Finalized(s: S.State, x: nat, items: seq<nat>, r: C.Effect): S.State {
    S.Put(s.(tree := r.tree, held := s.held - {x}, done := s.done + {x}, drained := r.emptied && s.interrupted), items)
  }

  lemma FinalizedStep(s: S.State, x: nat, items: seq<nat>)
    requires S.Inv(s) && x in s.held && x < |s.paths|
    requires C.OnFront(s.tree, s.paths[x]) && C.At(s.tree, s.paths[x]).front.siblings != []
    requires NoDup(items) && Elements(items) == C.FinalizeUp(s.tree, s.paths[x]).heads * s.values.Keys
    ensures S.Step(s, S.FinalizeEvent(x), Finalized(s, x, items, C.FinalizeUp(s.tree, s.paths[x])))
  {
    assert x in S.Frontier(s);
    assert !S.AllDone(s.paths, s.done);
    assert S.FinalizeStep(s, x, items, Finalized(s, x, items, C.FinalizeUp(s.tree, s.paths[x])));
  }

  // The first in line have moved on, the rest are left.
  lemma LineSplit<A>(moved: seq<A>, rest: seq<A>, before: seq<A>, line: seq<A>)
    requires moved + rest == before + line && |before| <= |moved|
    ensures |moved| - |before| <= |line| && moved == before + line[..|moved| - |before|]
    ensures rest == line[|moved| - |before|..]
  {
    assert moved == (before + line)[..|moved|] && rest == (before + line)[|moved|..];
  }

  class Forque {
    const kind: Kind
    const runque: Runque<nat>
    const store: Store
    const meta: Chain
    const root: Chain
    // the tree in the chains, and history
    ghost var tree: T.Tree
    ghost var tags: seq<seq<Key>>
    ghost var paths: seq<seq<Key>>
    ghost var done: set<nat>

    ghost function State(): S.State
      reads this, root, store, runque
    {
      S.State(kind, tree, store.values, multiset(runque.items), Elements(runque.given) - done,
              root.interrupted, runque.interrupted, tags, paths, done, runque.log)
    }

    ghost predicate Valid()
      reads this, root, root.Repr, store, runque, runque.Getters()
    {
      Backed() && S.Inv(State())
    }

    // The run queue's books and the history are in order.
    ghost predicate Audited()
      reads this, root, store, runque, runque.Getters()
    {
      runque.Valid() && store.next == |tags| && S.Inv(State())
    }

    // The objects hold the tree and fit together.
    ghost predicate Backed()
      reads this, root, root.Repr, store, runque, runque.Getters()
    {
      Fits() && root.Represents(tree)
    }

    ghost predicate Fits()
      reads this, root, store, runque, runque.Getters()
    {
      && root.runque == runque && root.store == store && root.kind == kind && root.parent == meta && root.tag == []
      && store.Valid() && store.next == |tags| && runque.Valid()
    }

    constructor (kind: Kind, order: Order<nat>)
      ensures Valid() && State() == S.Init(kind) && fresh(root.Repr) && fresh(store) && fresh(runque)
      ensures runque.order == order && runque.parked == []
    {
      var queue := new Runque(order);
      var items := new Store();
      var top := new Chain(queue, items, null, kind, [], true);
      this.kind, runque, store, meta := kind, queue, items, top;
      root := new Chain(queue, items, top, kind, [], true);
      tree, tags, paths, done := T.Fresh(true), [], [], {};
      new;
      assert State().held == {} && State().stored == multiset{};
      assert State() == S.Init(kind);
      S.InitInv(kind);
    }

    ghost function Account(): Books
      reads runque
    {
      Books(runque.items, runque.given, runque.log)
    }

    // What was handed to waiting getters.
    twostate function Gifts(): seq<nat>
      requires old(runque.given) <= runque.given
      reads runque
    {
      runque.given[|old(runque.given)|..]
    }

    // The waiting getters came back with the gifts, one each, from the top of the stack down. The rest
    // wait on, or were refused if the call ended the run queue.
    twostate predicate Answered()
      reads *
    {
      && old(runque.given) <= runque.given && |Gifts()| <= |old(runque.parked)|
      && (forall i | 0 <= i < |Gifts()| :: old(runque.parked)[i].result == Got(Gifts()[i]))
      && if runque.interrupted && !old(runque.interrupted) then
           && runque.parked == []
           && forall i | |Gifts()| <= i < |old(runque.parked)| :: old(runque.parked)[i].result == Thrown
         else runque.parked == old(runque.parked)[|Gifts()|..]
    }

    twostate lemma Answers()
      requires old(runque.Valid()) && runque.Valid()
      requires if runque.interrupted && !old(runque.interrupted) then runque.Closed() else runque.Handed()
      ensures Answered()
    {
      if runque.interrupted && !old(runque.interrupted) {
        Paid(runque.refused[|old(runque.refused)|..]);
        Dismissed(|Gifts()|);
      } else {
        Paid(runque.parked);
      }
    }

    // Of those in line, the rest have not been served, and the others got the gifts.
    twostate lemma Paid(new rest: seq<Awaitable<nat>>)
      requires old(runque.Valid()) && runque.Valid() && old(runque.given) <= runque.given
      requires runque.takers + rest == old(runque.takers + runque.parked)
      ensures |Gifts()| <= |old(runque.parked)| && rest == old(runque.parked)[|Gifts()|..]
      ensures forall i | 0 <= i < |Gifts()| :: old(runque.parked)[i].result == Got(Gifts()[i])
    {
      var before, waiting := old(runque.takers), old(runque.parked);
      LineSplit(runque.takers, rest, before, waiting);
      forall i | 0 <= i < |Gifts()| ensures waiting[i].result == Got(Gifts()[i]) {
        assert runque.takers[|before| + i] == waiting[..|Gifts()|][i] == waiting[i];
        runque.TakerAnswered(|before| + i);
      }
    }

    twostate lemma Dismissed(new n: nat)
      requires runque.Valid() && old(runque.refused) <= runque.refused && n <= |old(runque.parked)|
      requires runque.refused[|old(runque.refused)|..] == old(runque.parked)[n..]
      ensures forall i | n <= i < |old(runque.parked)| :: old(runque.parked)[i].result == Thrown
    {
      var before, waiting := |old(runque.refused)|, old(runque.parked);
      forall i | n <= i < |waiting| ensures waiting[i].result == Thrown {
        assert waiting[n..][i - n] == waiting[i] && runque.refused[before..][i - n] == runque.refused[before + (i - n)];
        assert waiting[i] in runque.refused;
      }
    }

    // An interrupted queue refuses; otherwise the handle of the new item is handed out.
    method Reserve(tag: seq<Key>, value: Option<Value>) returns (h: Option<Handle>)
      requires Valid() && tag != []
      modifies this, root.Repr, store, runque, runque.Cells()
      ensures Valid() && fresh(root.Repr - old(root.Repr))
      ensures h.None? <==> old(root.interrupted)
      ensures h.None? ==> State() == old(State())
      ensures h.Some? ==> h.value.item == |old(tags)| && store.handles == old(store.handles)[h.value.item := h.value]
      ensures Answered()
      ensures h.Some? ==> Did(old(State()), Reserving(tag, value), Gifts(), State())
    {
      if root.interrupted {
        return None;
      }
      var handle := Accept(tag, value);
      h := Some(handle);
    }

    // The state from which a call starts, and the one it reaches when the event leads to mid.
    twostate predicate Leads(new e: S.Event, new mid: S.State, new put: seq<nat>)
      requires old(Audited())
      reads this, root, store, runque
    {
      && S.Step(old(State()), e, mid)
      && mid.stored == multiset(old(runque.items)) + multiset(put) && mid.held == Elements(old(runque.given)) - mid.done
      && State() == Served(mid, Account())
      && runque.log == old(runque.log) + put && old(runque.given) <= runque.given
    }

    twostate lemma Led(new e: S.Event, new mid: S.State, new put: seq<nat>)
      requires old(Audited()) && Leads(e, mid, put) && runque.Valid()
      ensures Did(old(State()), e, Gifts(), State()) && S.Inv(State())
    {
      Finish(old(State()), e, mid, old(Account()), Account(), put);
    }

    method Accept(tag: seq<Key>, value: Option<Value>) returns (h: Handle)
      requires Valid() && tag != [] && !root.interrupted
      modifies this, root.Repr, store, runque, runque.Cells()
      ensures Valid() && fresh(root.Repr - old(root.Repr))
      ensures h.item == |old(tags)| && store.handles == old(store.handles)[h.item := h]
      ensures Answered() && Did(old(State()), Reserving(tag, value), Gifts(), State())
    {
      h := Enter(tag, value);
      Entered(tag, value, h);
      Answers();
    }

    twostate lemma Entered(new tag: seq<Key>, new value: Option<Value>, new h: Handle)
      requires old(Audited()) && tag != [] && !old(root.interrupted) && !root.interrupted
      requires root.store == store && root.runque == runque &&
        root.Booked(h, value, T.Lands(old(tree), RootWalk(kind, tag)))
      requires tree == T.Reserve(old(tree), RootWalk(kind, tag), |old(tags)|) && done == old(done)
      requires tags == old(tags) + [tag] && paths == old(paths) + [RootWalk(kind, tag)]
      requires old(runque.given) <= runque.given
      ensures Did(old(State()), Reserving(tag, value), Gifts(), State()) && S.Inv(State())
    {
      var s, x, p := old(State()), old(|tags|), RootWalk(kind, tag);
      var put := if value.Some? && T.Lands(s.tree, p) then [x] else [];
      var mid := S.Put(s.(tree := tree, values := store.values, tags := tags, paths := paths), put);
      assert S.ReserveStep(s, tag, store.values, mid);
      Led(Reserving(tag, value), mid, put);
    }

    method Enter(tag: seq<Key>, value: Option<Value>) returns (h: Handle)
      requires Backed() && tag != [] && !root.interrupted && !runque.interrupted
      modifies this`tree, this`tags, this`paths, root.Repr, store, runque, runque.Cells()
      ensures Backed() && fresh(root.Repr - old(root.Repr)) && !root.interrupted
      ensures root.Booked(h, value, T.Lands(old(tree), RootWalk(kind, tag)))
      ensures !runque.interrupted && runque.Handed()
      ensures tree == T.Reserve(old(tree), RootWalk(kind, tag), |old(tags)|)
      ensures tags == old(tags) + [tag] && paths == old(paths) + [RootWalk(kind, tag)]
    {
      ghost var p := RootWalk(kind, tag);
      ghost var t := T.Reserve(tree, p, |tags|);
      h := root.ReserveIn(View(tag, 0), value, tree);
      Record(tag, t);
    }

    ghost method Record(tag: seq<Key>, t: T.Tree)
      requires root.Represents(t) && tag != []
      modifies this`tree, this`tags, this`paths
      ensures root.Represents(t) && tree == t
      ensures tags == old(tags) + [tag] && paths == old(paths) + [RootWalk(kind, tag)]
    {
      tree, tags, paths := t, tags + [tag], paths + [RootWalk(kind, tag)];
      root.Framed(t);
    }

    static ghost function Reserving(tag: seq<Key>, value: Option<Value>): S.Event {
      if value.Some? then S.ReserveFilledEvent(tag, value.value) else S.ReserveEvent(tag)
    }

    // The handle was handed out by this queue.
    ghost predicate Mine(h: Handle)
      reads store
    {
      h.item in store.handles && store.handles[h.item] == h
    }

    // The item is in the chain that its handle names, whose tree is u.
    ghost predicate Home(h: Handle, u: T.Tree)
      reads this, root, root.Repr, store, h.owner, h.owner.Repr
    {
      && h.owner in root.Repr && h.owner.runque == runque && h.owner.store == store && h.owner.Represents(u)
      && (exists i :: 0 <= i < |h.owner.segments| &&
            h.owner.segments[i].node == h.segment && h.item in h.owner.segments[i].siblings)
      && (h.segment == h.owner.segments[0].node && u.front.active && u.front.siblings != [] &&
            h.item == u.front.siblings[0]
        <==> C.FrontOf(tree, h.item))
    }

    // An item that is not finalized is in the chain that its handle names.
    lemma ItemHome(h: Handle) returns (u: T.Tree)
      requires Valid() && Mine(h) && h.item !in done
      ensures Home(h, u)
    {
      var x := h.item;
      LiveOccurs(paths, done, x);
      var c: Chain, i: nat;
      c, u, i := root.ItemOwner(tree, paths[x], x);
      assert c.Matches(c.segments[i], SegAt(u, i));
      assert c.Matches(c.segments[0], SegAt(u, 0));
      if C.FrontOf(tree, x) {
        var d, w := root.FrontOwner(tree, x);
        assert d.Matches(d.segments[0], SegAt(w, 0));
      }
    }

    method Fill(h: Handle, value: Value)
      requires Valid() && Mine(h) && h.item !in store.values
      modifies store`values, runque, runque.Cells()
      ensures Valid() && Answered()
      ensures Did(old(State()), S.FillEvent(h.item, value), Gifts(), State())
    {
      ghost var u := ItemHome(h);
      StillOpen(h.item);
      Place(h, value, u);
      Filled(h.item, value);
      Answers();
    }

    method Place(h: Handle, value: Value, ghost u: T.Tree)
      requires Backed() && Home(h, u) && h.item in store.handles && h.item !in store.values && !runque.interrupted
      modifies store`values, runque, runque.Cells()
      ensures Backed() && !runque.interrupted
      ensures store.values == old(store.values)[h.item := value]
      ensures runque.log == old(runque.log) + (if C.FrontOf(tree, h.item) then [h.item] else [])
      ensures runque.Handed()
    {
      label Placing:
      ghost var items := h.owner.Release(h, value, u);
      root.Framed@Placing(tree);
    }

    lemma StillOpen(x: nat)
      requires Valid() && x < |tags| && x !in done
      ensures !runque.interrupted
    {
      assert !S.AllDone(paths, done);
    }

    twostate lemma Filled(new x: nat, new value: Value)
      requires old(Audited()) && x !in old(store.values) && x < |old(tags)|
      requires tree == old(tree) && tags == old(tags) && paths == old(paths) && done == old(done)
      requires root.interrupted == old(root.interrupted) && runque.interrupted == old(runque.interrupted)
      requires store.values == old(store.values)[x := value] && runque.Valid()
      requires runque.log == old(runque.log) + (if C.FrontOf(old(tree), x) then [x] else []) &&
          old(runque.given) <= runque.given
      ensures Did(old(State()), S.FillEvent(x, value), Gifts(), State()) && S.Inv(State())
    {
      var s := old(State());
      var put := if C.FrontOf(s.tree, x) then [x] else [];
      var mid := S.Put(s.(values := store.values), put);
      Led(S.FillEvent(x, value), mid, put);
    }

    // Takes an item, waits for one, or is refused after the end.
    method Get() returns (r: Outcome<nat>, a: Awaitable?<nat>)
      requires Valid()
      modifies runque
      ensures Valid()
      ensures r.Thrown? <==> old(runque.interrupted)
      ensures r.Pending? <==> old(!runque.interrupted && runque.items == [])
      ensures if r.Got? then S.Step(old(State()), S.ObtainEvent(r.value), State()) else State() == old(State())
      ensures r.Got? ==> Picked(old(runque.items), r.value, runque.items)
      ensures runque.parked == if r.Pending? then [a] + old(runque.parked) else old(runque.parked)
      ensures r.Pending? ==> a != null && fresh(a) && a.result == Pending
    {
      r, a := Ask();
      if r.Got? {
        assert TakenFrom(old(runque.items), r.value, runque.items);
        Obtained(r.value);
      } else {
        Unchanged();
      }
    }

    twostate lemma Unchanged()
      requires old(Audited())
      requires tree == old(tree) && tags == old(tags) && paths == old(paths) && done == old(done)
      requires root.interrupted == old(root.interrupted) && store.values == old(store.values)
      requires runque.interrupted == old(runque.interrupted) && runque.log == old(runque.log)
      requires runque.given == old(runque.given) && runque.items == old(runque.items)
      ensures State() == old(State()) && S.Inv(State())
    {}

    method Ask() returns (r: Outcome<nat>, a: Awaitable?<nat>)
      requires Backed()
      modifies runque
      ensures Backed()
      ensures runque.interrupted == old(runque.interrupted) && runque.log == old(runque.log)
      ensures r.Thrown? <==> old(runque.interrupted)
      ensures r.Pending? <==> old(!runque.interrupted && runque.items == [])
      ensures r.Got? ==>
        runque.given == old(runque.given) + [r.value] && Picked(old(runque.items), r.value, runque.items)
      ensures !r.Got? ==> runque.given == old(runque.given) && runque.items == old(runque.items)
      ensures runque.parked == if r.Pending? then [a] + old(runque.parked) else old(runque.parked)
      ensures r.Pending? ==> a != null && fresh(a) && a.result == Pending
    {
      r, a := runque.Get();
    }

    // x is what the discipline may pick from the items.
    ghost predicate Picked(items: seq<nat>, x: nat, rest: seq<nat>) {
      exists i :: 0 <= i < |items| && runque.order.Picks(items, i) && x == items[i] && rest == Without(items, i)
    }

    twostate lemma Obtained(new x: nat)
      requires old(Audited()) && !old(runque.interrupted) && runque.interrupted == old(runque.interrupted)
      requires tree == old(tree) && tags == old(tags) && paths == old(paths) && done == old(done)
      requires root.interrupted == old(root.interrupted) && store.values == old(store.values)
      requires runque.log == old(runque.log) && runque.given == old(runque.given) + [x]
      requires TakenFrom(old(runque.items), x, runque.items)
      ensures S.Step(old(State()), S.ObtainEvent(x), State()) && S.Inv(State())
    {
      ObtainOne(old(State()), old(runque.items), old(runque.given), x, runque.items);
    }

    // The item is the first one in the chain that its handle names, reached at path p.
    ghost predicate First(h: Handle, p: seq<Key>)
      reads this, root, root.Repr, root.store`handles, h.owner
    {
      && h.owner.Located(root, tree, p) && C.At(tree, p).front.siblings != []
      && h.owner.segments != [] && h.owner.segments[0].node == h.segment
    }

    // So is every item with a consumer.
    lemma HeldHome(h: Handle)
      requires Valid() && Mine(h) && h.item in State().held
      ensures h.item < |paths| && First(h, paths[h.item]) && PathUnique(tree)
      ensures !runque.interrupted
    {
      assert h.item in S.Frontier(State());
      FinalizeRefines(tree, paths, done, h.item);
      BuildUnique(paths, done);
      HeadHome(h, paths[h.item]);
      StillOpen(h.item);
    }

    lemma HeadHome(h: Handle, p: seq<Key>)
      requires Backed() && Mine(h) && T.IsHead(tree, p, h.item)
      ensures First(h, p)
    {
      C.HeadOnFront(tree, p, h.item);
      var c := root.ReachesSome(tree, p);
      root.ReachesChain(tree, p, c);
      assert c.Matches(c.segments[0], SegAt(C.At(tree, p), 0));
    }

    method Finalize(h: Handle)
      requires Valid() && Mine(h) && h.item in State().held
      modifies this`tree, this`done, root.Repr`segments, runque, runque.Cells()
      ensures Valid() && Answered()
      ensures Did(old(State()), S.FinalizeEvent(h.item), Gifts(), State())
    {
      HeldHome(h);
      ghost var p := paths[h.item];
      ghost var items, r := Delete(h, p);
      Deleted(h.item, p, items, r);
      Answers();
    }

    // What a finalization of x at p leaves: the tree without it, and items put into the run queue.
    twostate predicate Erased(new x: nat, new p: seq<Key>, new items: seq<nat>, new r: C.Effect)
      reads this, root, store, runque
    {
      && tags == old(tags) && paths == old(paths) && done == old(done) + {x} && store.values == old(store.values)
      && root.interrupted == old(root.interrupted)
      && C.OnFront(old(tree), p) && C.At(old(tree), p).front.siblings != []
      && r == C.FinalizeUp(old(tree), p) && tree == r.tree
      && NoDup(items) && Elements(items) == r.heads * store.values.Keys
      && runque.interrupted == (r.emptied && root.interrupted)
      && runque.log == old(runque.log) + items && old(runque.given) <= runque.given
    }

    method Delete(h: Handle, ghost p: seq<Key>) returns (ghost items: seq<nat>, ghost r: C.Effect)
      requires Backed() && First(h, p) && PathUnique(tree) && !runque.interrupted
      modifies this`tree, this`done, root.Repr`segments, runque, runque.Cells()
      ensures Backed() && Erased(h.item, p, items, r)
      ensures if runque.interrupted then runque.Closed() else runque.Handed()
    {
      r := C.FinalizeUp(tree, p);
      items := Take(h, p);
      Forget(h.item, r.tree);
    }

    method Take(h: Handle, ghost p: seq<Key>) returns (ghost items: seq<nat>)
      requires Backed() && First(h, p) && PathUnique(tree) && !runque.interrupted
      modifies root.Repr`segments, runque, runque.Cells()
      ensures root.Represents(C.FinalizeUp(tree, p).tree)
      ensures root.Settled(items, C.FinalizeUp(tree, p).emptied && root.interrupted)
      ensures NoDup(items) && Elements(items) == C.FinalizeUp(tree, p).heads * store.values.Keys
    {
      items := h.owner.Finalize(h.segment, root, tree, p);
    }

    ghost method Forget(x: nat, t: T.Tree)
      requires root.Represents(t) && Fits()
      modifies this`tree, this`done
      ensures Backed() && tree == t && done == old(done) + {x}
    {
      tree, done := t, done + {x};
      root.Framed(t);
    }

    twostate lemma Deleted(new x: nat, new p: seq<Key>, new items: seq<nat>, new r: C.Effect)
      requires old(Audited()) && x in old(State().held) && x < |paths| && p == paths[x]
      requires runque.Valid() && Erased(x, p, items, r)
      ensures Did(old(State()), S.FinalizeEvent(x), Gifts(), State()) && S.Inv(State())
    {
      FinalizedStep(old(State()), x, items);
      Led(S.FinalizeEvent(x), Finalized(old(State()), x, items, r), items);
    }

    method Interrupt()
      requires Valid()
      modifies root`interrupted, runque, runque.Cells()
      ensures Valid() && Answered() && Gifts() == []
      ensures S.Step(old(State()), S.InterruptEvent, State())
    {
      root.Interrupt(tree);
      Answers();
      S.InterruptInv(old(State()), State());
    }
  }
}
