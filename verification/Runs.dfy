// What holds over every run of the queue.
module Runs {
  import opened Tags
  import opened Values
  import opened Lists
  import opened Trees
  import opened Cascade
  import opened Survivors
  import opened System

  ghost predicate Run(kind: Kind, states: seq<State>, events: seq<Event>) {
    && |states| == |events| + 1
    && states[0] == Init(kind)
    && forall i | 0 <= i < |events| :: Step(states[i], events[i], states[i + 1])
  }

  lemma {:induction false} RunInv(kind: Kind, states: seq<State>, events: seq<Event>, i: nat)
    requires Run(kind, states, events) && i < |states|
    ensures Inv(states[i]) && states[i].kind == kind
  {
    if i == 0 {
      InitInv(kind);
    } else {
      RunInv(kind, states, events, i - 1);
      StepHistory(states[i - 1], events[i - 1], states[i]);
      StepInv(states[i - 1], events[i - 1], states[i]);
    }
  }

  // The tags reserved, in order.
  ghost function Reserved(events: seq<Event>): seq<seq<Key>> {
    if events == [] then []
    else
      var e := events[|events| - 1];
      Reserved(events[..|events| - 1]) +
        if e.ReserveEvent? || e.ReserveFilledEvent? then [e.tag] else []
  }

  // The values filled in, when reserving or later.
  ghost function Filled(events: seq<Event>): map<nat, Value> {
    if events == [] then map[]
    else
      var front := events[..|events| - 1];
      match events[|events| - 1]
      case ReserveFilledEvent(_, v) => Filled(front)[|Reserved(front)| := v]
      case FillEvent(x, v) => Filled(front)[x := v]
      case _ => Filled(front)
  }

  // What a state says has happened is what has happened.
  ghost predicate Records(s: State, events: seq<Event>) {
    && s.tags == Reserved(events) && s.values == Filled(events)
    && (forall x: nat :: x in s.done <==> FinalizeEvent(x) in events)
    && (s.interrupted <==> InterruptEvent in events)
  }

  lemma RecordsStep(s: State, events: seq<Event>, e: Event, s': State)
    requires Records(s, events) && Step(s, e, s')
    ensures Records(s', events + [e])
  {
    StepEvents(s, e, s');
    assert (events + [e])[..|events|] == events;
    forall x: nat ensures x in s'.done <==> FinalizeEvent(x) in events + [e] {
      assert FinalizeEvent(x) in events + [e] <==> FinalizeEvent(x) in events || e == FinalizeEvent(x);
    }
  }

  lemma {:induction false} HistoryIsEvents(kind: Kind, states: seq<State>, events: seq<Event>, i: nat)
    requires Run(kind, states, events) && i < |states|
    ensures Records(states[i], events[..i])
  {
    if i > 0 {
      HistoryIsEvents(kind, states, events, i - 1);
      assert Step(states[i - 1], events[i - 1], states[i]);
      RecordsStep(states[i - 1], events[..i - 1], events[i - 1], states[i]);
      assert events[..i] == events[..i - 1] + [events[i - 1]];
    }
  }

  lemma StepEvents(s: State, e: Event, s': State)
    requires Step(s, e, s')
    ensures s'.tags == s.tags + if e.ReserveEvent? || e.ReserveFilledEvent? then [e.tag] else []
    ensures s'.values == (match e
      case ReserveFilledEvent(_, v) => s.values[|s.tags| := v]
      case FillEvent(x, v) => s.values[x := v]
      case _ => s.values)
    ensures forall x: nat :: x in s'.done <==> x in s.done || e == FinalizeEvent(x)
    ensures s'.interrupted <==> s.interrupted || e == InterruptEvent
  {}

  // In every reachable state the tree is the one built from the surviving reservations.
  lemma TreeIsCanonical(kind: Kind, states: seq<State>, events: seq<Event>, i: nat)
    requires Run(kind, states, events) && i < |states|
    ensures var s := states[i]; s.tree == Flat.Build(Remaining(s.paths, s.done)) && Shaped(s.tree, true)
  {
    RunInv(kind, states, events, i);
    Flat.BuildShaped(Remaining(states[i].paths, states[i].done));
  }

  // An item is offered, once, iff it is filled and no earlier live reservation is related to it.
  lemma ExactFrontier(kind: Kind, states: seq<State>, events: seq<Event>, i: nat, x: nat)
    requires Run(kind, states, events) && i < |states|
    ensures var s := states[i];
      s.stored[x] + (if x in s.held then 1 else 0) == if x in s.values && Unblocked(s.paths, s.done, x) then 1 else 0
  {
    RunInv(kind, states, events, i);
    var s := states[i];
    assert x in s.values && Unblocked(s.paths, s.done, x) <==> x in Frontier(s);
  }

  // In a static queue the tags themselves decide.
  lemma StaticFrontier(states: seq<State>, events: seq<Event>, i: nat, x: nat)
    requires Run(Static, states, events) && i < |states|
    ensures var s := states[i];
      s.stored[x] + (if x in s.held then 1 else 0) == if x in s.values && Unblocked(s.tags, s.done, x) then 1 else 0
  {
    RunInv(Static, states, events, i);
    ExactFrontier(Static, states, events, i, x);
    assert states[i].paths == states[i].tags;
  }

  lemma {:induction false} DoneByEvent(kind: Kind, states: seq<State>, events: seq<Event>, j: nat, a: nat)
    returns (i: nat)
    requires Run(kind, states, events) && j < |states| && a in states[j].done
    ensures i < j && events[i] == FinalizeEvent(a)
  {
    StepHistory(states[j - 1], events[j - 1], states[j]);
    if a in states[j - 1].done {
      i := DoneByEvent(kind, states, events, j - 1, a);
    } else {
      i := j - 1;
    }
  }

  lemma {:induction false} HeldByEvent(kind: Kind, states: seq<State>, events: seq<Event>, j: nat, a: nat)
    returns (i: nat)
    requires Run(kind, states, events) && j < |states| && a in states[j].held
    ensures i < j && events[i] == ObtainEvent(a)
  {
    StepHistory(states[j - 1], events[j - 1], states[j]);
    if a in states[j - 1].held {
      i := HeldByEvent(kind, states, events, j - 1, a);
    } else {
      i := j - 1;
    }
  }

  // Of two related reservations the earlier is obtained and finalized before the later is obtained.
  lemma RelatedInOrder(kind: Kind, states: seq<State>, events: seq<Event>, j: nat, a: nat, b: nat)
    returns (o: nat, f: nat)
    requires Run(kind, states, events) && j < |events| && events[j] == ObtainEvent(b)
    requires a < b < |states[j].tags| && Related(states[j].tags[a], states[j].tags[b])
    ensures o < f < j && events[o] == ObtainEvent(a) && events[f] == FinalizeEvent(a)
  {
    RunInv(kind, states, events, j);
    var s := states[j];
    assert Step(s, ObtainEvent(b), states[j + 1]);
    ObtainInv(s, b, states[j + 1]);
    SerialisedExactly(kind, s.tags[a], s.tags[b]);
    assert a in s.done;
    f := DoneByEvent(kind, states, events, j, a);
    FinalizedHeld(states[f], a, states[f + 1]);
    o := HeldByEvent(kind, states, events, f, a);
  }

  // Two items with consumers at the same time are unrelated.
  lemma HeldUnrelated(kind: Kind, states: seq<State>, events: seq<Event>, i: nat, a: nat, b: nat)
    requires Run(kind, states, events) && i < |states|
    requires a in states[i].held && b in states[i].held && a != b
    ensures a < |states[i].tags| && b < |states[i].tags| && !Related(states[i].tags[a], states[i].tags[b])
  {
    RunInv(kind, states, events, i);
    var s := states[i];
    assert a in Frontier(s) && b in Frontier(s);
    SerialisedExactly(kind, s.tags[a], s.tags[b]);
  }

  lemma OfferedOnce(kind: Kind, states: seq<State>, events: seq<Event>, i: nat)
    requires Run(kind, states, events) && i < |states|
    ensures NoDup(states[i].log)
    ensures forall x: nat :: x in states[i].log <==>
      x in states[i].done || (x in states[i].values && Unblocked(states[i].paths, states[i].done, x))
  {
    RunInv(kind, states, events, i);
    var s := states[i];
    forall x: nat ensures x in s.log <==> x in s.done || (x in s.values && Unblocked(s.paths, s.done, x)) {
      assert x in s.log <==> x in Elements(s.log);
      assert x in Frontier(s) <==> x in s.values && Unblocked(s.paths, s.done, x);
    }
  }

  lemma GracefulDrain(kind: Kind, states: seq<State>, events: seq<Event>, i: nat)
    requires Run(kind, states, events) && i < |states|
    ensures states[i].drained <==> states[i].interrupted && Vacant(states[i].tree)
    ensures states[i].drained ==> states[i].stored == multiset{} && states[i].held == {}
    ensures states[i].drained ==> forall x | 0 <= x < |states[i].tags| :: x in states[i].done
    ensures states[i].drained && i < |events| ==> events[i] == InterruptEvent && states[i + 1] == states[i]
  {
    RunInv(kind, states, events, i);
    var s := states[i];
    VacantIdle(s.tree, s.paths, s.done);
    if s.drained {
      assert Frontier(s) == {};
      if i < |events| {
        assert Step(s, events[i], states[i + 1]);
        DrainedStep(s, events[i], states[i + 1]);
      }
    }
  }

  // An interrupted run queue marks the end: no step changes anything any more, so nothing is put into it.
  lemma DrainedStep(s: State, e: Event, s': State)
    requires Inv(s) && s.drained && Step(s, e, s')
    ensures e == InterruptEvent && s' == s
  {
    assert Frontier(s) == {};
    assert forall x | 0 <= x < |s.paths| :: x in s.values;
  }

  // Some live reservation is unblocked.
  lemma {:induction false} SomeUnblocked(paths: seq<seq<Key>>, done: set<nat>, x: nat) returns (y: nat)
    requires Live(paths, done, x)
    ensures Unblocked(paths, done, y)
    decreases x
  {
    if z: nat :| z < x && z !in done {
      y := SomeUnblocked(paths, done, z);
    } else {
      y := x;
    }
  }

  ghost predicate ServeStep(s: State, e: Event, s': State) {
    (e.ObtainEvent? || e.FinalizeEvent?) && Step(s, e, s')
  }

  // Work is conserved: with every live item filled, a queue that is not empty offers one.
  lemma Progress(s: State)
    requires Inv(s) && !AllDone(s.paths, s.done)
    requires forall x | Live(s.paths, s.done, x) :: x in s.values
    ensures exists e, s' :: ServeStep(s, e, s')
  {
    var x: nat :| x < |s.paths| && x !in s.done;
    var y := SomeUnblocked(s.paths, s.done, x);
    assert y in Frontier(s);
    if y in s.held {
      var s' := CanFinalize(s, y);
      assert ServeStep(s, FinalizeEvent(y), s');
    } else {
      var s' := CanObtain(s, y);
      assert ServeStep(s, ObtainEvent(y), s');
    }
  }

  lemma CanObtain(s: State, x: nat) returns (s': State)
    requires Inv(s) && x in Frontier(s) && x !in s.held
    ensures Step(s, ObtainEvent(x), s')
  {
    s' := s.(stored := s.stored - multiset{x}, held := s.held + {x});
    assert x in Frontier(s) - s.held;
    assert !s.drained;
  }

  lemma CanFinalize(s: State, x: nat) returns (s': State)
    requires Inv(s) && x in s.held
    ensures Step(s, FinalizeEvent(x), s')
  {
    assert x in Frontier(s);
    FinalizeRefines(s.tree, s.paths, s.done, x);
    var r := FinalizeUp(s.tree, s.paths[x]);
    var items := Enumerate(r.heads * s.values.Keys);
    s' := Put(s.(tree := r.tree, held := s.held - {x}, done := s.done + {x},
                 drained := s.drained || (s.interrupted && r.emptied)), items);
    assert FinalizeStep(s, x, items, s');
  }

  ghost function Finals(events: seq<Event>): nat {
    if events == [] then 0
    else Finals(events[..|events| - 1]) + if events[|events| - 1].FinalizeEvent? then 1 else 0
  }

  ghost predicate Serving(states: seq<State>, events: seq<Event>) {
    && |states| == |events| + 1
    && forall i | 0 <= i < |events| :: ServeStep(states[i], events[i], states[i + 1])
  }

  lemma FinalizeCount(s: State, x: nat, items: seq<nat>, s': State)
    requires Inv(s) && FinalizeStep(s, x, items, s')
    ensures Inv(s') && s'.paths == s.paths && s'.values == s.values
    ensures s.done <= s'.done && |s'.done| == |s.done| + 1
  {
    FinalizeInv(s, x, items, s');
    assert x in Frontier(s) && x !in s.done;
  }

  lemma ServeCount(s: State, e: Event, s': State)
    requires Inv(s) && ServeStep(s, e, s')
    ensures Inv(s') && s'.paths == s.paths && s'.values == s.values && s.done <= s'.done
    ensures |s'.done| == |s.done| + if e.FinalizeEvent? then 1 else 0
  {
    match e
    case ObtainEvent(x) => ObtainInv(s, x, s');
    case FinalizeEvent(x) =>
      var items :| FinalizeStep(s, x, items, s');
      FinalizeCount(s, x, items, s');
  }

  lemma {:induction false} ServingCounts(states: seq<State>, events: seq<Event>)
    requires Serving(states, events) && Inv(states[0])
    ensures Inv(states[|events|])
    ensures states[|events|].paths == states[0].paths && states[|events|].values == states[0].values
    ensures states[0].done <= states[|events|].done
    ensures |states[|events|].done| == |states[0].done| + Finals(events)
    decreases |events|
  {
    if events != [] {
      var n := |events| - 1;
      ServingCounts(states[..n + 1], events[..n]);
      ServeCount(states[n], events[n], states[n + 1]);
    }
  }

  // Serving a queue whose items are all filled until nothing is offered takes exactly one
  // finalization per item and leaves the single empty root segment.
  lemma FullDrain(states: seq<State>, events: seq<Event>)
    requires Serving(states, events) && Inv(states[0])
    requires forall x | Live(states[0].paths, states[0].done, x) :: x in states[0].values
    requires !exists e, s' :: ServeStep(states[|events|], e, s')
    ensures states[|events|].tree == Fresh(true)
    ensures Finals(events) == |states[0].paths| - |states[0].done|
  {
    ServingCounts(states, events);
    var l := states[|events|];
    if !AllDone(l.paths, l.done) {
      Progress(l);
    }
    VacantIdle(l.tree, l.paths, l.done);
    DoneCount(l);
  }

  lemma DoneCount(s: State)
    requires Inv(s) && AllDone(s.paths, s.done)
    ensures |s.done| == |s.paths|
  {
    UpToCount(|s.paths|);
    assert s.done == UpTo(|s.paths|);
  }

  ghost function UpTo(n: nat): set<nat> {
    if n == 0 then {} else UpTo(n - 1) + {n - 1}
  }

  lemma {:induction false} UpToCount(n: nat)
    ensures |UpTo(n)| == n && forall x: nat :: x in UpTo(n) <==> x < n
  {
    if n > 0 { UpToCount(n - 1); }
  }
}
