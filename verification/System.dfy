// The queue as a state machine: reservations, fillings, finalizations, the run queue, the interrupt.
module System {
  import opened Tags
  import opened Values
  import opened Lists
  import opened Trees
  import opened Cascade
  import opened Flat
  import opened Survivors

  // values: the contents of the list nodes; stored and held: the items in the run queue and
  // the items with consumers. tags, paths, done and log are history.
  datatype State = State(
    kind: Kind, tree: Tree, values: map<nat, Value>, stored: multiset<nat>, held: set<nat>,
    interrupted: bool, drained: bool,
    tags: seq<seq<Key>>, paths: seq<seq<Key>>, done: set<nat>, log: seq<nat>)

  datatype Event =
    | ReserveEvent(tag: seq<Key>)
    | ReserveFilledEvent(tag: seq<Key>, value: Value)
    | FillEvent(x: nat, value: Value)
    | ObtainEvent(x: nat)
    | FinalizeEvent(x: nat)
    | InterruptEvent

  // the filled reservations with no earlier related live reservation
  ghost function FrontierOf(filled: set<nat>, paths: seq<seq<Key>>, done: set<nat>): set<nat> {
    set x | x in filled && Unblocked(paths, done, x)
  }

  ghost function Frontier(s: State): set<nat> {
    FrontierOf(s.values.Keys, s.paths, s.done)
  }

  function Init(kind: Kind): State {
    State(kind, Fresh(true), map[], multiset{}, {}, false, false, [], [], {}, [])
  }

  // Puts items into the run queue.
  function Put(s: State, items: seq<nat>): State {
    s.(stored := s.stored + multiset(items), log := s.log + items)
  }

  ghost predicate ReserveStep(s: State, tag: seq<Key>, values: map<nat, Value>, s': State) {
    && !s.interrupted && tag != []
    && var x := |s.tags|;
       var p := RootWalk(s.kind, tag);
       s' == Put(s.(tree := Reserve(s.tree, p, x), values := values,
                    tags := s.tags + [tag], paths := s.paths + [p]),
                 if x in values && Lands(s.tree, p) then [x] else [])
  }

  ghost predicate FinalizeStep(s: State, x: nat, items: seq<nat>, s': State) {
    && x in s.held && x < |s.paths|
    && OnFront(s.tree, s.paths[x]) && At(s.tree, s.paths[x]).front.siblings != []
    && var r := FinalizeUp(s.tree, s.paths[x]);
    && Elements(items) == r.heads * s.values.Keys && NoDup(items)
    && s' == Put(s.(tree := r.tree, held := s.held - {x}, done := s.done + {x},
                    drained := s.drained || (s.interrupted && r.emptied)), items)
  }

  ghost predicate FillStep(s: State, x: nat, v: Value, s': State) {
    && x < |s.tags| && x !in s.values
    && s' == Put(s.(values := s.values[x := v]), if FrontOf(s.tree, x) then [x] else [])
  }

  ghost predicate ObtainStep(s: State, x: nat, s': State) {
    && x in s.stored && !s.drained
    && s' == s.(stored := s.stored - multiset{x}, held := s.held + {x})
  }

  function Interrupted(s: State): State {
    s.(interrupted := true,
       drained := s.drained || (!s.interrupted && s.tree.front.siblings == [] && s.tree.front.children == map[]))
  }

  ghost predicate Step(s: State, e: Event, s': State) {
    match e
    case ReserveEvent(tag) => ReserveStep(s, tag, s.values, s')
    case ReserveFilledEvent(tag, v) => ReserveStep(s, tag, s.values[|s.tags| := v], s')
    case FillEvent(x, v) => FillStep(s, x, v, s')
    case ObtainEvent(x) => ObtainStep(s, x, s')
    case FinalizeEvent(x) => exists items :: FinalizeStep(s, x, items, s')
    case InterruptEvent => s' == Interrupted(s)
  }

  ghost predicate History(s: State) {
    && |s.tags| == |s.paths|
    && (forall x | 0 <= x < |s.tags| :: s.tags[x] != [] && s.paths[x] == Effective(s.kind, s.tags[x]))
    && (forall x | x in s.values :: x < |s.paths|) && s.done <= s.values.Keys
  }

  // what is offered is the frontier: stored in the run queue or held by a consumer
  ghost predicate Offered(front: set<nat>, stored: multiset<nat>, held: set<nat>, log: seq<nat>, done: set<nat>) {
    && stored == multiset(front - held) && held <= front && front !! done
    && NoDup(log) && Elements(log) == front + done
  }

  ghost predicate Inv(s: State) {
    && History(s)
    && Represents(s.tree, s.paths, s.done)
    && Offered(Frontier(s), s.stored, s.held, s.log, s.done)
    && (s.drained <==> s.interrupted && AllDone(s.paths, s.done))
  }

  // no live reservation
  ghost predicate AllDone(paths: seq<seq<Key>>, done: set<nat>) {
    forall x | 0 <= x < |paths| :: x in done
  }

  lemma OfferMore(front: set<nat>, stored: multiset<nat>, held: set<nat>, log: seq<nat>, done: set<nat>,
    items: seq<nat>)
    requires Offered(front, stored, held, log, done)
    requires NoDup(items) && Elements(items) !! front + done
    ensures Offered(front + Elements(items), stored + multiset(items), held, log + items, done)
  {
    NoDupMultiset(items);
    assert front + Elements(items) - held == (front - held) + Elements(items);
    NoDupConcat(log, items);
    ElementsConcat(log, items);
  }

  lemma OfferOne(front: set<nat>, stored: multiset<nat>, held: set<nat>, log: seq<nat>, done: set<nat>, x: nat,
    offer: bool)
    requires Offered(front, stored, held, log, done) && x !in front + done
    ensures var items := if offer then [x] else [];
      Offered(front + if offer then {x} else {}, stored + multiset(items), held, log + items, done)
  {
    var items := if offer then [x] else [];
    assert Elements(items) == if offer then {x} else {};
    OfferMore(front, stored, held, log, done, items);
  }

  lemma RetireOne(front: set<nat>, stored: multiset<nat>, held: set<nat>, log: seq<nat>, done: set<nat>, x: nat)
    requires Offered(front, stored, held, log, done) && x in held
    ensures Offered(front - {x}, stored, held - {x}, log, done + {x})
  {
    assert front - {x} - (held - {x}) == front - held;
  }

  // FrontOf in a canonical tree finds exactly its heads
  lemma {:induction false} FrontOfHeads(t: Tree, a: bool, x: nat)
    requires Shaped(t, a)
    ensures FrontOf(t, x) <==> a && x in Heads(t)
    decreases t
  {
    forall k | k in t.front.children
      ensures FrontOf(t.front.children[k], x) <==> a && t.front.siblings == [] && x in Heads(t.front.children[k]) {
      FrontOfHeads(t.front.children[k], a && t.front.siblings == [], x);
    }
    forall i | 0 <= i < |t.later| ensures !FrontOfKid(t.later[i], x) {
      assert ShapedLater(t.later[i], i == |t.later| - 1);
      assert Kids(t.later[i], false);
      forall k | k in t.later[i].children ensures !FrontOf(t.later[i].children[k], x) {
        FrontOfHeads(t.later[i].children[k], false, x);
      }
    }
  }

  lemma InitInv(kind: Kind)
    ensures Inv(Init(kind))
  {}

  // The values are unchanged, or the new reservation x got one.
  ghost predicate Written(values: map<nat, Value>, x: nat, values': map<nat, Value>) {
    values'.Keys == values.Keys || values'.Keys == values.Keys + {x}
  }

  lemma ReserveInv(s: State, tag: seq<Key>, values: map<nat, Value>, s': State)
    requires Inv(s) && ReserveStep(s, tag, values, s') && Written(s.values, |s.tags|, values)
    ensures Inv(s')
  {
    ReserveHistory(s, tag, values, s');
    ReserveOffered(s, tag, values, s');
    assert s'.done == s.done && !s'.interrupted;
    assert s'.drained == s.drained;
    assert |s.paths| !in s.done;
    ReserveRefines(s.tree, s.paths, s.done, RootWalk(s.kind, tag));
  }

  lemma ReserveHistory(s: State, tag: seq<Key>, values: map<nat, Value>, s': State)
    requires History(s) && ReserveStep(s, tag, values, s') && Written(s.values, |s.tags|, values)
    ensures History(s')
  {
    RootWalkIsEffective(s.kind, tag);
  }

  lemma ReserveOffered(s: State, tag: seq<Key>, values: map<nat, Value>, s': State)
    requires Inv(s) && ReserveStep(s, tag, values, s') && Written(s.values, |s.tags|, values)
    ensures Offered(Frontier(s'), s'.stored, s'.held, s'.log, s'.done)
  {
    var x := |s.tags|;
    var p := RootWalk(s.kind, tag);
    ReserveRefines(s.tree, s.paths, s.done, p);
    FrontierExtend(s, p, values, s');
    OfferOne(Frontier(s), s.stored, s.held, s.log, s.done, x, x in values && Lands(s.tree, p));
  }

  lemma FrontierExtend(s: State, p: seq<Key>, values: map<nat, Value>, s': State)
    requires History(s) && s'.paths == s.paths + [p] && s'.done == s.done && s'.values == values
    requires Written(s.values, |s.tags|, values)
    ensures Frontier(s') ==
      Frontier(s) + if |s.tags| in values && Unblocked(s'.paths, s.done, |s.tags|) then {|s.tags|} else {}
    ensures |s.tags| !in Frontier(s) + s.done
  {
    forall y | 0 <= y < |s.paths| ensures Unblocked(s'.paths, s.done, y) <==> Unblocked(s.paths, s.done, y) {}
  }

  lemma FillInv(s: State, x: nat, v: Value, s': State)
    requires Inv(s) && FillStep(s, x, v, s')
    ensures Inv(s')
  {
    FillFrontier(s, x, v, s');
    OfferOne(Frontier(s), s.stored, s.held, s.log, s.done, x, FrontOf(s.tree, x));
  }

  lemma FillFrontier(s: State, x: nat, v: Value, s': State)
    requires Inv(s) && FillStep(s, x, v, s')
    ensures Frontier(s') == Frontier(s) + if FrontOf(s.tree, x) then {x} else {}
    ensures x !in Frontier(s) + s.done
  {
    FrontOfUnblocked(s.tree, s.paths, s.done, x);
    FrontierFill(s.values.Keys, s.paths, s.done, x);
    assert s'.values.Keys == s.values.Keys + {x};
  }

  lemma FrontierFill(filled: set<nat>, paths: seq<seq<Key>>, done: set<nat>, x: nat)
    ensures FrontierOf(filled + {x}, paths, done) ==
      FrontierOf(filled, paths, done) + if Unblocked(paths, done, x) then {x} else {}
  {}

  lemma FrontOfUnblocked(t: Tree, paths: seq<seq<Key>>, done: set<nat>, x: nat)
    requires Represents(t, paths, done)
    ensures FrontOf(t, x) <==> Unblocked(paths, done, x)
  {
    BuildShaped(Remaining(paths, done));
    FrontOfHeads(t, true, x);
    HeadSet(t, paths, done, x);
  }

  lemma HoldOne(front: set<nat>, stored: multiset<nat>, held: set<nat>, log: seq<nat>, done: set<nat>, x: nat)
    requires Offered(front, stored, held, log, done) && x in stored
    ensures Offered(front, stored - multiset{x}, held + {x}, log, done)
    ensures x in front && x !in held
  {
    assert front - (held + {x}) == (front - held) - {x};
  }

  lemma ObtainInv(s: State, x: nat, s': State)
    requires Inv(s) && ObtainStep(s, x, s')
    ensures Inv(s') && x in Frontier(s) && x !in s.held
  {
    HoldOne(Frontier(s), s.stored, s.held, s.log, s.done, x);
    assert Frontier(s') == Frontier(s) && History(s');
  }

  lemma FinalizeInv(s: State, x: nat, items: seq<nat>, s': State)
    requires Inv(s) && FinalizeStep(s, x, items, s')
    ensures Inv(s')
  {
    FinalizeRefines(s.tree, s.paths, s.done, x);
    FrontierShrink(s, x, items, s');
    RetireOne(Frontier(s), s.stored, s.held, s.log, s.done, x);
    OfferMore(Frontier(s) - {x}, s.stored, s.held - {x}, s.log, s.done + {x}, items);
    VacantIdle(s'.tree, s'.paths, s'.done);
  }

  // A finalization removes x from the frontier and adds what it offered.
  lemma FrontierShrink(s: State, x: nat, items: seq<nat>, s': State)
    requires Inv(s) && FinalizeStep(s, x, items, s')
    ensures Frontier(s') == Frontier(s) - {x} + Elements(items)
    ensures Elements(items) !! Frontier(s) + s.done
  {
    FinalizeRefines(s.tree, s.paths, s.done, x);
    forall y: nat
      ensures y in Frontier(s') <==> y in Frontier(s) - {x} + Elements(items)
      ensures y in Elements(items) ==> y !in Frontier(s) + s.done
    {
      NewHeadsUnblocked(s.tree, s.paths, s.done, x, y);
      if y != x && Unblocked(s.paths, s.done, y) { assert Unblocked(s.paths, s.done + {x}, y); }
    }
  }

  lemma VacantIdle(t: Tree, paths: seq<seq<Key>>, done: set<nat>)
    requires Represents(t, paths, done)
    ensures Vacant(t) <==> AllDone(paths, done)
    ensures Vacant(t) <==> t.front.siblings == [] && t.front.children == map[]
    ensures Vacant(t) ==> t == Fresh(true)
  {
    var s := Remaining(paths, done);
    BuildShaped(s);
    SurvivorsLive(paths, done);
    assert s != [] ==> Live(paths, done, s[0].id);
    if x: nat :| x < |paths| && x !in done {
      var i := SurvivorAt(paths, done, x);
    }
  }

  lemma InterruptInv(s: State, s': State)
    requires Inv(s) && s' == Interrupted(s)
    ensures Inv(s')
  {
    VacantIdle(s.tree, s.paths, s.done);
    assert Frontier(s') == Frontier(s);
  }

  lemma StepInv(s: State, e: Event, s': State)
    requires Inv(s) && Step(s, e, s')
    ensures Inv(s')
  {
    match e
    case ReserveEvent(tag) => ReserveInv(s, tag, s.values, s');
    case ReserveFilledEvent(tag, v) => ReserveInv(s, tag, s.values[|s.tags| := v], s');
    case FillEvent(x, v) => FillInv(s, x, v, s');
    case ObtainEvent(x) => ObtainInv(s, x, s');
    case FinalizeEvent(x) =>
      var items :| FinalizeStep(s, x, items, s');
      FinalizeInv(s, x, items, s');
    case InterruptEvent => InterruptInv(s, s');
  }

  lemma FinalizedHeld(s: State, x: nat, s': State)
    requires Step(s, FinalizeEvent(x), s')
    ensures x in s.held
  {}

  // What a step does to the history.
  lemma StepHistory(s: State, e: Event, s': State)
    requires Step(s, e, s')
    ensures s'.kind == s.kind && s.tags <= s'.tags
    ensures forall x :: x in s'.done ==> x in s.done || e == FinalizeEvent(x)
    ensures forall x :: x in s'.held ==> x in s.held || e == ObtainEvent(x)
  {}
}
