// The queue while removals are put off: the locks are given up between the finalization that empties
// a chain and the removal of the chain, and other operations come in between.
module Removals {
  import opened Tags
  import opened Lists
  import opened Stamps
  import opened Survivors
  import D = Deferred
  import Flat
  import S = System
  import T = Trees

  // made is the next unused identity, pending what calls of clean_parent have read; drained says that
  // the run queue has been interrupted.
  datatype State = State(
    tree: Tree, made: nat, pending: seq<Ticket>, paths: seq<seq<Key>>, done: set<nat>,
    interrupted: bool, drained: bool)

  datatype Event = ReserveEvent(path: seq<Key>) | FinalizeEvent(x: nat) | RemoveEvent(i: nat) | InterruptEvent

  function Init(): State { State(Fresh(0, true), 1, [], [], {}, false, false) }

  // clean_parent of the chain at p, which has no segment to go on with
  function Read(t: Tree, p: seq<Key>): seq<Ticket> {
    if p == [] || !OnFront(t, p) || !OnFront(t, p[..|p| - 1]) then []
    else
      var s := At(t, p).front;
      [Ticket(p, At(t, p[..|p| - 1]).id, s.node, s.version)]
  }

  function Parent(g: Ticket): seq<Key>
    requires g.path != []
  {
    g.path[..|g.path| - 1]
  }

  function LastKey(g: Ticket): Key
    requires g.path != []
  {
    g.path[|g.path| - 1]
  }

  // The chain object that the removal was told of is still there.
  predicate Alive(t: Tree, g: Ticket) {
    g.path != [] && OnFront(t, Parent(g)) && At(t, Parent(g)).id == g.parent
  }

  // remove_child finds a child under the key, with the version it was told.
  predicate Matches(t: Tree, g: Ticket)
    requires Alive(t, g)
  {
    var kids := At(t, Parent(g)).front.children;
    LastKey(g) in kids && kids[LastKey(g)].front.version == g.version
  }

  // The child it finds then has the very front segment of which the version was read.
  predicate FindsRead(t: Tree, g: Ticket)
    requires Alive(t, g)
  {
    Matches(t, g) ==> At(t, Parent(g)).front.children[LastKey(g)].front.node == g.node
  }

  // The chain at p has no segment to go on with: clean_parent, or the end if it is the root.
  ghost predicate SpentStep(s: State, p: seq<Key>, spent: bool, s': State) {
    s' == s.(pending := s.pending + if spent then Read(s.tree, p) else [],
             drained := s.drained || (spent && p == [] && s.interrupted))
  }

  ghost predicate FinalizeStep(s: State, x: nat, s': State) {
    && x < |s.paths| && IsHead(s.tree, s.paths[x], x)
    && var p := s.paths[x];
       var t := Pop(s.tree, p, x);
       SpentStep(s.(tree := t, done := s.done + {x}), p, OnFront(t, p) && Vacant(At(t, p)), s')
  }

  ghost predicate RemoveStep(s: State, i: nat, s': State) {
    && i < |s.pending| && Alive(s.tree, s.pending[i])
    && var g, rest := s.pending[i], Without(s.pending, i);
       if !Matches(s.tree, g) then s' == s.(pending := rest)
       else
         var p, k := Parent(g), LastKey(g);
         var c := At(s.tree, p);
         var spent := c.later == [] && c.front.children - {k} == map[];
         SpentStep(s.(tree := Erase(s.tree, p, k), pending := rest), p, spent, s')
  }

  predicate Empty(g: Segment) { g.siblings == [] && g.children == map[] }

  ghost predicate Step(s: State, e: Event, s': State) {
    match e
    case ReserveEvent(p) =>
      && !s.interrupted
      && s' == s.(tree := Reserve(s.tree, p, |s.paths|, s.made), made := s.made + |p| + 1, paths := s.paths + [p])
    case FinalizeEvent(x) => FinalizeStep(s, x, s')
    case RemoveEvent(i) => RemoveStep(s, i, s')
    case InterruptEvent =>
      s' == s.(interrupted := true, drained := s.drained || (!s.interrupted && Empty(s.tree.front)))
  }

  ghost predicate Expected(s: State, q: seq<Key>) {
    exists j | 0 <= j < |s.pending| :: s.pending[j].path == q && Idle(s.tree, q, s.pending[j])
  }

  // The removal that runs, if it matches, finds the segment it has read.
  ghost predicate Honest(s: State, e: Event) {
    e.RemoveEvent? && e.i < |s.pending| && Alive(s.tree, s.pending[e.i]) ==> FindsRead(s.tree, s.pending[e.i])
  }

  // The removal that runs, if it matches, finds the segment that some pending removal has read, at the
  // version it has read.
  ghost predicate Backed(s: State, e: Event) {
    e.RemoveEvent? && e.i < |s.pending| && Alive(s.tree, s.pending[e.i]) && Matches(s.tree, s.pending[e.i]) ==>
      Expected(s, s.pending[e.i].path)
  }

  ghost predicate TicketInv(s: State, g: Ticket) {
    g.path != [] && g.node < s.made && Fine(s.tree, g.path, g.node, g.version)
  }

  ghost predicate Inv(s: State) {
    && Ranged(s.tree, 0, s.made)
    && D.Loose(Plain(s.tree))
    && Represents(D.Clean(Plain(s.tree)), s.paths, s.done)
    && (forall x | x in s.done :: x < |s.paths|)
    && (forall j | 0 <= j < |s.pending| :: TicketInv(s, s.pending[j]))
    && (forall q | q != [] && Waits(s.tree, q) :: Expected(s, q))
    && (s.drained <==> s.interrupted && Vacant(s.tree))
  }

  lemma InitInv()
    ensures Inv(Init())
  {
    var t := Fresh(0, true);
    PlainFresh(0, true);
    FreshRanged(0, true);
    D.ShapedLoose(T.Fresh(true));
    D.CleanShaped(T.Fresh(true), true);
  }

  lemma HeadSafe(s: State, p: seq<Key>, x: nat)
    requires Inv(s) && IsHead(s.tree, p, x)
    ensures Unblocked(s.paths, s.done, x) && p == s.paths[x]
  {
    PlainHead(s.tree, p, x);
    D.HeadClean(Plain(s.tree), p, x);
    HeadsUnblocked(s.paths, s.done, p, x);
  }

  lemma ReserveCanonical(s: State, p: seq<Key>, t: Tree)
    requires Inv(s) && t == Reserve(s.tree, p, |s.paths|, s.made)
    ensures D.Loose(Plain(t)) && Represents(D.Clean(Plain(t)), s.paths + [p], s.done)
  {
    var c := Plain(s.tree);
    PlainReserve(s.tree, p, |s.paths|, s.made);
    D.ReserveClean(c, p, |s.paths|);
    ReserveRefines(D.Clean(c), s.paths, s.done, p);
  }

  lemma ReserveExpected(s: State, p: seq<Key>, s': State, q: seq<Key>)
    requires Inv(s) && Step(s, ReserveEvent(p), s') && q != [] && Waits(s'.tree, q)
    ensures Expected(s', q)
  {
    PlainReserve(s.tree, p, |s.paths|, s.made);
    PlainWaits(s'.tree, q);
    PlainWaits(s.tree, q);
    D.ReserveWaits(Plain(s.tree), p, |s.paths|, q);
    assert Expected(s, q);
    var j :| 0 <= j < |s.pending| && s.pending[j].path == q && Idle(s.tree, q, s.pending[j]);
    IdleReserve(s.tree, p, |s.paths|, s.made, q, s.pending[j]);
    assert s'.pending[j] == s.pending[j];
  }

  lemma ReserveInv(s: State, p: seq<Key>, s': State)
    requires Inv(s) && Step(s, ReserveEvent(p), s')
    ensures Inv(s')
  {
    ReserveCanonical(s, p, s'.tree);
    RangedReserve(s.tree, p, |s.paths|, 0, s.made);
    forall j | 0 <= j < |s'.pending| ensures TicketInv(s', s'.pending[j]) {
      var g := s.pending[j];
      assert TicketInv(s, g);
      FineReserve(s.tree, p, |s.paths|, 0, s.made, g.path, g.node, g.version);
    }
    forall q | q != [] && Waits(s'.tree, q) ensures Expected(s', q) { ReserveExpected(s, p, s', q); }
  }

  // What is read of an empty chain is a ticket that a removal may rely on, and expects the removal.
  lemma ReadInv(t: Tree, n: nat, p: seq<Key>)
    requires Ranged(t, 0, n) && D.Loose(Plain(t)) && p != [] && OnFront(t, p) && Vacant(At(t, p))
    ensures |Read(t, p)| == 1
    ensures var g := Read(t, p)[0]; g.path == p && g.node < n && Fine(t, p, g.node, g.version) && Idle(t, p, g)
  {
    var b, k := p[..|p| - 1], p[|p| - 1];
    assert p == b + [k];
    OnFrontShorter(t, b, k);
    FineRead(t, 0, n, p);
    VacantWaits(t, p);
    IdleParts(t, b, k, Read(t, p)[0]);
  }

  lemma FinalizeCanonical(s: State, x: nat)
    requires Inv(s) && x < |s.paths| && IsHead(s.tree, s.paths[x], x)
    ensures var t := Pop(s.tree, s.paths[x], x);
      && D.Loose(Plain(t)) && Represents(D.Clean(Plain(t)), s.paths, s.done + {x})
      && Ranged(t, 0, s.made) && OnFront(t, s.paths[x])
  {
    HeadSafe(s, s.paths[x], x);
    PlainPop(s.tree, s.paths[x], x);
    D.PopClean(Plain(s.tree), s.paths[x], x);
    FinalizeRefines(D.Clean(Plain(s.tree)), s.paths, s.done, x);
    RangedPop(s.tree, s.paths[x], x, 0, s.made);
    PopOnFront(s.tree, s.paths[x], x);
  }

  lemma FinalizeDrained(s: State, x: nat, s': State)
    requires Inv(s) && FinalizeStep(s, x, s')
    ensures s'.drained <==> s'.interrupted && Vacant(s'.tree)
  {
    var p := s.paths[x];
    HeadBusy(s.tree, p, x);
    PopOnFront(s.tree, p, x);
    assert p != [] ==> p[0] in s'.tree.front.children;
  }

  lemma FinalizeInv(s: State, x: nat, s': State)
    requires Inv(s) && FinalizeStep(s, x, s')
    ensures Inv(s')
  {
    var p := s.paths[x];
    FinalizeCanonical(s, x);
    FinalizeDrained(s, x, s');
    if p != [] && Vacant(At(s'.tree, p)) { ReadInv(s'.tree, s.made, p); }
    forall j | 0 <= j < |s'.pending| ensures TicketInv(s', s'.pending[j]) {
      if j < |s.pending| {
        var g := s.pending[j];
        assert TicketInv(s, g);
        FinePop(s.tree, p, x, 0, s.made, g.path, g.node, g.version);
      }
    }
    forall q | q != [] && Waits(s'.tree, q) ensures Expected(s', q) { FinalizeExpected(s, x, s', q); }
  }

  lemma FinalizeExpected(s: State, x: nat, s': State, q: seq<Key>)
    requires Inv(s) && FinalizeStep(s, x, s') && q != [] && Waits(s'.tree, q)
    requires Ranged(s'.tree, 0, s'.made) && D.Loose(Plain(s'.tree))
    ensures Expected(s', q)
  {
    var p := s.paths[x];
    PlainWaits(s'.tree, q);
    PlainWaits(s.tree, q);
    PlainPop(s.tree, p, x);
    D.PopWaits(Plain(s.tree), p, x, q);
    if q == p {
      WaitsAt(s'.tree, p);
      ReadInv(s'.tree, s'.made, p);
      assert s'.pending[|s.pending|] == Read(s'.tree, p)[0];
    } else {
      assert Expected(s, q);
      var j :| 0 <= j < |s.pending| && s.pending[j].path == q && Idle(s.tree, q, s.pending[j]);
      IdlePop(s.tree, p, x, q, s.pending[j]);
      assert s'.pending[j] == s.pending[j];
    }
  }

  // A removal that matches and finds what it read of erases an empty chain.
  lemma MatchSound(s: State, g: Ticket)
    requires Inv(s) && g in s.pending && Alive(s.tree, g) && Matches(s.tree, g) && FindsRead(s.tree, g)
    ensures Waits(s.tree, g.path)
  {
    assert TicketInv(s, g);
    var p, k := Parent(g), LastKey(g);
    assert g.path == p + [k];
    OnFrontLonger(s.tree, p, k);
    FineAt(s.tree, g.path, g.node, g.version);
    VacantWaits(s.tree, g.path);
  }

  lemma IdleFound(t: Tree, g: Ticket)
    requires Idle(t, g.path, g)
    ensures Alive(t, g) && Matches(t, g) && FindsRead(t, g) && Waits(t, g.path)
  {
    assert g.path == Parent(g) + [LastKey(g)];
    IdleParts(t, Parent(g), LastKey(g), g);
  }

  lemma ExpectedWithout(s: State, i: nat, s': State, q: seq<Key>, j: nat)
    requires i < |s.pending| && j < |s.pending| && j != i && Without(s.pending, i) <= s'.pending
    requires s.pending[j].path == q && Idle(s'.tree, q, s.pending[j])
    ensures Expected(s', q)
  {
    assert s'.pending[if j < i then j else j - 1] == s.pending[j];
  }

  lemma MissInv(s: State, i: nat, s': State)
    requires Inv(s) && RemoveStep(s, i, s') && !Matches(s.tree, s.pending[i])
    ensures Inv(s')
  {
    forall j | 0 <= j < |s'.pending| ensures TicketInv(s', s'.pending[j]) {
      assert TicketInv(s, s.pending[if j < i then j else j + 1]);
    }
    forall q | q != [] && Waits(s'.tree, q) ensures Expected(s', q) {
      assert Expected(s, q);
      var j :| 0 <= j < |s.pending| && s.pending[j].path == q && Idle(s.tree, q, s.pending[j]);
      IdleFound(s.tree, s.pending[j]);
      ExpectedWithout(s, i, s', q, j);
    }
  }

  lemma EraseCanonical(s: State, g: Ticket)
    requires Inv(s) && g.path != [] && Waits(s.tree, g.path)
    ensures OnFront(s.tree, Parent(g))
    ensures var t := Erase(s.tree, Parent(g), LastKey(g));
      && D.Waits(Plain(s.tree), g.path) && Plain(t) == D.Remove(Plain(s.tree), g.path)
      && D.Loose(Plain(t)) && Represents(D.Clean(Plain(t)), s.paths, s.done) && Ranged(t, 0, s.made)
  {
    var p, k := Parent(g), LastKey(g);
    assert g.path == p + [k];
    PlainErase(s.tree, p, k);
    D.RemoveClean(Plain(s.tree), g.path);
    RangedErase(s.tree, p, k, 0, s.made);
  }

  lemma ExpectedFound(s: State, q: seq<Key>)
    requires Expected(s, q)
    ensures q != [] && Waits(s.tree, q)
  {
    var j :| 0 <= j < |s.pending| && s.pending[j].path == q && Idle(s.tree, q, s.pending[j]);
    IdleFound(s.tree, s.pending[j]);
  }

  lemma EraseInv(s: State, i: nat, s': State)
    requires Inv(s) && RemoveStep(s, i, s') && Matches(s.tree, s.pending[i]) && Expected(s, s.pending[i].path)
    ensures Inv(s')
  {
    ExpectedFound(s, s.pending[i].path);
    EraseCanonical(s, s.pending[i]);
    EraseTickets(s, i, s');
    EraseDrained(s, i, s');
    forall q | q != [] && Waits(s'.tree, q) ensures Expected(s', q) { EraseExpected(s, i, s', q); }
  }

  lemma EraseDrained(s: State, i: nat, s': State)
    requires Inv(s) && RemoveStep(s, i, s') && Matches(s.tree, s.pending[i]) && Waits(s.tree, s.pending[i].path)
    ensures s'.drained <==> s'.interrupted && Vacant(s'.tree)
  {
    var g := s.pending[i];
    var p, k := Parent(g), LastKey(g);
    assert g.path == p + [k];
    DropSpent(s.tree, p, k);
    assert p != [] ==> p[0] in s'.tree.front.children;
    assert !Vacant(s.tree);
  }

  lemma EraseTickets(s: State, i: nat, s': State)
    requires Inv(s) && RemoveStep(s, i, s') && Matches(s.tree, s.pending[i]) && Waits(s.tree, s.pending[i].path)
    ensures forall j | 0 <= j < |s'.pending| :: TicketInv(s', s'.pending[j])
  {
    EraseRead(s, i, s');
    WaitsAt(s.tree, s.pending[i].path);
    var rest := Without(s.pending, i);
    forall j | 0 <= j < |rest| ensures TicketInv(s', rest[j]) {
      EraseTicket(s, s.pending[i], s.pending[if j < i then j else j + 1]);
    }
  }

  // The ticket that an erasure may leave for the parent.
  lemma EraseRead(s: State, i: nat, s': State)
    requires Inv(s) && RemoveStep(s, i, s') && Matches(s.tree, s.pending[i]) && Waits(s.tree, s.pending[i].path)
    ensures Without(s.pending, i) <= s'.pending && |s'.pending| <= |s.pending|
    ensures |s'.pending| == |s.pending| ==>
      var g := s'.pending[|s.pending| - 1];
      g.path == Parent(s.pending[i]) != [] && TicketInv(s', g) && Idle(s'.tree, g.path, g)
  {
    var g := s.pending[i];
    var p, k := Parent(g), LastKey(g);
    assert g.path == p + [k];
    EraseCanonical(s, g);
    DropSpent(s.tree, p, k);
    WaitsAt(s.tree, g.path);
    if p != [] && Vacant(At(s'.tree, p)) { ReadInv(s'.tree, s.made, p); }
  }

  lemma EraseTicket(s: State, g: Ticket, h: Ticket)
    requires Inv(s) && h in s.pending && g.path != [] && OnFront(s.tree, g.path)
    ensures OnFront(s.tree, Parent(g)) && h.path != [] && h.node < s.made
    ensures Fine(Erase(s.tree, Parent(g), LastKey(g)), h.path, h.node, h.version)
  {
    assert g.path == Parent(g) + [LastKey(g)];
    OnFrontShorter(s.tree, Parent(g), LastKey(g));
    assert TicketInv(s, h);
    FineErase(s.tree, Parent(g), LastKey(g), 0, s.made, h.path, h.node, h.version);
  }

  lemma EraseExpected(s: State, i: nat, s': State, q: seq<Key>)
    requires Inv(s) && RemoveStep(s, i, s') && Matches(s.tree, s.pending[i]) && Waits(s.tree, s.pending[i].path)
    requires q != [] && Waits(s'.tree, q)
    ensures Expected(s', q)
  {
    var g := s.pending[i];
    var p, k := Parent(g), LastKey(g);
    assert g.path == p + [k];
    EraseCanonical(s, g);
    DropSpent(s.tree, p, k);
    PlainWaits(s'.tree, q);
    PlainWaits(s.tree, q);
    D.RemoveWaits(Plain(s.tree), g.path, q);
    if q == p {
      WaitsAt(s'.tree, p);
      ReadInv(s'.tree, s.made, p);
      assert s'.pending[|s.pending| - 1] == Read(s'.tree, p)[0];
    } else {
      assert Expected(s, q);
      var j :| 0 <= j < |s.pending| && s.pending[j].path == q && Idle(s.tree, q, s.pending[j]);
      IdleErase(s.tree, p, k, q, s.pending[j]);
      ExpectedWithout(s, i, s', q, j);
    }
  }

  lemma InterruptInv(s: State, s': State)
    requires Inv(s) && Step(s, InterruptEvent, s')
    ensures Inv(s')
  {
    PlainParts(s.tree);
    assert Empty(s.tree.front) ==> Vacant(s.tree) by {
      assert Plain(s.tree).later != [] ==> Plain(s.tree).front.children.Keys != {};
    }
    forall j | 0 <= j < |s'.pending| ensures TicketInv(s', s'.pending[j]) { assert TicketInv(s, s.pending[j]); }
    forall q | q != [] && Waits(s'.tree, q) ensures Expected(s', q) {
      assert Expected(s, q);
      var j :| 0 <= j < |s.pending| && s.pending[j].path == q && Idle(s.tree, q, s.pending[j]);
      assert s'.pending[j] == s.pending[j];
    }
  }

  lemma StepInv(s: State, e: Event, s': State)
    requires Inv(s) && Step(s, e, s') && Backed(s, e)
    ensures Inv(s')
  {
    match e
    case ReserveEvent(p) => ReserveInv(s, p, s');
    case FinalizeEvent(x) => FinalizeInv(s, x, s');
    case RemoveEvent(i) => if Matches(s.tree, s.pending[i]) { EraseInv(s, i, s'); } else { MissInv(s, i, s'); }
    case InterruptEvent => InterruptInv(s, s');
  }

  ghost predicate Run(states: seq<State>, events: seq<Event>) {
    && |states| == |events| + 1
    && states[0] == Init()
    && forall i | 0 <= i < |events| :: Step(states[i], events[i], states[i + 1])
  }

  // Which events can happen: a reservation until the interrupt, the finalization of a head, a removal
  // whose parent is still there, and an interrupt at any time.
  lemma StepsExactly(s: State, e: Event)
    ensures (exists s' :: Step(s, e, s')) <==>
      match e
      case ReserveEvent(_) => !s.interrupted
      case FinalizeEvent(x) => x < |s.paths| && IsHead(s.tree, s.paths[x], x)
      case RemoveEvent(i) => i < |s.pending| && Alive(s.tree, s.pending[i])
      case InterruptEvent => true
  {
    match e
    case ReserveEvent(p) =>
      var s' := s.(tree := Reserve(s.tree, p, |s.paths|, s.made), made := s.made + |p| + 1, paths := s.paths + [p]);
      if !s.interrupted { assert Step(s, e, s'); }
    case FinalizeEvent(x) =>
      if x < |s.paths| && IsHead(s.tree, s.paths[x], x) {
        var p, t := s.paths[x], Pop(s.tree, s.paths[x], x);
        var s' := Spent(s.(tree := t, done := s.done + {x}), p, OnFront(t, p) && Vacant(At(t, p)));
        assert Step(s, e, s');
      }
    case RemoveEvent(i) =>
      if i < |s.pending| && Alive(s.tree, s.pending[i]) {
        var s' := CanRemove(s, i);
        assert Step(s, e, s');
      }
    case InterruptEvent =>
      assert Step(s, e, s.(interrupted := true, drained := s.drained || (!s.interrupted && Empty(s.tree.front))));
  }

  ghost function Spent(s: State, p: seq<Key>, spent: bool): (s': State)
    ensures SpentStep(s, p, spent, s')
  {
    s.(pending := s.pending + if spent then Read(s.tree, p) else [],
       drained := s.drained || (spent && p == [] && s.interrupted))
  }

  lemma CanRemove(s: State, i: nat) returns (s': State)
    requires i < |s.pending| && Alive(s.tree, s.pending[i])
    ensures Step(s, RemoveEvent(i), s')
  {
    var g, rest := s.pending[i], Without(s.pending, i);
    if !Matches(s.tree, g) {
      s' := s.(pending := rest);
    } else {
      var p, k := Parent(g), LastKey(g);
      var c := At(s.tree, p);
      var spent := c.later == [] && c.front.children - {k} == map[];
      s' := Spent(s.(tree := Erase(s.tree, p, k), pending := rest), p, spent);
    }
  }

  // The paths reserved, in order.
  ghost function Reserved(events: seq<Event>): seq<seq<Key>> {
    if events == [] then []
    else
      var e := events[|events| - 1];
      Reserved(events[..|events| - 1]) + if e.ReserveEvent? then [e.path] else []
  }

  // What a state says has happened is what has happened.
  ghost predicate Records(s: State, events: seq<Event>) {
    && s.paths == Reserved(events)
    && (forall x: nat :: x in s.done <==> FinalizeEvent(x) in events)
    && (s.interrupted <==> InterruptEvent in events)
  }

  lemma RecordsStep(s: State, events: seq<Event>, e: Event, s': State)
    requires Records(s, events) && Step(s, e, s')
    ensures Records(s', events + [e])
  {
    StepEvents(s, e, s');
    assert (events + [e])[..|events|] == events;
    forall x: nat ensures x in s'.done <==> FinalizeEvent(x) in events + [e] {
      assert FinalizeEvent(x) in events + [e] <==> FinalizeEvent(x) in events || e == FinalizeEvent(x);
    }
  }

  lemma {:induction false} HistoryIsEvents(states: seq<State>, events: seq<Event>, i: nat)
    requires Run(states, events) && i < |states|
    ensures Records(states[i], events[..i])
  {
    if i > 0 {
      HistoryIsEvents(states, events, i - 1);
      assert Step(states[i - 1], events[i - 1], states[i]);
      RecordsStep(states[i - 1], events[..i - 1], events[i - 1], states[i]);
      assert events[..i] == events[..i - 1] + [events[i - 1]];
    }
  }

  lemma StepEvents(s: State, e: Event, s': State)
    requires Step(s, e, s')
    ensures s'.paths == s.paths + if e.ReserveEvent? then [e.path] else []
    ensures forall x: nat :: x in s'.done <==> x in s.done || e == FinalizeEvent(x)
    ensures s'.interrupted <==> s.interrupted || e == InterruptEvent
  {}

  ghost predicate BackedBefore(states: seq<State>, events: seq<Event>, n: nat)
    requires n <= |events| <= |states|
  {
    forall l | 0 <= l < n :: Backed(states[l], events[l])
  }

  ghost predicate HonestBefore(states: seq<State>, events: seq<Event>, n: nat)
    requires n <= |events| <= |states|
  {
    forall l | 0 <= l < n :: Honest(states[l], events[l])
  }

  lemma {:induction false} RunInv(states: seq<State>, events: seq<Event>, i: nat)
    requires Run(states, events) && i < |states| && BackedBefore(states, events, i)
    ensures Inv(states[i])
  {
    if i == 0 {
      InitInv();
    } else {
      RunInv(states, events, i - 1);
      StepInv(states[i - 1], events[i - 1], states[i]);
    }
  }

  // What a removal finds that matches the segment it has read is backed by that removal itself.
  lemma HonestBacked(s: State, e: Event)
    requires Inv(s) && Honest(s, e)
    ensures Backed(s, e)
  {
    if e.RemoveEvent? && e.i < |s.pending| && Alive(s.tree, s.pending[e.i]) && Matches(s.tree, s.pending[e.i]) {
      MatchSound(s, s.pending[e.i]);
    }
  }

  lemma {:induction false} HonestRun(states: seq<State>, events: seq<Event>, n: nat)
    requires Run(states, events) && n <= |events| && HonestBefore(states, events, n)
    ensures BackedBefore(states, events, n)
  {
    if n > 0 {
      HonestRun(states, events, n - 1);
      RunInv(states, events, n - 1);
      HonestBacked(states[n - 1], events[n - 1]);
    }
  }

  // Exactly when a removal that matches erases an empty chain: when some pending removal, this one
  // or another, has read the segment it finds at this version. It holds up to and with the first match
  // that nothing backs.
  lemma MatchExact(states: seq<State>, events: seq<Event>, i: nat, g: Ticket)
    requires Run(states, events) && i < |states| && BackedBefore(states, events, i)
    requires g in states[i].pending && Alive(states[i].tree, g) && Matches(states[i].tree, g)
    ensures Vacant(At(states[i].tree, Parent(g)).front.children[LastKey(g)]) <==> Expected(states[i], g.path)
  {
    RunInv(states, events, i);
    var s := states[i];
    var p, k := Parent(g), LastKey(g);
    assert g.path == p + [k];
    OnFrontLonger(s.tree, p, k);
    if Vacant(At(s.tree, g.path)) { VacantWaits(s.tree, g.path); }
    if Expected(s, g.path) {
      ExpectedFound(s, g.path);
      WaitsAt(s.tree, g.path);
    }
  }

  // However long removals are put off, only unblocked reservations are offered.
  lemma OfferedUnblocked(states: seq<State>, events: seq<Event>, i: nat, p: seq<Key>, x: nat)
    requires Run(states, events) && i < |states| && BackedBefore(states, events, i) && IsHead(states[i].tree, p, x)
    ensures Unblocked(states[i].paths, states[i].done, x) && p == states[i].paths[x]
  {
    RunInv(states, events, i);
    HeadSafe(states[i], p, x);
  }

  // While the tree is not the one built from the surviving reservations, some removal is pending that
  // can go on, finds what it read, and erases an empty chain.
  lemma RemovalEnabled(states: seq<State>, events: seq<Event>, i: nat) returns (j: nat)
    requires Run(states, events) && i < |states| && BackedBefore(states, events, i)
    requires Plain(states[i].tree) != Flat.Build(Remaining(states[i].paths, states[i].done))
    ensures j < |states[i].pending|
    ensures var t, g := states[i].tree, states[i].pending[j];
      Alive(t, g) && Matches(t, g) && FindsRead(t, g) && Waits(t, g.path)
  {
    RunInv(states, events, i);
    var s := states[i];
    forall q ensures D.Waits(Plain(s.tree), q) <==> Waits(s.tree, q) { PlainWaits(s.tree, q); }
    if q :| q != [] && Waits(s.tree, q) {
      assert Expected(s, q);
      j :| 0 <= j < |s.pending| && s.pending[j].path == q && Idle(s.tree, q, s.pending[j]);
      IdleFound(s.tree, s.pending[j]);
    } else {
      D.TidyShaped(Plain(s.tree));
      D.CleanShaped(Plain(s.tree), true);
    }
  }

  // With none pending the tree is the one built from the surviving reservations.
  lemma SettledCanonical(states: seq<State>, events: seq<Event>, i: nat)
    requires Run(states, events) && i < |states| && BackedBefore(states, events, i) && states[i].pending == []
    ensures Plain(states[i].tree) == Flat.Build(Remaining(states[i].paths, states[i].done))
  {
    if Plain(states[i].tree) != Flat.Build(Remaining(states[i].paths, states[i].done)) {
      var j := RemovalEnabled(states, events, i);
    }
  }

  // The run queue has ended iff the queue was interrupted and the tree is empty; then everything is
  // finalized, and removals still pending find nothing.
  lemma GracefulDrain(states: seq<State>, events: seq<Event>, i: nat)
    requires Run(states, events) && i < |states| && BackedBefore(states, events, i)
    ensures states[i].drained <==> states[i].interrupted && Vacant(states[i].tree)
    ensures states[i].drained ==> forall x | 0 <= x < |states[i].paths| :: x in states[i].done
    ensures states[i].drained && i < |events| ==>
      (events[i].RemoveEvent? || events[i].InterruptEvent?) && states[i + 1].tree == states[i].tree
  {
    RunInv(states, events, i);
    var s := states[i];
    if s.drained {
      PlainParts(s.tree);
      D.LooseClean(Plain(s.tree));
      D.CleanShaped(Plain(s.tree), true);
      S.VacantIdle(Plain(s.tree), s.paths, s.done);
      if i < |events| { DrainedStep(s, events[i], states[i + 1]); }
    }
  }

  lemma DrainedStep(s: State, e: Event, s': State)
    requires Step(s, e, s') && s.interrupted && Vacant(s.tree)
    ensures (e.RemoveEvent? || e.InterruptEvent?) && s'.tree == s.tree
  {}

  function Weight(pending: seq<Ticket>): nat {
    if pending == [] then 0 else Weight(pending[..|pending| - 1]) + |pending[|pending| - 1].path|
  }

  lemma {:induction false} WeightConcat(a: seq<Ticket>, b: seq<Ticket>)
    ensures Weight(a + b) == Weight(a) + Weight(b)
  {
    if b == [] {
      assert a + b == a;
    } else {
      WeightConcat(a, b[..|b| - 1]);
      assert (a + b)[..|a + b| - 1] == a + b[..|b| - 1];
    }
  }

  lemma WeightWithout(a: seq<Ticket>, i: nat)
    requires i < |a|
    ensures Weight(a) == Weight(Without(a, i)) + |a[i].path|
  {
    WeightConcat(a[..i], a[i + 1..]);
    WeightConcat(a[..i + 1], a[i + 1..]);
    assert a == a[..i + 1] + a[i + 1..] && a[..i + 1][..i] == a[..i];
  }

  // Removals run out: each leaves less to remove, the one it starts in turn included.
  lemma RemovalsShrink(s: State, i: nat, s': State)
    requires RemoveStep(s, i, s')
    ensures Weight(s'.pending) < Weight(s.pending) && s'.paths == s.paths && s'.done == s.done
  {
    var g := s.pending[i];
    WeightWithout(s.pending, i);
    WeightConcat(Without(s.pending, i), Read(s'.tree, Parent(g)));
    assert Without(s.pending, i) + [] == Without(s.pending, i);
  }

  lemma {:induction false} DoneByEvent(states: seq<State>, events: seq<Event>, j: nat, a: nat) returns (i: nat)
    requires Run(states, events) && j < |states| && a in states[j].done
    ensures i < j && events[i] == FinalizeEvent(a)
  {
    assert Step(states[j - 1], events[j - 1], states[j]);
    if a in states[j - 1].done {
      i := DoneByEvent(states, events, j - 1, a);
    } else {
      i := j - 1;
    }
  }

  // Related reservations are finalized in the order in which they were made.
  lemma RelatedInOrder(states: seq<State>, events: seq<Event>, j: nat, a: nat, b: nat) returns (f: nat)
    requires Run(states, events) && j < |events| && BackedBefore(states, events, j) && events[j] == FinalizeEvent(b)
    requires a < b < |states[j].paths| && Related(states[j].paths[a], states[j].paths[b])
    ensures f < j && events[f] == FinalizeEvent(a)
  {
    RunInv(states, events, j);
    assert Step(states[j], FinalizeEvent(b), states[j + 1]);
    HeadSafe(states[j], states[j].paths[b], b);
    f := DoneByEvent(states, events, j, a);
  }

  // The tickets that a step leaves pending.
  function Kept(s: State, e: Event): seq<Ticket>
    requires e.RemoveEvent? ==> e.i < |s.pending|
  {
    if e.RemoveEvent? then Without(s.pending, e.i) else s.pending
  }

  lemma KeptDistinct(s: State, e: Event)
    requires e.RemoveEvent? ==> e.i < |s.pending|
    ensures forall g | g in Kept(s, e) :: g in s.pending
    ensures Distinct(s.pending) ==> Distinct(Kept(s, e))
  {}

  // No two are for one path.
  ghost predicate Distinct(pending: seq<Ticket>) {
    forall j, l | 0 <= j < l < |pending| :: pending[j].path != pending[l].path
  }

  // A step adds at most one ticket, which has just been read of a chain that was not empty before.
  lemma Added(s: State, e: Event, s': State)
    requires Inv(s) && Step(s, e, s') && Backed(s, e)
    ensures Kept(s, e) <= s'.pending && |s'.pending| <= |Kept(s, e)| + 1
    ensures |s'.pending| > |Kept(s, e)| ==>
      var g := s'.pending[|Kept(s, e)|];
      Idle(s'.tree, g.path, g) && !Waits(s.tree, g.path)
  {
    if e.FinalizeEvent? {
      var p := s.paths[e.x];
      FinalizeCanonical(s, e.x);
      HeadBusyAt(s.tree, p, e.x);
      if p != [] && Vacant(At(s'.tree, p)) { ReadInv(s'.tree, s.made, p); }
    } else if e.RemoveEvent? && Matches(s.tree, s.pending[e.i]) {
      var g := s.pending[e.i];
      ExpectedFound(s, g.path);
      EraseRead(s, e.i, s');
      if Waits(s.tree, Parent(g)) { WaitsAt(s.tree, Parent(g)); }
    }
  }

  // The ticket g stays good: no reservation passes its path, and the removal that runs is not its own.
  ghost predicate Spares(s: State, e: Event, g: Ticket) {
    && (e.ReserveEvent? ==> !(g.path <= e.path))
    && (e.RemoveEvent? && e.i < |s.pending| ==> s.pending[e.i] != g)
  }

  // Two removals that find what they have read at one path have read the same.
  lemma SamePath(t: Tree, g: Ticket, h: Ticket)
    requires Idle(t, g.path, g) && h.path == g.path && Alive(t, h) && Matches(t, h) && FindsRead(t, h)
    ensures h == g
  {
    assert g.path == Parent(g) + [LastKey(g)];
    IdleParts(t, Parent(g), LastKey(g), g);
  }

  lemma SparedErase(s: State, g: Ticket, h: Ticket)
    requires Inv(s) && h in s.pending && h != g && Alive(s.tree, h) && Matches(s.tree, h) && FindsRead(s.tree, h)
    requires Idle(s.tree, g.path, g)
    ensures Idle(Erase(s.tree, Parent(h), LastKey(h)), g.path, g)
  {
    MatchSound(s, h);
    if h.path == g.path { SamePath(s.tree, g, h); }
    assert h.path == Parent(h) + [LastKey(h)];
    IdleErase(s.tree, Parent(h), LastKey(h), g.path, g);
  }

  lemma Spared(s: State, e: Event, s': State, g: Ticket)
    requires Inv(s) && Step(s, e, s') && Honest(s, e) && Spares(s, e, g)
    requires Idle(s.tree, g.path, g)
    ensures Idle(s'.tree, g.path, g)
  {
    match e
    case ReserveEvent(p) => IdleStays(s.tree, p, |s.paths|, s.made, g.path, g);
    case FinalizeEvent(x) => IdlePop(s.tree, s.paths[x], x, g.path, g);
    case RemoveEvent(i) => if Matches(s.tree, s.pending[i]) { SparedErase(s, g, s.pending[i]); }
    case InterruptEvent =>
  }

  // A removal whose path no reservation passes will find its parent, and under it what it has read,
  // and erase an empty chain, whatever happens elsewhere. (i is a point at which that is so, such as
  // the one at which the removal has just read it.)
  lemma {:induction false} RemovalFound(states: seq<State>, events: seq<Event>, i: nat, j: nat, g: Ticket)
    requires Run(states, events) && i <= j < |states| && HonestBefore(states, events, j)
    requires Idle(states[i].tree, g.path, g)
    requires forall l | i <= l < j :: Spares(states[l], events[l], g)
    ensures Idle(states[j].tree, g.path, g)
    ensures Alive(states[j].tree, g) && Matches(states[j].tree, g) && FindsRead(states[j].tree, g)
    ensures Waits(states[j].tree, g.path)
    decreases j
  {
    if i < j {
      RemovalFound(states, events, i, j - 1, g);
      assert Inv(states[j - 1]) by {
        HonestRun(states, events, j - 1);
        RunInv(states, events, j - 1);
      }
      Spared(states[j - 1], events[j - 1], states[j], g);
    }
    IdleFound(states[j].tree, g);
  }

  lemma NewTicket(s: State, e: Event, s': State, g: Ticket)
    requires Inv(s) && Step(s, e, s') && Backed(s, e) && g in s'.pending && g !in s.pending
    ensures Idle(s'.tree, g.path, g)
  {
    Added(s, e, s');
    KeptDistinct(s, e);
    LastOnly(Kept(s, e), s'.pending, g);
  }

  lemma LastOnly(kept: seq<Ticket>, pending: seq<Ticket>, g: Ticket)
    requires kept <= pending && |pending| <= |kept| + 1 && g in pending && g !in kept
    ensures |pending| == |kept| + 1 && pending[|kept|] == g
  {
    assert pending == kept + pending[|kept|..];
  }

  // A removal that has just been put off has read an empty chain.
  lemma JustRead(states: seq<State>, events: seq<Event>, i: nat, g: Ticket)
    requires Run(states, events) && i < |events| && BackedBefore(states, events, i + 1)
    requires g in states[i + 1].pending && g !in states[i].pending
    ensures Idle(states[i + 1].tree, g.path, g)
  {
    RunInv(states, events, i);
    NewTicket(states[i], events[i], states[i + 1], g);
  }

  // No reservation passes a path for which a removal is pending.
  ghost predicate Considerate(s: State, e: Event) {
    e.ReserveEvent? ==> forall j | 0 <= j < |s.pending| :: !(s.pending[j].path <= e.path)
  }

  // Each pending removal will find its parent, and under it what it read; no two are for one path.
  ghost predicate Calm(s: State) {
    Distinct(s.pending) && forall j | 0 <= j < |s.pending| :: Idle(s.tree, s.pending[j].path, s.pending[j])
  }

  lemma CalmKept(s: State, e: Event, s': State, g: Ticket)
    requires Inv(s) && Calm(s) && Step(s, e, s') && Considerate(s, e) && Honest(s, e) && g in Kept(s, e)
    ensures Idle(s'.tree, g.path, g) && Waits(s.tree, g.path)
  {
    KeptDistinct(s, e);
    IdleFound(s.tree, g);
    if e.RemoveEvent? { RunDiffers(s.pending, e.i, g); }
    Spared(s, e, s', g);
  }

  lemma RunDiffers(pending: seq<Ticket>, i: nat, g: Ticket)
    requires Distinct(pending) && i < |pending| && g in Without(pending, i)
    ensures pending[i] != g
  {}

  lemma CalmStep(s: State, e: Event, s': State)
    requires Inv(s) && Calm(s) && Step(s, e, s') && Considerate(s, e)
    ensures Honest(s, e) && Inv(s') && Calm(s')
  {
    if e.RemoveEvent? { IdleFound(s.tree, s.pending[e.i]); }
    HonestBacked(s, e);
    StepInv(s, e, s');
    Added(s, e, s');
    KeptDistinct(s, e);
    forall g | g in Kept(s, e) ensures Idle(s'.tree, g.path, g) && Waits(s.tree, g.path) { CalmKept(s, e, s', g); }
    CalmWith(s.tree, Kept(s, e), s');
  }

  lemma CalmWith(t: Tree, kept: seq<Ticket>, s: State)
    requires Distinct(kept) && forall g | g in kept :: Idle(s.tree, g.path, g) && Waits(t, g.path)
    requires kept <= s.pending && |s.pending| <= |kept| + 1
    requires |s.pending| > |kept| ==>
      Idle(s.tree, s.pending[|kept|].path, s.pending[|kept|]) && !Waits(t, s.pending[|kept|].path)
    ensures Calm(s)
  {
    forall j | 0 <= j < |s.pending| ensures Idle(s.tree, s.pending[j].path, s.pending[j]) {
      if j < |kept| { assert kept[j] in kept && s.pending[j] == kept[j]; }
    }
    forall j, l | 0 <= j < l < |s.pending| ensures s.pending[j].path != s.pending[l].path {
      assert kept[j] in kept && s.pending[j] == kept[j];
      if l < |kept| { assert s.pending[l] == kept[l]; }
    }
  }

  // When no reservation passes a path while a removal is pending for it, the parent of every pending
  // removal is there and every removal finds what it read and erases an empty chain.
  lemma {:induction false} ConsiderateRun(states: seq<State>, events: seq<Event>, i: nat)
    requires Run(states, events) && i < |states|
    requires forall l | 0 <= l < i :: Considerate(states[l], events[l])
    ensures Inv(states[i]) && Calm(states[i])
    ensures forall j | 0 <= j < |states[i].pending| ::
      && Alive(states[i].tree, states[i].pending[j]) && Matches(states[i].tree, states[i].pending[j])
      && FindsRead(states[i].tree, states[i].pending[j]) && Waits(states[i].tree, states[i].pending[j].path)
  {
    if i == 0 {
      InitInv();
    } else {
      ConsiderateRun(states, events, i - 1);
      CalmStep(states[i - 1], events[i - 1], states[i]);
    }
    forall j | 0 <= j < |states[i].pending|
      ensures Alive(states[i].tree, states[i].pending[j]) && Matches(states[i].tree, states[i].pending[j])
      ensures FindsRead(states[i].tree, states[i].pending[j]) && Waits(states[i].tree, states[i].pending[j].path)
    {
      IdleFound(states[i].tree, states[i].pending[j]);
    }
  }

  // The tree with one chain under a and one under a, b, all of version v, and the items in the latter.
  function Two(a: Key, b: Key, v: nat, items: seq<nat>): Tree { One(a, v, map[b := Leaf(v, items)]) }

  function One(a: Key, v: nat, kids: map<Key, Tree>): Tree {
    Tree(0, Segment(0, v, [], map[a := Middle(v, kids)], true), [])
  }

  function Middle(v: nat, kids: map<Key, Tree>): Tree { Tree(1, Segment(1, v, [], kids, true), []) }

  function Leaf(v: nat, items: seq<nat>): Tree { Tree(2, Segment(2, v, items, map[], true), []) }

  lemma LeafReserve(v: nat, x: nat, n: nat)
    ensures Reserve(Leaf(v, []), [], x, n) == Leaf(v + 1, [x])
  {
    assert [] + [x] == [x];
  }

  lemma MiddleReserve(b: Key, v: nat, x: nat, n: nat)
    ensures Reserve(Middle(v, map[b := Leaf(v, [])]), [b], x, n) == Middle(v + 1, map[b := Leaf(v + 1, [x])])
  {
    LeafReserve(v, x, n + 1);
    assert map[b := Leaf(v, [])][b := Leaf(v + 1, [x])] == map[b := Leaf(v + 1, [x])];
  }

  lemma TwoReserve(a: Key, b: Key, v: nat, x: nat, n: nat)
    ensures Reserve(Two(a, b, v, []), [a, b], x, n) == Two(a, b, v + 1, [x])
  {
    var kids, kids' := map[b := Leaf(v, [])], map[b := Leaf(v + 1, [x])];
    assert [a, b][1..] == [b];
    MiddleReserve(b, v, x, n + 1);
    assert map[a := Middle(v, kids)][a := Middle(v + 1, kids')] == map[a := Middle(v + 1, kids')];
  }

  lemma FirstReserve(a: Key, b: Key, x: nat)
    ensures Reserve(Fresh(0, true), [a, b], x, 1) == Two(a, b, 1, [x])
  {
    assert [a, b][1..] == [b];
    LeafReserve(0, x, 3);
    assert Fresh(2, true) == Leaf(0, []);
    assert Reserve(Fresh(1, true), [b], x, 2) == Middle(1, map[b := Leaf(1, [x])]);
  }

  lemma TwoPop(a: Key, b: Key, v: nat, x: nat)
    ensures IsHead(Two(a, b, v, [x]), [a, b], x) && Pop(Two(a, b, v, [x]), [a, b], x) == Two(a, b, v, [])
    ensures OnFront(Two(a, b, v, []), [a, b]) && At(Two(a, b, v, []), [a, b]) == Leaf(v, [])
    ensures Read(Two(a, b, v, []), [a, b]) == [Ticket([a, b], 1, 2, v)]
  {
    assert [a, b][1..] == [b] && [b][1..] == [] && [a, b][..1] == [a];
    var kids, kids' := map[b := Leaf(v, [x])], map[b := Leaf(v, [])];
    assert Pop(Leaf(v, [x]), [], x) == Leaf(v, []);
    assert kids[b := Leaf(v, [])] == kids';
    assert Pop(Middle(v, kids), [b], x) == Middle(v, kids');
    assert map[a := Middle(v, kids)][a := Middle(v, kids')] == map[a := Middle(v, kids')];
    MiddleLeaf(b, v);
    TwoMiddle(a, b, v);
  }

  lemma MiddleLeaf(b: Key, v: nat)
    ensures OnFront(Middle(v, map[b := Leaf(v, [])]), [b])
    ensures At(Middle(v, map[b := Leaf(v, [])]), [b]) == Leaf(v, [])
  {
    var t := Middle(v, map[b := Leaf(v, [])]);
    assert [b][1..] == [] && [b][0] == b && t.front.children[b] == Leaf(v, []);
    assert OnFront(Leaf(v, []), []) && At(Leaf(v, []), []) == Leaf(v, []);
  }

  lemma TwoMiddle(a: Key, b: Key, v: nat)
    ensures OnFront(Two(a, b, v, []), [a]) && At(Two(a, b, v, []), [a]) == Middle(v, map[b := Leaf(v, [])])
  {
    var kids := map[b := Leaf(v, [])];
    assert [a][1..] == [] && [a][0] == a;
    assert Two(a, b, v, []).front.children[a] == Middle(v, kids);
    assert OnFront(Middle(v, kids), []) && At(Middle(v, kids), []) == Middle(v, kids);
  }

  lemma TwoErase(a: Key, b: Key, v: nat)
    ensures OnFront(Two(a, b, v, []), [a]) && At(Two(a, b, v, []), [a]) == Middle(v, map[b := Leaf(v, [])])
    ensures map[b := Leaf(v, [])] - {b} == map[] && map[a := Middle(v, map[])] - {a} == map[]
    ensures Erase(Two(a, b, v, []), [a], b) == One(a, v, map[])
    ensures OnFront(One(a, v, map[]), [a]) && Read(One(a, v, map[]), [a]) == [Ticket([a], 0, 1, v)]
    ensures Erase(One(a, v, map[]), [], a) == Tree(0, Segment(0, v, [], map[], true), [])
  {
    assert [a][1..] == [] && [a][..0] == [];
    var kids := map[b := Leaf(v, [])];
    assert kids - {b} == map[];
    assert DropChild(Middle(v, kids), b) == Middle(v, map[]);
    assert map[a := Middle(v, kids)][a := Middle(v, map[])] == map[a := Middle(v, map[])];
    assert map[a := Middle(v, map[])] - {a} == map[];
    assert At(One(a, v, map[]), [a]) == Middle(v, map[]);
    assert Erase(Middle(v, kids), [], b) == Middle(v, map[]);
  }

  // The states of a run: reserve a, b; finalize; again; then the second removal and the one it starts.
  function Stage(a: Key, b: Key, i: nat): State {
    var p, t1, t2, t3 := [a, b], Ticket([a, b], 1, 2, 1), Ticket([a, b], 1, 2, 2), Ticket([a], 0, 1, 2);
    match i
    case 0 => Init()
    case 1 => State(Two(a, b, 1, [0]), 4, [], [p], {}, false, false)
    case 2 => State(Two(a, b, 1, []), 4, [t1], [p], {0}, false, false)
    case 3 => State(Two(a, b, 2, [1]), 7, [t1], [p, p], {0}, false, false)
    case 4 => State(Two(a, b, 2, []), 7, [t1, t2], [p, p], {0, 1}, false, false)
    case 5 => State(One(a, 2, map[]), 7, [t1, t3], [p, p], {0, 1}, false, false)
    case _ => State(Tree(0, Segment(0, 2, [], map[], true), []), 7, [t1], [p, p], {0, 1}, false, false)
  }

  lemma TwoReserves(a: Key, b: Key)
    ensures Step(Stage(a, b, 0), ReserveEvent([a, b]), Stage(a, b, 1))
    ensures Step(Stage(a, b, 2), ReserveEvent([a, b]), Stage(a, b, 3))
  {
    FirstReserve(a, b, 0);
    TwoReserve(a, b, 1, 1, 4);
  }

  lemma TwoFinalized(a: Key, b: Key, v: nat, x: nat, s: State)
    requires s.tree == Two(a, b, v, [x]) && x < |s.paths| && s.paths[x] == [a, b]
    ensures Step(s, FinalizeEvent(x), s.(tree := Two(a, b, v, []), done := s.done + {x},
                                         pending := s.pending + [Ticket([a, b], 1, 2, v)]))
  {
    TwoPop(a, b, v, x);
  }

  lemma TwoFinalizes(a: Key, b: Key)
    ensures Step(Stage(a, b, 1), FinalizeEvent(0), Stage(a, b, 2))
    ensures Step(Stage(a, b, 3), FinalizeEvent(1), Stage(a, b, 4))
  {
    TwoFinalized(a, b, 1, 0, Stage(a, b, 1));
    TwoFinalized(a, b, 2, 1, Stage(a, b, 3));
    assert {0} + {1} == {0, 1} && {} + {0} == {0};
  }

  lemma RemovedTwice(a: Key, b: Key)
    ensures Step(Stage(a, b, 4), RemoveEvent(1), Stage(a, b, 5)) && Honest(Stage(a, b, 4), RemoveEvent(1))
    ensures Step(Stage(a, b, 5), RemoveEvent(1), Stage(a, b, 6)) && Honest(Stage(a, b, 5), RemoveEvent(1))
    ensures !Alive(Stage(a, b, 6).tree, Stage(a, b, 6).pending[0])
  {
    var s4, s5 := Stage(a, b, 4), Stage(a, b, 5);
    var t2, t3 := s4.pending[1], s5.pending[1];
    TwoErase(a, b, 2);
    assert Parent(t2) == [a] && LastKey(t2) == b && Parent(t3) == [] && LastKey(t3) == a;
    assert Without(s4.pending, 1) == [s4.pending[0]] && Without(s5.pending, 1) == [s5.pending[0]];
    assert [s4.pending[0]] + [t3] == [s4.pending[0], t3];
  }

  function Act(a: Key, b: Key, i: nat): Event {
    match i
    case 0 => ReserveEvent([a, b])
    case 1 => FinalizeEvent(0)
    case 2 => ReserveEvent([a, b])
    case 3 => FinalizeEvent(1)
    case _ => RemoveEvent(1)
  }

  lemma StageStep(a: Key, b: Key, i: nat)
    requires i < 6
    ensures Step(Stage(a, b, i), Act(a, b, i), Stage(a, b, i + 1))
  {
    match i
    case 0 => TwoReserves(a, b);
    case 1 => TwoFinalizes(a, b);
    case 2 => TwoReserves(a, b);
    case 3 => TwoFinalizes(a, b);
    case _ => RemovedTwice(a, b);
  }

  // Otherwise the parent can be gone, though every match was right: while one removal of the chain at
  // a, b is pending, a reservation passes, a second removal erases the chain, and a third its parent.
  lemma ParentGone(a: Key, b: Key) returns (states: seq<State>, events: seq<Event>)
    ensures Run(states, events) && HonestBefore(states, events, |events|)
    ensures var s := states[|events|];
      s.pending == [Ticket([a, b], 1, 2, 1)] && !Alive(s.tree, s.pending[0]) && Vacant(s.tree)
  {
    states := seq(7, i requires 0 <= i < 7 => Stage(a, b, i));
    events := seq(6, i requires 0 <= i < 6 => Act(a, b, i));
    forall i | 0 <= i < 6 ensures Step(states[i], events[i], states[i + 1]) { StageStep(a, b, i); }
    RemovedTwice(a, b);
  }

  function Single(a: Key, v: nat, n: nat, w: nat, items: seq<nat>): Tree {
    Tree(0, Segment(0, v, [], map[a := Tree(n, Segment(n, w, items, map[], true), [])], true), [])
  }

  function Bare(v: nat): Tree { Tree(0, Segment(0, v, [], map[], true), []) }

  lemma SingleReserve(a: Key, v: nat, n: nat, w: nat, x: nat, m: nat)
    ensures Reserve(Single(a, v, n, w, []), [a], x, m) == Single(a, v + 1, n, w + 1, [x])
    ensures Reserve(Bare(v), [a], x, m) == Single(a, v + 1, m, 1, [x])
  {
    var c, d := Tree(n, Segment(n, w, [], map[], true), []), Tree(n, Segment(n, w + 1, [x], map[], true), []);
    assert [a][1..] == [] && [] + [x] == [x];
    assert map[a := c][a := d] == map[a := d];
    assert Reserve(c, [], x, m + 1) == d;
  }

  lemma SinglePop(a: Key, v: nat, n: nat, w: nat, x: nat)
    ensures IsHead(Single(a, v, n, w, [x]), [a], x) && Pop(Single(a, v, n, w, [x]), [a], x) == Single(a, v, n, w, [])
    ensures OnFront(Single(a, v, n, w, []), [a]) && Vacant(At(Single(a, v, n, w, []), [a]))
    ensures Read(Single(a, v, n, w, []), [a]) == [Ticket([a], 0, n, w)]
  {
    var c, d := Tree(n, Segment(n, w, [x], map[], true), []), Tree(n, Segment(n, w, [], map[], true), []);
    assert [a][1..] == [] && [a][..0] == [];
    assert map[a := c][a := d] == map[a := d];
    assert Pop(c, [], x) == d;
    assert At(Single(a, v, n, w, []), [a]) == d;
  }

  lemma SingleErase(a: Key, v: nat, n: nat, w: nat, items: seq<nat>)
    ensures Erase(Single(a, v, n, w, items), [], a) == Bare(v)
    ensures Single(a, v, n, w, items).front.children - {a} == map[]
  {
    assert Single(a, v, n, w, items).front.children - {a} == map[];
  }

  // The states of a run: use the path a twice, remove the chain, reserve once more, and then let the
  // removal of the first use go on.
  function Scene(a: Key, i: nat): State {
    var p, t1, t2 := [a], Ticket([a], 0, 1, 1), Ticket([a], 0, 1, 2);
    match i
    case 0 => Init()
    case 1 => State(Single(a, 1, 1, 1, [0]), 3, [], [p], {}, false, false)
    case 2 => State(Single(a, 1, 1, 1, []), 3, [t1], [p], {0}, false, false)
    case 3 => State(Single(a, 2, 1, 2, [1]), 5, [t1], [p, p], {0}, false, false)
    case 4 => State(Single(a, 2, 1, 2, []), 5, [t1, t2], [p, p], {0, 1}, false, false)
    case 5 => State(Bare(2), 5, [t1], [p, p], {0, 1}, false, false)
    case 6 => State(Single(a, 3, 5, 1, [2]), 7, [t1], [p, p, p], {0, 1}, false, false)
    case _ => State(Bare(3), 7, [], [p, p, p], {0, 1}, false, false)
  }

  function Cue(a: Key, i: nat): Event {
    match i
    case 1 => FinalizeEvent(0)
    case 3 => FinalizeEvent(1)
    case 4 => RemoveEvent(1)
    case 6 => RemoveEvent(0)
    case _ => ReserveEvent([a])
  }

  lemma SceneReserves(a: Key)
    ensures Step(Scene(a, 0), ReserveEvent([a]), Scene(a, 1)) && Step(Scene(a, 2), ReserveEvent([a]), Scene(a, 3))
    ensures Step(Scene(a, 5), ReserveEvent([a]), Scene(a, 6))
  {
    SingleReserve(a, 0, 1, 0, 0, 1);
    SingleReserve(a, 1, 1, 1, 1, 3);
    SingleReserve(a, 2, 1, 2, 2, 5);
  }

  lemma SingleFinalized(a: Key, v: nat, w: nat, x: nat, s: State)
    requires s.tree == Single(a, v, 1, w, [x]) && x < |s.paths| && s.paths[x] == [a]
    ensures Step(s, FinalizeEvent(x), s.(tree := Single(a, v, 1, w, []), done := s.done + {x},
                                         pending := s.pending + [Ticket([a], 0, 1, w)]))
  {
    SinglePop(a, v, 1, w, x);
  }

  lemma SceneFinalizes(a: Key)
    ensures Step(Scene(a, 1), FinalizeEvent(0), Scene(a, 2)) && Step(Scene(a, 3), FinalizeEvent(1), Scene(a, 4))
  {
    SingleFinalized(a, 1, 1, 0, Scene(a, 1));
    SingleFinalized(a, 2, 2, 1, Scene(a, 3));
    assert {0} + {1} == {0, 1} && {} + {0} == {0};
  }

  lemma SceneRemoves(a: Key)
    ensures Step(Scene(a, 4), RemoveEvent(1), Scene(a, 5)) && Honest(Scene(a, 4), RemoveEvent(1))
    ensures Step(Scene(a, 6), RemoveEvent(0), Scene(a, 7)) && !Backed(Scene(a, 6), RemoveEvent(0))
  {
    var s4, s6 := Scene(a, 4), Scene(a, 6);
    SingleErase(a, 2, 1, 2, []);
    SingleErase(a, 3, 5, 1, [2]);
    assert Parent(s4.pending[1]) == [] && Parent(s6.pending[0]) == [];
    assert Without(s4.pending, 1) == [s4.pending[0]] && Without(s6.pending, 0) == [];
    assert At(s6.tree, []).front.children[a].front.siblings == [2];
    assert !Expected(s6, [a]);
  }

  lemma SceneStep(a: Key, i: nat)
    requires i < 7
    ensures Step(Scene(a, i), Cue(a, i), Scene(a, i + 1))
  {
    match i
    case 1 => SceneFinalizes(a);
    case 3 => SceneFinalizes(a);
    case 4 => SceneRemoves(a);
    case 6 => SceneRemoves(a);
    case _ => SceneReserves(a);
  }

  // A match that nothing backs takes an item with it: up to the last event every removal has found
  // what it read, and afterwards the tree is empty although item 2 is not finalized.
  lemma LostItem(a: Key) returns (states: seq<State>, events: seq<Event>)
    ensures Run(states, events) && |events| == 7 && HonestBefore(states, events, 6)
    ensures events[6] == RemoveEvent(0) && !Backed(states[6], events[6])
    ensures var s := states[7]; Vacant(s.tree) && s.pending == [] && |s.paths| == 3 && 2 !in s.done
  {
    states := seq(8, i requires 0 <= i < 8 => Scene(a, i));
    events := seq(7, i requires 0 <= i < 7 => Cue(a, i));
    forall i | 0 <= i < 7 ensures Step(states[i], events[i], states[i + 1]) { SceneStep(a, i); }
    SceneRemoves(a);
  }
}
