// Reservations on their way down: hand over hand, any number of them at a time, each chain in the
// hands of at most one. However they interleave, the tree is the one that whole reservations would
// have built, one after the other in the order in which they locked the root.
module Descents {
  import opened Tags
  import T = Trees
  import P = Places

  // A reservation that is at a chain and holds its lock. path is what is left of the way below the
  // chain, lands says whether the reservation would have been offered had it been made as a whole
  // when it locked the root.
  datatype Visit = Visit(path: seq<Key>, item: nat, filled: bool, lands: bool)

  // Arrived: not yet begun here. Aimed: the child it goes on to is there, its lock is wanted.
  // Leaving: done here, only the lock is still held.
  datatype Guest = Nobody | Arrived(visit: Visit) | Aimed(visit: Visit) | Leaving

  datatype Segment = Segment(siblings: seq<nat>, children: map<Key, Chain>, active: bool)

  datatype Chain = Chain(front: Segment, later: seq<Segment>, guest: Guest)

  function SegAt(c: Chain, i: nat): Segment
    requires i <= |c.later|
  {
    if i == 0 then c.front else c.later[i - 1]
  }

  function SetSeg(c: Chain, i: nat, s: Segment): (r: Chain)
    requires i <= |c.later|
    ensures |r.later| == |c.later| && r.guest == c.guest
  {
    if i == 0 then Chain(s, c.later, c.guest) else Chain(c.front, c.later[i - 1 := s], c.guest)
  }

  function SetKid(c: Chain, i: nat, k: Key, d: Chain): Chain
    requires i <= |c.later|
  {
    SetSeg(c, i, SegAt(c, i).(children := SegAt(c, i).children[k := d]))
  }

  function Last(c: Chain): Segment { SegAt(c, |c.later|) }

  function Fresh(active: bool): Chain { Chain(Segment([], map[], active), [], Nobody) }

  // The tree once every reservation inside has been completed.
  ghost function Completed(c: Chain): T.Tree
    decreases c, 2
  {
    if c.guest.Arrived? || c.guest.Aimed? then T.Reserve(Base(c), c.guest.visit.path, c.guest.visit.item) else Base(c)
  }

  // The same without the one at the top, which is behind all others inside.
  ghost function Base(c: Chain): T.Tree
    decreases c, 1
  {
    T.Tree(BaseSegment(c.front), seq(|c.later|, i requires 0 <= i < |c.later| => BaseSegment(c.later[i])))
  }

  ghost function BaseSegment(s: Segment): T.Segment
    decreases s, 0
  {
    T.Segment(s.siblings, map k | k in s.children :: Completed(s.children[k]), s.active)
  }

  datatype Event = Quietly | Placed(item: nat, offered: bool)

  // add_sibling
  function Place(c: Chain): Chain
    requires c.guest.Arrived?
  {
    var x := c.guest.visit.item;
    var d := c.(guest := Leaving);
    if Last(c).children != map[] then d.(later := d.later + [Segment([x], map[], false)])
    else SetSeg(d, |d.later|, Last(d).(siblings := Last(d).siblings + [x]))
  }

  predicate Ready(c: Chain) { Last(c).children == map[] && Last(c).active && Last(c).siblings == [] }

  // ensure_child
  function Aim(c: Chain): Chain
    requires c.guest.Arrived? && c.guest.visit.path != []
  {
    var k := c.guest.visit.path[0];
    var d := c.(guest := Aimed(c.guest.visit));
    if k in Last(c).children then d else SetKid(d, |d.later|, k, Fresh(Last(c).active && Last(c).siblings == []))
  }

  // the child's lock is taken
  function Descend(c: Chain): Chain
    requires c.guest.Aimed? && c.guest.visit.path != [] && c.guest.visit.path[0] in Last(c).children
  {
    var v := c.guest.visit;
    var d := Last(c).children[v.path[0]];
    SetKid(c.(guest := Leaving), |c.later|, v.path[0], d.(guest := Arrived(v.(path := v.path[1..]))))
  }

  // A step of the reservation at this chain.
  ghost predicate Local(c: Chain, e: Event, c': Chain) {
    match c.guest
    case Nobody => false
    case Arrived(v) =>
      if v.path == [] then e == Placed(v.item, v.filled && Ready(c)) && c' == Place(c)
      else e == Quietly && c' == Aim(c)
    case Aimed(v) =>
      && e == Quietly && v.path != [] && v.path[0] in Last(c).children
      && Last(c).children[v.path[0]].guest == Nobody && c' == Descend(c)
    case Leaving => e == Quietly && c' == c.(guest := Nobody)
  }

  // A step of some reservation inside.
  ghost predicate Step(c: Chain, e: Event, c': Chain)
    decreases c
  {
    || Local(c, e, c')
    || exists i: nat, k | i <= |c.later| && k in SegAt(c, i).children :: Inside(c, i, k, e, c')
  }

  ghost predicate Inside(c: Chain, i: nat, k: Key, e: Event, c': Chain)
    requires i <= |c.later| && k in SegAt(c, i).children
    decreases c, 0
  {
    exists d :: Step(SegAt(c, i).children[k], e, d) && c' == SetKid(c, i, k, d)
  }

  lemma GuestBase(c: Chain, g: Guest)
    ensures Base(c.(guest := g)) == Base(c)
  {
    assert Base(c.(guest := g)).later == Base(c).later;
  }

  lemma LastBase(c: Chain)
    ensures |Base(c).later| == |c.later| && T.Last(Base(c)) == BaseSegment(Last(c))
  {}

  lemma FreshBase(a: bool)
    ensures Completed(Fresh(a)) == T.Fresh(a)
  {
    var c := Fresh(a);
    assert BaseSegment(c.front) == T.Segment([], map[], a);
    assert Base(c) == T.Tree(BaseSegment(c.front), []);
  }

  lemma KidBase(c: Chain, i: nat, k: Key, d: Chain)
    requires i <= |c.later|
    ensures Base(SetKid(c, i, k, d)) == P.SetKid(Base(c), i, k, Completed(d))
  {
    var s := SegAt(c, i);
    assert BaseSegment(s.(children := s.children[k := d])).children == BaseSegment(s).children[k := Completed(d)];
    assert Base(SetKid(c, i, k, d)).later == P.SetKid(Base(c), i, k, Completed(d)).later;
  }

  lemma PlaceBase(c: Chain)
    requires c.guest.Arrived?
    ensures Base(Place(c)) == T.AddSibling(Base(c), c.guest.visit.item)
    ensures Ready(c) == T.Lands(Base(c), [])
  {
    LastBase(c);
    assert BaseSegment(Last(c)).children.Keys == Last(c).children.Keys;
    assert Last(c).children != map[] <==> BaseSegment(Last(c)).children != map[];
    assert Base(Place(c)).later == T.AddSibling(Base(c), c.guest.visit.item).later;
  }

  // A descent through key k: what the child is there for it, and what it then does.
  lemma DescentBase(c: Chain, k: Key, p: seq<Key>, x: nat)
    ensures var d := if k in Last(c).children then Completed(Last(c).children[k])
                     else T.Fresh(Last(c).active && Last(c).siblings == []);
      && d == T.ChildFor(T.Last(Base(c)), k)
      && T.Reserve(Base(c), [k] + p, x) == P.SetKid(Base(c), |c.later|, k, T.Reserve(d, p, x))
      && T.Lands(Base(c), [k] + p) == T.Lands(d, p)
  {
    LastBase(c);
    assert ([k] + p)[0] == k && ([k] + p)[1..] == p;
  }

  lemma KidAgain(t: T.Tree, i: nat, k: Key, c: T.Tree, d: T.Tree)
    requires i <= |t.later|
    ensures P.SetKid(P.SetKid(t, i, k, c), i, k, d) == P.SetKid(t, i, k, d)
  {
    assert P.SegAt(t, i).children[k := c][k := d] == P.SegAt(t, i).children[k := d];
  }

  lemma AimCompleted(c: Chain)
    requires c.guest.Arrived? && c.guest.visit.path != []
    ensures Completed(Aim(c)) == Completed(c)
  {
    var v := c.guest.visit;
    var k, rest := v.path[0], v.path[1..];
    var b := c.(guest := Aimed(v));
    GuestBase(c, Aimed(v));
    if k !in Last(c).children {
      var d := T.Fresh(Last(c).active && Last(c).siblings == []);
      FreshBase(d.front.active);
      KidBase(b, |b.later|, k, Fresh(d.front.active));
      assert v.path == [k] + rest;
      DescentBase(c, k, rest, v.item);
      DescentBase(Aim(c), k, rest, v.item);
      KidAgain(Base(c), |c.later|, k, d, T.Reserve(d, rest, v.item));
    }
  }

  lemma DescendCompleted(c: Chain)
    requires c.guest.Aimed? && c.guest.visit.path != [] && c.guest.visit.path[0] in Last(c).children
    requires Last(c).children[c.guest.visit.path[0]].guest == Nobody
    ensures Completed(Descend(c)) == Completed(c)
  {
    var v := c.guest.visit;
    var k, rest := v.path[0], v.path[1..];
    var d := Last(c).children[k];
    var d' := d.(guest := Arrived(v.(path := rest)));
    assert v.path == [k] + rest;
    GuestBase(c, Leaving);
    GuestBase(d, d'.guest);
    KidBase(c.(guest := Leaving), |c.later|, k, d');
    DescentBase(c, k, rest, v.item);
  }

  lemma LocalCompleted(c: Chain, e: Event, c': Chain)
    requires Local(c, e, c')
    ensures Completed(c') == Completed(c)
  {
    if c.guest.Leaving? {
      GuestBase(c, Nobody);
    } else if c.guest.Aimed? {
      DescendCompleted(c);
    } else if c.guest.visit.path == [] {
      PlaceBase(c);
    } else {
      AimCompleted(c);
    }
  }

  // Setting a child that completes to the same changes nothing.
  lemma SameCompleted(c: Chain, i: nat, k: Key, d: Chain)
    requires i <= |c.later| && k in SegAt(c, i).children && Completed(d) == Completed(SegAt(c, i).children[k])
    ensures Base(SetKid(c, i, k, d)) == Base(c) && Completed(SetKid(c, i, k, d)) == Completed(c)
  {
    KidBase(c, i, k, d);
    assert BaseSegment(SegAt(c, i)).children[k := Completed(d)] == BaseSegment(SegAt(c, i)).children;
  }

  // A step changes nothing of what the tree will be once the reservations inside have been completed.
  lemma {:induction false} StepCompleted(c: Chain, e: Event, c': Chain)
    requires Step(c, e, c')
    ensures Completed(c') == Completed(c)
    decreases c
  {
    if Local(c, e, c') {
      LocalCompleted(c, e, c');
    } else {
      var i: nat, k :| i <= |c.later| && k in SegAt(c, i).children && Inside(c, i, k, e, c');
      var d :| Step(SegAt(c, i).children[k], e, d) && c' == SetKid(c, i, k, d);
      StepCompleted(SegAt(c, i).children[k], e, d);
      SameCompleted(c, i, k, d);
    }
  }

  // What is known of the reservation at a chain, and of those below it.
  ghost predicate Fair(c: Chain)
    decreases c, 1
  {
    GuestFair(c) && KidsFair(c)
  }

  ghost predicate GuestFair(c: Chain) {
    match c.guest
    case Arrived(v) => v.lands == T.Lands(Base(c), v.path)
    case Aimed(v) => v.path != [] && v.path[0] in Last(c).children && v.lands == T.Lands(Base(c), v.path)
    case _ => true
  }

  ghost predicate KidsFair(c: Chain)
    decreases c, 0
  {
    forall i: nat, k | i <= |c.later| && k in SegAt(c, i).children :: Fair(SegAt(c, i).children[k])
  }

  // Somewhere inside, a reservation like v is on its way.
  ghost predicate Carries(c: Chain, v: Visit)
    decreases c, 1
  {
    GuestCarries(c.guest, v) || KidsCarry(c, v)
  }

  ghost predicate GuestCarries(g: Guest, v: Visit) {
    (g.Arrived? || g.Aimed?) && g.visit.(path := v.path) == v
  }

  ghost predicate KidsCarry(c: Chain, v: Visit)
    decreases c, 0
  {
    exists i: nat, k | i <= |c.later| && k in SegAt(c, i).children :: Carries(SegAt(c, i).children[k], v)
  }

  lemma KidsSame(c: Chain, c': Chain)
    requires KidsFair(c)
    requires forall i: nat, k | i <= |c'.later| && k in SegAt(c', i).children ::
      i <= |c.later| && k in SegAt(c, i).children && SegAt(c', i).children[k] == SegAt(c, i).children[k]
    ensures KidsFair(c') && forall v :: KidsCarry(c', v) ==> KidsCarry(c, v)
  {
    forall v | KidsCarry(c', v) ensures KidsCarry(c, v) {
      var i: nat, k :| i <= |c'.later| && k in SegAt(c', i).children && Carries(SegAt(c', i).children[k], v);
      assert Carries(SegAt(c, i).children[k], v);
    }
  }

  lemma KidsSet(c: Chain, i: nat, k: Key, d: Chain)
    requires KidsFair(c) && i <= |c.later| && Fair(d)
    ensures KidsFair(SetKid(c, i, k, d))
    ensures forall v :: KidsCarry(SetKid(c, i, k, d), v) ==> KidsCarry(c, v) || Carries(d, v)
  {
    var c' := SetKid(c, i, k, d);
    forall j: nat, l | j <= |c'.later| && l in SegAt(c', j).children ensures Fair(SegAt(c', j).children[l]) {
      if (j, l) != (i, k) { assert SegAt(c', j).children[l] == SegAt(c, j).children[l]; }
    }
    forall v | KidsCarry(c', v) ensures KidsCarry(c, v) || Carries(d, v) {
      var j: nat, l :| j <= |c'.later| && l in SegAt(c', j).children && Carries(SegAt(c', j).children[l], v);
      if (j, l) != (i, k) {
        assert Carries(SegAt(c, j).children[l], v);
      } else {
        assert SegAt(c', j).children[l] == d;
      }
    }
  }

  // A step changes nothing of what will have been reserved, and offers what a whole reservation
  // would have offered.
  ghost predicate Serial(c: Chain, e: Event, c': Chain) {
    && Fair(c') && Completed(c') == Completed(c)
    && (e.Placed? ==> exists v :: Carries(c, v) && v.item == e.item && e.offered == (v.filled && v.lands))
    && forall v :: Carries(c', v) ==> Carries(c, v)
  }

  lemma PlaceSerial(c: Chain)
    requires Fair(c) && c.guest.Arrived? && c.guest.visit.path == []
    ensures Serial(c, Placed(c.guest.visit.item, c.guest.visit.filled && Ready(c)), Place(c))
  {
    PlaceBase(c);
    assert Carries(c, c.guest.visit);
    KidsSame(c, Place(c));
  }

  lemma AimSerial(c: Chain)
    requires Fair(c) && c.guest.Arrived? && c.guest.visit.path != []
    ensures Serial(c, Quietly, Aim(c))
  {
    AimCompleted(c);
    AimLands(c);
    AimKids(c);
    forall w ensures Carries(Aim(c), w) ==> Carries(c, w) {
      assert GuestCarries(Aim(c).guest, w) ==> GuestCarries(c.guest, w);
    }
  }

  lemma AimKids(c: Chain)
    requires KidsFair(c) && c.guest.Arrived? && c.guest.visit.path != []
    ensures KidsFair(Aim(c)) && forall w :: KidsCarry(Aim(c), w) ==> KidsCarry(c, w)
  {
    var k := c.guest.visit.path[0];
    var b := c.(guest := Aimed(c.guest.visit));
    KidsSame(c, b);
    if k !in Last(c).children {
      var d := Fresh(Last(c).active && Last(c).siblings == []);
      assert Fair(d);
      KidsSet(b, |b.later|, k, d);
      forall w ensures !Carries(d, w) {}
    }
  }

  lemma AimLands(c: Chain)
    requires c.guest.Arrived? && c.guest.visit.path != []
    ensures T.Lands(Base(Aim(c)), c.guest.visit.path) == T.Lands(Base(c), c.guest.visit.path)
  {
    var v := c.guest.visit;
    var k, rest := v.path[0], v.path[1..];
    GuestBase(c, Aimed(v));
    FreshBase(Last(c).active && Last(c).siblings == []);
    assert v.path == [k] + rest;
    DescentBase(c, k, rest, v.item);
    DescentBase(Aim(c), k, rest, v.item);
  }

  lemma DescendSerial(c: Chain)
    requires Fair(c) && c.guest.Aimed? && Last(c).children[c.guest.visit.path[0]].guest == Nobody
    ensures Serial(c, Quietly, Descend(c))
  {
    var v, k := c.guest.visit, c.guest.visit.path[0];
    var d := Last(c).children[k];
    var d' := d.(guest := Arrived(v.(path := v.path[1..])));
    var b := c.(guest := Leaving);
    assert v.path == [k] + v.path[1..];
    DescendCompleted(c);
    GuestBase(d, d'.guest);
    DescentBase(c, k, v.path[1..], v.item);
    assert d == SegAt(c, |c.later|).children[k] && Fair(d);
    KidsSame(d, d');
    assert Fair(d');
    KidsSame(c, b);
    KidsSet(b, |b.later|, k, d');
    assert Descend(c) == SetKid(b, |b.later|, k, d');
    forall w ensures Carries(Descend(c), w) ==> Carries(c, w) {
      assert GuestCarries(d'.guest, w) ==> GuestCarries(c.guest, w);
      assert KidsCarry(d', w) ==> KidsCarry(d, w) ==> Carries(d, w);
      assert Carries(d, w) ==> KidsCarry(c, w);
      assert Carries(Descend(c), w) ==> KidsCarry(Descend(c), w);
      assert KidsCarry(Descend(c), w) ==> KidsCarry(b, w) || Carries(d', w);
    }
  }

  lemma LeaveSerial(c: Chain)
    requires Fair(c) && c.guest.Leaving?
    ensures Serial(c, Quietly, c.(guest := Nobody))
  {
    GuestBase(c, Nobody);
    KidsSame(c, c.(guest := Nobody));
  }

  lemma {:induction false} StepSerial(c: Chain, e: Event, c': Chain)
    requires Fair(c) && Step(c, e, c')
    ensures Serial(c, e, c')
    decreases c
  {
    if Local(c, e, c') {
      if c.guest.Leaving? {
        LeaveSerial(c);
      } else if c.guest.Aimed? {
        DescendSerial(c);
      } else if c.guest.visit.path == [] {
        PlaceSerial(c);
      } else {
        AimSerial(c);
      }
    } else {
      var i: nat, k :| i <= |c.later| && k in SegAt(c, i).children && Inside(c, i, k, e, c');
      var d :| Step(SegAt(c, i).children[k], e, d) && c' == SetKid(c, i, k, d);
      StepSerial(SegAt(c, i).children[k], e, d);
      InsideSerial(c, i, k, e, d);
    }
  }

  lemma InsideSerial(c: Chain, i: nat, k: Key, e: Event, d: Chain)
    requires Fair(c) && i <= |c.later| && k in SegAt(c, i).children && Serial(SegAt(c, i).children[k], e, d)
    ensures Serial(c, e, SetKid(c, i, k, d))
  {
    var o, c' := SegAt(c, i).children[k], SetKid(c, i, k, d);
    SameCompleted(c, i, k, d);
    KidsSet(c, i, k, d);
    assert forall v :: Carries(o, v) ==> KidsCarry(c, v);
    forall v ensures Carries(c', v) ==> Carries(c, v) {
      assert KidsCarry(c', v) ==> KidsCarry(c, v) || Carries(d, v);
      assert Carries(d, v) ==> Carries(o, v) ==> KidsCarry(c, v);
    }
    if e.Placed? {
      var v :| Carries(o, v) && v.item == e.item && e.offered == (v.filled && v.lands);
      assert Carries(c, v);
    }
  }

  // The reservations made, in the order in which they locked the root; the items are numbered on
  // from first.
  datatype Entry = Entry(path: seq<Key>, filled: bool)

  datatype State = State(root: Chain, first: nat, entries: seq<Entry>)

  // The tree of whole reservations, one after the other.
  ghost function Sequential(t: T.Tree, first: nat, entries: seq<Entry>): T.Tree {
    if entries == [] then t
    else
      var n := |entries| - 1;
      T.Reserve(Sequential(t, first, entries[..n]), entries[n].path, first + n)
  }

  // The next reservation locks the root.
  ghost predicate EnterStep(s: State, p: seq<Key>, filled: bool, s': State) {
    && s.root.guest == Nobody
    && var v := Visit(p, s.first + |s.entries|, filled, T.Lands(Base(s.root), p));
       s' == s.(root := s.root.(guest := Arrived(v)), entries := s.entries + [Entry(p, filled)])
  }

  ghost predicate MoveStep(s: State, e: Event, s': State) {
    Step(s.root, e, s'.root) && s' == s.(root := s'.root)
  }

  datatype Action = EnterRoot(path: seq<Key>, filled: bool) | Move(e: Event)

  ghost predicate Run(states: seq<State>, actions: seq<Action>) {
    && |states| == |actions| + 1
    && Quiet(states[0].root) && states[0].entries == []
    && forall i | 0 <= i < |actions| ::
         match actions[i]
         case EnterRoot(p, filled) => EnterStep(states[i], p, filled, states[i + 1])
         case Move(e) => MoveStep(states[i], e, states[i + 1])
  }

  // Nobody is on the way anywhere inside.
  ghost predicate Quiet(c: Chain)
    decreases c
  {
    c.guest == Nobody
    && forall i: nat, k | i <= |c.later| && k in SegAt(c, i).children :: Quiet(SegAt(c, i).children[k])
  }

  // The chains as they are, without the reservations on their way.
  ghost function Plain(c: Chain): T.Tree
    decreases c, 1
  {
    T.Tree(PlainSegment(c.front), seq(|c.later|, i requires 0 <= i < |c.later| => PlainSegment(c.later[i])))
  }

  ghost function PlainSegment(s: Segment): T.Segment
    decreases s, 0
  {
    T.Segment(s.siblings, map k | k in s.children :: Plain(s.children[k]), s.active)
  }

  lemma {:induction false} QuietPlain(c: Chain)
    requires Quiet(c)
    ensures Completed(c) == Plain(c)
    decreases c
  {
    forall i: nat | i <= |c.later| ensures BaseSegment(SegAt(c, i)) == PlainSegment(SegAt(c, i)) {
      forall k | k in SegAt(c, i).children
        ensures Completed(SegAt(c, i).children[k]) == Plain(SegAt(c, i).children[k])
      {
        QuietPlain(SegAt(c, i).children[k]);
      }
      assert BaseSegment(SegAt(c, i)).children == PlainSegment(SegAt(c, i)).children;
    }
    assert BaseSegment(SegAt(c, 0)) == PlainSegment(SegAt(c, 0));
    forall i | 0 <= i < |c.later| ensures Base(c).later[i] == Plain(c).later[i] {
      assert BaseSegment(SegAt(c, i + 1)) == PlainSegment(SegAt(c, i + 1));
    }
    assert Base(c).later == Plain(c).later;
  }

  lemma {:induction false} QuietFair(c: Chain)
    requires Quiet(c)
    ensures Fair(c)
    decreases c
  {
    forall i: nat, k | i <= |c.later| && k in SegAt(c, i).children ensures Fair(SegAt(c, i).children[k]) {
      QuietFair(SegAt(c, i).children[k]);
    }
  }

  lemma {:induction false} QuietCarries(c: Chain, v: Visit)
    requires Quiet(c)
    ensures !Carries(c, v)
    decreases c
  {
    forall i: nat, k | i <= |c.later| && k in SegAt(c, i).children ensures !Carries(SegAt(c, i).children[k], v) {
      QuietCarries(SegAt(c, i).children[k], v);
    }
  }

  // What is known of a reservation on its way: which entry it is, and what a whole one would meet.
  ghost predicate Known(t: T.Tree, s: State, v: Visit) {
    && s.first <= v.item < s.first + |s.entries|
    && var n := v.item - s.first;
       v.filled == s.entries[n].filled && v.lands == T.Lands(Sequential(t, s.first, s.entries[..n]), s.entries[n].path)
  }

  ghost predicate Inv(t: T.Tree, s: State) {
    && Fair(s.root)
    && Completed(s.root) == Sequential(t, s.first, s.entries)
    && forall v | Carries(s.root, v) :: Known(t, s, v)
  }

  lemma EnterInv(t: T.Tree, s: State, p: seq<Key>, filled: bool, s': State)
    requires Inv(t, s) && EnterStep(s, p, filled, s')
    ensures Inv(t, s') && s'.first == s.first
  {
    var n := |s.entries|;
    var v := s'.root.guest.visit;
    GuestBase(s.root, s'.root.guest);
    KidsSame(s.root, s'.root);
    assert s'.entries[..n] == s.entries;
    forall w | Carries(s'.root, w) ensures Known(t, s', w) {
      if KidsCarry(s.root, w) {
        assert Known(t, s, w);
        assert s'.entries[..w.item - s.first] == s.entries[..w.item - s.first];
      }
    }
  }

  lemma MoveInv(t: T.Tree, s: State, e: Event, s': State)
    requires Inv(t, s) && MoveStep(s, e, s')
    ensures Inv(t, s') && s'.first == s.first
    ensures e.Placed? ==> exists v :: Known(t, s, v) && v.item == e.item && e.offered == (v.filled && v.lands)
  {
    StepSerial(s.root, e, s'.root);
    forall w | Carries(s'.root, w) ensures Known(t, s', w) { assert Known(t, s, w); }
    if e.Placed? {
      var v :| Carries(s.root, v) && v.item == e.item && e.offered == (v.filled && v.lands);
      assert Known(t, s, v);
    }
  }

  lemma {:induction false} RunInv(states: seq<State>, actions: seq<Action>, i: nat)
    requires Run(states, actions) && i < |states|
    ensures Inv(Plain(states[0].root), states[i]) && states[i].first == states[0].first
  {
    var t := Plain(states[0].root);
    if i == 0 {
      QuietFair(states[0].root);
      forall v ensures !Carries(states[0].root, v) { QuietCarries(states[0].root, v); }
      QuietPlain(states[0].root);
    } else {
      RunInv(states, actions, i - 1);
      match actions[i - 1]
      case EnterRoot(p, filled) => EnterInv(t, states[i - 1], p, filled, states[i]);
      case Move(e) => MoveInv(t, states[i - 1], e, states[i]);
    }
  }

  // With nobody on the way, the chains are the tree that whole reservations would have built in the
  // order in which they locked the root.
  lemma Linearizes(states: seq<State>, actions: seq<Action>, i: nat)
    requires Run(states, actions) && i < |states| && Quiet(states[i].root)
    ensures Plain(states[i].root) == Sequential(Plain(states[0].root), states[0].first, states[i].entries)
  {
    RunInv(states, actions, i);
    QuietPlain(states[i].root);
  }

  // An item is offered on its way in iff it is filled and a whole reservation, made when it locked
  // the root, would have landed at the front.
  lemma OffersAgree(states: seq<State>, actions: seq<Action>, i: nat, x: nat, offered: bool)
    requires Run(states, actions) && i < |actions| && actions[i] == Move(Placed(x, offered))
    ensures var f, es := states[0].first, states[i].entries;
      && f <= x < f + |es|
      && offered == (es[x - f].filled && T.Lands(Sequential(Plain(states[0].root), f, es[..x - f]), es[x - f].path))
  {
    RunInv(states, actions, i);
    MoveInv(Plain(states[0].root), states[i], Placed(x, offered), states[i + 1]);
  }
}
