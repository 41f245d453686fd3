// Finalizations while reservations are on their way down. A finalization holds the locks of the chains
// it works on, so nobody else is at those; anywhere else in the tree reservations may be under way.
// The tree is the one of whole reservations and finalizations, each at the point in time at which it
// locks the root or deletes its item.
module Crossings {
  import opened Tags
  import opened Descents
  import T = Trees

  predicate Vacant(c: Chain) { c.later == [] && c.front.siblings == [] && c.front.children == map[] }

  predicate IsHead(c: Chain, p: seq<Key>, x: nat)
    decreases |p|
  {
    if p == [] then c.front.siblings != [] && c.front.siblings[0] == x
    else c.front.siblings == [] && p[0] in c.front.children && IsHead(c.front.children[p[0]], p[1..], x)
  }

  function ActivateSegment(s: Segment): Segment {
    if s.siblings != [] then s.(active := true)
    else s.(children := map k | k in s.children :: Activate(s.children[k]), active := true)
  }

  function Activate(c: Chain): Chain { Chain(ActivateSegment(c.front), c.later, c.guest) }

  function NextSegment(c: Chain): Chain {
    if c.later == [] then c else Chain(ActivateSegment(c.later[0]), c.later[1..], c.guest)
  }

  function PopFront(c: Chain): Chain
    requires c.front.siblings != []
  {
    var s := c.front.(siblings := c.front.siblings[1..]);
    if s.siblings != [] then c.(front := s)
    else if s.children != map[] then c.(front := ActivateSegment(s))
    else NextSegment(c.(front := s))
  }

  function DropChild(c: Chain, k: Key): Chain {
    var c' := c.(front := c.front.(children := c.front.children - {k}));
    if c'.front.children == map[] then NextSegment(c') else c'
  }

  // finalize() of the head x at p, with the removals of the chains it leaves empty
  function Delete(c: Chain, p: seq<Key>, x: nat): Chain
    requires IsHead(c, p, x)
    decreases |p|
  {
    if p == [] then PopFront(c)
    else
      var d := Delete(c.front.children[p[0]], p[1..], x);
      if Vacant(d) then DropChild(c, p[0]) else SetKid(c, 0, p[0], d)
  }

  // Nobody is at the chains that activating the segment locks.
  predicate Still(s: Segment) {
    s.siblings == [] ==> forall k | k in s.children :: s.children[k].guest == Nobody && Still(s.children[k].front)
  }

  // Nobody is at the chains that the finalization locks: the item's own, those it removes and their
  // parents, and those it activates.
  predicate Free(c: Chain, p: seq<Key>, x: nat)
    requires IsHead(c, p, x)
    decreases |p|
  {
    if p == [] then
      c.guest == Nobody
      && (|c.front.siblings| == 1 ==>
            if c.front.children != map[] then Still(c.front.(siblings := [])) else NextStill(c))
    else
      var d := Delete(c.front.children[p[0]], p[1..], x);
      && Free(c.front.children[p[0]], p[1..], x)
      && (Vacant(d) ==> c.guest == d.guest == Nobody && (c.front.children - {p[0]} == map[] ==> NextStill(c)))
  }

  predicate NextStill(c: Chain) { c.later != [] ==> Still(c.later[0]) }

  lemma {:induction false} StillBase(s: Segment)
    requires Still(s)
    ensures BaseSegment(ActivateSegment(s)) == T.ActivateSegment(BaseSegment(s))
    decreases s
  {
    if s.siblings == [] {
      forall k | k in s.children ensures Completed(Activate(s.children[k])) == T.Activate(Completed(s.children[k])) {
        StillBase(s.children[k].front);
        FrontBase(s.children[k], ActivateSegment(s.children[k].front));
      }
      assert BaseSegment(ActivateSegment(s)).children == T.ActivateSegment(BaseSegment(s)).children;
    }
  }

  lemma FrontBase(c: Chain, s: Segment)
    ensures Base(c.(front := s)) == T.Tree(BaseSegment(s), Base(c).later)
  {
    assert Base(c.(front := s)).later == Base(c).later;
  }

  lemma NextBase(c: Chain)
    requires NextStill(c)
    ensures Base(NextSegment(c)) == T.NextSegment(Base(c))
  {
    if c.later != [] {
      StillBase(c.later[0]);
      assert Base(NextSegment(c)).later == T.NextSegment(Base(c)).later;
    }
  }

  lemma KeysBase(s: Segment)
    ensures BaseSegment(s).children == map[] <==> s.children == map[]
  {
    assert BaseSegment(s).children.Keys == s.children.Keys;
    assert s.children == map[] <==> s.children.Keys == {};
    assert BaseSegment(s).children == map[] <==> BaseSegment(s).children.Keys == {};
  }

  lemma PopBase(c: Chain, x: nat)
    requires IsHead(c, [], x) && Free(c, [], x)
    ensures Base(c).front.siblings == c.front.siblings && Base(PopFront(c)) == T.PopFront(Base(c))
  {
    var s := c.front.(siblings := c.front.siblings[1..]);
    assert BaseSegment(s) == BaseSegment(c.front).(siblings := s.siblings);
    KeysBase(s);
    FrontBase(c, s);
    if s.siblings == [] {
      assert s == c.front.(siblings := []);
      if s.children != map[] {
        StillBase(s);
        FrontBase(c, ActivateSegment(s));
      } else {
        NextBase(c.(front := s));
      }
    }
  }

  lemma DropBase(c: Chain, k: Key)
    requires c.front.children - {k} == map[] ==> NextStill(c)
    ensures Base(DropChild(c, k)) == T.DropChild(Base(c), k)
  {
    var s := c.front.(children := c.front.children - {k});
    assert BaseSegment(s).children == BaseSegment(c.front).children - {k};
    KeysBase(s);
    FrontBase(c, s);
    if s.children == map[] { NextBase(c.(front := s)); }
  }

  lemma VacantBase(c: Chain)
    requires Vacant(c) ==> c.guest == Nobody
    ensures T.Vacant(Completed(c)) <==> Vacant(c)
  {
    KeysBase(c.front);
    if c.guest.Arrived? || c.guest.Aimed? { ReserveBusy(Base(c), c.guest.visit.path, c.guest.visit.item); }
  }

  lemma ReserveBusy(t: T.Tree, p: seq<Key>, x: nat)
    ensures !T.Vacant(T.Reserve(t, p, x)) && T.Reserve(t, p, x).front.active == t.front.active
  {
    if p != [] && t.later == [] { assert p[0] in T.Reserve(t, p, x).front.children; }
  }

  // A deletion below a child that stays commutes with a reservation, whatever the other children are.
  lemma CommuteSet(t: T.Tree, p: seq<Key>, x: nat, z: seq<Key>, y: nat)
    requires p != [] && T.IsHead(t, p, x) && T.Shaped(t.front.children[p[0]], true)
    requires !T.Vacant(T.Finalize(t.front.children[p[0]], p[1..], x))
    ensures T.IsHead(T.Reserve(t, z, y), p, x)
    ensures T.Finalize(T.Reserve(t, z, y), p, x) ==
      T.Reserve(T.SetChild(t, p[0], T.Finalize(t.front.children[p[0]], p[1..], x)), z, y)
  {
    var k := p[0];
    var c := t.front.children[k];
    var d := T.Finalize(c, p[1..], x);
    if t.later == [] && z != [] {
      CommuteSetLast(t, p, x, z, y);
    } else {
      assert k in t.front.children[k := d];
    }
  }

  lemma CommuteSetLast(t: T.Tree, p: seq<Key>, x: nat, z: seq<Key>, y: nat)
    requires p != [] && T.IsHead(t, p, x) && T.Shaped(t.front.children[p[0]], true)
    requires !T.Vacant(T.Finalize(t.front.children[p[0]], p[1..], x)) && t.later == [] && z != []
    ensures T.IsHead(T.Reserve(t, z, y), p, x)
    ensures T.Finalize(T.Reserve(t, z, y), p, x) ==
      T.Reserve(T.SetChild(t, p[0], T.Finalize(t.front.children[p[0]], p[1..], x)), z, y)
  {
    var k, j := p[0], z[0];
    var c := t.front.children[k];
    var d := T.Finalize(c, p[1..], x);
    T.ReserveBelow(t, z, y);
    T.ReserveBelow(T.SetChild(t, k, d), z, y);
    if j == k {
      T.Commute(c, p[1..], x, z[1..], y);
      ReserveBusy(d, z[1..], y);
      T.SetChildAgain(t, k, T.Reserve(c, z[1..], y), T.Reserve(d, z[1..], y));
      T.SetChildAgain(t, k, d, T.Reserve(d, z[1..], y));
    } else {
      var r := T.Reserve(T.ChildFor(t.front, j), z[1..], y);
      assert t.front.children[j := r][k := d] == t.front.children[k := d][j := r];
    }
  }

  // Each chain below, once completed, has the shape that its activity asks for.
  ghost predicate Formed(c: Chain)
    decreases c
  {
    forall i: nat, k | i <= |c.later| && k in SegAt(c, i).children ::
      KidShaped(SegAt(c, i).children[k]) && Formed(SegAt(c, i).children[k])
  }

  ghost predicate KidShaped(c: Chain) { T.Shaped(Completed(c), c.front.active) }

  lemma BaseActive(c: Chain)
    ensures Completed(c).front.active == c.front.active
  {
    assert Base(c).front.active == c.front.active;
    if c.guest.Arrived? || c.guest.Aimed? {
      ReserveBusy(Base(c), c.guest.visit.path, c.guest.visit.item);
      assert Completed(c) == T.Reserve(Base(c), c.guest.visit.path, c.guest.visit.item);
    }
  }

  lemma KidActive(c: Chain, k: Key)
    requires T.Shaped(Completed(c), true) && c.front.siblings == [] && k in c.front.children
    ensures c.front.children[k].front.active
  {
    var d := c.front.children[k];
    BaseActive(d);
    assert k in Base(c).front.children && Base(c).front.children[k] == Completed(d);
    if c.guest.Arrived? || c.guest.Aimed? {
      var z, y := c.guest.visit.path, c.guest.visit.item;
      ReserveKid(Base(c), z, y, k);
      assert Completed(c) == T.Reserve(Base(c), z, y);
      assert T.Shaped(Completed(c).front.children[k], true);
    }
  }

  lemma ReserveKid(t: T.Tree, z: seq<Key>, y: nat, k: Key)
    requires k in t.front.children && t.front.siblings == []
    ensures T.Reserve(t, z, y).front.siblings == [] && k in T.Reserve(t, z, y).front.children
    ensures T.Reserve(t, z, y).front.children[k].front.active == t.front.children[k].front.active
  {
    if t.later == [] && z != [] && z[0] == k { ReserveBusy(t.front.children[k], z[1..], y); }
  }

  // The deletion of a head while the chains it locks are free is the deletion in the completed tree.
  lemma {:induction false} DeleteCompleted(c: Chain, p: seq<Key>, x: nat)
    requires T.Shaped(Completed(c), true) && Formed(c) && IsHead(c, p, x) && Free(c, p, x)
    ensures T.IsHead(Completed(c), p, x) && Completed(Delete(c, p, x)) == T.Finalize(Completed(c), p, x)
    decreases |p|
  {
    if p == [] {
      PopBase(c, x);
      assert PopFront(c).guest == Nobody;
    } else {
      var k := p[0];
      var o := c.front.children[k];
      var d := Delete(o, p[1..], x);
      assert o == SegAt(c, 0).children[k];
      KidActive(c, k);
      DeleteCompleted(o, p[1..], x);
      VacantBase(d);
      assert T.IsHead(Base(c), p, x);
      if Vacant(d) {
        DropBase(c, k);
        assert DropChild(c, k).guest == Nobody;
      } else {
        KidBase(c, 0, k, d);
        assert Base(SetKid(c, 0, k, d)) == T.SetChild(Base(c), k, Completed(d));
        if c.guest.Arrived? || c.guest.Aimed? {
          CommuteSet(Base(c), p, x, c.guest.visit.path, c.guest.visit.item);
        }
      }
    }
  }

  lemma FormedSame(c: Chain, c': Chain)
    requires Formed(c)
    requires forall i: nat, k | i <= |c'.later| && k in SegAt(c', i).children ::
      i <= |c.later| && k in SegAt(c, i).children && SegAt(c', i).children[k] == SegAt(c, i).children[k]
    ensures Formed(c')
  {}

  lemma FormedSet(c: Chain, i: nat, k: Key, d: Chain)
    requires Formed(c) && i <= |c.later| && KidShaped(d) && Formed(d)
    ensures Formed(SetKid(c, i, k, d))
  {
    var c' := SetKid(c, i, k, d);
    forall j: nat, l | j <= |c'.later| && l in SegAt(c', j).children
      ensures KidShaped(SegAt(c', j).children[l]) && Formed(SegAt(c', j).children[l])
    {
      if (j, l) != (i, k) { assert SegAt(c', j).children[l] == SegAt(c, j).children[l]; }
    }
  }

  lemma DescendFormed(c: Chain)
    requires Formed(c) && c.guest.Aimed? && c.guest.visit.path != [] && c.guest.visit.path[0] in Last(c).children
    requires Last(c).children[c.guest.visit.path[0]].guest == Nobody
    ensures Formed(Descend(c))
  {
    var v, k := c.guest.visit, c.guest.visit.path[0];
    var d := SegAt(c, |c.later|).children[k];
    var d' := d.(guest := Arrived(v.(path := v.path[1..])));
    GuestBase(d, d'.guest);
    T.ReserveShaped(Completed(d), d.front.active, v.path[1..], v.item);
    assert KidShaped(d) && KidShaped(d');
    FormedSame(d, d');
    FormedSame(c, c.(guest := Leaving));
    FormedSet(c.(guest := Leaving), |c.later|, k, d');
  }

  lemma LocalFormed(c: Chain, e: Event, c': Chain)
    requires Formed(c) && Local(c, e, c')
    ensures Formed(c') && c'.front.active == c.front.active
  {
    if c.guest.Aimed? {
      DescendFormed(c);
    } else if c.guest.Arrived? && c.guest.visit.path != [] {
      var b := c.(guest := Aimed(c.guest.visit));
      FormedSame(c, b);
      if c.guest.visit.path[0] !in Last(c).children {
        var d := Fresh(Last(c).active && Last(c).siblings == []);
        FreshBase(d.front.active);
        assert Formed(d);
        FormedSet(b, |b.later|, c.guest.visit.path[0], d);
      }
    } else {
      FormedSame(c, c');
    }
  }

  lemma {:induction false} StepFormed(c: Chain, e: Event, c': Chain)
    requires Formed(c) && Step(c, e, c')
    ensures Formed(c') && c'.front.active == c.front.active
    decreases c
  {
    if Local(c, e, c') {
      LocalFormed(c, e, c');
    } else {
      var i: nat, k :| i <= |c.later| && k in SegAt(c, i).children && Inside(c, i, k, e, c');
      var o := SegAt(c, i).children[k];
      var d :| Step(o, e, d) && c' == SetKid(c, i, k, d);
      StepFormed(o, e, d);
      KidStepFormed(c, i, k, e, d);
    }
  }

  lemma KidStepFormed(c: Chain, i: nat, k: Key, e: Event, d: Chain)
    requires Formed(c) && i <= |c.later| && k in SegAt(c, i).children && Step(SegAt(c, i).children[k], e, d)
    requires Formed(d) && d.front.active == SegAt(c, i).children[k].front.active
    ensures Formed(SetKid(c, i, k, d)) && SetKid(c, i, k, d).front.active == c.front.active
  {
    StepCompleted(SegAt(c, i).children[k], e, d);
    assert KidShaped(SegAt(c, i).children[k]);
    FormedSet(c, i, k, d);
  }

  // The chains under a segment, with the shape that a asks for.
  ghost predicate KidsFormed(s: Segment, a: bool) {
    forall k | k in s.children ::
      s.children[k].front.active == a && KidShaped(s.children[k]) && Formed(s.children[k])
  }

  lemma FormedFront(c: Chain, s: Segment)
    requires Formed(c)
    requires forall k | k in s.children :: KidShaped(s.children[k]) && Formed(s.children[k])
    ensures Formed(c.(front := s))
  {
    var c' := c.(front := s);
    forall i: nat, k | i <= |c'.later| && k in SegAt(c', i).children
      ensures KidShaped(SegAt(c', i).children[k]) && Formed(SegAt(c', i).children[k])
    {
      if i > 0 { assert SegAt(c', i).children[k] == SegAt(c, i).children[k]; }
    }
  }

  lemma {:induction false} ActivateFormed(s: Segment)
    requires Still(s) && KidsFormed(s, false)
    ensures KidsFormed(ActivateSegment(s), s.siblings == [])
    decreases s, 0
  {
    if s.siblings == [] {
      forall k | k in s.children
        ensures Activate(s.children[k]).front.active && KidShaped(Activate(s.children[k]))
        ensures Formed(Activate(s.children[k]))
      {
        KidActivated(s.children[k]);
      }
    }
  }

  lemma {:induction false} KidActivated(c: Chain)
    requires c.guest == Nobody && Still(c.front) && !c.front.active && KidShaped(c) && Formed(c)
    ensures Activate(c).front.active && KidShaped(Activate(c)) && Formed(Activate(c))
    decreases c.front, 1
  {
    StillBase(c.front);
    FrontBase(c, ActivateSegment(c.front));
    T.ActivateShaped(Completed(c));
    FrontKids(c, false);
    ActivateFormed(c.front);
    FormedFront(c, ActivateSegment(c.front));
  }

  // In a chain that nobody is at, the chains below are as active as the shape asks for.
  lemma FrontKids(c: Chain, a: bool)
    requires c.guest == Nobody && T.Shaped(Completed(c), a) && Formed(c)
    ensures KidsFormed(c.front, a && c.front.siblings == [])
    ensures forall i | 0 <= i < |c.later| :: KidsFormed(c.later[i], false)
  {
    assert Completed(c) == Base(c);
    forall k | k in c.front.children
      ensures var d := c.front.children[k];
        d.front.active == (a && c.front.siblings == []) && KidShaped(d) && Formed(d)
    {
      var d := SegAt(c, 0).children[k];
      BaseActive(d);
      assert k in Base(c).front.children && Base(c).front.children[k] == Completed(d);
      assert T.Shaped(Base(c), a) && T.Kids(Base(c).front, a && c.front.siblings == []);
      assert T.Shaped(Completed(d), a && c.front.siblings == []);
    }
    forall i | 0 <= i < |c.later| ensures KidsFormed(c.later[i], false) { LaterKids(c, a, i); }
  }

  lemma LaterKids(c: Chain, a: bool, i: nat)
    requires c.guest == Nobody && T.Shaped(Completed(c), a) && Formed(c) && i < |c.later|
    ensures KidsFormed(c.later[i], false)
  {
    assert Completed(c) == Base(c);
    var s := Base(c).later[i];
    assert T.Shaped(Base(c), a) && |Base(c).later| == |c.later|;
    assert T.ShapedLater(s, i == |Base(c).later| - 1);
    assert s == BaseSegment(c.later[i]);
    forall k | k in c.later[i].children
      ensures var d := c.later[i].children[k]; !d.front.active && KidShaped(d) && Formed(d)
    {
      var d := SegAt(c, i + 1).children[k];
      BaseActive(d);
      assert k in s.children && s.children[k] == Completed(d);
      assert T.Kids(s, false) && T.Shaped(Completed(d), false);
    }
  }

  lemma NextFormed(c: Chain)
    requires Formed(c) && NextStill(c) && (c.later != [] ==> KidsFormed(c.later[0], false))
    ensures Formed(NextSegment(c))
  {
    if c.later != [] {
      ActivateFormed(c.later[0]);
      var c' := NextSegment(c);
      forall i: nat, k | i <= |c'.later| && k in SegAt(c', i).children
        ensures KidShaped(SegAt(c', i).children[k]) && Formed(SegAt(c', i).children[k])
      {
        if i > 0 { assert SegAt(c', i).children[k] == SegAt(c, i + 1).children[k]; }
      }
    }
  }

  lemma PopFormed(c: Chain, x: nat)
    requires T.Shaped(Completed(c), true) && Formed(c) && IsHead(c, [], x) && Free(c, [], x)
    ensures Formed(PopFront(c))
  {
    FrontKids(c, true);
    var s := c.front.(siblings := c.front.siblings[1..]);
    FormedFront(c, s);
    if s.siblings == [] {
      assert s == c.front.(siblings := []);
      if s.children != map[] {
        ActivateFormed(s);
        FormedFront(c, ActivateSegment(s));
      } else {
        NextFormed(c.(front := s));
      }
    }
  }

  lemma DropFormed(c: Chain, k: Key)
    requires T.Shaped(Completed(c), true) && Formed(c) && c.guest == Nobody
    requires c.front.children - {k} == map[] ==> NextStill(c)
    ensures Formed(DropChild(c, k))
  {
    FrontKids(c, true);
    var s := c.front.(children := c.front.children - {k});
    FormedFront(c, s);
    if s.children == map[] { NextFormed(c.(front := s)); }
  }

  lemma {:induction false} DeleteFormed(c: Chain, p: seq<Key>, x: nat)
    requires T.Shaped(Completed(c), true) && Formed(c) && IsHead(c, p, x) && Free(c, p, x)
    ensures T.Shaped(Completed(Delete(c, p, x)), true) && Formed(Delete(c, p, x))
    decreases |p|
  {
    DeleteCompleted(c, p, x);
    T.FinalizeShaped(Completed(c), p, x);
    if p == [] {
      PopFormed(c, x);
    } else {
      var o := c.front.children[p[0]];
      assert o == SegAt(c, 0).children[p[0]];
      KidActive(c, p[0]);
      DeleteFormed(o, p[1..], x);
      var d := Delete(o, p[1..], x);
      BaseActive(d);
      if Vacant(d) { DropFormed(c, p[0]); } else { FormedSet(c, 0, p[0], d); }
    }
  }

  // What took effect so far: reservations where they locked the root, finalizations where they deleted.
  datatype Op = Reserved(path: seq<Key>, item: nat) | Finalized(path: seq<Key>, item: nat)

  // The tree of whole operations, one after the other.
  ghost function After(t: T.Tree, ops: seq<Op>): T.Tree {
    if ops == [] then t
    else
      var u, op := After(t, ops[..|ops| - 1]), ops[|ops| - 1];
      match op
      case Reserved(p, x) => T.Reserve(u, p, x)
      case Finalized(p, x) => if T.IsHead(u, p, x) then T.Finalize(u, p, x) else u
  }

  datatype Queue = Queue(root: Chain, ops: seq<Op>)

  datatype Act = Enter(path: seq<Key>, item: nat, filled: bool) | Walk(e: Event) | Remove(path: seq<Key>, item: nat)

  ghost predicate ActStep(q: Queue, a: Act, q': Queue) {
    match a
    case Enter(p, x, filled) =>
      && q.root.guest == Nobody
      && var v := Visit(p, x, filled, T.Lands(Base(q.root), p));
         q' == Queue(q.root.(guest := Arrived(v)), q.ops + [Reserved(p, x)])
    case Walk(e) => Step(q.root, e, q'.root) && q'.ops == q.ops
    case Remove(p, x) =>
      && IsHead(q.root, p, x) && Free(q.root, p, x)
      && q' == Queue(Delete(q.root, p, x), q.ops + [Finalized(p, x)])
  }

  // It starts with a tree in shape and nobody on the way.
  ghost predicate ActRun(qs: seq<Queue>, acts: seq<Act>) {
    && |qs| == |acts| + 1
    && Quiet(qs[0].root) && T.Shaped(Plain(qs[0].root), true) && qs[0].ops == []
    && forall i | 0 <= i < |acts| :: ActStep(qs[i], acts[i], qs[i + 1])
  }

  ghost predicate QueueInv(t: T.Tree, q: Queue) {
    T.Shaped(Completed(q.root), true) && Formed(q.root) && Completed(q.root) == After(t, q.ops)
  }

  lemma {:induction false} QuietFormed(c: Chain, a: bool)
    requires Quiet(c) && T.Shaped(Completed(c), a)
    ensures Formed(c)
    decreases c
  {
    assert Completed(c) == Base(c);
    forall i: nat, k | i <= |c.later| && k in SegAt(c, i).children
      ensures KidShaped(SegAt(c, i).children[k]) && Formed(SegAt(c, i).children[k])
    {
      var d := SegAt(c, i).children[k];
      BaseActive(d);
      assert i > 0 ==> T.ShapedLater(Base(c).later[i - 1], i == |c.later|);
      var s := if i == 0 then Base(c).front else Base(c).later[i - 1];
      assert s == BaseSegment(SegAt(c, i)) && k in s.children && s.children[k] == Completed(d);
      assert T.Kids(s, i == 0 && a && c.front.siblings == []);
      QuietFormed(d, i == 0 && a && c.front.siblings == []);
    }
  }

  lemma AfterOne(t: T.Tree, ops: seq<Op>, op: Op)
    ensures (ops + [op])[..|ops|] == ops && (ops + [op])[|ops|] == op
  {}

  lemma ActInv(t: T.Tree, q: Queue, a: Act, q': Queue)
    requires QueueInv(t, q) && ActStep(q, a, q')
    ensures QueueInv(t, q')
  {
    match a
    case Enter(p, x, _) =>
      GuestBase(q.root, q'.root.guest);
      T.ReserveShaped(Completed(q.root), true, p, x);
      FormedSame(q.root, q'.root);
      AfterOne(t, q.ops, Reserved(p, x));
    case Walk(e) =>
      StepCompleted(q.root, e, q'.root);
      StepFormed(q.root, e, q'.root);
    case Remove(p, x) =>
      DeleteCompleted(q.root, p, x);
      DeleteFormed(q.root, p, x);
      AfterOne(t, q.ops, Finalized(p, x));
  }

  lemma {:induction false} ActRunInv(qs: seq<Queue>, acts: seq<Act>, i: nat)
    requires ActRun(qs, acts) && i < |qs|
    ensures QueueInv(Plain(qs[0].root), qs[i])
  {
    if i == 0 {
      QuietPlain(qs[0].root);
      QuietFormed(qs[0].root, true);
    } else {
      ActRunInv(qs, acts, i - 1);
      ActInv(Plain(qs[0].root), qs[i - 1], acts[i - 1], qs[i]);
    }
  }

  // The operations begun and the deletions made, in order.
  ghost function Ops(acts: seq<Act>): seq<Op> {
    if acts == [] then []
    else
      Ops(acts[..|acts| - 1]) +
        match acts[|acts| - 1]
        case Enter(p, x, _) => [Reserved(p, x)]
        case Remove(p, x) => [Finalized(p, x)]
        case Walk(_) => []
  }

  lemma {:induction false} OpsAreActs(qs: seq<Queue>, acts: seq<Act>, i: nat)
    requires ActRun(qs, acts) && i < |qs|
    ensures qs[i].ops == Ops(acts[..i])
  {
    if i > 0 {
      OpsAreActs(qs, acts, i - 1);
      assert ActStep(qs[i - 1], acts[i - 1], qs[i]);
      assert acts[..i][..i - 1] == acts[..i - 1];
    }
  }

  // However reservations and finalizations interleave, with nobody on the way the chains are the tree
  // of whole operations, one after the other.
  lemma Linearizable(qs: seq<Queue>, acts: seq<Act>, i: nat)
    requires ActRun(qs, acts) && i < |qs| && Quiet(qs[i].root)
    ensures Plain(qs[i].root) == After(Plain(qs[0].root), qs[i].ops)
  {
    ActRunInv(qs, acts, i);
    QuietPlain(qs[i].root);
  }

  // A finalization deletes what is a head at its place in that order, too, so no deletion is lost in it.
  lemma RemovesHead(qs: seq<Queue>, acts: seq<Act>, i: nat, p: seq<Key>, x: nat)
    requires ActRun(qs, acts) && i < |acts| && acts[i] == Remove(p, x)
    ensures T.IsHead(After(Plain(qs[0].root), qs[i].ops), p, x)
  {
    ActRunInv(qs, acts, i);
    assert ActStep(qs[i], acts[i], qs[i + 1]);
    DeleteCompleted(qs[i].root, p, x);
  }
}
