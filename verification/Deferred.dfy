// The cascade as it runs between other operations: an emptied chain stays in its parent until
// its removal gets the locks again.
module Deferred {
  import opened Tags
  import opened Trees
  import opened Flat

  // The tree without the chains that wait for their removal.
  function Clean(t: Tree): (r: Tree)
    decreases t, 1
  {
    var s := CleanSegment(t.front);
    if s.siblings == [] && s.children == map[] then NextSegment(Tree(s, t.later)) else Tree(s, t.later)
  }

  function CleanSegment(s: Segment): (r: Segment)
    ensures r.siblings == s.siblings && r.active == s.active
    decreases s, 0
  {
    s.(children := map k | k in s.children && !Vacant(Clean(s.children[k])) :: Clean(s.children[k]))
  }

  // The shape of an active tree in which empty chains may wait below the front segment.
  ghost predicate Loose(t: Tree)
    decreases t
  {
    && t.front.active
    && (t.later != [] ==> t.front.children != map[])
    && (forall i | 0 <= i < |t.later| :: ShapedLater(t.later[i], i == |t.later| - 1))
    && (if t.front.siblings != [] then Kids(t.front, false)
        else forall k | k in t.front.children :: Loose(t.front.children[k]))
  }

  // The finalization of a head up to the point where it gives its locks up.
  function Pop(t: Tree, p: seq<Key>, x: nat): Tree
    requires IsHead(t, p, x)
    decreases |p|
  {
    if p == [] then PopFront(t) else SetChild(t, p[0], Pop(t.front.children[p[0]], p[1..], x))
  }

  // The chain at p, reached through front segments, is empty.
  predicate Waits(t: Tree, p: seq<Key>)
    decreases |p|
  {
    if p == [] then Vacant(t)
    else t.front.siblings == [] && p[0] in t.front.children && Waits(t.front.children[p[0]], p[1..])
  }

  // The removal of the empty chain at p from its parent.
  function Remove(t: Tree, p: seq<Key>): Tree
    requires p != [] && Waits(t, p)
    decreases |p|
  {
    if |p| == 1 then DropChild(t, p[0]) else SetChild(t, p[0], Remove(t.front.children[p[0]], p[1..]))
  }

  lemma {:induction false} CleanShaped(t: Tree, a: bool)
    requires Shaped(t, a)
    ensures Clean(t) == t
    decreases t
  {
    forall k | k in t.front.children
      ensures Clean(t.front.children[k]) == t.front.children[k] && !Vacant(t.front.children[k]) {
      CleanShaped(t.front.children[k], a && t.front.siblings == []);
    }
    assert CleanSegment(t.front).children == t.front.children;
  }

  lemma CleanKids(s: Segment, a: bool)
    requires Kids(s, a)
    ensures CleanSegment(s) == s
  {
    forall k | k in s.children ensures Clean(s.children[k]) == s.children[k] && !Vacant(s.children[k]) {
      CleanShaped(s.children[k], a);
    }
    assert CleanSegment(s).children == s.children;
  }

  lemma {:induction false} ShapedLoose(t: Tree)
    requires Shaped(t, true)
    ensures Loose(t)
    decreases t
  {
    if t.front.siblings == [] {
      forall k | k in t.front.children ensures Loose(t.front.children[k]) { ShapedLoose(t.front.children[k]); }
    }
  }

  lemma {:induction false} LooseClean(t: Tree)
    requires Loose(t)
    ensures Shaped(Clean(t), true)
    decreases t
  {
    var s := CleanSegment(t.front);
    if t.front.siblings != [] {
      CleanKids(t.front, false);
    } else {
      forall k | k in s.children ensures Shaped(s.children[k], true) && !Vacant(s.children[k]) {
        LooseClean(t.front.children[k]);
      }
      if s.children == map[] { NextSegmentShaped(Tree(s, t.later)); }
    }
  }

  lemma {:induction false} HeadClean(t: Tree, p: seq<Key>, x: nat)
    requires Loose(t) && IsHead(t, p, x)
    ensures IsHead(Clean(t), p, x)
    decreases |p|
  {
    if p != [] {
      HeadClean(t.front.children[p[0]], p[1..], x);
      assert p[0] in CleanSegment(t.front).children;
    }
  }

  lemma {:induction false} ReserveClean(t: Tree, z: seq<Key>, x: nat)
    requires Loose(t)
    ensures Loose(Reserve(t, z, x))
    ensures Clean(Reserve(t, z, x)) == Reserve(Clean(t), z, x)
    decreases |z|
  {
    if t.later != [] {
      ReserveCleanLater(t, z, x);
    } else if t.front.siblings != [] {
      CleanShaped(t, true);
      ReserveShaped(t, true, z, x);
      CleanShaped(Reserve(t, z, x), true);
      ShapedLoose(Reserve(t, z, x));
    } else if z == [] {
      AppendClean(t, x);
    } else {
      var k := z[0];
      var c := ChildFor(t.front, k);
      ReserveClean(c, z[1..], x);
      ReserveCleanChild(t, z, x);
    }
  }

  lemma AppendClean(t: Tree, x: nat)
    requires Loose(t) && t.later == [] && t.front.siblings == []
    ensures Loose(AddSibling(t, x)) && Clean(AddSibling(t, x)) == AddSibling(Clean(t), x)
  {
    LooseClean(t);
    if t.front.children == map[] {
      CleanShaped(t, true);
      AddSiblingShaped(t, true, x);
      CleanShaped(AddSibling(t, x), true);
    }
  }

  lemma ReserveCleanChild(t: Tree, z: seq<Key>, x: nat)
    requires Loose(t) && t.later == [] && t.front.siblings == [] && z != []
    requires Loose(Reserve(ChildFor(t.front, z[0]), z[1..], x))
    requires Clean(Reserve(ChildFor(t.front, z[0]), z[1..], x)) == Reserve(Clean(ChildFor(t.front, z[0])), z[1..], x)
    ensures Loose(Reserve(t, z, x)) && Clean(Reserve(t, z, x)) == Reserve(Clean(t), z, x)
  {
    var k := z[0];
    var c := ChildFor(t.front, k);
    var r := Reserve(c, z[1..], x);
    ReserveBelow(t, z, x);
    LooseClean(c);
    ReserveShaped(Clean(c), true, z[1..], x);
    CleanSetChild(t, k, r);
    CleanChildFor(t, k);
    ReserveBelow(Clean(t), z, x);
  }

  lemma CleanChildFor(t: Tree, k: Key)
    requires Loose(t) && t.later == [] && t.front.siblings == []
    ensures Clean(t) == Tree(CleanSegment(t.front), [])
    ensures ChildFor(CleanSegment(t.front), k) == Clean(ChildFor(t.front, k))
  {
    var c := Clean(ChildFor(t.front, k));
    LooseClean(ChildFor(t.front, k));
    if Vacant(c) { VacantIsFresh(c, true); }
  }

  // Setting a child that is not empty sets it in the clean tree.
  lemma CleanSetChild(t: Tree, k: Key, c: Tree)
    requires !Vacant(Clean(c))
    ensures CleanSegment(t.front.(children := t.front.children[k := c])).children ==
      CleanSegment(t.front).children[k := Clean(c)]
    ensures Clean(SetChild(t, k, c)) ==
      Tree(CleanSegment(t.front).(children := CleanSegment(t.front).children[k := Clean(c)]), t.later)
  {
    assert k in CleanSegment(t.front.(children := t.front.children[k := c])).children;
  }

  lemma ReserveCleanLater(t: Tree, z: seq<Key>, x: nat)
    requires Loose(t) && t.later != []
    ensures Loose(Reserve(t, z, x)) && Clean(Reserve(t, z, x)) == Reserve(Clean(t), z, x)
  {
    var s := CleanSegment(t.front);
    var r := Reserve(t, z, x);
    assert r.front == t.front && r.later == Reserve(Tree(s, t.later), z, x).later;
    LaterShaped(t, z, x);
    if s.siblings == [] && s.children == map[] { NextSegmentReserve(Tree(s, t.later), z, x); }
  }

  lemma LaterShaped(t: Tree, z: seq<Key>, x: nat)
    requires Loose(t) && t.later != []
    ensures forall i | 0 <= i < |Reserve(t, z, x).later| ::
        ShapedLater(Reserve(t, z, x).later[i], i == |Reserve(t, z, x).later| - 1)
  {
    // the later segments, behind a front in which nothing waits
    var k :| k in t.front.children;
    AddSiblingShaped(Fresh(false), false, x);
    var u := Tree(Segment([x], map[k := AddSibling(Fresh(false), x)], true), t.later);
    assert k in u.front.children;
    ReserveShaped(u, true, z, x);
    assert Reserve(u, z, x).later == Reserve(t, z, x).later;
  }

  // Replacing a child replaces it in the clean tree, where an empty one is dropped.
  lemma CleanSet(t: Tree, k: Key, c: Tree)
    requires k in t.front.children && t.front.siblings == [] && !Vacant(Clean(t.front.children[k]))
    ensures k in Clean(t).front.children && Clean(t).front.siblings == [] &&
      Clean(t).front.children[k] == Clean(t.front.children[k])
    ensures Clean(SetChild(t, k, c)) ==
      if Vacant(Clean(c)) then DropChild(Clean(t), k) else SetChild(Clean(t), k, Clean(c))
  {
    var s := CleanSegment(t.front);
    assert k in s.children;
    var s' := CleanSegment(t.front.(children := t.front.children[k := c]));
    if Vacant(Clean(c)) {
      assert s'.children == s.children - {k};
    } else {
      CleanSetChild(t, k, c);
    }
  }

  lemma {:induction false} PopClean(t: Tree, p: seq<Key>, x: nat)
    requires Loose(t) && IsHead(t, p, x)
    ensures Loose(Pop(t, p, x))
    ensures IsHead(Clean(t), p, x) && Clean(Pop(t, p, x)) == Finalize(Clean(t), p, x)
    decreases |p|
  {
    HeadClean(t, p, x);
    if p == [] {
      CleanShaped(t, true);
      FinalizeShaped(t, [], x);
      CleanShaped(PopFront(t), true);
      ShapedLoose(PopFront(t));
    } else {
      var c := t.front.children[p[0]];
      PopClean(c, p[1..], x);
      HeadClean(c, p[1..], x);
      CleanSet(t, p[0], Pop(c, p[1..], x));
      assert p[0] in Pop(t, p, x).front.children;
    }
  }

  lemma {:induction false} RemoveClean(t: Tree, p: seq<Key>)
    requires Loose(t) && p != [] && Waits(t, p)
    ensures Loose(Remove(t, p)) && Clean(Remove(t, p)) == Clean(t)
    decreases |p|
  {
    var k := p[0];
    if |p| == 1 {
      DropClean(t, k);
    } else {
      var c := t.front.children[k];
      RemoveClean(c, p[1..]);
      CleanSame(t, k, Remove(c, p[1..]));
      assert k in Remove(t, p).front.children;
    }
  }

  lemma CleanSame(t: Tree, k: Key, c: Tree)
    requires k in t.front.children && Clean(c) == Clean(t.front.children[k])
    ensures Clean(SetChild(t, k, c)) == Clean(t)
  {
    var s := t.front.(children := t.front.children[k := c]);
    assert s.children.Keys == t.front.children.Keys;
    assert CleanSegment(s).children == CleanSegment(t.front).children;
  }

  lemma DropSpent(s: Segment, k: Key)
    requires k in s.children && Vacant(Clean(s.children[k]))
    ensures CleanSegment(s.(children := s.children - {k})).children == CleanSegment(s).children
  {}

  lemma DropClean(t: Tree, k: Key)
    requires Loose(t) && t.front.siblings == [] && k in t.front.children && Vacant(t.front.children[k])
    ensures Loose(DropChild(t, k)) && Clean(DropChild(t, k)) == Clean(t)
  {
    CleanShaped(t.front.children[k], true);
    var s := t.front.(children := t.front.children - {k});
    DropSpent(t.front, k);
    if s.children == map[] { DropLast(Tree(s, t.later)); }
  }

  lemma DropLast(t: Tree)
    requires t.front.active && t.front.siblings == [] && t.front.children == map[]
    requires forall i | 0 <= i < |t.later| :: ShapedLater(t.later[i], i == |t.later| - 1)
    ensures Loose(NextSegment(t)) && Clean(NextSegment(t)) == Clean(t)
  {
    NextSegmentShaped(t);
    CleanShaped(NextSegment(t), true);
    ShapedLoose(NextSegment(t));
    assert CleanSegment(t.front).children == map[];
  }

  lemma ShapedTidy(t: Tree, q: seq<Key>)
    requires Shaped(t, true) && Waits(t, q)
    ensures q == []
    decreases |q|
  {
    if q != [] {
      ShapedTidy(t.front.children[q[0]], q[1..]);
    }
  }

  lemma {:induction false} TidyShaped(t: Tree)
    requires Loose(t) && forall q | q != [] :: !Waits(t, q)
    ensures Shaped(t, true)
    decreases t
  {
    if t.front.siblings == [] {
      forall k | k in t.front.children ensures Shaped(t.front.children[k], true) && !Vacant(t.front.children[k]) {
        var c := t.front.children[k];
        forall r ensures !Waits(c, r) {
          assert ([k] + r)[1..] == r;
          assert !Waits(t, [k] + r);
        }
        TidyShaped(c);
        assert !Waits(c, []);
      }
    }
  }

  lemma {:induction false} ReserveWaits(t: Tree, z: seq<Key>, x: nat, q: seq<Key>)
    requires Loose(t) && Waits(Reserve(t, z, x), q)
    ensures q != [] && Waits(t, q)
    decreases |z|
  {
    ReserveClean(t, z, x);
    assert z != [] && t.later == [] ==> z[0] in Reserve(t, z, x).front.children;
    if z != [] && t.later == [] && q != [] && q[0] == z[0] {
      ReserveWaits(ChildFor(t.front, z[0]), z[1..], x, q[1..]);
    }
  }

  lemma {:induction false} PopWaits(t: Tree, p: seq<Key>, x: nat, q: seq<Key>)
    requires Loose(t) && IsHead(t, p, x) && Waits(Pop(t, p, x), q)
    ensures q == p || Waits(t, q)
    decreases |p|
  {
    if p == [] {
      FinalizeShaped(t, [], x);
      ShapedTidy(PopFront(t), q);
    } else {
      assert p[0] in Pop(t, p, x).front.children;
      if q != [] && q[0] == p[0] { PopWaits(t.front.children[p[0]], p[1..], x, q[1..]); }
    }
  }

  lemma {:induction false} RemoveWaits(t: Tree, p: seq<Key>, q: seq<Key>)
    requires Loose(t) && p != [] && Waits(t, p) && Waits(Remove(t, p), q)
    ensures q != p && (q == p[..|p| - 1] || Waits(t, q))
    decreases |p|
  {
    var k := p[0];
    if |p| == 1 {
      var s := t.front.(children := t.front.children - {k});
      if s.children == map[] {
        NextSegmentShaped(Tree(s, t.later));
        ShapedTidy(DropChild(t, k), q);
      }
    } else {
      assert k in Remove(t, p).front.children;
      assert p[1..][..|p| - 2] == p[..|p| - 1][1..];
      if q != [] && q[0] == k { RemoveWaits(t.front.children[k], p[1..], q[1..]); }
    }
  }
}
