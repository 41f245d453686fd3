// The tree of chains as a value, with one recursive function per operation. Items are numbers.
module Trees {
  import opened Tags

  // A chain is a non-empty list of segments. A segment holds the items at exactly this path, and
  // below them the chains of longer paths, by their next key.
  datatype Segment = Segment(siblings: seq<nat>, children: map<Key, Tree>, active: bool)
  datatype Tree = Tree(front: Segment, later: seq<Segment>)

  function Fresh(active: bool): Tree { Tree(Segment([], map[], active), []) }

  predicate Vacant(t: Tree) { t.later == [] && t.front.siblings == [] && t.front.children == map[] }

  function Last(t: Tree): Segment {
    if t.later == [] then t.front else t.later[|t.later| - 1]
  }

  function SetLast(t: Tree, s: Segment): Tree {
    if t.later == [] then Tree(s, []) else Tree(t.front, t.later[|t.later| - 1 := s])
  }

  function AddSibling(t: Tree, x: nat): Tree {
    if Last(t).children != map[] then Tree(t.front, t.later + [Segment([x], map[], false)])
    else SetLast(t, Last(t).(siblings := Last(t).siblings + [x]))
  }

  function ChildFor(s: Segment, k: Key): Tree {
    if k in s.children then s.children[k] else Fresh(s.active && s.siblings == [])
  }

  // A reservation at path p below the root of t.
  function Reserve(t: Tree, p: seq<Key>, x: nat): Tree
    decreases |p|
  {
    if p == [] then AddSibling(t, x)
    else
      var s := Last(t);
      SetLast(t, s.(children := s.children[p[0] := Reserve(ChildFor(s, p[0]), p[1..], x)]))
  }

  // An item reserved at p would be the first that nothing precedes.
  predicate Lands(t: Tree, p: seq<Key>)
    decreases |p|
  {
    if p == [] then Last(t).children == map[] && Last(t).active && Last(t).siblings == []
    else Lands(ChildFor(Last(t), p[0]), p[1..])
  }

  function Activate(t: Tree): (r: Tree)
    ensures r.later == t.later && r.front.active && r.front.siblings == t.front.siblings
    ensures r.front.children.Keys == t.front.children.Keys
  {
    Tree(ActivateSegment(t.front), t.later)
  }

  function ActivateSegment(s: Segment): (r: Segment)
    ensures r.active && r.siblings == s.siblings && r.children.Keys == s.children.Keys
  {
    if s.siblings != [] then s.(active := true)
    else s.(children := map k | k in s.children :: Activate(s.children[k]), active := true)
  }

  function NextSegment(t: Tree): Tree {
    if t.later == [] then t else Tree(ActivateSegment(t.later[0]), t.later[1..])
  }

  function DropChild(t: Tree, k: Key): Tree {
    var kids := t.front.children - {k};
    var t' := Tree(t.front.(children := kids), t.later);
    if kids == map[] then NextSegment(t') else t'
  }

  function SetChild(t: Tree, k: Key, c: Tree): Tree {
    Tree(t.front.(children := t.front.children[k := c]), t.later)
  }

  function PopFront(t: Tree): Tree
    requires t.front.siblings != []
  {
    var s := t.front.(siblings := t.front.siblings[1..]);
    if s.siblings != [] then Tree(s, t.later)
    else if s.children != map[] then Tree(ActivateSegment(s), t.later)
    else NextSegment(Tree(s, t.later))
  }

  // x is at p, and nothing precedes it.
  predicate IsHead(t: Tree, p: seq<Key>, x: nat)
    decreases |p|
  {
    if p == [] then t.front.siblings != [] && t.front.siblings[0] == x
    else t.front.siblings == [] && p[0] in t.front.children && IsHead(t.front.children[p[0]], p[1..], x)
  }

  // The deletion of the head at p, with the chains it leaves empty, seen from the root down.
  function Finalize(t: Tree, p: seq<Key>, x: nat): Tree
    requires IsHead(t, p, x)
    decreases |p|
  {
    if p == [] then PopFront(t)
    else
      var c := Finalize(t.front.children[p[0]], p[1..], x);
      if Vacant(c) then DropChild(t, p[0]) else SetChild(t, p[0], c)
  }

  // The shape every operation keeps; a says whether the tree is active.
  ghost predicate Shaped(t: Tree, a: bool)
    decreases t, 0
  {
    && t.front.active == a
    && (t.later != [] ==> t.front.children != map[])
    && Kids(t.front, a && t.front.siblings == [])
    && (forall i | 0 <= i < |t.later| :: ShapedLater(t.later[i], i == |t.later| - 1))
  }

  ghost predicate ShapedLater(s: Segment, last: bool)
    decreases s, 1
  {
    && !s.active && s.siblings != [] && (!last ==> s.children != map[])
    && Kids(s, false)
  }

  ghost predicate Kids(s: Segment, a: bool)
    decreases s, 0
  {
    forall k | k in s.children :: Shaped(s.children[k], a) && !Vacant(s.children[k])
  }

  lemma VacantIsFresh(t: Tree, a: bool)
    requires Shaped(t, a) && Vacant(t)
    ensures t == Fresh(a)
  {}

  lemma ShapedLast(t: Tree, a: bool)
    requires Shaped(t, a)
    ensures Kids(Last(t), Last(t).active && Last(t).siblings == [])
    ensures t.later == [] ==> Last(t).active == a
    ensures t.later != [] ==> !Last(t).active && Last(t).siblings != []
  {
    if t.later != [] { assert ShapedLater(t.later[|t.later| - 1], true); }
  }

  lemma ShapedSetLast(t: Tree, a: bool, s: Segment)
    requires Shaped(t, a)
    requires s.active == Last(t).active && Kids(s, s.active && s.siblings == [])
    requires t.later != [] ==> s.siblings != []
    ensures Shaped(SetLast(t, s), a)
  {
    if t.later != [] {
      assert ShapedLater(t.later[|t.later| - 1], true);
      var l := SetLast(t, s).later;
      forall i | 0 <= i < |l| ensures ShapedLater(l[i], i == |l| - 1) {
        assert ShapedLater(t.later[i], i == |l| - 1);
      }
    }
  }

  lemma AddSiblingShaped(t: Tree, a: bool, x: nat)
    requires Shaped(t, a)
    ensures Shaped(AddSibling(t, x), a) && !Vacant(AddSibling(t, x))
  {
    ShapedLast(t, a);
    if Last(t).children == map[] {
      ShapedSetLast(t, a, Last(t).(siblings := Last(t).siblings + [x]));
    } else {
      var l := AddSibling(t, x).later;
      forall i | 0 <= i < |l| ensures ShapedLater(l[i], i == |l| - 1) {
        if i < |t.later| { assert ShapedLater(t.later[i], i == |t.later| - 1); }
      }
    }
  }

  lemma {:induction false} ReserveShaped(t: Tree, a: bool, p: seq<Key>, x: nat)
    requires Shaped(t, a)
    ensures Shaped(Reserve(t, p, x), a) && !Vacant(Reserve(t, p, x))
    decreases |p|
  {
    if p == [] {
      AddSiblingShaped(t, a, x);
    } else {
      var s := Last(t);
      ShapedLast(t, a);
      ReserveShaped(ChildFor(s, p[0]), s.active && s.siblings == [], p[1..], x);
      var s' := s.(children := s.children[p[0] := Reserve(ChildFor(s, p[0]), p[1..], x)]);
      ShapedSetLast(t, a, s');
      assert p[0] in s'.children;
    }
  }

  lemma {:induction false} ActivateShaped(t: Tree)
    requires Shaped(t, false)
    ensures Shaped(Activate(t), true)
    ensures Vacant(Activate(t)) == Vacant(t)
    decreases t
  {
    if t.front.siblings == [] {
      forall k | k in t.front.children
        ensures Shaped(Activate(t.front.children[k]), true) && !Vacant(Activate(t.front.children[k])) {
        ActivateShaped(t.front.children[k]);
      }
    }
  }

  lemma {:induction false} ActivateReserve(t: Tree, p: seq<Key>, x: nat)
    requires Shaped(t, false)
    ensures Activate(Reserve(t, p, x)) == Reserve(Activate(t), p, x)
    decreases |p|
  {
    if t.later == [] && p != [] && t.front.siblings == [] {
      var k := p[0];
      var c := ChildFor(t.front, k);
      ReserveBelow(t, p, x);
      ReserveBelow(Activate(t), p, x);
      ActivateReserve(c, p[1..], x);
      assert ChildFor(Activate(t).front, k) == Activate(c);
      ActivateSegmentSet(t.front, k, Reserve(c, p[1..], x));
    }
  }

  lemma {:induction false} LandsInactive(t: Tree, p: seq<Key>)
    requires Shaped(t, false)
    ensures !Lands(t, p)
    decreases |p|
  {
    ShapedLast(t, false);
    if p != [] { LandsInactive(ChildFor(Last(t), p[0]), p[1..]); }
  }

  lemma {:induction false} LandsReserve(t: Tree, a: bool, z: seq<Key>, x: nat, y: seq<Key>)
    requires Shaped(t, a)
    ensures Lands(Reserve(t, z, x), y) <==> Lands(t, y) && !Related(z, y)
    decreases |y|
  {
    ShapedLast(t, a);
    if t.later != [] || !a {
      LandsLater(t, a, y);
      ReserveShaped(t, a, z, x);
      LandsLater(Reserve(t, z, x), a, y);
    } else if z != [] && y != [] {
      RelatedStep(z[0], z[1..], y[0], y[1..]);
      assert z == [z[0]] + z[1..] && y == [y[0]] + y[1..];
      if z[0] == y[0] {
        LandsReserve(ChildFor(t.front, y[0]), a && t.front.siblings == [], z[1..], x, y[1..]);
      }
    } else if y == [] && z != [] {
      assert z[0] in Reserve(t, z, x).front.children;
    } else if y != [] && z == [] {
      LandsInactive(ChildFor(Last(Reserve(t, z, x)), y[0]), y[1..]);
    }
  }

  lemma LandsLater(t: Tree, a: bool, y: seq<Key>)
    requires Shaped(t, a) && (t.later != [] || !a || t.front.siblings != [])
    ensures !Lands(t, y)
  {
    ShapedLast(t, a);
    if y != [] {
      LandsInactive(ChildFor(Last(t), y[0]), y[1..]);
    }
  }

  lemma {:induction false} HeadReserve(t: Tree, z: seq<Key>, x: nat, p: seq<Key>, h: nat)
    requires Shaped(t, true)
    ensures IsHead(Reserve(t, z, x), p, h) <==> IsHead(t, p, h) || (p == z && h == x && Lands(t, z))
    decreases |p|
  {
    ShapedLast(t, true);
    if t.later != [] || t.front.siblings != [] {
      LandsLater(t, true, z);
      if p != [] && p == z { LandsLater(t, true, p); }
    } else if z != [] {
      if p != [] && p[0] == z[0] {
        assert p == z <==> p[1..] == z[1..] by { assert p == [p[0]] + p[1..] && z == [z[0]] + z[1..]; }
        HeadReserve(ChildFor(t.front, z[0]), z[1..], x, p[1..], h);
      }
    }
  }

  lemma ActivateSegmentShaped(s: Segment)
    requires Kids(s, false)
    ensures Kids(ActivateSegment(s), s.siblings == [])
  {
    if s.siblings == [] {
      forall k | k in s.children ensures Shaped(Activate(s.children[k]), true) && !Vacant(Activate(s.children[k])) {
        ActivateShaped(s.children[k]);
      }
    }
  }

  lemma NextSegmentShaped(t: Tree)
    requires t.front.active && t.front.siblings == [] && t.front.children == map[]
    requires forall i | 0 <= i < |t.later| :: ShapedLater(t.later[i], i == |t.later| - 1)
    ensures Shaped(NextSegment(t), true)
  {
    if t.later != [] {
      ActivateSegmentShaped(t.later[0]);
      var l := NextSegment(t).later;
      forall i | 0 <= i < |l| ensures ShapedLater(l[i], i == |l| - 1) {
        assert ShapedLater(t.later[i + 1], i + 1 == |t.later| - 1);
      }
      if l != [] { assert ShapedLater(t.later[0], false); }
    }
  }

  lemma {:induction false} FinalizeShaped(t: Tree, p: seq<Key>, x: nat)
    requires Shaped(t, true) && IsHead(t, p, x)
    ensures Shaped(Finalize(t, p, x), true)
    decreases |p|
  {
    if p == [] {
      var s := t.front.(siblings := t.front.siblings[1..]);
      ActivateSegmentShaped(s);
      if s.siblings == [] && s.children == map[] { NextSegmentShaped(Tree(s, t.later)); }
    } else {
      var k := p[0];
      var c := Finalize(t.front.children[k], p[1..], x);
      FinalizeShaped(t.front.children[k], p[1..], x);
      var kids := t.front.children - {k};
      if Vacant(c) {
        if kids == map[] { NextSegmentShaped(Tree(t.front.(children := kids), t.later)); }
      } else {
        var t' := SetChild(t, k, c);
        assert k in t'.front.children;
        assert Kids(t'.front, true);
      }
    }
  }

  // Deleting an item at once undoes its reservation.
  lemma {:induction false} Undo(t: Tree, p: seq<Key>, x: nat)
    requires Shaped(t, true) && Lands(t, p)
    ensures IsHead(Reserve(t, p, x), p, x)
    ensures Finalize(Reserve(t, p, x), p, x) == t
    decreases |p|
  {
    HeadReserve(t, p, x, p, x);
    ShapedLast(t, true);
    if t.later != [] || t.front.siblings != [] { LandsLater(t, true, p); }
    if p != [] {
      var k := p[0];
      var c := ChildFor(t.front, k);
      Undo(c, p[1..], x);
      var r := Reserve(t, p, x);
      assert r.front.children[k] == Reserve(c, p[1..], x);
      assert Finalize(r.front.children[k], p[1..], x) == c;
      if k in t.front.children {
        assert r.front.children[k := c] == t.front.children;
      } else {
        assert r.front.children - {k} == t.front.children;
      }
    }
  }

  lemma {:induction false} NextSegmentReserve(t: Tree, y: seq<Key>, z: nat)
    requires t.later != []
    requires forall i | 0 <= i < |t.later| :: ShapedLater(t.later[i], i == |t.later| - 1)
    ensures NextSegment(Reserve(t, y, z)) == Reserve(NextSegment(t), y, z)
  {
    assert ShapedLater(t.later[0], 0 == |t.later| - 1);
    var l := t.later[|t.later| - 1];
    if |t.later| > 1 {
      assert NextSegment(Reserve(t, y, z)).later == Reserve(NextSegment(t), y, z).later;
    }
  }

  // A deletion and a later reservation commute.
  lemma {:induction false} Commute(t: Tree, p: seq<Key>, x: nat, y: seq<Key>, z: nat)
    requires Shaped(t, true) && IsHead(t, p, x)
    ensures IsHead(Reserve(t, y, z), p, x)
    ensures Finalize(Reserve(t, y, z), p, x) == Reserve(Finalize(t, p, x), y, z)
    decreases |p|
  {
    HeadReserve(t, y, z, p, x);
    if p == [] {
      CommuteHere(t, x, y, z);
    } else {
      CommuteBelow(t, p, x, y, z);
    }
  }

  lemma CommuteHere(t: Tree, x: nat, y: seq<Key>, z: nat)
    requires Shaped(t, true) && IsHead(t, [], x) && IsHead(Reserve(t, y, z), [], x)
    ensures PopFront(Reserve(t, y, z)) == Reserve(PopFront(t), y, z)
  {
    if t.later == [] && y == [] {
      var s := t.front.siblings;
      assert (s + [z])[1..] == s[1..] + [z];
    } else if t.later == [] && |t.front.siblings| == 1 {
      CommuteFork(t, y, z);
    }
  }

  lemma CommuteFork(t: Tree, y: seq<Key>, z: nat)
    requires Shaped(t, true) && t.later == [] && |t.front.siblings| == 1 && y != []
    ensures Reserve(t, y, z).front.siblings != []
    ensures PopFront(Reserve(t, y, z)) == Reserve(PopFront(t), y, z)
  {
    var k := y[0];
    var s := t.front.(siblings := []);
    var c := ChildFor(t.front, k);
    var d := Reserve(c, y[1..], z);
    ReserveBelow(t, y, z);
    ActivateReserve(c, y[1..], z);
    ActivateSegmentSet(s, k, d);
    assert k in s.children[k := d];
    assert PopFront(Reserve(t, y, z)) == Tree(ActivateSegment(s.(children := s.children[k := d])), []);
    assert PopFront(t) == Tree(ActivateSegment(s), []);
    ReserveBelow(PopFront(t), y, z);
    assert ChildFor(ActivateSegment(s), k) == Activate(c);
  }

  lemma ActivateSegmentSet(s: Segment, k: Key, c: Tree)
    requires s.siblings == []
    ensures ActivateSegment(s.(children := s.children[k := c]))
         == ActivateSegment(s).(children := ActivateSegment(s).children[k := Activate(c)])
  {
    assert ActivateSegment(s.(children := s.children[k := c])).children ==
        ActivateSegment(s).children[k := Activate(c)];
  }

  lemma CommuteBelow(t: Tree, p: seq<Key>, x: nat, y: seq<Key>, z: nat)
    requires Shaped(t, true) && IsHead(t, p, x) && IsHead(Reserve(t, y, z), p, x) && p != []
    ensures Finalize(Reserve(t, y, z), p, x) == Reserve(Finalize(t, p, x), y, z)
    decreases |p|, 0
  {
    if t.later != [] {
      CommuteLater(t, p, x, y, z);
    } else if y == [] {
      CommuteAppend(t, p, x, z);
    } else if y[0] == p[0] {
      Commute(t.front.children[p[0]], p[1..], x, y[1..], z);
      CommuteSameChild(t, p, x, y, z);
    } else {
      CommuteOtherChild(t, p, x, y, z);
    }
  }

  lemma CommuteLater(t: Tree, p: seq<Key>, x: nat, y: seq<Key>, z: nat)
    requires Shaped(t, true) && IsHead(t, p, x) && IsHead(Reserve(t, y, z), p, x) && p != [] && t.later != []
    ensures Finalize(Reserve(t, y, z), p, x) == Reserve(Finalize(t, p, x), y, z)
  {
    var k := p[0];
    if t.front.children - {k} == map[] {
      NextSegmentReserve(Tree(t.front.(children := map[]), t.later), y, z);
    }
  }

  lemma CommuteAppend(t: Tree, p: seq<Key>, x: nat, z: nat)
    requires Shaped(t, true) && IsHead(t, p, x) && IsHead(AddSibling(t, z), p, x) && p != [] && t.later == []
    ensures Finalize(AddSibling(t, z), p, x) == AddSibling(Finalize(t, p, x), z)
  {
    var k := p[0];
    var c' := Finalize(t.front.children[k], p[1..], x);
    if !Vacant(c') { assert k in SetChild(t, k, c').front.children; }
  }

  lemma ReserveBelow(t: Tree, y: seq<Key>, z: nat)
    requires t.later == [] && y != []
    ensures Reserve(t, y, z) == SetChild(t, y[0], Reserve(ChildFor(t.front, y[0]), y[1..], z))
  {}

  lemma SetChildAgain(t: Tree, k: Key, c: Tree, d: Tree)
    ensures SetChild(SetChild(t, k, c), k, d) == SetChild(t, k, d)
    ensures t.later == [] ==> SetChild(DropChild(t, k), k, d) == SetChild(t, k, d)
  {
    assert t.front.children[k := c][k := d] == t.front.children[k := d];
    assert (t.front.children - {k})[k := d] == t.front.children[k := d];
  }

  lemma CommuteSameChild(t: Tree, p: seq<Key>, x: nat, y: seq<Key>, z: nat)
    requires Shaped(t, true) && IsHead(t, p, x) && IsHead(Reserve(t, y, z), p, x)
    requires p != [] && y != [] && t.later == [] && y[0] == p[0]
    requires IsHead(Reserve(t.front.children[p[0]], y[1..], z), p[1..], x)
    requires Finalize(Reserve(t.front.children[p[0]], y[1..], z), p[1..], x)
          == Reserve(Finalize(t.front.children[p[0]], p[1..], x), y[1..], z)
    ensures Finalize(Reserve(t, y, z), p, x) == Reserve(Finalize(t, p, x), y, z)
  {
    var k := p[0];
    var c := t.front.children[k];
    var c' := Finalize(c, p[1..], x);
    FinalizeShaped(c, p[1..], x);
    ReserveShaped(c', true, y[1..], z);
    var d := Reserve(c', y[1..], z);
    ReserveBelow(t, y, z);
    SetChildAgain(t, k, Reserve(c, y[1..], z), d);
    assert Finalize(Reserve(t, y, z), p, x) == SetChild(t, k, d);
    var f := if Vacant(c') then DropChild(t, k) else SetChild(t, k, c');
    ReserveBelow(f, y, z);
    SetChildAgain(t, k, c', d);
  }

  lemma CommuteOtherChild(t: Tree, p: seq<Key>, x: nat, y: seq<Key>, z: nat)
    requires Shaped(t, true) && IsHead(t, p, x) && IsHead(Reserve(t, y, z), p, x)
    requires p != [] && y != [] && t.later == [] && y[0] != p[0]
    ensures Finalize(Reserve(t, y, z), p, x) == Reserve(Finalize(t, p, x), y, z)
  {
    var k, j := p[0], y[0];
    var m := t.front.children;
    var c' := Finalize(m[k], p[1..], x);
    var r := Reserve(ChildFor(t.front, j), y[1..], z);
    assert Reserve(t, y, z).front.children == m[j := r];
    if Vacant(c') {
      assert j in m[j := r] - {k};
      assert m[j := r] - {k} == (m - {k})[j := r];
    } else {
      assert m[j := r][k := c'] == m[k := c'][j := r];
    }
  }
}
