// The deletion as the code runs it: from the item's chain up through its parents.
module Cascade {
  import opened Tags
  import opened Trees

  // The items that nothing in the tree precedes, for an active tree.
  function Heads(t: Tree): set<nat> { SegmentHeads(t.front) }

  function SegmentHeads(s: Segment): set<nat> {
    if s.siblings != [] then {s.siblings[0]}
    else set k, x | k in s.children && x in Heads(s.children[k]) :: x
  }

  lemma KidHeads(s: Segment, x: nat)
    requires s.siblings == []
    ensures x in SegmentHeads(s) <==> exists k :: k in s.children && x in Heads(s.children[k])
  {}

  // x is the first sibling of an active front segment somewhere in the tree.
  predicate FrontOf(t: Tree, x: nat)
    decreases t, 1
  {
    || (t.front.active && t.front.siblings != [] && t.front.siblings[0] == x)
    || FrontOfKid(t.front, x)
    || (exists i | 0 <= i < |t.later| :: FrontOfKid(t.later[i], x))
  }

  predicate FrontOfKid(s: Segment, x: nat)
    decreases s, 0
  {
    exists k | k in s.children :: FrontOf(s.children[k], x)
  }

  // The heads that the deletion of head x at p creates.
  function NewHeads(t: Tree, p: seq<Key>, x: nat): set<nat>
    requires IsHead(t, p, x)
    decreases |p|
  {
    if p == [] then Heads(PopFront(t))
    else
      var c := t.front.children[p[0]];
      if Vacant(Finalize(c, p[1..], x)) then DropHeads(t, p[0]) else NewHeads(c, p[1..], x)
  }

  function DropHeads(t: Tree, k: Key): set<nat> {
    if t.front.children - {k} == map[] && t.later != [] then SegmentHeads(t.later[0]) else {}
  }

  // Path p leads through front segments.
  predicate OnFront(t: Tree, p: seq<Key>)
    decreases |p|
  {
    p == [] || (p[0] in t.front.children && OnFront(t.front.children[p[0]], p[1..]))
  }

  function At(t: Tree, p: seq<Key>): Tree
    requires OnFront(t, p)
    decreases |p|
  {
    if p == [] then t else At(t.front.children[p[0]], p[1..])
  }

  function SetAt(t: Tree, p: seq<Key>, c: Tree): (r: Tree)
    requires OnFront(t, p)
    ensures OnFront(r, p) && At(r, p) == c
    decreases |p|
  {
    if p == [] then c
    else
      var r := SetChild(t, p[0], SetAt(t.front.children[p[0]], p[1..], c));
      assert p[0] in r.front.children;
      r
  }

  // What a run of the code does: the new tree, the list nodes that became heads, and whether
  // the cascade reached the only segment of the root.
  datatype Effect = Effect(tree: Tree, heads: set<nat>, emptied: bool)

  function ActivateKids(s: Segment): Segment {
    s.(children := ActivateSegment(s).children)
  }

  function FinalizeUp(t: Tree, p: seq<Key>): Effect
    requires OnFront(t, p) && At(t, p).front.siblings != []
  {
    var c := At(t, p);
    var s := c.front.(siblings := c.front.siblings[1..]);
    if s.siblings != [] then Effect(SetAt(t, p, Tree(s, c.later)), {s.siblings[0]}, false)
    else if s.children != map[] then Effect(SetAt(t, p, Tree(ActivateKids(s), c.later)), SegmentHeads(s), false)
    else NextUp(SetAt(t, p, Tree(s, c.later)), p)
  }

  function NextUp(t: Tree, p: seq<Key>): Effect
    requires OnFront(t, p)
    decreases |p|, 0
  {
    var c := At(t, p);
    if c.later != [] then Effect(SetAt(t, p, NextSegment(c)), SegmentHeads(c.later[0]), false)
    else if p == [] then Effect(t, {}, true)
    else
      OnFrontInit(t, p);
      RemoveUp(t, p[..|p| - 1], p[|p| - 1])
  }

  function RemoveUp(t: Tree, p: seq<Key>, k: Key): Effect
    requires OnFront(t, p)
    decreases |p|, 1
  {
    var c := At(t, p);
    if k !in c.front.children then Effect(t, {}, false)
    else
      var t' := SetAt(t, p, Tree(c.front.(children := c.front.children - {k}), c.later));
      if c.front.children - {k} == map[] then NextUp(t', p) else Effect(t', {}, false)
  }

  lemma {:induction false} OnFrontInit(t: Tree, p: seq<Key>)
    requires OnFront(t, p) && p != []
    ensures OnFront(t, p[..|p| - 1])
    ensures p[|p| - 1] in At(t, p[..|p| - 1]).front.children
    ensures At(t, p[..|p| - 1]).front.children[p[|p| - 1]] == At(t, p)
    decreases |p|
  {
    if |p| > 1 {
      OnFrontInit(t.front.children[p[0]], p[1..]);
      assert p[1..][..|p| - 2] == p[..|p| - 1][1..];
    }
  }

  function Lift(t: Tree, k: Key, r: Effect): Effect {
    if r.emptied then Effect(DropChild(t, k), DropHeads(t, k), t.front.children - {k} == map[] && t.later == [])
    else Effect(SetChild(t, k, r.tree), r.heads, false)
  }

  // The cascade started below key k is the cascade of that child, followed by
  // the removal of the child when it ended up empty.
  lemma {:induction false} NextLift(t: Tree, p: seq<Key>)
    requires OnFront(t, p) && p != []
    ensures NextUp(t, p) == Lift(t, p[0], NextUp(t.front.children[p[0]], p[1..]))
    decreases |p|
  {
    var k := p[0];
    var c := t.front.children[k];
    if |p| == 1 {
      assert p[..|p| - 1] == [] && p[1..] == [];
      var d := Tree(t.front.(children := t.front.children - {k}), t.later);
      assert RemoveUp(t, [], k) == if d.front.children == map[] then NextUp(d, []) else Effect(d, {}, false);
    } else if At(t, p).later == [] {
      var q := p[..|p| - 1];
      var m := p[|p| - 1];
      assert p[1..][..|p| - 2] == q[1..];
      OnFrontInit(t, p);
      var b := At(t, q);
      var e := Tree(b.front.(children := b.front.children - {m}), b.later);
      if e.front.children == map[] {
        NextLift(SetAt(t, q, e), q);
        assert SetAt(t, q, e) == SetChild(t, k, SetAt(c, q[1..], e));
        LiftSet(t, k, SetAt(c, q[1..], e), NextUp(SetAt(c, q[1..], e), q[1..]));
      }
    }
  }

  lemma LiftSet(t: Tree, k: Key, c: Tree, r: Effect)
    ensures Lift(SetChild(t, k, c), k, r) == Lift(t, k, r)
  {
    var t' := SetChild(t, k, c);
    assert t'.front.children - {k} == t.front.children - {k};
    assert t'.front.children[k := r.tree] == t.front.children[k := r.tree];
  }

  lemma {:induction false} HeadOnFront(t: Tree, p: seq<Key>, x: nat)
    requires IsHead(t, p, x)
    ensures OnFront(t, p) && At(t, p).front.siblings != [] && At(t, p).front.siblings[0] == x
    decreases |p|
  {
    if p != [] { HeadOnFront(t.front.children[p[0]], p[1..], x); }
  }

  // The upward cascade of the code is the simple recursive deletion.
  lemma {:induction false} UpIsDown(t: Tree, p: seq<Key>, x: nat)
    requires Shaped(t, true) && IsHead(t, p, x)
    ensures OnFront(t, p) && At(t, p).front.siblings != []
    ensures FinalizeUp(t, p) == Effect(Finalize(t, p, x), NewHeads(t, p, x), Vacant(Finalize(t, p, x)))
    decreases |p|
  {
    HeadOnFront(t, p, x);
    if p == [] {
      var s := t.front.(siblings := t.front.siblings[1..]);
      ActivateSegmentHeads(s);
      if s.siblings == [] && s.children == map[] { assert Heads(PopFront(t)) == {}; }
    } else {
      UpIsDown(t.front.children[p[0]], p[1..], x);
      FinalizeLift(t, p);
      assert forall c :: p[0] in SetChild(t, p[0], c).front.children;
    }
  }

  lemma FinalizeLift(t: Tree, p: seq<Key>)
    requires OnFront(t, p) && At(t, p).front.siblings != [] && p != []
    ensures FinalizeUp(t, p) == Lift(t, p[0], FinalizeUp(t.front.children[p[0]], p[1..]))
  {
    var c := t.front.children[p[0]];
    var e := At(t, p);
    var n := Tree(e.front.(siblings := e.front.siblings[1..]), e.later);
    if n.front.siblings == [] && n.front.children == map[] {
      NextLift(SetAt(t, p, n), p);
      LiftSet(t, p[0], SetAt(c, p[1..], n), NextUp(SetAt(c, p[1..], n), p[1..]));
    }
  }

  // What the deletion offers: exactly the heads it created, all related to p.
  lemma {:induction false} NewHeadsExact(t: Tree, p: seq<Key>, x: nat, q: seq<Key>, h: nat)
    requires Shaped(t, true) && IsHead(t, p, x) && IsHead(Finalize(t, p, x), q, h)
    ensures h in NewHeads(t, p, x) || IsHead(t, q, h)
    decreases |p|
  {
    if p == [] {
      HeadsComplete(Finalize(t, p, x), q, h);
    } else {
      var k := p[0];
      var c := t.front.children[k];
      var c' := Finalize(c, p[1..], x);
      if Vacant(c') {
        if t.front.children - {k} == map[] && t.later != [] {
          HeadsComplete(DropChild(t, k), q, h);
          ActivateSegmentHeads(t.later[0]);
        }
      } else if q != [] && q[0] == k {
        NewHeadsExact(c, p[1..], x, q[1..], h);
      }
    }
  }

  lemma {:induction false} HeadsComplete(t: Tree, q: seq<Key>, h: nat)
    requires IsHead(t, q, h)
    ensures h in Heads(t)
    decreases |q|
  {
    if q != [] { HeadsComplete(t.front.children[q[0]], q[1..], h); }
  }

  lemma {:induction false} HeadsSound(t: Tree, h: nat) returns (q: seq<Key>)
    requires h in Heads(t)
    ensures IsHead(t, q, h)
    decreases t
  {
    if t.front.siblings != [] {
      q := [];
    } else {
      var k :| k in t.front.children && h in Heads(t.front.children[k]);
      var r := HeadsSound(t.front.children[k], h);
      q := [k] + r;
    }
  }

  lemma {:induction false} ActivateSegmentHeads(s: Segment)
    ensures SegmentHeads(ActivateSegment(s)) == SegmentHeads(s)
    decreases s
  {
    if s.siblings == [] {
      forall k | k in s.children ensures Heads(Activate(s.children[k])) == Heads(s.children[k]) {
        ActivateSegmentHeads(s.children[k].front);
      }
    }
  }

  lemma {:induction false} NewHeadsRelated(t: Tree, p: seq<Key>, x: nat, h: nat) returns (q: seq<Key>)
    requires Shaped(t, true) && IsHead(t, p, x) && h in NewHeads(t, p, x)
    ensures Related(q, p) && IsHead(Finalize(t, p, x), q, h)
    decreases |p|
  {
    if p == [] {
      q := HeadsSound(PopFront(t), h);
    } else {
      var k := p[0];
      var c := t.front.children[k];
      if Vacant(Finalize(c, p[1..], x)) {
        ActivateSegmentHeads(t.later[0]);
        q := HeadsSound(DropChild(t, k), h);
        assert ShapedLater(t.later[0], 0 == |t.later| - 1);
      } else {
        var r := NewHeadsRelated(c, p[1..], x, h);
        q := [k] + r;
        RelatedStep(k, r, k, p[1..]);
        assert p == [k] + p[1..];
      }
    }
  }
}
