// The tree of chains with what tells chain and segment objects apart, and with the version counters.
module Stamps {
  import opened Tags
  import T = Trees
  import D = Deferred

  // node is the identity of the segment object, version what add_sibling and get_segment count in it.
  datatype Segment = Segment(node: nat, version: nat, siblings: seq<nat>, children: map<Key, Tree>, active: bool)

  // id is the identity of the chain object: the node of its first segment.
  datatype Tree = Tree(id: nat, front: Segment, later: seq<Segment>)

  function Fresh(n: nat, active: bool): Tree { Tree(n, Segment(n, 0, [], map[], active), []) }

  predicate Vacant(t: Tree) { t.later == [] && t.front.siblings == [] && t.front.children == map[] }

  function Last(t: Tree): Segment {
    if t.later == [] then t.front else t.later[|t.later| - 1]
  }

  function SetLast(t: Tree, s: Segment): Tree {
    if t.later == [] then t.(front := s) else t.(later := t.later[|t.later| - 1 := s])
  }

  // n is the next unused identity.
  function AddSibling(t: Tree, x: nat, n: nat): Tree {
    var s := Last(t);
    if s.children != map[] then t.(later := t.later + [Segment(n, 1, [x], map[], false)])
    else SetLast(t, s.(siblings := s.siblings + [x], version := s.version + 1))
  }

  function ChildFor(s: Segment, k: Key, n: nat): Tree {
    if k in s.children then s.children[k] else Fresh(n, s.active && s.siblings == [])
  }

  // A reservation uses at most one identity per level.
  function Reserve(t: Tree, p: seq<Key>, x: nat, n: nat): Tree
    decreases |p|
  {
    if p == [] then AddSibling(t, x, n)
    else
      var s := Last(t);
      var c := Reserve(ChildFor(s, p[0], n), p[1..], x, n + 1);
      SetLast(t, s.(version := s.version + 1, children := s.children[p[0] := c]))
  }

  function Activate(t: Tree): (r: Tree)
    ensures r.id == t.id && r.later == t.later
  {
    t.(front := ActivateSegment(t.front))
  }

  function ActivateSegment(s: Segment): (r: Segment)
    ensures r.node == s.node && r.version == s.version && r.siblings == s.siblings && r.children.Keys == s.children.Keys
  {
    if s.siblings != [] then s.(active := true)
    else s.(children := map k | k in s.children :: Activate(s.children[k]), active := true)
  }

  function NextSegment(t: Tree): Tree {
    if t.later == [] then t else t.(front := ActivateSegment(t.later[0]), later := t.later[1..])
  }

  function DropChild(t: Tree, k: Key): Tree {
    var t' := t.(front := t.front.(children := t.front.children - {k}));
    if t'.front.children == map[] then NextSegment(t') else t'
  }

  function SetChild(t: Tree, k: Key, c: Tree): Tree {
    t.(front := t.front.(children := t.front.children[k := c]))
  }

  function PopFront(t: Tree): Tree
    requires t.front.siblings != []
  {
    var s := t.front.(siblings := t.front.siblings[1..]);
    if s.siblings != [] then t.(front := s)
    else if s.children != map[] then t.(front := ActivateSegment(s))
    else NextSegment(t.(front := s))
  }

  predicate IsHead(t: Tree, p: seq<Key>, x: nat)
    decreases |p|
  {
    if p == [] then t.front.siblings != [] && t.front.siblings[0] == x
    else t.front.siblings == [] && p[0] in t.front.children && IsHead(t.front.children[p[0]], p[1..], x)
  }

  // finalize, up to the point where it gives its locks up
  function Pop(t: Tree, p: seq<Key>, x: nat): Tree
    requires IsHead(t, p, x)
    decreases |p|
  {
    if p == [] then PopFront(t) else SetChild(t, p[0], Pop(t.front.children[p[0]], p[1..], x))
  }

  // Path p leads through front segments.
  predicate OnFront(t: Tree, p: seq<Key>)
    decreases |p|
  {
    p == [] || (p[0] in t.front.children && OnFront(t.front.children[p[0]], p[1..]))
  }

  function At(t: Tree, p: seq<Key>): Tree
    requires OnFront(t, p)
    decreases |p|
  {
    if p == [] then t else At(t.front.children[p[0]], p[1..])
  }

  // remove_child, once it has decided to erase: the child under k of the chain at p
  function Erase(t: Tree, p: seq<Key>, k: Key): Tree
    requires OnFront(t, p)
    decreases |p|
  {
    if p == [] then DropChild(t, k) else SetChild(t, p[0], Erase(t.front.children[p[0]], p[1..], k))
  }

  // The tree without its stamps.
  ghost function Plain(t: Tree): T.Tree
    decreases t, 1
  {
    T.Tree(PlainSegment(t.front), seq(|t.later|, i requires 0 <= i < |t.later| => PlainSegment(t.later[i])))
  }

  ghost function PlainSegment(s: Segment): T.Segment
    decreases s, 0
  {
    T.Segment(s.siblings, map k | k in s.children :: Plain(s.children[k]), s.active)
  }

  lemma PlainFresh(n: nat, a: bool)
    ensures Plain(Fresh(n, a)) == T.Fresh(a)
  {
    var t := Fresh(n, a);
    assert PlainSegment(t.front) == T.Segment([], map[], a);
    assert Plain(t) == T.Tree(PlainSegment(t.front), []);
  }

  lemma PlainParts(t: Tree)
    ensures |Plain(t).later| == |t.later| && T.Last(Plain(t)) == PlainSegment(Last(t))
    ensures PlainSegment(t.front).children.Keys == t.front.children.Keys
    ensures T.Vacant(Plain(t)) <==> Vacant(t)
  {
    assert t.front.children == map[] <==> t.front.children.Keys == {};
    assert Plain(t).front.children == map[] <==> Plain(t).front.children.Keys == {};
  }

  lemma PlainSetLast(t: Tree, s: Segment)
    ensures Plain(SetLast(t, s)) == T.SetLast(Plain(t), PlainSegment(s))
  {
    assert Plain(SetLast(t, s)).later == T.SetLast(Plain(t), PlainSegment(s)).later;
  }

  lemma PlainKid(s: Segment, k: Key, c: Tree)
    ensures PlainSegment(s.(children := s.children[k := c])) ==
      PlainSegment(s).(children := PlainSegment(s).children[k := Plain(c)])
  {
    assert PlainSegment(s.(children := s.children[k := c])).children == PlainSegment(s).children[k := Plain(c)];
  }

  lemma PlainAdd(t: Tree, x: nat, n: nat)
    ensures Plain(AddSibling(t, x, n)) == T.AddSibling(Plain(t), x)
  {
    var s := Last(t);
    PlainParts(t);
    assert s.children == map[] <==> PlainSegment(s).children == map[] by {
      assert PlainSegment(s).children.Keys == s.children.Keys;
    }
    if s.children != map[] {
      assert PlainSegment(Segment(n, 1, [x], map[], false)) == T.Segment([x], map[], false);
      assert Plain(AddSibling(t, x, n)).later == T.AddSibling(Plain(t), x).later;
    } else {
      PlainSetLast(t, s.(siblings := s.siblings + [x], version := s.version + 1));
    }
  }

  lemma {:induction false} PlainReserve(t: Tree, p: seq<Key>, x: nat, n: nat)
    ensures Plain(Reserve(t, p, x, n)) == T.Reserve(Plain(t), p, x)
    decreases |p|
  {
    if p == [] {
      PlainAdd(t, x, n);
    } else {
      var s, k := Last(t), p[0];
      var c := ChildFor(s, k, n);
      PlainParts(t);
      PlainFresh(n, s.active && s.siblings == []);
      assert Plain(c) == T.ChildFor(PlainSegment(s), k);
      PlainReserve(c, p[1..], x, n + 1);
      var s' := s.(version := s.version + 1, children := s.children[k := Reserve(c, p[1..], x, n + 1)]);
      PlainKid(s, k, Reserve(c, p[1..], x, n + 1));
      assert PlainSegment(s') == PlainSegment(s.(children := s'.children));
      PlainSetLast(t, s');
    }
  }

  lemma {:induction false} PlainActivate(t: Tree)
    ensures Plain(Activate(t)) == T.Activate(Plain(t))
    decreases t
  {
    PlainActivateSegment(t.front);
    assert Plain(Activate(t)).later == Plain(t).later;
  }

  lemma {:induction false} PlainActivateSegment(s: Segment)
    ensures PlainSegment(ActivateSegment(s)) == T.ActivateSegment(PlainSegment(s))
    decreases s
  {
    if s.siblings == [] {
      forall k | k in s.children ensures Plain(Activate(s.children[k])) == T.Activate(Plain(s.children[k])) {
        PlainActivate(s.children[k]);
      }
      assert PlainSegment(ActivateSegment(s)).children == T.ActivateSegment(PlainSegment(s)).children;
    }
  }

  lemma PlainNext(t: Tree)
    ensures Plain(NextSegment(t)) == T.NextSegment(Plain(t))
  {
    if t.later != [] {
      PlainActivateSegment(t.later[0]);
      assert Plain(NextSegment(t)).later == T.NextSegment(Plain(t)).later;
    }
  }

  lemma PlainFront(t: Tree, s: Segment)
    ensures Plain(t.(front := s)) == T.Tree(PlainSegment(s), Plain(t).later)
  {
    assert Plain(t.(front := s)).later == Plain(t).later;
  }

  lemma PlainDrop(t: Tree, k: Key)
    ensures Plain(DropChild(t, k)) == T.DropChild(Plain(t), k)
  {
    var s := t.front.(children := t.front.children - {k});
    PlainFront(t, s);
    assert PlainSegment(s).children == PlainSegment(t.front).children - {k};
    PlainParts(t.(front := s));
    assert s.children == map[] <==> s.children.Keys == {};
    assert PlainSegment(s).children == map[] <==> PlainSegment(s).children.Keys == {};
    PlainNext(t.(front := s));
  }

  lemma PlainSetChild(t: Tree, k: Key, c: Tree)
    ensures Plain(SetChild(t, k, c)) == T.SetChild(Plain(t), k, Plain(c))
  {
    PlainKid(t.front, k, c);
    PlainFront(t, t.front.(children := t.front.children[k := c]));
  }

  lemma PlainPopFront(t: Tree)
    requires t.front.siblings != [] && Plain(t).front.siblings != []
    ensures Plain(PopFront(t)) == T.PopFront(Plain(t))
  {
    var s := t.front.(siblings := t.front.siblings[1..]);
    PlainParts(t);
    assert PlainSegment(s) == PlainSegment(t.front).(siblings := s.siblings);
    assert s.children == map[] <==> s.children.Keys == {};
    assert PlainSegment(s).children == map[] <==> PlainSegment(s).children.Keys == {};
    PlainFront(t, s);
    PlainFront(t, ActivateSegment(s));
    PlainActivateSegment(s);
    PlainNext(t.(front := s));
  }

  lemma {:induction false} PlainHead(t: Tree, p: seq<Key>, x: nat)
    ensures IsHead(t, p, x) <==> T.IsHead(Plain(t), p, x)
    decreases |p|
  {
    PlainParts(t);
    if p != [] && p[0] in t.front.children { PlainHead(t.front.children[p[0]], p[1..], x); }
  }

  lemma {:induction false} PlainPop(t: Tree, p: seq<Key>, x: nat)
    requires IsHead(t, p, x)
    ensures T.IsHead(Plain(t), p, x) && Plain(Pop(t, p, x)) == D.Pop(Plain(t), p, x)
    decreases |p|
  {
    PlainHead(t, p, x);
    PlainParts(t);
    if p == [] {
      PlainPopFront(t);
    } else {
      PlainPop(t.front.children[p[0]], p[1..], x);
      PlainSetChild(t, p[0], Pop(t.front.children[p[0]], p[1..], x));
    }
  }

  // The chain at p, reached through front segments, is empty.
  predicate Waits(t: Tree, p: seq<Key>)
    decreases |p|
  {
    if p == [] then Vacant(t)
    else t.front.siblings == [] && p[0] in t.front.children && Waits(t.front.children[p[0]], p[1..])
  }

  lemma {:induction false} PlainWaits(t: Tree, p: seq<Key>)
    ensures Waits(t, p) <==> D.Waits(Plain(t), p)
    ensures Waits(t, p) ==> OnFront(t, p)
    decreases |p|
  {
    PlainParts(t);
    if p != [] && p[0] in t.front.children { PlainWaits(t.front.children[p[0]], p[1..]); }
  }

  lemma {:induction false} PlainErase(t: Tree, p: seq<Key>, k: Key)
    requires Waits(t, p + [k])
    ensures OnFront(t, p) && D.Waits(Plain(t), p + [k])
    ensures Plain(Erase(t, p, k)) == D.Remove(Plain(t), p + [k])
    decreases |p|
  {
    PlainWaits(t, p + [k]);
    PlainParts(t);
    if p == [] {
      PlainDrop(t, k);
    } else {
      assert (p + [k])[1..] == p[1..] + [k];
      PlainErase(t.front.children[p[0]], p[1..], k);
      PlainSetChild(t, p[0], Erase(t.front.children[p[0]], p[1..], k));
    }
  }

  lemma {:induction false} ShapedBusy(t: Tree, a: bool, p: seq<Key>)
    requires T.Shaped(Plain(t), a) && OnFront(t, p) && Vacant(At(t, p))
    ensures p == []
    decreases |p|
  {
    PlainParts(t);
    if p != [] {
      var c := t.front.children[p[0]];
      assert p[0] in Plain(t).front.children && Plain(c) == Plain(t).front.children[p[0]];
      PlainParts(c);
      ShapedBusy(c, a && t.front.siblings == [], p[1..]);
    }
  }

  // An empty chain on the front of the tree waits for its removal.
  lemma {:induction false} VacantWaits(t: Tree, p: seq<Key>)
    requires D.Loose(Plain(t)) && OnFront(t, p) && Vacant(At(t, p))
    ensures Waits(t, p)
    decreases |p|
  {
    PlainParts(t);
    if p != [] {
      var c := t.front.children[p[0]];
      assert p[0] in Plain(t).front.children && Plain(c) == Plain(t).front.children[p[0]];
      if t.front.siblings != [] {
        PlainParts(c);
        ShapedBusy(c, false, p[1..]);
      } else {
        VacantWaits(c, p[1..]);
      }
    }
  }

  // Identities: those of a segment and all below it are older than the next segment.
  ghost predicate Ranged(t: Tree, lo: nat, hi: nat)
    decreases t, 2
  {
    && lo <= t.front.node
    && forall i: nat | i <= |t.later| :: SegmentRanged(SegAt(t, i), End(t, i, hi))
  }

  function SegAt(t: Tree, i: nat): (s: Segment)
    requires i <= |t.later|
    ensures s < t
  {
    if i == 0 then t.front else t.later[i - 1]
  }

  function End(t: Tree, i: nat, hi: nat): nat
    requires i <= |t.later|
  {
    if i < |t.later| then t.later[i].node else hi
  }

  ghost predicate SegmentRanged(s: Segment, hi: nat)
    decreases s, 1
  {
    s.node < hi && forall k | k in s.children :: Ranged(s.children[k], s.node + 1, hi)
  }

  lemma {:induction false} RangedWider(t: Tree, lo: nat, hi: nat, lo': nat, hi': nat)
    requires Ranged(t, lo, hi) && lo' <= lo && hi <= hi'
    ensures Ranged(t, lo', hi')
    decreases t, 1
  {
    forall i: nat | i <= |t.later| ensures SegmentRanged(SegAt(t, i), End(t, i, hi')) {
      SegmentWider(SegAt(t, i), End(t, i, hi), End(t, i, hi'));
    }
  }

  lemma {:induction false} SegmentWider(s: Segment, hi: nat, hi': nat)
    requires SegmentRanged(s, hi) && hi <= hi'
    ensures SegmentRanged(s, hi')
    decreases s, 0
  {
    forall k | k in s.children ensures Ranged(s.children[k], s.node + 1, hi') {
      RangedWider(s.children[k], s.node + 1, hi, s.node + 1, hi');
    }
  }

  lemma FreshRanged(n: nat, a: bool)
    ensures Ranged(Fresh(n, a), n, n + 1)
  {
    assert SegmentRanged(Fresh(n, a).front, n + 1);
  }

  lemma RangedSetLast(t: Tree, s: Segment, lo: nat, hi: nat, hi': nat)
    requires Ranged(t, lo, hi) && s.node == Last(t).node && SegmentRanged(s, hi')
    ensures Ranged(SetLast(t, s), lo, hi')
  {
    var t' := SetLast(t, s);
    forall i: nat | i <= |t'.later| ensures SegmentRanged(SegAt(t', i), End(t', i, hi')) {
      if i < |t.later| { assert SegmentRanged(SegAt(t, i), End(t, i, hi)); }
    }
  }

  lemma RangedAdd(t: Tree, x: nat, lo: nat, n: nat)
    requires Ranged(t, lo, n)
    ensures Ranged(AddSibling(t, x, n), lo, n + 1)
  {
    var s := Last(t);
    assert SegmentRanged(SegAt(t, |t.later|), n);
    if s.children == map[] {
      RangedSetLast(t, s.(siblings := s.siblings + [x], version := s.version + 1), lo, n, n + 1);
    } else {
      var t' := AddSibling(t, x, n);
      forall i: nat | i <= |t'.later| ensures SegmentRanged(SegAt(t', i), End(t', i, n + 1)) {
        if i <= |t.later| { assert SegmentRanged(SegAt(t, i), End(t, i, n)); }
      }
    }
  }

  lemma {:induction false} RangedReserve(t: Tree, p: seq<Key>, x: nat, lo: nat, n: nat)
    requires Ranged(t, lo, n)
    ensures Ranged(Reserve(t, p, x, n), lo, n + |p| + 1)
    decreases |p|
  {
    if p == [] {
      RangedAdd(t, x, lo, n);
    } else {
      var s, k := Last(t), p[0];
      var c := ChildFor(s, k, n);
      var hi := n + |p| + 1;
      assert SegmentRanged(SegAt(t, |t.later|), n);
      SegmentWider(s, n, hi);
      FreshRanged(n, s.active && s.siblings == []);
      if k in s.children {
        RangedWider(c, s.node + 1, n, s.node + 1, n + 1);
      } else {
        RangedWider(c, n, n + 1, s.node + 1, n + 1);
      }
      RangedReserve(c, p[1..], x, s.node + 1, n + 1);
      var s' := s.(version := s.version + 1, children := s.children[k := Reserve(c, p[1..], x, n + 1)]);
      RangedSetLast(t, s', lo, n, hi);
    }
  }

  lemma {:induction false} RangedActivate(s: Segment, hi: nat)
    requires SegmentRanged(s, hi)
    ensures SegmentRanged(ActivateSegment(s), hi)
    decreases s
  {
    if s.siblings == [] {
      forall k | k in s.children ensures Ranged(Activate(s.children[k]), s.node + 1, hi) {
        var c := s.children[k];
        assert Ranged(c, s.node + 1, hi);
        RangedActivate(c.front, End(c, 0, hi));
        RangedFront(c, ActivateSegment(c.front), s.node + 1, hi);
      }
    }
  }

  lemma RangedFront(t: Tree, s: Segment, lo: nat, hi: nat)
    requires Ranged(t, lo, hi) && s.node == t.front.node && SegmentRanged(s, End(t, 0, hi))
    ensures Ranged(t.(front := s), lo, hi)
  {
    var t' := t.(front := s);
    forall i: nat | i <= |t'.later| ensures SegmentRanged(SegAt(t', i), End(t', i, hi)) {
      if i > 0 { assert SegmentRanged(SegAt(t, i), End(t, i, hi)); }
    }
  }

  lemma RangedNext(t: Tree, lo: nat, hi: nat)
    requires Ranged(t, lo, hi)
    ensures Ranged(NextSegment(t), lo, hi)
    ensures t.later != [] ==> lo < t.later[0].node && Ranged(NextSegment(t), t.later[0].node, hi)
  {
    if t.later != [] {
      var t' := NextSegment(t);
      assert SegmentRanged(SegAt(t, 0), End(t, 0, hi));
      forall i: nat | i <= |t'.later| ensures SegmentRanged(SegAt(t', i), End(t', i, hi)) {
        assert SegmentRanged(SegAt(t, i + 1), End(t, i + 1, hi));
        if i == 0 { RangedActivate(t.later[0], End(t, 1, hi)); }
      }
    }
  }

  lemma RangedPopFront(t: Tree, lo: nat, hi: nat)
    requires Ranged(t, lo, hi) && t.front.siblings != []
    ensures Ranged(PopFront(t), lo, hi)
  {
    var s := t.front.(siblings := t.front.siblings[1..]);
    assert SegmentRanged(SegAt(t, 0), End(t, 0, hi));
    assert SegmentRanged(s, End(t, 0, hi));
    RangedActivate(s, End(t, 0, hi));
    RangedFront(t, s, lo, hi);
    RangedFront(t, ActivateSegment(s), lo, hi);
    RangedNext(t.(front := s), lo, hi);
  }

  lemma RangedSetChild(t: Tree, k: Key, c: Tree, lo: nat, hi: nat)
    requires Ranged(t, lo, hi) && Ranged(c, t.front.node + 1, End(t, 0, hi))
    ensures Ranged(SetChild(t, k, c), lo, hi)
  {
    assert SegmentRanged(SegAt(t, 0), End(t, 0, hi));
    RangedFront(t, t.front.(children := t.front.children[k := c]), lo, hi);
  }

  lemma {:induction false} RangedPop(t: Tree, p: seq<Key>, x: nat, lo: nat, hi: nat)
    requires Ranged(t, lo, hi) && IsHead(t, p, x)
    ensures Ranged(Pop(t, p, x), lo, hi)
    decreases |p|
  {
    if p == [] {
      RangedPopFront(t, lo, hi);
    } else {
      assert SegmentRanged(SegAt(t, 0), End(t, 0, hi));
      RangedPop(t.front.children[p[0]], p[1..], x, t.front.node + 1, End(t, 0, hi));
      RangedSetChild(t, p[0], Pop(t.front.children[p[0]], p[1..], x), lo, hi);
    }
  }

  lemma RangedDrop(t: Tree, k: Key, lo: nat, hi: nat)
    requires Ranged(t, lo, hi)
    ensures Ranged(DropChild(t, k), lo, hi)
  {
    var s := t.front.(children := t.front.children - {k});
    assert SegmentRanged(SegAt(t, 0), End(t, 0, hi));
    assert SegmentRanged(s, End(t, 0, hi));
    RangedFront(t, s, lo, hi);
    RangedNext(t.(front := s), lo, hi);
  }

  lemma {:induction false} RangedErase(t: Tree, p: seq<Key>, k: Key, lo: nat, hi: nat)
    requires Ranged(t, lo, hi) && OnFront(t, p)
    ensures Ranged(Erase(t, p, k), lo, hi)
    decreases |p|
  {
    if p == [] {
      RangedDrop(t, k, lo, hi);
    } else {
      assert SegmentRanged(SegAt(t, 0), End(t, 0, hi));
      RangedErase(t.front.children[p[0]], p[1..], k, t.front.node + 1, End(t, 0, hi));
      RangedSetChild(t, p[0], Erase(t.front.children[p[0]], p[1..], k), lo, hi);
    }
  }

  // What a removal that read version v of segment node, of the chain at q, may rely on: a chain that
  // still stands there with this front segment has counted no less, and only an empty one no more.
  ghost predicate Fine(t: Tree, q: seq<Key>, node: nat, v: nat)
    decreases |q|
  {
    && (t.later != [] ==> node < t.later[0].node)
    && if q == [] then t.front.node == node ==> v <= t.front.version && (t.front.version == v ==> Vacant(t))
       else q[0] in t.front.children ==> Fine(t.front.children[q[0]], q[1..], node, v)
  }

  lemma {:induction false} FineNewer(t: Tree, lo: nat, hi: nat, q: seq<Key>, node: nat, v: nat)
    requires Ranged(t, lo, hi) && node < lo
    ensures Fine(t, q, node, v)
    decreases |q|
  {
    assert SegmentRanged(SegAt(t, 0), End(t, 0, hi));
    if q != [] && q[0] in t.front.children {
      FineNewer(t.front.children[q[0]], t.front.node + 1, End(t, 0, hi), q[1..], node, v);
    }
  }

  lemma {:induction false} FineReserve(t: Tree, p: seq<Key>, x: nat, lo: nat, n: nat, q: seq<Key>, node: nat, v: nat)
    requires Ranged(t, lo, n) && Fine(t, q, node, v) && node < n
    ensures Fine(Reserve(t, p, x, n), q, node, v)
    decreases |p|
  {
    if p != [] && t.later == [] {
      var s, k := t.front, p[0];
      var c := ChildFor(s, k, n);
      assert SegmentRanged(SegAt(t, 0), n);
      if q != [] && q[0] == k {
        if k in s.children {
          RangedWider(c, s.node + 1, n, s.node + 1, n + 1);
          FineReserve(c, p[1..], x, s.node + 1, n + 1, q[1..], node, v);
        } else {
          FreshRanged(n, s.active && s.siblings == []);
          RangedReserve(c, p[1..], x, n, n + 1);
          FineNewer(Reserve(c, p[1..], x, n + 1), n, n + 1 + |p|, q[1..], node, v);
        }
      }
    }
  }

  lemma {:induction false} FineActivate(t: Tree, q: seq<Key>, node: nat, v: nat)
    requires Fine(t, q, node, v)
    ensures Fine(Activate(t), q, node, v)
    decreases |q|
  {
    if q == [] {
      assert t.front.children == map[] ==> Activate(t).front.children == map[];
    } else if t.front.siblings == [] && q[0] in t.front.children {
      FineActivate(t.front.children[q[0]], q[1..], node, v);
    }
  }

  lemma FineNext(t: Tree, lo: nat, hi: nat, q: seq<Key>, node: nat, v: nat)
    requires Ranged(t, lo, hi) && Fine(t, q, node, v)
    ensures Fine(NextSegment(t), q, node, v)
  {
    RangedNext(t, lo, hi);
    if t.later != [] { FineNewer(NextSegment(t), t.later[0].node, hi, q, node, v); }
  }

  // The front segment lost a sibling or a child, or was activated.
  lemma FineLess(t: Tree, s: Segment, q: seq<Key>, node: nat, v: nat)
    requires Fine(t, q, node, v) && s.node == t.front.node && s.version == t.front.version && !Vacant(t)
    requires forall k | k in s.children :: k in t.front.children && s.children[k] == t.front.children[k]
    ensures Fine(t.(front := s), q, node, v)
  {}

  lemma FinePopFront(t: Tree, lo: nat, hi: nat, q: seq<Key>, node: nat, v: nat)
    requires Ranged(t, lo, hi) && Fine(t, q, node, v) && t.front.siblings != []
    ensures Fine(PopFront(t), q, node, v)
  {
    var s := t.front.(siblings := t.front.siblings[1..]);
    assert SegmentRanged(SegAt(t, 0), End(t, 0, hi));
    FineLess(t, s, q, node, v);
    FineActivate(t.(front := s), q, node, v);
    assert SegmentRanged(s, End(t, 0, hi));
    RangedFront(t, s, lo, hi);
    FineNext(t.(front := s), lo, hi, q, node, v);
  }

  lemma {:induction false} FinePop(t: Tree, p: seq<Key>, x: nat, lo: nat, hi: nat, q: seq<Key>, node: nat, v: nat)
    requires Ranged(t, lo, hi) && Fine(t, q, node, v) && IsHead(t, p, x)
    ensures Fine(Pop(t, p, x), q, node, v)
    decreases |p|
  {
    if p == [] {
      FinePopFront(t, lo, hi, q, node, v);
    } else if q != [] && q[0] == p[0] {
      assert SegmentRanged(SegAt(t, 0), End(t, 0, hi));
      FinePop(t.front.children[p[0]], p[1..], x, t.front.node + 1, End(t, 0, hi), q[1..], node, v);
    } else {
      assert p[0] in Pop(t, p, x).front.children;
    }
  }

  lemma FineDrop(t: Tree, k: Key, lo: nat, hi: nat, q: seq<Key>, node: nat, v: nat)
    requires Ranged(t, lo, hi) && Fine(t, q, node, v) && k in t.front.children
    ensures Fine(DropChild(t, k), q, node, v)
  {
    var s := t.front.(children := t.front.children - {k});
    assert SegmentRanged(SegAt(t, 0), End(t, 0, hi));
    FineLess(t, s, q, node, v);
    assert SegmentRanged(s, End(t, 0, hi));
    RangedFront(t, s, lo, hi);
    FineNext(t.(front := s), lo, hi, q, node, v);
  }

  lemma {:induction false} FineErase(t: Tree, p: seq<Key>, k: Key, lo: nat, hi: nat, q: seq<Key>, node: nat, v: nat)
    requires Ranged(t, lo, hi) && Fine(t, q, node, v) && OnFront(t, p + [k])
    ensures OnFront(t, p) && Fine(Erase(t, p, k), q, node, v)
    decreases |p|
  {
    if p == [] {
      FineDrop(t, k, lo, hi, q, node, v);
    } else {
      assert (p + [k])[1..] == p[1..] + [k];
      assert SegmentRanged(SegAt(t, 0), End(t, 0, hi));
      OnFrontShorter(t, p, k);
      var c := t.front.children[p[0]];
      assert p[0] in Erase(t, p, k).front.children;
      if q != [] && q[0] == p[0] {
        FineErase(c, p[1..], k, t.front.node + 1, End(t, 0, hi), q[1..], node, v);
      }
    }
  }

  lemma {:induction false} OnFrontShorter(t: Tree, p: seq<Key>, k: Key)
    requires OnFront(t, p + [k])
    ensures OnFront(t, p) && k in At(t, p).front.children && At(t, p + [k]) == At(t, p).front.children[k]
    decreases |p|
  {
    if p != [] {
      assert (p + [k])[1..] == p[1..] + [k];
      OnFrontShorter(t.front.children[p[0]], p[1..], k);
    }
  }

  lemma {:induction false} EndInside(t: Tree, i: nat, lo: nat, hi: nat)
    requires Ranged(t, lo, hi) && i <= |t.later|
    ensures End(t, i, hi) <= hi
    decreases |t.later| - i
  {
    if i < |t.later| {
      EndInside(t, i + 1, lo, hi);
      assert SegmentRanged(SegAt(t, i + 1), End(t, i + 1, hi));
    }
  }

  // A removal may rely on what it has just read of an empty chain.
  lemma {:induction false} FineRead(t: Tree, lo: nat, hi: nat, p: seq<Key>)
    requires Ranged(t, lo, hi) && OnFront(t, p) && Vacant(At(t, p))
    ensures var s := At(t, p).front; lo <= s.node < hi && Fine(t, p, s.node, s.version)
    decreases |p|
  {
    assert SegmentRanged(SegAt(t, 0), End(t, 0, hi));
    if p != [] {
      FineRead(t.front.children[p[0]], t.front.node + 1, End(t, 0, hi), p[1..]);
      EndInside(t, 0, lo, hi);
    }
  }

  // What clean_parent takes along: the chain's path, its parent, and what it read of its front
  // segment. The node is not in the code; it says which segment the version was read of.
  datatype Ticket = Ticket(path: seq<Key>, parent: nat, node: nat, version: nat)

  // The chain at q below t is empty, and the ticket has just been read of it.
  predicate Idle(t: Tree, q: seq<Key>, g: Ticket)
    decreases |q|
  {
    && q != [] && t.front.siblings == [] && q[0] in t.front.children
    && var c := t.front.children[q[0]];
       if |q| == 1 then t.id == g.parent && Vacant(c) && c.front.node == g.node && c.front.version == g.version
       else Idle(c, q[1..], g)
  }

  lemma {:induction false} IdleParts(t: Tree, p: seq<Key>, k: Key, g: Ticket)
    ensures Idle(t, p + [k], g) <==>
      && Waits(t, p + [k]) && OnFront(t, p) && At(t, p).id == g.parent && k in At(t, p).front.children
      && At(t, p).front.children[k].front.node == g.node && At(t, p).front.children[k].front.version == g.version
    decreases |p|
  {
    var q := p + [k];
    if p == [] {
      assert q == [k] && q[1..] == [];
    } else {
      assert q[1..] == p[1..] + [k];
      if p[0] in t.front.children { IdleParts(t.front.children[p[0]], p[1..], k, g); }
    }
  }

  lemma {:induction false} IdleReserve(t: Tree, z: seq<Key>, x: nat, n: nat, q: seq<Key>, g: Ticket)
    requires Idle(t, q, g) && Waits(Reserve(t, z, x, n), q)
    ensures Idle(Reserve(t, z, x, n), q, g)
    decreases |z|
  {
    if z != [] && t.later == [] && q[0] == z[0] {
      var c := t.front.children[q[0]];
      ReserveBusy(c, z[1..], x, n + 1);
      if |q| > 1 { IdleReserve(c, z[1..], x, n + 1, q[1..], g); }
    }
  }

  lemma ReserveBusy(t: Tree, z: seq<Key>, x: nat, n: nat)
    ensures !Vacant(Reserve(t, z, x, n))
  {
    if z != [] && t.later == [] { assert z[0] in Reserve(t, z, x, n).front.children; }
  }

  lemma {:induction false} IdlePop(t: Tree, p: seq<Key>, x: nat, q: seq<Key>, g: Ticket)
    requires Idle(t, q, g) && IsHead(t, p, x)
    ensures Idle(Pop(t, p, x), q, g)
    decreases |p|
  {
    var t' := Pop(t, p, x);
    assert p[0] in t'.front.children && q[0] in t'.front.children;
    if q[0] == p[0] {
      HeadBusy(t.front.children[p[0]], p[1..], x);
      if |q| > 1 { IdlePop(t.front.children[p[0]], p[1..], x, q[1..], g); }
    }
  }

  lemma HeadBusy(t: Tree, p: seq<Key>, x: nat)
    requires IsHead(t, p, x)
    ensures !Vacant(t)
  {}

  lemma {:induction false} IdleErase(t: Tree, p: seq<Key>, k: Key, q: seq<Key>, g: Ticket)
    requires Idle(t, q, g) && Waits(t, p + [k]) && q != p + [k]
    ensures OnFront(t, p) && Idle(Erase(t, p, k), q, g)
    decreases |p|
  {
    PlainWaits(t, p + [k]);
    OnFrontShorter(t, p, k);
    if p == [] {
      assert p + [k] == [k] && (|q| == 1 ==> q == [q[0]]);
      assert |q| > 1 ==> Idle(t.front.children[q[0]], q[1..], g);
      assert q[0] != k;
      assert q[0] in t.front.children - {k};
    } else {
      assert (p + [k])[1..] == p[1..] + [k];
      var c := t.front.children[p[0]];
      assert q[0] in Erase(t, p, k).front.children;
      if q[0] == p[0] {
        PlainWaits(c, p[1..] + [k]);
        OnFrontShorter(c, p[1..], k);
        assert !Vacant(c);
        if |q| > 1 {
          assert q == [q[0]] + q[1..] && p + [k] == [p[0]] + (p[1..] + [k]);
          IdleErase(c, p[1..], k, q[1..], g);
        }
      }
    }
  }

  lemma {:induction false} IdleStays(t: Tree, z: seq<Key>, x: nat, n: nat, q: seq<Key>, g: Ticket)
    requires Idle(t, q, g) && !(q <= z)
    ensures Idle(Reserve(t, z, x, n), q, g)
    decreases |z|
  {
    if z != [] && t.later == [] {
      assert q[0] in Reserve(t, z, x, n).front.children;
      if q[0] == z[0] {
        assert q == [q[0]] + q[1..] && z == [z[0]] + z[1..];
        assert q[1..] <= z[1..] ==> q <= z;
        IdleStays(t.front.children[q[0]], z[1..], x, n + 1, q[1..], g);
      }
    }
  }

  lemma {:induction false} PopOnFront(t: Tree, p: seq<Key>, x: nat)
    requires IsHead(t, p, x)
    ensures OnFront(Pop(t, p, x), p)
    decreases |p|
  {
    if p != [] {
      assert p[0] in Pop(t, p, x).front.children;
      PopOnFront(t.front.children[p[0]], p[1..], x);
    }
  }

  lemma {:induction false} EraseOnFront(t: Tree, p: seq<Key>, k: Key)
    requires OnFront(t, p)
    ensures OnFront(Erase(t, p, k), p) && At(Erase(t, p, k), p) == DropChild(At(t, p), k)
    decreases |p|
  {
    if p != [] {
      assert p[0] in Erase(t, p, k).front.children;
      EraseOnFront(t.front.children[p[0]], p[1..], k);
    }
  }

  lemma {:induction false} WaitsAt(t: Tree, p: seq<Key>)
    requires Waits(t, p)
    ensures OnFront(t, p) && Vacant(At(t, p))
    decreases |p|
  {
    if p != [] { WaitsAt(t.front.children[p[0]], p[1..]); }
  }

  lemma {:induction false} OnFrontLonger(t: Tree, p: seq<Key>, k: Key)
    requires OnFront(t, p) && k in At(t, p).front.children
    ensures OnFront(t, p + [k]) && At(t, p + [k]) == At(t, p).front.children[k]
    decreases |p|
  {
    if p == [] {
      assert (p + [k])[1..] == [];
    } else {
      assert (p + [k])[1..] == p[1..] + [k];
      OnFrontLonger(t.front.children[p[0]], p[1..], k);
    }
  }

  lemma {:induction false} FineAt(t: Tree, q: seq<Key>, node: nat, v: nat)
    requires Fine(t, q, node, v) && OnFront(t, q)
    ensures var c := At(t, q); c.front.node == node && c.front.version == v ==> Vacant(c)
    decreases |q|
  {
    if q != [] { FineAt(t.front.children[q[0]], q[1..], node, v); }
  }

  // The chain from which an empty one is dropped becomes empty iff nothing is left to go on with.
  lemma {:induction false} DropSpent(t: Tree, p: seq<Key>, k: Key)
    requires D.Loose(Plain(t)) && Waits(t, p + [k])
    ensures OnFront(t, p) && OnFront(Erase(t, p, k), p)
    ensures var c := At(t, p);
      Vacant(At(Erase(t, p, k), p)) <==> c.later == [] && c.front.children - {k} == map[]
    decreases |p|
  {
    WaitsAt(t, p + [k]);
    OnFrontShorter(t, p, k);
    EraseOnFront(t, p, k);
    PlainParts(t);
    if p == [] {
      if t.later != [] { assert T.ShapedLater(Plain(t).later[0], 0 == |t.later| - 1); }
    } else {
      assert (p + [k])[1..] == p[1..] + [k];
      var c := t.front.children[p[0]];
      assert p[0] in Plain(t).front.children && Plain(c) == Plain(t).front.children[p[0]];
      assert p[0] in Erase(t, p, k).front.children;
      DropSpent(c, p[1..], k);
    }
  }

  lemma {:induction false} HeadBusyAt(t: Tree, p: seq<Key>, x: nat)
    requires IsHead(t, p, x)
    ensures !Waits(t, p)
    decreases |p|
  {
    if p != [] { HeadBusyAt(t.front.children[p[0]], p[1..], x); }
  }

  // A way down: through the child under the key in the segment at the index.
  datatype Hop = Hop(segment: nat, key: Key)

  // Segment i of the chain at the end of the way w.
  predicate Has(t: Tree, w: seq<Hop>, i: nat)
    decreases |w|
  {
    if w == [] then i <= |t.later|
    else
      && w[0].segment <= |t.later| && w[0].key in SegAt(t, w[0].segment).children
      && Has(SegAt(t, w[0].segment).children[w[0].key], w[1..], i)
  }

  function Get(t: Tree, w: seq<Hop>, i: nat): Segment
    requires Has(t, w, i)
    decreases |w|
  {
    if w == [] then SegAt(t, i) else Get(SegAt(t, w[0].segment).children[w[0].key], w[1..], i)
  }

  // A reservation at p passes this segment or is appended to it: the segment is the last of its chain,
  // all the way, and at the end of p it is not forked.
  predicate Passed(t: Tree, w: seq<Hop>, i: nat, p: seq<Key>)
    requires Has(t, w, i)
    decreases |w|
  {
    if w == [] then i == |t.later| && (p == [] ==> Last(t).children == map[])
    else
      && p != [] && w[0].segment == |t.later| && w[0].key == p[0]
      && Passed(SegAt(t, w[0].segment).children[w[0].key], w[1..], i, p[1..])
  }

  // What a reservation at p that made t' of t did to one segment: it counts, once, in each that it
  // passes or is appended to; those it made begin with this one; all others are as they were.
  ghost predicate Counted(t: Tree, p: seq<Key>, t': Tree, n: nat, w: seq<Hop>, i: nat) {
    if Has(t, w, i) then
      && Has(t', w, i) && Get(t', w, i).node == Get(t, w, i).node
      && Get(t', w, i).version == Get(t, w, i).version + (if Passed(t, w, i, p) then 1 else 0)
    else Has(t', w, i) ==> Get(t', w, i).version == 1 && n <= Get(t', w, i).node
  }

  lemma {:induction false} ReserveCounts(t: Tree, p: seq<Key>, x: nat, n: nat, w: seq<Hop>, i: nat)
    ensures Counted(t, p, Reserve(t, p, x, n), n, w, i)
    decreases |p|
  {
    var t' := Reserve(t, p, x, n);
    if w != [] && w[0].segment <= |t'.later| && w[0].key in SegAt(t', w[0].segment).children {
      if w[0].segment == |t.later| && p != [] && w[0].key == p[0] {
        var c := ChildFor(Last(t), p[0], n);
        ReserveCounts(c, p[1..], x, n + 1, w[1..], i);
        KidCounts(t, p, x, n, w, i);
      } else {
        assert SegAt(t', w[0].segment).children[w[0].key] == SegAt(t, w[0].segment).children[w[0].key];
      }
    }
  }

  lemma KidCounts(t: Tree, p: seq<Key>, x: nat, n: nat, w: seq<Hop>, i: nat)
    requires p != [] && w != [] && w[0] == Hop(|t.later|, p[0])
    requires var c := ChildFor(Last(t), p[0], n); Counted(c, p[1..], Reserve(c, p[1..], x, n + 1), n + 1, w[1..], i)
    ensures Counted(t, p, Reserve(t, p, x, n), n, w, i)
  {
    var c := ChildFor(Last(t), p[0], n);
    assert SegAt(Reserve(t, p, x, n), |t.later|).children[p[0]] == Reserve(c, p[1..], x, n + 1);
    if p[0] !in Last(t).children && Has(c, w[1..], i) { assert w[1..] == [] && i == 0; }
  }

  // A segment with this identity and version is somewhere in the tree.
  ghost predicate Marked(t: Tree, node: nat, v: nat)
    decreases t, 1
  {
    exists i: nat | i <= |t.later| :: SegmentMarked(SegAt(t, i), node, v)
  }

  ghost predicate SegmentMarked(s: Segment, node: nat, v: nat)
    decreases s, 0
  {
    (s.node == node && s.version == v) || exists k | k in s.children :: Marked(s.children[k], node, v)
  }

  lemma MarkedAt(t: Tree, i: nat, node: nat, v: nat)
    requires i <= |t.later| && SegmentMarked(SegAt(t, i), node, v)
    ensures Marked(t, node, v)
  {}

  lemma {:induction false} ActivateMarks(s: Segment, node: nat, v: nat)
    requires SegmentMarked(ActivateSegment(s), node, v)
    ensures SegmentMarked(s, node, v)
    decreases s
  {
    if s.siblings == [] && !(s.node == node && s.version == v) {
      var k :| k in s.children && Marked(Activate(s.children[k]), node, v);
      var c := s.children[k];
      var i: nat :| i <= |c.later| && SegmentMarked(SegAt(Activate(c), i), node, v);
      if i == 0 { ActivateMarks(c.front, node, v); } else { assert SegAt(Activate(c), i) == SegAt(c, i); }
      MarkedAt(c, i, node, v);
    }
  }

  lemma NextMarks(t: Tree, node: nat, v: nat)
    requires Marked(NextSegment(t), node, v)
    ensures Marked(t, node, v)
  {
    if t.later != [] {
      var i: nat :| i < |t.later| && SegmentMarked(SegAt(NextSegment(t), i), node, v);
      if i == 0 { ActivateMarks(t.later[0], node, v); } else { assert SegAt(NextSegment(t), i) == SegAt(t, i + 1); }
      MarkedAt(t, i + 1, node, v);
    }
  }

  lemma FrontMarks(t: Tree, s: Segment, node: nat, v: nat)
    requires Marked(t.(front := s), node, v) && (SegmentMarked(s, node, v) ==> SegmentMarked(t.front, node, v))
    ensures Marked(t, node, v)
  {
    var t' := t.(front := s);
    var i: nat :| i <= |t'.later| && SegmentMarked(SegAt(t', i), node, v);
    assert i > 0 ==> SegAt(t', i) == SegAt(t, i);
    MarkedAt(t, i, node, v);
  }

  lemma SetChildMarks(t: Tree, k: Key, c: Tree, node: nat, v: nat)
    requires Marked(SetChild(t, k, c), node, v) && k in t.front.children
    requires Marked(c, node, v) ==> Marked(t.front.children[k], node, v)
    ensures Marked(t, node, v)
  {
    FrontMarks(t, SetChild(t, k, c).front, node, v);
  }

  lemma DropMarks(t: Tree, k: Key, node: nat, v: nat)
    requires Marked(DropChild(t, k), node, v)
    ensures Marked(t, node, v)
  {
    var t' := t.(front := t.front.(children := t.front.children - {k}));
    if t'.front.children == map[] { NextMarks(t', node, v); }
    FrontMarks(t, t'.front, node, v);
  }

  lemma PopFrontMarks(t: Tree, node: nat, v: nat)
    requires t.front.siblings != [] && Marked(PopFront(t), node, v)
    ensures Marked(t, node, v)
  {
    var s := t.front.(siblings := t.front.siblings[1..]);
    if s.siblings == [] && s.children == map[] {
      NextMarks(t.(front := s), node, v);
      FrontMarks(t, s, node, v);
    } else if s.siblings == [] {
      if SegmentMarked(ActivateSegment(s), node, v) { ActivateMarks(s, node, v); }
      FrontMarks(t, ActivateSegment(s), node, v);
    } else {
      FrontMarks(t, s, node, v);
    }
  }

  // A finalization counts nowhere and makes no segment: what is there afterwards was there before, with
  // its identity and its version.
  lemma {:induction false} PopMarks(t: Tree, p: seq<Key>, x: nat, node: nat, v: nat)
    requires IsHead(t, p, x) && Marked(Pop(t, p, x), node, v)
    ensures Marked(t, node, v)
    decreases |p|
  {
    if p == [] {
      PopFrontMarks(t, node, v);
    } else {
      var c := t.front.children[p[0]];
      if Marked(Pop(c, p[1..], x), node, v) { PopMarks(c, p[1..], x, node, v); }
      SetChildMarks(t, p[0], Pop(c, p[1..], x), node, v);
    }
  }

  // Neither does a removal.
  lemma {:induction false} EraseMarks(t: Tree, p: seq<Key>, k: Key, node: nat, v: nat)
    requires OnFront(t, p) && Marked(Erase(t, p, k), node, v)
    ensures Marked(t, node, v)
    decreases |p|
  {
    if p == [] {
      DropMarks(t, k, node, v);
    } else {
      var c := t.front.children[p[0]];
      if Marked(Erase(c, p[1..], k), node, v) { EraseMarks(c, p[1..], k, node, v); }
      SetChildMarks(t, p[0], Erase(c, p[1..], k), node, v);
    }
  }
}
