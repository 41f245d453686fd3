// Where items sit in a tree.
module Places {
  import opened Tags
  import opened Trees
  import opened Cascade

  ghost function SegAt(t: Tree, i: nat): Segment
    requires i <= |t.later|
  {
    if i == 0 then t.front else t.later[i - 1]
  }

  ghost function SetSeg(t: Tree, i: nat, s: Segment): (r: Tree)
    requires i <= |t.later|
    ensures |r.later| == |t.later|
  {
    if i == 0 then Tree(s, t.later) else Tree(t.front, t.later[i - 1 := s])
  }

  ghost function SetKid(t: Tree, i: nat, k: Key, c: Tree): Tree
    requires i <= |t.later|
  {
    SetSeg(t, i, SegAt(t, i).(children := SegAt(t, i).children[k := c]))
  }

  // Item x sits in a chain at key path q, below any of the segments on the way.
  ghost predicate Occurs(t: Tree, q: seq<Key>, x: nat)
    decreases |q|, 1
  {
    exists i: nat | i <= |t.later| :: OccursIn(SegAt(t, i), q, x)
  }

  ghost predicate OccursIn(s: Segment, q: seq<Key>, x: nat)
    decreases |q|, 0
  {
    if q == [] then x in s.siblings
    else q[0] in s.children && Occurs(s.children[q[0]], q[1..], x)
  }

  // No item sits at two key paths.
  ghost predicate PathUnique(t: Tree) {
    forall q, r, x :: Occurs(t, q, x) && Occurs(t, r, x) ==> q == r
  }

  lemma {:induction false} HeadsOccur(t: Tree, q: seq<Key>, x: nat)
    requires IsHead(t, q, x)
    ensures Occurs(t, q, x)
    decreases |q|
  {
    if q != [] { HeadsOccur(t.front.children[q[0]], q[1..], x); }
    assert OccursIn(SegAt(t, 0), q, x);
  }

  lemma KidOccurs(t: Tree, i: nat, k: Key, q: seq<Key>, x: nat)
    requires i <= |t.later| && k in SegAt(t, i).children && Occurs(SegAt(t, i).children[k], q, x)
    ensures Occurs(t, [k] + q, x)
  {
    assert ([k] + q)[1..] == q;
    assert OccursIn(SegAt(t, i), [k] + q, x);
  }

  lemma KidUnique(t: Tree, i: nat, k: Key)
    requires PathUnique(t) && i <= |t.later| && k in SegAt(t, i).children
    ensures PathUnique(SegAt(t, i).children[k])
  {
    var c := SegAt(t, i).children[k];
    forall q, r, x | Occurs(c, q, x) && Occurs(c, r, x) ensures q == r {
      KidOccurs(t, i, k, q, x);
      KidOccurs(t, i, k, r, x);
      assert ([k] + q)[1..] == q && ([k] + r)[1..] == r;
    }
  }

  lemma KidHeadsApart(t: Tree, i: nat, k: Key, l: Key, x: nat)
    requires PathUnique(t) && i <= |t.later| && k in SegAt(t, i).children && l in SegAt(t, i).children
    requires x in Heads(SegAt(t, i).children[k]) && x in Heads(SegAt(t, i).children[l])
    ensures k == l
  {
    var q := HeadsSound(SegAt(t, i).children[k], x);
    var r := HeadsSound(SegAt(t, i).children[l], x);
    HeadsOccur(SegAt(t, i).children[k], q, x);
    HeadsOccur(SegAt(t, i).children[l], r, x);
    KidOccurs(t, i, k, q, x);
    KidOccurs(t, i, l, r, x);
    assert ([k] + q)[0] == ([l] + r)[0];
  }

  lemma {:induction false} OccursReserve(t: Tree, z: seq<Key>, y: nat, q: seq<Key>, x: nat)
    requires Occurs(Reserve(t, z, y), q, x)
    ensures Occurs(t, q, x) || (q == z && x == y)
    decreases |q|
  {
    var t' := Reserve(t, z, y);
    var i: nat :| i <= |t'.later| && OccursIn(SegAt(t', i), q, x);
    if i < |t.later| || (i == |t.later| && q != [] && (z == [] || q[0] != z[0])) {
      assert OccursIn(SegAt(t, i), q, x);
    } else if q == [] {
      if i <= |t.later| && x in SegAt(t, i).siblings { assert OccursIn(SegAt(t, i), q, x); }
    } else {
      var c := ChildFor(Last(t), z[0]);
      OccursReserve(c, z[1..], y, q[1..], x);
      if Occurs(c, q[1..], x) {
        FreshOccurs(Last(t).active && Last(t).siblings == [], q[1..], x);
        assert OccursIn(SegAt(t, i), q, x);
      } else {
        assert q == [q[0]] + q[1..] && z == [z[0]] + z[1..];
      }
    }
  }

  lemma FreshOccurs(a: bool, q: seq<Key>, x: nat)
    ensures !Occurs(Fresh(a), q, x)
  {}

  lemma {:induction false} SetAtUnique(t: Tree, p: seq<Key>, c: Tree)
    requires OnFront(t, p) && PathUnique(t)
    requires forall q, x :: Occurs(c, q, x) ==> Occurs(At(t, p), q, x)
    ensures PathUnique(SetAt(t, p, c)) && PathUnique(At(t, p))
  {
    forall q, x | Occurs(SetAt(t, p, c), q, x) ensures Occurs(t, q, x) {
      SetAtOccurs(t, p, c, q, x);
    }
    AtUnique(t, p);
  }

  lemma {:induction false} AtUnique(t: Tree, p: seq<Key>)
    requires OnFront(t, p) && PathUnique(t)
    ensures PathUnique(At(t, p))
    decreases |p|
  {
    if p != [] {
      KidUnique(t, 0, p[0]);
      AtUnique(t.front.children[p[0]], p[1..]);
    }
  }

  lemma {:induction false} SetAtOccurs(t: Tree, p: seq<Key>, c: Tree, q: seq<Key>, x: nat)
    requires OnFront(t, p)
    requires forall r, y :: Occurs(c, r, y) ==> Occurs(At(t, p), r, y)
    requires Occurs(SetAt(t, p, c), q, x)
    ensures Occurs(t, q, x)
    decreases |p|
  {
    if p != [] {
      var t' := SetAt(t, p, c);
      var i: nat :| i <= |t'.later| && OccursIn(SegAt(t', i), q, x);
      if i == 0 && q != [] && q[0] == p[0] {
        SetAtOccurs(t.front.children[p[0]], p[1..], c, q[1..], x);
      }
      assert OccursIn(SegAt(t, i), q, x);
    }
  }
}
