// The tree of chains as linked objects, updated in place.
module Chains {
  import opened Tags
  import opened Values
  import opened Lists
  import opened Runques
  import T = Trees
  import C = Cascade
  import opened Places

  // node is the identity of the list node that holds the segment.
  datatype Segment = Segment(node: nat, siblings: seq<nat>, children: map<Key, Chain>, version: nat, active: bool)

  // item_handle_impl: the item's list node, its segment and the chain that owns both
  datatype Handle = Handle(item: nat, segment: nat, owner: Chain)

  // The list nodes of the items: next is the first unused node, values the contents of the filled
  // ones, handles what was handed out for them.
  class Store {
    var next: nat
    var values: map<nat, Value>
    ghost var handles: map<nat, Handle>

    constructor ()
      ensures next == 0 && values == map[] && handles == map[]
    {
      next, values, handles := 0, map[], map[];
    }

    method Add(value: Option<Value>) returns (x: nat)
      modifies this`next, this`values
      ensures x == old(next) && next == x + 1
      ensures values == if value.Some? then old(values)[x := value.value] else old(values)
    {
      x := next;
      next := x + 1;
      if value.Some? { values := values[x := value.value]; }
    }

    ghost predicate Valid()
      reads this
    {
      (forall x: nat :: x in handles <==> x < next) &&
      (forall x | x in handles :: handles[x].item == x) && values.Keys <= handles.Keys
    }
  }

  // A reservation through key k: the child is made if it is missing, and then takes the rest.
  lemma ReserveThrough(t: T.Tree, k: Key, p: seq<Key>, x: nat)
    ensures var c := T.ChildFor(T.Last(t), k);
      var t1 := SetKid(t, |t.later|, k, c);
      && T.Reserve(t, [k] + p, x) == SetKid(t1, |t1.later|, k, T.Reserve(c, p, x))
      && k in T.Last(t1).children && c == T.Last(t1).children[k]
      && T.Lands(t, [k] + p) == T.Lands(c, p)
  {
    var c := T.ChildFor(T.Last(t), k);
    assert ([k] + p)[0] == k && ([k] + p)[1..] == p;
    assert T.Last(t).children[k := c][k := T.Reserve(c, p, x)] == T.Last(t).children[k := T.Reserve(c, p, x)];
  }

  // The tree with the front children under the given keys activated.
  ghost function Partly(t: T.Tree, ks: set<Key>): T.Tree {
    T.Tree(t.front.(children := map k | k in t.front.children ::
      if k in ks then T.Activate(t.front.children[k]) else t.front.children[k]), t.later)
  }

  ghost function HeadsOf(t: T.Tree, ks: set<Key>): set<nat> {
    set k, x | k in ks && k in t.front.children && x in C.Heads(t.front.children[k]) :: x
  }

  ghost function Within(t: T.Tree): T.Tree {
    if t.front.siblings != [] then t else T.Tree(C.ActivateKids(t.front), t.later)
  }

  lemma PartlyAll(t: T.Tree)
    requires t.front.siblings == []
    ensures Partly(t, t.front.children.Keys) == Within(t)
    ensures HeadsOf(t, t.front.children.Keys) == C.SegmentHeads(t.front)
  {
    assert Partly(t, t.front.children.Keys).front.children == T.ActivateSegment(t.front).children;
    forall x: nat ensures x in HeadsOf(t, t.front.children.Keys) <==> x in C.SegmentHeads(t.front) {
      C.KidHeads(t.front, x);
    }
  }

  lemma {:induction false} SetAtAgain(t: T.Tree, p: seq<Key>, c: T.Tree, d: T.Tree)
    requires C.OnFront(t, p)
    ensures C.SetAt(C.SetAt(t, p, c), p, d) == C.SetAt(t, p, d)
    decreases |p|
  {
    if p != [] {
      SetAtAgain(t.front.children[p[0]], p[1..], c, d);
      T.SetChildAgain(t, p[0], C.SetAt(t.front.children[p[0]], p[1..], c), C.SetAt(t.front.children[p[0]], p[1..], d));
    }
  }

  lemma TailUnique(c: T.Tree)
    requires PathUnique(c) && c.later != []
    ensures PathUnique(T.Tree(c.later[0], c.later[1..]))
  {
    var n := T.Tree(c.later[0], c.later[1..]);
    forall q, x | Occurs(n, q, x) ensures Occurs(c, q, x) {
      var i: nat :| i <= |n.later| && OccursIn(SegAt(n, i), q, x);
      assert OccursIn(SegAt(c, i + 1), q, x);
    }
  }

  lemma EraseUnique(t: T.Tree, p: seq<Key>, k: Key)
    requires C.OnFront(t, p) && PathUnique(t)
    ensures var c := C.At(t, p);
      PathUnique(C.SetAt(t, p, T.Tree(c.front.(children := c.front.children - {k}), c.later)))
  {
    var c := C.At(t, p);
    var c' := T.Tree(c.front.(children := c.front.children - {k}), c.later);
    forall q, x | Occurs(c', q, x) ensures Occurs(c, q, x) {
      var i: nat :| i <= |c'.later| && OccursIn(SegAt(c', i), q, x);
      assert OccursIn(SegAt(c, i), q, x);
    }
    SetAtUnique(t, p, c');
  }

  lemma PopUnique(t: T.Tree, p: seq<Key>)
    requires C.OnFront(t, p) && PathUnique(t) && C.At(t, p).front.siblings != []
    ensures var c := C.At(t, p);
      var c' := T.Tree(c.front.(siblings := c.front.siblings[1..]), c.later);
      PathUnique(c') && PathUnique(C.SetAt(t, p, c'))
  {
    var c := C.At(t, p);
    var c' := T.Tree(c.front.(siblings := c.front.siblings[1..]), c.later);
    forall q, x | Occurs(c', q, x) ensures Occurs(c, q, x) {
      var i: nat :| i <= |c'.later| && OccursIn(SegAt(c', i), q, x);
      assert OccursIn(SegAt(c, i), q, x);
    }
    SetAtUnique(t, p, c');
  }

  lemma PartlyMore(t: T.Tree, ks: set<Key>, k: Key)
    requires k in t.front.children && k !in ks
    ensures Partly(t, ks).front.children[k] == t.front.children[k]
    ensures SetKid(Partly(t, ks), 0, k, T.Activate(t.front.children[k])) == Partly(t, ks + {k})
  {
    assert Partly(t, ks).front.children[k := T.Activate(t.front.children[k])] == Partly(t, ks + {k}).front.children;
  }

  lemma HeadsOfMore(t: T.Tree, o: T.Tree, ks: set<Key>, k: Key, items: seq<nat>, more: seq<nat>, filled: set<nat>)
    requires PathUnique(o) && t.front.children == o.front.children && ks <= t.front.children.Keys
    requires k in t.front.children && k !in ks
    requires NoDup(items) && Elements(items) == HeadsOf(t, ks) * filled
    requires NoDup(more) && Elements(more) == C.Heads(t.front.children[k]) * filled
    ensures NoDup(items + more) && Elements(items + more) == HeadsOf(t, ks + {k}) * filled
  {
    forall x | x in Elements(items) && x in Elements(more) ensures false {
      var l :| l in ks && l in t.front.children && x in C.Heads(t.front.children[l]);
      KidHeadsApart(o, 0, k, l, x);
    }
    NoDupConcat(items, more);
    ElementsConcat(items, more);
    assert HeadsOf(t, ks + {k}) == HeadsOf(t, ks) + C.Heads(t.front.children[k]);
  }

  lemma OneLess(all: set<Key>, rest: set<Key>, k: Key)
    requires k in rest && rest <= all
    ensures all - (rest - {k}) == all - rest + {k}
  {}

  lemma Associative(a: seq<nat>, b: seq<nat>, c: seq<nat>)
    ensures a + b + c == a + (b + c)
  {}

  // The tree with a last segment that has no children.
  function Opened(t: T.Tree): T.Tree {
    if T.Last(t).children != map[] then T.Tree(t.front, t.later + [T.Segment([], map[], false)]) else t
  }

  lemma OpenedAdd(t: T.Tree, x: nat)
    ensures var o := Opened(t);
      && T.AddSibling(t, x) == SetSeg(o, |o.later|, T.Last(o).(siblings := T.Last(o).siblings + [x]))
      && T.Lands(t, []) == (T.Last(o).active && T.Last(o).siblings == [])
  {
    var n := T.Segment([x], map[], false);
    assert [] + [x] == [x];
    assert (t.later + [T.Segment([], map[], false)])[|t.later| := n] == t.later + [n];
  }

  class Chain {
    const parent: Chain?
    const kind: Kind
    const tag: seq<Key>
    const runque: Runque<nat>
    const store: Store
    var segments: seq<Segment>
    var nodes: nat
    var interrupted: bool
    // footprint, and the place (segment, key) of the child whose footprint holds a descendant
    ghost var Repr: set<Chain>
    ghost var home: map<Chain, (nat, Key)>

    // The chains from here down are the tree t.
    ghost predicate Represents(t: T.Tree)
      reads this, Repr, store`handles
      decreases t, 0
    {
      && Base()
      && |segments| == 1 + |t.later|
      && (forall i | 0 <= i < |segments| :: Matches(segments[i], SegAt(t, i)))
    }

    ghost predicate Base()
      reads this, Repr
    {
      && this in Repr
      && (forall i | 0 <= i < |segments| :: segments[i].node < nodes)
      && (forall i, j | 0 <= i < j < |segments| :: segments[i].node < segments[j].node)
    }

    ghost predicate Matches(h: Segment, s: T.Segment)
      reads this, Repr, store`handles
      decreases s, 1
    {
      && h.siblings == s.siblings && Issued(h)
      && h.active == s.active
      && h.children.Keys == s.children.Keys
      && forall k | k in s.children :: Child(h.children[k], h.node, k, s.children[k])
    }

    // the handles of the segment's items point here
    ghost predicate Issued(h: Segment)
      reads this, store`handles
    {
      forall x | x in h.siblings :: x in store.handles && store.handles[x] == Handle(x, h.node, this)
    }

    ghost predicate Child(c: Chain, node: nat, k: Key, t: T.Tree)
      reads this, Repr, store`handles
      decreases t, 1
    {
      && Linked(c, node, k)
      && c.Represents(t)
    }

    ghost predicate Linked(c: Chain, node: nat, k: Key)
      reads this, Repr
    {
      && c in Repr && c.Repr <= Repr && this !in c.Repr
      && (forall o | o in c.Repr :: o in home && home[o] == (node, k))
      && c.parent == this && c.kind == kind && c.runque == runque && c.store == store
      && c.tag != [] && c.tag[|c.tag| - 1] == k
    }

    constructor (runque: Runque<nat>, store: Store, parent: Chain?, kind: Kind, tag: seq<Key>, active: bool)
      ensures fresh(Repr) && Represents(T.Fresh(active)) && Repr == {this}
      ensures this.parent == parent && this.kind == kind && this.tag == tag &&
        this.runque == runque && this.store == store
      ensures !interrupted
    {
      this.parent, this.kind, this.tag, this.runque, this.store := parent, kind, tag, runque, store;
      segments := [Segment(0, [], map[], 0, active)];
      nodes := 1;
      interrupted := false;
      Repr, home := {this}, map[];
    }

    // Handles are handed out, never changed.
    twostate predicate HandlesKept()
      reads store`handles
    {
      forall x | x in old(store.handles) :: x in store.handles && store.handles[x] == old(store.handles[x])
    }

    twostate lemma {:induction false} Framed(t: T.Tree)
      requires old(Represents(t)) && HandlesKept() && forall o | o in old(Repr) :: unchanged(o)
      ensures Represents(t)
      decreases t
    {
      forall i | 0 <= i < |segments| ensures Matches(segments[i], SegAt(t, i)) {
        assert old(Matches(segments[i], SegAt(t, i)));
        forall k | k in SegAt(t, i).children
          ensures Child(segments[i].children[k], segments[i].node, k, SegAt(t, i).children[k]) {
          assert old(Child(segments[i].children[k], segments[i].node, k, SegAt(t, i).children[k]));
          segments[i].children[k].Framed(SegAt(t, i).children[k]);
        }
      }
    }

    // The child at the given place was worked on; home and Repr grew accordingly.
    twostate predicate WorkedOn(new w: Work)
      requires w.i < old(|segments|)
      reads this, Repr, w.child
    {
      && segments == old(segments) && nodes == old(nodes)
      && Repr == old(Repr) + w.child.Repr && this !in w.child.Repr
      && (forall o | o in old(home) :: o in home && home[o] == old(home[o]))
      && (forall o | o in w.child.Repr :: o in home && home[o] == (segments[w.i].node, w.key))
    }

    // The children at the other places are as they were.
    twostate lemma ChildChanged(t: T.Tree, new w: Work)
      requires old(Represents(t)) && w.i < old(|segments|) && w.key in SegAt(t, w.i).children
      requires w.key in old(segments)[w.i].children && w.child == old(segments)[w.i].children[w.key]
      requires HandlesKept() && WorkedOn(w) && w.child.Represents(w.result)
      requires forall o | o in old(Repr) && o != this && o !in old(w.child.Repr) :: unchanged(o)
      ensures Represents(SetKid(t, w.i, w.key, w.result))
    {
      var i, k, d := w.i, w.key, w.child;
      var t' := SetKid(t, i, k, w.result);
      assert old(Matches(segments[i], SegAt(t, i)));
      assert old(Child(d, segments[i].node, k, SegAt(t, i).children[k]));
      forall j | 0 <= j < |segments| ensures Matches(segments[j], SegAt(t', j)) {
        assert old(Matches(segments[j], SegAt(t, j)));
        forall l | l in SegAt(t', j).children
          ensures Child(segments[j].children[l], segments[j].node, l, SegAt(t', j).children[l]) {
          if (i, k) != (j, l) {
            var e := segments[j].children[l];
            assert old(Child(e, segments[j].node, l, SegAt(t, j).children[l]));
            assert old(segments[i].node) == old(segments[j].node) ==> i == j;
            assert forall o | o in old(e.Repr) :: unchanged(o);
            e.Framed(SegAt(t, j).children[l]);
          }
        }
      }
    }

    // Segment i now holds what segment i + gone held, apart from children that were dropped.
    twostate predicate Moved(m: Move, i: nat)
      requires old(Represents(m.tree))
      reads this
    {
      && i < |segments| && i <= |m.result.later|
      && segments[i].siblings == SegAt(m.result, i).siblings
      && segments[i].active == SegAt(m.result, i).active
      && segments[i].children.Keys == SegAt(m.result, i).children.Keys
      && forall k | k in SegAt(m.result, i).children ::
        && i + m.gone < old(|segments|)
        && segments[i].node == old(segments[i + m.gone].node)
        && k in old(segments[i + m.gone].children)
        && segments[i].children[k] == old(segments[i + m.gone].children[k])
        && k in SegAt(m.tree, i + m.gone).children
        && SegAt(m.result, i).children[k] == SegAt(m.tree, i + m.gone).children[k]
    }

    // The segments were rearranged without touching any child.
    twostate lemma Rearranged(m: Move)
      requires old(Represents(m.tree)) && Repr == old(Repr) && home == old(home) && Base()
      requires forall o | o in Repr && o != this :: unchanged(o)
      requires |segments| == 1 + |m.result.later|
      requires HandlesKept() && forall i | 0 <= i < |segments| :: Moved(m, i) && Issued(segments[i])
      ensures Represents(m.result)
    {
      forall i | 0 <= i < |segments| ensures Matches(segments[i], SegAt(m.result, i)) {
        assert Moved(m, i);
        forall k | k in SegAt(m.result, i).children
          ensures Child(segments[i].children[k], segments[i].node, k, SegAt(m.result, i).children[k]) {
          var e := segments[i].children[k];
          assert old(Matches(segments[i + m.gone], SegAt(m.tree, i + m.gone)));
          assert old(Child(e, segments[i + m.gone].node, k, SegAt(m.tree, i + m.gone).children[k]));
          e.Framed(SegAt(m.tree, i + m.gone).children[k]);
        }
      }
    }

    // One segment was changed without touching any child.
    twostate lemma SegmentChanged(c: Change)
      requires old(Represents(c.tree)) && Repr == old(Repr) && home == old(home) && nodes == old(nodes)
      requires forall o | o in Repr && o != this :: unchanged(o)
      requires HandlesKept() && c.i < old(|segments|) && |segments| == old(|segments|)
      requires forall j | 0 <= j < |segments| && j != c.i :: segments[j] == old(segments)[j]
      requires segments[c.i].node == old(segments)[c.i].node && Issued(segments[c.i])
      requires segments[c.i].siblings == c.segment.siblings && segments[c.i].active == c.segment.active
      requires segments[c.i].children.Keys == c.segment.children.Keys
      requires forall k | k in c.segment.children ::
        && k in old(segments)[c.i].children && segments[c.i].children[k] == old(segments)[c.i].children[k]
        && k in SegAt(c.tree, c.i).children && c.segment.children[k] == SegAt(c.tree, c.i).children[k]
      ensures Represents(SetSeg(c.tree, c.i, c.segment))
    {
      var m := Move(c.tree, SetSeg(c.tree, c.i, c.segment), 0);
      forall j | 0 <= j < |segments| ensures Moved(m, j) && Issued(segments[j]) {
        assert old(Matches(segments[j], SegAt(c.tree, j)));
      }
      Rearranged(m);
    }

    // A reservation that passes counts in the version of the last segment, which starts at 0.
    twostate predicate Counted()
      reads this
    {
      && 0 < old(|segments|) <= |segments| <= old(|segments|) + 1
      && segments[|segments| - 1].version ==
           (if |segments| == old(|segments|) then old(segments)[|segments| - 1].version else 0) + 1
      && forall i | 0 <= i < |segments| - 1 :: segments[i].version == old(segments)[i].version
    }

    // Makes sure that the last segment has no children.
    method OpenSegment(ghost t: T.Tree)
      requires Represents(t)
      modifies this`segments, this`nodes
      ensures Represents(Opened(t))
      ensures old(segments) != [] && old(segments) <= segments && |segments| <= old(|segments|) + 1
      ensures |segments| > old(|segments|) ==> segments[|segments| - 1].version == 0
    {
      assert Matches(segments[|segments| - 1], SegAt(t, |t.later|));
      if |segments| == 0 || segments[|segments| - 1].children != map[] {
        segments := segments + [Segment(nodes, [], map[], 0, false)];
        nodes := nodes + 1;
        ghost var m := Move(t, Opened(t), 0);
        forall i | 0 <= i < |segments| ensures Moved(m, i) && Issued(segments[i]) {
          if i <= |t.later| { assert old(Matches(segments[i], SegAt(t, i))); }
        }
        Rearranged(m);
      }
    }

    // Pushes list node x into the last segment, or into a new segment behind a forked one.
    method PushSibling(x: nat, ghost t: T.Tree) returns (ready: bool, node: nat)
      requires Represents(t)
      requires x !in store.handles
      modifies this`segments, this`nodes, store`handles
      ensures Represents(T.AddSibling(t, x)) && Counted()
      ensures ready == T.Lands(t, [])
      ensures store.handles == old(store.handles)[x := Handle(x, node, this)]
    {
      OpenSegment(t);
      ghost var o := Opened(t);
      OpenedAdd(t, x);
      ready, node := Push(x, o);
    }

    method Push(x: nat, ghost t: T.Tree) returns (ready: bool, node: nat)
      requires Represents(t) && x !in store.handles
      modifies this`segments, store`handles
      ensures Represents(SetSeg(t, |t.later|, T.Last(t).(siblings := T.Last(t).siblings + [x])))
      ensures |segments| == old(|segments|) && Counted()
      ensures ready == (T.Last(t).active && T.Last(t).siblings == [])
      ensures store.handles == old(store.handles)[x := Handle(x, node, this)]
    {
      var last := |segments| - 1;
      assert Matches(segments[last], SegAt(t, last));
      var s := segments[last];
      ready := s.active && s.siblings == [];
      node := s.node;
      segments := segments[last := s.(siblings := s.siblings + [x], version := s.version + 1)];
      store.handles := store.handles[x := Handle(x, node, this)];
      SegmentChanged(Change(t, last, T.Last(t).(siblings := T.Last(t).siblings + [x])));
    }

    method Offer(x: nat)
      requires runque.Valid() && !runque.interrupted
      modifies runque, runque.Cells()
      ensures Put([x])
    {
      var ok := runque.Put(x);
    }

    method AddSibling(value: Option<Value>, ghost t: T.Tree) returns (h: Handle)
      requires Represents(t) && store.Valid() && runque.Valid() && !runque.interrupted
      modifies this`segments, this`nodes, store, runque, runque.Cells()
      ensures Represents(T.AddSibling(t, old(store.next))) && Counted()
      ensures Booked(h, value, T.Lands(t, []))
    {
      var ready;
      h, ready := NewItem(value, t);
      if value.Some? && ready { Offer(h.item); }
    }

    method NewItem(value: Option<Value>, ghost t: T.Tree) returns (h: Handle, ready: bool)
      requires Represents(t) && store.Valid()
      modifies this`segments, this`nodes, store
      ensures Represents(T.AddSibling(t, old(store.next))) && Counted() && ready == T.Lands(t, [])
      ensures h.item == old(store.next) && store.next == h.item + 1 && store.Valid()
      ensures store.handles == old(store.handles)[h.item := h]
      ensures store.values == if value.Some? then old(store.values)[h.item := value.value] else old(store.values)
    {
      var x := store.Add(value);
      var node;
      ready, node := PushSibling(x, t);
      h := Handle(x, node, this);
    }

    // The effect of a reservation outside the tree: the next item exists, holds the value, and was
    // offered if it was filled and landed at the front.
    twostate predicate Booked(new h: Handle, value: Option<Value>, lands: bool)
      reads store, runque, runque.Getters()
    {
      var x := old(store.next);
      && h.item == x && store.Valid() && store.handles == old(store.handles)[x := h]
      && store.next == x + 1
      && store.values == (if value.Some? then old(store.values)[x := value.value] else old(store.values))
      && runque.Valid() && !runque.interrupted
      && runque.Cells() <= old(runque.Cells())
      && runque.log == old(runque.log) + (if value.Some? && lands then [x] else []) && runque.Handed()
    }

    // A new child was put at the given place.
    twostate lemma ChildAdded(t: T.Tree, new w: Work)
      requires old(Represents(t)) && w.i < old(|segments|)
      requires var s := old(segments)[w.i];
        w.key !in s.children &&
        segments == old(segments)[w.i := s.(version := s.version + 1, children := s.children[w.key := w.child])]
      requires nodes == old(nodes) && home == old(home)[w.child := (old(segments)[w.i].node, w.key)]
      requires w.child !in old(home) && w.child.Repr == {w.child} && Repr == old(Repr) + {w.child}
      requires Linked(w.child, old(segments)[w.i].node, w.key)
      requires HandlesKept() && w.child.Represents(w.result)
      requires forall o | o in old(Repr) && o != this :: unchanged(o)
      ensures Represents(SetKid(t, w.i, w.key, w.result))
    {
      var i, k := w.i, w.key;
      var t' := SetKid(t, i, k, w.result);
      forall j | 0 <= j < |segments| ensures Matches(segments[j], SegAt(t', j)) {
        assert old(Matches(segments[j], SegAt(t, j)));
        forall l | l in SegAt(t', j).children
          ensures Child(segments[j].children[l], segments[j].node, l, SegAt(t', j).children[l]) {
          if (i, k) != (j, l) {
            var e := old(segments[j].children[l]);
            assert old(Child(e, segments[j].node, l, SegAt(t, j).children[l]));
            e.Framed(SegAt(t, j).children[l]);
          }
        }
      }
    }

    // ensure_child: the child for the view's key in the last segment, created if there is none
    method EnsureChild(v: View, ghost t: T.Tree) returns (child: Chain)
      requires Represents(t) && v.Valid()
      modifies this`segments, this`home, this`Repr
      ensures Counted() && v.Key() in segments[|segments| - 1].children
      ensures child == segments[|segments| - 1].children[v.Key()]
      ensures Represents(SetKid(t, |t.later|, v.Key(), T.ChildFor(T.Last(t), v.Key())))
      ensures old(Repr) <= Repr && fresh(Repr - old(Repr)) && child in Repr
      ensures forall o | o in Repr - old(Repr) :: o == child && child.tag == v.Sub()
    {
      var last := |segments| - 1;
      assert Matches(segments[last], SegAt(t, last));
      var k := v.Key();
      if k in segments[last].children {
        child := segments[last].children[k];
        assert Child(child, segments[last].node, k, T.Last(t).children[k]);
        segments := segments[last := segments[last].(version := segments[last].version + 1)];
        SegmentChanged(Change(t, last, T.Last(t)));
        assert T.Last(t).children[k := T.Last(t).children[k]] == T.Last(t).children;
      } else {
        child := NewChild(v, t);
      }
    }

    method NewChild(v: View, ghost t: T.Tree) returns (child: Chain)
      requires Represents(t) && v.Valid() && v.Key() !in segments[|segments| - 1].children
      modifies this`segments, this`home, this`Repr
      ensures Counted() && v.Key() in segments[|segments| - 1].children
      ensures child == segments[|segments| - 1].children[v.Key()] && child.tag == v.Sub()
      ensures Represents(SetKid(t, |t.later|, v.Key(), T.ChildFor(T.Last(t), v.Key())))
      ensures Repr == old(Repr) + {child} && fresh(child)
    {
      var last := |segments| - 1;
      assert Matches(segments[last], SegAt(t, last));
      var s, k := segments[last], v.Key();
      child := new Chain(runque, store, this, kind, v.Sub(), s.active && s.siblings == []);
      segments := segments[last := s.(version := s.version + 1, children := s.children[k := child])];
      home := home[child := (s.node, k)];
      Repr := Repr + {child};
      ChildAdded(t, Work(last, k, child, T.ChildFor(T.Last(t), k)));
    }

    // The keys below this chain for a reservation that enters it with view v.
    function Rest(v: View): seq<Key>
      requires v.Valid()
    {
      if kind == Static && tag == [] then [v.Key()] + Walk(v) else Walk(v)
    }

    method ReserveIn(v: View, value: Option<Value>, ghost t: T.Tree) returns (h: Handle)
      requires v.Valid() && Represents(t) && store.Valid() && runque.Valid() && !runque.interrupted
      modifies Repr, store, runque, runque.Cells()
      ensures old(Repr) <= Repr && fresh(Repr - old(Repr))
      ensures Represents(T.Reserve(t, Rest(v), old(store.next)))
      ensures interrupted == old(interrupted) && Counted()
      ensures Booked(h, value, T.Lands(t, Rest(v)))
      decreases |Rest(v)|, 3
    {
      if kind == Static && tag == [] {
        h := ReserveChild(v, value, t);
      } else if v.Last() {
        h := AddSibling(value, t);
      } else {
        h := ReserveChild(v.Next(), value, t);
      }
    }

    method ReserveChild(v: View, value: Option<Value>, ghost t: T.Tree) returns (h: Handle)
      requires v.Valid() && Represents(t) && store.Valid() && runque.Valid() && !runque.interrupted
      modifies Repr, store, runque, runque.Cells()
      ensures old(Repr) <= Repr && fresh(Repr - old(Repr))
      ensures Represents(T.Reserve(t, [v.Key()] + Walk(v), old(store.next)))
      ensures interrupted == old(interrupted) && Counted()
      ensures Booked(h, value, T.Lands(t, [v.Key()] + Walk(v)))
      decreases 1 + |Walk(v)|, 2
    {
      ghost var c := T.ChildFor(T.Last(t), v.Key());
      ghost var t1 := SetKid(t, |t.later|, v.Key(), c);
      ReserveThrough(t, v.Key(), Walk(v), store.next);
      var child := EnsureChild(v, t);
      label Ensured:
      assert Counted();
      h := Descend(v, child, value, t1, c);
      assert Counted() by { assert segments == old@Ensured(segments); }
    }

    // Passes the reservation on to the child found for it.
    method Descend(v: View, child: Chain, value: Option<Value>, ghost t: T.Tree, ghost c: T.Tree) returns (h: Handle)
      requires v.Valid() && Represents(t) && store.Valid() && runque.Valid() && !runque.interrupted
      requires v.Key() in segments[|segments| - 1].children && child == segments[|segments| - 1].children[v.Key()]
      requires v.Key() in T.Last(t).children && c == T.Last(t).children[v.Key()]
      modifies Repr, store, runque, runque.Cells()
      ensures old(Repr) <= Repr && fresh(Repr - old(Repr))
      ensures Represents(SetKid(t, |t.later|, v.Key(), T.Reserve(c, Walk(v), old(store.next))))
      ensures interrupted == old(interrupted) && segments == old(segments)
      ensures Booked(h, value, T.Lands(c, Walk(v)))
      decreases 1 + |Walk(v)|, 1
    {
      var last := |segments| - 1;
      assert Matches(segments[last], SegAt(t, last));
      assert Child(child, segments[last].node, v.Key(), c);
      ghost var w := Work(last, v.Key(), child, T.Reserve(c, Walk(v), store.next));
      h := Enter(v, child, value, w, c);
      ChildChanged(t, w);
    }

    method Enter(v: View, child: Chain, value: Option<Value>, ghost w: Work, ghost c: T.Tree) returns (h: Handle)
      requires v.Valid() && store.Valid() && runque.Valid() && !runque.interrupted
      requires w.i < |segments| && w.key == v.Key() && w.child == child && child.tag != []
      requires this in Repr && Linked(child, segments[w.i].node, w.key) && child.Represents(c)
      requires w.result == T.Reserve(c, Walk(v), store.next)
      modifies this`Repr, this`home, child.Repr, store, runque, runque.Cells()
      ensures old(Repr) <= Repr && fresh(Repr - old(Repr))
      ensures WorkedOn(w) && w.child.Represents(w.result)
      ensures Booked(h, value, T.Lands(c, Walk(v)))
      decreases 1 + |Walk(v)|, 0
    {
      h := child.ReserveIn(v, value, c);
      Adopt(w);
    }

    // The footprint grows with that of a child.
    ghost method Adopt(w: Work)
      requires w.i < |segments|
      modifies this`Repr, this`home
      ensures Repr == old(Repr) + w.child.Repr
      ensures forall o | o in w.child.Repr :: o in home && home[o] == (segments[w.i].node, w.key)
      ensures forall o | o in old(home) && o !in w.child.Repr :: o in home && home[o] == old(home[o])
    {
      Repr := Repr + w.child.Repr;
      home := home + map o | o in w.child.Repr :: (segments[w.i].node, w.key);
    }

    method Interrupt(ghost t: T.Tree)
      requires Represents(t) && runque.Valid()
      modifies this`interrupted, runque, runque.Cells()
      ensures Represents(t) && interrupted
      ensures runque.Valid() && runque.log == old(runque.log) &&
        runque.items == old(runque.items) && runque.given == old(runque.given)
      ensures if runque.interrupted == old(runque.interrupted) then runque.Handed() else runque.Closed()
      ensures runque.interrupted ==
        (old(runque.interrupted) || (!old(interrupted) && t.front.siblings == [] && t.front.children == map[]))
    {
      assert Matches(segments[0], SegAt(t, 0));
      if !interrupted {
        MarkInterrupted(t);
        if segments[0].siblings == [] && segments[0].children == map[] {
          runque.Interrupt();
        }
      }
    }

    method MarkInterrupted(ghost t: T.Tree)
      requires Represents(t)
      modifies this`interrupted
      ensures Represents(t) && interrupted
    {
      assert forall i | 0 <= i < |segments| :: Matches(segments[i], SegAt(t, i));
      interrupted := true;
      ghost var m := Move(t, t, 0);
      forall i | 0 <= i < |segments| ensures Moved(m, i) && Issued(segments[i]) {}
      Rearranged(m);
    }

    // The handle of an item names the chain that holds it, whatever became of the tree since.
    lemma {:induction false} ItemOwner(t: T.Tree, q: seq<Key>, x: nat) returns (c: Chain, u: T.Tree, i: nat)
      requires Represents(t) && Occurs(t, q, x)
      ensures c in Repr && c.Represents(u) && i <= |u.later| && x in SegAt(u, i).siblings
      ensures c.runque == runque && c.store == store
      ensures |c.segments| == |u.later| + 1 && x in store.handles &&
        store.handles[x] == Handle(x, c.segments[i].node, c)
      ensures u.front.active && u.front.siblings != [] && u.front.siblings[0] == x ==> C.FrontOf(t, x)
      decreases |q|
    {
      i :| i <= |t.later| && OccursIn(SegAt(t, i), q, x);
      assert Matches(segments[i], SegAt(t, i));
      if q == [] {
        c, u := this, t;
      } else {
        var d := segments[i].children[q[0]];
        var e := SegAt(t, i).children[q[0]];
        assert Child(d, segments[i].node, q[0], e);
        var j: nat;
        c, u, j := d.ItemOwner(e, q[1..], x);
        assert C.FrontOf(e, x) ==> C.FrontOfKid(SegAt(t, i), x);
        i := j;
      }
    }

    lemma {:induction false} FrontOwner(t: T.Tree, x: nat) returns (c: Chain, u: T.Tree)
      requires Represents(t) && C.FrontOf(t, x)
      ensures c in Repr && c.Represents(u) && u.front.active && u.front.siblings != [] && u.front.siblings[0] == x
      ensures |c.segments| > 0 && x in store.handles && store.handles[x] == Handle(x, c.segments[0].node, c)
      decreases t
    {
      assert Matches(segments[0], SegAt(t, 0));
      if t.front.active && t.front.siblings != [] && t.front.siblings[0] == x {
        c, u := this, t;
      } else {
        var i: nat := 0;
        if !C.FrontOfKid(t.front, x) {
          var j :| 0 <= j < |t.later| && C.FrontOfKid(t.later[j], x);
          i := j + 1;
        }
        var k :| k in SegAt(t, i).children && C.FrontOf(SegAt(t, i).children[k], x);
        assert Matches(segments[i], SegAt(t, i));
        assert Child(segments[i].children[k], segments[i].node, k, SegAt(t, i).children[k]);
        c, u := segments[i].children[k].FrontOwner(SegAt(t, i).children[k], x);
      }
    }

    // Offers the first sibling of the front segment if it is filled.
    method ActivateSibling(ghost t: T.Tree) returns (ghost items: seq<nat>)
      requires Represents(t) && t.front.siblings != [] && runque.Valid() && !runque.interrupted
      modifies runque, runque.Cells()
      ensures Put(items)
      ensures NoDup(items) && Elements(items) == {t.front.siblings[0]} * store.values.Keys
    {
      assert Matches(segments[0], t.front);
      var x := segments[0].siblings[0];
      items := [];
      if x in store.values {
        Offer(x);
        items := [x];
      }
    }

    // The items were put into the run queue, in this order.
    twostate predicate Put(items: seq<nat>)
      reads runque, runque.Getters()
    {
      && runque.Valid() && !runque.interrupted
      && runque.Cells() <= old(runque.Cells())
      && runque.log == old(runque.log) + items && runque.Handed()
    }

    method ActivateFront(ghost t: T.Tree) returns (ghost items: seq<nat>)
      requires Represents(t) && PathUnique(t) && runque.Valid() && !runque.interrupted
      modifies Repr`segments, runque, runque.Cells()
      ensures Represents(T.Activate(t)) && Repr == old(Repr)
      ensures Put(items)
      ensures NoDup(items) && Elements(items) == C.Heads(t) * store.values.Keys
      decreases t, 3
    {
      MarkActive(t);
      ghost var t1 := T.Tree(t.front.(active := true), t.later);
      assert Matches(segments[0], SegAt(t1, 0));
      if segments[0].siblings != [] {
        items := ActivateSibling(t1);
      } else {
        items := ActivateChildren(t1, t);
        PartlyAll(t1);
        assert T.ActivateSegment(t1.front) == T.ActivateSegment(t.front);
      }
    }

    method MarkActive(ghost t: T.Tree)
      requires Represents(t)
      modifies this`segments
      ensures Represents(T.Tree(t.front.(active := true), t.later))
      ensures segments == old(segments)[0 := old(segments)[0].(active := true)]
    {
      assert Matches(segments[0], SegAt(t, 0));
      segments := segments[0 := segments[0].(active := true)];
      SegmentChanged(Change(t, 0, t.front.(active := true)));
    }

    method ActivateChildren(ghost t: T.Tree, ghost o: T.Tree) returns (ghost items: seq<nat>)
      requires Represents(t) && PathUnique(o) && runque.Valid() && !runque.interrupted
      requires t.front.siblings == [] && t.front.children == o.front.children
      modifies Repr`segments, runque, runque.Cells()
      ensures Represents(Partly(t, t.front.children.Keys)) && Repr == old(Repr)
      ensures Put(items)
      ensures NoDup(items) && Elements(items) == HeadsOf(t, t.front.children.Keys) * store.values.Keys
      decreases o, 2
    {
      assert Matches(segments[0], SegAt(t, 0));
      items := [];
      ghost var all := t.front.children.Keys;
      var rest := segments[0].children.Keys;
      assert Partly(t, all - rest) == t;
      while rest != {}
        invariant rest <= all
        invariant Represents(Partly(t, all - rest))
        invariant Put(items)
        invariant NoDup(items) && Elements(items) == HeadsOf(t, all - rest) * store.values.Keys
      {
        var k: Key :| k in rest;
        ghost var more := ActivateNext(k, t, o, all - rest, items);
        OneLess(all, rest, k);
        Associative(old(runque.log), items, more);
        items := items + more;
        rest := rest - {k};
      }
      assert all - rest == all;
    }

    // One round of the loop: the children under ks are active already and offered items.
    method ActivateNext(k: Key, ghost t: T.Tree, ghost o: T.Tree, ghost ks: set<Key>, ghost items: seq<nat>)
      returns (ghost more: seq<nat>)
      requires Represents(Partly(t, ks)) && PathUnique(o) && runque.Valid() && !runque.interrupted
      requires t.front.children == o.front.children && ks <= t.front.children.Keys && k in t.front.children && k !in ks
      requires NoDup(items) && Elements(items) == HeadsOf(t, ks) * store.values.Keys
      modifies Repr`segments, runque, runque.Cells()
      ensures Represents(Partly(t, ks + {k})) && Repr == old(Repr)
      ensures Put(more)
      ensures NoDup(items + more) && Elements(items + more) == HeadsOf(t, ks + {k}) * store.values.Keys
      decreases o, 1
    {
      PartlyMore(t, ks, k);
      more := ActivateChild(k, Partly(t, ks), o);
      HeadsOfMore(t, o, ks, k, items, more, store.values.Keys);
    }

    method ActivateChild(k: Key, ghost t: T.Tree, ghost o: T.Tree) returns (ghost items: seq<nat>)
      requires Represents(t) && PathUnique(o) && runque.Valid() && !runque.interrupted
      requires k in t.front.children && k in o.front.children && t.front.children[k] == o.front.children[k]
      modifies Repr`segments, runque, runque.Cells()
      ensures Represents(SetKid(t, 0, k, T.Activate(t.front.children[k]))) && Repr == old(Repr)
      ensures Put(items)
      ensures NoDup(items) && Elements(items) == C.Heads(t.front.children[k]) * store.values.Keys
      decreases o, 0
    {
      ghost var c := t.front.children[k];
      assert Matches(segments[0], SegAt(t, 0));
      var child := segments[0].children[k];
      assert Child(child, segments[0].node, k, c);
      KidUnique(o, 0, k);
      items := child.ActivateFront(c);
      ChildChanged(t, Work(0, k, child, T.Activate(c)));
    }

    // Chain c is found from this chain along path p of front segments.
    ghost predicate Reaches(t: T.Tree, p: seq<Key>, c: Chain)
      requires Represents(t) && C.OnFront(t, p)
      reads this, Repr, store`handles
      decreases |p|
    {
      if p == [] then c == this
      else
        assert Matches(segments[0], SegAt(t, 0));
        assert Child(segments[0].children[p[0]], segments[0].node, p[0], t.front.children[p[0]]);
        segments[0].children[p[0]].Reaches(t.front.children[p[0]], p[1..], c)
    }

    lemma {:induction false} ReachesSome(t: T.Tree, p: seq<Key>) returns (c: Chain)
      requires Represents(t) && C.OnFront(t, p)
      ensures Reaches(t, p, c)
      decreases |p|
    {
      if p == [] {
        c := this;
      } else {
        assert Matches(segments[0], SegAt(t, 0));
        var d := segments[0].children[p[0]];
        assert Child(d, segments[0].node, p[0], t.front.children[p[0]]);
        c := d.ReachesSome(t.front.children[p[0]], p[1..]);
      }
    }

    lemma {:induction false} ReachesChain(t: T.Tree, p: seq<Key>, c: Chain)
      requires Represents(t) && C.OnFront(t, p) && Reaches(t, p, c)
      ensures c.Represents(C.At(t, p)) && c in Repr && c.Repr <= Repr
      ensures c.runque == runque && c.store == store && c.kind == kind
      ensures p != [] ==> c.tag != [] && c.tag[|c.tag| - 1] == p[|p| - 1]
      decreases |p|
    {
      if p != [] {
        assert Matches(segments[0], SegAt(t, 0));
        var d := segments[0].children[p[0]];
        assert Child(d, segments[0].node, p[0], t.front.children[p[0]]);
        d.ReachesChain(t.front.children[p[0]], p[1..], c);
      }
    }

    lemma {:induction false} ReachesParent(t: T.Tree, p: seq<Key>, c: Chain)
      requires Represents(t) && C.OnFront(t, p) && Reaches(t, p, c) && p != []
      ensures C.OnFront(t, p[..|p| - 1])
      ensures c.parent != null && Reaches(t, p[..|p| - 1], c.parent)
      ensures c.parent.segments != [] && p[|p| - 1] in c.parent.segments[0].children
      ensures c.parent.segments[0].children[p[|p| - 1]] == c
      decreases |p|
    {
      C.OnFrontInit(t, p);
      assert Matches(segments[0], SegAt(t, 0));
      var d := segments[0].children[p[0]];
      assert Child(d, segments[0].node, p[0], t.front.children[p[0]]);
      if |p| > 1 {
        d.ReachesParent(t.front.children[p[0]], p[1..], c);
        assert p[1..][..|p| - 2] == p[..|p| - 1][1..];
      }
    }

    // Only the chain at the route's path, and what is below it, changed.
    twostate lemma {:induction false} Spine(r: Route)
      requires old(Represents(r.tree)) && C.OnFront(r.tree, r.path) && old(Reaches(r.tree, r.path, r.chain))
      requires r.chain.Represents(r.result) && r.chain.Repr == old(r.chain.Repr)
      requires HandlesKept() && forall o | o in old(Repr) && o !in old(r.chain.Repr) :: unchanged(o)
      ensures Repr == old(Repr) && Represents(C.SetAt(r.tree, r.path, r.result))
      ensures Reaches(C.SetAt(r.tree, r.path, r.result), r.path, r.chain)
      decreases |r.path|
    {
      if r.path != [] {
        var t, k := r.tree, r.path[0];
        assert old(Matches(segments[0], SegAt(t, 0)));
        var d := old(segments[0].children[k]);
        var c := t.front.children[k];
        assert old(Child(d, segments[0].node, k, c));
        OldReachesChain(r);
        d.OldReachesChain(Route(c, r.path[1..], r.chain, r.result));
        assert unchanged(this);
        d.Spine(Route(c, r.path[1..], r.chain, r.result));
        ChildChanged(t, Work(0, k, d, C.SetAt(c, r.path[1..], r.result)));
      }
    }

    twostate lemma {:induction false} OldReachesChain(r: Route)
      requires old(Represents(r.tree)) && C.OnFront(r.tree, r.path) && old(Reaches(r.tree, r.path, r.chain))
      ensures old(r.chain.Repr) <= old(Repr)
      ensures r.path != [] ==> this !in old(r.chain.Repr)
      decreases |r.path|
    {
      if r.path != [] {
        var t, k := r.tree, r.path[0];
        assert old(Matches(segments[0], SegAt(t, 0)));
        var d := old(segments[0].children[k]);
        assert old(Child(d, segments[0].node, k, t.front.children[k]));
        d.OldReachesChain(Route(t.front.children[k], r.path[1..], r.chain, r.result));
      }
    }

    // This chain is the one at path p of the tree t of the given root.
    ghost predicate Located(root: Chain, t: T.Tree, p: seq<Key>)
      reads root, root.Repr, root.store`handles
    {
      && root.Represents(t) && C.OnFront(t, p) && root.Reaches(t, p, this)
      && root.tag == [] && root.runque == runque && root.store == store
    }

    // What a call left behind: the items it put, and whether it interrupted the run queue.
    twostate predicate Settled(items: seq<nat>, drained: bool)
      reads runque, runque.Getters()
    {
      && runque.Valid() && runque.interrupted == drained
      && runque.Cells() <= old(runque.Cells())
      && runque.log == old(runque.log) + items && if drained then runque.Closed() else runque.Handed()
    }

    // drops the front segment
    method DropFront(ghost t: T.Tree)
      requires Represents(t) && t.later != []
      modifies this`segments
      ensures Represents(T.Tree(t.later[0], t.later[1..]))
      ensures segments == old(segments)[1..]
    {
      assert forall i | 0 <= i < |segments| :: Matches(segments[i], SegAt(t, i));
      segments := segments[1..];
      ghost var m := Move(t, T.Tree(t.later[0], t.later[1..]), 1);
      forall i | 0 <= i < |segments| ensures Moved(m, i) && Issued(segments[i]) {}
      Rearranged(m);
    }

    // erases the child under the key from the front segment
    method EraseChild(k: Key, ghost t: T.Tree)
      requires Represents(t)
      modifies this`segments
      ensures Represents(T.Tree(t.front.(children := t.front.children - {k}), t.later))
      ensures segments == old(segments)[0 := old(segments)[0].(children := old(segments)[0].children - {k})]
    {
      assert Matches(segments[0], SegAt(t, 0));
      segments := segments[0 := segments[0].(children := segments[0].children - {k})];
      SegmentChanged(Change(t, 0, t.front.(children := t.front.children - {k})));
    }

    // drops the front sibling
    method PopSibling(ghost t: T.Tree)
      requires Represents(t) && t.front.siblings != []
      modifies this`segments
      ensures Represents(T.Tree(t.front.(siblings := t.front.siblings[1..]), t.later))
      ensures segments == old(segments)[0 := old(segments)[0].(siblings := t.front.siblings[1..])]
    {
      assert Matches(segments[0], SegAt(t, 0));
      segments := segments[0 := segments[0].(siblings := segments[0].siblings[1..])];
      SegmentChanged(Change(t, 0, t.front.(siblings := t.front.siblings[1..])));
    }

    // next_segment, for a front segment that ran empty
    method NextSegment(ghost root: Chain, ghost t: T.Tree, ghost p: seq<Key>) returns (ghost items: seq<nat>)
      requires Located(root, t, p) && PathUnique(t) && runque.Valid() && !runque.interrupted
      modifies root.Repr`segments, runque, runque.Cells()
      ensures root.Represents(C.NextUp(t, p).tree) && root.Repr == old(root.Repr)
      ensures Settled(items, C.NextUp(t, p).emptied && root.interrupted)
      ensures NoDup(items) && Elements(items) == C.NextUp(t, p).heads * store.values.Keys
      decreases |p|, 0
    {
      root.ReachesChain(t, p, this);
      AtUnique(t, p);
      assert p == [] ==> this == root;
      ghost var c := C.At(t, p);
      if |segments| > 1 {
        items := Advance(c);
        root.Spine(Route(t, p, this, T.NextSegment(c)));
      } else if tag != [] {
        items := CleanParent(root, t, p);
      } else {
        items := [];
        if interrupted {
          runque.Interrupt();
        }
      }
    }

    // the next segment becomes the front and is activated
    method Advance(ghost c: T.Tree) returns (ghost items: seq<nat>)
      requires Represents(c) && c.later != [] && PathUnique(c) && runque.Valid() && !runque.interrupted
      modifies Repr`segments, runque, runque.Cells()
      ensures Represents(T.NextSegment(c)) && Repr == old(Repr)
      ensures Put(items)
      ensures NoDup(items) && Elements(items) == C.SegmentHeads(c.later[0]) * store.values.Keys
    {
      ghost var n := T.Tree(c.later[0], c.later[1..]);
      TailUnique(c);
      DropFront(c);
      items := ActivateFront(n);
    }

    method CleanParent(ghost root: Chain, ghost t: T.Tree, ghost p: seq<Key>) returns (ghost items: seq<nat>)
      requires Located(root, t, p) && PathUnique(t) && runque.Valid() && !runque.interrupted
      requires tag != [] && p != []
      modifies root.Repr`segments, runque, runque.Cells()
      ensures C.OnFront(t, p[..|p| - 1])
      ensures root.Represents(C.RemoveUp(t, p[..|p| - 1], p[|p| - 1]).tree) && root.Repr == old(root.Repr)
      ensures Settled(items, C.RemoveUp(t, p[..|p| - 1], p[|p| - 1]).emptied && root.interrupted)
      ensures NoDup(items) && Elements(items) == C.RemoveUp(t, p[..|p| - 1], p[|p| - 1]).heads * store.values.Keys
      decreases |p| - 1, 3
    {
      root.ReachesParent(t, p, this);
      root.ReachesChain(t, p[..|p| - 1], parent);
      root.ReachesChain(t, p, this);
      var version := segments[0].version;
      items := parent.RemoveChild(tag, version, root, t, p[..|p| - 1]);
    }

    // remove_child: erases the child, unless it is gone or was used since the version was read
    method RemoveChild(tag: seq<Key>, version: nat, ghost root: Chain, ghost t: T.Tree, ghost p: seq<Key>)
      returns (ghost items: seq<nat>)
      requires Located(root, t, p) && PathUnique(t) && runque.Valid() && !runque.interrupted
      requires tag != []
      modifies root.Repr`segments, runque, runque.Cells()
      ensures root.Repr == old(root.Repr)
      ensures old(Current(tag[|tag| - 1], version)) ==>
        var r := C.RemoveUp(t, p, tag[|tag| - 1]);
        && root.Represents(r.tree)
        && Settled(items, r.emptied && root.interrupted)
        && NoDup(items) && Elements(items) == r.heads * store.values.Keys
      ensures !old(Current(tag[|tag| - 1], version)) ==> root.Represents(t) && items == [] && Settled(items, false)
      decreases |p|, 2
    {
      root.ReachesChain(t, p, this);
      ghost var c := C.At(t, p);
      assert Matches(segments[0], c.front);
      var key := tag[|tag| - 1];
      items := [];
      if key in segments[0].children {
        var child := segments[0].children[key];
        assert Child(child, segments[0].node, key, c.front.children[key]);
        assert child.Represents(c.front.children[key]);
        if child.segments[0].version == version {
          items := Remove(key, root, t, p);
        }
      }
    }

    method Remove(key: Key, ghost root: Chain, ghost t: T.Tree, ghost p: seq<Key>) returns (ghost items: seq<nat>)
      requires Located(root, t, p) && PathUnique(t) && runque.Valid() && !runque.interrupted
      requires key in C.At(t, p).front.children
      modifies root.Repr`segments, runque, runque.Cells()
      ensures root.Represents(C.RemoveUp(t, p, key).tree) && root.Repr == old(root.Repr)
      ensures Settled(items, C.RemoveUp(t, p, key).emptied && root.interrupted)
      ensures NoDup(items) && Elements(items) == C.RemoveUp(t, p, key).heads * store.values.Keys
      decreases |p|, 1
    {
      root.ReachesChain(t, p, this);
      ghost var c := C.At(t, p);
      ghost var c' := T.Tree(c.front.(children := c.front.children - {key}), c.later);
      EraseChild(key, c);
      root.Spine(Route(t, p, this, c'));
      EraseUnique(t, p, key);
      assert Matches(segments[0], c'.front);
      items := [];
      if segments[0].children == map[] {
        items := NextSegment(root, C.SetAt(t, p, c'), p);
      }
    }

    // The child under the key exists and its front segment has the given version.
    ghost predicate Current(k: Key, version: nat)
      reads this, if segments != [] && k in segments[0].children then {segments[0].children[k]} else {}
    {
      && segments != [] && k in segments[0].children
      && segments[0].children[k].segments != []
      && segments[0].children[k].segments[0].version == version
    }

    // finalize, for the item at the front of the front segment
    method Finalize(segment: nat, ghost root: Chain, ghost t: T.Tree, ghost p: seq<Key>) returns (ghost items: seq<nat>)
      requires Located(root, t, p) && PathUnique(t) && runque.Valid() && !runque.interrupted
      requires C.At(t, p).front.siblings != [] && segments != [] && segments[0].node == segment
      modifies root.Repr`segments, runque, runque.Cells()
      ensures root.Represents(C.FinalizeUp(t, p).tree) && root.Repr == old(root.Repr)
      ensures Settled(items, C.FinalizeUp(t, p).emptied && root.interrupted)
      ensures NoDup(items) && Elements(items) == C.FinalizeUp(t, p).heads * store.values.Keys
    {
      ghost var c := PopFront(root, t, p);
      ghost var t1 := C.SetAt(t, p, c);
      root.ReachesChain(t1, p, this);
      assert Matches(segments[0], c.front);
      if segments[0].siblings != [] || segments[0].children != map[] {
        items := ActivateRest(root, t1, p);
        SetAtAgain(t, p, c, Within(c));
      } else {
        items := NextSegment(root, t1, p);
      }
    }

    // The front segment goes on: the chain activates what comes next in it.
    method ActivateRest(ghost root: Chain, ghost t: T.Tree, ghost p: seq<Key>) returns (ghost items: seq<nat>)
      requires Located(root, t, p) && PathUnique(C.At(t, p)) && runque.Valid() && !runque.interrupted
      modifies root.Repr`segments, runque, runque.Cells()
      ensures root.Represents(C.SetAt(t, p, Within(C.At(t, p)))) && root.Repr == old(root.Repr)
      ensures Put(items)
      ensures NoDup(items) && Elements(items) == C.SegmentHeads(C.At(t, p).front) * store.values.Keys
    {
      root.ReachesChain(t, p, this);
      items := ActivateWithin(C.At(t, p));
      root.Spine(Route(t, p, this, Within(C.At(t, p))));
    }

    method PopFront(ghost root: Chain, ghost t: T.Tree, ghost p: seq<Key>) returns (ghost c: T.Tree)
      requires Located(root, t, p) && PathUnique(t) && C.At(t, p).front.siblings != []
      modifies root.Repr`segments
      ensures c == T.Tree(C.At(t, p).front.(siblings := C.At(t, p).front.siblings[1..]), C.At(t, p).later)
      ensures Located(root, C.SetAt(t, p, c), p) && root.Repr == old(root.Repr)
      ensures PathUnique(C.SetAt(t, p, c)) && PathUnique(c)
    {
      root.ReachesChain(t, p, this);
      ghost var b := C.At(t, p);
      c := T.Tree(b.front.(siblings := b.front.siblings[1..]), b.later);
      PopUnique(t, p);
      PopSibling(b);
      root.Spine(Route(t, p, this, c));
    }

    // The front segment still has something: its next sibling or else its children are activated.
    method ActivateWithin(ghost c: T.Tree) returns (ghost items: seq<nat>)
      requires Represents(c) && PathUnique(c) && runque.Valid() && !runque.interrupted
      modifies Repr`segments, runque, runque.Cells()
      ensures Represents(Within(c)) && Repr == old(Repr)
      ensures Put(items)
      ensures NoDup(items) && Elements(items) == C.SegmentHeads(c.front) * store.values.Keys
    {
      assert Matches(segments[0], c.front);
      if segments[0].siblings != [] {
        items := ActivateSibling(c);
      } else {
        items := ActivateChildren(c, c);
        PartlyAll(c);
      }
    }

    // release: fills the item and offers it if it is the first of an active front segment
    method Release(h: Handle, value: Value, ghost t: T.Tree) returns (ghost items: seq<nat>)
      requires Represents(t) && runque.Valid() && !runque.interrupted
      requires h.owner == this && h.item !in store.values
      requires exists i :: 0 <= i < |segments| && segments[i].node == h.segment && h.item in segments[i].siblings
      modifies store`values, runque, runque.Cells()
      ensures store.values == old(store.values)[h.item := value]
      ensures Put(items)
      ensures items ==
        if h.segment == segments[0].node && t.front.active && t.front.siblings != [] && h.item == t.front.siblings[0]
        then [h.item] else []
    {
      assert Matches(segments[0], t.front);
      store.values := store.values[h.item := value];
      items := [];
      if segments[0].node == h.segment && segments[0].active && segments[0].siblings[0] == h.item {
        Offer(h.item);
        items := [h.item];
      }
    }
  }

  // A rearrangement of the segments: tree became result, the first gone segments went away.
  datatype Move = Move(tree: T.Tree, result: T.Tree, gone: nat)

  // Segment i of the tree became segment.
  datatype Change = Change(tree: T.Tree, i: nat, segment: T.Segment)

  // In the tree of an ancestor, the chain at path was worked on: result is its new tree.
  datatype Route = Route(tree: T.Tree, path: seq<Key>, chain: Chain, result: T.Tree)

  // Work on the child at place (i, key): result is its new tree.
  datatype Work = Work(i: nat, key: Key, child: Chain, result: T.Tree)
}
