// The list of reservations that the tree speeds up.
module Flat {
  import opened Tags
  import opened Lists
  import opened Trees

  datatype Item = Item(id: nat, path: seq<Key>)

  // Nothing before position i is related to it.
  predicate Ready(s: seq<Item>, i: nat)
    requires i < |s|
  {
    forall j | 0 <= j < i :: !Related(s[j].path, s[i].path)
  }

  predicate Clear(s: seq<Item>, p: seq<Key>) {
    forall j | 0 <= j < |s| :: !Related(s[j].path, p)
  }

  // The tree that reserving the items in order builds.
  function Build(s: seq<Item>): Tree {
    if s == [] then Fresh(true)
    else Reserve(Build(s[..|s| - 1]), s[|s| - 1].path, s[|s| - 1].id)
  }

  lemma {:induction false} BuildShaped(s: seq<Item>)
    ensures Shaped(Build(s), true)
    ensures s != [] ==> !Vacant(Build(s))
  {
    if s != [] {
      BuildShaped(s[..|s| - 1]);
      ReserveShaped(Build(s[..|s| - 1]), true, s[|s| - 1].path, s[|s| - 1].id);
    }
  }

  lemma {:induction false} BuildLands(s: seq<Item>, p: seq<Key>)
    ensures Lands(Build(s), p) <==> Clear(s, p)
  {
    if s == [] {
      FreshLands(p);
    } else {
      var r := s[..|s| - 1];
      var l := s[|s| - 1];
      BuildLands(r, p);
      BuildShaped(r);
      LandsReserve(Build(r), true, l.path, l.id, p);
      assert Clear(s, p) <==> Clear(r, p) && !Related(l.path, p);
    }
  }

  lemma {:induction false} FreshLands(p: seq<Key>)
    ensures Lands(Fresh(true), p)
    decreases |p|
  {
    if p != [] { FreshLands(p[1..]); }
  }

  ghost predicate ReadyAs(s: seq<Item>, p: seq<Key>, h: nat) {
    exists i | 0 <= i < |s| :: Ready(s, i) && s[i] == Item(h, p)
  }

  lemma ReadySnoc(r: seq<Item>, l: Item, i: nat)
    requires i <= |r|
    ensures Ready(r + [l], i) <==> if i < |r| then Ready(r, i) else Clear(r, l.path)
  {
    var s := r + [l];
    assert forall j | 0 <= j < |r| :: s[j] == r[j];
  }

  lemma ReadyAsSnoc(r: seq<Item>, l: Item, p: seq<Key>, h: nat)
    ensures ReadyAs(r + [l], p, h) <==> ReadyAs(r, p, h) || (l == Item(h, p) && Clear(r, p))
  {
    var s := r + [l];
    forall i | 0 <= i <= |r| ensures Ready(s, i) <==> if i < |r| then Ready(r, i) else Clear(r, l.path) {
      ReadySnoc(r, l, i);
    }
    if ReadyAs(r, p, h) {
      var i :| 0 <= i < |r| && Ready(r, i) && r[i] == Item(h, p);
      assert Ready(s, i) && s[i] == r[i];
    }
    if l == Item(h, p) && Clear(r, p) {
      assert Ready(s, |r|) && s[|r|] == l;
    }
  }

  // The heads of the tree are the items that nothing related precedes in the list.
  lemma {:induction false} BuildHeads(s: seq<Item>, p: seq<Key>, h: nat)
    ensures IsHead(Build(s), p, h) <==> ReadyAs(s, p, h)
  {
    if s != [] {
      var r := s[..|s| - 1];
      var l := s[|s| - 1];
      assert s == r + [l];
      BuildHeads(r, p, h);
      BuildShaped(r);
      BuildLands(r, l.path);
      HeadReserve(Build(r), l.path, l.id, p, h);
      ReadyAsSnoc(r, l, p, h);
    }
  }

  // Deleting a ready item from the tree is deleting it from the list.
  lemma {:induction false} FinalizeBuild(s: seq<Item>, i: nat)
    requires i < |s| && Ready(s, i)
    ensures IsHead(Build(s), s[i].path, s[i].id)
    ensures Finalize(Build(s), s[i].path, s[i].id) == Build(Without(s, i))
    decreases |s|
  {
    var r := s[..|s| - 1];
    var l := s[|s| - 1];
    assert s == r + [l];
    ReadySnoc(r, l, i);
    BuildSnoc(r, l);
    if i == |r| {
      FinalizeNewest(r, l);
      assert Without(s, i) == r;
    } else {
      FinalizeBuild(r, i);
      FinalizeOlder(r, l, i);
      WithoutSnoc(r, l, i);
    }
  }

  lemma WithoutSnoc(r: seq<Item>, l: Item, i: nat)
    requires i < |r|
    ensures Without(r + [l], i) == Without(r, i) + [l]
  {
    assert (r + [l])[..i] == r[..i];
    assert (r + [l])[i + 1..] == r[i + 1..] + [l];
  }

  lemma FinalizeNewest(r: seq<Item>, l: Item)
    requires Clear(r, l.path)
    ensures IsHead(Reserve(Build(r), l.path, l.id), l.path, l.id)
    ensures Finalize(Reserve(Build(r), l.path, l.id), l.path, l.id) == Build(r)
  {
    BuildShaped(r);
    BuildLands(r, l.path);
    Undo(Build(r), l.path, l.id);
  }

  lemma FinalizeOlder(r: seq<Item>, l: Item, i: nat)
    requires i < |r| && IsHead(Build(r), r[i].path, r[i].id)
    requires Finalize(Build(r), r[i].path, r[i].id) == Build(Without(r, i))
    ensures IsHead(Reserve(Build(r), l.path, l.id), r[i].path, r[i].id)
    ensures Finalize(Reserve(Build(r), l.path, l.id), r[i].path, r[i].id) == Build(Without(r, i) + [l])
  {
    BuildShaped(r);
    Commute(Build(r), r[i].path, r[i].id, l.path, l.id);
    BuildSnoc(Without(r, i), l);
  }

  lemma BuildSnoc(r: seq<Item>, l: Item)
    ensures Build(r + [l]) == Reserve(Build(r), l.path, l.id)
  {
    assert (r + [l])[..|r|] == r;
  }
}
