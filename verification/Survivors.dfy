// The reservations that are left, in terms of all that were ever made.
module Survivors {
  import opened Tags
  import opened Lists
  import opened Trees
  import opened Cascade
  import opened Flat

  // Reservations are numbered in the order in which they were made: paths[x] is the effective
  // path of reservation x, and done holds the finalized ones.
  function Remaining(paths: seq<seq<Key>>, done: set<nat>): seq<Item> {
    if paths == [] then []
    else
      var n := |paths| - 1;
      Remaining(paths[..n], done) + if n in done then [] else [Item(n, paths[n])]
  }

  predicate Live(paths: seq<seq<Key>>, done: set<nat>, x: nat) {
    x < |paths| && x !in done
  }

  predicate Unblocked(paths: seq<seq<Key>>, done: set<nat>, x: nat) {
    Live(paths, done, x) && forall y | 0 <= y < x && y !in done :: !Related(paths[y], paths[x])
  }

  lemma {:induction false} SurvivorsLive(paths: seq<seq<Key>>, done: set<nat>)
    ensures forall i | 0 <= i < |Remaining(paths, done)| ::
      Live(paths, done, Remaining(paths, done)[i].id) &&
      Remaining(paths, done)[i].path == paths[Remaining(paths, done)[i].id]
    ensures forall i, j | 0 <= i < j < |Remaining(paths, done)| ::
      Remaining(paths, done)[i].id < Remaining(paths, done)[j].id
  {
    if paths != [] {
      var n := |paths| - 1;
      SurvivorsLive(paths[..n], done);
      var r := Remaining(paths[..n], done);
      var s := Remaining(paths, done);
      forall i | 0 <= i < |s| ensures Live(paths, done, s[i].id) && s[i].path == paths[s[i].id] {
        if i < |r| {
          assert s[i] == r[i];
          assert Live(paths[..n], done, r[i].id);
        }
      }
    }
  }

  lemma {:induction false} SurvivorAt(paths: seq<seq<Key>>, done: set<nat>, x: nat) returns (i: nat)
    requires Live(paths, done, x)
    ensures i < |Remaining(paths, done)| && Remaining(paths, done)[i] == Item(x, paths[x])
    decreases |paths|
  {
    var n := |paths| - 1;
    if x == n {
      i := |Remaining(paths[..n], done)|;
    } else {
      i := SurvivorAt(paths[..n], done, x);
    }
  }

  lemma {:induction false} SurvivorsExtend(paths: seq<seq<Key>>, done: set<nat>, p: seq<Key>)
    requires |paths| !in done
    ensures Remaining(paths + [p], done) == Remaining(paths, done) + [Item(|paths|, p)]
  {
    assert (paths + [p])[..|paths|] == paths;
  }

  lemma {:induction false} SurvivorsRemove(paths: seq<seq<Key>>, done: set<nat>, x: nat) returns (i: nat)
    requires Live(paths, done, x)
    ensures i < |Remaining(paths, done)| && Remaining(paths, done)[i] == Item(x, paths[x])
    ensures Remaining(paths, done + {x}) == Without(Remaining(paths, done), i)
    decreases |paths|
  {
    var n := |paths| - 1;
    var r := Remaining(paths[..n], done);
    if x == n {
      i := |r|;
      SurvivorsIrrelevant(paths[..n], done, x);
      assert Without(r + [Item(x, paths[x])], i) == r;
    } else {
      i := SurvivorsRemove(paths[..n], done, x);
      if n !in done { WithoutSnoc(r, Item(n, paths[n]), i); }
    }
  }

  lemma {:induction false} SurvivorsIrrelevant(paths: seq<seq<Key>>, done: set<nat>, x: nat)
    requires |paths| <= x
    ensures Remaining(paths, done + {x}) == Remaining(paths, done)
    decreases |paths|
  {
    if paths != [] { SurvivorsIrrelevant(paths[..|paths| - 1], done, x); }
  }

  lemma ReadySurvivor(paths: seq<seq<Key>>, done: set<nat>, i: nat)
    requires i < |Remaining(paths, done)|
    ensures Ready(Remaining(paths, done), i) <==> Unblocked(paths, done, Remaining(paths, done)[i].id)
  {
    var s := Remaining(paths, done);
    SurvivorsLive(paths, done);
    if Ready(s, i) {
      forall y | 0 <= y < s[i].id && y !in done ensures !Related(paths[y], paths[s[i].id]) {
        var j := SurvivorAt(paths, done, y);
        assert j < i;
      }
    }
    if Unblocked(paths, done, s[i].id) {
      forall j | 0 <= j < i ensures !Related(s[j].path, s[i].path) {
        assert s[j].id < s[i].id;
      }
    }
  }

  // The heads of the tree are exactly the unblocked reservations.
  lemma HeadsUnblocked(paths: seq<seq<Key>>, done: set<nat>, p: seq<Key>, x: nat)
    ensures IsHead(Build(Remaining(paths, done)), p, x) <==> Unblocked(paths, done, x) && p == paths[x]
  {
    var s := Remaining(paths, done);
    BuildHeads(s, p, x);
    if ReadyAs(s, p, x) {
      var i :| 0 <= i < |s| && Ready(s, i) && s[i] == Item(x, p);
      ReadySurvivor(paths, done, i);
      SurvivorsLive(paths, done);
    }
    if Unblocked(paths, done, x) && p == paths[x] {
      var i := SurvivorAt(paths, done, x);
      ReadySurvivor(paths, done, i);
    }
  }

  // The tree holds what is left and nothing else.
  ghost predicate Represents(t: Tree, paths: seq<seq<Key>>, done: set<nat>) {
    t == Build(Remaining(paths, done))
  }

  lemma HeadSet(t: Tree, paths: seq<seq<Key>>, done: set<nat>, x: nat)
    requires Represents(t, paths, done)
    ensures x in Heads(t) <==> Unblocked(paths, done, x)
  {
    if x in Heads(t) {
      var p := HeadsSound(t, x);
      HeadsUnblocked(paths, done, p, x);
    }
    if Unblocked(paths, done, x) {
      HeadsUnblocked(paths, done, paths[x], x);
      HeadsComplete(t, paths[x], x);
    }
  }

  lemma ReserveRefines(t: Tree, paths: seq<seq<Key>>, done: set<nat>, p: seq<Key>)
    requires Represents(t, paths, done) && |paths| !in done
    ensures Represents(Reserve(t, p, |paths|), paths + [p], done)
    ensures Lands(t, p) <==> Unblocked(paths + [p], done, |paths|)
  {
    SurvivorsExtend(paths, done, p);
    BuildSnoc(Remaining(paths, done), Item(|paths|, p));
    BuildLands(Remaining(paths, done), p);
    ClearUnblocked(paths, done, p);
  }

  lemma ClearUnblocked(paths: seq<seq<Key>>, done: set<nat>, p: seq<Key>)
    requires |paths| !in done
    ensures Clear(Remaining(paths, done), p) <==> Unblocked(paths + [p], done, |paths|)
  {
    SurvivorsLive(paths, done);
    var s := Remaining(paths, done);
    if Clear(s, p) {
      forall y | 0 <= y < |paths| && y !in done ensures !Related(paths[y], p) {
        var j := SurvivorAt(paths, done, y);
      }
    }
    if Unblocked(paths + [p], done, |paths|) {
      forall j | 0 <= j < |s| ensures !Related(s[j].path, p) {
        assert (paths + [p])[s[j].id] == s[j].path;
      }
    }
  }

  lemma FinalizeRefines(t: Tree, paths: seq<seq<Key>>, done: set<nat>, x: nat)
    requires Represents(t, paths, done) && Unblocked(paths, done, x)
    ensures Shaped(t, true) && IsHead(t, paths[x], x)
    ensures OnFront(t, paths[x]) && At(t, paths[x]).front.siblings != []
    ensures FinalizeUp(t, paths[x]) ==
      Effect(Finalize(t, paths[x], x), NewHeads(t, paths[x], x), Vacant(Finalize(t, paths[x], x)))
    ensures Represents(Finalize(t, paths[x], x), paths, done + {x})
  {
    BuildShaped(Remaining(paths, done));
    HeadsUnblocked(paths, done, paths[x], x);
    UpIsDown(t, paths[x], x);
    var s := Remaining(paths, done);
    var i := SurvivorsRemove(paths, done, x);
    ReadySurvivor(paths, done, i);
    FinalizeBuild(s, i);
  }

  // A deletion offers exactly the reservations that it unblocks.
  lemma NewHeadsUnblocked(t: Tree, paths: seq<seq<Key>>, done: set<nat>, x: nat, y: nat)
    requires Represents(t, paths, done) && Unblocked(paths, done, x) && IsHead(t, paths[x], x)
    ensures y in NewHeads(t, paths[x], x) <==> Unblocked(paths, done + {x}, y) && !Unblocked(paths, done, y)
  {
    FinalizeRefines(t, paths, done, x);
    var t' := Finalize(t, paths[x], x);
    if y in NewHeads(t, paths[x], x) {
      var q := NewHeadsRelated(t, paths[x], x, y);
      HeadsUnblocked(paths, done + {x}, q, y);
      assert Related(paths[y], paths[x]) && y != x;
    }
    if Unblocked(paths, done + {x}, y) && !Unblocked(paths, done, y) {
      HeadsUnblocked(paths, done + {x}, paths[y], y);
      HeadsUnblocked(paths, done, paths[y], y);
      NewHeadsExact(t, paths[x], x, paths[y], y);
    }
  }
}
