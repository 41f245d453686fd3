// Every reservation that has locked the root arrives: it places its item exactly once, and is on its
// way exactly until then.
module Arrivals {
  import opened Tags
  import opened Descents
  import T = Trees

  predicate GuestIs(g: Guest, x: nat) { (g.Arrived? || g.Aimed?) && g.visit.item == x }

  // The reservation of item x is on its way somewhere inside.
  ghost predicate Brings(c: Chain, x: nat)
    decreases c, 1
  {
    GuestIs(c.guest, x) || KidsBring(c, x)
  }

  ghost predicate KidsBring(c: Chain, x: nat)
    decreases c, 0
  {
    exists i: nat, k | i <= |c.later| && k in SegAt(c, i).children :: Brings(SegAt(c, i).children[k], x)
  }

  // ... below another child than the one at (i, k)
  ghost predicate OthersBring(c: Chain, i: nat, k: Key, x: nat) {
    exists j: nat, l | j <= |c.later| && l in SegAt(c, j).children ::
      (j, l) != (i, k) && Brings(SegAt(c, j).children[l], x)
  }

  // No reservation is at two places.
  ghost predicate Apart(c: Chain)
    decreases c
  {
    && (forall x: nat :: GuestIs(c.guest, x) ==> !KidsBring(c, x))
    && (forall i: nat, k | i <= |c.later| && k in SegAt(c, i).children ::
          Apart(SegAt(c, i).children[k]) && ApartFrom(c, i, k))
  }

  ghost predicate ApartFrom(c: Chain, i: nat, k: Key)
    requires i <= |c.later| && k in SegAt(c, i).children
  {
    forall x: nat :: Brings(SegAt(c, i).children[k], x) ==> !OthersBring(c, i, k, x)
  }

  lemma SameBring(c: Chain, c': Chain, x: nat)
    requires forall i: nat, k | i <= |c'.later| && k in SegAt(c', i).children ::
      i <= |c.later| && k in SegAt(c, i).children && SegAt(c', i).children[k] == SegAt(c, i).children[k]
    ensures KidsBring(c', x) ==> KidsBring(c, x)
  {
    if KidsBring(c', x) {
      var i: nat, k :| i <= |c'.later| && k in SegAt(c', i).children && Brings(SegAt(c', i).children[k], x);
      assert Brings(SegAt(c, i).children[k], x);
    }
  }

  // The chains below are the same.
  ghost predicate SameKids(c: Chain, c': Chain) {
    && (forall i: nat, k | i <= |c'.later| && k in SegAt(c', i).children ::
          i <= |c.later| && k in SegAt(c, i).children && SegAt(c', i).children[k] == SegAt(c, i).children[k])
    && (forall i: nat, k | i <= |c.later| && k in SegAt(c, i).children ::
          i <= |c'.later| && k in SegAt(c', i).children && SegAt(c, i).children[k] == SegAt(c', i).children[k])
  }

  lemma SameApart(c: Chain, c': Chain)
    requires Apart(c) && SameKids(c, c') && forall x: nat :: GuestIs(c'.guest, x) ==> !KidsBring(c, x)
    ensures Apart(c') && forall x: nat :: KidsBring(c', x) <==> KidsBring(c, x)
  {
    forall x: nat ensures KidsBring(c', x) <==> KidsBring(c, x) {
      SameBring(c, c', x);
      SameBring(c', c, x);
    }
    forall i: nat, k | i <= |c'.later| && k in SegAt(c', i).children ensures ApartFrom(c', i, k) {
      assert ApartFrom(c, i, k);
      forall x: nat ensures OthersBring(c', i, k, x) ==> OthersBring(c, i, k, x) { SameOthers(c, c', i, k, x); }
    }
  }

  lemma SameOthers(c: Chain, c': Chain, i: nat, k: Key, x: nat)
    requires SameKids(c, c')
    ensures OthersBring(c', i, k, x) ==> OthersBring(c, i, k, x)
  {
    if OthersBring(c', i, k, x) {
      var j: nat, l :| j <= |c'.later| && l in SegAt(c', j).children && (j, l) != (i, k)
        && Brings(SegAt(c', j).children[l], x);
      assert Brings(SegAt(c, j).children[l], x);
    }
  }

  lemma SetBring(c: Chain, i: nat, k: Key, d: Chain, x: nat)
    requires i <= |c.later|
    ensures KidsBring(SetKid(c, i, k, d), x) <==> Brings(d, x) || OthersBring(c, i, k, x)
    ensures k in SegAt(c, i).children ==>
      (KidsBring(c, x) <==> Brings(SegAt(c, i).children[k], x) || OthersBring(c, i, k, x))
    ensures k !in SegAt(c, i).children ==> (KidsBring(c, x) <==> OthersBring(c, i, k, x))
  {
    var c' := SetKid(c, i, k, d);
    assert SegAt(c', i).children[k] == d;
    if KidsBring(c', x) {
      var j: nat, l :| j <= |c'.later| && l in SegAt(c', j).children && Brings(SegAt(c', j).children[l], x);
      if (j, l) != (i, k) { assert SegAt(c, j).children[l] == SegAt(c', j).children[l]; }
    }
    if OthersBring(c, i, k, x) {
      var j: nat, l :| j <= |c.later| && l in SegAt(c, j).children && (j, l) != (i, k)
        && Brings(SegAt(c, j).children[l], x);
      assert SegAt(c', j).children[l] == SegAt(c, j).children[l];
    }
  }

  lemma SetApart(c: Chain, i: nat, k: Key, d: Chain)
    requires Apart(c) && i <= |c.later| && Apart(d)
    requires forall x: nat :: Brings(d, x) ==> !OthersBring(c, i, k, x) && !GuestIs(c.guest, x)
    ensures Apart(SetKid(c, i, k, d))
  {
    var c' := SetKid(c, i, k, d);
    forall x: nat | GuestIs(c'.guest, x) ensures !KidsBring(c', x) { SetBring(c, i, k, d, x); }
    forall j: nat, l | j <= |c'.later| && l in SegAt(c', j).children
      ensures Apart(SegAt(c', j).children[l]) && ApartFrom(c', j, l)
    {
      SetApartFrom(c, i, k, d, j, l);
    }
  }

  lemma SetApartFrom(c: Chain, i: nat, k: Key, d: Chain, j: nat, l: Key)
    requires Apart(c) && i <= |c.later| && Apart(d) && forall x: nat :: Brings(d, x) ==> !OthersBring(c, i, k, x)
    requires j <= |c.later| && l in SegAt(SetKid(c, i, k, d), j).children
    ensures Apart(SegAt(SetKid(c, i, k, d), j).children[l]) && ApartFrom(SetKid(c, i, k, d), j, l)
  {
    var c' := SetKid(c, i, k, d);
    SetOthers(c, i, k, d, j, l, 0);
    forall x: nat | Brings(SegAt(c', j).children[l], x) ensures !OthersBring(c', j, l, x) {
      SetOthers(c, i, k, d, j, l, x);
      if (j, l) != (i, k) { assert ApartFrom(c, j, l); }
    }
  }

  lemma SetOthers(c: Chain, i: nat, k: Key, d: Chain, j: nat, l: Key, x: nat)
    requires i <= |c.later| && j <= |c.later| && l in SegAt(SetKid(c, i, k, d), j).children
    ensures (j, l) != (i, k) ==>
      l in SegAt(c, j).children && SegAt(SetKid(c, i, k, d), j).children[l] == SegAt(c, j).children[l]
    ensures (j, l) != (i, k) && Brings(SegAt(SetKid(c, i, k, d), j).children[l], x) ==> OthersBring(c, i, k, x)
    ensures OthersBring(SetKid(c, i, k, d), j, l, x) ==>
      OthersBring(c, j, l, x) || ((j, l) != (i, k) && Brings(d, x))
  {
    var c' := SetKid(c, i, k, d);
    if OthersBring(c', j, l, x) {
      var m: nat, n :| m <= |c'.later| && n in SegAt(c', m).children && (m, n) != (j, l)
        && Brings(SegAt(c', m).children[n], x);
      if (m, n) != (i, k) { assert Brings(SegAt(c, m).children[n], x); }
    }
  }

  // A step loses no reservation but the one that places its item, and makes none.
  ghost predicate Moved(c: Chain, e: Event, c': Chain) {
    && Apart(c') && (e.Placed? ==> Brings(c, e.item))
    && forall x: nat :: Brings(c', x) <==> Brings(c, x) && !(e.Placed? && e.item == x)
  }

  lemma PlaceMoved(c: Chain, offered: bool)
    requires Apart(c) && c.guest.Arrived?
    ensures Moved(c, Placed(c.guest.visit.item, offered), Place(c))
  {
    PlaceSame(c);
    SameApart(c, Place(c));
  }

  lemma PlaceSame(c: Chain)
    requires c.guest.Arrived?
    ensures SameKids(c, Place(c))
  {}

  lemma AimMoved(c: Chain)
    requires Apart(c) && c.guest.Arrived? && c.guest.visit.path != []
    ensures Moved(c, Quietly, Aim(c))
  {
    var b, k := c.(guest := Aimed(c.guest.visit)), c.guest.visit.path[0];
    SameApart(c, b);
    if k !in Last(c).children {
      var d := Fresh(Last(c).active && Last(c).siblings == []);
      forall x: nat ensures !Brings(d, x) {}
      SetApart(b, |b.later|, k, d);
      forall x: nat ensures KidsBring(Aim(c), x) <==> KidsBring(c, x) { SetBring(b, |b.later|, k, d, x); }
    }
  }

  lemma DescendMoved(c: Chain)
    requires Apart(c) && c.guest.Aimed? && c.guest.visit.path != [] && c.guest.visit.path[0] in Last(c).children
    requires Last(c).children[c.guest.visit.path[0]].guest == Nobody
    ensures Moved(c, Quietly, Descend(c))
  {
    var v, k := c.guest.visit, c.guest.visit.path[0];
    var i, b := |c.later|, c.(guest := Leaving);
    var o := SegAt(c, i).children[k];
    var d := o.(guest := Arrived(v.(path := v.path[1..])));
    SameApart(c, b);
    forall x: nat ensures (KidsBring(b, x) <==> Brings(o, x) || OthersBring(b, i, k, x)) && !KidsBring(c, v.item) {
      SetBring(b, i, k, d, x);
      assert GuestIs(c.guest, v.item);
    }
    assert Brings(o, v.item) ==> KidsBring(c, v.item);
    SameApart(o, d);
    assert ApartFrom(b, i, k);
    SetApart(b, i, k, d);
    forall x: nat ensures Brings(Descend(c), x) <==> Brings(c, x) { SetBring(b, i, k, d, x); }
  }

  lemma InsideMoved(c: Chain, i: nat, k: Key, e: Event, d: Chain)
    requires Apart(c) && i <= |c.later| && k in SegAt(c, i).children && Moved(SegAt(c, i).children[k], e, d)
    ensures Moved(c, e, SetKid(c, i, k, d))
  {
    var o := SegAt(c, i).children[k];
    assert ApartFrom(c, i, k);
    forall x: nat ensures (KidsBring(c, x) <==> Brings(o, x) || OthersBring(c, i, k, x))
        && (KidsBring(SetKid(c, i, k, d), x) <==> Brings(d, x) || OthersBring(c, i, k, x)) {
      SetBring(c, i, k, d, x);
    }
    SetApart(c, i, k, d);
  }

  lemma {:induction false} StepMoved(c: Chain, e: Event, c': Chain)
    requires Apart(c) && Step(c, e, c')
    ensures Moved(c, e, c')
    decreases c
  {
    if Local(c, e, c') {
      if c.guest.Leaving? {
        SameApart(c, c');
      } else if c.guest.Aimed? {
        DescendMoved(c);
      } else if c.guest.visit.path == [] {
        PlaceMoved(c, e.offered);
      } else {
        AimMoved(c);
      }
    } else {
      var i: nat, k :| i <= |c.later| && k in SegAt(c, i).children && Inside(c, i, k, e, c');
      var d :| Step(SegAt(c, i).children[k], e, d) && c' == SetKid(c, i, k, d);
      StepMoved(SegAt(c, i).children[k], e, d);
      InsideMoved(c, i, k, e, d);
    }
  }

  lemma {:induction false} QuietApart(c: Chain)
    requires Quiet(c)
    ensures Apart(c) && forall x: nat :: !Brings(c, x)
    decreases c
  {
    forall i: nat, k | i <= |c.later| && k in SegAt(c, i).children
      ensures Apart(SegAt(c, i).children[k]) && forall x: nat :: !Brings(SegAt(c, i).children[k], x)
    {
      QuietApart(SegAt(c, i).children[k]);
    }
    forall x: nat ensures !Brings(c, x) { assert !KidsBring(c, x); }
  }

  lemma EnterApart(s: State, p: seq<Key>, filled: bool, s': State)
    requires Apart(s.root) && EnterStep(s, p, filled, s') && !Brings(s.root, s.first + |s.entries|)
    ensures Apart(s'.root) && forall x: nat :: Brings(s'.root, x) <==> Brings(s.root, x) || x == s.first + |s.entries|
  {
    SameApart(s.root, s'.root);
  }

  // Reservations on their way are among those made, each at one place.
  ghost predicate Tidy(s: State) {
    Apart(s.root) && forall x: nat :: Brings(s.root, x) ==> s.first <= x < s.first + |s.entries|
  }

  lemma {:induction false} RunTidy(states: seq<State>, actions: seq<Action>, i: nat)
    requires Run(states, actions) && i < |states|
    ensures Tidy(states[i])
  {
    if i == 0 {
      QuietApart(states[0].root);
    } else {
      RunTidy(states, actions, i - 1);
      ActionTidy(states[i - 1], actions[i - 1], states[i]);
    }
  }

  ghost predicate ActionStep(s: State, a: Action, s': State) {
    match a
    case EnterRoot(p, filled) => EnterStep(s, p, filled, s')
    case Move(e) => MoveStep(s, e, s')
  }

  predicate Places(a: Action, x: nat) { a.Move? && a.e.Placed? && a.e.item == x }

  // One action: the new reservation is on its way, and each of the others goes on unless it is placed.
  lemma ActionTidy(s: State, a: Action, s': State)
    requires Tidy(s) && ActionStep(s, a, s')
    ensures Tidy(s') && s'.first == s.first
    ensures forall x: nat :: Brings(s'.root, x) <==>
      (Brings(s.root, x) && !Places(a, x)) || (a.EnterRoot? && x == s.first + |s.entries|)
    ensures forall x: nat :: Places(a, x) ==> Brings(s.root, x)
  {
    match a
    case EnterRoot(p, filled) => EnterApart(s, p, filled, s');
    case Move(e) => StepMoved(s.root, e, s'.root);
  }

  // x is placed by action l and by no other before i.
  ghost predicate OnlyAt(actions: seq<Action>, i: nat, l: nat, x: nat) {
    && l < i <= |actions| && Places(actions[l], x)
    && forall m | 0 <= m < i && m != l :: !Places(actions[m], x)
  }

  ghost predicate NeverBefore(actions: seq<Action>, i: nat, x: nat) {
    i <= |actions| && forall m | 0 <= m < i :: !Places(actions[m], x)
  }

  lemma {:induction false} NotYet(states: seq<State>, actions: seq<Action>, i: nat, x: nat)
    requires Run(states, actions) && i < |states| && x >= states[i].first + |states[i].entries|
    ensures NeverBefore(actions, i, x)
  {
    if i > 0 {
      RunTidy(states, actions, i - 1);
      ActionTidy(states[i - 1], actions[i - 1], states[i]);
      NotYet(states, actions, i - 1, x);
    }
  }

  // A reservation is on its way and not yet placed, or it has been placed once and is no longer.
  lemma {:induction false} OnItsWay(states: seq<State>, actions: seq<Action>, i: nat, n: nat) returns (l: nat)
    requires Run(states, actions) && i < |states| && n < |states[i].entries|
    ensures var x := states[i].first + n;
      if Brings(states[i].root, x) then NeverBefore(actions, i, x) else OnlyAt(actions, i, l, x)
  {
    l := 0;
    if i > 0 {
      var s, a := states[i - 1], actions[i - 1];
      var x := s.first + n;
      RunTidy(states, actions, i - 1);
      ActionTidy(s, a, states[i]);
      if n < |s.entries| {
        l := OnItsWay(states, actions, i - 1, n);
        if Brings(s.root, x) && Places(a, x) { l := i - 1; }
      } else {
        NotYet(states, actions, i - 1, x);
      }
    }
  }

  // With nobody on the way, each reservation has placed its item exactly once, and offered it then iff
  // it was filled and the whole reservation, at its place in the order, landed at the front.
  lemma PlacedOnce(states: seq<State>, actions: seq<Action>, i: nat, n: nat) returns (l: nat, offered: bool)
    requires Run(states, actions) && i < |states| && Quiet(states[i].root) && n < |states[i].entries|
    ensures OnlyAt(actions, i, l, states[i].first + n) && actions[l] == Move(Placed(states[i].first + n, offered))
    ensures var es := states[i].entries;
      offered == (es[n].filled
        && T.Lands(Sequential(Plain(states[0].root), states[0].first, es[..n]), es[n].path))
  {
    QuietApart(states[i].root);
    l := OnItsWay(states, actions, i, n);
    offered := actions[l].e.offered;
    RunInv(states, actions, i);
    OffersAgree(states, actions, l, states[i].first + n, offered);
    EntriesGrow(states, actions, l, i);
    assert states[l].entries[..n] == states[i].entries[..n];
  }

  lemma {:induction false} EntriesGrow(states: seq<State>, actions: seq<Action>, i: nat, j: nat)
    requires Run(states, actions) && i <= j < |states|
    ensures states[i].entries <= states[j].entries
    decreases j
  {
    if i < j { EntriesGrow(states, actions, i, j - 1); }
  }

  // The reservations that locked the root, in that order.
  ghost function Entered(actions: seq<Action>): seq<Entry> {
    if actions == [] then []
    else
      var a := actions[|actions| - 1];
      Entered(actions[..|actions| - 1]) + if a.EnterRoot? then [Entry(a.path, a.filled)] else []
  }

  lemma {:induction false} EntriesAreEntered(states: seq<State>, actions: seq<Action>, i: nat)
    requires Run(states, actions) && i < |states|
    ensures states[i].entries == Entered(actions[..i])
  {
    if i > 0 {
      EntriesAreEntered(states, actions, i - 1);
      assert actions[..i][..i - 1] == actions[..i - 1];
    }
  }

  // Nobody gets stuck: while some reservation is on its way, one can step.
  lemma {:induction false} SomeoneSteps(c: Chain) returns (e: Event, c': Chain)
    requires Fair(c) && !Quiet(c)
    ensures Step(c, e, c')
    decreases c
  {
    if i: nat, k :| i <= |c.later| && k in SegAt(c, i).children && !Quiet(SegAt(c, i).children[k]) {
      var d: Chain;
      e, d := SomeoneSteps(SegAt(c, i).children[k]);
      c' := SetKid(c, i, k, d);
      assert Inside(c, i, k, e, c');
    } else {
      e, c' := GuestSteps(c);
    }
  }

  lemma GuestSteps(c: Chain) returns (e: Event, c': Chain)
    requires Fair(c) && c.guest != Nobody
    requires forall i: nat, k | i <= |c.later| && k in SegAt(c, i).children :: Quiet(SegAt(c, i).children[k])
    ensures Local(c, e, c')
  {
    e := Quietly;
    match c.guest
    case Arrived(v) =>
      if v.path == [] {
        e, c' := Placed(v.item, v.filled && Ready(c)), Place(c);
      } else {
        c' := Aim(c);
      }
    case Aimed(v) =>
      assert Last(c) == SegAt(c, |c.later|);
      c' := Descend(c);
    case Leaving => c' := c.(guest := Nobody);
  }

  lemma NobodyStuck(states: seq<State>, actions: seq<Action>, i: nat) returns (e: Event, s': State)
    requires Run(states, actions) && i < |states| && !Quiet(states[i].root)
    ensures MoveStep(states[i], e, s')
  {
    RunInv(states, actions, i);
    var c: Chain;
    e, c := SomeoneSteps(states[i].root);
    s' := states[i].(root := c);
  }
}
