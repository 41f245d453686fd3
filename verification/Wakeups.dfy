// The run queue while calls interleave: a getter is chosen under the lock but resumed after it.
module Wakeups {
  import opened Lists
  import opened Runques
  import opened Values

  // parked: the waiting getters, top of the stack first; flying: those taken off the stack whose
  // resumption has not run yet; results: what getters came back with. puts and given are history:
  // the accepted values, and to which getter each value went.
  datatype State = State(
    items: seq<Value>, parked: seq<nat>, flying: map<nat, Outcome<Value>>, results: map<nat, Outcome<Value>>,
    interrupted: bool, puts: seq<Value>, given: seq<Gift>)

  datatype Gift = Gift(getter: nat, value: Value)

  datatype Event = Get(g: nat, i: nat) | Put(v: Value) | Interrupt | Resume(g: nat)

  predicate Known(s: State, g: nat) { g in s.parked || g in s.flying || g in s.results }

  predicate Enabled(order: Order<Value>, s: State, e: Event) {
    match e
    case Get(g, i) => !Known(s, g) && (!s.interrupted && s.items != [] ==> i < |s.items| && order.Picks(s.items, i))
    case Put(_) => true
    case Interrupt => true
    case Resume(g) => g in s.flying
  }

  function Do(order: Order<Value>, s: State, e: Event): State
    requires Enabled(order, s, e)
  {
    match e
    case Get(g, i) =>
      if s.interrupted then s.(results := s.results[g := Thrown])
      else if s.items != [] then
        s.(items := Without(s.items, i), results := s.results[g := Got(s.items[i])],
           given := s.given + [Gift(g, s.items[i])])
      else s.(parked := [g] + s.parked)
    case Put(v) =>
      if s.interrupted then s
      else if s.parked == [] then s.(items := s.items + [v], puts := s.puts + [v])
      else
        s.(parked := s.parked[1..], flying := s.flying[s.parked[0] := Got(v)],
           puts := s.puts + [v], given := s.given + [Gift(s.parked[0], v)])
    case Interrupt =>
      s.(interrupted := true, parked := [], flying := s.flying + map g | g in s.parked :: Thrown)
    case Resume(g) => s.(results := s.results[g := s.flying[g]], flying := s.flying - {g})
  }

  function Init(): State { State([], [], map[], map[], false, [], []) }

  function ValuesOf(given: seq<Gift>): (r: seq<Value>)
    ensures |r| == |given|
  {
    if given == [] then [] else ValuesOf(given[..|given| - 1]) + [given[|given| - 1].value]
  }

  lemma ValuesSnoc(given: seq<Gift>, g: nat, v: Value)
    ensures ValuesOf(given + [Gift(g, v)]) == ValuesOf(given) + [v]
  {
    assert (given + [Gift(g, v)])[..|given|] == given;
  }

  // what is settled for a getter that no longer waits
  function Settled(s: State): map<nat, Outcome<Value>> { s.flying + s.results }

  ghost predicate Given(given: seq<Gift>, g: nat, v: Value) { Gift(g, v) in given }

  ghost predicate GetterInv(s: State, g: nat) {
    && !(g in s.flying && g in s.results)
    && (g in s.parked ==> g !in s.flying && g !in s.results)
    && (g in Settled(s) ==> Settled(s)[g] != Pending)
    && (forall v :: Given(s.given, g, v) <==> g in Settled(s) && Settled(s)[g] == Got(v))
  }

  ghost predicate Inv(order: Order<Value>, s: State) {
    && (forall g :: GetterInv(s, g))
    && (forall i, j | 0 <= i < j < |s.parked| :: s.parked[i] != s.parked[j])
    && (s.items != [] || s.interrupted ==> s.parked == [])
    && Accounted(order.Fifo?, s.puts, s.items, ValuesOf(s.given))
    && (forall i, j | 0 <= i < j < |s.given| :: s.given[i].getter != s.given[j].getter)
  }

  lemma GivenNew(s: State, g: nat, v: Value)
    requires (forall h :: GetterInv(s, h)) && g !in Settled(s)
    ensures forall j | 0 <= j < |s.given| :: s.given[j].getter != g
    ensures forall p :: p in s.given + [Gift(g, v)] <==> p in s.given || p == Gift(g, v)
  {
    forall j | 0 <= j < |s.given| ensures s.given[j].getter != g {
      var p := s.given[j];
      assert GetterInv(s, p.getter) && Given(s.given, p.getter, p.value);
    }
    forall p ensures p in s.given + [Gift(g, v)] <==> p in s.given || p == Gift(g, v) {
      SnocMember(s.given, Gift(g, v), p);
    }
  }

  lemma SnocMember(s: seq<Gift>, x: Gift, p: Gift)
    ensures p in s + [x] <==> p in s || p == x
  {
    var t := s + [x];
    if p in t {
      var k :| 0 <= k < |t| && t[k] == p;
      assert k < |s| ==> s[k] == p;
    }
    if p in s {
      var k :| 0 <= k < |s| && s[k] == p;
      assert t[k] == p;
    }
    assert t[|s|] == x;
  }

  // A getter that is not settled gets a value.
  lemma GiveOne(s: State, s': State, g: nat, v: Value, h: nat)
    requires GetterInv(s, h) && g !in Settled(s)
    requires forall p :: p in s'.given <==> p in s.given || p == Gift(g, v)
    requires Settled(s') == Settled(s)[g := Got(v)] && (h != g ==> (h in s'.parked ==> h in s.parked))
    requires !(g in s'.flying && g in s'.results) && g !in s'.parked
    requires h != g ==> (h in s'.flying <==> h in s.flying) && (h in s'.results <==> h in s.results)
    ensures GetterInv(s', h)
  {
    assert h in Settled(s') <==> h in s'.flying || h in s'.results;
    forall w ensures Given(s'.given, h, w) <==> h in Settled(s') && Settled(s')[h] == Got(w) {
      assert Given(s.given, h, w) <==> h in Settled(s) && Settled(s)[h] == Got(w);
      assert Gift(h, w) in s'.given <==> Gift(h, w) in s.given || Gift(h, w) == Gift(g, v);
    }
  }

  lemma TakeInv(order: Order<Value>, s: State, g: nat, i: nat)
    requires Inv(order, s) && !Known(s, g) && !s.interrupted && i < |s.items| && order.Picks(s.items, i)
    ensures Inv(order, Do(order, s, Get(g, i)))
  {
    var s', v := Do(order, s, Get(g, i)), s.items[i];
    AccountTaken(order, s.puts, s.items, ValuesOf(s.given), i);
    ValuesSnoc(s.given, g, v);
    GivenNew(s, g, v);
    assert Settled(s') == Settled(s)[g := Got(v)];
    forall h: nat ensures GetterInv(s', h) { assert GetterInv(s, h); GiveOne(s, s', g, v, h); }
  }

  lemma HandInv(order: Order<Value>, s: State, v: Value)
    requires Inv(order, s) && !s.interrupted && s.parked != []
    ensures Inv(order, Do(order, s, Put(v)))
  {
    var s', g := Do(order, s, Put(v)), s.parked[0];
    assert GetterInv(s, g);
    AccountHanded(order.Fifo?, s.puts, ValuesOf(s.given), v);
    ValuesSnoc(s.given, g, v);
    GivenNew(s, g, v);
    assert Settled(s') == Settled(s)[g := Got(v)];
    forall h: nat ensures GetterInv(s', h) { assert GetterInv(s, h); GiveOne(s, s', g, v, h); }
  }

  lemma GetInv(order: Order<Value>, s: State, g: nat, i: nat)
    requires Inv(order, s) && Enabled(order, s, Get(g, i)) && (s.interrupted || s.items == [])
    ensures Inv(order, Do(order, s, Get(g, i)))
  {
    var s' := Do(order, s, Get(g, i));
    assert GetterInv(s, g);
    forall h: nat ensures GetterInv(s', h) { assert GetterInv(s, h); }
  }

  lemma StoreInv(order: Order<Value>, s: State, v: Value)
    requires Inv(order, s) && !s.interrupted && s.parked == []
    ensures Inv(order, Do(order, s, Put(v)))
  {
    AccountStored(order.Fifo?, s.puts, s.items, ValuesOf(s.given), v);
    forall h: nat ensures GetterInv(Do(order, s, Put(v)), h) { assert GetterInv(s, h); }
  }

  lemma InterruptInv(order: Order<Value>, s: State)
    requires Inv(order, s)
    ensures Inv(order, Do(order, s, Interrupt))
  {
    forall h: nat ensures GetterInv(Do(order, s, Interrupt), h) { assert GetterInv(s, h); }
  }

  lemma ResumeInv(order: Order<Value>, s: State, g: nat)
    requires Inv(order, s) && g in s.flying
    ensures Inv(order, Do(order, s, Resume(g)))
  {
    var s' := Do(order, s, Resume(g));
    forall h: nat ensures GetterInv(s', h) {
      assert GetterInv(s, h) && GetterInv(s, g);
      assert Settled(s') == Settled(s);
    }
  }

  lemma StepInv(order: Order<Value>, s: State, e: Event)
    requires Inv(order, s) && Enabled(order, s, e)
    ensures Inv(order, Do(order, s, e))
  {
    match e
    case Get(g, i) => if s.interrupted || s.items == [] { GetInv(order, s, g, i); } else { TakeInv(order, s, g, i); }
    case Put(v) => if !s.interrupted { if s.parked == [] { StoreInv(order, s, v); } else { HandInv(order, s, v); } }
    case Interrupt => InterruptInv(order, s);
    case Resume(g) => ResumeInv(order, s, g);
  }

  ghost predicate Run(order: Order<Value>, ss: seq<State>, es: seq<Event>) {
    && |ss| == |es| + 1 && ss[0] == Init()
    && forall i | 0 <= i < |es| :: Enabled(order, ss[i], es[i]) && ss[i + 1] == Do(order, ss[i], es[i])
  }

  lemma {:induction false} RunInv(order: Order<Value>, ss: seq<State>, es: seq<Event>, i: nat)
    requires Run(order, ss, es) && i < |ss|
    ensures Inv(order, ss[i])
  {
    if i > 0 {
      RunInv(order, ss, es, i - 1);
      StepInv(order, ss[i - 1], es[i - 1]);
    }
  }

  // Every accepted value is stored or went to one getter, under fifo order in the order of the puts.
  lemma Conserved(order: Order<Value>, ss: seq<State>, es: seq<Event>, i: nat)
    requires Run(order, ss, es) && i < |ss|
    ensures multiset(ss[i].puts) == multiset(ss[i].items) + multiset(ValuesOf(ss[i].given))
    ensures order.Fifo? ==> ss[i].puts == ValuesOf(ss[i].given) + ss[i].items
    ensures ss[i].items == [] || ss[i].parked == []
    ensures forall j, k | 0 <= j < k < |ss[i].given| :: ss[i].given[j].getter != ss[i].given[k].getter
    ensures forall g, v :: Gift(g, v) in ss[i].given <==> g in Settled(ss[i]) && Settled(ss[i])[g] == Got(v)
  {
    RunInv(order, ss, es, i);
    forall g, v ensures Gift(g, v) in ss[i].given <==> g in Settled(ss[i]) && Settled(ss[i])[g] == Got(v) {
      assert GetterInv(ss[i], g) && (Given(ss[i].given, g, v) <==> Gift(g, v) in ss[i].given);
    }
  }

  // What an event means for getters and values: a getter throws iff the queue was interrupted, and else
  // takes what the discipline picks or is parked on top; a value is refused iff the queue was
  // interrupted, and else goes to the getter on top or is stored.
  lemma Answers(order: Order<Value>, s: State, e: Event)
    requires Inv(order, s) && Enabled(order, s, e)
    ensures var s' := Do(order, s, e);
      match e
      case Get(g, i) =>
        && (g in s'.parked <==> !s.interrupted && s.items == []) && (g in s'.results <==> g !in s'.parked)
        && (g in s'.parked ==> s'.parked == [g] + s.parked)
        && (g in s'.results ==> (s'.results[g] == Thrown <==> s.interrupted))
        && (g in s'.results && !s.interrupted ==> s'.results[g] == Got(s.items[i]) && order.Picks(s.items, i))
      case Put(v) =>
        && s'.puts == (if s.interrupted then s.puts else s.puts + [v])
        && (!s.interrupted && s.parked != [] ==> s.parked[0] in Settled(s') && Settled(s')[s.parked[0]] == Got(v))
        && (s'.items == if s.interrupted || s.parked != [] then s.items else s.items + [v])
      case Interrupt => s'.interrupted && s'.items == s.items
      case Resume(g) => g in s'.results && s'.results[g] == s.flying[g]
  {
    if e.Get? {
      assert GetterInv(s, e.g) && e.g !in Settled(s);
    } else if e.Put? && s.parked != [] {
      assert GetterInv(s, s.parked[0]);
    }
  }

  lemma SettledStep(order: Order<Value>, s: State, e: Event, g: nat)
    requires Inv(order, s) && Enabled(order, s, e) && g in Settled(s)
    ensures g in Settled(Do(order, s, e)) && Settled(Do(order, s, e))[g] == Settled(s)[g]
    ensures g in s.results ==> g in Do(order, s, e).results
    ensures e == Resume(g) ==> g in Do(order, s, e).results
  {
    assert GetterInv(s, g);
    if e.Put? && s.parked != [] { assert GetterInv(s, s.parked[0]); }
  }

  // What a getter is to come back with is settled once: a value or the exception, for good.
  lemma {:induction false} SettledOnce(order: Order<Value>, ss: seq<State>, es: seq<Event>, i: nat, j: nat, g: nat)
    requires Run(order, ss, es) && i <= j < |ss| && g in Settled(ss[i])
    ensures g in Settled(ss[j]) && Settled(ss[j])[g] == Settled(ss[i])[g] && (g in ss[i].results ==> g in ss[j].results)
    decreases j
  {
    if i < j {
      SettledOnce(order, ss, es, i, j - 1, g);
      RunInv(order, ss, es, j - 1);
      SettledStep(order, ss[j - 1], es[j - 1], g);
    }
  }

  // No getter is resumed twice.
  lemma ResumedOnce(order: Order<Value>, ss: seq<State>, es: seq<Event>, i: nat, j: nat, g: nat)
    requires Run(order, ss, es) && i < j < |es| && es[i] == Resume(g)
    ensures es[j] != Resume(g)
  {
    RunInv(order, ss, es, i);
    SettledStep(order, ss[i], es[i], g);
    SettledOnce(order, ss, es, i + 1, j, g);
    RunInv(order, ss, es, j);
    assert GetterInv(ss[j], g);
  }

  lemma {:induction false} InterruptedStays(order: Order<Value>, ss: seq<State>, es: seq<Event>, i: nat, j: nat)
    requires Run(order, ss, es) && i <= j < |ss| && ss[i].interrupted
    ensures ss[j].interrupted
    decreases j
  {
    if i < j { InterruptedStays(order, ss, es, i, j - 1); }
  }

  // An interrupt settles every waiting getter with the exception, and none waits afterwards.
  lemma InterruptWakesAll(order: Order<Value>, ss: seq<State>, es: seq<Event>, i: nat, j: nat, g: nat)
    requires Run(order, ss, es) && i < |es| && es[i] == Interrupt && i < j < |ss|
    ensures ss[j].parked == []
    ensures g in ss[i].parked ==> g in Settled(ss[j]) && Settled(ss[j])[g] == Thrown
  {
    InterruptedStays(order, ss, es, i + 1, j);
    RunInv(order, ss, es, i);
    RunInv(order, ss, es, j);
    assert GetterInv(ss[i], g);
    if g in ss[i].parked { SettledOnce(order, ss, es, i + 1, j, g); }
  }

  // The values put before the first interrupt.
  ghost function Accepted(es: seq<Event>): seq<Value> {
    if es == [] then []
    else
      var front, e := es[..|es| - 1], es[|es| - 1];
      Accepted(front) + if e.Put? && Interrupt !in front then [e.v] else []
  }

  lemma PutStep(order: Order<Value>, s: State, e: Event)
    requires Enabled(order, s, e)
    ensures Do(order, s, e).interrupted <==> s.interrupted || e == Interrupt
    ensures Do(order, s, e).puts == s.puts + if e.Put? && !s.interrupted then [e.v] else []
  {}

  lemma AcceptedSnoc(es: seq<Event>, e: Event)
    ensures Accepted(es + [e]) == Accepted(es) + if e.Put? && Interrupt !in es then [e.v] else []
    ensures Interrupt in es + [e] <==> Interrupt in es || e == Interrupt
  {
    assert (es + [e])[..|es|] == es;
  }

  // Every value put before the first interrupt was accepted, and no other.
  lemma {:induction false} PutsAccepted(order: Order<Value>, ss: seq<State>, es: seq<Event>, i: nat)
    requires Run(order, ss, es) && i < |ss|
    ensures ss[i].interrupted <==> Interrupt in es[..i]
    ensures ss[i].puts == Accepted(es[..i])
  {
    if i > 0 {
      PutsAccepted(order, ss, es, i - 1);
      PutStep(order, ss[i - 1], es[i - 1]);
      AcceptedSnoc(es[..i - 1], es[i - 1]);
      assert es[..i] == es[..i - 1] + [es[i - 1]];
    }
  }

  // Every getter that called is parked, on its way to be resumed, or back.
  lemma {:induction false} GettersKnown(order: Order<Value>, ss: seq<State>, es: seq<Event>, l: nat, i: nat)
    requires Run(order, ss, es) && l < i < |ss| && es[l].Get?
    ensures Known(ss[i], es[l].g)
    decreases i
  {
    if l < i - 1 {
      GettersKnown(order, ss, es, l, i - 1);
      KnownStep(order, ss[i - 1], es[i - 1], es[l].g);
    } else {
      GetKnown(order, ss[l], es[l]);
    }
  }

  lemma GetKnown(order: Order<Value>, s: State, e: Event)
    requires Enabled(order, s, e) && e.Get?
    ensures Known(Do(order, s, e), e.g)
  {}

  lemma KnownStep(order: Order<Value>, s: State, e: Event, g: nat)
    requires Enabled(order, s, e) && Known(s, g)
    ensures Known(Do(order, s, e), g)
  {
    if e.Put? && g in s.parked && !s.interrupted {
      var j :| 0 <= j < |s.parked| && s.parked[j] == g;
      assert j > 0 ==> s.parked[1..][j - 1] == g;
    }
  }

  // Nothing keeps a call from happening: a getter that has not called yet can, a put and an interrupt
  // always can, and a getter that is on its way can be resumed.
  lemma EveryCallCan(order: Order<Value>, s: State, g: nat, v: Value)
    ensures !Known(s, g) ==> exists i: nat :: Enabled(order, s, Get(g, i))
    ensures Enabled(order, s, Put(v)) && Enabled(order, s, Interrupt)
    ensures g in s.flying ==> Enabled(order, s, Resume(g))
  {
    if !Known(s, g) {
      var i := SomePick(order, s.items);
      assert Enabled(order, s, Get(g, i));
    }
  }

  lemma {:induction false} SomePick(order: Order<Value>, items: seq<Value>) returns (i: nat)
    ensures items != [] ==> i < |items| && order.Picks(items, i)
  {
    i := 0;
    if order.Lifo? && items != [] {
      i := |items| - 1;
    } else if order.Priority? && |items| > 1 {
      var front, l := items[..|items| - 1], |items| - 1;
      i := SomePick(order, front);
      if order.rank(items[i]) < order.rank(items[l]) { i := l; }
    }
  }
}
