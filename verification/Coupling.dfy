// Who holds and who wants which lock while calls interleave at every acquisition and release.
module Coupling {
  // The chain objects from the root, [], down to a chain. Two chains of one tag path that stand in
  // different segments, or were made one after the other, have different lines.
  type Line = seq<nat>

  datatype Lock = Meta | Chain(line: Line) | Runque

  function Up(l: Line): Lock {
    if l == [] then Meta else Chain(l[..|l| - 1])
  }

  predicate Deeper(a: Lock, b: Lock) {
    match a
    case Meta => false
    case Chain(l) => b.Meta? || (b.Chain? && |l| > |b.line|)
    case Runque => !b.Runque?
  }

  // Where a call stands. EnterRoot to Refused are reserve(), with left levels still to go down;
  // WantFill and Filling are release(); WantUpper to Cleaning are finalize(), and remove_child() when
  // removing; Activating and WantActivate are the recursive activation below top; the last three are
  // interrupt() and a call into the run queue made while standing at job. Which child a call goes on
  // to is up to the tree.
  datatype Job =
    | Done
    | EnterRoot(left: nat)
    | Standing(line: Line, left: nat)
    | Descending(line: Line, child: nat, left: nat)
    | Coupled(line: Line, child: nat, left: nat)
    | Reserved(line: Line)
    | Refused
    | WantFill(line: Line)
    | Filling(line: Line)
    | WantUpper(line: Line, removing: bool)
    | WantSelf(line: Line, removing: bool)
    | Both(line: Line, removing: bool)
    | WantChild(line: Line, child: nat)
    | AllThree(line: Line, child: nat)
    | Cleaning(line: Line)
    | Activating(top: Line, line: Line)
    | WantActivate(top: Line, line: Line, child: nat)
    | WantRoot
    | HoldRoot
    | Calling(job: Job, inside: bool)

  predicate Valid(j: Job) {
    match j
    case Cleaning(l) => l != []
    case Activating(t, l) => t <= l
    case WantActivate(t, l, _) => t <= l
    case Calling(i, _) => i == Done || (Valid(i) && MayCall(i))
    case _ => true
  }

  // put() and interrupt() of the runque happen under these locks only
  predicate MayCall(j: Job) {
    || (j.Standing? && j.left == 0) || j.Filling? || j.Activating? || j.HoldRoot?
    || (j.Both? && j.line == [] && !j.removing)
  }

  function Held(j: Job): set<Lock> {
    match j
    case Standing(l, _) => {Chain(l)}
    case Descending(l, _, _) => {Chain(l)}
    case Coupled(l, c, _) => {Chain(l), Chain(l + [c])}
    case Filling(l) => {Chain(l)}
    case WantSelf(l, _) => {Up(l)}
    case Both(l, _) => {Up(l), Chain(l)}
    case WantChild(l, _) => {Up(l), Chain(l)}
    case AllThree(l, c) => {Up(l), Chain(l), Chain(l + [c])}
    case Cleaning(l) => {Chain(l)}
    case Activating(t, l) => Between(t, l)
    case WantActivate(t, l, _) => Between(t, l)
    case HoldRoot => {Chain([])}
    case Calling(i, inside) => if inside then Held(i) + {Runque} else Held(i)
    case _ => {}
  }

  function Between(t: Line, l: Line): set<Lock> {
    set i | |t| <= i <= |l| :: Chain(l[..i])
  }

  datatype Wish = Nothing | Wants(lock: Lock)

  function Want(j: Job): Wish {
    match j
    case EnterRoot(_) => Wants(Chain([]))
    case Descending(l, c, _) => Wants(Chain(l + [c]))
    case WantFill(l) => Wants(Chain(l))
    case WantUpper(l, _) => Wants(Up(l))
    case WantSelf(l, _) => Wants(Chain(l))
    case WantChild(l, c) => Wants(Chain(l + [c]))
    case WantActivate(_, l, c) => Wants(Chain(l + [c]))
    case WantRoot => Wants(Chain([]))
    case Calling(_, inside) => if inside then Nothing else Wants(Runque)
    case _ => Nothing
  }

  predicate Terminal(j: Job) { j.Done? || j.Reserved? || j.Refused? }

  predicate Next(j: Job, j': Job) {
    match j
    case EnterRoot(n) => j' == Standing([], n)
    case Standing(l, n) =>
      || (n > 0 && j'.Descending? && j'.line == l && j'.left == n - 1)
      || (n == 0 && (j' == Reserved(l) || j' == Calling(j, false)))
      || (l == [] && j' == Refused)
    case Descending(l, c, n) => j' == Coupled(l, c, n)
    case Coupled(l, c, n) => j' == Standing(l + [c], n)
    case WantFill(l) => j' == Filling(l)
    case Filling(_) => j' == Done || j' == Calling(j, false)
    case WantUpper(l, r) => j' == WantSelf(l, r)
    case WantSelf(l, r) => j' == Both(l, r)
    case Both(l, r) =>
      if r then (j'.WantChild? && j'.line == l) || j' == Done
      else
        || j' == Activating(l, l)
        || (l == [] && (j' == Done || j' == Calling(j, false)))
        || (l != [] && j' == Cleaning(l))
    case WantChild(l, c) => j' == AllThree(l, c)
    case AllThree(l, _) => j' == Done || j' == Both(l, false)
    case Cleaning(l) => l != [] && j' == WantUpper(l[..|l| - 1], true)
    case Activating(t, l) =>
      || (j'.WantActivate? && j'.top == t && j'.line == l)
      || (|l| > |t| && j' == Activating(t, l[..|l| - 1]))
      || (|l| == |t| && j' == Done)
      || j' == Calling(j, false)
    case WantActivate(t, l, c) => j' == Activating(t, l + [c])
    case WantRoot => j' == HoldRoot
    case HoldRoot => j' == Done || j' == Calling(j, false)
    case Calling(i, inside) => if inside then j' == i else j' == Calling(i, true)
    case _ => false
  }

  // A wanted lock is deeper than every lock held: walks down couple, walks up hold nothing.
  lemma WantsDeeper(j: Job, h: Lock)
    requires Valid(j) && Want(j).Wants? && h in Held(j)
    ensures Deeper(Want(j).lock, h)
  {}

  lemma StepValid(j: Job, j': Job)
    requires Valid(j) && Next(j, j')
    ensures Valid(j')
  {
    if j.WantActivate? {
      ActivateHolds(j.top, j.line, j.child, Meta);
    } else if j.Activating? && j'.Activating? {
      LeaveHolds(j.top, j.line, Meta);
    }
  }

  lemma StepKeeps(j: Job, j': Job, l: Lock)
    requires Valid(j) && Next(j, j') && l in Held(j')
    ensures l in Held(j) || Want(j) == Wants(l)
  {
    if j.WantActivate? {
      ActivateHolds(j.top, j.line, j.child, l);
    } else if j.Activating? && j'.Activating? {
      LeaveHolds(j.top, j.line, l);
    } else if j.Both? {
      assert j.line[..|j.line|] == j.line;
    }
  }

  lemma StepGains(j: Job, j': Job)
    requires Valid(j) && Next(j, j') && Want(j).Wants?
    ensures Want(j).lock in Held(j')
  {
    if j.WantActivate? { ActivateHolds(j.top, j.line, j.child, Meta); }
  }

  lemma ActivateHolds(t: Line, l: Line, c: nat, h: Lock)
    requires t <= l
    ensures h in Between(t, l + [c]) ==> h in Between(t, l) || h == Chain(l + [c])
    ensures t <= l + [c] && Chain(l + [c]) in Between(t, l + [c])
  {
    assert (l + [c])[..|l| + 1] == l + [c];
    if h in Between(t, l + [c]) {
      var i :| |t| <= i <= |l + [c]| && h == Chain((l + [c])[..i]);
      if i <= |l| { assert (l + [c])[..i] == l[..i]; }
    }
  }

  lemma LeaveHolds(t: Line, l: Line, h: Lock)
    requires t <= l && |t| < |l|
    ensures t <= l[..|l| - 1] && (h in Between(t, l[..|l| - 1]) ==> h in Between(t, l))
  {
    if h in Between(t, l[..|l| - 1]) {
      var i :| |t| <= i <= |l| - 1 && h == Chain(l[..|l| - 1][..i]);
      assert l[..|l| - 1][..i] == l[..i];
    }
  }

  lemma SomeNext(j: Job) returns (j': Job)
    requires Valid(j) && !Terminal(j)
    ensures Next(j, j')
  {
    match j
    case EnterRoot(n) => j' := Standing([], n);
    case Standing(l, n) => j' := if n > 0 then Descending(l, 0, n - 1) else Reserved(l);
    case Descending(l, c, n) => j' := Coupled(l, c, n);
    case Coupled(l, c, n) => j' := Standing(l + [c], n);
    case WantFill(l) => j' := Filling(l);
    case WantUpper(l, r) => j' := WantSelf(l, r);
    case WantSelf(l, r) => j' := Both(l, r);
    case Both(l, r) => j' := if r then Done else Activating(l, l);
    case WantChild(l, c) => j' := AllThree(l, c);
    case Cleaning(l) => j' := WantUpper(l[..|l| - 1], true);
    case Activating(t, l) => j' := if |l| > |t| then Activating(t, l[..|l| - 1]) else Done;
    case WantActivate(t, l, c) => j' := Activating(t, l + [c]);
    case WantRoot => j' := HoldRoot;
    case Calling(i, inside) => j' := if inside then i else Calling(i, true);
    case _ => j' := Done;
  }

  type Jobs = map<nat, Job>

  predicate Available(s: Jobs, l: Lock) {
    forall t | t in s :: l !in Held(s[t])
  }

  ghost predicate Step(s: Jobs, s': Jobs, t: nat) {
    && t in s && t in s' && s' == s[t := s'[t]]
    && Next(s[t], s'[t])
    && (Want(s[t]).Wants? ==> Available(s, Want(s[t]).lock))
  }

  ghost predicate Sound(s: Jobs) {
    && (forall t | t in s :: Valid(s[t]))
    && (forall t, u, l | t in s && u in s && t != u && l in Held(s[t]) :: l !in Held(s[u]))
  }

  lemma StepSound(s: Jobs, s': Jobs, t: nat)
    requires Sound(s) && Step(s, s', t)
    ensures Sound(s')
  {
    forall u, v, l | u in s' && v in s' && u != v && l in Held(s'[u]) ensures l !in Held(s'[v]) {
      if u == t { StepKeeps(s[t], s'[t], l); }
      if v == t && l in Held(s'[t]) { StepKeeps(s[t], s'[t], l); }
    }
    StepValid(s[t], s'[t]);
  }

  // A call that goes on past a wanted lock holds it, and holds it alone.
  lemma Acquired(s: Jobs, s': Jobs, t: nat, u: nat)
    requires Sound(s) && Step(s, s', t) && Want(s[t]).Wants?
    ensures Want(s[t]).lock in Held(s'[t])
    ensures u in s' && u != t ==> Want(s[t]).lock !in Held(s'[u])
  {
    StepGains(s[t], s'[t]);
  }

  // No deadlock: whatever the calls hold, one that has not ended can step.
  lemma SomeCallSteps(s: Jobs, t: nat) returns (u: nat, s': Jobs)
    requires Sound(s) && t in s && !Terminal(s[t])
    ensures Step(s, s', u)
  {
    var waiting := set u | u in s && Want(s[u]).Wants?;
    if t in waiting {
      var d := Deepest(s, waiting);
      var w := Want(s[d]).lock;
      if Available(s, w) {
        u := d;
      } else {
        u :| u in s && w in Held(s[u]);
        if u in waiting { WantsDeeper(s[u], w); }
      }
    } else {
      u := t;
    }
    var j := SomeNext(s[u]);
    s' := s[u := j];
  }

  lemma {:induction false} Deepest(s: Jobs, calls: set<nat>) returns (d: nat)
    requires calls != {} && forall t | t in calls :: t in s && Want(s[t]).Wants?
    ensures d in calls
    ensures forall t | t in calls :: !Deeper(Want(s[t]).lock, Want(s[d]).lock)
  {
    d :| d in calls;
    if calls != {d} {
      var e := Deepest(s, calls - {d});
      if Deeper(Want(s[e]).lock, Want(s[d]).lock) { d := e; }
    }
  }

  // The chains that a call works in, whatever locks that takes: a finalization or a removal in its
  // chain and the parent, and a removal also in the child that it looks at.
  predicate WorksIn(j: Job, l: Line) {
    match j
    case Standing(k, _) => l == k
    case Descending(k, _, _) => l == k
    case Coupled(k, c, _) => l == k || l == k + [c]
    case Filling(k) => l == k
    case Both(k, _) => l == k || ParentOf(l, k)
    case WantChild(k, _) => l == k || ParentOf(l, k)
    case AllThree(k, c) => l == k || ParentOf(l, k) || l == k + [c]
    case Activating(t, k) => t <= l <= k
    case WantActivate(t, k, _) => t <= l <= k
    case HoldRoot => l == []
    case Calling(i, _) => WorksIn(i, l)
    case _ => false
  }

  predicate ParentOf(l: Line, k: Line) { k != [] && l == k[..|k| - 1] }

  lemma WorksHeld(j: Job, l: Line)
    requires Valid(j) && WorksIn(j, l)
    ensures Chain(l) in Held(j)
  {
    match j
    case Activating(t, k) => assert l == k[..|l|];
    case WantActivate(t, k, _) => assert l == k[..|l|];
    case Calling(i, _) => WorksHeld(i, l);
    case _ =>
  }

  predicate Starts(j: Job) {
    j.EnterRoot? || j.WantFill? || (j.WantUpper? && !j.removing) || j.WantRoot? || j == Calling(Done, false)
  }

  ghost predicate Run(ss: seq<Jobs>, ts: seq<nat>) {
    && |ss| == |ts| + 1
    && (forall t | t in ss[0] :: Starts(ss[0][t]))
    && forall i | 0 <= i < |ts| :: Step(ss[i], ss[i + 1], ts[i])
  }

  lemma {:induction false} RunSound(ss: seq<Jobs>, ts: seq<nat>, i: nat)
    requires Run(ss, ts) && i < |ss|
    ensures Sound(ss[i])
  {
    if i > 0 {
      RunSound(ss, ts, i - 1);
      StepSound(ss[i - 1], ss[i], ts[i - 1]);
    }
  }

  lemma NoDeadlock(ss: seq<Jobs>, ts: seq<nat>, i: nat, t: nat) returns (u: nat, s': Jobs)
    requires Run(ss, ts) && i < |ss| && t in ss[i] && !Terminal(ss[i][t])
    ensures Step(ss[i], s', u)
  {
    RunSound(ss, ts, i);
    u, s' := SomeCallSteps(ss[i], t);
  }

  // No two calls work in one chain at a time, and no two are in the run queue.
  lemma NoTwoWork(ss: seq<Jobs>, ts: seq<nat>, i: nat, t: nat, u: nat, l: Line)
    requires Run(ss, ts) && i < |ss| && t in ss[i] && u in ss[i] && t != u
    ensures !(WorksIn(ss[i][t], l) && WorksIn(ss[i][u], l))
    ensures !(ss[i][t].Calling? && ss[i][t].inside && ss[i][u].Calling? && ss[i][u].inside)
  {
    RunSound(ss, ts, i);
    if WorksIn(ss[i][t], l) && WorksIn(ss[i][u], l) {
      WorksHeld(ss[i][t], l);
      WorksHeld(ss[i][u], l);
    }
    if ss[i][t].Calling? && ss[i][t].inside { assert Runque in Held(ss[i][t]); }
  }

  predicate Reserves(j: Job) {
    match j
    case EnterRoot(_) => true
    case Standing(_, _) => true
    case Descending(_, _, _) => true
    case Coupled(_, _, _) => true
    case Reserved(_) => true
    case Refused => true
    case Calling(i, _) => Reserves(i)
    case _ => false
  }

  // the reservation has locked the root
  predicate Entered(j: Job) {
    match j
    case EnterRoot(_) => false
    case Calling(i, _) => Entered(i)
    case _ => true
  }

  // the chains it has locked so far, from the root down
  function LineOf(j: Job): Line {
    match j
    case Standing(l, _) => l
    case Descending(l, _, _) => l
    case Coupled(l, c, _) => l + [c]
    case Reserved(l) => l
    case Calling(i, _) => LineOf(i)
    case _ => []
  }

  // It has unlocked the chain at depth d of its line, its change there made. A refused reservation
  // changes nothing.
  predicate Left(j: Job, d: nat) {
    match j
    case Standing(l, _) => d < |l|
    case Descending(l, _, _) => d < |l|
    case Coupled(l, _, _) => d < |l|
    case Reserved(l) => d <= |l|
    case Refused => true
    case Calling(i, _) => Left(i, d)
    case _ => false
  }

  // A step of a reservation unlocks chains for good and locks at most the wanted one.
  lemma ReservesStep(j: Job, j': Job, d: nat)
    requires Valid(j) && Next(j, j') && Reserves(j)
    ensures Reserves(j') && (Left(j, d) ==> Left(j', d)) && (Entered(j) ==> Entered(j'))
    ensures if Entered(j) then LineOf(j') == LineOf(j) || Want(j) == Wants(Chain(LineOf(j')))
            else Want(j) == Wants(Chain(LineOf(j'))) && LineOf(j') == []
    ensures LineOf(j') != LineOf(j) ==>
      |LineOf(j')| == |LineOf(j)| + 1 && LineOf(j) <= LineOf(j') && !Left(j, |LineOf(j)|)
  {
    assert j.Calling? ==> Entered(j.job);
  }

  lemma NotHeldLeft(j: Job, d: nat)
    requires Valid(j) && Reserves(j) && Entered(j) && d <= |LineOf(j)| && Chain(LineOf(j)[..d]) !in Held(j)
    ensures Left(j, d)
  {
    assert LineOf(j)[..|LineOf(j)|] == LineOf(j);
    if j.Coupled? { assert (j.line + [j.child])[..|j.line|] == j.line; }
  }

  // Two reservations, of which the first has locked the root and the second may have, after it.
  datatype Pair = Pair(first: nat, second: nat) {
    ghost predicate In(s: Jobs) {
      && first in s && second in s && first != second
      && Reserves(s[first]) && Reserves(s[second]) && Entered(s[first])
    }

    // The first has left every chain that both have locked.
    ghost predicate InOrder(s: Jobs)
      requires In(s)
    {
      Entered(s[second]) ==> forall d | 0 <= d <= |LineOf(s[first])| && d <= |LineOf(s[second])| ::
        LineOf(s[first])[..d] == LineOf(s[second])[..d] ==> Left(s[first], d)
    }
  }

  lemma FirstStep(s: Jobs, s': Jobs, r: Pair, d: nat)
    requires Sound(s) && Step(s, s', r.first) && r.In(s) && r.InOrder(s) && Entered(s[r.second])
    requires d <= |LineOf(s'[r.first])| && d <= |LineOf(s[r.second])|
    requires LineOf(s'[r.first])[..d] == LineOf(s[r.second])[..d]
    ensures Left(s'[r.first], d)
  {
    var l, l', k := LineOf(s[r.first]), LineOf(s'[r.first]), LineOf(s[r.second]);
    ReservesStep(s[r.first], s'[r.first], d);
    assert |l| <= |l'| && l'[..|l|] == l == l[..|l|];
    assert d <= |l| ==> l'[..d] == l[..d];
    if d > |l| { PrefixPrefix(l', k, d, |l|); }
  }

  lemma PrefixPrefix(a: Line, b: Line, d: nat, e: nat)
    requires e <= d <= |a| && d <= |b| && a[..d] == b[..d]
    ensures a[..e] == b[..e]
  {
    assert a[..d][..e] == a[..e] && b[..d][..e] == b[..e];
  }

  lemma SecondStep(s: Jobs, s': Jobs, r: Pair, d: nat)
    requires Sound(s) && Step(s, s', r.second) && r.In(s) && r.InOrder(s)
    requires d <= |LineOf(s[r.first])| && d <= |LineOf(s'[r.second])|
    requires LineOf(s[r.first])[..d] == LineOf(s'[r.second])[..d]
    ensures Left(s[r.first], d)
  {
    var b, b', l := s[r.second], s'[r.second], LineOf(s[r.second]);
    ReservesStep(b, b', d);
    if Entered(b) && d <= |l| {
      assert LineOf(b')[..d] == l[..d];
    } else {
      assert LineOf(b')[..d] == LineOf(b');
      NotHeldLeft(s[r.first], d);
    }
  }

  lemma InOrderStep(s: Jobs, s': Jobs, t: nat, r: Pair)
    requires Sound(s) && Step(s, s', t) && r.In(s) && r.InOrder(s)
    ensures r.In(s') && r.InOrder(s')
  {
    if t == r.first || t == r.second { ReservesStep(s[t], s'[t], 0); }
    forall d | 0 <= d <= |LineOf(s'[r.first])| && d <= |LineOf(s'[r.second])|
        && LineOf(s'[r.first])[..d] == LineOf(s'[r.second])[..d] && Entered(s'[r.second])
      ensures Left(s'[r.first], d)
    {
      if t == r.first {
        FirstStep(s, s', r, d);
      } else if t == r.second {
        SecondStep(s, s', r, d);
      }
    }
  }

  // Of two reservations, the one that locks the root first is first in every chain that both lock:
  // when both have locked it, the first has left it.
  lemma {:induction false} NoOvertaking(ss: seq<Jobs>, ts: seq<nat>, i: nat, k: nat, r: Pair)
    requires Run(ss, ts) && i <= k < |ss| && r.In(ss[i]) && !Entered(ss[i][r.second])
    ensures r.In(ss[k]) && r.InOrder(ss[k])
    decreases k
  {
    if i < k {
      NoOvertaking(ss, ts, i, k - 1, r);
      assert Sound(ss[k - 1]) by { RunSound(ss, ts, k - 1); }
      assert Step(ss[k - 1], ss[k], ts[k - 1]);
      InOrderStep(ss[k - 1], ss[k], ts[k - 1], r);
    }
  }

  // A call that goes from one job to the next.
  ghost predicate Goes(js: seq<Job>) {
    js != [] && forall i | 0 <= i < |js| - 1 :: Next(js[i], js[i + 1])
  }

  // The locks that it takes on the way.
  function Taken(js: seq<Job>): (locks: seq<Lock>) {
    if js == [] then [] else Taken(js[..|js| - 1]) + Wished(js[|js| - 1])
  }

  function Wished(j: Job): seq<Lock> {
    if Want(j).Wants? then [Want(j).lock] else []
  }

  lemma Then(js: seq<Job>, k: Job) returns (ks: seq<Job>)
    requires Goes(js) && Next(js[|js| - 1], k)
    ensures Goes(ks) && ks[0] == js[0] && ks[|ks| - 1] == k && Taken(ks) == Taken(js) + Wished(k)
  {
    ks := js + [k];
    assert ks[..|js|] == js;
  }

  // a job that wants no lock
  lemma Also(js: seq<Job>, k: Job) returns (ks: seq<Job>)
    requires Goes(js) && Next(js[|js| - 1], k) && !Want(k).Wants?
    ensures Goes(ks) && ks[0] == js[0] && ks[|ks| - 1] == k && Taken(ks) == Taken(js)
  {
    ks := Then(js, k);
  }

  function Prefixes(l: Line): seq<Lock> {
    seq(|l| + 1, i requires 0 <= i <= |l| => Chain(l[..i]))
  }

  lemma PrefixesSnoc(l: Line, c: nat)
    ensures Prefixes(l + [c]) == Prefixes(l) + [Chain(l + [c])]
  {
    forall i | 0 <= i <= |l| ensures (l + [c])[..i] == l[..i] {}
    assert (l + [c])[..|l| + 1] == l + [c];
  }

  lemma PrefixesTail(l: Line, c: nat, i: nat)
    requires i <= |l| + 1
    ensures Prefixes(l + [c])[i..] == Prefixes(l)[i..] + [Chain(l + [c])]
  {
    PrefixesSnoc(l, c);
  }

  // A reservation can go down any line of chains and locks exactly those, from the root on.
  lemma {:induction false} DescentGoes(l: Line, left: nat) returns (js: seq<Job>)
    ensures Goes(js) && js[0] == EnterRoot(|l| + left) && js[|js| - 1] == Standing(l, left)
    ensures Taken(js) == Prefixes(l)
    decreases |l|
  {
    if l == [] {
      js := Then([EnterRoot(left)], Standing([], left));
      assert [EnterRoot(left)][..0] == [];
      assert Prefixes([]) == [Chain([])];
    } else {
      var m, c := l[..|l| - 1], l[|l| - 1];
      assert l == m + [c];
      var a := DescentGoes(m, left + 1);
      var b := Then(a, Descending(m, c, left));
      var d := Also(b, Coupled(m, c, left));
      js := Also(d, Standing(l, left));
      PrefixesSnoc(m, c);
    }
  }

  // The locks of the removals from the chain at l up to the root: each time the parent's parent, the
  // parent and the child. At the root the run queue is ended.
  function Climbed(l: Line): seq<Lock> {
    if l == [] then [Runque] else [Up(l[..|l| - 1]), Chain(l[..|l| - 1]), Chain(l)] + Climbed(l[..|l| - 1])
  }

  lemma Regrouped(a: seq<Lock>, x: Lock, y: Lock, z: Lock, b: seq<Lock>)
    ensures a + [x] + [y] == a + [x, y]
    ensures a + [x, y] + [z] + b == a + ([x, y, z] + b)
  {}

  // A call that has emptied the chain at l can remove it, and so on up to the root.
  lemma {:induction false} CascadeGoes(js: seq<Job>, l: Line) returns (ks: seq<Job>)
    requires Goes(js) && js[|js| - 1] == Both(l, false)
    ensures Goes(ks) && ks[0] == js[0] && ks[|ks| - 1] == Done && Taken(ks) == Taken(js) + Climbed(l)
    decreases |l|
  {
    if l == [] {
      ks := Then(js, Calling(Both([], false), false));
      ks := Also(ks, Calling(Both([], false), true));
      ks := Also(ks, Both([], false));
      ks := Also(ks, Done);
    } else {
      var m, c := l[..|l| - 1], l[|l| - 1];
      assert l == m + [c];
      var up := Lifted(js, m, c);
      var removed := Removed(up, m, c);
      ks := CascadeGoes(removed, m);
      Regrouped(Taken(js), Up(m), Chain(m), Chain(l), Climbed(m));
    }
  }

  lemma Lifted(js: seq<Job>, m: Line, c: nat) returns (ks: seq<Job>)
    requires Goes(js) && js[|js| - 1] == Both(m + [c], false)
    ensures Goes(ks) && ks[0] == js[0] && ks[|ks| - 1] == Both(m, true)
    ensures Taken(ks) == Taken(js) + [Up(m), Chain(m)]
  {
    assert (m + [c])[..|m|] == m;
    var a := Also(js, Cleaning(m + [c]));
    ks := BothTaken(a, m, true);
  }

  // the parent's lock and then the chain's
  lemma BothTaken(js: seq<Job>, l: Line, r: bool) returns (ks: seq<Job>)
    requires Goes(js) && Next(js[|js| - 1], WantUpper(l, r))
    ensures Goes(ks) && ks[0] == js[0] && ks[|ks| - 1] == Both(l, r)
    ensures Taken(ks) == Taken(js) + [Up(l), Chain(l)]
  {
    var a := Then(js, WantUpper(l, r));
    var b := Then(a, WantSelf(l, r));
    ks := Also(b, Both(l, r));
    Regrouped(Taken(js), Up(l), Chain(l), Chain(l), []);
  }

  lemma Removed(js: seq<Job>, m: Line, c: nat) returns (ks: seq<Job>)
    requires Goes(js) && js[|js| - 1] == Both(m, true)
    ensures Goes(ks) && ks[0] == js[0] && ks[|ks| - 1] == Both(m, false)
    ensures Taken(ks) == Taken(js) + [Chain(m + [c])]
  {
    var a := Then(js, WantChild(m, c));
    var b := Also(a, AllThree(m, c));
    ks := Also(b, Both(m, false));
  }

  // A finalization takes the locks of the parent and the chain, and can go on so.
  lemma FinalizeGoes(l: Line) returns (js: seq<Job>)
    ensures Goes(js) && js[0] == WantUpper(l, false) && js[|js| - 1] == Done
    ensures Taken(js) == [Up(l), Chain(l)] + Climbed(l)
  {
    var a := [WantUpper(l, false)];
    assert a[..0] == [] && Taken(a) == [Up(l)];
    var b := Then(a, WantSelf(l, false));
    var d := Also(b, Both(l, false));
    assert Taken(d) == [Up(l), Chain(l)];
    js := CascadeGoes(d, l);
  }

  lemma Associative(a: seq<Lock>, b: seq<Lock>, c: seq<Lock>)
    ensures a + b + c == a + (b + c)
  {}

  // Activation can go down any line below the chain it starts from and come back, locking what it passes.
  lemma {:induction false} ActivationGoes(js: seq<Job>, t: Line, l: Line) returns (ks: seq<Job>)
    requires Goes(js) && js[|js| - 1] == Activating(t, t) && t <= l
    ensures Goes(ks) && ks[0] == js[0] && ks[|ks| - 1] == Activating(t, l)
    ensures Taken(ks) == Taken(js) + Prefixes(l)[|t| + 1..]
    decreases |l|
  {
    if l == t {
      ks := js;
    } else {
      var m, c := l[..|l| - 1], l[|l| - 1];
      assert l == m + [c];
      var a := ActivationGoes(js, t, m);
      var b := Then(a, WantActivate(t, m, c));
      ks := Also(b, Activating(t, l));
      PrefixesSnoc(m, c);
      PrefixesTail(m, c, |t| + 1);
      Associative(Taken(js), Prefixes(m)[|t| + 1..], [Chain(l)]);
    }
  }
}
