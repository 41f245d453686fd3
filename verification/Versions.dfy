// The version check that decides a put-off removal, for the chain under one key of its parent.
module Versions {
  // A segment of the chain: how many siblings and children it has, and what add_sibling and
  // get_segment have counted. The id tells segment objects apart; no step reads it.
  datatype Segment = Segment(id: nat, siblings: nat, children: nat, version: nat) {
    predicate Empty() { siblings == 0 && children == 0 }
  }

  // What clean_parent read before it gave its locks up.
  datatype Ticket = Ticket(id: nat, version: nat)

  // segments is empty while the parent has no chain under the key.
  datatype Slot = Slot(segments: seq<Segment>, tickets: seq<Ticket>, made: nat) {
    predicate Vacant() { |segments| == 1 && segments[0].Empty() }
  }

  datatype Event =
    | PassSibling
    | PassChild(isNew: bool)
    | PopSibling
    | DropChild
    | Remove(i: nat)
    | Uncover(segments: seq<Segment>)

  // ensure_child of the parent
  function Ensure(s: Slot): (r: Slot)
    ensures r.segments != []
  {
    if s.segments != [] then s
    else s.(segments := [Segment(s.made, 0, 0, 0)], made := s.made + 1)
  }

  function SetLast(s: Slot, g: Segment): Slot
    requires s.segments != []
  {
    s.(segments := s.segments[..|s.segments| - 1] + [g])
  }

  function AddSibling(s: Slot): Slot
    requires s.segments != []
  {
    var g := s.segments[|s.segments| - 1];
    if g.children > 0 then
      s.(segments := s.segments + [Segment(s.made, 1, 0, 1)], made := s.made + 1)
    else SetLast(s, g.(siblings := g.siblings + 1, version := g.version + 1))
  }

  function EnsureChild(s: Slot, isNew: bool): Slot
    requires s.segments != []
  {
    var g := s.segments[|s.segments| - 1];
    SetLast(s, g.(children := if isNew then g.children + 1 else g.children, version := g.version + 1))
  }

  // The front segment has become g: next_segment, unless it still holds something.
  function Settle(s: Slot, g: Segment): Slot
    requires s.segments != []
  {
    var s' := s.(segments := [g] + s.segments[1..]);
    if !g.Empty() then s'
    else if |s.segments| > 1 then s.(segments := s.segments[1..])
    else s'.(tickets := s.tickets + [Ticket(g.id, g.version)])
  }

  // A chain that reservations have filled behind the parent's front segment: its segments are not
  // those of any chain the slot held, and it is not empty.
  predicate Covered(s: Slot, segments: seq<Segment>) {
    && segments != [] && !(|segments| == 1 && segments[0].Empty())
    && (forall i | 0 <= i < |segments| :: segments[i].id == s.made + i)
    && (forall i | 1 <= i < |segments| :: segments[i].siblings > 0)
    && (forall i | 0 <= i < |segments| - 1 :: segments[i].children > 0)
  }

  predicate Enabled(s: Slot, e: Event) {
    match e
    case PassSibling => true
    case PassChild(isNew) => !isNew ==> s.segments != [] && s.segments[|s.segments| - 1].children > 0
    case PopSibling => s.segments != [] && s.segments[0].siblings > 0
    case DropChild => s.segments != [] && s.segments[0].siblings == 0 && s.segments[0].children > 0
    case Remove(i) => i < |s.tickets|
    case Uncover(segments) => s.segments == [] && Covered(s, segments)
  }

  predicate Matches(s: Slot, t: Ticket) {
    s.segments != [] && s.segments[0].version == t.version
  }

  function Do(s: Slot, e: Event): Slot
    requires Enabled(s, e)
  {
    match e
    case PassSibling => AddSibling(Ensure(s))
    case PassChild(isNew) => EnsureChild(Ensure(s), isNew)
    case PopSibling => Settle(s, s.segments[0].(siblings := s.segments[0].siblings - 1))
    case DropChild => Settle(s, s.segments[0].(children := s.segments[0].children - 1))
    case Remove(i) =>
      var rest := s.tickets[..i] + s.tickets[i + 1..];
      s.(tickets := rest, segments := if Matches(s, s.tickets[i]) then [] else s.segments)
    case Uncover(segments) => s.(segments := segments, made := s.made + |segments|)
  }

  predicate Current(s: Slot, t: Ticket) {
    s.segments != [] && s.segments[0].id == t.id
  }

  ghost predicate TicketInv(s: Slot, t: Ticket) {
    && t.id < s.made
    && (forall j | 1 <= j < |s.segments| :: s.segments[j].id != t.id)
    && (Current(s, t) ==> t.version <= s.segments[0].version)
    && (Current(s, t) && Matches(s, t) ==> s.Vacant())
  }

  ghost predicate Inv(s: Slot) {
    && (forall i | 0 <= i < |s.segments| :: s.segments[i].id < s.made)
    && (forall i, j | 0 <= i < j < |s.segments| :: s.segments[i].id != s.segments[j].id)
    && (forall i | 1 <= i < |s.segments| :: s.segments[i].siblings > 0)
    && (forall i | 0 <= i < |s.segments| - 1 :: s.segments[i].children > 0)
    && (forall i | 0 <= i < |s.tickets| :: TicketInv(s, s.tickets[i]))
  }

  // Someone is on the way to remove the empty chain and will find its version.
  ghost predicate Expected(s: Slot) {
    s.Vacant() ==> exists i | 0 <= i < |s.tickets| :: Current(s, s.tickets[i]) && Matches(s, s.tickets[i])
  }

  ghost predicate Sound(s: Slot) { Inv(s) && Expected(s) }

  lemma PassInv(s: Slot, e: Event)
    requires Sound(s) && Enabled(s, e) && (e.PassSibling? || e.PassChild?)
    ensures Sound(Do(s, e))
  {
    var s' := Do(s, e);
    forall i | 0 <= i < |s'.tickets| ensures TicketInv(s', s'.tickets[i]) { assert TicketInv(s, s.tickets[i]); }
  }

  lemma SettleInv(s: Slot, g: Segment)
    requires Sound(s) && s.segments != [] && g.id == s.segments[0].id && g.version == s.segments[0].version
    requires !s.segments[0].Empty() && (|s.segments| > 1 ==> g.children > 0 || g.Empty())
    ensures Sound(Settle(s, g))
  {
    var s' := Settle(s, g);
    forall i | 0 <= i < |s'.tickets| ensures TicketInv(s', s'.tickets[i]) {
      if i < |s.tickets| { assert TicketInv(s, s.tickets[i]); }
    }
    if s'.Vacant() {
      var n := |s.tickets|;
      assert Current(s', s'.tickets[n]) && Matches(s', s'.tickets[n]);
    }
  }

  lemma RemoveInv(s: Slot, i: nat)
    requires Sound(s) && i < |s.tickets|
    ensures Sound(Do(s, Remove(i)))
  {
    var s' := Do(s, Remove(i));
    forall j | 0 <= j < |s'.tickets| ensures TicketInv(s', s'.tickets[j]) {
      assert TicketInv(s, s.tickets[if j < i then j else j + 1]);
    }
    if s'.Vacant() {
      var k :| 0 <= k < |s.tickets| && Current(s, s.tickets[k]) && Matches(s, s.tickets[k]);
      assert s'.tickets[if k < i then k else k - 1] == s.tickets[k];
    }
  }

  lemma UncoverInv(s: Slot, segments: seq<Segment>)
    requires Sound(s) && Enabled(s, Uncover(segments))
    ensures Sound(Do(s, Uncover(segments)))
  {
    var s' := Do(s, Uncover(segments));
    forall i | 0 <= i < |s'.tickets| ensures TicketInv(s', s'.tickets[i]) { assert TicketInv(s, s.tickets[i]); }
  }

  lemma StepInv(s: Slot, e: Event)
    requires Sound(s) && Enabled(s, e)
    ensures Sound(Do(s, e))
  {
    match e
    case PassSibling => PassInv(s, e);
    case PassChild(_) => PassInv(s, e);
    case PopSibling => SettleInv(s, s.segments[0].(siblings := s.segments[0].siblings - 1));
    case DropChild => SettleInv(s, s.segments[0].(children := s.segments[0].children - 1));
    case Remove(i) => RemoveInv(s, i);
    case Uncover(segments) => UncoverInv(s, segments);
  }

  function Init(): Slot { Slot([], [], 0) }

  // The slot after the events, when each of them can happen.
  ghost predicate Leads(s: Slot, es: seq<Event>, s': Slot)
    decreases |es|
  {
    if es == [] then s' == s else Enabled(s, es[0]) && Leads(Do(s, es[0]), es[1..], s')
  }

  lemma {:induction false} LeadsSound(s: Slot, es: seq<Event>, s': Slot)
    requires Sound(s) && Leads(s, es, s')
    ensures Sound(s')
    decreases |es|
  {
    if es != [] {
      StepInv(s, es[0]);
      LeadsSound(Do(s, es[0]), es[1..], s');
    }
  }

  // The reservations that passed the segment id, or were appended to it: it was the last afterwards.
  ghost function Passes(s: Slot, es: seq<Event>, id: nat): nat
    requires AllEnabled(s, es)
    decreases |es|
  {
    if es == [] then 0
    else
      var s' := Do(s, es[0]);
      var last := (es[0].PassSibling? || es[0].PassChild?) && s'.segments != [] &&
        s'.segments[|s'.segments| - 1].id == id;
      (if last then 1 else 0) + Passes(s', es[1..], id)
  }

  ghost predicate AllEnabled(s: Slot, es: seq<Event>)
    decreases |es|
  {
    es == [] || (Enabled(s, es[0]) && AllEnabled(Do(s, es[0]), es[1..]))
  }

  // The version that segment id has if it is there.
  function VersionIn(segments: seq<Segment>, id: nat): nat {
    if segments == [] then 0 else if segments[0].id == id then segments[0].version else VersionIn(segments[1..], id)
  }

  // The version with which segment id came up, if it did, with a chain from behind the parent's front.
  ghost function Brought(s: Slot, es: seq<Event>, id: nat): nat
    requires AllEnabled(s, es)
    decreases |es|
  {
    if es == [] then 0
    else (if es[0].Uncover? then VersionIn(es[0].segments, id) else 0) + Brought(Do(s, es[0]), es[1..], id)
  }

  predicate Known(segments: seq<Segment>, id: nat) { exists i | 0 <= i < |segments| :: segments[i].id == id }

  lemma {:induction false} LeadsEnabled(s: Slot, es: seq<Event>, s': Slot)
    requires Leads(s, es, s')
    ensures AllEnabled(s, es)
    decreases |es|
  {
    if es != [] { LeadsEnabled(Do(s, es[0]), es[1..], s'); }
  }

  lemma {:induction false} VersionAt(segments: seq<Segment>, i: nat)
    requires i < |segments| && forall j, k | 0 <= j < k < |segments| :: segments[j].id != segments[k].id
    ensures VersionIn(segments, segments[i].id) == segments[i].version
    decreases i
  {
    if i > 0 { VersionAt(segments[1..], i - 1); }
  }

  lemma {:induction false} VersionNone(segments: seq<Segment>, id: nat)
    requires !Known(segments, id)
    ensures VersionIn(segments, id) == 0
    decreases |segments|
  {
    if segments != [] {
      assert segments[0].id != id;
      assert forall i | 0 <= i < |segments| - 1 :: segments[1..][i] == segments[i + 1];
      VersionNone(segments[1..], id);
    }
  }

  // A segment that is there has been there or is new.
  lemma {:induction false} LeadsNew(s: Slot, es: seq<Event>, s': Slot, id: nat)
    requires Leads(s, es, s') && Sound(s) && Known(s'.segments, id)
    ensures Known(s.segments, id) || id >= s.made
    decreases |es|
  {
    if es != [] {
      StepInv(s, es[0]);
      LeadsNew(Do(s, es[0]), es[1..], s', id);
      StepNew(s, es[0], id);
    }
  }

  lemma StepNew(s: Slot, e: Event, id: nat)
    requires Sound(s) && Enabled(s, e) && (Known(Do(s, e).segments, id) || id >= Do(s, e).made)
    ensures Known(s.segments, id) || id >= s.made
  {}

  // What one event does to the version of a segment that is there afterwards.
  lemma StepVersion(s: Slot, e: Event, i: nat)
    requires Sound(s) && Enabled(s, e) && i < |Do(s, e).segments|
    ensures var s', id := Do(s, e), Do(s, e).segments[i].id;
      VersionIn(s'.segments, id) == VersionIn(s.segments, id)
        + (if (e.PassSibling? || e.PassChild?) && s'.segments[|s'.segments| - 1].id == id then 1 else 0)
        + (if e.Uncover? then VersionIn(e.segments, id) else 0)
  {
    var s' := Do(s, e);
    StepInv(s, e);
    VersionAt(s'.segments, i);
    if e.PassSibling? || e.PassChild? {
      PassVersion(s, e, i);
    } else if e.Uncover? {
      VersionNone(s.segments, s'.segments[i].id);
    } else if !e.Remove? {
      var j := if |s'.segments| < |s.segments| then i + 1 else i;
      VersionAt(s.segments, j);
    }
  }

  lemma PassVersion(s: Slot, e: Event, i: nat)
    requires Sound(s) && Enabled(s, e) && (e.PassSibling? || e.PassChild?) && i < |Do(s, e).segments|
    ensures var l := |Do(s, e).segments| - 1;
      Do(s, e).segments[i].version == VersionIn(s.segments, Do(s, e).segments[i].id) + if i == l then 1 else 0
  {
    var s' := Do(s, e);
    if i < |s.segments| {
      VersionAt(s.segments, i);
    } else {
      VersionNone(s.segments, s'.segments[i].id);
    }
  }

  function Siblings(segments: seq<Segment>): nat {
    if segments == [] then 0 else Siblings(segments[..|segments| - 1]) + segments[|segments| - 1].siblings
  }

  function Children(segments: seq<Segment>): nat {
    if segments == [] then 0 else Children(segments[..|segments| - 1]) + segments[|segments| - 1].children
  }

  lemma CountSnoc(front: seq<Segment>, g: Segment)
    ensures Siblings(front + [g]) == Siblings(front) + g.siblings
    ensures Children(front + [g]) == Children(front) + g.children
  {
    assert (front + [g])[..|front|] == front;
  }

  lemma {:induction false} CountCons(g: Segment, rest: seq<Segment>)
    ensures Siblings([g] + rest) == g.siblings + Siblings(rest) && Children([g] + rest) == g.children + Children(rest)
    decreases |rest|
  {
    if rest == [] {
      assert [g] + rest == [] + [g];
      CountSnoc([], g);
    } else {
      var front, l := rest[..|rest| - 1], rest[|rest| - 1];
      CountCons(g, front);
      CountSnoc([g] + front, l);
      CountSnoc(front, l);
      assert [g] + rest == ([g] + front) + [l] && rest == front + [l];
    }
  }

  // The last segment changes, or one comes behind it.
  lemma LastConserves(a: seq<Segment>, b: seq<Segment>)
    requires a != [] && b != [] && (b == a + [b[|b| - 1]] || (|b| == |a| && b == a[..|a| - 1] + [b[|b| - 1]]))
    ensures var l := b[|b| - 1];
      if |b| > |a| then Siblings(b) == Siblings(a) + l.siblings && Children(b) == Children(a) + l.children
      else
        && Siblings(b) == Siblings(a) - a[|a| - 1].siblings + l.siblings
        && Children(b) == Children(a) - a[|a| - 1].children + l.children
  {
    var front, g, l := a[..|a| - 1], a[|a| - 1], b[|b| - 1];
    assert a == front + [g];
    CountSnoc(front, g);
    if |b| > |a| { CountSnoc(a, l); } else { CountSnoc(front, l); }
  }

  lemma EnsureConserves(s: Slot)
    ensures Siblings(Ensure(s).segments) == Siblings(s.segments) && Children(Ensure(s).segments) == Children(s.segments)
  {
    if s.segments == [] {
      CountSnoc([], Segment(s.made, 0, 0, 0));
      assert [] + [Segment(s.made, 0, 0, 0)] == [Segment(s.made, 0, 0, 0)];
    }
  }

  lemma PassConserves(s: Slot, e: Event)
    requires Enabled(s, e) && (e.PassSibling? || e.PassChild?)
    ensures Siblings(Do(s, e).segments) == Siblings(s.segments) + if e.PassSibling? then 1 else 0
    ensures Children(Do(s, e).segments) == Children(s.segments) + if e.PassChild? && e.isNew then 1 else 0
  {
    EnsureConserves(s);
    LastConserves(Ensure(s).segments, Do(s, e).segments);
  }

  lemma TakeConserves(s: Slot, e: Event)
    requires Sound(s) && Enabled(s, e) && (e.PopSibling? || e.DropChild?)
    ensures Siblings(Do(s, e).segments) == Siblings(s.segments) - if e.PopSibling? then 1 else 0
    ensures Children(Do(s, e).segments) == Children(s.segments) - if e.DropChild? then 1 else 0
  {
    var a, b := s.segments, Do(s, e).segments;
    assert a == [a[0]] + a[1..];
    CountCons(a[0], a[1..]);
    if |b| == |a| {
      CountCons(b[0], b[1..]);
      assert b == [b[0]] + b[1..] && b[1..] == a[1..];
    }
  }

  // Nothing is lost or made but by the event itself: each adds or takes one sibling or child, and a
  // removal erases the whole chain if it matches and nothing if it does not.
  lemma StepConserves(s: Slot, e: Event)
    requires Sound(s) && Enabled(s, e) && !e.Uncover?
    ensures var s' := Do(s, e);
      if e.Remove? then s'.segments == if Matches(s, s.tickets[e.i]) then [] else s.segments
      else
        && Siblings(s'.segments) ==
             Siblings(s.segments) + (if e.PassSibling? then 1 else if e.PopSibling? then -1 else 0)
        && Children(s'.segments) ==
             Children(s.segments) + (if e.PassChild? && e.isNew then 1 else if e.DropChild? then -1 else 0)
  {
    if e.PassSibling? || e.PassChild? {
      PassConserves(s, e);
    } else if !e.Remove? {
      TakeConserves(s, e);
    }
  }

  lemma {:induction false} VersionCounts(s: Slot, es: seq<Event>, s': Slot, i: nat)
    requires Leads(s, es, s') && Sound(s) && i < |s'.segments|
    ensures AllEnabled(s, es)
    ensures var id := s'.segments[i].id;
      s'.segments[i].version == VersionIn(s.segments, id) + Brought(s, es, id) + Passes(s, es, id)
    decreases |es|
  {
    LeadsEnabled(s, es, s');
    LeadsSound(s, es, s');
    VersionAt(s'.segments, i);
    if es != [] {
      var e, s1, id := es[0], Do(s, es[0]), s'.segments[i].id;
      StepInv(s, e);
      VersionCounts(s1, es[1..], s', i);
      if j :| 0 <= j < |s1.segments| && s1.segments[j].id == id {
        StepVersion(s, e, j);
      } else {
        LeadsNew(s1, es[1..], s', id);
        VersionGone(s, e, id);
      }
    }
  }

  // A segment that is made only later has no version yet.
  lemma VersionGone(s: Slot, e: Event, id: nat)
    requires Sound(s) && Enabled(s, e) && !Known(Do(s, e).segments, id) && id >= Do(s, e).made
    ensures VersionIn(s.segments, id) == VersionIn(Do(s, e).segments, id) == 0
    ensures e.Uncover? ==> VersionIn(e.segments, id) == 0
    ensures (e.PassSibling? || e.PassChild?) ==> Do(s, e).segments[|Do(s, e).segments| - 1].id != id
  {
    VersionNone(s.segments, id);
    VersionNone(Do(s, e).segments, id);
  }

  // The version of a segment is the number of reservations of either kind that passed it since it was
  // made, on top of what it came up with.
  lemma VersionIsPasses(es: seq<Event>, s: Slot, i: nat)
    requires Leads(Init(), es, s) && i < |s.segments|
    ensures AllEnabled(Init(), es)
    ensures s.segments[i].version == Brought(Init(), es, s.segments[i].id) + Passes(Init(), es, s.segments[i].id)
  {
    VersionCounts(Init(), es, s, i);
  }

  // While the front segment is the one whose version was read, a match means an empty chain,
  // whatever ran in between.
  lemma SameSegmentSound(es: seq<Event>, s: Slot, t: Ticket)
    requires Leads(Init(), es, s) && t in s.tickets && Current(s, t)
    ensures Matches(s, t) ==> s.Vacant()
  {
    LeadsSound(Init(), es, s);
    var i :| 0 <= i < |s.tickets| && s.tickets[i] == t;
    assert TicketInv(s, s.tickets[i]);
  }

  // An empty chain has a removal on its way that read this very segment and will match.
  lemma EmptyExpected(es: seq<Event>, s: Slot)
    requires Leads(Init(), es, s) && s.Vacant()
    ensures exists u :: u in s.tickets && Current(s, u) && Matches(s, u)
  {
    LeadsSound(Init(), es, s);
  }

  // Exactly when a removal that matches erases an empty chain: when some pending removal, this one
  // or another, read this very segment at this version.
  lemma MatchExact(es: seq<Event>, s: Slot, t: Ticket)
    requires Leads(Init(), es, s) && t in s.tickets && Matches(s, t)
    ensures s.Vacant() <==> exists u :: u in s.tickets && Current(s, u) && Matches(s, u)
  {
    if s.Vacant() { EmptyExpected(es, s); }
    if u :| u in s.tickets && Current(s, u) && Matches(s, u) { SameSegmentSound(es, s, u); }
  }

  lemma LeadsCons(s: Slot, e: Event, s1: Slot, es: seq<Event>, s': Slot)
    requires Enabled(s, e) && Do(s, e) == s1 && Leads(s1, es, s')
    ensures Leads(s, [e] + es, s')
  {
    assert ([e] + es)[1..] == es;
  }

  lemma FirstApart(es: seq<Event>, fs: seq<Event>)
    requires es != []
    ensures es + fs == [es[0]] + (es[1..] + fs)
  {}

  lemma {:induction false} LeadsOn(s: Slot, es: seq<Event>, s': Slot, fs: seq<Event>, s'': Slot)
    requires Leads(s, es, s') && Leads(s', fs, s'')
    ensures Leads(s, es + fs, s'')
    decreases |es|
  {
    if es == [] {
      assert es + fs == fs;
    } else {
      var s1 := Do(s, es[0]);
      LeadsOn(s1, es[1..], s', fs, s'');
      LeadsCons(s, es[0], s1, es[1..] + fs, s'');
      FirstApart(es, fs);
    }
  }

  function Times(e: Event, n: nat): (r: seq<Event>)
    ensures forall i | 0 <= i < |r| :: r[i] == e
  {
    if n == 0 then [] else [e] + Times(e, n - 1)
  }

  lemma PassOne(g: Segment, ts: seq<Ticket>, made: nat)
    requires g.children == 0
    ensures Do(Slot([g], ts, made), PassSibling) ==
        Slot([g.(siblings := g.siblings + 1, version := g.version + 1)], ts, made)
  {}

  lemma PopOne(g: Segment, ts: seq<Ticket>, made: nat)
    requires g.children == 0 && g.siblings > 0
    ensures var h := g.(siblings := g.siblings - 1);
      Do(Slot([g], ts, made), PopSibling) ==
        Slot([h], if h.siblings == 0 then ts + [Ticket(g.id, g.version)] else ts, made)
  {
    assert [g.(siblings := g.siblings - 1)] + [g][1..] == [g.(siblings := g.siblings - 1)];
  }

  lemma {:induction false} PassMany(g: Segment, ts: seq<Ticket>, made: nat, n: nat)
    requires g.children == 0
    ensures Leads(Slot([g], ts, made), Times(PassSibling, n),
                  Slot([g.(siblings := g.siblings + n, version := g.version + n)], ts, made))
    decreases n
  {
    if n > 0 {
      var h := g.(siblings := g.siblings + 1, version := g.version + 1);
      var last := Slot([g.(siblings := g.siblings + n, version := g.version + n)], ts, made);
      assert g.(siblings := g.siblings + n, version := g.version + n) ==
        h.(siblings := h.siblings + (n - 1), version := h.version + (n - 1));
      PassMany(h, ts, made, n - 1);
      PassOne(g, ts, made);
      LeadsCons(Slot([g], ts, made), PassSibling, Slot([h], ts, made), Times(PassSibling, n - 1), last);
    }
  }

  lemma {:induction false} PopMany(g: Segment, ts: seq<Ticket>, made: nat)
    requires g.children == 0 && g.siblings > 0
    ensures Leads(Slot([g], ts, made), Times(PopSibling, g.siblings),
                  Slot([g.(siblings := 0)], ts + [Ticket(g.id, g.version)], made))
    decreases g.siblings
  {
    var h := g.(siblings := g.siblings - 1);
    var last := Slot([g.(siblings := 0)], ts + [Ticket(g.id, g.version)], made);
    PopOne(g, ts, made);
    if h.siblings > 0 { PopMany(h, ts, made); }
    LeadsCons(
      Slot([g], ts, made), PopSibling, Do(Slot([g], ts, made), PopSibling), Times(PopSibling, h.siblings), last);
  }

  lemma LeadsOne(s: Slot, e: Event)
    requires Enabled(s, e)
    ensures Leads(s, [e], Do(s, e))
  {
    assert Leads(Do(s, e), [e][1..], Do(s, e));
  }

  function Used(v: nat): Slot { Slot([Segment(0, 0, 0, v)], [Ticket(0, v)], 1) }

  function Renewed(v: nat, n: nat): Slot { Slot([Segment(1, n, 0, n)], [Ticket(0, v)], 2) }

  lemma EmptyOut(v: nat)
    requires v > 0
    ensures Leads(Slot([Segment(0, v, 0, v)], [], 1), Times(PopSibling, v), Used(v))
  {
    PopMany(Segment(0, v, 0, v), [], 1);
    assert [] + [Ticket(0, v)] == [Ticket(0, v)];
  }

  function MakeEvents(v: nat): seq<Event>
    requires v > 0
  {
    [PassSibling] + Times(PassSibling, v - 1)
  }

  // v reservations make the chain and v finalizations empty it.
  lemma Made(v: nat)
    requires v > 0
    ensures Leads(Init(), MakeEvents(v), Slot([Segment(0, v, 0, v)], [], 1))
  {
    var a := Slot([Segment(0, 1, 0, 1)], [], 1);
    assert Do(Init(), PassSibling) == a;
    PassMany(a.segments[0], [], 1, v - 1);
    LeadsCons(Init(), PassSibling, a, Times(PassSibling, v - 1), Slot([Segment(0, v, 0, v)], [], 1));
  }

  lemma FirstUse(v: nat) returns (es: seq<Event>)
    requires v > 0
    ensures Leads(Init(), es, Used(v)) && forall i | 0 <= i < |es| :: !es[i].Remove?
  {
    Made(v);
    EmptyOut(v);
    LeadsOn(Init(), MakeEvents(v), Slot([Segment(0, v, 0, v)], [], 1), Times(PopSibling, v), Used(v));
    es := MakeEvents(v) + Times(PopSibling, v);
    NoneRemoves(v);
  }

  lemma NoneRemoves(v: nat)
    requires v > 0
    ensures forall i | 0 <= i < |MakeEvents(v) + Times(PopSibling, v)| ::
      !(MakeEvents(v) + Times(PopSibling, v))[i].Remove?
  {}

  function RenewalEvents(): seq<Event> {
    [PassSibling] + ([PopSibling] + ([Remove(1)] + [PassSibling]))
  }

  // One more use is removed at once, and the next reservation makes the chain anew.
  lemma Renewal(v: nat)
    ensures Leads(Used(v), RenewalEvents(), Renewed(v, 1))
  {
    var t := Ticket(0, v);
    var a := Slot([Segment(0, 1, 0, v + 1)], [t], 1);
    var b := Slot([Segment(0, 0, 0, v + 1)], [t, Ticket(0, v + 1)], 1);
    var c := Slot([], [t], 1);
    LeadsOne(c, PassSibling);
    assert Do(b, Remove(1)) == c;
    LeadsCons(b, Remove(1), c, [PassSibling], Renewed(v, 1));
    PopOne(a.segments[0], [t], 1);
    LeadsCons(a, PopSibling, b, [Remove(1)] + [PassSibling], Renewed(v, 1));
    PassOne(Segment(0, 0, 0, v), [t], 1);
    LeadsCons(Used(v), PassSibling, a, [PopSibling] + ([Remove(1)] + [PassSibling]), Renewed(v, 1));
  }

  lemma Refill(v: nat)
    requires v > 0
    ensures Leads(Renewed(v, 1), Times(PassSibling, v - 1), Renewed(v, v))
  {
    PassMany(Segment(1, 1, 0, 1), [Ticket(0, v)], 2, v - 1);
  }

  // Without that, a match means nothing: for every version there is a run in which a chain made anew
  // has the version of a removal that is still on its way, and that many siblings go with it.
  lemma StaleMatch(v: nat) returns (es: seq<Event>, s: Slot)
    requires v > 0
    ensures Leads(Init(), es, s) && s == Renewed(v, v)
    ensures Matches(s, s.tickets[0]) && !Current(s, s.tickets[0])
    ensures s.segments[0].siblings == v && Do(s, Remove(0)).segments == []
  {
    es := FirstUse(v);
    s := Renewed(v, v);
    var fs := RenewalEvents();
    Renewal(v);
    Refill(v);
    LeadsOn(Init(), es, Used(v), fs, Renewed(v, 1));
    LeadsOn(Init(), es + fs, Renewed(v, 1), Times(PassSibling, v - 1), s);
    es := es + fs + Times(PassSibling, v - 1);
  }

  // The chain is forked and takes v more siblings behind the fork.
  function Forked(v: nat, n: nat): Slot {
    Slot([Segment(0, 0, 1, v + 1), Segment(1, n, 0, n)], [Ticket(0, v)], 2)
  }

  lemma Fork(v: nat)
    ensures Leads(Used(v), [PassChild(true)] + [PassSibling], Forked(v, 1))
  {
    var a := Slot([Segment(0, 0, 1, v + 1)], [Ticket(0, v)], 1);
    assert Do(Used(v), PassChild(true)) == a;
    assert Do(a, PassSibling) == Forked(v, 1);
    LeadsOne(a, PassSibling);
    LeadsCons(Used(v), PassChild(true), a, [PassSibling], Forked(v, 1));
  }

  lemma {:induction false} PassBehind(v: nat, k: nat, n: nat)
    requires 0 < k
    ensures Leads(Forked(v, k), Times(PassSibling, n), Forked(v, k + n))
    decreases n
  {
    if n > 0 {
      PassBehind(v, k + 1, n - 1);
      assert Do(Forked(v, k), PassSibling) == Forked(v, k + 1);
      LeadsCons(Forked(v, k), PassSibling, Forked(v, k + 1), Times(PassSibling, n - 1), Forked(v, k + n));
    }
  }

  lemma Unfork(v: nat)
    ensures Leads(Forked(v, v), [DropChild], Renewed(v, v))
  {
    assert Do(Forked(v, v), DropChild) == Renewed(v, v);
    LeadsOne(Forked(v, v), DropChild);
  }

  // The same comes about in a chain that is never removed, with that one removal pending: its front
  // segment goes and the next one has the version.
  lemma StaleFront(v: nat) returns (es: seq<Event>, s: Slot)
    requires v > 0
    ensures Leads(Init(), es, s) && s == Renewed(v, v) && forall i | 0 <= i < |es| :: !es[i].Remove?
    ensures Matches(s, s.tickets[0]) && !Current(s, s.tickets[0])
    ensures s.segments[0].siblings == v && Do(s, Remove(0)).segments == []
  {
    es := FirstUse(v);
    s := Renewed(v, v);
    var fs := [PassChild(true)] + [PassSibling];
    Fork(v);
    PassBehind(v, 1, v - 1);
    Unfork(v);
    LeadsOn(Init(), es, Used(v), fs, Forked(v, 1));
    LeadsOn(Init(), es + fs, Forked(v, 1), Times(PassSibling, v - 1), Forked(v, v));
    LeadsOn(Init(), es + fs + Times(PassSibling, v - 1), Forked(v, v), [DropChild], s);
    es := es + fs + Times(PassSibling, v - 1) + [DropChild];
  }
}
