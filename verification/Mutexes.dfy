// The coroutine mutex while any number of calls interleave at every access to its shared words.
module Mutexes {
  import opened Lists

  // Addresses of mxwait entries; 0 is the null pointer. An entry lives while its call of lock() awaits:
  // a call that has come to own the mutex needs it no more, and its address may be used again.
  type Entry = nat

  // Coroutines, as the handle in an entry names them; 0 is none.
  type Call = nat

  datatype MxState = Free | Taken | Waiters(head: Entry) {
    function GetWaiter(): Entry {
      if Waiters? then head else 0
    }
  }

  // Where a coroutine stands in lock(), try_lock() or release().
  datatype Pc =
    | Idle
    | Locking(entry: Entry, expected: MxState, desired: MxState)
    | Trying
    | Parked(entry: Entry)
    | Owner
    | Releasing
    | Grabbing
    | Reversing(cur: Entry, head: Entry)
    | HandingOver(first: Entry)
  {
    predicate Uses(e: Entry) { (Locking? || Parked?) && entry == e }
  }

  // state, waiters and the next and waiter of the entries are the shared memory, pc tells where each
  // coroutine stands. No step reads the rest: the owner, and the parked entries by the list that holds
  // them, each in link order.
  datatype Mx = Mx(
    state: MxState, waiters: Entry, next: map<Entry, Entry>, waiter: map<Entry, Call>, pc: map<Call, Pc>,
    owner: Call, detached: seq<Entry>, ready: seq<Entry>, stack: seq<Entry>)
  {
    function Pc(c: Call): Pc { if c in pc then pc[c] else Idle }

    function At(c: Call, p: Pc): Mx { this.(pc := pc[c := p]) }

    function Waiter(e: Entry): Call { if e in waiter then waiter[e] else 0 }

    // how often e occurs in the three lists
    function Places(e: Entry): nat { multiset(detached)[e] + multiset(ready)[e] + multiset(stack)[e] }

    // the parked entries, oldest first
    function Entries(): seq<Entry> { Reversed(detached) + ready + Reversed(stack) }

    // the coroutines that wait, oldest first
    function Queue(): seq<Call> { Calls(Entries()) }

    function Calls(s: seq<Entry>): (r: seq<Call>)
      ensures |r| == |s|
    {
      seq(|s|, i requires 0 <= i < |s| => Waiter(s[i]))
    }
  }

  function Follow(next: map<Entry, Entry>, e: Entry): Entry {
    if e in next then next[e] else 0
  }

  function First(s: seq<Entry>): seq<Entry> {
    if s == [] then [] else [s[0]]
  }

  function Rest(s: seq<Entry>): seq<Entry> {
    if s == [] then [] else s[1..]
  }

  datatype Action =
    | StartLock(c: Call, e: Entry)
    | LockCas(c: Call, spurious: bool)
    | StartTry(c: Call)
    | TryCas(c: Call, spurious: bool)
    | StartRelease(c: Call)
    | ReleaseCas(c: Call)
    | Exchange(c: Call)
    | Reverse(c: Call)
    | HandOver(c: Call)

  predicate Enabled(m: Mx, a: Action) {
    match a
    case StartLock(c, e) => c != 0 && m.Pc(c).Idle? && e != 0 && Unused(m, e)
    case LockCas(c, _) => m.Pc(c).Locking?
    case StartTry(c) => c != 0 && m.Pc(c).Idle?
    case TryCas(c, _) => m.Pc(c).Trying?
    case StartRelease(c) => m.Pc(c).Owner?
    case ReleaseCas(c) => m.Pc(c).Releasing?
    case Exchange(c) => m.Pc(c).Grabbing?
    case Reverse(c) => m.Pc(c).Reversing? && m.Pc(c).cur != 0
    case HandOver(c) => m.Pc(c).HandingOver? && m.Pc(c).first != 0
  }

  // No coroutine awaits lock() with an entry at this address.
  predicate Unused(m: Mx, e: Entry) {
    forall d | d in m.pc :: !m.pc[d].Uses(e)
  }

  function Do(m: Mx, a: Action): Mx
    requires Enabled(m, a)
  {
    match a
    case StartLock(c, e) => Started(m, c, e)
    case LockCas(c, spurious) => DoLockCas(m, c, spurious)
    case StartTry(c) => m.At(c, Trying)
    case TryCas(c, spurious) => DoTryCas(m, c, spurious)
    case StartRelease(c) => m.At(c, if m.waiters == 0 then Releasing else HandingOver(m.waiters))
    case ReleaseCas(c) =>
      if m.state.Taken? then m.At(c, Idle).(state := Free, owner := 0) else m.At(c, Grabbing)
    case Exchange(c) =>
      m.At(c, Reversing(m.state.GetWaiter(), 0)).(state := Taken, detached := m.stack, stack := [])
    case Reverse(c) => DoReverse(m, c)
    case HandOver(c) => DoHandOver(m, c)
  }

  // A new entry, told of its coroutine when that suspends.
  function Started(m: Mx, c: Call, e: Entry): Mx {
    m.At(c, Locking(e, Free, Taken)).(next := m.next[e := 0], waiter := m.waiter[e := c])
  }

  // One iteration of the loop in lock().
  function DoLockCas(m: Mx, c: Call, spurious: bool): Mx
    requires m.Pc(c).Locking?
  {
    var p := m.Pc(c);
    if m.state == p.expected && !spurious then
      if p.expected.Free? then Acquired(m, c, p.desired) else Pushed(m, c, p.entry, p.desired)
    else if !m.state.Free? then Retried(m, c, p.entry)
    else m.At(c, Locking(p.entry, m.state, Taken))
  }

  function Acquired(m: Mx, c: Call, desired: MxState): Mx {
    m.At(c, Owner).(state := desired, owner := c)
  }

  function Pushed(m: Mx, c: Call, e: Entry, desired: MxState): Mx {
    m.At(c, Parked(e)).(state := desired, stack := [e] + m.stack)
  }

  function Retried(m: Mx, c: Call, e: Entry): Mx {
    m.At(c, Locking(e, m.state, Waiters(e))).(next := m.next[e := m.state.GetWaiter()])
  }

  // One iteration of the loop in try_lock(): a failed exchange on a free state tries again.
  function DoTryCas(m: Mx, c: Call, spurious: bool): Mx
    requires m.Pc(c).Trying?
  {
    if !m.state.Free? then m.At(c, Idle) else if spurious then m else Acquired(m, c, Taken)
  }

  // One iteration of the loop in release().
  function DoReverse(m: Mx, c: Call): Mx
    requires m.Pc(c).Reversing?
  {
    var e := m.Pc(c).cur;
    var n := Follow(m.next, e);
    m.At(c, if n != 0 then Reversing(n, e) else HandingOver(e))
      .(next := m.next[e := m.Pc(c).head], detached := Rest(m.detached), ready := First(m.detached) + m.ready)
  }

  function DoHandOver(m: Mx, c: Call): Mx
    requires m.Pc(c).HandingOver?
  {
    var h := m.Pc(c).first;
    m.At(c, Idle).At(m.Waiter(h), Owner)
      .(waiters := Follow(m.next, h), owner := m.Waiter(h), ready := Rest(m.ready))
  }

  function Init(): Mx { Mx(Free, 0, map[], map[], map[], 0, [], [], []) }

  // following next from root visits s and ends at null
  ghost predicate Linked(next: map<Entry, Entry>, root: Entry, s: seq<Entry>)
    decreases |s|
  {
    if s == [] then root == 0 else root == s[0] != 0 && Linked(next, Follow(next, root), s[1..])
  }

  lemma {:induction false} LinkedFrame(next: map<Entry, Entry>, root: Entry, s: seq<Entry>, e: Entry, v: Entry)
    requires Linked(next, root, s) && e !in s
    ensures Linked(next[e := v], root, s)
    decreases |s|
  {
    if s != [] { LinkedFrame(next, Follow(next, root), s[1..], e, v); }
  }

  predicate OwnerPc(p: Pc) {
    p.Owner? || p.Releasing? || p.Grabbing? || p.Reversing? || p.HandingOver?
  }

  ghost predicate StateInv(m: Mx) {
    match m.state
    case Free => m.owner == 0 && m.detached == m.ready == m.stack == [] && m.waiters == 0
    case Taken => m.owner != 0 && m.stack == []
    case Waiters(h) => m.owner != 0 && m.stack != [] && Linked(m.next, h, m.stack)
  }

  // what is known of a coroutine: it alone uses its entry, which names it
  ghost predicate CallInv(m: Mx, c: Call) {
    match m.Pc(c)
    case Idle => c == 0 || c != m.owner
    case Locking(e, x, d) => Awaits(m, c, e) && PushReady(m, e, x, d)
    case Trying => c != 0 && c != m.owner
    case Parked(e) => Awaits(m, c, e)
    case _ => c == m.owner != 0
  }

  ghost predicate Awaits(m: Mx, c: Call, e: Entry) {
    c != 0 && c != m.owner && e != 0 && m.Waiter(e) == c
  }

  // what is known of an entry: it is in a list, once, iff its coroutine is parked with it
  ghost predicate EntryInv(m: Mx, e: Entry) {
    m.Places(e) == if m.Pc(m.Waiter(e)) == Parked(e) then 1 else 0
  }

  ghost predicate PushReady(m: Mx, e: Entry, expected: MxState, desired: MxState) {
    if expected.Free? then desired == Taken
    else desired == Waiters(e) && Follow(m.next, e) == expected.GetWaiter()
  }

  // what is known of the private list, by the pc of the owner
  ghost predicate OwnerInv(m: Mx) {
    match m.Pc(m.owner)
    case Owner => m.detached == [] && Linked(m.next, m.waiters, m.ready)
    case Releasing => m.detached == m.ready == [] && m.waiters == 0
    case Grabbing => m.detached == m.ready == [] && m.waiters == 0 && m.stack != []
    case Reversing(c, h) =>
      m.detached != [] && m.waiters == 0 && Linked(m.next, c, m.detached) && Linked(m.next, h, m.ready)
    case HandingOver(f) => m.detached == [] && m.ready != [] && Linked(m.next, f, m.ready)
    case _ => true
  }

  ghost predicate Inv(m: Mx) {
    StateInv(m) && OwnerInv(m) && (forall c :: CallInv(m, c)) && (forall e :: EntryInv(m, e))
  }

  lemma InitInv()
    ensures Inv(Init())
  {}

  lemma AcquireInv(m: Mx, c: Call)
    requires Inv(m) && (m.Pc(c).Locking? || m.Pc(c).Trying?) && m.state.Free?
    ensures Inv(Acquired(m, c, Taken))
  {
    var m' := Acquired(m, c, Taken);
    assert CallInv(m, c);
    forall d: Call ensures CallInv(m', d) { assert CallInv(m, d); }
    forall x: Entry ensures EntryInv(m', x) { assert EntryInv(m, x); }
  }

  lemma PushInv(m: Mx, c: Call, e: Entry)
    requires Inv(m) && m.Pc(c).Locking? && m.Pc(c).entry == e && m.state == m.Pc(c).expected && !m.state.Free?
    ensures Inv(Pushed(m, c, e, Waiters(e)))
  {
    var m' := Pushed(m, c, e, Waiters(e));
    assert CallInv(m, c) && CallInv(m, m.owner);
    assert m'.stack[1..] == m.stack;
    forall d: Call ensures CallInv(m', d) { assert CallInv(m, d); }
    forall x: Entry ensures EntryInv(m', x) { assert EntryInv(m, x); }
  }

  // The coroutine c moves on and writes to its entry e.
  function Written(m: Mx, c: Call, e: Entry, v: Entry, p: Pc): Mx {
    m.At(c, p).(next := m.next[e := v], waiter := m.waiter[e := c])
  }

  lemma StateFrame(m: Mx, e: Entry, v: Entry)
    requires StateInv(m) && m.Places(e) == 0
    ensures StateInv(m.(next := m.next[e := v]))
  {
    if m.state.Waiters? { LinkedFrame(m.next, m.state.head, m.stack, e, v); }
  }

  // An entry that is in no list may be written to by the one coroutine that uses it.
  lemma WriteInv(m: Mx, c: Call, e: Entry, v: Entry, p: Pc)
    requires Inv(m) && c != 0 && (m.Pc(c).Idle? || m.Pc(c).Locking?) && e != 0
    requires m.Places(e) == 0 && forall d | d != c :: !m.Pc(d).Uses(e)
    requires p.Locking? && p.entry == e
    requires PushReady(m.(next := m.next[e := v]), e, p.expected, p.desired)
    ensures Inv(Written(m, c, e, v, p))
  {
    var m' := Written(m, c, e, v, p);
    assert CallInv(m, c);
    assert StateInv(m') by { StateFrame(m, e, v); }
    assert OwnerInv(m') by {
      OwnerFrame(m, e, v);
      assert m'.Pc(m.owner) == m.Pc(m.owner);
    }
    forall d: Call ensures CallInv(m', d) {
      assert CallInv(m, d);
      assert d != c ==> m'.Pc(d) == m.Pc(d);
    }
    forall x: Entry ensures EntryInv(m', x) {
      assert EntryInv(m, x) && m'.Places(x) == m.Places(x);
    }
  }

  lemma OwnerFrame(m: Mx, e: Entry, v: Entry)
    requires OwnerInv(m) && m.Places(e) == 0
    ensures OwnerInv(m.(next := m.next[e := v]))
  {
    match m.Pc(m.owner)
    case Owner => LinkedFrame(m.next, m.waiters, m.ready, e, v);
    case Reversing(c, h) =>
      LinkedFrame(m.next, c, m.detached, e, v);
      LinkedFrame(m.next, h, m.ready, e, v);
    case HandingOver(f) => LinkedFrame(m.next, f, m.ready, e, v);
    case _ =>
  }

  lemma StartInv(m: Mx, c: Call, e: Entry)
    requires Inv(m) && Enabled(m, StartLock(c, e))
    ensures Inv(Started(m, c, e)) && m.Places(e) == 0
  {
    assert EntryInv(m, e);
    WriteInv(m, c, e, 0, Locking(e, Free, Taken));
  }

  lemma RetryInv(m: Mx, c: Call)
    requires Inv(m) && m.Pc(c).Locking? && !m.state.Free?
    ensures Inv(Retried(m, c, m.Pc(c).entry))
  {
    var e := m.Pc(c).entry;
    assert CallInv(m, c) && EntryInv(m, e);
    forall d | d != c ensures !m.Pc(d).Uses(e) { assert CallInv(m, d); }
    WriteInv(m, c, e, m.state.GetWaiter(), Locking(e, m.state, Waiters(e)));
    assert m.waiter[e := c] == m.waiter;
  }

  lemma LockInv(m: Mx, c: Call, spurious: bool)
    requires Inv(m) && m.Pc(c).Locking?
    ensures Inv(DoLockCas(m, c, spurious))
  {
    assert CallInv(m, c);
    var p := m.Pc(c);
    if m.state == p.expected && !spurious {
      if p.expected.Free? { AcquireInv(m, c); } else { PushInv(m, c, p.entry); }
    } else if !m.state.Free? {
      RetryInv(m, c);
    } else {
      StayInv(m, c, Locking(p.entry, Free, Taken));
    }
  }

  // A step of a coroutine that owns nothing and is not parked.
  lemma StayInv(m: Mx, c: Call, p: Pc)
    requires Inv(m) && c != 0 && (m.Pc(c).Idle? || m.Pc(c).Locking? || m.Pc(c).Trying?)
    requires p.Idle? || p.Trying? || (m.Pc(c).Locking? && p == Locking(m.Pc(c).entry, Free, Taken))
    ensures Inv(m.At(c, p))
  {
    var m' := m.At(c, p);
    assert CallInv(m, c) && CallInv(m, m.owner);
    assert m'.Pc(m.owner) == m.Pc(m.owner);
    forall d: Call ensures CallInv(m', d) {
      assert CallInv(m, d);
      assert d != c ==> m'.Pc(d) == m.Pc(d);
    }
    forall x: Entry ensures EntryInv(m', x) { assert EntryInv(m, x) && m'.Places(x) == m.Places(x); }
  }

  lemma StartReleaseInv(m: Mx, c: Call)
    requires Inv(m) && m.Pc(c).Owner?
    ensures Inv(Do(m, StartRelease(c)))
  {
    var m' := Do(m, StartRelease(c));
    assert CallInv(m, c);
    forall d: Call ensures CallInv(m', d) {
      assert CallInv(m, d);
      assert d != c ==> m'.Pc(d) == m.Pc(d);
    }
    forall x: Entry ensures EntryInv(m', x) { assert EntryInv(m, x) && m'.Places(x) == m.Places(x); }
  }

  lemma ReleaseCasInv(m: Mx, c: Call)
    requires Inv(m) && m.Pc(c).Releasing?
    ensures Inv(Do(m, ReleaseCas(c)))
  {
    var m' := Do(m, ReleaseCas(c));
    assert CallInv(m, c) && CallInv(m, 0);
    forall d: Call ensures CallInv(m', d) { assert CallInv(m, d); }
    forall x: Entry ensures EntryInv(m', x) { assert EntryInv(m, x); }
  }

  lemma ExchangeInv(m: Mx, c: Call)
    requires Inv(m) && m.Pc(c).Grabbing?
    ensures Inv(Do(m, Exchange(c)))
  {
    var m' := Do(m, Exchange(c));
    assert CallInv(m, c);
    forall d: Call ensures CallInv(m', d) { assert CallInv(m, d); }
    forall x: Entry ensures EntryInv(m', x) { assert EntryInv(m, x); }
  }

  lemma ReverseLinks(m: Mx, c: Call)
    requires Inv(m) && m.Pc(c).Reversing?
    ensures Enabled(m, Reverse(c))
    ensures StateInv(DoReverse(m, c)) && OwnerInv(DoReverse(m, c))
  {
    assert CallInv(m, c);
    var e, h := m.detached[0], m.Pc(c).head;
    assert m.detached == [e] + m.detached[1..];
    assert EntryInv(m, e);
    LinkedFrame(m.next, Follow(m.next, e), m.detached[1..], e, h);
    LinkedFrame(m.next, h, m.ready, e, h);
    LinkedFrame(m.next, m.state.GetWaiter(), m.stack, e, h);
    assert DoReverse(m, c).ready[1..] == m.ready;
  }

  lemma ReverseCall(m: Mx, c: Call, d: Call)
    requires m.Pc(c).Reversing? && m.detached != [] && m.Pc(c).cur == m.detached[0]
    requires CallInv(m, c) && EntryInv(m, m.detached[0]) && CallInv(m, d)
    ensures CallInv(DoReverse(m, c), d)
  {
    assert d != c ==> DoReverse(m, c).Pc(d) == m.Pc(d);
  }

  lemma ReverseEntry(m: Mx, c: Call, x: Entry)
    requires m.Pc(c).Reversing? && m.detached != [] && EntryInv(m, x)
    ensures EntryInv(DoReverse(m, c), x)
  {
    assert m.detached == [m.detached[0]] + m.detached[1..];
    assert DoReverse(m, c).Places(x) == m.Places(x);
  }

  lemma ReverseInv(m: Mx, c: Call)
    requires Inv(m) && m.Pc(c).Reversing?
    ensures Enabled(m, Reverse(c)) && Inv(Do(m, Reverse(c)))
  {
    ReverseLinks(m, c);
    assert CallInv(m, c) && EntryInv(m, m.detached[0]);
    forall d: Call ensures CallInv(DoReverse(m, c), d) { ReverseCall(m, c, d); }
    forall x: Entry ensures EntryInv(DoReverse(m, c), x) { ReverseEntry(m, c, x); }
  }

  lemma HandOverCall(m: Mx, c: Call, d: Call)
    requires m.Pc(c).HandingOver? && m.ready != [] && m.Pc(c).first == m.ready[0]
    requires CallInv(m, c) && EntryInv(m, m.ready[0]) && CallInv(m, 0) && CallInv(m, d)
    ensures CallInv(DoHandOver(m, c), d)
  {
    assert d != c && d != m.Waiter(m.ready[0]) ==> DoHandOver(m, c).Pc(d) == m.Pc(d);
  }

  lemma HandOverEntry(m: Mx, c: Call, x: Entry)
    requires m.Pc(c).HandingOver? && m.ready != [] && m.Pc(c).first == m.ready[0]
    requires EntryInv(m, m.ready[0]) && EntryInv(m, x)
    ensures EntryInv(DoHandOver(m, c), x)
  {
    var h := m.ready[0];
    assert m.ready == [h] + m.ready[1..];
    assert DoHandOver(m, c).Places(x) == if x == h then m.Places(x) - 1 else m.Places(x);
  }

  lemma HandOverInv(m: Mx, c: Call)
    requires Inv(m) && m.Pc(c).HandingOver?
    ensures Enabled(m, HandOver(c)) && Inv(Do(m, HandOver(c)))
  {
    assert CallInv(m, c) && CallInv(m, 0) && EntryInv(m, m.ready[0]);
    forall d: Call ensures CallInv(DoHandOver(m, c), d) { HandOverCall(m, c, d); }
    forall x: Entry ensures EntryInv(DoHandOver(m, c), x) { HandOverEntry(m, c, x); }
  }

  lemma StepInv(m: Mx, a: Action)
    requires Inv(m) && Enabled(m, a)
    ensures Inv(Do(m, a))
  {
    match a
    case StartLock(c, e) => StartInv(m, c, e);
    case LockCas(c, spurious) => LockInv(m, c, spurious);
    case StartTry(c) => StayInv(m, c, Trying);
    case TryCas(c, spurious) =>
      assert CallInv(m, c);
      if !m.state.Free? { StayInv(m, c, Idle); } else if !spurious { AcquireInv(m, c); }
    case StartRelease(c) => StartReleaseInv(m, c);
    case ReleaseCas(c) => ReleaseCasInv(m, c);
    case Exchange(c) => ExchangeInv(m, c);
    case Reverse(c) => ReverseInv(m, c);
    case HandOver(c) => HandOverInv(m, c);
  }

  // The lock the machine implements: an owner and a queue of waiters.
  datatype Lock = Lock(owner: Call, queue: seq<Call>)

  datatype Op = Stutter | Acquire(c: Call) | Enqueue(c: Call) | Pass | Release

  predicate Allowed(l: Lock, op: Op) {
    match op
    case Stutter => true
    case Acquire(c) => c != 0 && l.owner == 0 && l.queue == []
    case Enqueue(c) => c != 0 && l.owner != 0 && c != l.owner && c !in l.queue
    case Pass => l.owner != 0 && l.queue != []
    case Release => l.owner != 0 && l.queue == []
  }

  function Apply(l: Lock, op: Op): Lock
    requires Allowed(l, op)
  {
    match op
    case Stutter => l
    case Acquire(c) => Lock(c, [])
    case Enqueue(c) => Lock(l.owner, l.queue + [c])
    case Pass => Lock(l.queue[0], l.queue[1..])
    case Release => Lock(0, [])
  }

  function Abstraction(m: Mx): Lock { Lock(m.owner, m.Queue()) }

  function OpOf(m: Mx, a: Action): Op
    requires Enabled(m, a)
  {
    match a
    case LockCas(c, spurious) =>
      if m.state != m.Pc(c).expected || spurious then Stutter
      else if m.state.Free? then Acquire(c) else Enqueue(c)
    case TryCas(c, spurious) => if m.state.Free? && !spurious then Acquire(c) else Stutter
    case ReleaseCas(c) => if m.state.Taken? then Release else Stutter
    case HandOver(c) => Pass
    case _ => Stutter
  }

  lemma EntriesPlaces(m: Mx, e: Entry)
    ensures multiset(m.Entries())[e] == m.Places(e)
    ensures e in m.Entries() <==> m.Places(e) != 0
  {
    ReversedMultiset(m.detached);
    ReversedMultiset(m.stack);
  }

  // Who waits is who is parked.
  lemma QueueParked(m: Mx, c: Call)
    requires Inv(m)
    ensures c in m.Queue() <==> m.Pc(c).Parked?
  {
    if c in m.Queue() {
      var i :| 0 <= i < |m.Queue()| && m.Queue()[i] == c;
      var e := m.Entries()[i];
      EntriesPlaces(m, e);
      assert EntryInv(m, e);
    }
    if m.Pc(c).Parked? {
      var e := m.Pc(c).entry;
      assert CallInv(m, c) && EntryInv(m, e);
      EntriesPlaces(m, e);
      var i :| 0 <= i < |m.Entries()| && m.Entries()[i] == e;
      assert m.Queue()[i] == c;
    }
  }

  lemma QueueNoDup(m: Mx)
    requires Inv(m)
    ensures NoDup(m.Queue())
  {
    var s := m.Entries();
    forall i, j | 0 <= i < j < |s| ensures m.Queue()[i] != m.Queue()[j] {
      EntryOnce(m, i);
      EntryOnce(m, j);
      if s[i] == s[j] { TwiceCounts(s, i, j); }
    }
  }

  lemma EntryOnce(m: Mx, i: nat)
    requires Inv(m) && i < |m.Entries()|
    ensures multiset(m.Entries())[m.Entries()[i]] == 1
    ensures m.Pc(m.Queue()[i]) == Parked(m.Entries()[i])
  {
    var e := m.Entries()[i];
    EntriesPlaces(m, e);
    assert EntryInv(m, e);
  }

  ghost predicate Refined(m: Mx, m': Mx, op: Op) {
    Allowed(Abstraction(m), op) && Abstraction(m') == Apply(Abstraction(m), op)
  }

  lemma StartRefines(m: Mx, c: Call, e: Entry)
    requires Inv(m) && Enabled(m, StartLock(c, e))
    ensures Refined(m, Started(m, c, e), Stutter)
  {
    StartInv(m, c, e);
    EntriesPlaces(m, e);
    assert Started(m, c, e).Queue() == m.Queue();
  }

  lemma PushRefines(m: Mx, c: Call, e: Entry)
    requires Inv(m) && m.Pc(c).Locking? && m.Pc(c).entry == e && m.state == m.Pc(c).expected && !m.state.Free?
    ensures Refined(m, Pushed(m, c, e, Waiters(e)), Enqueue(c))
  {
    var m' := Pushed(m, c, e, Waiters(e));
    assert CallInv(m, c);
    QueueParked(m, c);
    assert ([e] + m.stack)[1..] == m.stack;
    assert m'.Entries() == m.Entries() + [e];
    assert m'.Queue() == m.Queue() + [c];
  }

  lemma SameQueue(m: Mx, m': Mx)
    requires m'.detached == m.detached && m'.ready == m.ready && m'.stack == m.stack && m'.waiter == m.waiter
    ensures m'.Queue() == m.Queue()
  {
    assert m'.Entries() == m.Entries();
  }

  lemma LockRefines(m: Mx, c: Call, spurious: bool)
    requires Inv(m) && m.Pc(c).Locking?
    ensures Refined(m, DoLockCas(m, c, spurious), OpOf(m, LockCas(c, spurious)))
  {
    assert CallInv(m, c);
    if m.state == m.Pc(c).expected && !spurious && !m.state.Free? {
      PushRefines(m, c, m.Pc(c).entry);
    } else {
      SameQueue(m, DoLockCas(m, c, spurious));
    }
  }

  lemma ReleaseRefines(m: Mx, c: Call)
    requires Inv(m) && m.Pc(c).Releasing?
    ensures Refined(m, Do(m, ReleaseCas(c)), OpOf(m, ReleaseCas(c)))
  {
    assert CallInv(m, c);
    assert Do(m, ReleaseCas(c)).Queue() == m.Queue();
  }

  lemma ExchangeRefines(m: Mx, c: Call)
    requires Inv(m) && m.Pc(c).Grabbing?
    ensures Refined(m, Do(m, Exchange(c)), Stutter)
  {
    assert CallInv(m, c);
    assert Do(m, Exchange(c)).Entries() == m.Entries();
    assert Do(m, Exchange(c)).Queue() == m.Queue();
  }

  lemma ReverseRefines(m: Mx, c: Call)
    requires Inv(m) && Enabled(m, Reverse(c))
    ensures Refined(m, Do(m, Reverse(c)), Stutter)
  {
    assert CallInv(m, c);
    var e, d := m.detached[0], m.detached[1..];
    assert Reversed(d) + ([e] + m.ready) == (Reversed(d) + [e]) + m.ready;
    assert DoReverse(m, c).Entries() == m.Entries();
    assert DoReverse(m, c).Queue() == m.Queue();
  }

  lemma HandOverRefines(m: Mx, c: Call)
    requires Inv(m) && Enabled(m, HandOver(c))
    ensures Refined(m, Do(m, HandOver(c)), Pass)
  {
    assert CallInv(m, c);
    var rest, stack := m.ready[1..], Reversed(m.stack);
    assert m.ready == [m.ready[0]] + rest;
    NoneThen(m.ready, stack);
    NoneThen(rest, stack);
    assert m.Entries() == [m.ready[0]] + (rest + stack);
    assert DoHandOver(m, c).Entries() == rest + stack;
    assert m.Queue()[1..] == DoHandOver(m, c).Queue();
  }

  lemma NoneThen(a: seq<Entry>, b: seq<Entry>)
    ensures Reversed<Entry>([]) + a + b == a + b
  {}

  lemma Refines(m: Mx, a: Action)
    requires Inv(m) && Enabled(m, a)
    ensures Refined(m, Do(m, a), OpOf(m, a))
  {
    match a
    case StartLock(c, e) => StartRefines(m, c, e);
    case LockCas(c, spurious) => LockRefines(m, c, spurious);
    case TryCas(c, _) => assert CallInv(m, c);
    case ReleaseCas(c) => ReleaseRefines(m, c);
    case Exchange(c) => ExchangeRefines(m, c);
    case Reverse(c) => ReverseRefines(m, c);
    case HandOver(c) => HandOverRefines(m, c);
    case _ =>
  }

  ghost predicate Run(ms: seq<Mx>, acts: seq<Action>) {
    && |ms| == |acts| + 1
    && ms[0] == Init()
    && forall i | 0 <= i < |acts| :: Enabled(ms[i], acts[i]) && ms[i + 1] == Do(ms[i], acts[i])
  }

  lemma {:induction false} RunInv(ms: seq<Mx>, acts: seq<Action>, i: nat)
    requires Run(ms, acts) && i < |ms|
    ensures Inv(ms[i])
  {
    if i == 0 {
      InitInv();
    } else {
      RunInv(ms, acts, i - 1);
      StepInv(ms[i - 1], acts[i - 1]);
    }
  }

  lemma MutualExclusion(ms: seq<Mx>, acts: seq<Action>, i: nat, a: Call, b: Call)
    requires Run(ms, acts) && i < |ms|
    requires OwnerPc(ms[i].Pc(a)) && OwnerPc(ms[i].Pc(b))
    ensures a == b && !ms[i].state.Free?
  {
    RunInv(ms, acts, i);
    assert CallInv(ms[i], a) && CallInv(ms[i], b);
  }

  // The step that is next in release() for the owner o.
  function ReleaseStep(m: Mx, o: Call): Action {
    match m.Pc(o)
    case Releasing => ReleaseCas(o)
    case Grabbing => Exchange(o)
    case Reversing(_, _) => Reverse(o)
    case HandingOver(_) => HandOver(o)
    case _ => StartRelease(o)
  }

  lemma NoLostWaiter(ms: seq<Mx>, acts: seq<Action>, i: nat, c: Call)
    requires Run(ms, acts) && i < |ms|
    ensures NoDup(ms[i].Queue()) && (c in ms[i].Queue() <==> ms[i].Pc(c).Parked?)
    ensures ms[i].Pc(c).Parked? ==> ms[i].Places(ms[i].Pc(c).entry) == 1
    ensures ms[i].Pc(c).Parked? ==>
      OwnerPc(ms[i].Pc(ms[i].owner)) && Enabled(ms[i], ReleaseStep(ms[i], ms[i].owner))
  {
    RunInv(ms, acts, i);
    assert CallInv(ms[i], c) && CallInv(ms[i], ms[i].owner);
    QueueNoDup(ms[i]);
    QueueParked(ms[i], c);
    if ms[i].Pc(c).Parked? { assert EntryInv(ms[i], ms[i].Pc(c).entry); }
  }

  lemma FailedReleaseFindsWaiters(ms: seq<Mx>, acts: seq<Action>, i: nat, o: Call)
    requires Run(ms, acts) && i < |ms|
    ensures ms[i].Pc(o).Grabbing? ==> ms[i].state.GetWaiter() != 0
    ensures ms[i].Pc(o).Reversing? ==> ms[i].Pc(o).cur != 0
    ensures ms[i].Pc(o).HandingOver? ==> ms[i].Pc(o).first != 0
  {
    RunInv(ms, acts, i);
    assert CallInv(ms[i], o);
  }

  // the hand-overs among the actions from i to j
  function HandOvers(acts: seq<Action>, i: nat, j: nat): nat
    requires i <= j <= |acts|
  {
    if i == j then 0 else HandOvers(acts, i, j - 1) + if acts[j - 1].HandOver? then 1 else 0
  }

  // the owner and those who wait, in order
  function Line(l: Lock): seq<Call> { [l.owner] + l.queue }

  lemma LineStep(l: Lock, op: Op, p: seq<Call>)
    requires Allowed(l, op) && p <= Line(l) && |p| > 1
    ensures (if op.Pass? then p[1..] else p) <= Line(Apply(l, op))
  {
    if op.Pass? {
      assert Line(l) == p + Line(l)[|p|..];
      assert Line(Apply(l, op)) == Line(l)[1..];
    } else if op.Enqueue? {
      assert Line(Apply(l, op)) == Line(l) + [op.c];
    }
  }

  function LineAt(ms: seq<Mx>, i: nat): (line: seq<Call>)
    requires i < |ms|
    ensures |line| == |ms[i].Queue()| + 1
  {
    Line(Abstraction(ms[i]))
  }

  lemma LineAdvances(ms: seq<Mx>, acts: seq<Action>, i: nat, j: nat)
    requires Run(ms, acts) && i < j < |ms| && HandOvers(acts, i, j - 1) + 1 < |LineAt(ms, i)|
    requires LineAt(ms, i)[HandOvers(acts, i, j - 1)..] <= LineAt(ms, j - 1)
    ensures HandOvers(acts, i, j) < |LineAt(ms, i)|
    ensures LineAt(ms, i)[HandOvers(acts, i, j)..] <= LineAt(ms, j)
  {
    var n := HandOvers(acts, i, j - 1);
    var p := LineAt(ms, i)[n..];
    RunInv(ms, acts, j - 1);
    Refines(ms[j - 1], acts[j - 1]);
    LineStep(Abstraction(ms[j - 1]), OpOf(ms[j - 1], acts[j - 1]), p);
    assert p[1..] == LineAt(ms, i)[n + 1..];
  }

  // While fewer hand-overs than waiters have happened, those still waiting stand in line as before.
  lemma {:induction false} LineKept(ms: seq<Mx>, acts: seq<Action>, i: nat, j: nat)
    requires Run(ms, acts) && i <= j < |ms|
    requires HandOvers(acts, i, j) + 1 < |LineAt(ms, i)|
    ensures LineAt(ms, i)[HandOvers(acts, i, j)..] <= LineAt(ms, j)
    decreases j
  {
    if i < j {
      LineKept(ms, acts, i, j - 1);
      LineAdvances(ms, acts, i, j);
    }
  }

  // A coroutine behind k others owns the lock at the (k + 1)-st hand-over from here.
  lemma FirstComeFirstServed(ms: seq<Mx>, acts: seq<Action>, i: nat, j: nat, k: nat)
    requires Run(ms, acts) && i < j < |ms| && k < |ms[i].Queue()|
    requires HandOvers(acts, i, j) == k + 1 && acts[j - 1].HandOver?
    ensures ms[j].owner == ms[i].Queue()[k]
  {
    LineServed(ms, acts, i, j);
    LineParts(ms[i], k);
  }

  // A hand-over gives the lock to the one as many places down the line as there have been hand-overs.
  lemma LineServed(ms: seq<Mx>, acts: seq<Action>, i: nat, j: nat)
    requires Run(ms, acts) && i < j < |ms| && acts[j - 1].HandOver? && HandOvers(acts, i, j) < |LineAt(ms, i)|
    ensures LineAt(ms, j)[0] == LineAt(ms, i)[HandOvers(acts, i, j)]
  {
    LineThrough(ms, acts, i, j);
    FrontOfLine(LineAt(ms, i), HandOvers(acts, i, j), LineAt(ms, j));
  }

  lemma LineThrough(ms: seq<Mx>, acts: seq<Action>, i: nat, j: nat)
    requires Run(ms, acts) && i < j < |ms| && HandOvers(acts, i, j - 1) + 1 < |LineAt(ms, i)|
    ensures HandOvers(acts, i, j) < |LineAt(ms, i)| && LineAt(ms, i)[HandOvers(acts, i, j)..] <= LineAt(ms, j)
  {
    LineKept(ms, acts, i, j - 1);
    LineAdvances(ms, acts, i, j);
  }

  lemma LineParts(m: Mx, k: nat)
    requires k < |m.Queue()|
    ensures Line(Abstraction(m))[k + 1] == m.Queue()[k]
  {}

  lemma FrontOfLine(a: seq<Call>, k: nat, b: seq<Call>)
    requires k < |a| && a[k..] <= b
    ensures b[0] == a[k]
  {
    assert a[k..][0] == a[k];
  }

  // Actions in a row of one coroutine, with no other in between.
  ghost predicate Solo(m: Mx, acts: seq<Action>, m': Mx)
    decreases |acts|
  {
    if acts == [] then m' == m else Enabled(m, acts[0]) && Solo(Do(m, acts[0]), acts[1..], m')
  }

  lemma SoloCons(m: Mx, a: Action, acts: seq<Action>, m': Mx)
    requires Enabled(m, a) && Solo(Do(m, a), acts, m')
    ensures Solo(m, [a] + acts, m')
  {
    assert ([a] + acts)[1..] == acts;
  }

  // lock() gets somewhere: with nobody in between and no spurious failure at most two exchanges make
  // the coroutine the owner of a free mutex, or else the last in the queue.
  lemma LockEnds(m: Mx, c: Call) returns (acts: seq<Action>, m': Mx)
    requires Inv(m) && m.Pc(c).Locking?
    ensures Solo(m, acts, m') && |acts| <= 2 && forall a | a in acts :: a == LockCas(c, false)
    ensures if m.state.Free? then m'.Pc(c).Owner? && m'.owner == c && m'.Queue() == []
            else m'.Pc(c) == Parked(m.Pc(c).entry) && m'.owner == m.owner && m'.Queue() == m.Queue() + [c]
  {
    var a := LockCas(c, false);
    assert CallInv(m, c);
    LockInv(m, c, false);
    LockRefines(m, c, false);
    var n := Do(m, a);
    assert Solo(n, [], n);
    SoloCons(m, a, [], n);
    acts, m' := [a] + [], n;
    if m.state != m.Pc(c).expected {
      LockInv(n, c, false);
      LockRefines(n, c, false);
      acts, m' := [a, a], Do(n, a);
      assert Solo(m', [], m') && [a] + [] == [a];
      SoloCons(n, a, [], m');
      SoloCons(m, a, [a], m');
      assert [a] + [a] == [a, a];
    }
  }

  // The whole of lock(), from the call on.
  lemma LockWhole(m: Mx, c: Call, e: Entry) returns (acts: seq<Action>, m': Mx)
    requires Inv(m) && Enabled(m, StartLock(c, e))
    ensures Solo(m, acts, m') && acts != [] && acts[0] == StartLock(c, e) && |acts| <= 3
    ensures forall a | a in acts[1..] :: a == LockCas(c, false)
    ensures if m.state.Free? then m'.Pc(c).Owner? && m'.owner == c && m'.Queue() == []
            else m'.Pc(c) == Parked(e) && m'.owner == m.owner && m'.Queue() == m.Queue() + [c]
  {
    var n := Do(m, StartLock(c, e));
    StepInv(m, StartLock(c, e));
    Refines(m, StartLock(c, e));
    acts, m' := LockEnds(n, c);
    SoloCons(m, StartLock(c, e), acts, m');
    acts := [StartLock(c, e)] + acts;
  }

  // The whole of try_lock().
  lemma TryWhole(m: Mx, c: Call) returns (m': Mx)
    requires Inv(m) && Enabled(m, StartTry(c))
    ensures Solo(m, [StartTry(c), TryCas(c, false)], m') && m'.Queue() == m.Queue()
    ensures if m.state.Free? then m'.Pc(c).Owner? && m'.owner == c else m'.Pc(c).Idle? && m'.owner == m.owner
  {
    var n := Do(m, StartTry(c));
    StepInv(m, StartTry(c));
    Refines(m, StartTry(c));
    TryEnds(n, c);
    m' := Do(n, TryCas(c, false));
    assert Solo(m', [], m');
    SoloCons(n, TryCas(c, false), [], m');
    SoloCons(m, StartTry(c), [TryCas(c, false)], m');
    assert [StartTry(c)] + [TryCas(c, false)] == [StartTry(c), TryCas(c, false)];
    assert [TryCas(c, false)] + [] == [TryCas(c, false)];
  }

  // try_lock() succeeds iff the mutex is free, unless the exchange fails spuriously.
  lemma TryEnds(m: Mx, c: Call)
    requires Inv(m) && m.Pc(c).Trying?
    ensures var m' := Do(m, TryCas(c, false));
      m'.Queue() == m.Queue() &&
      if m.state.Free? then m'.Pc(c).Owner? && m'.owner == c else m'.Pc(c).Idle? && m'.owner == m.owner
  {
    assert CallInv(m, c);
    SameQueue(m, Do(m, TryCas(c, false)));
  }

  // How many actions release() has left, if nobody comes in between.
  function StepsLeft(m: Mx, c: Call): nat {
    match m.Pc(c)
    case Owner => |m.stack| + 4
    case Releasing => |m.stack| + 3
    case Grabbing => |m.stack| + 2
    case Reversing(_, _) => |m.detached| + 1
    case HandingOver(_) => 1
    case _ => 0
  }

  lemma FailedRelease(m: Mx, c: Call)
    requires Inv(m) && OwnerPc(m.Pc(c))
    ensures m.Pc(c).Grabbing? ==> m.stack != []
    ensures m.Pc(c).Reversing? ==> m.detached != [] && m.Pc(c).cur == m.detached[0] != 0
    ensures m.Pc(c).HandingOver? ==> m.ready != [] && m.Pc(c).first == m.ready[0] != 0
  {
    assert CallInv(m, c);
  }

  // The mutex was given up: to the first in the queue, or to nobody if the queue was empty.
  ghost predicate Released(m: Mx, c: Call, m': Mx) {
    && m'.Pc(c).Idle?
    && if m.Queue() == [] then m'.state.Free? && m'.owner == 0 && m'.Queue() == []
       else m'.owner == m.Queue()[0] && m'.Pc(m'.owner).Owner? && m'.Queue() == m.Queue()[1..]
  }

  // One action of release() less, and the queue as it was, or else the mutex given up.
  ghost predicate Down(m: Mx, c: Call, m': Mx) {
    StepsLeft(m', c) < StepsLeft(m, c) && if OwnerPc(m'.Pc(c)) then m'.Queue() == m.Queue() else Released(m, c, m')
  }

  lemma StartDown(m: Mx, c: Call)
    requires Inv(m) && m.Pc(c).Owner?
    ensures Down(m, c, Do(m, StartRelease(c)))
  {
    SameQueue(m, Do(m, StartRelease(c)));
  }

  lemma ReleaseCasDown(m: Mx, c: Call)
    requires Inv(m) && m.Pc(c).Releasing?
    ensures Down(m, c, Do(m, ReleaseCas(c)))
  {
    assert CallInv(m, c);
    ReleaseRefines(m, c);
  }

  lemma ExchangeDown(m: Mx, c: Call)
    requires Inv(m) && m.Pc(c).Grabbing?
    ensures Down(m, c, Do(m, Exchange(c)))
  {
    ExchangeRefines(m, c);
  }

  lemma ReverseDown(m: Mx, c: Call)
    requires Inv(m) && m.Pc(c).Reversing?
    ensures Enabled(m, Reverse(c)) && Down(m, c, Do(m, Reverse(c)))
  {
    FailedRelease(m, c);
    ReverseInv(m, c);
    ReverseRefines(m, c);
  }

  lemma HandOverDown(m: Mx, c: Call)
    requires Inv(m) && m.Pc(c).HandingOver?
    ensures Enabled(m, HandOver(c)) && Down(m, c, Do(m, HandOver(c)))
  {
    FailedRelease(m, c);
    HandOverRefines(m, c);
    assert EntryInv(m, m.ready[0]);
    assert CallInv(m, c) && m.Pc(m.Waiter(m.ready[0])).Parked?;
  }

  lemma ReleaseDown(m: Mx, c: Call)
    requires Inv(m) && OwnerPc(m.Pc(c))
    ensures Enabled(m, ReleaseStep(m, c)) && Down(m, c, Do(m, ReleaseStep(m, c)))
  {
    match m.Pc(c)
    case Owner => StartDown(m, c);
    case Releasing => ReleaseCasDown(m, c);
    case Grabbing => ExchangeDown(m, c);
    case Reversing(_, _) => ReverseDown(m, c);
    case HandingOver(_) => HandOverDown(m, c);
  }

  // release() gets somewhere: with nobody in between it gives the mutex up, after a number of actions
  // that is bounded by the number of those who wait.
  lemma {:induction false} ReleaseEnds(m: Mx, c: Call) returns (acts: seq<Action>, m': Mx)
    requires Inv(m) && OwnerPc(m.Pc(c))
    ensures Solo(m, acts, m') && |acts| <= StepsLeft(m, c) && Released(m, c, m')
    decreases StepsLeft(m, c)
  {
    ReleaseDown(m, c);
    var a := ReleaseStep(m, c);
    StepInv(m, a);
    var n := Do(m, a);
    if OwnerPc(n.Pc(c)) {
      acts, m' := ReleaseEnds(n, c);
    } else {
      acts, m' := [], n;
    }
    SoloCons(m, a, acts, m');
    acts := [a] + acts;
  }

  // The word behind MxState: 0 is free, 1 is taken, and a waiter is its address with both low bits set.
  const FREE: bv64 := 0
  const TAKEN: bv64 := 1

  predicate Aligned(p: bv64) { p & 3 == 0 }

  function FromWaiter(p: bv64): bv64 { p | 3 }

  predicate IsFree(w: bv64) { w & 1 == 0 }

  predicate HasWaiters(w: bv64) { w & 3 == 3 }

  function GetWaiter(w: bv64): bv64 {
    if w & 3 == 3 then w & !3 else 0
  }

  lemma WordFaithful(p: bv64, q: bv64)
    requires Aligned(p) && Aligned(q)
    ensures FREE != TAKEN && IsFree(FREE) && !IsFree(TAKEN) && !HasWaiters(FREE) && !HasWaiters(TAKEN)
    ensures GetWaiter(FromWaiter(p)) == p && GetWaiter(FREE) == GetWaiter(TAKEN) == 0
    ensures HasWaiters(FromWaiter(p)) && !IsFree(FromWaiter(p)) && FromWaiter(p) != TAKEN
    ensures FromWaiter(p) == FromWaiter(q) <==> p == q
  {
    assert (p | 3) & !3 == p && (q | 3) & !3 == q;
  }

  // What the constructor from a waiter asserts of its address holds of the null pointer only.
  lemma ConstructorAssertion(p: bv64)
    requires Aligned(p)
    ensures p & !3 == 0 <==> p == 0
  {
    assert p & !3 == p;
  }
}
