# Verification of forque

Forque is a queue for items that carry hierarchical tags. Two tags are related when one is a
prefix of the other; related items are served one at a time, in the order in which they were
reserved, and unrelated ones in any order. A reservation can be filled later, a consumer obtains an
item and finalizes it when it is done, and an interrupt lets what is left drain before getters are
told that the end has come.

The library gets this from a recursive tree of chains that activates items from the root down and
erases emptied chains from the leaf up, from hand-over-hand locking with a lock-free coroutine
mutex, and from a run queue with parked getters. This project models those parts and proves that
the tree, for every run, is the flat list of reservations it stands for.

## Layout

- `Tags`: tags, views, relatedness, and the keys under which a reservation descends.
- `Trees`, `Flat`, `Survivors`: the tree as a value, the flat list, and the refinement between them.
- `Cascade`: the deletion as the code runs it, from the item's chain up through its parents.
- `System`, `Runs`: the queue as a state machine, and what holds over all its runs.
- `Places`, `Chains`: where items sit in a tree, and the chains as linked objects updated in place,
  with the upward cascade through parent pointers.
- `Runques`, `Wakeups`: the run queue as an object, and its getters while calls interleave.
- `Forques`: the whole queue as an object; each call is one event of the state machine.
- `Deferred`, `Stamps`, `Removals`: the cascade when other operations get between an emptied chain
  and its removal. `Deferred` compares the tree with the one without such chains, `Stamps` adds what
  tells chains and segments apart and the version counters, `Removals` runs the operations and the
  put-off removals on it.
- `Versions`: the version check alone, for the chain under one key, over every run.
- `Descents`, `Arrivals`, `Crossings`: reservations on their way down while others are, hand over hand
  inside the tree; that each arrives, once; and finalizations that come between them.
- `Coupling`: the locks of the tree, for any number of interleaved calls of every kind.
- `Mutexes`, `Mximpl`: the coroutine mutex at the grain of its atomic accesses, and its code run
  without interference.
- `Lists`, `Values`: facts about sequences, and the type of what the queue carries.

## Where the code and its documentation differ

- README.md:3 promises order for related tags and independence for others. Static tags get exactly
  that (`Runs.StaticFrontier`). Dynamic tags enter the tree one level late (src/inc/forque.hpp:242-247), so their first
  component is never a key: related tags stay in order, but tags that differ only in the first
  component are serialised too. `Tags.SerialisedExactly` says exactly which pairs, and
  `Tags.DynamicIgnoresFirst` gives one.
- A removal is put off until it has its locks again (src/inc/forque.hpp:462-472) and trusts a version
  number that is kept per segment and starts at 0. A match need not mean an empty chain. In every run
  a removal that matches erases an empty chain iff some pending removal has read the segment it finds
  at this version (`Versions.MatchExact`); one that has read this very segment itself is right
  (`Versions.SameSegmentSound`). `Versions.StaleMatch` gives, for every version, a run in which the
  chain was made anew and would be erased with its items, and `Versions.StaleFront` one in which only
  its front segment was replaced; `Removals.LostItem` is a run of the whole tree that ends with a live
  item lost. `Removals` proves what the tree keeps while each removal that matches is backed in that
  way, and `Removals.MatchExact` that it is right up to the first match that is not.
- A removal keeps a pointer to the parent of its chain (src/inc/forque.hpp:463-471), which can be gone
  by then even though every match was right: `Removals.ParentGone` is such a run. While matches find
  what they read and no reservation passes the path of a pending removal, its parent is there and it
  finds what it read, too (`Removals.RemovalFound`); when none ever passes a path with a removal pending, that holds of every
  removal and nothing needs to be presumed of matches (`Removals.ConsiderateRun`).
- The constructor of `mxstate` that takes a waiter asserts that the address has no bit above the low
  two (src/inc/mutex.hpp:25-28), which holds of no entry (`Mutexes.ConstructorAssertion`); the
  assignment operator that the mutex uses asserts alignment (src/inc/mutex.hpp:43-47). The model follows the assignment operator.

## Model

| member | source | states |
|---|---|---|
| `Tags.WalkIsSuffix` | src/inc/tag.hpp:458-541 | advancing a view visits each remaining component once, in order, and stops at the last; the walk ends because the distance to the last level shrinks |
| `Tags.View.Sub` | src/inc/tag.hpp:477-524 | the tag kept by a new chain is a prefix of the reservation's tag and ends with the key the chain is found under |
| `Tags.RootWalkIsEffective` | src/inc/forque.hpp:225-250 | the keys under which a reservation descends are the whole static tag, and all but the first component of a dynamic one |
| `Tags.RelatedStep` | README.md:3 | two paths under a common parent are related iff they go through the same key and their rests are related |
| `Tags.SerialisedExactly` | README.md:3 | related tags stay related in the tree, and unrelated ones stay unrelated iff the queue is static, the first components agree, or the rests are unrelated |
| `Tags.DynamicIgnoresFirst` | src/inc/forque.hpp:241-249 | two unrelated dynamic tags that the queue nevertheless keeps in order |
| `Trees.AddSiblingShaped` | src/inc/forque.hpp:252-276 | appending an item keeps the shape: every segment but the last forks, every segment but the first has items, only the front of an active chain is active |
| `Trees.ReserveShaped` | src/inc/forque.hpp:278-317 | a reservation at any path keeps the shape, new chains included: a child is active iff its segment is active and has no items left |
| `Trees.ActivateShaped` | src/inc/forque.hpp:376-397 | recursive activation turns the shape of a waiting subtree into that of an active one, at every depth |
| `Trees.FinalizeShaped` | src/inc/forque.hpp:340-366 | deleting the head at any path keeps the shape, through the sibling, fork, next-segment and chain-erasing cases |
| `Trees.Undo` | src/inc/forque.hpp:252-310 | finalizing an item whose reservation landed at the front gives back the tree from before, chains created for it included |
| `Trees.Commute` | src/inc/forque.hpp:340-366 | finalizing a head and a later reservation commute, whatever their paths |
| `Trees.LandsReserve` | src/inc/forque.hpp:263-264 | a path is still clear after a reservation iff it was clear and is unrelated to the new path |
| `Trees.HeadReserve` | src/inc/forque.hpp:263-272 | a reservation adds itself to the heads iff it lands, and changes no other head |
| `Trees.ActivateReserve` | src/inc/forque.hpp:376-397 | activating a subtree and reserving in it commute |
| `Flat.BuildShaped` | src/inc/forque.hpp:252-310 | every tree made by reservations has the shape |
| `Flat.BuildLands` | src/inc/forque.hpp:263-264 | a reservation lands at the front iff no item before it is related to it |
| `Flat.BuildHeads` | README.md:30 | the heads of the tree are exactly the items that no earlier related item precedes |
| `Flat.FinalizeBuild` | src/inc/forque.hpp:340-366 | finalizing a ready item in the tree of a list gives the tree of the list without it |
| `Cascade.UpIsDown` | src/inc/forque.hpp:340-366 | the cascade that climbs from the item's chain through its parents erases exactly the chains left empty and offers exactly the new heads, as the recursive deletion from the root does; it reports the empty root iff the tree is vacant |
| `Cascade.NextLift` | src/inc/forque.hpp:427-472 | a cascade below a child, followed by the removal of that child when it ran empty, is the cascade of the parent |
| `Cascade.NewHeadsExact` | src/inc/forque.hpp:376-390 | every head of the tree after a deletion was a head before or was offered by it |
| `Cascade.NewHeadsRelated` | src/inc/forque.hpp:376-390 | every item a deletion offers is a head afterwards and related to the deleted one |
| `Survivors.HeadsUnblocked` | README.md:30 | the heads are the reservations that are not finalized and have no earlier related one that is not |
| `Survivors.ReserveRefines` | src/inc/forque.hpp:252-310 | a reservation keeps the tree equal to the one built from the survivors, and lands iff it is unblocked |
| `Survivors.FinalizeRefines` | src/inc/forque.hpp:340-366 | finalizing an unblocked item, by the upward cascade, keeps the tree equal to the one built from the survivors |
| `Survivors.NewHeadsUnblocked` | src/inc/forque.hpp:376-390 | a finalization offers exactly the reservations that it unblocks |
| `System.ReserveInv` | src/inc/forque.hpp:252-310 | reserving keeps the tree canonical and the offered items equal to the frontier |
| `System.FillInv` | src/inc/forque.hpp:320-338 | filling puts the item into the run queue exactly when it joins the frontier |
| `System.ObtainInv` | src/inc/forque.hpp:564-566 | an obtained item moves from stored to held and is in the frontier |
| `System.FinalizeInv` | src/inc/forque.hpp:340-366 | finalizing replaces the item in the frontier by what it unblocked, each offered once |
| `System.InterruptInv` | src/inc/forque.hpp:211-222 | the run queue ends at the interrupt iff nothing is left by then |
| `System.StepInv` | src/inc/forque.hpp:198-366 | every event keeps the invariant: canonical tree, offered items equal to the frontier and offered once, run queue ended iff interrupted and drained |
| `System.FrontOfHeads` | src/inc/forque.hpp:333-334 | the condition under which a filled item is put, active front segment and first sibling, singles out exactly the heads of the tree |
| `System.VacantIdle` | src/inc/forque.hpp:218-218 | an empty front segment of the root means that the whole tree is empty and every item finalized |
| `Runs.RunInv` | src/inc/forque.hpp:510-576 | the invariant holds in every state of every run |
| `Runs.HistoryIsEvents` | src/inc/forque.hpp:510-576 | the tags, values, finalized items and the interrupt that a state records are those of the events so far |
| `Runs.TreeIsCanonical` | src/inc/forque.hpp:252-472 | in every reachable state the tree is the one built by reserving only the survivors, in order |
| `Runs.ExactFrontier` | README.md:30 | in every reachable state an item is offered, once, iff it is filled and no earlier live item is related to it |
| `Runs.StaticFrontier` | README.md:3 | in a static queue the same with the tags themselves: offered, once, iff filled and no earlier live item has a related tag |
| `Runs.RelatedInOrder` | README.md:3 | of two items with related tags the earlier one is obtained and finalized before the later one is obtained |
| `Runs.HeldUnrelated` | README.md:38 | two items with consumers at the same time have unrelated tags |
| `Runs.OfferedOnce` | src/inc/forque.hpp:368-390 | no item is put into the run queue twice, over a whole run and all four ways to be put; it was put iff finalized or in the frontier |
| `Runs.GracefulDrain` | src/inc/forque.hpp:427-460 | the run queue has ended iff the queue was interrupted and the tree is empty; then nothing is stored or held, and nothing is put afterwards |
| `Runs.DrainedStep` | src/inc/runque.hpp:358-360 | after the end no event but another interrupt is possible, and it changes nothing |
| `Runs.Progress` | README.md:30 | while a filled item is left and all are filled, one can be obtained or finalized |
| `Runs.ServingCounts` | src/inc/forque.hpp:340-366 | serving finalizes each item at most once and loses none |
| `Runs.FullDrain` | src/inc/forque.hpp:340-460 | serving filled items until nothing is offered takes exactly one finalization each and ends with a single empty root segment |
| `Chains.Store.Add` | src/inc/forque.hpp:266-266 | a reservation takes the next list node, filled if a value came with it |
| `Chains.Chain.constructor` | src/inc/forque.hpp:186-196 | a new chain stands for the fresh tree with one segment of the given activity |
| `Chains.Chain.AddSibling` | src/inc/forque.hpp:252-276 | the objects then stand for the tree with the item appended; it was put into the run queue iff filled and first in an active front; the version of the last segment went up by one |
| `Chains.Chain.EnsureChild` | src/inc/forque.hpp:292-317 | the child found or created under the key stands for what the tree has there; passing it counts in the version of the last segment |
| `Chains.Chain.ReserveChild` | src/inc/forque.hpp:278-290 | the descent through one key leaves the objects standing for the tree with the reservation |
| `Chains.Chain.ReserveIn` | src/inc/forque.hpp:225-250 | the objects then stand for the tree with the reservation at the effective path of the tag |
| `Chains.Chain.Release` | src/inc/forque.hpp:319-338 | the item gets its value and is put iff it is first in the active front segment |
| `Chains.Chain.ActivateFront` | src/inc/forque.hpp:382-397 | the objects then stand for the activated tree, and exactly its filled heads were put, each once |
| `Chains.Chain.ActivateChildren` | src/inc/forque.hpp:376-380 | the loop activates every child and puts the filled heads of all of them, each once |
| `Chains.Chain.Finalize` | src/inc/forque.hpp:340-366 | seen from the root, the objects then stand for the tree after the cascade, the filled new heads were put, each once, and the run queue ended iff the cascade emptied an interrupted root |
| `Chains.Chain.NextSegment` | src/inc/forque.hpp:427-460 | the same for a front segment that ran empty: the next segment is activated, or the chain leaves its parent, or the root ends the run queue |
| `Chains.Chain.CleanParent` | src/inc/forque.hpp:462-472 | the same for a chain without segments to go on with |
| `Chains.Chain.RemoveChild` | src/inc/forque.hpp:399-425 | the child is erased, with the cascade that follows, iff it is there and has the version; otherwise nothing changes |
| `Chains.Chain.Interrupt` | src/inc/forque.hpp:211-222 | the first interrupt ends the run queue iff the front segment is empty, later ones change nothing |
| `Chains.Chain.ReachesParent` | src/inc/forque.hpp:399-407 | the parent of the chain found at a path is the one at the shorter path, and holds it under the last key of its tag |
| `Chains.Chain.Spine` | src/inc/forque.hpp:399-472 | work on one chain changes the tree of the root at that chain's path only |
| `Chains.Chain.ItemOwner` | src/inc/forque.hpp:146-158 | the handle of an item names the chain and segment that hold it, whatever happened to the tree since |
| `Forques.Forque.constructor` | src/inc/forque.hpp:530-541 | a new queue is in the initial state of the machine, with a run queue of the given discipline |
| `Forques.Forque.Reserve` | src/inc/forque.hpp:549-562 | refused iff interrupted and then without effect; otherwise the reservation event, and then waiting getters come back with items, one each, from the top of the stack down |
| `Forques.Forque.Fill` | src/inc/forque.hpp:92-98 | filling a reservation is the fill event, and waiting getters come back with items likewise |
| `Forques.Forque.Get` | src/inc/forque.hpp:564-566 | refused iff the run queue ended, parked on top iff nothing is stored, otherwise the obtain event of what the discipline picks |
| `Forques.Forque.Finalize` | src/inc/forque.hpp:61-63 | finalizing an obtained item is the finalize event; waiting getters come back with items, and if the run queue ends the rest come back with the exception |
| `Forques.Forque.Interrupt` | src/inc/forque.hpp:568-570 | interrupting is the interrupt event; if the run queue ends every waiting getter comes back with the exception, and else they wait on |
| `Forques.Forque.ItemHome` | src/inc/forque.hpp:320-334 | the condition that filling looks at in the chain of the handle decides whether the item is a head of the whole tree |
| `Forques.Forque.HeldHome` | src/inc/forque.hpp:340-347 | an item with a consumer is first in the front segment of the chain its handle names, and that chain is reached from the root by the item's path |
| `Forques.DidInv` | src/inc/forque.hpp:510-576 | a call keeps the invariant of the machine, getters served on the way included |
| `Forques.CallsRun` | src/inc/forque.hpp:510-576 | the states that calls pass through, in any order, form a run of the machine |
| `Forques.BuildUnique` | src/inc/forque.hpp:252-310 | no item sits at two paths of the tree |
| `Deferred.ReserveClean` | src/inc/forque.hpp:225-317 | a reservation made while emptied chains still wait for their removal is the reservation in the tree without them |
| `Deferred.PopClean` | src/inc/forque.hpp:340-365 | a finalization that stops before it removes its emptied chain is, without the waiting chains, the whole finalization |
| `Deferred.RemoveClean` | src/inc/forque.hpp:399-434 | the removal of an empty chain changes nothing but the waiting chains |
| `Stamps.PlainReserve` | src/inc/forque.hpp:225-317 | with identities and versions kept, a reservation is the reservation in the tree without them |
| `Stamps.PlainPop` | src/inc/forque.hpp:340-365 | so is a finalization up to the point where it gives its locks up |
| `Stamps.PlainErase` | src/inc/forque.hpp:415-423 | so is the erasure of an empty chain by a removal |
| `Stamps.FineReserve` | src/inc/forque.hpp:312-317 | what a removal has read of a segment holds through a reservation: the segment has moved on from that version, or its chain is still empty |
| `Stamps.FineRead` | src/inc/forque.hpp:462-476 | what a removal reads of an empty chain can be relied on: a segment of this identity and version at this path is in an empty chain |
| `Stamps.ReserveCounts` | src/inc/forque.hpp:252-317 | a reservation at any path counts, once, in each segment that it passes or is appended to, at every depth; the segments it makes begin with version 1; all others keep identity and version |
| `Stamps.PopMarks` | src/inc/forque.hpp:340-365 | a finalization counts nowhere and makes no segment, also where it activates |
| `Stamps.EraseMarks` | src/inc/forque.hpp:415-423 | neither does the erasure of a child |
| `Removals.StepInv` | src/inc/forque.hpp:399-472 | any interleaving of reservations, finalizations, interrupts and removals, each removal looking up the child and comparing versions at its step, keeps the tree, waiting chains aside, canonical and every waiting chain expected by a removal, as long as each removal that matches finds a segment that some pending removal has read at this version |
| `Removals.StepsExactly` | src/inc/forque.hpp:198-222 | a reservation can happen until the interrupt, a finalization of a head, a removal whose parent is still there and an interrupt always can, and nothing else |
| `Removals.HistoryIsEvents` | src/inc/forque.hpp:399-472 | the paths, finalized items and the interrupt that a state records are those of the events so far |
| `Removals.MatchSound` | src/inc/forque.hpp:405-418 | a removal that matches and finds the very segment it read erases an empty chain |
| `Removals.HonestBacked` | src/inc/forque.hpp:405-418 | such a removal is backed: a pending removal, itself or another, has read the segment at this version |
| `Removals.MatchExact` | src/inc/forque.hpp:405-418 | in every run up to and with the first match that nothing backs, a removal that matches is about to erase an empty chain iff a pending removal has read the segment it finds at this version |
| `Removals.LostItem` | src/inc/forque.hpp:405-423 | a run, for any key, in which all removals but the last find what they read; the last matches a chain made anew and takes an item with it that is not finalized |
| `Removals.OfferedUnblocked` | src/inc/forque.hpp:462-472 | however long removals are put off, only unblocked items are heads |
| `Removals.SettledCanonical` | src/inc/forque.hpp:462-472 | with no removal pending the tree is exactly the one built from the survivors |
| `Removals.RemovalEnabled` | src/inc/forque.hpp:399-425 | while the tree is not yet that one, some pending removal has its parent, matches, and erases an empty chain |
| `Removals.RemovalsShrink` | src/inc/forque.hpp:399-472 | each removal leaves less to remove, the one it may start in turn included |
| `Removals.RelatedInOrder` | README.md:3 | also with removals put off, related items are finalized in the order of their reservations |
| `Removals.GracefulDrain` | src/inc/forque.hpp:427-460 | also with removals put off, the run queue has ended iff the queue was interrupted and the tree is empty; then every item is finalized, and the removals still pending change nothing |
| `Removals.JustRead` | src/inc/forque.hpp:462-471 | a removal that has just been put off has read an empty chain that is there under its parent |
| `Removals.RemovalFound` | src/inc/forque.hpp:462-472 | from then on, as long as no reservation passes its path and removals that match find what they read, whatever else happens, it has its parent, finds what it read and erases an empty chain |
| `Removals.ConsiderateRun` | src/inc/forque.hpp:462-472 | when no reservation passes a path for which a removal is pending, every pending removal has its parent, finds what it read and erases an empty chain, and no two are for one path; nothing is presumed of matches |
| `Removals.ParentGone` | src/inc/forque.hpp:463-471 | otherwise the parent can be gone although every match was right: a run of two uses of one path, for any two keys |
| `Versions.StepInv` | src/inc/forque.hpp:312-317 | reservations, finalizations, removals, and another chain coming up under the key with the parent's next segment keep what pending removals rely on |
| `Versions.VersionIsPasses` | src/inc/forque.hpp:263-317 | in every run the version of a segment is the number of reservations of either kind that passed it or were appended to it since it was made |
| `Versions.StepConserves` | src/inc/forque.hpp:399-434 | each event adds or takes one sibling or child and loses no other; a removal erases the whole chain if it matches and nothing if it does not |
| `Versions.SameSegmentSound` | src/inc/forque.hpp:415-418 | while the front segment is the one whose version was read, a match means an empty chain |
| `Versions.EmptyExpected` | src/inc/forque.hpp:462-471 | an empty chain has a removal pending that read this very segment and will match |
| `Versions.MatchExact` | src/inc/forque.hpp:415-418 | in every run, a removal that matches, of whatever segment it read, erases an empty chain iff some pending removal has read this very segment at this version |
| `Versions.StaleMatch` | src/inc/forque.hpp:415-418 | for every version there is a run in which the chain was made anew and the version matches; the removal then erases the chain with that many items |
| `Versions.StaleFront` | src/inc/forque.hpp:427-434 | the same with a single removal in the run, by replacing the front segment of a chain that is never removed |
| `Descents.StepCompleted` | src/inc/forque.hpp:278-317 | a step of any reservation on its way, in a tree with any number of them, changes nothing of the tree that completing them will give |
| `Descents.StepSerial` | src/inc/forque.hpp:263-272 | such a step also offers what a whole reservation would have offered |
| `Descents.Linearizes` | src/inc/forque.hpp:198-317 | however reservations interleave on their way down, with none left on the way the tree is the one that whole reservations build in the order in which they locked the root |
| `Descents.OffersAgree` | src/inc/forque.hpp:263-272 | an item is offered by its reservation iff it is filled and the whole reservation, at its place in that order, lands at the front |
| `Arrivals.StepMoved` | src/inc/forque.hpp:278-317 | a step leaves each reservation on its way at one place, and takes off only the one whose item it places |
| `Arrivals.OnItsWay` | src/inc/forque.hpp:252-290 | in every state a reservation made is on its way and not placed, or has been placed once and is no longer |
| `Arrivals.PlacedOnce` | src/inc/forque.hpp:252-290 | with nobody on the way each reservation has placed its item exactly once, and offered it then iff it was filled and the whole reservation lands |
| `Arrivals.NobodyStuck` | src/inc/forque.hpp:278-290 | while a reservation is on its way, one can step |
| `Arrivals.EntriesAreEntered` | src/inc/forque.hpp:198-209 | the reservations that a state records are those that locked the root, in that order |
| `Crossings.DeleteCompleted` | src/inc/forque.hpp:340-366 | a finalization, with the removals of the chains it empties, while the chains it locks are free and reservations are anywhere else on their way, is the finalization in the tree that completing them gives |
| `Crossings.ActInv` | src/inc/forque.hpp:198-366 | entering, stepping down and finalizing keep every chain in shape and the completed tree that of the whole operations so far |
| `Crossings.OpsAreActs` | src/inc/forque.hpp:198-366 | the operations recorded are those entered and deleted, in order |
| `Crossings.Linearizable` | src/inc/forque.hpp:198-472 | however reservations and finalizations interleave, with nobody on the way the tree is that of whole operations, reservations where they locked the root and finalizations where they deleted |
| `Crossings.RemovesHead` | src/inc/forque.hpp:340-347 | what a finalization deletes is a head at its place in that order as well |
| `Coupling.WantsDeeper` | src/inc/forque.hpp:283-286 | a call that waits for a lock holds only locks strictly nearer to the root, in every phase of every operation; walks up hold none |
| `Coupling.StepSound` | src/inc/forque.hpp:341-345 | no lock is held twice, whatever the calls do next; each chain object has its own, also when two have one path |
| `Coupling.NoTwoWork` | src/inc/forque.hpp:341-413 | no two calls of a run work in one chain at a time, a finalization or removal working in its chain and the parent, a removal in the child too; and no two are in the run queue |
| `Coupling.Acquired` | src/inc/forque.hpp:341-345 | a call that goes on past a lock it wanted holds it, and no other call does |
| `Coupling.SomeCallSteps` | src/inc/forque.hpp:399-413 | in any state of the locks, if a call has not ended then some call can step |
| `Coupling.NoDeadlock` | src/inc/forque.hpp:198-472 | no run of any number of calls over any chains deadlocks |
| `Coupling.DescentGoes` | src/inc/forque.hpp:278-290 | a reservation can go down any line of chains, and takes exactly their locks, from the root on |
| `Coupling.FinalizeGoes` | src/inc/forque.hpp:340-472 | a finalization takes the locks of the parent and the chain, and can remove one chain after the other up to the root, each with the locks of the parent's parent, the parent and the child, and end the run queue there |
| `Coupling.ActivationGoes` | src/inc/forque.hpp:376-397 | activation can go down any line below the chain it starts from, taking the locks on the way |
| `Coupling.NoOvertaking` | src/inc/forque.hpp:278-290 | of two reservations the one that locks the root first has left every chain that both have locked |
| `Runques.Runque.Get` | src/inc/runque.hpp:334-349 | refused when interrupted, else an item that the discipline may pick, else the getter is parked on top |
| `Runques.Runque.Put` | src/inc/runque.hpp:351-373 | refused when interrupted, else handed to the getter parked last, else stored |
| `Runques.Runque.Interrupt` | src/inc/runque.hpp:401-418 | every parked getter is resumed once, with the exception, and none stays parked |
| `Runques.Runque.Pop` | src/inc/runque.hpp:76-129 | the popped item is the first, the last, or one of highest rank |
| `Runques.AccountTaken` | src/inc/runque.hpp:342-344 | taking an item the discipline may pick keeps the books: accepted values are stored or given, in order when first in is first out |
| `Wakeups.StepInv` | src/inc/runque.hpp:334-418 | a getter is parked, on its way to be resumed, or back, never two of these, and was given a value iff it comes back with it |
| `Wakeups.Answers` | src/inc/runque.hpp:334-418 | a getter throws iff the queue was interrupted, else takes what the discipline picks or is parked on top; a value is refused iff interrupted, else goes to the getter on top or is stored |
| `Wakeups.PutsAccepted` | src/inc/runque.hpp:351-373 | the values accepted are those put before the first interrupt, in order |
| `Wakeups.GettersKnown` | src/inc/runque.hpp:334-349 | a getter that has called is parked, on its way to be resumed, or back, ever after |
| `Wakeups.EveryCallCan` | src/inc/runque.hpp:334-418 | a getter that has not called can, whatever is stored, and puts, interrupts and resumptions can |
| `Wakeups.Conserved` | src/inc/runque.hpp:351-373 | over any interleaving the accepted values are those stored and those given, each to another getter, which then has settled with it, in the order of the puts when first in is first out; no getter is parked while items are stored |
| `Wakeups.SettledOnce` | src/inc/runque.hpp:274-295 | a getter comes back with one value or with the exception, never both, and that never changes |
| `Wakeups.ResumedOnce` | src/inc/runque.hpp:274-295 | no getter is resumed twice |
| `Wakeups.InterruptWakesAll` | src/inc/runque.hpp:401-418 | an interrupt settles every parked getter with the exception, and none parks afterwards |
| `Mutexes.StepInv` | src/mutex.cpp:4-65 | every atomic access of every call keeps the invariant: the stack, the detached list and the private list are well-formed and disjoint, and hold the entries of the parked coroutines; the address of an entry is free again once its lock() call is over, while its coroutine still owns the mutex |
| `Mutexes.Refines` | src/mutex.cpp:4-65 | every access is a step, or none, of a lock with a strict queue: acquire only when free with nobody waiting, join at the end, pass to the first, release only with nobody waiting |
| `Mutexes.LockWhole` | src/mutex.cpp:4-22 | lock() with nobody in between and no spurious failure takes at most two exchanges: then the coroutine owns a mutex that was free, or is last in the queue with its entry |
| `Mutexes.TryWhole` | src/mutex.cpp:24-36 | try_lock() likewise owns a mutex that was free and leaves any other as it was |
| `Mutexes.ReleaseEnds` | src/mutex.cpp:38-65 | release() with nobody in between ends, after a number of accesses bounded by those who wait: the first in the queue owns the mutex, or nobody does if none waited |
| `Mutexes.MutualExclusion` | src/mutex.cpp:4-36 | at most one coroutine owns the mutex |
| `Mutexes.NoLostWaiter` | src/mutex.cpp:8-19 | a coroutine is parked iff it is in the queue, once, and then its entry is in exactly one of the three lists, once; while one is parked there is an owner, and its release can go on |
| `Mutexes.FailedReleaseFindsWaiters` | src/mutex.cpp:41-64 | after a failed release exchange the stack is not empty, and release never follows a null pointer |
| `Mutexes.FirstComeFirstServed` | src/mutex.cpp:4-65 | a coroutine behind k others owns the mutex at the (k + 1)-st hand-over |
| `Mutexes.LineKept` | src/mutex.cpp:4-65 | until then those before it are served in order and nobody gets in between |
| `Mutexes.WordFaithful` | src/inc/mutex.hpp:16-51 | the word tells free, taken and each aligned address apart, says which it is, and gives the address back |
| `Mutexes.ConstructorAssertion` | src/inc/mutex.hpp:25-28 | what the constructor from a waiter asserts of an aligned address holds of the null pointer only |
| `Mximpl.MutexImpl.Lock` | src/mutex.cpp:4-22 | owned iff the mutex was free; otherwise the entry joins the queue at its end, after any number of spurious failures |
| `Mximpl.MutexImpl.TryLock` | src/mutex.cpp:24-36 | owned iff the mutex was free, and the queue is untouched |
| `Mximpl.MutexImpl.Release` | src/mutex.cpp:38-65 | free iff nobody waited; otherwise the longest waiting entry is resumed as the owner and the rest keep their order |
| `Mximpl.MutexImpl.Reverse` | src/mutex.cpp:54-60 | the loop reverses the list in place |

## Left out

- Removals.StepInv: takes it that a removal that matches is backed by one that has read the segment it finds at this version, and so do the results about runs that rest on it. The code does not see to that: `Removals.LostItem` is a run without, `Removals.MatchExact` says that this is when a match is right, and `Removals.ConsiderateRun` needs no such premise.
- Removals.RemovalEnabled: gives one removal that can go on, not all; a removal whose parent is gone has no step (`Removals.ParentGone`).
- Chains.Chain.CleanParent: reads the version and has it compared in one step, without the gap between, which is in `Removals`.
- Forques.Forque.Finalize: runs the cascade without a gap, as `Removals` shows the gap to delay items but not to reorder them.
- Coupling.NoDeadlock: does not say that every call ends; a step exists as long as one has not ended.
- Mximpl.MutexImpl.Lock: bounds the spurious failures and has no other call in between; retry loops need not end under interference, so `Mutexes` models one iteration per step.
- Coroutines and promises (src/inc/task.hpp, src/inc/sync_wait.hpp): an await is a call or a point where calls interleave.
- Resumption on the spot: releasing a mutex or serving a getter runs the woken coroutine inside the call; the model lets it step at any later point instead.
- One machine for everything at once: tree operations are atomic in `System` and `Forques`, where reservations are numbered in the order in which they lock the root. `Crossings` takes reservations apart and proves that this order is the one they take effect in, finalizations between them included; `Removals` takes finalizations apart; `Coupling`, `Wakeups` and `Mutexes` each interleave at their own grain.
- Crossings.Linearizable: is about the tree; what finalizations offer while reservations are on their way is not described, nor is a finalization interrupted by others in it.
- Lifetime of erased chains: objects are never freed here. A removal may follow a parent that is gone, also when every match was right (`Removals.ParentGone`); under the conditions of `Removals.RemovalFound` and `Removals.ConsiderateRun` it does not.
- Width of the version counters: unbounded here, 64 bits in the code.
- Memory orderings: atomic accesses are sequentially consistent.
- Allocators, copies and moves, exceptions from them, concepts, hashing and the library containers: keys are a type with equality, containers are sequences and maps.
- Iterators and references into containers: an item is the number of its list node, a segment the number of its node.
- The single-thread run queue (src/inc/runque.hpp:176-236): its calls are the branches of the coroutine one without waiting.
- The meta chain above the root: a lock only, in `Coupling`; in `Forques` it is created and not touched.
- The sample thread pool, the sample application and tag streams.
