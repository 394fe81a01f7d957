# Lunar lander priority-queue simulation, modelled in Dafny

The program simulates several lunar landers descending together. Every
lander sits in a priority queue (`priorityQ<lander>`, an array-backed binary
max-heap). Each operator command is a fuel flow rate. It goes to the lander
with the highest priority:

- that lander's copy takes the rate and is stepped once;
- the copy is dropped if it crashed and re-inserted otherwise;
- the old root entry is deleted.

When the commands run out, the landers still in the queue are reported as
"mission aborted", highest priority first. Priority is the lander's
`operator>`: fewer simulation steps first, then lower altitude, then less
fuel, then heavier, then lower id.

The Dafny modules:

- `Orderings` (orderings.dfy): strict weak orders, the property the heap needs of its comparator.
- `Landers` (landers.dfy): the `lander` class as a value type.
  - Constructor, `get_status`, `change_flow_rate` and `simulate`. `simulate` is a method proved equal to the function `Step`.
  - `operator>` as `Outranks`, proved equal to lexicographic order on a five-key rank and proved a strict weak order.
  - The copy one command makes of a lander (`Stepped`), and lemmas about a lander's life under a sequence of commands (`Fly`).
- `HeapShape` (heap_shape.dfy): the heap property over the stored items ("no child outranks its parent", `!(a[c] > a[(c-1)/2])`). It also has the two partial shapes met during sift-up and sift-down, and one lemma per swap.
- `Growth` (growth.dfy): the size bookkeeping of `insert`, as written and corrected (see Findings).
- `PriorityQueues` (priority_queue.dfy): `priorityQ<Type>` as a class over an `array<T>` with `capacity` and `items` fields. The element type's `operator>` is the `greater` field.
  - Each operation states its effect on the multiset `Elements()` of stored items.
  - `Valid()` keeps the heap property and the bookkeeping.
- `Simulation` (simulation.dfy): the command loop and drain loop of `simulateLanding`. The command file is replaced by a sequence of rates. The console output is replaced by returned sequences:
  - the lander selected for each command;
  - the crashed copies;
  - the landers reported as aborted.

The model reproduces one quirk of the program rather than fixing it. `simulate` counts steps only while airborne. So a landed lander that is re-inserted keeps its rank and stays at the top. It then absorbs every later command and is finally reported as "mission aborted". `Simulation.SimulateLanding` states this outright.

## Model

| member | source | states |
|---|---|---|
| `Landers.NewLander` | lander.h:48-50 | a new lander is airborne (status 'a'), at rest, with the throttle closed, no steps taken, and the given mass, thrust, consumption rate, altitude, fuel and id |
| `Landers.Status` | lander.h:58-72 | the status is one of 'a', 'c', 'l'; 'a' exactly when still landing; 'c' exactly when down with velocity at or below -2 |
| `Landers.ChangeFlowRate` | lander.h:75-84 | the rate is accepted exactly when 0 <= r <= 1 and fuel > 0; when accepted only the flow rate changes, to r; when rejected nothing changes; a flow rate in [0, 1] stays in [0, 1] |
| `Landers.Step` | lander.h:87-115 | a lander already down is left unchanged; an airborne one gains exactly one step, ends with altitude >= 0 and fuel >= 0, stays airborne exactly when the unclamped new altitude is positive, and keeps id, mass, thrust, consumption rate and flow rate; it never becomes airborne again; the mass preconditions for the next step are kept |
| `Landers.Simulate` | lander.h:87-115 | the field-by-field update of the source yields exactly `Step` of the old state |
| `Landers.Stepped` | lander.h:400-401 | the copy a command makes (the rate offered, a rejection ignored, then one step) stays steppable, and is airborne only if the original was |
| `Landers.Fly` | lander.h:396-401 | repeating "offer the rate, then step" over any commands keeps a lander steppable |
| `Landers.SettledStaysSettled` | lander.h:58-72 | once a lander's status is not 'a', no sequence of commands changes its status or its rank key again |
| `Landers.AirborneCountsEverySteps` | lander.h:92-113 | a lander still airborne after a sequence of commands was airborne before it, and was stepped exactly once per command |
| `Landers.FlightKeepsClamps` | lander.h:99-111 | after at least one command from the air, altitude and fuel are never negative |
| `Landers.Outranks` | lander.h:118-139 | a lander stepped fewer times always outranks one stepped more; an outranking lander is never stepped more; no lander outranks itself (the full order is `OutranksIsLexicographic`) |
| `Landers.OutranksIsLexicographic` | lander.h:118-139 | `operator>` holds exactly when the rank key (steps, altitude, fuel, -mass, id) is lexicographically smaller |
| `Landers.LexLessAsymmetric` | lander.h:118-139 | lexicographic order on rank keys is asymmetric |
| `Landers.LexLessNegativelyTransitive` | lander.h:118-139 | lexicographic order on rank keys is negatively transitive: if s < u then s < t or t < u |
| `Landers.LexLessConnected` | lander.h:118-139 | two different rank keys are ordered one way or the other |
| `Landers.LexLessCons` | lander.h:120-137 | comparing keys with a leading component compares that component first and the rest only on a tie |
| `Landers.OutranksIrreflexive` | lander.h:118-139 | no lander outranks itself |
| `Landers.OutranksConnected` | lander.h:118-139 | landers with different rank keys are ordered one way or the other |
| `Landers.OutranksIsStrictWeakOrder` | lander.h:118-139 | `operator>` is asymmetric and negatively transitive, which is what the heap needs of its ordering |
| `Landers.SteppedNeverOutranks` | lander.h:396-401 | one command gives an airborne lander exactly one more step; a lander already down keeps its rank key and status; either way the stepped copy never outranks the original |
| `Landers.LowerAltitudeFirst` | lander.h:124-126 | of any two fresh landers alike in mass, thrust, consumption rate and fuel, the one at lower altitude outranks the higher one and not the reverse, whatever their ids |
| `Landers.TouchdownScenarios` | lander.h:94-103 | with the throttle closed, a lander at 1 m moving at -1.38 m/s touches down at -3 m/s and crashes; one at 0.5 m moving at 0.62 m/s touches down at -1 m/s and lands |
| `HeapShape.Swapped` | lander.h:270 | swapping two slots exchanges them, leaves every other slot alone and keeps the multiset of items |
| `HeapShape.AppendedIsOrderedExceptAt` | lander.h:232-235 | appending an item to an ordered heap leaves the heap property broken at most between the new slot and its parent |
| `HeapShape.SiftUpStep` | lander.h:267-272 | swapping an item with the parent it outranks moves the only possibly broken link one level up |
| `HeapShape.SiftUpDone` | lander.h:267 | when sift-up stops (at the root, or below a parent the item does not outrank) the heap is ordered |
| `HeapShape.SiftDownStep` | lander.h:298-301 | swapping an item with its higher-ranked child that outranks it moves the only possibly broken links one level down |
| `HeapShape.SiftDownDone` | lander.h:288-307 | when sift-down stops (the chosen child does not outrank the item, or the item has no children) the heap is ordered |
| `HeapShape.NothingOutranksRoot` | lander.h:255 | in an ordered heap no stored item outranks the root |
| `HeapShape.RootReplacedByLast` | lander.h:245-246 | moving the last item to the root and dropping the last slot removes exactly one copy of the old root and leaves the heap broken at most below the root |
| `HeapShape.ParentOfChild` | lander.h:265 | (c - 1) / 2 is i exactly for the children 2i + 1 and 2i + 2, and a parent index is below its child's |
| `Growth.AsWrittenLayout` | lander.h:218-232 | as written, after k <= 2 * capacity inserts into a new queue the recorded capacity is unchanged and the array has capacity + 1 slots (up to capacity inserts) or 2 * capacity slots (after) |
| `Growth.AsWrittenOverrun` | lander.h:218-232 | as written, the first 2 * capacity inserts store in bounds and the next one stores past the end of the array |
| `Growth.CorrectedInsert` | lander.h:218-235 | with capacity doubled alongside the array, an insert always stores in bounds, adds one item, never shrinks the capacity and keeps the bookkeeping sound |
| `Growth.CorrectedInserts` | lander.h:215-236 | any number of corrected inserts keeps the bookkeeping sound and adds one item each |
| `Growth.CorrectedNeverOverruns` | lander.h:218-232 | with the correction, no insert into a new queue of capacity >= 1 ever stores out of bounds |
| `PriorityQueues.PriorityQ.constructor` | lander.h:164-168 | a new queue is empty and valid, with the given capacity and capacity + 1 slots |
| `PriorityQueues.PriorityQ.IsEmpty` | lander.h:259 | true exactly when no element is stored |
| `PriorityQueues.PriorityQ.GetSize` | lander.h:312 | the number of stored elements; 0 exactly when `IsEmpty` |
| `PriorityQueues.PriorityQ.GetHighestPriority` | lander.h:255 | on a non-empty queue, a stored element that no stored element outranks |
| `PriorityQueues.PriorityQ.Insert` | lander.h:215-236 | the stored elements become the old ones plus the new element; the queue stays valid; the bookkeeping follows `Growth.CorrectedInsert`; an element that does not outrank the old root leaves the root in place |
| `PriorityQueues.PriorityQ.Grow` | lander.h:218-230 | the items are copied into a fresh array of capacity * 2 slots, and the recorded capacity doubles with it |
| `PriorityQueues.PriorityQ.StoreLast` | lander.h:232-235 | the element is stored after the last item and the count grows by one, nothing else changes |
| `PriorityQueues.PriorityQ.DeleteHighestPriority` | lander.h:239-251 | on an empty queue nothing changes; otherwise exactly one copy of the old root is removed, the count drops by one, and the queue stays valid |
| `PriorityQueues.PriorityQ.MoveLastToRoot` | lander.h:245-246 | the root slot takes the last item and the count drops by one, nothing else changes |
| `PriorityQueues.PriorityQ.BubbleUp` | lander.h:262-275 | from a heap broken at most between `index` and its parent, the swaps restore the heap property and keep the elements; the root is kept unless the moved item outranks it |
| `PriorityQueues.PriorityQ.BubbleDown` | lander.h:278-308 | from a heap broken at most below `index`, the swaps with the higher-ranked child restore the heap property and keep the elements |
| `PriorityQueues.PriorityQ.SinkOnce` | lander.h:283-306 | one pass of the sift-down body: either it swaps with a child that sits further down, keeping the shape, or it leaves the array alone and the heap is ordered |
| `PriorityQueues.PriorityQ.Swap` | lander.h:270 | the two slots are exchanged in the array |
| `Simulation.AfterCommand` | lander.h:403-416 | after one command the queue has one entry fewer if the stepped copy crashed and the same number otherwise; the copy is stored unless it crashed; nothing else is added |
| `Simulation.NewLanderQueue` | lander.h:145 | the program's queue is empty and valid, with capacity 10 and ordered by `operator>` |
| `Simulation.ProcessCommand` | lander.h:396-416 | the selected lander is a stored one that nothing outranks; the copy is that lander after the rate is offered and one step is taken; it counts as crashed exactly when its status is 'c'; the queue ends holding the old contents minus the selected lander plus the copy unless it crashed |
| `Simulation.RootReplaced` | lander.h:405-416 | inserting the copy (unless crashed) and then deleting the old root leaves exactly `AfterCommand`, and every stored lander stays steppable |
| `Simulation.Drain` | lander.h:422-427 | the queue ends empty, the reported elements are exactly the stored ones, and no later report outranks an earlier one |
| `Simulation.ReportedInOrderExtends` | lander.h:424-426 | reporting and deleting a root that nothing outranks keeps the reports in priority order and accounts for every element |
| `Simulation.SameKeySameRank` | lander.h:118-139 | landers with equal rank keys compare identically against any lander |
| `Simulation.TiedShareKey` | lander.h:118-139 | two landers neither of which outranks the other have equal rank keys |
| `Simulation.LandedKeepsTop` | lander.h:396-416 | if a landed lander is stored and nothing outranks it, the selected lander has its rank key, and after the command a landed lander with that key (itself or its re-inserted copy) is still stored and outranked by nothing |
| `Simulation.AnchoredAdvances` | lander.h:396-416 | once a landed lander holds the top, every command keeps it (or its copy) there and selects a lander with its rank key |
| `Simulation.AnchoredStarts` | lander.h:410-413 | the first landed lander selected is re-inserted and takes the top |
| `Simulation.LandedSoFarAdvances` | lander.h:376-417 | one command keeps the loop's knowledge of landed selections: none so far, or one landed lander holding the top since its first selection |
| `Simulation.CrashedCopies` | lander.h:403-408 | the crashed copies, in command order, are at most one per selection and each has status 'c' |
| `Simulation.TraceExtends` | lander.h:395-416 | one more command, selecting a stored lander that nothing outranks and leaving `AfterCommand`, extends the trace of queue states |
| `Simulation.TraceAccounts` | lander.h:376-417 | at every point of the command loop, the stored landers plus the crashed copies so far number exactly the initial landers |
| `Simulation.TraceKeepsUnselected` | lander.h:376-417 | a lander stored at the start and never selected is still stored at every later point of the command loop |
| `Simulation.LandedSoFarConcludes` | lander.h:376-417 | once a landed lander has been selected, every later selection has its rank key and a landed lander with that key is still stored |
| `Simulation.Command` | lander.h:395-416 | one pass of the command loop body: the selections, the trace and the crash list extend the old ones; the new selection is a lander of the queue at entry that nothing outranks, the queue becomes `AfterCommand` of it, the crash list gains its copy exactly when that copy crashed, and the landed-lander knowledge is kept |
| `Simulation.RunCommands` | lander.h:376-417 | the ghost trace `states` starts with the initial queue and ends with the final one; selection k is a stored lander of `states[k]` that nothing outranks, and `states[k + 1]` is `AfterCommand` of its copy under command k; the crashes are exactly the crashed copies in order; the loop stops before the last command only on an empty queue; the landed-lander knowledge holds at the end |
| `Simulation.SimulateLanding` | lander.h:367-431 | the command loop follows the trace as in `RunCommands`; the aborted landers are exactly the queue left after the command loop, reported in priority order, and the queue ends empty; stopping before the last command means every lander crashed; crashes plus aborted landers number the initial landers; a lander never selected is reported as aborted; a landed lander, once selected, absorbs every later command and a landed lander with its rank key is reported as aborted |

## Left out

- File and console I/O: `checkFileOpen`, `readLanderFile`, `printLanderInfo` and `printMissionStatus` (lander.h:318-364), the opening of the command file, and main.cpp's prompting. Each printed line becomes an element of a returned sequence.
- The input-validation loop of `simulateLanding` (lander.h:381-393). It never reads `fRate` again, so an out-of-range command spins forever. `Simulation.SimulateLanding` instead requires every command to lie in [0, 1]. The `sFile.ignore` recovery is stream plumbing.
- IEEE-754 double arithmetic: the physics of `simulate` runs over exact reals. Only sign, clamp, counter and status facts are proved, not rounded values.
- The `int` width of `timesSimulated`, `items` and `capacity`: all are unbounded, so overflow after 2^31 steps or items is not modelled.
- Copy constructor, destructor and assignment operator of `priorityQ` (lander.h:171-213). This is manual memory management that Dafny's reference semantics makes moot. The copy constructor allocates only `capacity` slots (lander.h:176). Assignment copies `items + 1` entries (lander.h:207).
- The lander's getters (lander.h:53-57) are the datatype's fields.
- `PriorityQueues.PriorityQ.constructor`: requires capacity >= 1. As written, a queue of capacity 0 overruns on its first insert; `Growth.AsWrittenOverrun` covers that case.
- `PriorityQueues.PriorityQ.Grow`: copies the `items` stored entries. The source copies `items + 1` entries (lander.h:223), one past the last item, which is never read.
- `PriorityQueues.PriorityQ.GetHighestPriority`: says nothing on an empty queue, where the source returns whatever slot 0 holds.
- `Landers.Step`: requires `mass + fuel > 0` while airborne, the divisor of the thrust term. The source does not check it.
- `Landers.Fly`: requires every airborne lander to have positive dry mass as well as positive `mass + fuel` (`Flyable`). Fuel can be clamped to 0, and positive dry mass is what keeps the divisor positive after that. The source steps landers with non-positive dry mass too, e.g. mass -5 with fuel 100.
- `Simulation.SimulateLanding`: requires every stored lander to be `Flyable`, so positive dry mass while airborne, for the same reason. The same holds for `Simulation.RunCommands`, `Simulation.Command` and `Simulation.ProcessCommand`.
- `Landers.Step`: does not promise that fuel never increases, because a negative consumption rate read from the file would add fuel.
- `Landers.ChangeFlowRate`: a rejected rate is reported but otherwise ignored by `simulateLanding` (lander.h:400), and so by `Simulation.ProcessCommand`.

## Findings

| source | as written | input that shows it | evidently intended | confidence | as-written member | corrected member |
|---|---|---|---|---|---|---|
| lander.h:218-230 | on a full array, `insert` allocates `capacity*2` slots but never updates `capacity`; while the queue only grows, `items == capacity` never holds again, so the insert after `2 * capacity` stored items writes past the end of the array (deletes can bring `items` back to `capacity`, and the next insert then reallocates `capacity*2` slots again) | the default queue of capacity 10: the 21st insert writes slot 20 of a 20-slot array; capacity 0: the first insert writes slot 0 of a 0-slot array | double the recorded capacity along with the array | not executed | `Growth.AsWrittenOverrun` | `Growth.CorrectedInsert` |
