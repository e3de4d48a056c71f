# A verified model of OpenDOVE's timers, tables and task primitives

OpenDOVE is an overlay-network system written in C. This project models the parts of it
that carry state through time, and proves what they promise:

* **The timing wheel** (`HList`, `WheelMath`, `TimerLog`, `WheelModel`, `WheelScripts`,
  `TimerWheel`, `WheelWalks`). Armed
  timers sit in 64+16+16+16+16 intrusive lists that cascade into each other while callbacks
  start and stop timers. In every run, across wrap-around of the tick counter, the timers
  that fire at a tick are exactly those of a flat map from timer to expiry; a timer is
  re-inserted at most 4 + delay/2^22 times. The argument has three layers: the arithmetic of
  slots and visits, a state machine over values whose every step keeps the invariant, and a
  heap wheel each of whose operations is a step of that machine.
* **The clock behind it** (`TickClock`, `TimerHistory`, `TimerThread`). Between cycles of the main loop
  the clock is never ahead of wall time, and behind it by less than one tick for each correction
  and one more. A timer started between cycles never fires before its whole delay has passed, and
  is overdue by less than a tick and one more for each correction since its start; one started
  while a cycle still has ticks to process may be early by those, and exactly how is proved.
* **The retransmission table** (`BackOff`, `QueryId`, `RetransmitModel`, `RetransmitTable`,
  `RetransmitRuns`). In every interleaving of starts, stops and scans each packet has one outcome
  and keeps its id, context, owner and limit; a scan leaves
  nothing overdue behind whatever happens in its unlocked windows; the times of retries and of
  giving up are exact, float rounding included.
* **The VNID index and the server client on it** (`VnidMap`, `VnidTable`, `DpsClient`). The
  64-bucket hash table is a map over every sequence of operations.
* **The Internet checksum** (`Checksum`), against RFC 1071.
* **The message queue and the task events** (`MessageQueue`, `TaskEvents`): a bounded FIFO and
  a set of bits, with no lost wakeup.
* **The gateway's HA peers** (`HaModel`, `HaPeers`, `PollList`): alternating notifications over
  every interleaving of the two tasks, and a control task that has the present state whenever its
  queue is empty and no change is under way; when messages get stuck in that queue is exact too.

`Seqs` holds facts about sequences. Operations that the C code performs in place are methods of
classes with fields, arrays and linked nodes; each is proved against a function of the old
state. Locks become steps: whatever the code does while it holds its lock is one step, and other
threads come in between.

Assumptions the C code makes of its callers appear as preconditions, or as commands that are not
taken when they break the discipline:

* a timer is started only while unarmed, for a later tick once the walks of the present tick
  have begun, and a callback does not stop the timer its walk has saved as next;
* packet ids are not negative; a scan finds no packet that was transmitted more than 30 times,
  after which the back-off shifts an `int` out of range (a packet takes over 2^30 seconds to get
  there); nothing of a bucket is stopped while its scan is outside the lock;
* clocks do not go backwards, and `unsigned long` has 64 bits.

Where the code and its comments differ, the code is modelled: the offset of the back-off is 1
(`common/timer/inc/raw_proto_timer.h:35`), not the 3 of the comment above it.

Some expected properties do not hold of the code. Each has a member that shows it and one that
says exactly when it does hold:

* a timer started inside a cycle, by a callback or by another thread, can fire before its delay has
  passed, even at the clock reading of its start, because the loop catches up on several ticks at
  one reading; its whole delay is kept if no tick of the cycle was left at the start
  (`FiresAtOnce`, `EarlyByCatchingUp`, `NeverEarly`, `CatchesUp`);
* corrections forget what is left of a tick, so the clock can run at half speed, and not slower
  (`HalfSpeed`, `Clock.Cycle`);
* two folds are enough for a checksum up to 65538 words, and exactly when the second leaves no
  carry (`TwoFoldsCanFail`, `FoldIsOnesComplement`);
* purging a server visits VNIDs 0 to 63 instead of all entries, so it is complete exactly when no
  higher VNID maps to the server (`PurgeCanMiss`, `PurgeIsComplete`);
* a replacement IPv6 seed server is compared by four bytes of its address (`Ipv6SeedCanBeIgnored`,
  `TakesOver`);
* the retry interval loses its odd second from the 24th retry on, and the give-up bound with it
  (`IntervalIsExponential`, `GiveUpCanBeThatEarly`);
* a signalled receiver in a timed wait takes a message without looking whether there still is one
  (`TimedWaitCanFail`, `TimedResume`);
* a checksum over an odd number of bytes includes the byte behind them (`OddLength`);
* a message event that reaches the control task together with a timer event is consumed without
  looking at the queue, and the messages stay there until the next one is sent
  (`CanBeStranded`, `MessageCanBeStranded`, `StrandedWhen`);
* the control task is ahead of or behind the HA task's table in the middle of a change
  (`ControlKnows`).

## Model

| member | source | states |
|---|---|---|
| `HList.HeadAdd` | common/osw/inc/osw_list.h:132-142 | adding at the head keeps the list well formed and its contents become the node prepended to the old contents |
| `HList.NodeRemove` | common/osw/inc/osw_list.h:156-167 | a node unlinked through `pprevious` alone, without its head, leaves a well-formed list that is the old contents without it, order kept; its pointers are poisoned |
| `HList.BypassedIsChained` | common/osw/inc/osw_list.h:158-164 | the pointer writes of a removal, at the head, in the middle or at the end, yield exactly the list with that position cut out |
| `HList.Lists.Add` | common/osw/inc/osw_list.h:132-142 | over a family of lists: they stay well formed and pairwise disjoint, one gains the node at its front and no other changes |
| `HList.Lists.Remove` | common/osw/inc/osw_list.h:156-167 | over a family of lists: they stay well formed and pairwise disjoint, and each one's contents become its old contents without the node |
| `HList.NextOnTail` | common/osw/inc/osw_list.h:132-167 | from the front of any tail of a list, `next` leads to the front of the rest, or is NULL at its end |
| `WheelMath.WalksIffAligned` | common/osw/timer.c:294-320 | the nested overflow tests of a tick reach level l exactly at the multiples of that level's interval |
| `WheelMath.VisitWalks` | common/osw/timer.c:294-320 | the last aligned tick not after an expiry walks the very slot in which the expiry is filed |
| `WheelMath.PlacedAhead` | common/osw/timer.c:113-137 | the level and slot chosen for a timer are visited no later than its expiry, and strictly in the future if and only if the timer is; the choice stays within 4 + delay/2^22 re-insertions |
| `WheelMath.NotMissed` | common/osw/timer.c:294-320 | a tick that does not walk a timer's slot leaves its deciding visit in the future |
| `WheelMath.Walked` | common/osw/timer.c:241-274 | a timer found by a walk below the last level is due or moves to a strictly lower level; on the last level it may be whole turns early and then returns to the same slot; each move is paid for from its budget |
| `WheelMath.Wrapped` | common/osw/timer.c:108-137 | slots computed from the wrapped 64-bit counter are those of the unbounded time, on every level |
| `WheelMath.WrappedOffset` | common/osw/timer.c:109 | the unsigned difference of two wrapped times is their true distance whenever that is below the modulus |
| `WheelMath.Geometry` | common/osw/inc/osw_timer.h:30-62 | 64 slots of one tick and four levels of 16 slots, each slot as wide as the whole level below; a level takes the timers within its own turn, the last one all beyond |
| `WheelMath.ZeroDelayIsLost` | common/osw/timer.c:322-324 | why a start between unlock and increment needs a delay: a zero delay lands in a slot already visited and, 64 ticks later, reads as a delay of almost a whole word |
| `TimerLog.FiresOnTime` | common/osw/timer.c:255-266 | in a sound log every expiry happens in the tick it was started for, with nothing in between |
| `TimerLog.NextIsOutcome` | common/osw/timer.c:206-266 | after a start the next event about the timer is its expiry at its tick, or a stop: never twice |
| `TimerLog.OutcomeBy` | common/osw/timer.c:249-274 | once the tick of its expiry is over, a started timer has fired or been stopped: never lost |
| `TimerLog.ExactFiring` | common/osw/timer.c:105-325 | the timers fired at tick n are exactly those started for n and not stopped since |
| `WheelModel.StepKept` | common/osw/timer.c:105-325 | every start, stop, entry to a list, expiry, re-insertion, end of cascade and tick keeps the wheel's invariant: each armed timer in one slot whose deciding visit is still to come, and the log in step with the flat map |
| `WheelModel.BeginKept` | common/osw/timer.c:235-252 | entering a list keeps the invariant: timers of the same level in other slots are not passed over |
| `WheelModel.SkipKept` | common/osw/timer.c:297-320 | stopping the cascade at a level whose slot is not 0 passes over no timer of that or any higher level |
| `WheelModel.MovedAhead` | common/osw/timer.c:267-273 | a re-insertion puts the timer strictly ahead and strictly lowers its level, unless it is on the last level and returns to its slot |
| `WheelModel.NoneLeft` | common/osw/timer.c:322 | when the walks of a tick are over, no armed timer expires in it |
| `WheelModel.RunKept` | common/osw/timer.c:105-325 | the invariant holds after every run of such steps |
| `WheelModel.GoodIsExact` | common/osw/timer.c:105-325 | where the invariant holds, the wheel agrees with the flat map, firing has been exact, and an armed timer has been re-inserted at most 4 + delay/2^22 times |
| `WheelModel.WheelIsExact` | common/osw/timer.c:105-325 | the same for every run from the empty wheel |
| `WheelScripts.TracedIs` | common/osw/timer.c:258-265 | what it means for a log to hold what a callback does: the slice between two marks is the one start or stop that the action leaves, or empty |
| `WheelScripts.ScriptedIs` | common/osw/timer.c:105-325 | the same for a script of commands: the starts and stops in the log that come from it are those, in script order, and the counter moves only with its increments |
| `WheelScripts.WalkedOn` | common/osw/timer.c:249-274 | a walk whose expiries are each followed by their callbacks stays so when one more timer fires and its callback runs |
| `WheelScripts.ScriptedOn` | common/osw/timer.c:105-325 | what two scripts leave, one after the other, is what the joined script leaves |
| `TimerWheel.Wheel.CreateTimer` | common/osw/timer.c:40-66 | a new timer is on no list, is not armed, and leaves the others as they are |
| `TimerWheel.Wheel.Choose` | common/osw/timer.c:105-137 | level and slot, computed from wrapped words only, are those of the absolute times behind them |
| `TimerWheel.Wheel.StartTimer` | common/osw/timer.c:160-171 | on the heap: the timer is filed by its wrapped expiry, is due at the current tick plus its delay, and its start is logged; the wheel takes exactly the model's start step |
| `TimerWheel.Wheel.IsArmed` | common/osw/timer.c:212-215 | the pointer test of stop_timer is true exactly of the timers that are armed |
| `TimerWheel.Wheel.StopTimer` | common/osw/timer.c:206-220 | an armed timer is taken off its list, whichever it is, and its stop logged; an unarmed one is left alone |
| `TimerWheel.Wheel.Act` | common/osw/timer.c:258-265 | one start or stop in a callback: what it does to the timers due and to the log, and when it does nothing |
| `TimerWheel.Wheel.Run` | common/osw/timer.c:258-265 | what a callback adds to the log is, in the order of its actions, one start for each timer it starts that is not armed by the log so far, with a delay of at least 1 that fits a word, one stop for each timer it stops that is armed and not the walk's next node, and nothing else; the walk goes on with what it had, without those stopped |
| `TimerWheel.Wheel.HandleNext` | common/osw/timer.c:249-274 | one turn of the walk: if the timer is due it is removed, its expiry is logged, and directly after it exactly what its callback does; otherwise nothing is logged and it is re-inserted, possibly at the head of the list being walked |
| `TimerWheel.Wheel.ProcessTvec` | common/osw/timer.c:235-277 | the walk over the list as it stands on the heap ends, having handled every timer that was on it when it began, except those a callback stopped, once and in list order; what it logs begins with an expiry, and every expiry is of a timer of the list and is followed by exactly what its callback does, up to the next one |
| `TimerWheel.Wheel.Cascade` | common/osw/timer.c:294-320 | one walk for each level that overflows, in order, and no further; every expiry in them is followed by its callback |
| `TimerWheel.Wheel.ProcessTick` | common/osw/timer.c:288-322 | a whole tick under the lock is the model's cascade with its callbacks, and is logged after them |
| `TimerWheel.Wheel.IncrementTicks` | common/osw/timer.c:324 | the wrapped counter takes the model's tick step |
| `TimerWheel.Wheel.TryStart` | common/osw/timer.c:160-171 | a start by another thread, between ticks or between the unlock and the increment: taken exactly if the timer is unarmed and the delay fits and is not lost |
| `TimerWheel.Wheel.Perform` | common/osw/timer.c:105-325 | one command, from whatever thread: a stop removes the timer from those due and is logged exactly if it was armed; a start makes it due at the current tick plus its delay and is logged exactly if it was unarmed, the delay fits a word and is not 0 once the walks are over; a tick that is begun is walked to its end, and an increment is taken exactly when the walks are over |
| `TimerWheel.Wheel.Execute` | common/osw/timer.c:105-325 | over every sequence of starts, stops, ticks and increments, callbacks included, the heap wheel computes what the model does and its log is, command after command, exactly what each is to leave; every tick begun is walked to its end, and the counter has moved by exactly the increments taken |
| `TimerWheel.Wheel.Exact` | common/osw/timer.c:105-325 | in every state the heap wheel can reach, firing has been exact, armed timers are the flat map, and re-insertions are within their bound |
| `WheelWalks.WalkInOrder` | common/osw/timer.c:249-274 | whatever the callbacks start and stop, the timers that fire in a walk are among those it found, each at most once, in list order |
| `WheelWalks.WalkHandlesOnce` | common/osw/timer.c:249-274 | each armed timer that a walk finds fires in it, or is stopped by a callback first, or is re-inserted exactly once; one that it does not find is left alone or stopped |
| `TickClock.Clock.Account` | common/osw/timer.c:368-391 | the ticks of a cycle are its whole ticks plus one for a correction; a correction happens exactly when the whole ticks of the total are not those counted, clears the totals and drops less than a tick; every microsecond is ticked, pending or dropped |
| `TickClock.Clock.Cycle` | common/osw/timer.c:356-402 | with a monotone clock 100000*T <= E < 100000*(T + C + 1) after any number of cycles, and each correction adds exactly one tick; C <= T, so E < 100000*(2*T + 1) |
| `TickClock.HalfSpeed` | common/osw/timer.c:356-402 | for every n there is a run with n ticks in 199998*n microseconds: the last bound is nearly reached |
| `TickClock.ElapsedIsDifference` | common/osw/inc/osw_timer.h:66-81 | the fall-through switch computes the difference of the two readings |
| `TimerThread.TicksForIsExact` | common/osw/timer.c:186-193 | the 32-bit conversion to ticks is the delay asked for if and only if the milliseconds are below 2^32 |
| `TimerThread.TicksForWraps` | common/osw/timer.c:186-193 | beyond that the conversion repeats with every 2^32 milliseconds |
| `TimerThread.StartTimerOn` | common/osw/timer.c:186-193 | from any thread, also from a callback or between the unlock and the increment, the timer is armed for the current tick plus the converted delay |
| `TimerThread.Timers.StartTimer` | common/osw/timer.c:186-193 | between two cycles it is armed for the ticks counted so far plus that delay, and the start is stamped with the clock |
| `TimerThread.Timers.StopTimer` | common/osw/timer.c:206-220 | between two cycles an armed timer is stopped, and the stop stamped with the clock; an unarmed one is left alone |
| `TimerThread.Turn` | common/osw/timer.c:288-325 | a tick of the main loop, with other threads before it and between its unlock and its increment, is that script of the model and leaves in the log exactly what its commands are to leave; what fires in it fires in that tick |
| `TimerThread.TurnMarks` | common/osw/timer.c:288-325 | from the log alone: other threads' commands neither move the counter nor fire anything, the tick fires for its own number, and after the increment the counter has moved by one |
| `TimerThread.Timers.Cycle` | common/osw/timer.c:356-402 | a cycle runs one such tick for each tick the clock hands out, at one clock reading, with which all it does is stamped; its log is exactly what that script leaves |
| `TimerThread.CycleUnrolls` | common/osw/timer.c:393-397 | the script of a cycle is, tick after tick, what others do before it, its processing, what they do before its increment, and the increment |
| `TimerHistory.HistoryGrows` | common/osw/timer.c:356-402 | stamped entries keep this invariant: readings only move on, what fires does so in a tick already handed out, and a start for a tick that its cycle still has to process has its outcome in that cycle |
| `TimerHistory.NotEarly` | common/osw/timer.c:393-397 | from that: more time than delay minus ticks left passes between a start and its expiry |
| `TimerHistory.AtOnce` | common/osw/timer.c:393-397 | from that: a delay below the ticks left means an outcome at the same reading |
| `TimerHistory.NotLate` | common/osw/timer.c:356-402 | from that: less time than delay and one tick, plus one for each correction since, passes while a timer is armed |
| `TimerThread.NeverEarly` | common/osw/timer.c:356-402 | of the heap timers: between the clock reading of a start for d ticks and that of its expiry, more than d - L ticks have passed, where L counts the ticks of the cycle still left at the start; more than d, if none were left |
| `TimerThread.CatchesUp` | common/osw/timer.c:393-397 | if d < L, the timer fires or is stopped at the very reading of its start |
| `TimerThread.FiresAtOnce` | common/osw/timer.c:393-397 | in every cycle of more than d ticks, a timer that another thread starts for d before the first tick fires in that cycle, no time at all after its start |
| `TimerThread.EarlyByCatchingUp` | common/osw/timer.c:393-397 | such a run: two ticks of delay, half a second of catching up |
| `TimerThread.NeverLate` | common/osw/timer.c:356-402 | of the heap timers: while a timer started for d ticks is armed, less than d - L + C + 1 ticks have passed since the reading of its start, where C counts the corrections since the start |
| `BackOff.IntervalIsExponential` | common/timer/src/raw_proto_timer.c:228-245 | through the float and the round-up, the interval is 2^(n-1) + 1 exactly up to n = 23, and 2^(n-1) from 24 to 30 |
| `BackOff.RoundedPow2` | common/timer/src/raw_proto_timer.c:240-243 | the float keeps the odd half of 2^n + 1 halves exactly up to n = 23 |
| `BackOff.WaitIsExponential` | common/timer/src/raw_proto_timer.c:237-245 | the sum of the first c - 1 intervals is 2^(c-1) + min(c, 24) - 2 |
| `QueryId.IdIsCyclic` | common/timer/src/raw_proto_timer.c:1157-1170 | the n-th id is 1 + (n - 1) mod (2^32 - 1): 0 is skipped |
| `QueryId.IdsAreUnique` | common/timer/src/raw_proto_timer.c:1157-1170 | two calls return the same id if and only if they are a whole cycle apart |
| `QueryId.HashInRange` | common/timer/src/raw_proto_timer.c:207-210 | a generated id is a valid bucket index if and only if it is below 2^31 or its negative key is a multiple of 1000 |
| `RetransmitModel.StepKept` | common/timer/src/raw_proto_timer.c:271-637 | every insertion, deletion and scan visit keeps the table filed by id, the counts and times of each packet right, and every packet started pending or ended, once and not both |
| `RetransmitModel.InsertKept` | common/timer/src/raw_proto_timer.c:271-344 | an insertion keeps that invariant |
| `RetransmitModel.DeleteKept` | common/timer/src/raw_proto_timer.c:372-482 | a deletion keeps it |
| `RetransmitModel.VisitKept` | common/timer/src/raw_proto_timer.c:555-620 | a scan's visit keeps it, whichever of the three branches it takes |
| `RetransmitModel.EndConserves` | common/timer/src/raw_proto_timer.c:584-617 | unlinking a packet and handing its context over conserves the packets |
| `RetransmitModel.RunKept` | common/timer/src/raw_proto_timer.c:271-637 | the invariant holds after every interleaving of starts, stops and scan visits |
| `RetransmitModel.OneOutcome` | common/timer/src/raw_proto_timer.c:584-617 | no packet has two outcomes, and none has one while it is still pending |
| `RetransmitModel.PendingOrEnded` | common/timer/src/raw_proto_timer.c:271-637 | no packet is lost: each one started is pending or has its outcome |
| `RetransmitModel.RunsHaveOneOutcome` | common/timer/src/raw_proto_timer.c:271-637 | both, for every run from the empty table |
| `RetransmitModel.RunGrows` | common/timer/src/raw_proto_timer.c:271-637 | in every run the packets started and the outcomes given only grow |
| `RetransmitModel.RunTracks` | common/timer/src/raw_proto_timer.c:271-637 | in every run a pending packet stays pending with its id, context, owner and limit, or ends after the run began; its sends only grow |
| `RetransmitModel.DueIsDealtWith` | common/timer/src/raw_proto_timer.c:555-620 | a packet that was due at the start of a run that leaves its bucket settled has been sent again or has ended in that run |
| `RetransmitModel.StopFindsPending` | common/timer/src/raw_proto_timer.c:372-482 | a stop finds nothing if and only if no packet with that id is pending in any bucket |
| `RetransmitModel.GiveUpTime` | common/timer/src/raw_proto_timer.c:305-310 | a packet given up with limit M was resent exactly M times, no sooner than 2^(M+1) + min(M, 22) seconds after its insertion |
| `RetransmitModel.GiveUpCanBeThatEarly` | common/timer/src/raw_proto_timer.c:555-576 | some run gives up at exactly that time, so the bound 2^(M+1) + M holds of all runs if and only if M <= 22 |
| `RetransmitModel.PassIsScan` | common/timer/src/raw_proto_timer.c:541-629 | visiting a bucket node by node, unlinking on the way, equals filtering and mapping it in order, for any monotone clock |
| `RetransmitModel.VisitSettles` | common/timer/src/raw_proto_timer.c:555-628 | after its visit a packet is not overdue for any time up to the visit's own |
| `RetransmitTable.Bucket.Append` | common/timer/src/raw_proto_timer.c:317-336 | the new packet goes to the end of its bucket |
| `RetransmitTable.Bucket.Unlink` | common/timer/src/raw_proto_timer.c:584-593 | the heap bucket becomes the old one with that position cut out, at the head, in the middle or at the end |
| `RetransmitTable.Bucket.Delete` | common/timer/src/raw_proto_timer.c:372-482 | the first packet with the id is unlinked and returned, if there is one; otherwise nothing changes |
| `RetransmitTable.Table.Outcomes` | common/timer/src/raw_proto_timer.c:271-637 | in every state the heap table can reach, each packet started is pending or has ended, and has ended at most once |
| `RetransmitTable.Table.Start` | common/timer/src/raw_proto_timer.c:992-1058 | an invalid owner is refused; otherwise the packet goes to the end of bucket id mod 1000 with exactly this id, context, owner and limit, transmit count 1, no resend and the time read, and no other bucket or outcome changes |
| `RetransmitTable.Table.Stop` | common/timer/src/raw_proto_timer.c:1084-1135 | the first pending packet with the id leaves its bucket and its context and owner are returned; without one, or for id 0, nothing changes and the context is NULL |
| `RetransmitTable.Table.VisitNode` | common/timer/src/raw_proto_timer.c:541-629 | one turn of the scan: a packet whose interval has not passed stays as it is; one that is due is sent again, with one more transmission and the new time, while its count is within its limit, and otherwise leaves the bucket and is given up; the scan's two pointers stay on the bucket |
| `RetransmitTable.Table.Interfere` | common/timer/src/raw_proto_timer.c:596-611 | what other threads do is exactly the insertions and deletions of the model that their starts and stops stand for, in order; outside the bucket being scanned it keeps the scan's place and every settled bucket settled |
| `RetransmitTable.Table.ScanBucket` | common/timer/src/raw_proto_timer.c:530-636 | the scan ends; with anything in its unlocked windows it is a run of visits to this bucket and of the actions of the windows that open, one for each packet given up, each action once and in order; it leaves no packet that was due when it began; undisturbed it filters and maps the bucket, and gives up exactly the exhausted packets in order |
| `RetransmitTable.Table.ScanTable` | common/timer/src/raw_proto_timer.c:511-638 | the same for the whole table: in every interleaving it is a run of visits and of the other threads' actions, each once and in order, so no packet or outcome is lost or doubled; every packet that was due when the scan began has been sent again, given up or stopped when it ends; undisturbed, every bucket is filtered and mapped from the clock reading at which it was reached |
| `RetransmitTable.ActionsOn` | common/timer/src/raw_proto_timer.c:511-638 | what a scan lets in, bucket after bucket: what happens before the bucket, then one window for each packet given up in it, while there are windows |
| `RetransmitRuns.StepEffect` | common/timer/src/raw_proto_timer.c:271-637 | what every step of a run does to the table, field by field |
| `RetransmitRuns.RunUnrolls` | common/timer/src/raw_proto_timer.c:271-637 | a run is its first step, where that is possible, and then the rest from where it leads |
| `RetransmitRuns.RunsKeepPackets` | common/timer/src/raw_proto_timer.c:271-637 | in every run from the empty table each packet, pending or ended, has the id, context, owner, limit and time of the insertion that issued its serial number, and there is one serial number for each insertion |
| `RetransmitRuns.RunCarries` | common/timer/src/raw_proto_timer.c:271-637 | the same from any table in which it holds |
| `RetransmitRuns.StartThenStop` | common/timer/src/raw_proto_timer.c:992-1135 | in every table without a pending packet of that id, a start and then a stop returns the context and owner that were given, and leaves the table as it was |
| `RetransmitRuns.DealtWithMeans` | common/timer/src/raw_proto_timer.c:555-620 | a packet that a scan has dealt with is, as the packet that was started, among those ended since or in its bucket with more transmissions |
| `RetransmitRuns.EffectiveUnrolls` | common/timer/src/raw_proto_timer.c:596-611 | every start with a known owner takes effect, and every stop of an id other than 0 outside the bucket being scanned; nothing else does |
| `RetransmitRuns.ForeignUnrolls` | common/timer/src/raw_proto_timer.c:596-611 | the actions found in a run are its insertions and deletions, with their fields, in order |
| `VnidMap.BucketIsByteSum` | common/dcs_client_server_protocol/src/dps_client_ctrl.c:72-83 | through all 32-bit wrap-arounds, the bucket of a VNID is (5 + its byte sum + 32 * (first + third byte)) mod 64 |
| `VnidMap.BytesAreOf` | common/dcs_client_server_protocol/src/dps_client_ctrl.c:72-83 | the four bytes hashed are those of the 32-bit VNID |
| `VnidMap.SameIs` | common/dcs_client_server_protocol/src/dps_client_ctrl.c:365-386 | two servers are equal exactly if they agree in everything but the http port and, for IPv4, the bytes behind the address |
| `VnidMap.LoopHitsEachBucketOnce` | common/dcs_client_server_protocol/src/dps_client_ctrl.c:461-472 | VNIDs 0 to 63 fall one into each bucket |
| `VnidMap.DelBelowIs` | common/dcs_client_server_protocol/src/dps_client_ctrl.c:461-472 | the purge loop removes exactly the entries below the bound that equal the node |
| `VnidMap.PurgeIsComplete` | common/dcs_client_server_protocol/src/dps_client_ctrl.c:461-472 | the node is gone from the whole table if and only if no VNID from 64 on was mapped to it |
| `VnidMap.PurgeCanMiss` | common/dcs_client_server_protocol/src/dps_client_ctrl.c:461-472 | a table for which the purge removes nothing although the node is in it |
| `VnidTable.Index.Hash` | common/dcs_client_server_protocol/src/dps_client_ctrl.c:72-83 | the loop computes djb2 of the bytes |
| `VnidTable.Index.HeadFor` | common/dcs_client_server_protocol/src/dps_client_ctrl.c:207-214 | the head of the VNID's bucket |
| `VnidTable.Index.SearchIn` | common/dcs_client_server_protocol/src/dps_client_ctrl.c:216-230 | the walk finds the VNID's entry if the table has one anywhere |
| `VnidTable.Index.Search` | common/dcs_client_server_protocol/src/dps_client_ctrl.c:247-274 | success exactly for the VNIDs of the map, with their node |
| `VnidTable.Index.Add` | common/dcs_client_server_protocol/src/dps_client_ctrl.c:304-346 | add is update: the map with this VNID set, one entry per VNID |
| `VnidTable.Index.DeleteIf` | common/dcs_client_server_protocol/src/dps_client_ctrl.c:406-436 | the entry goes, and the call succeeds, exactly when it is there and its node is equal |
| `VnidTable.Index.DeleteVnid` | common/dcs_client_server_protocol/src/dps_client_ctrl.c:489-508 | the entry goes, and the call succeeds exactly when it was there |
| `VnidTable.Index.DeleteDuplicates` | common/dcs_client_server_protocol/src/dps_client_ctrl.c:461-472 | the map without the entries below 64 that equal the node |
| `VnidTable.Index.FirstAvailable` | common/dcs_client_server_protocol/src/dps_client_ctrl.c:178-205 | fails exactly on the empty table, otherwise gives a node of the table |
| `VnidTable.Index.Find` | common/dcs_client_server_protocol/src/dps_client_ctrl.c:526-536 | the VNID's node if it has one, otherwise some node of the table; fails exactly on the empty table |
| `VnidTable.Index.FindServer` | common/dcs_client_server_protocol/src/dps_client_ctrl.c:918-929 | with IPv4 and IPv6 entries only, lookup succeeds exactly when the table is not empty, and prefers the VNID's own node |
| `VnidTable.Execute` | common/dcs_client_server_protocol/src/dps_client_ctrl.c:207-508 | over every sequence of operations the heap table equals the map |
| `VnidTable.LastAddWins` | common/dcs_client_server_protocol/src/dps_client_ctrl.c:304-346 | the node found for a VNID is the one of the last add for it, with no later deletion that applies |
| `VnidTable.AddStays` | common/dcs_client_server_protocol/src/dps_client_ctrl.c:304-346 | and an added node stays found, through any number of other operations, until one concerns it |
| `VnidTable.Perform` | common/dcs_client_server_protocol/src/dps_client_ctrl.c:207-508 | what each operation makes of the map, entry by entry |
| `DpsClient.Client.ServerAdd` | common/dcs_client_server_protocol/src/dps_client_ctrl.c:793-881 | for a client in use: nothing changes if VNID 0 is on a server with the same family, four address bytes and port; VNID 0 gets the node if it is free; otherwise it gets the node and exactly the VNIDs below 64 on the old server are freed. For one not in use, what the map, the flag and the status become for each outcome of the socket calls |
| `DpsClient.ReseededIs` | common/dcs_client_server_protocol/src/dps_client_ctrl.c:793-881 | the same of the map, for every VNID |
| `DpsClient.ReplacementIsLocal` | common/dcs_client_server_protocol/src/dps_client_ctrl.c:793-881 | replacing the seed server puts VNID 0 on the new one, no VNID in 0..63 on the old one, and leaves every other entry alone |
| `DpsClient.TakesOver` | common/dcs_client_server_protocol/src/dps_client_ctrl.c:793-881 | the new server is under VNID 0 afterwards if and only if it was not taken for the seed server that is already there, or equals it |
| `DpsClient.Ipv6SeedCanBeIgnored` | common/dcs_client_server_protocol/src/dps_client_ctrl.c:793-881 | an IPv6 server that differs from the seed only after its first four bytes is ignored |
| `DpsClient.Client.ServerDel` | common/dcs_client_server_protocol/src/dps_client_ctrl.c:897-903 | the map without the entries below 64 that equal the node |
| `DpsClient.Client.RequestNewNode` | common/dcs_client_server_protocol/src/dps_client_ctrl.c:945-961 | the VNID is forgotten, and a request goes out exactly when 132 seconds have passed since the last one |
| `Checksum.Checksum` | ovs-agent/dove-switch.c:1116-1130 | the loop and its two folds, on any length; up to 65538 words the result is the checksum of section 1 of RFC 1071 of the words read |
| `Checksum.OddLength` | ovs-agent/dove-switch.c:1121-1126 | for an odd length it is the checksum of the zero-padded buffer if and only if the byte behind the buffer is zero |
| `Checksum.FoldIsOnesComplement` | ovs-agent/dove-switch.c:1127-1129 | two folds give the complement of the one's complement sum if and only if the second leaves no carry |
| `Checksum.TwoFoldsSufficeFor` | ovs-agent/dove-switch.c:1127-1128 | that is so for every buffer of at most 65538 words |
| `Checksum.TwoFoldsCanFail` | ovs-agent/dove-switch.c:1127-1128 | and fails for some buffer of 65539 words |
| `Checksum.SumsAgree` | ovs-agent/dove-switch.c:1121-1126 | the plain sum and the one's complement sum agree modulo 0xFFFF and are zero together |
| `Checksum.VerifiesItself` | ovs-agent/dove-switch.c:1184-1185 | a buffer that holds its own checksum, wherever the field is, sums to 0xFFFF |
| `Checksum.FillHeaderChecksum` | ovs-agent/dove-switch.c:1184-1185 | after the field is cleared and filled, the 10-word header of section 3.1 of RFC 791 sums to 0xFFFF and nothing else has changed |
| `Checksum.ByteOrderIndependent` | ovs-agent/dove-switch.c:1116-1130 | the checksum of byte-swapped words is the byte-swapped checksum, as in section 2(B) of RFC 1071 |
| `MessageQueue.Queue.constructor` | common/osw/queue.c:243-282 | a new queue is an empty ring |
| `MessageQueue.Queue.Indices` | common/osw/queue.c:343-346 | write_index = (read_index + avail_num) mod msg_num and avail_num <= msg_num, always |
| `MessageQueue.Queue.Send` | common/osw/queue.c:325-352 | a message is accepted exactly when it fits and there is room, what is queued stays in its slots, and a sleeping receiver is signalled |
| `MessageQueue.Queue.Take` | common/osw/queue.c:423-426 | the oldest message comes out, as many bytes as asked for and a slot holds |
| `MessageQueue.Queue.Receive` | common/osw/queue.c:386-393 | without waiting: the oldest message, or an error exactly when there is none |
| `MessageQueue.Queue.Wait` | common/osw/queue.c:394-398 | waiting: the oldest message, or asleep on the condition variable exactly when there is none |
| `MessageQueue.Queue.Resume` | common/osw/queue.c:396-397 | a signalled receiver looks again: the oldest message, or asleep again if it is gone |
| `MessageQueue.Queue.TimeOut` | common/osw/queue.c:414-419 | a timed wait that runs out is an error and leaves the ring and the wakeups as they are |
| `MessageQueue.Perform` | common/osw/queue.c:325-430 | what each operation accepts, hands out, wakes and puts to sleep |
| `MessageQueue.Queue.TimedResume` | common/osw/queue.c:399-426 | a receiver whose timed wait was signalled does not look again, and the ring stays a queue if and only if there still is a message |
| `MessageQueue.TimedWaitCanFail` | common/osw/queue.c:399-426 | a run in which another receiver has taken the message and a timed one takes a message that was never sent |
| `MessageQueue.Execute` | common/osw/queue.c:325-430 | in every interleaving of senders with receivers that wait or do not, the ring accepts, hands out and wakes as a bounded FIFO does; the k-th receive returns the first bytes of the k-th message accepted when it asks for no more than was sent; and while a receiver sleeps every message has a signalled receiver on its way |
| `TaskEvents.PendingIffUndelivered` | common/osw/task.c:215-249 | a bit is pending exactly when some send of it has not been followed by a delivery |
| `TaskEvents.Task.Send` | common/osw/task.c:210-221 | the bits are added, a sleeping receiver is woken, and the invariant that no bit is lost, invented or slept through is kept |
| `TaskEvents.Task.Receive` | common/osw/task.c:240-270 | one round of the loop: exactly the wanted pending bits are delivered and cleared, an error without them and without waiting, else sleep |
| `TaskEvents.RunUnrolls` | common/osw/task.c:210-270 | step after step of a run: each send is recorded and wakes a sleeper, each round of a receiver delivers exactly the wanted bits not delivered before, or sleeps exactly when there are none |
| `TaskEvents.Execute` | common/osw/task.c:210-270 | in every interleaving of senders with one receiver the event word is the set of bits sent and not delivered, and the receiver is never asleep and unsignalled while a bit it wants is pending |
| `HaModel.SendKept` | odgw/dgadmin/dgwy_vlan_ha_task.c:220-257 | a notification keeps addresses distinct, that peer's sequence alternating and ending with what was announced, and the other peers' sequences untouched |
| `HaModel.AddKept` | odgw/dgadmin/dgwy_vlan_ha_task.c:391-397 | a new peer in a free slot keeps that invariant |
| `HaModel.SetKept` | odgw/dgadmin/dgwy_vlan_ha_task.c:296-324 | a slot rewritten with its address kept and what is announced of it in step keeps it |
| `HaModel.DrainKept` | odgw/dgadmin/dgwy_ctrl_task.c:147-161 | the control task has always applied, for each peer, the last notification it took |
| `HaModel.StepKept` | odgw/dgadmin/dgwy_vlan_ha_task.c:220-419 | every step of either task keeps the invariant, wherever the other is |
| `HaModel.RunKept` | odgw/dgadmin/dgwy_vlan_ha_task.c:220-419 | and so does every interleaving |
| `HaModel.Alternates` | odgw/dgadmin/dgwy_vlan_ha_task.c:220-327 | unless an allocation failed, the notifications about any address are UP, DOWN, UP and so on, at every moment of every run |
| `HaModel.ControlKnows` | odgw/dgadmin/dgwy_ctrl_task.c:147-161 | if nothing was missed or lost, then once a peer has been notified about and the queue is empty the control task has its present state, if and only if the HA task is not just then between writing that state and sending it, or the other way round |
| `HaModel.StrandedWhen` | odgw/dgadmin/dgwy_ctrl_task.c:107-147 | messages get stranded, queued with no event pending or coming and nobody emptying the queue, exactly when their event is taken together with a timer event, and stay so exactly until the next message is sent |
| `HaModel.StrandedUntilNext` | odgw/dgadmin/dgwy_ctrl_task.c:107-147 | until then no number of looks by the control task changes the queue or what is applied |
| `HaModel.CanBeStranded` | odgw/dgadmin/dgwy_ctrl_task.c:107-147 | a run from the start that ends with the peer active, both tasks at rest, and the control task knowing nothing |
| `HaPeers.Gateway.AddPeer` | odgw/dgadmin/dgwy_vlan_ha_task.c:366-419 | a new peer goes to the first free slot; the call fails exactly when the peer is unknown and no slot is free, and then changes nothing |
| `HaPeers.Gateway.Notify` | odgw/dgadmin/dgwy_vlan_ha_task.c:226-249 | queue_send, send_event and the late write of an UP in the order of the code, with each move of the control task taken once, in its place: exactly this notification is tried |
| `HaPeers.Gateway.Heard` | odgw/dgadmin/dgwy_vlan_ha_task.c:280-327 | exactly the slots with the address become active with the new time, and exactly the inactive ones among them are notified about, in slot order, if there is memory; every move of the control task is taken once, in its place; undisturbed, exactly the notifications are queued and signalled |
| `HaPeers.Gateway.TimeOut` | odgw/dgadmin/dgwy_vlan_ha_task.c:220-257 | a slot goes inactive and is notified about if and only if its address is not 0, its connection is up, it is active, there is memory and at least 31000000 clock units have passed since it was heard of; in slot order, each with its own reading, allocation and send; every move of the control task is taken once, in its place; undisturbed, exactly what could be sent is queued and signalled |
| `HaPeers.Gateway.Judge` | odgw/dgadmin/dgwy_vlan_ha_task.c:220-232 | the test and the write of one slot, in clock units |
| `HaPeers.Gateway.Meet` | odgw/dgadmin/dgwy_vlan_ha_task.c:280-324 | what a message does to one slot before anything is told |
| `HaPeers.TellingIs` | odgw/dgadmin/dgwy_vlan_ha_task.c:226-249 | the steps of a notification, with the control task before each of them |
| `HaPeers.Gateway.Others` | odgw/dgadmin/dgwy_ctrl_task.c:102-161 | every move of the control task is taken, once and in order |
| `HaPeers.Gateway.PollEvents` | odgw/dgadmin/dgwy_ctrl_task.c:107-147 | both event bits are taken, and the messages are gone to only without a timer event |
| `HaPeers.Gateway.DrainOne` | odgw/dgadmin/dgwy_ctrl_task.c:147-161 | the oldest message is taken and applied, or the loop is left |
| `HaPeers.Gateway.ControlPoll` | odgw/dgadmin/dgwy_ctrl_task.c:102-194 | with nobody coming in, the queue is emptied and applied in order exactly when a message event came without a timer event; otherwise only the event is gone |
| `HaPeers.AppliedLast` | odgw/dgadmin/dgwy_ctrl_task.c:147-161 | after it each peer has the state of the last message about it |
| `HaPeers.AppliedOthers` | odgw/dgadmin/dgwy_ctrl_task.c:147-161 | and the others keep theirs |
| `HaPeers.MessageCanBeStranded` | odgw/dgadmin/dgwy_ctrl_task.c:107-147 | on the code: a peer is heard of, the control task's turn has a timer event, and the message stays queued with no event pending |
| `PollList.Poll.Add` | odgw/dgadmin/dgwy_vlan_ha_task.c:69-107 | the first free slot is taken, and there is one unless the count says full; the count stays the number of used slots if and only if the descriptor is not 0 |
| `PollList.Poll.Remove` | odgw/dgadmin/dgwy_vlan_ha_task.c:109-132 | the first slot with the descriptor is freed, and the count stays the number of used slots |
| `PollList.Poll.Gather` | odgw/dgadmin/dgwy_vlan_ha_task.c:432-445 | the descriptors polled are those of the used slots, in order, and the count is how many they are |
| `PollList.LiveSet` | odgw/dgadmin/dgwy_vlan_ha_task.c:69-132 | writing one slot puts its descriptor in at that place among the used ones, or takes it out, and changes nothing else |

## Left out

- HaPeers.Gateway.Heard: connecting and writing to peers is not modelled; whether a peer's connection is up, and whether an allocation or a send succeeds, are inputs.
- HaPeers.Gateway.DrainOne: messages other than UP and DOWN, which the control task ignores.
- DpsClient.Client.ServerAdd: the outcomes of `socket`, `fcntl` and `fd_process_add_fd` are inputs; the list of known addresses kept beside the table is not modelled.
- RetransmitTable.Table.Start: packet bytes and sockets are not modelled, so a resend is a count and a time; allocation succeeds; a NULL packet or address, which is refused like an invalid owner.
- RetransmitTable.Table.Stop: NULL result pointers, which are refused like id 0.
- RetransmitTable.Table.VisitNode: the give-up callback is the context and time recorded in the model's ended packets; an owner without a registered callback is not told apart.
- VnidTable.Index.Add: allocation succeeds; VNID bytes are little endian.
- MessageQueue.Queue.Take: bytes beyond what was sent are whatever the slot held.
- MessageQueue.Queue.constructor: the registry of queue names is not modelled; the flat buffer is an array of rows.
- TaskEvents.Execute: one receiver per task; with several, a signal may wake one that does not want the bit.
- TimerWheel.Wheel.StopTimer: a NULL timer id, and deleting a timer, which frees an unarmed node.
- TimerWheel.Wheel.CreateTimer: allocation succeeds, and a timer has a callback or a known task.
- TimerWheel.Wheel.Cascade: the five nested tests of a tick are written once for level l and applied level by level.
- PollList.Poll.Gather: reading from the descriptors that poll reports.
- The copies of the same primitives under `odcs/osw`.
- The POSIX message-queue branch, semaphores, task creation and deletion: thin wrappers over the operating system.
- The disabled callback-thread code of the retransmission table.
- OpenFlow handling, ARP and DHCP rewriting, the controller client, REST, CLI, Python embedding and logging.
- The socket array of `odcs/fd_process`, which would only add easy members.
