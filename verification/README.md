# Timelines, versions and messages of the event service

A Dafny model of the parts of the event service where results are easy to get subtly wrong:

* **Timelines.** A room is re-timed twice: first the time that was not recorded is taken out,
  then the parts cut by hand or by breaks. An edition takes out nested cuts and merges changes.
  Intervals are half-open, instants are whole nanoseconds, and the length of a set of instants is
  the number of its instants, so that every formula of the program is measured against counting.
* **Versions.** Events are versions of labels. A trigger stamps each version with the time of the
  first one; a query reads the latest version of every label, a page at a time; a vacuum deletes
  history.
* **Smaller machines.** The consumer of broker messages, the opening time of a room, and the
  compact form of whiteboard paths.

| file | what it models |
|---|---|
| `Intervals.dfy`, `Sorting.dfy`, `Options.dfy`, `Numbers.dfy` | interval lists, sets of instants and their length; ORDER BY and stable sorting |
| `InvertSegments.dfy`, `Intersect.dfy`, `CutEvents.dfy`, `CollectGaps.dfy` | the four interval algorithms |
| `Retime.dfy`, `Monotonise.dfy`, `RoomEvents.dfy`, `CloneEvents.dfy` | the re-timing query of the adjustment |
| `Footage.dfy`, `AdjustRoom.dfy`, `AdjustResults.dfy`, `AdjustFailure.dfy`, `AdjustExamples.dfy` | the adjustment as a whole, its results in the fields of the job, when it fails, and recordings it does not do well on |
| `EditionMerge.dfy`, `EditionCommit.dfy` | the commit of an edition |
| `EventLog.dfy`, `InsertTrigger.dfy`, `SetState.dfy`, `StateEndpoint.dfy`, `Vacuum.dfy` | the versioned log |
| `NatsConsumer.dfy`, `RoomTime.dfy`, `PathCodec.dfy` | the smaller machines |

`dafny verify dfyconfig.toml` checks everything.

## What does not hold

Some statements one would expect are false of the code. For each there is a lemma with a concrete
input (the first names below) and one with the exact condition under which it is true.

* **An adjustment can fail in the database.** The re-timing query looks for *the* gap that starts
  at 0. All cut events up to the start of the recording are moved to 0, where they are read back in
  order of creation; if two starts among them (the virtual one included) are each followed at once
  by a stop, the query finds two such gaps. Two cuts that open before the recording can do it
  (`SecondRoundMayFail`), and so can a single one made of overlapping marks (`OneCutMayFail`), while
  two need not (`TwoEarlyCutsMaySucceed`). `AdjustSucceedsIff`, and for every order in which the
  database may read `QueryFailsIff`.
* **Cuts can be read back in another order than they were written.** Re-timing brings all cut
  events inside one gap to the same instant; then the time of creation decides, and the cut events
  that the adjustment itself makes from breaks and video groups share it, since one transaction
  inserts them. Read the other way round, whole cuts disappear. `ReversedTieLosesCut`. By rows, with
  rows of equal times in table order: `RowsReadBackIff`. Whatever order the database gives to rows
  of equal times: `EveryReadingIff`.
* **The two reported segment lists can describe different footage** when short segments are
  dropped: the tail after the last cut may be long on the recording and short on the re-timed
  line (`TailsMayDisagree`), or a cut may open in a tail of the room that was too short to become a
  gap (`CutInShortTail`). `FootageAgrees`.
* **The count of a state can differ from the number of rows read** when events have no label: it
  can be smaller (`UnlabelledMiscount`; `CountAgreesIff`) and, if an attribute is asked for, larger
  (`UnlabelledOvercount`; `CountWithAttributeIff`).
* **Pages can lose labels** when two labels share an original time and a page ends between them.
  `PagingMayLose`; `PagingComplete`.
* **Without the advisory lock a key can get two originals.** `UnlockedRunMakesTwoOriginals`.
* **An edition forgets removal marks and attributes, always**, because the insert names neither
  column (`UnmodifiedSurvivor` states both).
  `RemovedNoteReturns`; `RemovalMarkIsLost`.
* **A modification of a drawing does not show**, because the binary form of the source event is
  kept. `DrawingHidesModification`; `ModifiedSurvivor`.
* **A modification whose event is in a set removed in bulk makes the commit fail.**
  `ModificationInRemovedSet`; `CommitsIff`.
* **Events in a short tail do not lie where the reported segments of an edition end.**
  `LateEventLeavesSegments`; `CommitFollowsSegments`.
* **After enough failures in a row the consumer no longer pauses**: the doubling wraps around, in a
  build without overflow checks (with them the consumer would stop instead).
  `FourSecondsVanish`; `PauseFallsIff`, `SleepsGrowIff`, `SuspendVanishes`.
* **Gaps do not always determine the segments they came from.** `InvertTwiceMayDiffer`;
  `InvertTwice`.
* **Updating a room that has not started can change its past.** `PastMayChange`;
  `UnstartedMayRewritePast`.
* **Compressing a path that was compressed before can change it**, when the cast to 32 bits makes a
  point of its box. `TinyLineChanges`; `RecompressionStableIff`.

## Model

| member | source | states |
|---|---|---|
| `Footage.FootageAgrees` | src/app/operations/adjust_room.rs:278-323 | for every minimum segment length: the segments of the modified room are exactly the image, under the first re-timing, of the reported original segments, if and only if no cut opens in a room tail too short to be a gap and the two tail rules agree |
| `Footage.FootageAgreesWithoutMinimum` | src/app/operations/adjust_room.rs:359-368 | with no minimum segment length both lists always describe the same footage |
| `Footage.SameLength` | src/app/operations/adjust_room.rs:359-368 | whenever they describe the same footage, the two lists have the same total length |
| `Footage.CutOriginalCovers` | src/app/operations/adjust_room.rs:278-323 | the reported original segments are the recorded segments minus the cuts, on the recording's own line, up to a short tail |
| `Footage.ModifiedCovers` | src/app/operations/adjust_room.rs:359-368 | an instant is in a segment of the modified room iff no re-timed cut covers it, up to a short tail |
| `Footage.RetimedIsFootageBefore` | src/app/operations/adjust_room.rs:486-496 | up to the end of the last segment a re-timed instant is the length of the segments before it |
| `Footage.RetimedAfterFinish` | src/app/operations/adjust_room.rs:547-562 | after it time stands still, or runs on if the tail was too short to become a gap |
| `Footage.RetimedRange` | src/app/operations/adjust_room.rs:241-257 | every instant of the room lands within the total segment length plus the minimum |
| `Retime.RetimedByRows` | src/app/operations/adjust_room.rs:486-496 | for gaps of any shape and any instant, one before the room included: up to the stop of a gap that starts at 0 everything goes to 0, otherwise the gaps before the instant are taken off |
| `Retime.RetimedIsKept` | src/app/operations/adjust_room.rs:486-496 | the expression of the query, special case at 0 included, is the number of instants before that no gap covers |
| `Retime.RetimedShape` | src/app/operations/adjust_room.rs:486-496 | re-timing is monotone, never stretches, is constant on gaps and an isometry off them |
| `Retime.TwoRoundsAreOne` | src/app/operations/adjust_room.rs:334-341 | re-timing by gaps and then by the re-timed cuts takes out exactly the union of gaps and cuts |
| `Retime.CutSeenThroughRetiming` | src/app/operations/adjust_room.rs:262-276 | a surviving instant is cut on the re-timed line iff it is cut on the original one |
| `Retime.MeasureOfImage` | src/app/operations/adjust_room.rs:486-496 | re-timing carries the length of any set of surviving instants over unchanged |
| `AdjustRoom.Adjust` | src/app/operations/adjust_room.rs:52-384 | the adjustment step by step: succeeds exactly when both queries do and every cut command is known, and yields the specified rooms and lists |
| `AdjustRoom.CutOriginalSegments` | src/app/operations/adjust_room.rs:278-323 | the original segments without the cuts, in milliseconds, or the first unknown command |
| `AdjustRoom.EventTimes` | src/app/operations/adjust_room.rs:334-341 | for every order of reading: an event keeps its contents; a cut event lands on the length that two rounds leave before it, any other at most its two tie ranks later, plus the offset; two rounds are one when the cuts are read back as they are |
| `AdjustRoom.OneStageIff` | src/app/operations/adjust_room.rs:334-341 | two rounds take out exactly the gaps and the cuts iff the cuts read back cover the instants that the re-timed cuts cover |
| `AdjustRoom.ReportedSegments` | src/app/operations/adjust_room.rs:359-382 | for every order of reading: the original segments are those of `Footage`, truncated; the modified ones are what the cuts read back leave, and those of `Footage` when the cuts are read back as they are |
| `AdjustRoom.AdjustedInTableOrder` | src/app/operations/adjust_room.rs:262-290 | in table order the cuts are read back as they are when no tie is reversed |
| `AdjustRoom.ReportedOrdered` | src/app/operations/adjust_room.rs:312-368 | for every order of reading truncation to milliseconds keeps both lists sorted and not before 0 |
| `AdjustRoom.SecondRoundGaps` | src/app/operations/adjust_room.rs:262-276 | the cuts read back from the cloned room are the original cuts, re-timed, when no tie is reversed by creation or, that being equal, by the table |
| `AdjustRoom.AnyReadingGaps` | src/app/operations/adjust_room.rs:262-276 | the same for every order in which the database may return rows of equal times, when ties are settled |
| `AdjustRoom.ToMillisAt` | src/app/operations/adjust_room.rs:312-368 | both truncations interval by interval: rounding toward zero, starts before 0 clamped in the modified list only |
| `AdjustResults.FirstRoundGaps` | src/app/operations/adjust_room.rs:225-239 | an instant of the room is taken out in the first round iff no segment, moved by the recording offset, holds it and it is not in a rest of at most the minimum |
| `AdjustResults.CutOriginalByJob` | src/app/operations/adjust_room.rs:278-323 | the reported original segments truncate the list of exactly those instants of the recording that a segment holds and that are not cut at the moment they were recorded, with the tail rule in the job's own numbers |
| `AdjustResults.UncutRecordingAsGiven` | src/app/operations/adjust_room.rs:278-323 | without cut events the segments are reported as given, whatever the recording offset, but for empty ones |
| `AdjustResults.ModifiedByJob` | src/app/operations/adjust_room.rs:359-368 | the modified segments truncate what the cuts read back leave of the total length of the recording |
| `AdjustResults.ModifiedRoomByJob` | src/app/operations/adjust_room.rs:325-356 | the modified room holds exactly the events that are no cut events, in order, each with its contents and between the length that two rounds leave before it and its tie ranks more |
| `AdjustFailure.AdjustSucceedsIff` | src/app/operations/adjust_room.rs:486-489 | the adjustment succeeds iff every cut command is known and, among the cut events up to the start of the recording in order of creation, with the first one after it, at most one start (the virtual one included) is at once followed by a stop |
| `AdjustFailure.QueryFailsIff` | src/app/operations/adjust_room.rs:486-489 | whatever the order of the cut events read back, the second query fails iff the second cut read back starts at 0 |
| `AdjustFailure.ZeroStartsOfClone` | src/app/operations/adjust_room.rs:262-276 | the gaps at 0 that the query finds are the starts, among those cut events, that a stop follows at once |
| `AdjustFailure.AdjustSucceedsByCuts` | src/app/operations/adjust_room.rs:486-489 | when no tie is reversed: the adjustment succeeds iff every cut command is known and no second cut opens before the recording or with it |
| `AdjustFailure.SecondRoundFailsIff` | src/app/operations/adjust_room.rs:486-489 | for cuts that are re-timed as they are, several gaps start at 0 iff a second cut opens by the start of the first segment |
| `AdjustExamples.SecondRoundMayFail` | src/app/operations/adjust_room.rs:486-489 | an adjustment of a recording of 10 ms in a room of 20 ms that fails |
| `AdjustExamples.OneCutMayFail` | src/app/operations/adjust_room.rs:486-489 | a manual cut and a later break that overlap before the recording: one cut, and the adjustment fails |
| `AdjustExamples.TwoEarlyCutsMaySucceed` | src/app/operations/adjust_room.rs:486-489 | two cuts that open before the recording, and the adjustment succeeds |
| `AdjustExamples.TailsMayDisagree` | src/app/operations/adjust_room.rs:359-368 | an adjustment that succeeds and reports two lists of different footage: the recording paused in the tail |
| `AdjustExamples.CutInShortTail` | src/app/operations/adjust_room.rs:241-257 | another one: a cut opens after the recording, in a tail that is no gap |
| `AdjustExamples.ReversedTieLosesCut` | src/app/operations/adjust_room.rs:186-204 | an adjustment in which two cut events of one transaction, read in the other order, make both cuts disappear |
| `CloneEvents.RowsReadBackIff` | src/db/event/mod.rs:391-402 | the list query on the clone returns the rows of the cut events in the order of the source iff no tie made by re-timing is reversed by the times of creation or, those being equal, by the table |
| `CloneEvents.EveryReadingIff` | src/db/event/mod.rs:391-402 | every result that ORDER BY allows has the commands and times of the source, re-timed, iff no such tie is reversed and no two different commands tie in both times |
| `CloneEvents.CutsReadBack` | src/app/operations/adjust_room.rs:262-276 | then the cut events listed from the clone are those listed from the source, re-timed |
| `CloneEvents.CloneOrder` | src/app/operations/adjust_room.rs:465-472 | cloned events other than cuts are in strict order of re-timed instant, then time of creation, then place, iff every group of ties has room |
| `CloneEvents.TiesClonedInOrder` | src/app/operations/adjust_room.rs:465-472 | of two events that re-timing puts on one instant the one created first comes out first, and only that one |
| `CloneEvents.NewTimeIsRetimedPlusRank` | src/app/operations/adjust_room.rs:465-496 | the new time is the re-timed instant plus offset plus, unless it is a cut event, the number of other such events of that instant created before it, or at once and in front of it |
| `Monotonise.StrictOrderIffRoom` | src/app/operations/adjust_room.rs:465-472 | final times strictly increase by instant, then creation, then place, iff no group of ties is larger than the distance to a later instant |
| `Monotonise.TiesFollowCreation` | src/app/operations/adjust_room.rs:465-472 | in a tie the row created first, or in front of one created at once, has the smaller final time |
| `Monotonise.StrictOrderIsInjective` | src/app/operations/adjust_room.rs:465-472 | then no two rows of a partition share a time |
| `InvertSegments.InvertSegments` | src/app/operations/adjust_room.rs:524-562 | the loop computes the specified gaps |
| `InvertSegments.InvertedCovers` | src/app/operations/adjust_room.rs:524-562 | gaps are the complement of the segments up to the end of the room or of a short tail |
| `InvertSegments.InvertedOrdered` | src/app/operations/adjust_room.rs:524-562 | gaps are sorted and do not overlap |
| `InvertSegments.InvertConserves` | src/app/operations/adjust_room.rs:524-562 | gaps, segments and the dropped tail add up to the room |
| `InvertSegments.InvertTwice` | src/app/operations/adjust_room.rs:524-562 | inverting twice gives the segments back iff an explicit condition on the first and last segment holds |
| `InvertSegments.InvertTwiceMayDiffer` | src/app/operations/adjust_room.rs:547-562 | a segment with a short tail behind it that inverting twice makes longer |
| `Intersect.Intersect` | src/app/operations/adjust_room/intersect.rs:3-44 | the two-pointer loop terminates with the specified list, for any input |
| `Intersect.MergeIsPairwise` | src/app/operations/adjust_room/intersect.rs:26-36 | for sorted inputs that list holds exactly the non-empty pairwise overlaps, in order |
| `Intersect.IntersectCovers` | src/app/operations/adjust_room/intersect.rs:26-36 | an instant is in the result iff it is in both inputs |
| `Intersect.IntersectShape` | src/app/operations/adjust_room/intersect.rs:26-36 | the result is sorted, disjoint and free of empty intervals |
| `Intersect.IntersectSize` | src/app/operations/adjust_room/intersect.rs:14-40 | fewer intervals come out than went in |
| `Intersect.IntersectCommutes` | src/app/operations/adjust_room/intersect.rs:34-38 | swapping the arguments gives the same list although ties advance only one side |
| `CutEvents.CutEventsToGaps` | src/app/operations/adjust_room.rs:571-600 | the flat machine yields the adjacent start and stop pairs behind a virtual start at 0, or stops at the first unknown command |
| `CutEvents.CutGapsOrdered` | src/app/operations/adjust_room.rs:571-600 | gaps of ordered cut events are sorted and do not overlap |
| `CutEvents.CutGapsPoints` | src/app/operations/adjust_room.rs:571-600 | an instant is cut iff a start, possibly the virtual one, is followed at once by a stop around it |
| `CutEvents.CutGapsCommute` | src/app/operations/adjust_room.rs:571-600 | the machine commutes with every re-timing that fixes 0 |
| `CollectGaps.CollectGaps` | src/app/operations/commit_edition.rs:297-367 | collecting succeeds iff the merged items are balanced; otherwise it stops at the first item that offends |
| `CollectGaps.RunMachine` | src/app/operations/commit_edition.rs:315-366 | the nesting machine computes the specified gaps |
| `CollectGaps.MergedInOrder` | src/app/operations/commit_edition.rs:298-313 | the merge is in time order, complete and stable, events before changes |
| `CollectGaps.BalancedByPrefix` | src/app/operations/commit_edition.rs:334-363 | balanced means: known commands only, and no prefix with more stops than starts |
| `CollectGaps.EndsAreExcursions` | src/app/operations/commit_edition.rs:334-347 | the gaps belong to exactly the maximal closed excursions of positive depth |
| `CollectGaps.GapsByEnds` | src/app/operations/commit_edition.rs:341-344 | each gap runs between the times of the two ends of its excursion |
| `CollectGaps.GapsAreNesting` | src/app/operations/commit_edition.rs:334-347 | an instant is cut iff the depth at it is positive and later returns to 0 |
| `CollectGaps.GapsAreMatchedPairs` | src/app/operations/commit_edition.rs:334-347 | the gaps are the union of all matched pairs of closed excursions |
| `CollectGaps.GapsOrdered` | src/app/operations/commit_edition.rs:341-344 | gaps are sorted and do not overlap |
| `CollectGaps.AgreesWithFlatMachine` | src/app/operations/adjust_room.rs:571-600 | on alternating cuts that begin with a start both machines agree |
| `EditionMerge.MergeConserves` | src/app/operations/commit_edition.rs:242-261 | how many rows an event or an addition yields, by positions in the list of changes: none in a set removed in bulk, one if nothing aims at the event, otherwise one for every modification; an addition once; nothing else |
| `EditionMerge.OneChangeOneRow` | src/app/operations/commit_edition.rs:257-261 | an event with at most one change aimed at it comes out once unless that change removes it |
| `EditionMerge.UnmodifiedSurvivor` | src/app/operations/commit_edition.rs:184-247 | an event that no change aims at keeps its contents and moves to the length left uncut before it, plus tie rank and offset |
| `EditionMerge.ModifiedSurvivor` | src/app/operations/commit_edition.rs:204-246 | any other row comes from one of the modifications aimed at its event: that gives what it holds, never the creator; the cuts taken off are those before the old time; new data shows iff there is no other binary form |
| `EditionMerge.ModificationShows` | src/app/operations/commit_edition.rs:224-257 | every modification yields a row of the event it aims at |
| `EditionMerge.AdditionAsGiven` | src/app/operations/commit_edition.rs:204-246 | an addition comes out as given and is not moved by the cuts |
| `EditionMerge.CommitOrder` | src/app/operations/commit_edition.rs:198 | the clone is in strict order of instant, creation and place iff every group of ties has room |
| `EditionMerge.TiesCommittedInOrder` | src/app/operations/commit_edition.rs:198 | in a tie the row created first comes out first |
| `EditionMerge.CommittedTime` | src/app/operations/commit_edition.rs:198 | the new time is the instant plus offset plus the number of rows of that instant created before, or at once and in front |
| `EditionMerge.RemovedNoteReturns` | src/app/operations/commit_edition.rs:189-200 | an edition without changes in which a removed note returns |
| `EditionMerge.DrawingHidesModification` | src/app/operations/commit_edition.rs:224-229 | an edition that gives a drawing new data, of which a reader sees nothing |
| `EditionCommit.Commit` | src/app/operations/commit_edition.rs:32-126 | the commit as a whole, with its two ways to fail and the reported segments in milliseconds |
| `EditionCommit.CommitsIff` | src/app/operations/commit_edition.rs:242-367 | it goes through iff the merged commands are known with no stop before its start, and every modification aims at a live event outside bulk-removed sets |
| `EditionCommit.ModificationInRemovedSet` | src/app/operations/commit_edition.rs:242-247 | an edition that cannot be committed |
| `EditionCommit.CommitFollowsSegments` | src/app/operations/commit_edition.rs:104-113 | every unmodified event of the clone lies at the length of the reported segments before its old time, plus rank and offset, iff none of them was in a short unreported tail |
| `EditionCommit.LateEventLeavesSegments` | src/app/operations/commit_edition.rs:104-113 | an edition in which an event lies after the end of the only reported segment |
| `InsertTrigger.OnEventInsert` | migrations/20230302093017_fix_on_event_insert_1.sql:7-37 | the row takes original time and creator from an earliest visible version of its key, or is its own original, and is created at the supplied time, or now, or right after the original if that is later |
| `InsertTrigger.StepKeepsInv` | migrations/20230302093017_fix_on_event_insert_1.sql:15-35 | every step of every transaction keeps: committed and own versions of a key form a chain behind the first one |
| `InsertTrigger.OriginalIsFirst` | migrations/20230302093017_fix_on_event_insert_1.sql:19-35 | in every interleaving the first surviving version is strictly the first created, and all versions carry its time and creator |
| `InsertTrigger.OriginalIsForever` | migrations/20230302093017_fix_on_event_insert_1.sql:31-35 | a run only adds versions behind the original |
| `InsertTrigger.RunGivesOneOriginal` | migrations/20230302093017_fix_on_event_insert_1.sql:19-30 | so a labelled set of a room meets what the state queries assume of it |
| `InsertTrigger.SecondFollowsFirst` | migrations/20230302093017_fix_on_event_insert_1.sql:15-37 | there is a run in which two transactions that both have begun insert into one key: the second waits, takes the time and creator of the first and is created after it |
| `InsertTrigger.UnlockedRunMakesTwoOriginals` | migrations/20230302093017_fix_on_event_insert_1.sql:15-17 | without waiting for the lock there is a run of two inserts into an empty key that breaks the chain unless they agree |
| `SetState.ReadRefinesReplay` | src/db/event/set_state.rs:45-136 | the read returns, in strict order, exactly the label states of a replayed log that are not removed and carry the attribute |
| `SetState.RowsByColumns` | src/db/event/set_state.rs:45-136 | a version is read iff it is of the room and set, first occurred before the cursor, is not removed, has the attribute, and is the last of its label before the instant asked for |
| `SetState.PastIsRead` | src/db/event/set_state.rs:67-80 | a note that was changed, read as it was before the change |
| `SetState.RowsInOrder` | src/db/event/set_state.rs:79 | rows come by original time, latest first, then by label, a missing label last |
| `SetState.ReplayByColumns` | src/db/event/set_state.rs:116-125 | replaying a log of any content holds a label iff some version of it is in scope by its columns, and then one that none of these occurred after |
| `SetState.PickedByColumns` | src/db/event/set_state.rs:67-80 | DISTINCT ON picks exactly the versions of the room and set that first occurred before the cursor and are the last of their label before the instant asked for |
| `SetState.SortedByMembers` | src/db/event/set_state.rs:79 | order and members determine the rows, so that the statement above leaves no choice |
| `SetState.CountIsSize` | src/db/event/set_state.rs:147-204 | the count is the size of the unlimited read |
| `SetState.OtherSetsUnseen` | src/db/event/set_state.rs:73-78 | rows and count depend on the versions of the one set only |
| `SetState.CountAgreesIff` | src/db/event/set_state.rs:178-195 | on any table, without an attribute, the count is at most the rows, and equal iff no live version that leads its group of original time and label is followed by a removal of the label |
| `SetState.CountWithAttributeIff` | src/db/event/set_state.rs:147-170 | with an attribute, on any table: the count exceeds the rows by the leading versions with the attribute that another of the label is numbered before, less those that a removal of the label at the same time hides |
| `SetState.UnlabelledMiscount` | src/db/event/set_state.rs:178-195 | an input on which it is smaller |
| `SetState.UnlabelledOvercount` | src/db/event/set_state.rs:147-170 | an input on which it is larger |
| `StateEndpoint.Handle` | src/app/endpoint/state.rs:65-189 | the response holds a page for every set and, for a single set, whether there is more; and the three ways to fail, in the fields of the request |
| `StateEndpoint.PageByFields` | src/app/endpoint/state.rs:65-126 | a page holds the first rows before the given cursor or else the end of the room, at most the limit and at most a hundred |
| `StateEndpoint.ResponseByFields` | src/app/endpoint/state.rs:137-177 | the response shows it as a list, or as its first row alone if that has no label, and for a single set tells whether there is more |
| `StateEndpoint.NextPage` | src/app/endpoint/state.rs:143-153 | reading page by page is reading responses, each next request with the original time of the last event as its cursor |
| `StateEndpoint.CursorRestricts` | src/db/event/set_state.rs:121-122 | moving the cursor down leaves exactly the labels below it in the same state |
| `StateEndpoint.PageAdvances` | src/app/endpoint/state.rs:143-153 | every further page starts from fewer rows |
| `StateEndpoint.PagingComplete` | src/app/endpoint/state.rs:108-153 | reading all pages gives the whole state iff no page ends between labels with the same original time |
| `StateEndpoint.PagingMayLose` | src/app/endpoint/state.rs:108-153 | two labels of one original time, read one at a time: one is lost |
| `StateEndpoint.DistinctOriginalsPageCompletely` | src/app/endpoint/state.rs:108-153 | with distinct original times it always does |
| `Vacuum.EventTable.Vacuum` | src/db/event/mod.rs:787-842 | the three selections of identifiers and the deletion leave exactly the rows that no rule dooms, stated by the columns of the table |
| `Vacuum.SurvivorByColumns` | src/db/event/mod.rs:787-842 | a version outside preserved rooms stays iff few enough versions of its key are ahead of it, it is the newest or young enough, and its label was not deleted too long ago |
| `Vacuum.SelectExpired` | src/db/event/mod.rs:819-834 | the join selects all versions of the labels whose newest version has the attribute `deleted` and was created before the time for which deleted labels are kept |
| `Vacuum.VacuumKeepsState` | src/db/event/mod.rs:787-842 | a read of the present state is unchanged but for such labels |
| `Vacuum.HistoryIsBounded` | src/db/event/mod.rs:806-809 | no key outside preserved rooms keeps more versions than allowed |
| `Vacuum.RecentHistoryKept` | src/db/event/mod.rs:806-834 | with no more versions than allowed, a young version stays unless the newest version of its label is an old deletion |
| `Vacuum.OldHistoryGoes` | src/db/event/mod.rs:811-817 | a version created before the history that is kept survives only as the newest of its key |
| `Vacuum.VacuumTwice` | src/db/event/mod.rs:787-842 | a second run at the same instant deletes nothing |
| `NatsConsumer.Consumer.HandleMessage` | src/app/nats_consumer.rs:217-301 | the store and the result after one message, for every failure of the surroundings |
| `NatsConsumer.StoreAfterByFields` | src/app/nats_consumer.rs:217-301 | the row stored, by the fields of the message and of the room found for it, or none if anything failed or a row of the entity event is there |
| `NatsConsumer.Consumer.HandleInput` | src/app/nats_consumer.rs:113-190 | the whole state after one delivery, crash or stream error: rows stay unique, acknowledged messages are stored, failures are counted, and a pause follows exactly a lost connection |
| `NatsConsumer.Consumer.HandleStream` | src/app/nats_consumer.rs:94-192 | the same over any stream, with the pauses since the last success, which grow iff the last has not wrapped to 0 |
| `NatsConsumer.FailuresSince` | src/app/nats_consumer.rs:133-169 | the failures counted are the lost connections behind the last success |
| `NatsConsumer.StoredIffDelivered` | migrations/20230303165241_add_outbox_fields.sql:22-29 | an entity event is stored, once, iff a delivery of it reached an insert that was not rejected |
| `NatsConsumer.AckedIsStored` | src/app/nats_consumer.rs:122-142 | over any stream, every acknowledged message has its row |
| `NatsConsumer.RowOfFirstDelivery` | src/app/nats_consumer.rs:267-291 | its row has the fields of the first such message and lies in the room found for it, at the time since that room started |
| `NatsConsumer.PauseFallsIff` | src/app/nats_consumer.rs:194-204 | when the product of both bounds fits in 64 bits, the pause is the capped exponential or none, and none iff the wrapped product is 0 |
| `NatsConsumer.SleepsGrowIff` | src/app/nats_consumer.rs:164-169 | the pauses since the last success stay capped, and never shrink iff the last product does not wrap to 0 or the first one does |
| `NatsConsumer.SleepsNeverShrink` | src/app/nats_consumer.rs:164-169 | for any bounds, as long as the product with the power fits in 64 bits |
| `NatsConsumer.FourSecondsVanish` | src/app/nats_consumer.rs:194-204 | from four seconds up to a minute: after 61 failures a minute, after 62 nothing |
| `NatsConsumer.SuspendVanishes` | src/app/nats_consumer.rs:194-204 | from 64 failures on there is no pause |
| `RoomTime.PastIsFixed` | src/db/room_time.rs:47-74 | over any run after the start, the start and the past never change |
| `RoomTime.ClosedForever` | src/db/room_time.rs:58 | a room whose end has passed refuses everything, forever |
| `RoomTime.AlwaysSound` | src/db/room_time.rs:33-74 | over any run the end is never before the start |
| `RoomTime.AcceptedAsRequested` | src/db/room_time.rs:47-74 | exactly which updates are accepted, and that from now on the room is open as requested |
| `RoomTime.LastAcceptedDecides` | src/db/room_time.rs:47-74 | over any run the last accepted request decides when the room is open from its instant on |
| `RoomTime.EmptyIff` | src/db/room_time.rs:57-72 | over any run after the start, the room is left with no length iff the last well-formed request at the instant of its start closes it then |
| `RoomTime.UnstartedMayRewritePast` | src/db/room_time.rs:54-57 | the past of an unstarted room changes iff the new start is in the past |
| `PathCodec.DecodePath` | src/db/event/schema.rs:989-1059 | the loop yields the parts and their bounding box, or fails |
| `PathCodec.CompressPath` | src/db/event/schema.rs:1061-1106 | the loop yields the specified compact path, with its box narrowed, or fails |
| `PathCodec.DecompressPath` | src/db/event/schema.rs:1108-1147 | the loop yields the specified path |
| `PathCodec.CompressionFailsIff` | src/db/event/schema.rs:1061-1106 | compression fails exactly when decoding does |
| `PathCodec.CompressionRoundTrip` | src/db/event/schema.rs:1061-1147 | a path comes back with every part in place and every coordinate placed, by its stored fraction, in the narrowed box |
| `PathCodec.PlaceIsClose` | src/db/event/schema.rs:1065-1113 | a coordinate comes back within a ten-thousandth of the extent, plus what narrowing did to the bound and a share of what it did to the extent |
| `PathCodec.PlaceKeepsOrder` | src/db/event/schema.rs:1065-1113 | order is kept and the bounds go to the narrowed bounds |
| `PathCodec.TinyLineChanges` | src/db/event/schema.rs:1099-1105 | a line too short for 32 bits that changes when it is compressed again |
| `PathCodec.RecompressionStableIff` | src/db/event/schema.rs:1061-1147 | the same without the JSON form |
| `PathCodec.RecompressedJson` | src/db/event/schema.rs:1061-1147 | compressing what was decompressed and written out gives the same compact path iff narrowing made no point of an extent |

## Left out

- Transport, authorization, metrics, uploads, configuration and the broker client: plumbing around libraries.
- JSON, UUID and binary encodings; tables are sequences of records, and the state queries do not tell rows with equal contents apart.
- Bounds of 64-bit integers in times and lengths, and rounding of floating-point numbers: integers are unbounded, coordinates are reals; the wrap-around of the suspend interval is modelled, and the cast of the box of a path to 32 bits is any rounding that keeps order and does nothing twice.
- Segments that start before the recording or before the room; zero-length segments are allowed, but for the first one in the success conditions.
- The stream events made from breaks and video groups are part of the room that `AdjustRoom.Adjust` is given.
- Rows that tie in every key of an ORDER BY keep table order in the model, and versions numbered by time alone go by identifier in the vacuum; the database promises no order. For cut events `EveryReadingIff`, `AnyReadingGaps`, `EventTimes`, `ReportedSegments`, `ReportedOrdered` and `QueryFailsIff` cover every order.
- The original time and creator of cloned events, which the insert trigger assigns again.
- Soft deletion: nothing in the program sets `deleted_at`, so every row is live.
- The limit of 25 on listed cut changes and of 100000 on listed events: the lists are given.
- Vacuum interleaved with inserts: once the first version of a label is deleted, the next insert refers to a surviving one. Inserts with an explicit creation time.
- Labels are numbered in collation order instead of spelled out.
- The session setting that switches the insert trigger off, savepoints and failing statements inside a transaction other than as an abort.
- Redelivery itself: the broker is any sequence of deliveries, crashes and errors, and nothing is said about when a message is delivered again.
- The scalar fields of a whiteboard event, for which no round trip holds; boxes beyond the range of 32 bits, whose cast is infinite.
- PathCodec.RecompressedJson: the rounding of written coordinates to two decimals, which can move a coordinate to another ten-thousandth of a small box.
- NatsConsumer.SleepsGrowIff: bounds whose product does not fit in 64 bits.
- Isolation is read committed: every read of the trigger sees what was committed before it, not before its transaction, and the protocol depends on that.
- Builders, tags, locked types, whiteboard access and bans: easy.
