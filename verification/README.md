# Verified models of the applications of eagine-core

Dafny models of six stateful cores of the applications, and proofs of what they promise:

- the process manager: pipelines with parallel slots and `required_by` dependencies, run and stopped by
  repeated `manage` rounds (`Scheduling`, `SchedulingProofs`, `StoppingProofs`, `StartingProofs`, `LivelyRuns`,
  `KillingProofs`, `ProcessManager`), its log line framing (`Framing`) and its configuration merge (`ConfigMerge`);
- the log entry store of the XML log viewer with its index of open streams (`EntryStore`);
- the delivery path of the log server: the asynchronous double-buffered writer (`AsyncOutput`), the retry
  backlog (`Backlog`) and the two-stage post buffer (`PostBuffer`);
- signed file headers: UTF-8, JSON printing and parsing, incremental extraction and signed bytes (`Utf8`,
  `Json`, `JsonProofs`, `JsonGrammar`, `HeaderFile`, `Signing`, `AttributeProofs`);
- the text tree of the log server and its resampled tiling picture (`Strands`, `Tiling`);
- streaming statistics (`Aggregation`, `Estimation`).

`dafny verify dfyconfig.toml` checks everything.

## How the models are built

Where the source changes state in place, the model is a class whose methods are proved to compute a function
of the old state; the theorems are about that function, over whole runs.

The process manager sees a world given by functions of a tick. Each poll of an instance, each reading of the
clock and each reading of the interrupt flag has a tick of its own, so the world may change between any two of
them. The world is restricted only by this: an exit is permanent, the clock does not run backwards, an interrupt
is not taken back. `started` records the indices of instances created.

Floating point numbers are reals, fixed-width integers are unbounded, and `limit_cast` is the identity. The
parent of a backlog, the success of a post and the completion of a send are arbitrary, given by a function of
the attempt or by an event. A signature library and the sorted serialisation of the signed attributes are
parameters. JSON numbers are kept as their literal text. The streams of the text tree are kept sorted by id, as in a
sorted map.

## Where the code does not do what one might expect

- An empty header is written as `}` alone and is never read back (`HeaderFile.HeaderRoundTrip`).
- White space is skipped everywhere in a header but at its start: a file that begins with white space has no header
  (`HeaderFile.NoHeaderBehind`).
- A string with the two halves of a surrogate pair as separate characters is read back with the pair joined
  (`JsonProofs.StringRoundTrip`, `JsonProofs.StringReadBack`).
- When a chunk boundary cuts a character of a header that is not ASCII, the cut bytes are dropped
  (`HeaderFile.NothingDroppedIff`) and the header may be lost (`HeaderFile.CutCharacterLosesHeader`,
  `HeaderFile.FoundIffNotCut`). Headers written by the tool are ASCII.
- After a partial flush of the backlog the new item is still offered, so it may overtake older ones
  (`Backlog.InOrderIffNoOvertaking`, `Backlog.OvertakingHappens`).
- Attribute names are joined and split with dots, so `*` needs keys without dots (`Signing.StarNeedsDotFreeKeys`).
- A stream that begins with an id not above all open ones gets another column than the one its start was drawn
  in (`Strands.BeginEndsIffHighest`, `Strands.InColumnsIffBegunInOrder`).
- Pipelines that require each other in a circle, and all that depend on them, wait for ever
  (`LivelyRuns.CanStartIff`, `StartingProofs.BlockedWaitForEver`). A pipeline with more slots than instances, such
  as one with `"parallel": 2` and the default of one instance, is never active, so what depends on it starts only
  after it has left (`StartingProofs.TooManySlotsBlock`, `StartingProofs.FullIffEnoughInstances`).
- The maximum of an aggregate survives its reset (`Aggregation.ClearDescribes`).

## Model

| member | source | states |
|---|---|---|
| `SchedulingProofs.RunInv` | source/app/procman.py:1638-1662 | After any number of rounds in any world: each pipeline has exactly `parallel` slots, its started indices are 0, 1, ... up to its counter, the counter is at most `required`, no instance is in two slots, every started instance is in a slot or finished, and a pipeline has started something only if each pipeline still present that it depends on has started at least `parallel` instances |
| `SchedulingProofs.RoundKeepsInv` | source/app/procman.py:1776-1780 | One round of the composition, with instances finishing and the interrupt arriving at any poll, keeps that invariant |
| `SchedulingProofs.ManageKeepsInv` | source/app/procman.py:1651-1662 | So does managing one pipeline, on the running, terminating and killing path |
| `SchedulingProofs.SlotKeepsInv` | source/app/procman.py:1638-1648 | So does managing one slot: a finished instance is replaced by the next index or by nothing |
| `SchedulingProofs.StartKeepsOrder` | source/app/procman.py:1642-1646 | Starting an instance when all requirements are active keeps the dependency order |
| `SchedulingProofs.RequirementsVerdict` | source/app/procman.py:1724-1730 | The requirements count as active only if every slot of every requirement was polled active, and as inactive only if some slot of some requirement was empty or polled not active |
| `SchedulingProofs.SlotsVerdict` | source/app/procman.py:1600-1606 | The same for the slots of one pipeline |
| `SchedulingProofs.RequirementsAreFull` | source/app/procman.py:1724-1730 | Active requirements have no empty slot |
| `SchedulingProofs.ReadyIsActive` | source/app/procman.py:1724-1730 | Requirements that are full and active at every tick of the check are found active |
| `SchedulingProofs.FinishedSlots` | source/app/procman.py:1609-1613 | Slots that count as finished hold only finished instances |
| `SchedulingProofs.LeavesOnlyWhenDone` | source/app/procman.py:1651-1662 | A pipeline leaves either on the kill path or with a fixed number of instances, all of them started exactly once and all finished |
| `SchedulingProofs.RoundFillsSlots` | source/app/procman.py:1638-1654 | Managing a running pipeline whose requirements are full and active all the while (or which has none) takes every instance that had finished out of its slot and leaves a slot empty only when no more instances are needed |
| `SchedulingProofs.DoneLeaves` | source/app/procman.py:1609-1622 | A pipeline that has started all its instances, all finished, leaves when it is managed next, on every path |
| `StoppingProofs.NeverRunsAgain` | source/app/procman.py:1629-1635 | Once a pipeline should not be running, it should not be running after any later round |
| `StoppingProofs.StartsNothingAgain` | source/app/procman.py:1629-1662 | From the moment a pipeline should not be running, in the round that first finds this out and in all later ones, its counter, its started instances and its slots stay as they are |
| `StoppingProofs.SweepStartsNothing` | source/app/procman.py:1651-1662 | Within a round a pipeline that should not be running changes nothing but its termination time |
| `StoppingProofs.RunStopInv` | source/app/procman.py:1655-1661 | In every run, pipelines are distinct, and one that was told to stop has no reason to run any more |
| `StoppingProofs.StoppedForGood` | source/app/procman.py:1655-1661 | A pipeline told to stop keeps its counter, slots and termination time through every later round in which it is still present |
| `StoppingProofs.StayStopped` | source/app/procman.py:1651-1661 | After an interrupt, every pipeline left after any later round has been told to stop no later than the end of the first full round |
| `StoppingProofs.InterruptEmptiesComposition` | source/app/procman.py:1656-1661 | A round run more than 30 s after the end of the first full round after the interrupt leaves no pipeline |
| `StoppingProofs.LeavesRun` | source/app/procman.py:1776-1780 | In any run, a pipeline present before a round and absent after it was killed overdue, or ends the round with a fixed number of instances, all started exactly once and all finished |
| `KillingProofs.NotKilledEarly` | source/app/procman.py:1651-1662 | A pipeline not told to stop by round m, with an instance in a slot that is not finished by round n, is still there in round n with that instance in its slot, and was not told to stop before round m, if no more than 30 s lie between the rounds |
| `KillingProofs.UnfinishedTurn` | source/app/procman.py:1651-1662 | A pipeline with an unfinished instance keeps it through its turn, and is dropped exactly when it should not run and was told to stop more than 30 s before; so never in the turn in which it is told to stop |
| `KillingProofs.KilledLate` | source/app/procman.py:1656-1661 | A pipeline that should not run and was told to stop more than 30 s before a round begins is gone after it |
| `KillingProofs.StartsOnlyWhenActive` | source/app/procman.py:1638-1654 | A pipeline that starts an instance in its turn should run, and every slot of everything it requires was polled active in that turn |
| `LivelyRuns.CanStartIff` | source/app/procman.py:1625-1648 | There is a world in which a given pipeline starts an instance exactly when it has a fixed number of instances or some pipeline waits for it, and it is in no set of pipelines of which each member waits for a member; so circles of `required_by` and everything that depends on them never start, and everything else can |
| `StartingProofs.BlockedNeverStarts` | source/app/procman.py:1724-1730 | A pipeline in a set of which each member waits for a member starts nothing in any run |
| `StartingProofs.BlockedWaitForEver` | source/app/procman.py:1625-1635 | Without an interrupt each such pipeline that is present is idle and waits for a member that is present too, at the start of every round |
| `StartingProofs.WithoutReasonNeverStarts` | source/app/procman.py:1629-1635 | An endless pipeline that no pipeline waits for starts nothing in any run |
| `StartingProofs.TooManySlotsBlock` | source/app/procman.py:1600-1606 | A pipeline with more slots than instances is never full, and while it is present nothing that waits for it has started |
| `StartingProofs.FullIffEnoughInstances` | source/app/procman.py:1638-1654 | With requirements full and active, and no instance finished, a managed pipeline is full exactly when it is endless or has at least as many instances as slots |
| `StartingProofs.CounterFull` | source/app/procman.py:1600-1606 | As many unfinished instances as slots fill all slots |
| `LivelyRuns.UnblockedStarts` | source/app/procman.py:1638-1662 | Where endless instances stay active and the others finish at once, every pipeline that is not blocked and that something is there for gets started |
| `LivelyRuns.Settles` | source/app/procman.py:1638-1662 | Once all that a pipeline waits for has left or is full, it fills up itself, or starts all its instances and leaves, within finitely many rounds |
| `LivelyRuns.WaiterPresent` | source/app/procman.py:1609-1635 | Whoever waits for an endless pipeline is present until that is full |
| `ProcessManager.Settings.Config` | source/app/procman.py:1449-1461 | The asserted conditions make a valid configuration; a number is the number of slots, a flag gives a slot for each instance, or one for an endless pipeline |
| `ProcessManager.ConfiguredAsSet` | source/app/procman.py:1449-1461 | Who waits for whom is given by the identities and `required_by` lists of the settings; a pipeline is endless exactly for `"*"`; a setting that is not there means one instance, or one slot |
| `ProcessManager.Pipeline.constructor` | source/app/procman.py:1444-1463 | A new pipeline: all slots empty, nothing started, not terminating |
| `ProcessManager.Pipeline.IsActive` | source/app/procman.py:1600-1606 | Answers, and polls as often, as the specification does |
| `ProcessManager.Pipeline.AreInstancesFinished` | source/app/procman.py:1609-1613 | The loop that stops at the first unfinished instance agrees with the specification |
| `ProcessManager.Pipeline.IsFinished` | source/app/procman.py:1616-1622 | Finished means no unfinished instance and no need for another |
| `ProcessManager.Pipeline.ManageInstance` | source/app/procman.py:1638-1648 | Changes this pipeline only, exactly as the specification of one slot says |
| `ProcessManager.Pipeline.ManageInstances` | source/app/procman.py:1653-1654 | The list of slots is rebuilt one by one and replaced as a whole |
| `ProcessManager.Pipeline.Manage` | source/app/procman.py:1651-1662 | The whole new state and the verdict are those of the specification |
| `ProcessManager.Composition.constructor` | source/app/procman.py:1444-1463 | A composition is made of distinct new pipelines, in order of the configuration |
| `ProcessManager.Composition.AreRequirementsActive` | source/app/procman.py:1724-1730 | The loop over the pipelines agrees with the specification |
| `ProcessManager.Composition.IsRequiredByOthers` | source/app/procman.py:1733-1738 | Whether some pipeline in the composition is one that the given one is required by |
| `ProcessManager.Composition.Manage` | source/app/procman.py:1776-1780 | Sweeping over the mutable pipelines and keeping those that stay is the specified round; the result says whether any is left |
| `Framing.ReadBoundariesDoNotMatter` | source/app/procman.py:1956-1982 | For any sequence of reads, the lines handed on are the longest decodable prefix of the complete lines of all bytes received, and those lines with their newlines, followed by the buffer, are exactly the bytes received |
| `Framing.SameBytesSameOutcome` | source/app/procman.py:1956-1982 | Any two ways of cutting the same bytes into reads give the same lines and the same buffer |
| `Framing.HandedOn` | source/app/procman.py:1963-1978 | Lines handed on have no line feed and decode; the buffer has no line feed either, unless its first line does not decode |
| `Framing.ReceiveKeepsFraming` | source/app/procman.py:1963-1978 | One read, with or without a line that does not decode, keeps both statements |
| `Framing.JoinSplit` | source/app/procman.py:1965-1978 | Joining what splitting at newlines gives is the identity |
| `Framing.SplitAfterLines` | source/app/procman.py:1965-1965 | Splitting lines with newlines followed by other bytes gives those lines and the split of the rest |
| `Framing.XmlLogClientHandler.HandleRead` | source/app/procman.py:1956-1982 | Reads as specified; the texts handed on are the decoded lines; the end of the stream hands on what is left in the buffer |
| `Framing.XmlLogClientHandler.HandOn` | source/app/procman.py:1966-1974 | The loop hands on the lines before the first that does not decode, and no more |
| `Framing.SplitBytes` | source/app/procman.py:1965-1965 | Splitting byte by byte is splitting at newlines |
| `ConfigMerge.MergeConfigs` | source/app/procman.py:531-542 | The loop over the keys of the source computes the recursive merge, with its errors where a list or a dictionary meets another kind |
| `ConfigMerge.MergeAgreeing` | source/app/procman.py:531-542 | Where kinds agree the merge succeeds, and each key holds the combination of its two values, so no key is lost |
| `ConfigMerge.MergeAssociative` | source/app/procman.py:531-542 | Merging is associative where value kinds agree at each path |
| `ConfigMerge.MergedAt` | source/app/procman.py:531-542 | At every path, the merged value is the combination of the values there |
| `ConfigMerge.LoadedAt` | source/app/procman.py:888-890 | After loading any number of files, each path holds the combination of all values at that path, in load order |
| `ConfigMerge.ListsConcatenate` | source/app/procman.py:536-538 | Lists at a path concatenate in load order |
| `ConfigMerge.LastScalarWins` | source/app/procman.py:539-540 | A scalar is that of the last file that has the path |
| `ConfigMerge.MergeFailsIff` | source/app/procman.py:531-542 | A merge fails exactly when at some path a list meets something that is no list, or a dictionary that is not empty something that is no dictionary |
| `ConfigMerge.MergedAnyKind` | source/app/procman.py:531-542 | Where a merge works, whatever the kinds: a scalar replaces what was there, a list is put behind the list that was there, and paths of which the source says nothing keep their value |
| `ConfigMerge.GroupingDoesNotMatter` | source/app/procman.py:888-890 | Loading two groups of files and merging the results is loading all files one by one |
| `EntryStore.SearchAgreesWithReplay` | source/app/xml_logs/src/EntryStorage.cpp:142-162 | In every run, the list of streams found for the number of entry i is the one got by replaying all events up to entry i |
| `EntryStore.RunInv` | source/app/xml_logs/src/EntryStorage.cpp:58-95 | Every run of begin, add and end keeps: full chunks but the last, entries equal to the numbered events, increasing list numbers, the last list equal to the open streams, and the index agreeing with replay for every entry |
| `EntryStore.StepKeepsInv` | source/app/xml_logs/src/EntryStorage.cpp:58-95 | Each single event keeps that invariant |
| `EntryStore.OpenStreamHasSlot` | source/app/xml_logs/src/EntryStorage.cpp:142-162 | For each entry of an open stream, its first and last included, the count is that of the open streams and the index the first position of the stream |
| `EntryStore.OpenHolds` | source/app/xml_logs/src/EntryStorage.cpp:58-95 | If no stream begins again before it has ended, exactly those that have begun and not ended since are open, each once |
| `EntryStore.OpenInOrder` | source/app/xml_logs/src/EntryStorage.cpp:58-95 | Of two open streams the one that began earlier stands in front |
| `EntryStore.StoredEntries` | source/app/xml_logs/src/EntryStorage.cpp:58-95 | The entry of a begin is marked first, that of an end last, an added one is kept but for its number; numbers increase |
| `EntryStore.FlatIndex` | source/app/xml_logs/src/EntryStorage.cpp:129-140 | Entry i of the flat list is at place i mod 1024 of chunk i div 1024, and the computed count is the length of the flat list |
| `EntryStore.EmplaceChunked` | source/app/xml_logs/src/EntryStorage.cpp:20-35 | Appending keeps all chunks but the last at exactly 1024 entries and none above it |
| `EntryStore.EmplaceAppends` | source/app/xml_logs/src/EntryStorage.cpp:20-35 | Appending to the chunks appends to the flat list |
| `EntryStore.EmplaceKeepsPlaces` | source/app/xml_logs/src/EntryStorage.cpp:20-35 | An entry once stored keeps its chunk and its place |
| `EntryStore.LogEntryStorage.constructor` | source/app/xml_logs/include/EntryStorage.hpp:109-115 | An empty store satisfies the invariant |
| `EntryStore.LogEntryStorage.EmplaceNextEntry` | source/app/xml_logs/src/EntryStorage.cpp:20-35 | Stores in the last chunk, or in a new one when it is full |
| `EntryStore.LogEntryStorage.BeginStream` | source/app/xml_logs/src/EntryStorage.cpp:58-76 | The list with the new stream and its first entry share a number; the invariant is kept |
| `EntryStore.LogEntryStorage.AddEntry` | source/app/xml_logs/include/EntryStorage.hpp:98-101 | The next number, stored last; the invariant is kept |
| `EntryStore.LogEntryStorage.EndStream` | source/app/xml_logs/src/EntryStorage.cpp:78-95 | The last entry is numbered before the list without the stream; the invariant is kept |
| `EntryStore.LogEntryStorage.EntryCount` | source/app/xml_logs/src/EntryStorage.cpp:121-127 | The count computed from chunk sizes is the number of events ever stored |
| `EntryStore.LogEntryStorage.GetEntry` | source/app/xml_logs/src/EntryStorage.cpp:129-140 | Entry i is the i-th ever stored; nothing for an index that is negative or beyond the last chunk |
| `EntryStore.LogEntryStorage.GetEntryConnectors` | source/app/xml_logs/src/EntryStorage.cpp:142-162 | For every stored entry, the count is the number of streams open at it by replay, and the index the first position of its stream among them, or the count if it is not open |
| `EntryStore.SearchBack` | source/app/xml_logs/src/EntryStorage.cpp:145-152 | Binary search from the back finds the last list whose number is not above the given one |
| `EntryStore.Find` | source/app/xml_logs/src/EntryStorage.cpp:157-159 | The first position of a stream, or the length when it is missing |
| `EntryStore.Erase` | source/app/xml_logs/src/EntryStorage.cpp:90-94 | Removes the first occurrence of a stream and nothing else |
| `EntryStore.AnnouncedOnce` | source/app/xml_logs/src/EntryLog.cpp:78-83 | Every row below the committed count lies in exactly one announced range |
| `EntryStore.EntryLog.constructor` | source/app/xml_logs/src/EntryLog.cpp:36-42 | All entries of the assigned storage are announced and committed |
| `EntryStore.EntryLog.CommitEntries` | source/app/xml_logs/src/EntryLog.cpp:78-83 | Announces the rows from the last commit on, so that announced ranges stay adjacent |
| `EntryStore.EntryLog.AddEntry` | source/app/xml_logs/src/EntryLog.cpp:69-76 | Stores, without committing |
| `EntryStore.EntryLog.EndStream` | source/app/xml_logs/src/EntryLog.cpp:61-67 | Stores the last entry of the stream and commits |
| `EntryStore.EntryLog.GetEntryData` | source/app/xml_logs/src/EntryLog.cpp:117-124 | Every row below the committed count is a real entry; any row is an entry exactly when it is below the entry count, and then the one stored by that event |
| `AsyncOutput.EveryRun` | source/app/log_server/asio_output_impl.cpp:64-92 | For every interleaving of writes, completions and a failure: received, in flight and waiting bytes make up all bytes written, in order; at most one send is outstanding; what was received is a prefix of what was written |
| `AsyncOutput.StepKeepsInv` | source/app/log_server/asio_output_impl.cpp:64-92 | Each write, completion and failure keeps that invariant |
| `AsyncOutput.SentBufferUntouched` | source/app/log_server/asio_output_impl.cpp:65-69 | A write during a send leaves the buffer being sent as it is and starts no second send |
| `AsyncOutput.DrainsInTwo` | source/app/log_server/asio_output_impl.cpp:72-91 | Without new writes, at most two completions deliver everything and end the sending |
| `AsyncOutput.FailureIsFinal` | source/app/log_server/asio_output_impl.cpp:85-87 | After a failure no write ever sends anything again |
| `AsyncOutput.DisconnectedIffFailed` | source/app/log_server/asio_output_impl.cpp:59-88 | In every run the stream counts as disconnected exactly when one of its sends has failed, and as long as it is connected nothing written is lost |
| `AsyncOutput.AsioOutputStream.constructor` | source/app/log_server/asio_output_impl.cpp:45-51 | Two empty buffers, nothing sent |
| `AsyncOutput.AsioOutputStream.WriteData` | source/app/log_server/asio_output_impl.cpp:64-70 | A step of the protocol, keeping its invariant |
| `AsyncOutput.AsioOutputStream.SendNext` | source/app/log_server/asio_output_impl.cpp:72-92 | Swaps the buffers, clears the next one, and sends unless there is nothing to send |
| `AsyncOutput.AsioOutputStream.OnSent` | source/app/log_server/asio_output_impl.cpp:81-88 | The completion handler is the step for completion or failure |
| `Backlog.ItemsConserved` | source/app/log_server/libpq_sink_impl.cpp:303-327 | For any behaviour of the parent, accepted plus backlog is a permutation of all dispatched items, each accepted at most once, with the backlog in dispatch order |
| `Backlog.NothingLostOrDoubled` | source/app/log_server/influxdb_sink_impl.cpp:245-269 | The same, told apart by dispatch positions, so that equal items count separately |
| `Backlog.InOrderIffNoOvertaking` | source/app/log_server/libpq_sink_impl.cpp:320-327 | Accepted followed by backlog is the dispatched sequence exactly when no dispatch had its new item accepted while older ones stayed behind |
| `Backlog.OvertakingHappens` | source/app/log_server/libpq_sink_impl.cpp:320-327 | A parent that refuses twice and then accepts takes the second item before the first |
| `Backlog.OvertakenForGood` | source/app/log_server/libpq_sink_impl.cpp:320-327 | An item that overtook an older one stays in front of it for the rest of every run |
| `Backlog.FlushConserves` | source/app/log_server/libpq_sink_impl.cpp:303-318 | A flush moves a front part of the backlog to the end of the accepted items |
| `Backlog.OffersCount` | source/app/log_server/libpq_sink_impl.cpp:303-327 | The parent has accepted as many items as offers it answered yes, and a backlog means that it refused one |
| `Backlog.AcceptingParentDrains` | source/app/log_server/libpq_sink_impl.cpp:303-327 | When the parent accepts from now on, the next dispatch delivers the whole backlog in order and then the new item |
| `Backlog.StreamSink.FlushBacklog` | source/app/log_server/libpq_sink_impl.cpp:303-318 | The iterator loop with its erase is the specified flush |
| `Backlog.StreamSink.DispatchItem` | source/app/log_server/libpq_sink_impl.cpp:320-327 | Flush, then offer the new item, then keep it if refused |
| `PostBuffer.LinesConserved` | source/app/log_server/influxdb_sink_impl.cpp:453-478 | For any pattern of failing posts, posted lines, post buffer and batch in this order are all lines ever appended |
| `PostBuffer.PostsAreWholeMessages` | source/app/log_server/influxdb_sink_impl.cpp:453-478 | Each post, the post buffer and the batch hold the lines of whole consecutive messages |
| `PostBuffer.PostsCount` | source/app/log_server/influxdb_sink_impl.cpp:453-467 | There is one post for each successful attempt, none is empty, and lines wait in the batch only after a failed attempt |
| `PostBuffer.PostedOneBehind` | source/app/log_server/influxdb_sink_impl.cpp:453-478 | As long as posts get through, each message with lines is posted, alone, when the next one comes |
| `PostBuffer.LineOfArgument` | source/app/log_server/influxdb_sink_impl.cpp:414-451 | Each argument with a value gives one line, in the order of the arguments |
| `PostBuffer.SinkFactory.WriteArgData` | source/app/log_server/influxdb_sink_impl.cpp:453-467 | Posts what is buffered and moves the batch up only on success |
| `PostBuffer.SinkFactory.ConsumeMessage` | source/app/log_server/influxdb_sink_impl.cpp:469-478 | Appends the lines of all arguments that have a value and then tries to post once |
| `HeaderFile.HeaderRoundTrip` | source/app/fmd-get.py:406-436 | A written header followed by any bytes, valid UTF-8 or not, is found again with the data complete, exactly when the header is not empty |
| `HeaderFile.ScanFindsObject` | source/app/fmd-get.py:406-436 | For any text without surrogates that is one whole JSON object, whoever wrote it: if no chunk ends within a character of it, it is found, and the data behind it is complete |
| `HeaderFile.FoundIffNotCut` | source/app/fmd-get.py:406-436 | In a file of at most two chunks such a header is found, with its data, exactly when the first chunk does not end within a character of it |
| `HeaderFile.CutCharacterStops` | source/app/fmd-get.py:414-435 | When it does, all that is handed out is the second chunk |
| `HeaderFile.CutCharacterLosesHeader` | source/app/fmd-get.py:410-428 | A header of 1030 bytes with a character at bytes 1024 and 1025 is a whole object, and is not found |
| `HeaderFile.CutCharacterMayNotMatter` | source/app/fmd-get.py:410-428 | A longer header with a character at bytes 1024 and 1025 is found all the same, as only a value that a later equal key replaces is damaged; so a cut does not always lose the header |
| `HeaderFile.CutHeader` | source/app/fmd-get.py:415-428 | No proper part of a header that ends at a chunk boundary parses, whether or not it cuts a character |
| `HeaderFile.WholeHeader` | source/app/fmd-get.py:415-426 | A whole header with any bytes after it parses, and what is left over gives back those bytes |
| `HeaderFile.SpelledHeaderFound` | source/app/fmd-get.py:406-436 | A header spelled in any way that JSON allows, with spaces and line breaks wherever they may stand, is found as what it means, and the data behind it is complete, if no chunk of 1024 bytes ends within a character |
| `HeaderFile.AsciiHeaderFound` | source/app/fmd-get.py:406-436 | The same for any such header in ASCII, wherever the chunks end |
| `HeaderFile.SpacedExample` | source/app/fmd-get.py:422-425 | `{"a": 1}` with a space behind the colon, byte by byte, is found in front of any data |
| `HeaderFile.NoHeaderBehind` | source/app/fmd-get.py:406-436 | In a file that starts with white space or a closing brace no header is ever found |
| `HeaderFile.FormatHeader` | source/app/fmd-modify.py:391-405 | The loop over the members writes the printed header, line by line |
| `HeaderFile.HeaderIsLines` | source/app/fmd-modify.py:391-405 | A header is one line for each member and a closing brace |
| `HeaderFile.LineShape` | source/app/fmd-modify.py:394-404 | Each line opens with a brace or a comma, ends with a line feed, has no other control character, and is as long as key and value without any white space |
| `HeaderFile.HeaderAscii` | source/app/fmd-modify.py:391-405 | A printed header is ASCII |
| `HeaderFile.ExtractHeaderAndData` | source/app/fmd-get.py:406-436 | The extractor hands out the header found and chunks that concatenate to the data; without a header, what the last try could not decode; for an empty file, neither |
| `HeaderFile.ReadChunks` | source/app/fmd-get.py:429-434 | The chunks are the bytes left over by the header search and then the rest of the file, in pieces of 4096 bytes but for the last |
| `HeaderFile.NothingDroppedIff` | source/app/fmd-get.py:414-421 | While no header is found, everything read is kept exactly when every chunk so far ended at a decodable place |
| `HeaderFile.ScanGathers` | source/app/fmd-get.py:410-428 | What the extractor has gathered after k chunks without a header |
| `JsonProofs.ValueRoundTrip` | source/app/fmd-modify.py:401-403 | Printed JSON parses back to the value it was printed from, with the rest of the text left over |
| `JsonProofs.ObjectRoundTrip` | source/app/fmd-modify.py:394-405 | The same for an object printed with a newline after each member |
| `JsonProofs.StringRoundTrip` | source/app/fmd-modify.py:401-403 | A string comes back exactly when no high surrogate stands directly before a low one |
| `JsonProofs.StringReadBack` | source/app/fmd-modify.py:401-403 | Every string comes back with its split surrogate pairs joined |
| `JsonProofs.CutObjectFails` | source/app/fmd-get.py:422-428 | No proper prefix of an object that parses to the end of the text parses |
| `JsonProofs.ValueMore` | source/app/fmd-get.py:422-424 | Text after a complete value does not change how the value is parsed |
| `JsonGrammar.AcceptsExactly` | source/app/fmd-get.py:422-424 | The decoder reads a value from the start of a text and leaves a rest exactly when what is before the rest is one of the spellings of that value: any white space where it may stand, any spelling of numbers, any escapes, equal keys, and the six keywords; of numbers it takes the longest |
| `JsonGrammar.SpelledIsRead` | source/app/fmd-get.py:422-424 | Every spelling of a value is read as that value, with the rest left over |
| `JsonGrammar.ValueSpelled` | source/app/fmd-get.py:422-424 | Everything that is read is such a spelling |
| `JsonGrammar.PiecesRead` | source/app/fmd-get.py:422-424 | Every spelling of a string, by characters, letters of escapes and hexadecimal digits in either case, is read as what it spells, with halves of surrogate pairs joined |
| `JsonGrammar.DictionaryMeaning` | source/app/fmd-get.py:422-424 | An object has each key once, where it first occurs, with the value that occurs last |
| `JsonGrammar.NothingBefore` | source/app/fmd-get.py:422-424 | Text that starts with white space or a closing brace is no value |
| `JsonGrammar.EscapeMeaning` | source/app/fmd-modify.py:401-403 | How each character is written: as it is from space to tilde but for quote and backslash, by letter where there is one, else by four digits or small letters, twice for characters beyond the basic plane |
| `JsonGrammar.PrintSize` | source/app/fmd-modify.py:401-403 | Values are written without white space |
| `Utf8.DecodeEncode` | source/app/fmd-get.py:415-424 | Encoding what was decoded gives back the decodable prefix |
| `Utf8.EncodeDecode` | source/app/fmd-modify.py:392-393 | Decoding what was encoded gives back the text, for text without surrogates |
| `Utf8.EncodeMeaning` | source/app/fmd-modify.py:392-393 | How the bits of each character are spread over one to four bytes (section 3 of RFC 3629) |
| `Utf8.LongestPrefix` | source/app/fmd-get.py:415-421 | No longer part of the bytes than the decoded one can be decoded |
| `Utf8.DecodedPrefix` | source/app/fmd-get.py:415-421 | What decodes of the first bytes of an encoded text is a first part of that text, and a proper one if the bytes are |
| `Utf8.CutWithinCharacter` | source/app/fmd-get.py:418-421 | Where a cut leaves undecodable bytes, the rest starts with a continuation byte |
| `Signing.SignedFileVerifies` | source/app/fmd-get.py:164-188 | Write the signed header and the data to a file, read it back: the bytes that the verifier checks are those that the signer signed |
| `Signing.VerifierSeesSignedBytes` | source/app/fmd-get.py:179-184 | The same for the header in memory, for explicit paths outside `signed` and for `*`, although the header has gained its signature record |
| `Signing.EarlierSignatureUnaffected` | source/app/fmd-modify.py:407-421 | A further signature does not change the bytes that an earlier one is verified against |
| `Signing.StarNeedsDotFreeKeys` | source/app/fmd-get.py:25-34 | Under `*` the verifier rebuilds the signed attributes exactly when no header key has a dot |
| `Signing.StarAttributes` | source/app/fmd-modify.py:36-41 | Copying all top-level keys but `signed` one by one gives the header without `signed` |
| `Signing.SameAttributes` | source/app/fmd-get.py:27-34 | Paths outside `signed` collect the same attributes from headers that differ only in `signed` |
| `Signing.SignatureFrame` | source/app/fmd-modify.py:418-421 | Adding a signature changes only `signed`, where the record is put behind those that are there |
| `Signing.RecordFields` | source/app/fmd-modify.py:419-420 | A record has the date, the attribute names, and what else the crypto library gave |
| `AttributeProofs.CollectedExactly` | source/app/fmd-get.py:25-34 | Collecting works exactly when every listed path is there in the header; then each listed path leads to what it leads to in the header, whatever other paths are listed, and whatever is in the result is on the way to a listed path or beyond one |
| `AttributeProofs.CopyAt` | source/app/fmd-get.py:28-34 | What stands at any path once one path has been copied: from the header beyond it, a dictionary on the way to it, and what was there before elsewhere |
| `AttributeProofs.CopyKeeps` | source/app/fmd-get.py:28-34 | A path that leads to the right value still does when another is copied, even if one goes on from the other |
| `AttributeProofs.SignedAttributes` | source/app/fmd-modify.py:36-54 | With `*` every member but `signed` is signed as it is; otherwise exactly the listed paths are, each with its value in the header |
| `AttributeProofs.PayloadParts` | source/app/fmd-modify.py:407-421 | The signed bytes are the data, the attributes as they are written out, and the date, in this order and with nothing left out |
| `AttributeProofs.ChangeShows` | source/app/fmd-modify.py:407-421 | A change of the data, of the attributes as written out, or of the date changes the signed bytes |
| `Signing.NameRoundTrip` | source/app/fmd-modify.py:420-420 | A path comes back from its dotted name exactly when its keys have no dot |
| `Signing.CollectAttributes` | source/app/fmd-modify.py:43-49 | The loop over the paths fills the dictionary path by path, and fails at the first path that does not exist |
| `Strands.StrandsStayConnected` | source/app/log_server/text_tree_sink_impl.cpp:418-704 | For every run of begin, message and finish in which ids begin in increasing order: in every row each strand enters and leaves in columns that hold a fitting glyph, each strand leaves a row in the column in which it enters the next one, and the strands of the last row are those of the open streams, in order, and leave it in the columns of their bars |
| `Strands.OpenStreamIsLined` | source/app/log_server/text_tree_sink_impl.cpp:418-704 | In such a run a stream that has been open since some event has exactly one strand in every row drawn since |
| `Strands.InColumnsIffBegunInOrder` | source/app/log_server/text_tree_sink_impl.cpp:418-426 | After every event the last row has ended in the columns of the open streams exactly in the runs in which ids begin in increasing order |
| `Strands.BeginEndsIffHighest` | source/app/log_server/text_tree_sink_impl.cpp:418-426 | The rows of a beginning stream end in the columns of the streams then open exactly when its id is above all that were |
| `Strands.EventLined` | source/app/log_server/text_tree_sink_impl.cpp:418-704 | A stream that is open before and after an event has exactly one strand in each of its rows |
| `Strands.EventWellDrawn` | source/app/log_server/text_tree_sink_impl.cpp:680-704 | The rows of one event join each other, begin at the bars before the event and end with the strands of the streams open after it, in the columns of their bars |
| `Strands.MessageDrawn` | source/app/log_server/text_tree_sink_impl.cpp:377-397 | A message is drawn with bars before (unless condensed) and after it, and between them, glyph by glyph: bars up to the stream, its branch, an unbroken line over all later strands, and a closing glyph that is a corner exactly in condensed form |
| `Strands.FinishDrawn` | source/app/log_server/text_tree_sink_impl.cpp:680-704 | A finish is drawn with bars, a row with a foot at the stream and an unbroken line from it, and two rows in which exactly the later strands turn left |
| `Strands.BeginDrawn` | source/app/log_server/text_tree_sink_impl.cpp:418-426 | A begin is drawn with bars, one line from the margin over all strands to the message with the new strand hanging from it, and bars with the new one |
| `Strands.ErasedHolds` | source/app/log_server/text_tree_sink_impl.cpp:703-703 | A finished stream is gone and no other |
| `Strands.InsertedHolds` | source/app/log_server/text_tree_sink_impl.cpp:425-425 | A begun stream is there and all others still are |
| `Strands.JointInColumn` | source/app/log_server/text_tree_sink_impl.cpp:315-397 | In rows I, L and Z the joint of a stream is in the column of its vertical bar |
| `Strands.TurningRows` | source/app/log_server/text_tree_sink_impl.cpp:343-375 | In the two rows drawn when a stream finishes, each later strand has its two corners side by side, one step further left in the second row |
| `Strands.TurnsJoined` | source/app/log_server/text_tree_sink_impl.cpp:680-704 | Each corner lies under the one above it, and the second row ends in the columns of the bars after the erase |
| `Strands.TeeRows` | source/app/log_server/text_tree_sink_impl.cpp:418-426 | The rows of a beginning stream hold a bar or a line for each open strand and start the new one in the column after the last |
| `Strands.WriteBars` | source/app/log_server/text_tree_sink_impl.cpp:315-323 | The loop of row I writes a bar in the column of each stream |
| `Strands.WriteTee` | source/app/log_server/text_tree_sink_impl.cpp:399-408 | The loop of row T |
| `Strands.WriteCells` | source/app/log_server/text_tree_sink_impl.cpp:325-397 | The loop with the connection flag that rows L, S, s and Z share |
| `Strands.TextTreeFactory.ConsumeBegin` | source/app/log_server/text_tree_sink_impl.cpp:418-426 | Draws the rows of the event and inserts the stream in key order |
| `Strands.TextTreeFactory.ConsumeMessage` | source/app/log_server/text_tree_sink_impl.cpp:489-516 | Draws the rows of the event, one fewer in condensed form |
| `Strands.TextTreeFactory.ConsumeFinish` | source/app/log_server/text_tree_sink_impl.cpp:680-704 | Draws the rows of the event and erases the stream |
| `Strands.FindPosition` | source/app/log_server/text_tree_sink_impl.cpp:425-425 | The place at which a sorted map inserts the key |
| `Tiling.CoefficientMeaning` | source/app/log_server/utilities_impl.cpp:385-421 | All sampled bits are in bounds, the coefficient lies between 0 and 1, and is 1 exactly when all sampled cells are marked |
| `Tiling.FilledIffWindowMarked` | source/app/log_server/utilities_impl.cpp:385-421 | The coefficient is 1 exactly when all cells in the window of the pixel, given by integer division, are marked |
| `Tiling.FilledIffAllMarked` | source/app/log_server/utilities_impl.cpp:385-421 | At any resolution all coefficients are 1 exactly when all cells are marked, so every cell is seen by some pixel |
| `Tiling.MarkingNeverLowers` | source/app/log_server/utilities_impl.cpp:373-383 | Marking a cell with the same dimensions never lowers a coefficient |
| `Tiling.SamplesInRange` | source/app/log_server/utilities_impl.cpp:393-405 | Every sampled index exists and every weight is above 0 and at most 1 |
| `Tiling.SampledIffInWindow` | source/app/log_server/utilities_impl.cpp:393-405 | Along an axis exactly the cells in the window are sampled |
| `Tiling.SamplesOneByOne` | source/app/log_server/utilities_impl.cpp:393-405 | The cells sampled along an axis are, one by one, those from the cell of the lower edge to that of the upper one, with weight 1 but for these two |
| `Tiling.AboveMeaning` | source/app/log_server/utilities_impl.cpp:396-403 | The weight of such a cell is what is left of it above the edge, in whole numbers |
| `Tiling.WindowEdges` | source/app/log_server/utilities_impl.cpp:394-398 | The cells of the edges are given by integer division |
| `Tiling.NinthExample` | source/app/log_server/utilities_impl.cpp:385-421 | The middle one of three by three pixels, of two by two cells of which the first is marked, has the coefficient one ninth |
| `Tiling.GlyphMeaning` | source/app/log_server/utilities_impl.cpp:423-439 | The shade is as dark as there are thresholds reached, of 0.05, 0.35, 0.65 and 0.95 |
| `Tiling.MarkingNeverLightens` | source/app/log_server/utilities_impl.cpp:373-439 | Marking a cell with the same dimensions never makes a pixel lighter |
| `Tiling.ReportMarks` | source/app/log_server/text_tree_sink_impl.cpp:577-588 | After any reports with the same dimensions, a cell is marked exactly when some reported tile covers it or it was marked before |
| `Tiling.AllReportedIsFull` | source/app/log_server/utilities_impl.cpp:423-439 | Once every tile is reported, every glyph of the picture is the full block, at any resolution |
| `Tiling.MarkedAfter` | source/app/log_server/utilities_impl.cpp:373-383 | Marking marks one cell and no other, and changed dimensions clear all others |
| `Tiling.ForEachSample` | source/app/log_server/utilities_impl.cpp:393-405 | The sampling loop |
| `Tiling.TilingState.MarkCellDone` | source/app/log_server/utilities_impl.cpp:373-383 | In place, as specified |
| `Tiling.TilingState.MarkSolved` | source/app/log_server/text_tree_sink_impl.cpp:583-587 | The nested loops mark the cells of one tile, cut at the border of the board |
| `Tiling.TilingState.PixelCoef` | source/app/log_server/utilities_impl.cpp:385-421 | The accumulated quotient is the weighted mean over the sampled grid |
| `Tiling.TilingState.PixelGlyph` | source/app/log_server/utilities_impl.cpp:423-439 | The glyph belongs to the coefficient of the pixel |
| `Aggregation.AggregatesDescribe` | source/app/log_server/implementation_impl.cpp:120-201 | In every run, each aggregate has the count, minimum and sum of the durations since its last reset and a maximum that is the largest of all durations since it was created, or 0 |
| `Aggregation.ReportDescribes` | source/app/log_server/libpq_sink_impl.cpp:353-358 | The same of each report at the time it is dispatched, with the interval that triggered it |
| `Aggregation.AverageBetween` | source/app/log_server/implementation_impl.cpp:147-173 | Minimum, truncated average and maximum are in order whenever the window is not empty |
| `Aggregation.AverageMeaning` | source/app/log_server/implementation_impl.cpp:167-173 | Average times count falls short of the sum by less than the count, on the side of zero |
| `Aggregation.ExtremesMeaning` | source/app/log_server/implementation_impl.cpp:151-173 | Of an empty window zeroes are reported, of any other its minimum and the maximum of the whole history |
| `Aggregation.WindowSince` | source/app/log_server/libpq_sink_impl.cpp:353-358 | The window of a key is its history since the last interval that was reported with |
| `Aggregation.WindowFromStart` | source/app/log_server/libpq_sink_impl.cpp:353-358 | Before the first report it is all of the history |
| `Aggregation.HitsConserved` | source/app/log_server/libpq_sink_impl.cpp:353-358 | For each key, reported hits and pending count add up to the intervals received |
| `Aggregation.UpdateDescribes` | source/app/log_server/implementation_impl.cpp:120-130 | One more duration extends window and history |
| `Aggregation.ClearDescribes` | source/app/log_server/implementation_impl.cpp:136-140 | A reset empties the window and keeps the maximum |
| `Aggregation.AggregateIntervals.Update` | source/app/log_server/implementation_impl.cpp:180-195 | Only the aggregate of the key changes; it is handed out when its period is over |
| `Aggregation.AggregateIntervals.ConsumeInterval` | source/app/log_server/libpq_sink_impl.cpp:353-358 | The report is what was aggregated before the reset |
| `Estimation.RestartForgets` | source/app/xml_logs/src/ActivityStorage.cpp:32-39 | After a restart the activity is the same whatever came before it |
| `Estimation.SampleMeaning` | source/app/xml_logs/src/ActivityStorage.cpp:46-47 | A sample times the part done is the time taken times the part still to be done |
| `Estimation.UpdateMeaning` | source/app/xml_logs/src/ActivityStorage.cpp:28-51 | Progress that goes back starts anew, and a sample is added exactly if there is some progress in a proper range more than five seconds after the start |
| `Estimation.EstimateMeaning` | source/app/xml_logs/src/ActivityStorage.cpp:71-85 | The estimate times the number of samples taken into account, at most eight and the last, is their sum; there is none from up to four samples |
| `Estimation.RingPush` | source/app/xml_logs/src/ActivityStorage.cpp:46-47 | Writing at the position modulo 8 keeps the last eight samples in the ring |
| `Estimation.RingSum` | source/app/xml_logs/src/ActivityStorage.cpp:78-82 | The sum over the filled part of the ring is the sum of the last min(8, n) samples, in whatever place the ring begins |
| `Estimation.ActivityData.constructor` | source/app/xml_logs/src/ActivityStorage.cpp:14-26 | A new activity has no samples |
| `Estimation.ActivityData.UpdateWith` | source/app/xml_logs/src/ActivityStorage.cpp:28-51 | Keeps the ring tied to the samples since the last restart, without clearing the array |
| `Estimation.ActivityData.EstimatedRemainingTime` | source/app/xml_logs/src/ActivityStorage.cpp:71-85 | With more than four samples since the last restart the mean of the last min(8, n) of them, else 0 |

## Left out

- EntryStore.LogEntryStorage.GetEntry: not stated for an index between the entry count and the end of the last chunk, where the code reads past the entries of the chunk.
- StoppingProofs.InterruptEmptiesComposition: the first full round is one that begins after the interrupt; the time before it begins is up to the main loop.
- Tiling.AllReportedIsFull: with real arithmetic; rounding of `float` is not modelled.
- Tiling.TilingState.MarkCellDone: only for cells inside the given dimensions, as its callers ensure.
- ConfigMerge.MergeConfigs: on values; that the destination is updated in place, and shares lists and dictionaries with the source, is not captured.
- HeaderFile.FoundIffNotCut: for longer files only `HeaderFile.ScanFindsObject`, one direction; the other is false of them, as `HeaderFile.CutCharacterMayNotMatter` shows: behind a cut, bytes of later chunks may complete the same object after all.
- Strands.TextTreeFactory.ConsumeMessage: the rows of the message text and its arguments are left out; each of them starts like row I.
- PostBuffer.SinkFactory.ConsumeMessage: special arguments and stream metadata are left out; a line is any text.
- EntryStore.LogEntryStorage.BeginStream: the map of stream descriptions is left out; no entry or index depends on it.
- EntryStore.EntryLog.AddEntry: forwarding of progress entries to the activity storage is left out.
- EntryStore.EntryLog.EndStream: ending the stream in the activity storage is left out.
- EntryStore.EntryLog.GetEntryData: as for `EntryStore.LogEntryStorage.GetEntry`.
- Signing.CollectAttributes: on values; empty dictionaries that a failing lookup leaves behind in the header are not captured.
- Framing.XmlLogClientHandler.HandleRead: an exception raised by the line processor, and a socket error, are not modelled.
- HeaderFile.ExtractHeaderAndData: for an empty file the source uses an unassigned variable; the model has a case of its own for it. Recursion and integer-length limits of the JSON decoder are not modelled.
- Estimation.ActivityData.UpdateWith: message text, severity and update time are not modelled.
- Sending terminate and kill signals, starting processes and reading their exit codes: parts of the world.
- The rest of `procman.py` (string expansion, progress tracking, log parsing, exit counting): no bearing on the scheduling state.
- The rest of `ActivityStorage`: which activities there are (lookup by key, clean-up of finished ones) has no bearing on the estimate of one activity.
- Formatting of times, headings and boxes in the text tree: only the strands are modelled.
- The acceptors and broadcasting outputs of the log server, factories, readers and command line handling: thin forwarding.
- The JSON log parser of the log server: rests on library code that is not part of this model.
- View models, plotting and the example programs: user interface or calls into other libraries.
