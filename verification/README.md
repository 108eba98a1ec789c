# Verification of Spoki

Spoki answers scanner packets with probes that scamper sends, logs packets and probes, and offline tools rebuild
two-phase handshakes from the logs. This project models the protocol and bookkeeping code between the captured packet
and the rebuilt handshake, and proves what it keeps in every run. `dafny verify dfyconfig.toml` checks everything.

| part | files |
|---|---|
| Handshake assembly: nine containers keyed by address pair and port, greedy matching, eviction by batch | `Events`, `Phases`, `PhaseSteps`, `PhaseRuns`, `PhaseCheckpoints`, `PhaseBatches`, `PhaseWindows`, `PhaseRows`, `PhaseMatcher` |
| Matching logged probe confirmations to events, and the loop that feeds the phase matcher | `Confirmations`, `ConfirmationRuns`, `ConfirmationFields`, `ConfirmationMatcher`, `WrittenFiles`, `EventMatcher`, `CheckpointRuns`, `AssemblyRuns`, `LostHandshake` |
| The scamper driver: line framer, DATA/MORE parser, credit protocol | `Framing`, `Decimal`, `ScamperProtocol`, `ScamperRuns`, `ScamperStream`, `Driver` |
| Shard and scamper manager: user ids, probes in flight, delayed RSTs | `Capture`, `Shard`, `ShardAnswers`, `Manager`, `ProbeRuns` |
| CRC-32C and the hashes built on it; the consistent hash ring | `Crc`, `HashRing` |
| Log path: buffer actor, collector, CSV printer, CSV reader, and buffer, collector and reader together | `LogFiles`, `Collector`, `LogBuffer`, `Csv`, `LogReader`, `TcpLog`, `LogPrinter`, `TcpRoundTrip`, `EndToEnd`, `Pipeline` |
| The UDP probe scheduler | `UdpLanes`, `UdpOutcomes`, `UdpProcessor` |
| Shared sequences, filters and dictionaries of lists | `Collections` |

Most stateful components appear twice. The behaviour is a function of the calls, events or messages so far
(`CellOf`, `Run`, `LaneOf`), or of the state before and one message (`Put`, `Outputs`, `Admit`, `Insert`), and the
theorems are proved for all sequences of these. The component itself is a class with the fields of the source. The
matchers, the driver, the buffer, the collector, the reader and the UDP prober carry a ghost history, and their methods
are proved to leave the fields as the function of the history says; the methods of the manager, the shard and the
hash ring are proved to apply the function of one step, and `ProbeRuns` puts shard and manager together. Sockets, clocks, the readers' next
batches, the moved-from buffer, the iteration order of hash tables and scamper's answers are parameters or arbitrary
choices. What the smallest definitions decide (the confirmation window, what confirms a probe, the answer to a packet,
the rows written, what ends a UDP probe) is stated once more over the plain fields of packets in `PhaseWindows`,
`PhaseRows`, `ConfirmationFields`, `ShardAnswers` and `UdpOutcomes`. Time stamps of the Python tools are microseconds,
those of captured packets nanoseconds.

## What does not hold

The model follows the code where code and intention differ; these are the exact conditions proved.

* A checkpoint completes one regular SYN and one acknowledged regular SYN of a key, although others may fit an open first
  phase just as well: exactly when none is left is `PhaseCheckpoints.CheckpointSaturatesPhasesExactly`, and
  `LostHandshake.WritesHalvesApart` is a run of the loop, from its start, that writes the two halves of a handshake apart.
* If the batch that is due owes nothing and only events of other batches still arrive, no file is ever written again, and
  if these are past the checkpoint every round hands over one event at most: `AssemblyRuns.StaysStuck`; in particular if
  nothing of the first hour is logged, `AssemblyRuns.EmptyFirstHour`.
* A short write to scamper leaves bytes on the wire that are sent again, because the offset is never advanced:
  `ScamperRuns.SentExactly`, `ScamperStream.SentIsPrefixExactly`, and the run `ScamperStream.ShortWriteRepeats`.
* An undecodable line inside a DATA block leaves the byte counter above zero, so that later commands are taken for data:
  `ScamperRuns.BlockEndsExactly`, and the run `ScamperStream.UndecodableLineLosesCredit`. A counter smaller than a
  decodable line wraps: `ScamperRuns.CounterExactly`, and the run `ScamperStream.ShortBlockWrapsCounter`.
* A line of 512 bytes or more stops the driver for good: `ScamperRuns.ReadNeverStalls`, `ScamperRuns.FullBufferStalls`,
  and the run `ScamperStream.LongLineStalls`.
* The assembly loop raises a TypeError if and only if the first round that gets anything gets it from one log alone, and
  another round follows: `AssemblyRuns.Assemble`. That takes a reader that may return an empty batch. The repository has
  none: its reader blocks until it has something, and then no round of any run raises
  (`AssemblyRuns.BlockingReadersNeverRaise`).
* Reusing a user id in flight blocks a target for good: `Management.AdmitKeepsConsistentExactly`,
  `Management.OrphansStayForever`. A reply with an unknown id frees the all-zero target:
  `Management.ReleaseKeepsConsistentExactly`.
* `next` and `previous` of the hash ring loop for ever if the hash of their argument is no ring key and there are too few
  other buckets: `HashRing.LoopsNeverEnd`.
* Aligning a negative time stamp to its hour is wrong unless it is aligned already: `LogFiles.AlignedHourHoldsTimeExactly`.
  The collector survives that except next to the current hour: `Collecting.Collector.HandleBuffer`,
  `Collecting.TwoMessages`, `Collecting.LastSecondBeforeEpoch`. Its only sender in the repository, the buffer actor, sends
  aligned hours (`Pipeline.Deliver`), so that no such time stamp reaches it from there.

## Model

| member | source | states |
|---|---|---|
| PhaseRuns.Conservation | evaluation/src/cse/logs/phasematcher.py:172-403 | After any sequence of calls, every copy of an accepted SYN or ACK is in one slot of the lists of its key, or in an evicted row, or was dropped as a stale ACK or repeated connection |
| PhaseRuns.ExactlyOnePlace | evaluation/src/cse/logs/phasematcher.py:172-403 | However often an event is handed over, it occupies exactly one place until the retransmit cache of its batch is evicted |
| PhaseRuns.OtherKeysHoldNothing | evaluation/src/cse/logs/phasematcher.py:172-213 | An event never appears in the lists of another key |
| PhaseRuns.RunIsSound | evaluation/src/cse/logs/phasematcher.py:172-403 | In every reachable state every list holds only records of the right shape, key and packet kind |
| PhaseRuns.TwoPhaseRecordsAreSound | evaluation/src/cse/logs/phasematcher.py:474-632 | Every two-phase record pairs an irregular with a regular SYN of one key, the regular one inside the confirmation window of the irregular one, and every ACK belongs to its SYN; in plain fields `PhaseWindows.TwoPhaseRecordsInWindow` |
| PhaseWindows.TwoPhaseRecordsInWindow | evaluation/src/cse/logs/phasematcher.py:34-56 | In every reachable state both SYNs of a two-phase record share addresses and destination port, the second of the regular one is at least that of the confirmation minus one and less than that plus the timeout, and each ACK has the source port of its SYN and the number its probe acknowledged |
| PhaseWindows.WindowMeans | evaluation/src/cse/logs/phasematcher.py:29-41 | A regular SYN is within the timeout of a confirmation exactly if its second is in that interval |
| PhaseWindows.MatchingMeans | evaluation/src/cse/logs/phasematcher.py:47-56 | An ACK matches a SYN exactly if the SYN was probed, the ACK has its source port, which the probe went to, and continues at the number acknowledged |
| PhaseWindows.KeyMeans | evaluation/src/cse/types/packet.py:51-55 | Two events share a key exactly if their addresses and destination ports are the same |
| PhaseRuns.RetransmitExactly | evaluation/src/cse/logs/phasematcher.py:419-463 | An event is a retransmit exactly if an earlier non-RST packet of its own or the previous batch had the same tuple and that cache was not evicted since; in plain fields `PhaseWindows.RetransmitMeans` |
| PhaseWindows.RetransmitMeans | evaluation/src/cse/logs/phasematcher.py:419-463 | A retransmit is exactly a packet with addresses, ports and sequence number of an earlier packet without RST, of its own batch or the one before, whose cache was not evicted since |
| PhaseRuns.MatchEverythingSaturates | evaluation/src/cse/logs/phasematcher.py:217-240 | After try_match_everything no ACK left matches a regular SYN, an irregular SYN, or the regular SYN of a two-phase record without ACK of its key; the phase passes behind the ACK loop keep that |
| PhaseRuns.FindRepeatedSaturates | evaluation/src/cse/logs/phasematcher.py:278-308 | After find_repeated_connections exactly the acked regular SYNs outside every two-phase window of their key remain, and nothing but the repeated connections changed besides; in plain seconds `PhaseWindows.RepeatedStaysExactly` |
| PhaseWindows.RepeatedStaysExactly | evaluation/src/cse/logs/phasematcher.py:278-308 | An acked regular SYN stays exactly if its second is in the interval of no two-phase record of its key |
| PhaseWindows.RepeatedNoteOne | evaluation/src/cse/logs/phasematcher.py:634-676 | Every connection moved to the repeated ones is in the interval of a two-phase record, and its note names second, source port, IP id and acknowledgement number of that irregular SYN |
| PhaseRuns.CheckpointSaturates | evaluation/src/cse/logs/phasematcher.py:217-308 | In every reachable state, after both checkpoint calls no ACK left matches anything of its key, and no acked regular SYN left is in the window (`PhaseWindows.WindowMeans`) of a two-phase record |
| PhaseCheckpoints.CheckpointSaturatesPhasesExactly | evaluation/src/cse/logs/phasematcher.py:241-308 | After both calls no regular or acked regular SYN fits an open first phase of its key if and only if one match each was enough: besides the first regular SYN with an open first phase none fits one that is not taken, and besides the first such acked one none does outside the windows of two-phase records |
| PhaseCheckpoints.CheckpointLeavesPhasesExactly | evaluation/src/cse/logs/phasematcher.py:217-308 | The same in every reachable state |
| PhaseCheckpoints.IdleAcksPass | evaluation/src/cse/logs/phasematcher.py:217-240 | If no waiting ACK matches anything, the ACK loop leaves the lists as they are, so that the condition is about these |
| PhaseRuns.AckPreference | evaluation/src/cse/logs/phasematcher.py:192-201 | An arriving ACK makes the oldest regular SYN it matches an acked one; without any, the oldest irregular SYN; without those, it completes the oldest two-phase record it matches; else it waits. The whole new lists are stated |
| PhaseRuns.RsynPreference | evaluation/src/cse/logs/phasematcher.py:185-191 | A regular SYN forms a two-phase record with the oldest irregular SYN whose window is open, only then with the oldest acked one, and waits if there is neither. The whole new lists are stated; when it waits, in plain seconds, is `PhaseWindows.RegularSynWaitsExactly` |
| PhaseWindows.RegularSynWaitsExactly | evaluation/src/cse/logs/phasematcher.py:185-191 | A regular SYN waits exactly if its second is in the interval of no irregular SYN of its key that waits, acked or not; otherwise it becomes the second phase of one whose interval it is in |
| PhaseRuns.EvictExactly | evaluation/src/cse/logs/phasematcher.py:312-403 | evict(b) removes from every list exactly what a packet of batch b heads, and every repeated connection |
| PhaseRuns.WrittenRowsAreOfBatch | evaluation/src/cse/logs/phasematcher.py:312-403 | In every reachable state every row evict(b) returns is headed by a packet of batch b |
| PhaseSteps.EvictConserves | evaluation/src/cse/logs/phasematcher.py:312-403 | An eviction splits the packets of a key into rows written, stale ACKs and repeated connections dropped, and what stays |
| Collections.FilterKeepsOrder | evaluation/src/cse/logs/phasematcher.py:79-137 | What an eviction leaves in a list, and what it takes out, keeps its order |
| Phases.SortByTsSorts | evaluation/src/cse/logs/phasematcher.py:400-403 | The rows returned are a permutation sorted by time stamp, which is that of their packets (`PhaseRows.SortedByTime`) |
| PhaseRows.OwedRowsAreGood | evaluation/src/cse/logs/phasematcher.py:79-137 | In every reachable state every row owed has the second of its irregular SYN, or else of its regular one, the tag that fits the packets it has, packets of the right kind, and ACKs that acknowledge its SYNs |
| PhaseRows.AllRowsAreGood | evaluation/src/cse/logs/phasematcher.py:312-403 | The same for all rows of an eviction |
| PhaseRows.SortedByTime | evaluation/src/cse/logs/phasematcher.py:400-403 | Sorted rows are sorted by the seconds of their SYNs |
| Collections.Count | evaluation/src/cse/logs/phasematcher.py:62-66 | count is the number of entries of all lists, in whatever order the keys are visited |
| PhaseMatching.FilterDict | evaluation/src/cse/logs/phasematcher.py:79-137 | filter_list and filter_dict_elems split every list into kept entries and rows, drop empty keys, and the counts add up |
| PhaseMatching.PhaseMatcher.HandleEvent | evaluation/src/cse/logs/phasematcher.py:172-213 | add_event changes the lists, the retransmit cache and the retransmits exactly as one more call of the history |
| PhaseMatching.PhaseMatcher.CheckRetransmit | evaluation/src/cse/logs/phasematcher.py:419-463 | is_retransmit decides by the history and records the packet |
| PhaseMatching.PhaseMatcher.EvictRetransmitCache | evaluation/src/cse/logs/phasematcher.py:465-472 | evict_retransmits forgets one batch of the cache and all retransmits |
| PhaseMatching.PhaseMatcher.MatchEverything | evaluation/src/cse/logs/phasematcher.py:217-274 | The three loops over all keys, with their deletion checks, perform the pass on every key |
| PhaseMatching.PhaseMatcher.FindRepeated | evaluation/src/cse/logs/phasematcher.py:278-308 | The loop over all keys, with its count check, moves the repeated connections of every key |
| PhaseMatching.PhaseMatcher.Evict | evaluation/src/cse/logs/phasematcher.py:312-403 | evict returns, for every key, a permutation of the rows owed, sorted by the seconds of their packets, with the tags their packets call for; it leaves the rest, and none of its assertions can fail |
| PhaseMatching.PhaseMatcher.TryMatchRsynToIsyn | evaluation/src/cse/logs/phasematcher.py:474-497 | The first irregular SYN with an open window becomes a two-phase record; its deletion check cannot fail (open as in `PhaseWindows.WindowMeans`) |
| PhaseMatching.PhaseMatcher.TryMatchRsynToIsynAcked | evaluation/src/cse/logs/phasematcher.py:499-520 | The same for acked irregular SYNs, whose ACK is kept (open as in `PhaseWindows.WindowMeans`) |
| PhaseMatching.PhaseMatcher.TryMatchRsynAckedToIsyn | evaluation/src/cse/logs/phasematcher.py:522-541 | An acked regular SYN completes the first open irregular SYN (open as in `PhaseWindows.WindowMeans`) |
| PhaseMatching.PhaseMatcher.TryMatchRsynAckedToIsynAcked | evaluation/src/cse/logs/phasematcher.py:543-563 | An acked regular SYN completes the first open acked irregular SYN (open as in `PhaseWindows.WindowMeans`) |
| PhaseMatching.PhaseMatcher.TryMatchAckToIsyn | evaluation/src/cse/logs/phasematcher.py:565-586 | The first irregular SYN the ACK matches becomes acked |
| PhaseMatching.PhaseMatcher.TryMatchAckToRsyn | evaluation/src/cse/logs/phasematcher.py:588-609 | The first regular SYN the ACK matches becomes acked |
| PhaseMatching.PhaseMatcher.TryMatchAckToTwoPhase | evaluation/src/cse/logs/phasematcher.py:611-632 | The first two-phase record whose regular SYN the ACK matches becomes complete |
| PhaseMatching.PhaseMatcher.TryMatchRsynAckedToTpNoAck | evaluation/src/cse/logs/phasematcher.py:634-654 | A repeated connection is noted with the identity of the open record without ACK (open as in `PhaseWindows.WindowMeans`) |
| PhaseMatching.PhaseMatcher.TryMatchRsynAckedToTp | evaluation/src/cse/logs/phasematcher.py:656-676 | A repeated connection is noted with the identity of the open complete record (open as in `PhaseWindows.WindowMeans`) |
| Confirmations.ResultsAreSound | evaluation/src/cse/logs/confirmationmatcher.py:161-192 | Every event a pass returns was not probed, or carries a fitting confirmation (`ConfirmationFields.FittingMeans`) |
| Confirmations.MatchAllSaturates | evaluation/src/cse/logs/confirmationmatcher.py:106-127 | After a pass no event left fits any confirmation left, under whatever user id |
| Confirmations.PassConservesEvents | evaluation/src/cse/logs/confirmationmatcher.py:161-192 | A pass returns or keeps every event, once |
| Confirmations.PassConservesConfirmations | evaluation/src/cse/logs/confirmationmatcher.py:106-127 | A pass assigns a confirmation to one event or keeps it |
| ConfirmationRuns.EventsAreConserved | evaluation/src/cse/logs/confirmationmatcher.py:142-221 | After any run every loaded event was returned, is cached, or was evicted, as often as it was loaded |
| ConfirmationRuns.ConfirmationsAreConserved | evaluation/src/cse/logs/confirmationmatcher.py:71-127 | After any run every loaded confirmation was assigned, is cached, or was evicted, as often as it was loaded, so that none serves two events |
| ConfirmationRuns.ReturnedAreSound | evaluation/src/cse/logs/confirmationmatcher.py:161-221 | All events ever returned are sound |
| ConfirmationFields.FittingMeans | evaluation/src/cse/logs/confirmationmatcher.py:30-39 | A confirmation fits exactly if source, destination, both ports, method and user id are those of the request and the times are at most the timeout apart |
| ConfirmationFields.ReturnedAreConfirmed | evaluation/src/cse/logs/confirmationmatcher.py:161-192 | Every event ever returned was not probed or carries such a confirmation |
| ConfirmationFields.NothingConfirmsLeftOver | evaluation/src/cse/logs/confirmationmatcher.py:161-221 | After match_events no confirmation left confirms an event left |
| ConfirmationFields.OldestIsTaken | evaluation/src/cse/logs/confirmationmatcher.py:106-127 | The first confirmation in the list that does is taken, and nothing else leaves the cache |
| ConfirmationRuns.MatchSaturates | evaluation/src/cse/logs/confirmationmatcher.py:161-221 | After match_events with its eviction no waiting event fits a cached confirmation |
| ConfirmationRuns.RolloverRemovesBatch | evaluation/src/cse/logs/confirmationmatcher.py:197-215 | After a rollover nothing of the evicted batch is left, and its id is no longer listed |
| ConfirmationRuns.WindowSlides | evaluation/src/cse/logs/confirmationmatcher.py:205-213 | Dropping the oldest id and appending the new ones keeps a duplicate free list of the observed ids, at least two of them |
| ConfirmationRuns.NextKeepsInvariant | evaluation/src/cse/logs/confirmationmatcher.py:64-67 | In every reachable state batch_id_order enumerates observed_batch_ids without duplicates |
| ConfirmationMatching.NewestIsMaximum | evaluation/src/cse/logs/confirmationmatcher.py:75-76 | The newest time stamp is nothing, or the largest delivered |
| ConfirmationMatching.ConfirmationMatcher.constructor | evaluation/src/cse/logs/confirmationmatcher.py:45-67 | The window starts with the ids of the file read and of the one before |
| ConfirmationMatching.ConfirmationMatcher.LoadConfirmationBatch | evaluation/src/cse/logs/confirmationmatcher.py:71-78 | A batch joins the cache by user id; ccnt and the newest time stamp follow |
| ConfirmationMatching.ConfirmationMatcher.FindConfirmation | evaluation/src/cse/logs/confirmationmatcher.py:106-127 | The oldest confirmation that fits is taken out and ccnt decremented, or nothing changes; its assertions cannot fail |
| ConfirmationMatching.ConfirmationMatcher.EvictConfirmationBatch | evaluation/src/cse/logs/confirmationmatcher.py:80-104 | Exactly the confirmations of the batch go, no key keeps an empty list, and ccnt stays the number cached |
| ConfirmationMatching.ConfirmationMatcher.LoadEventBatch | evaluation/src/cse/logs/confirmationmatcher.py:142-150 | A batch of events joins the cache and the newest time stamp follows |
| ConfirmationMatching.ConfirmationMatcher.MatchEventsPass | evaluation/src/cse/logs/confirmationmatcher.py:161-221 | match_events performs the pass and the rollover of the history, and returns the results of the pass |
| EventMatching.EventMatcher.Round | evaluation/src/cse/logs/eventmatcher.py:58-120 | A round raises a TypeError if and only if exactly one of the two logs has delivered anything so far, which only a reader that may return an empty batch lets happen. It loads exactly the logs that are less than the threshold ahead, hands over the queue up to the first event past the checkpoint, and adds a file and moves on to the next batch exactly if that checkpoint owed rows, the file holding exactly these |
| AssemblyRuns.Assemble | evaluation/src/cse/logs/eventmatcher.py:58-120 | However many rounds: the loop raises if and only if the first round that got anything got it from one log alone and another round follows, which takes a reader that returns empty batches; with a positive threshold every round reads on |
| AssemblyRuns.BlockingReadersNeverRaise | evaluation/src/cse/logs/reader.py:777-834 | With readers that return only nonempty batches, as the one of the repository does, no round of any run raises |
| AssemblyRuns.EmptyBatchRaises | evaluation/src/cse/logs/eventmatcher.py:58-82 | Whenever exactly one log delivers something in the first round, a second round raises |
| AssemblyRuns.StaysStuck | evaluation/src/cse/logs/eventmatcher.py:98-113 | Once the due batch owes nothing and only events of other batches arrive, no file is written and no batch becomes due in any further round, and if these events are past the checkpoint every round hands over one at most |
| AssemblyRuns.EmptyFirstHour | evaluation/src/cse/logs/eventmatcher.py:98-113 | If no event of the first hour is logged, nothing is ever written |
| PhaseBatches.OwesNothingForEver | evaluation/src/cse/logs/phasematcher.py:312-403 | A key that owes no rows for a batch owes none in any continuation without events of that batch |
| EventMatching.EventMatcher.LoadBatches | evaluation/src/cse/logs/eventmatcher.py:65-82 | A log is read on exactly if it has delivered nothing or is less than the threshold ahead of the other |
| EventMatching.EventMatcher.PassQueue | evaluation/src/cse/logs/eventmatcher.py:93-120 | Every event returned is handed to the phase matcher once, in order, or stays queued; a nonempty queue shrinks |
| EventMatching.RoundKeepsOrder | evaluation/src/cse/logs/eventmatcher.py:93-120 | What a round hands over followed by what it leaves is the queue |
| EventMatching.HandedExactly | evaluation/src/cse/logs/eventmatcher.py:93-104 | A round hands over the events in front of the first one at or past the checkpoint, and that one |
| EventMatching.EvictsAfterCheckpoint | evaluation/src/cse/logs/eventmatcher.py:98-104 | Whenever a batch is evicted, no waiting ACK matches anything of its key and no acked regular SYN is in the window (`PhaseWindows.WindowMeans`) of a two-phase record |
| EventMatching.EvictionsAreLate | evaluation/src/cse/logs/eventmatcher.py:98-113 | An eviction of batch b follows an event at least 5400 seconds past the start of its hour, and the three other calls of the checkpoint |
| CheckpointRuns.EvictsPhasesExactly | evaluation/src/cse/logs/eventmatcher.py:98-104 | At an eviction no SYNs of a key still fit each other if and only if one match each was enough when the checkpoint began |
| LostHandshake.WritesHalvesApart | evaluation/src/cse/logs/eventmatcher.py:58-120 | A run of the loop, from its start and over given logs, whose only file holds an irregular SYN and a regular SYN that fits its confirmation as two unmatched rows |
| LostHandshake.OneHandshakeIsEvicted | evaluation/src/cse/logs/phasematcher.py:241-274 | The lists the eviction of that run meets still hold a regular and an irregular SYN that fit |
| EventMatching.RoundKeepsSchedule | evaluation/src/cse/logs/eventmatcher.py:98-113 | Every eviction of batch b ends a checkpoint that an event at least half an hour past that batch set off |
| EventMatching.EventMatcher.DumpBatch | evaluation/src/cse/logs/eventmatcher.py:100-112 | A checkpoint adds a file and moves on to the next batch and hour if and only if the eviction owes rows of any key; the file holds exactly the rows owed |
| WrittenFiles.OwesExactly | evaluation/src/cse/logs/eventmatcher.py:105-112 | The rows of an eviction are empty exactly if no key owes any |
| WrittenFiles.FilesHoldWritten | evaluation/src/cse/logs/eventmatcher.py:105-112 | In every run the files hold each event exactly as often as the evictions owed it |
| WrittenFiles.FilesAreGood | evaluation/src/cse/logs/eventmatcher.py:105-112 | In every run all rows of all files have the time and tag of their packets |
| CheckpointRuns.EveryEventIsSomewhere | evaluation/src/cse/logs/eventmatcher.py:58-120 | After every round each event loaded was evicted unmatched, is cached, or was returned, as often as it was loaded; and each returned one is, as often, queued, filtered, in a list of its key, in a file, or dropped |
| Framing.LinesConcat | spoki/libspoki/src/scamper/driver.cpp:555-584 | Splitting into lines can stop anywhere and go on with the unfinished tail |
| Framing.LinesJoin | spoki/libspoki/src/scamper/driver.cpp:555-584 | Lines and tail joined by newlines are the stream |
| Framing.SplitIsUnique | spoki/libspoki/src/scamper/driver.cpp:555-584 | The lines and the tail are the only way to write a stream as newline free pieces |
| Decimal.StrtoulOfToString | spoki/libspoki/src/scamper/driver.cpp:663-668 | strtoul reads back what was printed |
| ScamperRuns.NextKeepsInvariant | spoki/libspoki/src/scamper/driver.cpp:350-379 | Write events are registered exactly while there is a credit and a command, for every interleaving; the write handler never runs on an empty queue or without credit |
| ScamperRuns.CreditsAddUp | spoki/libspoki/src/scamper/driver.cpp:484-535 | Completed commands plus credits are one plus the MOREs handled; every completed command is reported once or waits in the current batch |
| ScamperStream.CreditsAreMores | spoki/libspoki/src/scamper/driver.cpp:618-640 | For every stream of lines "MORE", lines beginning with "OK" or "ERR" and decodable DATA blocks, however it is cut: completed commands plus credits are one plus the number of items that are the line "MORE" |
| ScamperRuns.ReportedInHundreds | spoki/libspoki/src/scamper/driver.cpp:520-525 | In every run the commands reported to the collector are the full hundreds of those completed |
| ScamperRuns.CompletedInOrder | spoki/libspoki/src/scamper/driver.cpp:350-379 | The attach command and then the commands handed over complete in order, the rest is queued |
| ScamperRuns.SentBytes | spoki/libspoki/src/scamper/driver.cpp:506-519 | Bytes sent are the completed commands and, besides, what short writes left on the wire, since the write offset never advances |
| ScamperRuns.SentExactly | spoki/libspoki/src/scamper/driver.cpp:506-519 | The stream sent is exactly the completed commands if and only if no write took only a part |
| ScamperStream.SentIsPrefixExactly | spoki/libspoki/src/scamper/driver.cpp:506-519 | For one-line commands: at every moment the stream sent is the beginning of the commands if and only if none completed behind bytes of a short write and the attempts at the first one waiting spell its beginning |
| ScamperStream.SentWhenCompleted | spoki/libspoki/src/scamper/driver.cpp:506-519 | Whenever a command completes, it is so if and only if no write before was short |
| ScamperStream.ShortWriteRepeats | spoki/libspoki/src/scamper/driver.cpp:506-519 | A run in which the attach command, taken in two writes, is sent with its first bytes doubled |
| ScamperRuns.ChunksDoNotMatter | spoki/libspoki/src/scamper/driver.cpp:537-584 | However the stream is cut into reads, lines handled, byte counter and kept bytes are those of the whole stream |
| ScamperRuns.HandledAreTheLines | spoki/libspoki/src/scamper/driver.cpp:537-584 | The lines handled, in order, and the kept bytes joined by newlines are the stream received |
| ScamperRuns.RoomExactly | spoki/libspoki/src/scamper/driver.cpp:541-546 | The buffer has room at every point of the stream if and only if no line is longer than 511 bytes |
| ScamperRuns.ReadNeverStalls | spoki/libspoki/src/scamper/driver.cpp:541-546 | A read is possible exactly if the unfinished line is shorter than the buffer, and it is at every point of the stream if and only if no line is longer than 511 bytes |
| ScamperRuns.FullBufferStalls | spoki/libspoki/src/scamper/driver.cpp:541-551 | Behind a full buffer without a newline nothing is ever read or handled again, in any continuation |
| ScamperStream.LongLineStalls | spoki/libspoki/src/scamper/driver.cpp:541-551 | A run that gets there |
| ScamperRuns.BlockLines | spoki/libspoki/src/scamper/driver.cpp:588-607 | The lines of an announced block go to the data handler and the counter never underflows |
| ScamperRuns.BlockEndsExactly | spoki/libspoki/src/scamper/driver.cpp:588-607 | The counter is zero behind a block if and only if every line of the block could be decoded |
| ScamperStream.UndecodableLineLosesCredit | spoki/libspoki/src/scamper/driver.cpp:588-607 | A run in which one undecodable line makes the driver take a MORE for data, with any decoder that rejects it |
| ScamperStream.ShortBlockWrapsCounter | spoki/libspoki/src/scamper/driver.cpp:605-606 | A run in which the byte counter wraps, with any decoder that accepts the line |
| ScamperRuns.ParserInvertsRenderer | spoki/libspoki/src/scamper/driver.cpp:537-682 | A rendered sequence of command lines and decodable DATA blocks is handled item by item under any chunking, and the counter ends at zero |
| ScamperRuns.DecoderReceivesInOrder | spoki/libspoki/src/scamper/driver.cpp:383-393 | The decoder gets the decoded data lines in order; while bytes wait its socket is registered for writing |
| Driver.ScamperDriver.constructor | spoki/libspoki/src/scamper/driver.cpp:119-135 | The driver starts with the attach command and one credit |
| Driver.ScamperDriver.HandleScamperRead | spoki/libspoki/src/scamper/driver.cpp:537-584 | A read fills the buffer behind the unfinished line, handles the complete lines and keeps the tail |
| Driver.ScamperDriver.HandleBufferedLines | spoki/libspoki/src/scamper/driver.cpp:555-584 | The loop over the 512 byte array handles exactly the lines in it and returns where the tail starts |
| Driver.ScamperDriver.HandleDataLine | spoki/libspoki/src/scamper/driver.cpp:588-607 | A data line is decoded, queued for the decoder and subtracted from the counter |
| Driver.ScamperDriver.HandleCommandLine | spoki/libspoki/src/scamper/driver.cpp:609-682 | The first character decides: M is a credit, D sets the counter, anything else changes nothing; over whole streams `ScamperStream.CreditsAreMores` |
| Driver.ScamperDriver.HandleNotifyRead | spoki/libspoki/src/scamper/driver.cpp:350-379 | Commands are queued and write events registered if a credit waits |
| Driver.ScamperDriver.HandleScamperWrite | spoki/libspoki/src/scamper/driver.cpp:484-535 | One write attempt on the first command; completing it uses a credit, and write events stop with the credits or the commands |
| Driver.ScamperDriver.HandleDecodeWrite | spoki/libspoki/src/scamper/driver.cpp:383-393 | Bytes leave for the decoder, and write events stop when none are left |
| Management.AdmitKeepsConsistentExactly | spoki/libspoki/src/scamper/manager.cpp:39-70 | A request keeps targets equal to the range of an injective userids if and only if it is dropped or its user id is not in use |
| Management.ReleaseKeepsConsistentExactly | spoki/libspoki/src/scamper/manager.cpp:75-83 | A reply keeps them so if and only if its user id is outstanding or the default key is not a target |
| Management.OverwritingOrphans | spoki/libspoki/src/scamper/manager.cpp:48-51 | Reusing an id in flight leaves a target that no id stands for |
| Management.OrphansStayForever | spoki/libspoki/src/scamper/manager.cpp:39-83 | Such a target, unless it has the default key, is never probed again |
| Management.AdmitBooks | spoki/libspoki/src/scamper/manager.cpp:39-70 | A request for a free target occupies it under its id; nothing else changes, and a request for an occupied target changes nothing |
| Management.ReleaseFrees | spoki/libspoki/src/scamper/manager.cpp:75-83 | A reply to an outstanding id ends its use and frees its target, and nothing else changes |
| Management.Manager.HandleRequest | spoki/libspoki/src/scamper/manager.cpp:39-55 | A request goes to the driver and is booked exactly if its target is not in flight |
| Management.Manager.HandlePlainRequest | spoki/libspoki/src/scamper/manager.cpp:56-70 | The same for requests without the irregular flag |
| Management.Manager.HandleReply | spoki/libspoki/src/scamper/manager.cpp:75-83 | A reply frees the target of its user id, the default target if the id is unknown |
| Sharding.Shard.NextId | spoki/libspoki/src/cache/shard.cpp:52-55 | The counter wraps at 24 bits below the shard byte |
| Sharding.IdIs | spoki/libspoki/src/cache/shard.cpp:52-55 | The upper byte of an id is the shard, the lower three the number of the id |
| Sharding.Shard.HandleTcp | spoki/libspoki/src/cache/shard.cpp:57-107 | SYNs are answered and logged, the first ACK of an endpoint schedules a RST and is logged, repeated ones are ignored, the rest is logged; what is sent and logged, field by field, is in `ShardAnswers` |
| ShardAnswers.SynIsAnswered | spoki/libspoki/src/cache/shard.cpp:57-78 | A SYN is answered by one SYN ACK with ends swapped that acknowledges the SYN and its payload, modulo 2^32, and logged with it; the prober learns whether it looks like a scanner |
| ShardAnswers.FirstAckIsReset | spoki/libspoki/src/cache/shard.cpp:79-101 | An ACK of an endpoint without a pending RST gets one delayed RST of two probes with ends swapped, whose sequence number is the one acknowledged and whose acknowledgement number is zero, and is logged with it |
| ShardAnswers.OneRowEach | spoki/libspoki/src/cache/shard.cpp:57-107 | Every captured packet leaves exactly one row, except a repeated ACK |
| ShardAnswers.AnswersAreLogged | spoki/libspoki/src/cache/shard.cpp:66-107 | As the tools read a row: it carries a request exactly for SYNs and for ACKs, with the method "tcp-synack" or "tcp-rst" and the fields of the probe sent |
| ShardAnswers.PacketIsLogged | evaluation/src/cse/types/packet.py:101-117 | And the packet itself: its second, addresses, ports, numbers and flags |
| ShardAnswers.NamesOfOptions | spoki/libspoki/src/net/tcp_opt.cpp:49-70 | The eight option kinds and the names the log gives them; any other kind is unknown |
| Sharding.Shard.HandleDelayed | spoki/libspoki/src/cache/shard.cpp:182-188 | A delayed RST leaves the set and goes to the prober |
| ProbeRuns.OneProbePerTarget | spoki/libspoki/src/scamper/manager.cpp:39-83 | In every run at most one probe per address and kind of SYN is in flight, and targets says which |
| ProbeRuns.OneRstPerEndpoint | spoki/libspoki/src/cache/shard.cpp:79-95 | rst_scheduled is exactly the set of endpoints with a pending RST, each with one |
| ProbeRuns.NextKeepsInvariant | spoki/libspoki/src/cache/shard.cpp:57-107 | Packets, delayed RSTs, the mailbox and replies in any order keep user ids distinct and the bookkeeping consistent |
| ProbeRuns.RecentIdsAreFresh | spoki/libspoki/src/cache/shard.cpp:52-55 | If no id outlives 2^24 - 1 later ids, the next id is not in use |
| ProbeRuns.RecentRunsContinue | spoki/libspoki/src/cache/shard.cpp:52-55 | Then every captured packet can be processed |
| ProbeRuns.UseAfter | spoki/libspoki/src/cache/shard.cpp:57-107 | Only issuing an id puts one into use |
| Crc.TableIsEightSteps | spoki/libspoki/src/crc.cpp:29-92 | Each of the 256 table entries is the register after eight steps of the reflected polynomial |
| Crc.ByteUpdate | spoki/libspoki/src/crc.cpp:96-104 | A table lookup feeds the eight bits of a byte, least significant first |
| Crc.CrcUpdate | spoki/libspoki/src/crc.cpp:96-104 | The loop computes bit-at-a-time CRC-32C (section 12.1 of RFC 3720) |
| Crc.UpdateInParts | spoki/libspoki/src/crc.cpp:96-104 | Feeding a concatenation is feeding its parts in turn |
| Crc.BurstsAreSeen | spoki/libspoki/src/crc.cpp:96-104 | Messages of one length that differ only within 32 consecutive bits end in different registers |
| Crc.ComputeHash | spoki/libspoki/spoki/hashing.hpp:61-81 | The hash of a string or an address is the finished register |
| Crc.CheckValue | spoki/libspoki/spoki/hashing.hpp:61-70 | The digits from one to nine hash to 0xe3069283, the check value of CRC-32C |
| Crc.EmptyHash | spoki/libspoki/spoki/hashing.hpp:61-70 | The empty string hashes to zero |
| Crc.HashSeesBursts | spoki/libspoki/spoki/hashing.hpp:61-70 | Strings of one length differing only within 32 consecutive bits have different hashes |
| Crc.NearbyStringsDoNotCollide | spoki/libspoki/spoki/hashing.hpp:61-70 | Strings of one length differing only within four consecutive bytes have different hashes |
| Crc.AddressHashIsPermutation | spoki/libspoki/spoki/hashing.hpp:72-81 | Every 32 bit number is the hash of exactly one IPv4 address |
| HashRing.ResolveIsNearest | spoki/libspoki/spoki/consistent_hash_map.hpp:200-207 | resolve finds the clockwise nearest entry, which is unique |
| HashRing.InsertDisruptsExactly | spoki/libspoki/spoki/consistent_hash_map.hpp:72-91 | An insertion changes a lookup exactly if the key is new and the lookup now finds the new entry |
| HashRing.EraseDisruptsExactly | spoki/libspoki/spoki/consistent_hash_map.hpp:291-298 | Erasing a bucket changes a lookup exactly for the keys that found it |
| HashRing.FirstOthersUnique | spoki/libspoki/spoki/consistent_hash_map.hpp:158-196 | The first n other buckets of a walk are determined |
| HashRing.TripIsClockwise | spoki/libspoki/spoki/consistent_hash_map.hpp:158-174 | A walk from a position visits every entry not at it, each farther clockwise on the ring of 2^32 numbers than the one before |
| HashRing.LoopsNeverEnd | spoki/libspoki/spoki/consistent_hash_map.hpp:158-196 | When the hash of x is no ring key and there are fewer than n other buckets, the loops of next and previous never end |
| HashRing.ConsistentHashMap.NextBuckets | spoki/libspoki/spoki/consistent_hash_map.hpp:158-174 | next returns the first n values other than x clockwise, or all there are, whenever it ends |
| HashRing.ConsistentHashMap.PreviousBuckets | spoki/libspoki/spoki/consistent_hash_map.hpp:177-196 | previous returns the first n values other than x counter-clockwise |
| HashRing.ConsistentHashMap.InsertEntry | spoki/libspoki/spoki/consistent_hash_map.hpp:84-91 | insert keeps the order and never overwrites |
| HashRing.ConsistentHashMap.InsertBucket | spoki/libspoki/spoki/consistent_hash_map.hpp:72-82 | A bucket is filed under its own hash |
| HashRing.ConsistentHashMap.EraseBucket | spoki/libspoki/spoki/consistent_hash_map.hpp:291-298 | erase_all removes every entry of the bucket in one pass |
| HashRing.ConsistentHashMap.ResolveKey | spoki/libspoki/spoki/consistent_hash_map.hpp:200-207 | resolve returns nothing on an empty ring and the nearest bucket otherwise |
| LogFiles.AlignedHourHoldsTimeExactly | spoki/libspoki/src/collector.cpp:166-168 | The aligned hour holds a time stamp exactly if that is not negative or is aligned itself |
| Collecting.Collector.HandleBuffer | spoki/libspoki/src/collector.cpp:401-501 | In every run each hour has one file, opened at most once, that starts as it was found or with a header and holds the accepted buffers of that hour in order. That goes on if and only if no hour next to the current one is opened for a negative time stamp that is not aligned; otherwise the hours no longer meet |
| Collecting.TwoMessages | spoki/libspoki/src/collector.cpp:401-458 | After any two first messages the hours do not meet exactly if the second time stamp is negative, not aligned, and in an hour next to the one of the first |
| Collecting.Collector.RejectedExactly | spoki/libspoki/src/collector.cpp:443-457 | A buffer is rejected exactly if it predates last_hour.start |
| Collecting.Collector.OpenLogFile | spoki/libspoki/src/collector.cpp:197-210 | A file is opened for its aligned hour, and gets a header if it is new |
| Collecting.Collector.BufferedWriteIdle | spoki/libspoki/src/collector.cpp:401-412 | The first buffer opens its hour |
| Collecting.Collector.BufferedWriteOneLog | spoki/libspoki/src/collector.cpp:414-458 | With one log: write, rotate, skip ahead, reopen the last hour, or reject |
| Collecting.Collector.BufferedWriteTwoLogs | spoki/libspoki/src/collector.cpp:460-501 | With two logs: write to either, rotate, skip ahead, or reject |
| Buffering.NothingLostOrMixed | spoki/libspoki/src/buffer.cpp:47-159 | Sent batches and the live buffer are all lines in order; batches are nonempty and of one hour, the live buffer within the threshold |
| Buffering.BatchesEndRight | spoki/libspoki/src/buffer.cpp:47-119 | In every run a batch is sent when it gets over the threshold, and not before, or when the next line is of another hour |
| Buffering.BatchingIsTransparent | spoki/libspoki/src/buffer.cpp:47-159 | The batches fill every file exactly as if each line had been sent on its own |
| Buffering.FilesHoldTheLines | spoki/libspoki/src/buffer.cpp:47-166 | Composed with the collector: each file holds its header and the lines of its hour that were not more than an hour behind |
| Buffering.LogBuffer.Append | spoki/libspoki/src/buffer.cpp:47-119 | A line joins the buffer of its hour; another hour or a full buffer sends it, whatever the backup buffer and the moved-from one hold |
| Buffering.LogBuffer.TakeBack | spoki/libspoki/src/buffer.cpp:161-166 | A returned buffer changes nothing that is sent |
| LogPrinting.RowPrinter.AppendPacketAndRequest | spoki/libspoki/src/collector.cpp:279-297 | The appended row is the 23 fields joined by the delimiter |
| LogPrinting.RowPrinter.AppendPacket | spoki/libspoki/src/collector.cpp:256-277 | The row of a packet that was not probed, with five empty fields |
| LogPrinting.OptionsToString | spoki/libspoki/src/collector.cpp:80-91 | Option names joined by colons, in the order the table lists them |
| Csv.SplitJoin | evaluation/src/cse/logs/reader.py:452-456 | Splitting undoes joining |
| Csv.ZipAt | evaluation/src/cse/logs/reader.py:455-456 | A full row maps each column to its own field |
| TcpRoundTrip.RowRoundTrip | evaluation/src/cse/types/probe_request.py:80-94 | A printed row parses back to its packet, to the second, and to its request |
| TcpRoundTrip.PacketReads | evaluation/src/cse/types/packet.py:101-117 | The packet columns parse back |
| TcpRoundTrip.TcpReads | evaluation/src/cse/types/protocols/tcp.py:75-90 | The TCP columns parse back: ports, numbers, flags, options, payload |
| TcpRoundTrip.LogRoundTrip | evaluation/src/cse/logs/reader.py:434-498 | Wherever a log is cut, the complete lines read give the events of exactly as many entries, in order, and no row fails |
| LogReading.CsvFile.Consume | evaluation/src/cse/logs/reader.py:434-498 | However the file grows between calls, the rows delivered are those of the complete lines below the header; while no call raised, the items of all calls together are those of all rows |
| LogReading.CsvFile.ReadRows | evaluation/src/cse/logs/reader.py:446-467 | Partial lines wait in the buffer for the next call |
| EndToEnd.SameVerdict | evaluation/src/cse/types/analyzer.py:64-76 | The tools call irregular exactly the SYNs the shard called scanner-like |
| EndToEnd.OptionsAreASet | spoki/libspoki/src/collector.cpp:80-91 | The order in which options are printed does not change the set of names read |
| EndToEnd.HexRoundTrip | spoki/libspoki/src/probe/payloads.cpp:52-57 | The logged payload can be read back byte for byte |
| EndToEnd.ShardRowsArePrintable | spoki/libspoki/src/cache/shard.cpp:66-107 | Every row a shard logs can be printed and read back |
| EndToEnd.LoggedProbeMatches | evaluation/src/cse/logs/phasematcher.py:47-56 | For a SYN answered, logged and read back, an ACK matches exactly if it acknowledges the SYN and its payload |
| Pipeline.ReaderHasEvents | evaluation/src/cse/logs/reader.py:434-498 | However calls of consume cut a printed log, what they returned so far, joined, is the events of the first entries, one for each complete row |
| Pipeline.Deliver | spoki/libspoki/src/collector.cpp:401-501 | The collector handles every message of the buffer, whose hours are aligned, and its books stay right |
| Pipeline.PipelineReadsBack | evaluation/src/cse/logs/reader.py:434-498 | From printed lines through buffer and collector to the reader of an hour's growing file: what it returned so far is the events of the first entries kept for that hour; and if lines are filed by the time of their packets, all these events are of that hour |
| UdpLanes.ServedInOrder | spoki/tools/src/udp_processor.cpp:85-129 | Per destination the targets logged, in progress and pending are those received, in order, and pending targets imply one in progress |
| UdpLanes.NothingIsLost | spoki/tools/src/udp_processor.cpp:85-129 | Received equals pending plus in progress plus logged |
| UdpLanes.ActiveIsOf | spoki/tools/src/udp_processor.cpp:118-129 | The probe in progress for an address is to that address |
| UdpLanes.TicksBoundAge | spoki/tools/src/udp_processor.cpp:243-265 | In every run, after a tick no probe in progress is more than the timeout older than that tick |
| UdpOutcomes.OutcomeExactly | spoki/tools/src/udp_processor.cpp:189-265 | Where a line is written: its outcome is a reply if and only if a UDP packet from address and port of the target ended the probe, unreachable if and only if a destination unreachable message for them did, and no reply if and only if a tick more than 20 seconds after the start did |
| UdpOutcomes.EveryLineEnds | spoki/tools/src/udp_processor.cpp:189-265 | In every run every line is written at some packet or tick |
| UdpOutcomes.EndsOnce | spoki/tools/src/udp_processor.cpp:189-265 | No line is written at two packets or ticks |
| UdpOutcomes.OnlyLinesEndProbes | spoki/tools/src/udp_processor.cpp:189-265 | Wherever a probe stops being in progress, its line is written: nothing else ends one |
| UdpOutcomes.PacketEndsExactly | spoki/tools/src/udp_processor.cpp:189-231 | A UDP packet or an unreachable message from where the probe went ends it with that outcome; any other packet changes nothing |
| UdpOutcomes.TickEndsExactly | spoki/tools/src/udp_processor.cpp:243-265 | A tick ends exactly the probes older than 20 seconds, and sends again those older than six |
| UdpLanes.SentInOrder | spoki/tools/src/udp_processor.cpp:118-139 | The prober is asked once for each target logged or in progress, in order, and besides only for retransmissions of the probe in progress |
| UdpProcessing.UdpProcessor.HandleTargets | spoki/tools/src/udp_processor.cpp:233-242 | New targets are queued and idle destinations started |
| UdpProcessing.UdpProcessor.HandlePackets | spoki/tools/src/udp_processor.cpp:189-231 | A reply from the probed port, or an unreachable message about it, is logged and starts the next probe; which outcome is logged is `UdpOutcomes.OutcomeExactly` |
| UdpProcessing.UdpProcessor.HandleTick | spoki/tools/src/udp_processor.cpp:243-265 | Timed-out probes are logged, those past the interval are sent again, and idle destinations started |
| UdpProcessing.UdpProcessor.RequestMore | spoki/tools/src/udp_processor.cpp:78-83 | A request is made exactly if none is open and few probes are in progress |

## Left out

- Sockets, the multiplexing loops, warts decoding and `uudecode_line`: foreign code; the decoder is a function that either
  fails or returns bytes, reads and writes are events.
- ScamperProtocol.DataLength: a line starting with D that is shorter than five characters makes the source read past its
  end; the model reads no digits there.
- The debug assertion of the driver that no line ends in a carriage return, and the check at the start of
  `handle_scamper_write`, which does not return; the latter is proved never to fire.
- Only TCP events are modelled in the assembly tools: ICMP and UDP packets never reach a list of the phase matcher.
- The `ident` of a repeated connection is the tuple itself, not Python's hash of it.
- The log output, the counters that are only printed, and the file name made from the first row of a batch.
- ConfirmationRuns.MatchEvents: the order in which `list(set)` returns ids met first is arbitrary and part of the call.
- Several shards on one manager: shard bytes are the low byte of actor ids, which the source calls unsafe; one shard and
  one manager are modelled. UDP and ICMP probes only use up user ids.
- Driver, manager and shard are proved one by one; the actor messages between manager and driver are those of
  `HandleRequest` and `HandleNotifyRead`.
- Crc.CrcUpdate: `crc_t` may be wider than 32 bits; the value is modelled as 32 bits, which every caller passes.
- The generic `hash` of integers and actors, `hash_combine` and iterators of the ring other than those used in lookups.
- HashRing.ConsistentHashMap.NextBuckets: called only where the loop ends, with the exact condition as precondition; the
  other case is `HashRing.LoopsNeverEnd`.
- HashRing.ConsistentHashMap.PreviousBuckets: the same.
- The unbuffered writes of the collector, which open the previous hour without a header, and the `done` and `flush`
  messages.
- UDP and ICMP rows of the raw log, whose printer does not match the header, and scamper's reply log.
- ScamperStream.SentIsPrefixExactly: commands are one line each, as those of the TCP and UDP probes are; the one of an ICMP
  probe holds the low byte of its user id as a character, which may be a newline.
- ScamperStream.SentWhenCompleted: the same.
- TcpLog.Number: numbers are read if they consist of digits; blanks, signs and underscores, which the Python constructors
  also accept, are errors in the model, and the printer never writes them.
- TcpLog.PacketFromCsv: the division by 1000 of the time stamp is exact, without floating point; rows of other protocols
  are skipped.
- LogReading.CsvFile.Consume: the file grows between calls, not between two `readline`s of one call; decompression is not
  modelled.
- The `finished` table of the UDP prober, which nothing reads, and the rotation of its log file.
- Swift, Kafka and live readers, stores, classifiers, payload parsers, statistics and plots.
