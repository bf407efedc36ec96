# Agent Sidecar: verified models of its state machines

Agent Sidecar watches the files and processes of other programs.  What can go wrong in it is concentrated in small
in-memory state machines that have to stay correct while sources change under them, clocks jump, children misbehave
and writes stop half-way.  This project models those machines in Dafny and proves what they promise.  Verify it with
`dafny verify dfyconfig.toml`.

| module | what it models | main results |
|---|---|---|
| `StableRead` | the "stat, copy, stat again" read of a Cursor chat store | an accepted copy is the source at one single instant; giving up means three real races; every other error has its reason in the source; a readable source that holds still is read |
| `Broker` | the snapshot cache with scan generations, pins and single-flight loads | exact byte counter, hard and soft ceilings, agreement with the direct read and flight budget in every reachable state |
| `Follower` | the resumable cursor over a chat history | cursor tracking under arbitrary edits, exactly-once delivery of append-only histories across restarts, exact progress, skip refinement, the time of every record, checkpoint bisimulation with its exact condition |
| `CheckpointText` | the JSON text of a checkpoint | its two lengths are the two sizes that the limit is compared with |
| `Sightings` | where a follower's observations come from | agreeing signatures enclose one state, exactly unless a log came and went; the round trip over one history of the source |
| `Protobuf` | varint decoding and the root scanner | decoding undoes encoding, what is read is exactly what spells a well-formed field, scanning inverts encoding and merges under concatenation, two raises are unreachable |
| `JsonLimits` | the explicit-stack JSON validation | it accepts exactly what the recursive definition on unfolded trees accepts, on every finite graph, shared or cyclic, and what that is position by position |
| `DaemonLog` | the rotating log with a crash between any two steps | what survives is a contiguous suffix of the committed records; reopening yields the acknowledged records plus at most the one in flight; what an interrupt that leaves the log open does to it, exactly |
| `KimiAcp` | the JSON-RPC driver of a Kimi ACP child | one itinerary for every run, at most one prompt, boundary and stop reason tied to the phase, success with every co-operative child, permission requests included |
| `Bus` | one drop-oldest subscription with an unlocked consumer | in-order selection, loss accounting, one sentinel, second put never full, under every interleaving; a burst keeps the latest |
| `Framer` | the newline framer over `recv` | frames and errors are those of the stream, however it is cut |
| `Archive` | the archive registry and the automatic scan | partition deals out every row once; two scans settle, and when one does; a failed scan tried again gives what it would have given at once (`Archive.RetryRecovers`); the cap keeps the newest and leaves exactly the surplus visible |
| `WatchMerge` | the fair merge of two watch queues | per-source order and completeness, fairness, termination |
| `Common` | `Option`, `Result`, `Min`, `Max`, joining sequences and a product for linear reasoning | |

How the pieces of the environment enter: clocks are parameters (`real`); what the operating system, the network, the
child or another thread does is a script or a list of faults over which every result is universally quantified; locks are
atomic steps, except in `Bus`, where the consumer really interleaves with a lock holder.  SHA-256 is a free (hence
injective) constructor over its preimage, and the injectivity of concatenating fixed-size ids is proved.  A source write
gives the file a fresh stamp, so a signature identifies content.  Cache weights are arbitrary natural numbers.

Places where the code and what one would expect of it part:

- `export_checkpoint` limits the compact JSON text while `restore_checkpoint` limits the default text, which is 17 bytes
  longer, so an export close to the limit cannot be restored: `Follower.RestoreAcceptsExport` gives the exact condition and
  `Follower.ExportThatCannotBeRestored` a path that shows it.
- A restored follower remembers neither a signature nor the old ids, so one poll after a restore it can differ from the
  original: it sends at once what the original skips when the source changes between the first stat of a poll and its
  snapshot, and it needs the old root when the history was rewritten.  `Follower.RestoredPollAgrees` is the exact condition
  for one poll, `Follower.LockstepIffStepKept` the one for a run, and `Follower.CheckpointRoundTrip` says what of the source is
  enough for it.

- `poll` handles chat errors only.  When reading the old root raises something else, for example because no temporary
  directory can be made, the exception leaves it after the signature was remembered and without a rollback, and the
  follower stays silent until the source changes: `Follower.PollKeepsMemory`, `Follower.EscapeSilences`, `Follower.EscapeOwes`.
- Two equal signatures around a poll name a state that the poll need not have seen, when the log came and went in
  between: `Sightings.CoherentUnlessLogCameAndWent` and `Sightings.LogThatCameAndWent`.
- An interrupt that is no `Exception` leaves an append without truncation and with the log open, so the next record is
  glued to the torn one and the file is refused at the next start: `DaemonLog.RotatingLog.GoOn` gives the exact condition.

## Model

| member | source | states |
|---|---|---|
| `StableRead.SameStampSameVersion` | sidecar/cursor_chat.py:819-839 | a file whose signature is the same at two instants was the same version at every instant between them |
| `StableRead.SteadyBetweenStats` | sidecar/cursor_chat.py:1432-1531 | equal stats around a copy mean that the file held still during the copy |
| `StableRead.SignatureIdentifiesContent` | sidecar/cursor_chat.py:1566-1586 | equal database and log signatures mean equal contents, even if the log was deleted and recreated in between |
| `StableRead.DecodeIsFunctionOfSignature` | sidecar/cursor_chat.py:1566-1609 | decoding depends only on the signature, not on the instant it was seen |
| `StableRead.RegularSignature` | sidecar/cursor_chat.py:819-839 | the signature of the file at that instant; each error exactly under its condition: missing though required, not to be looked at, or larger than the limit |
| `StableRead.CopyRegularFile` | sidecar/cursor_chat.py:842-851 | a chunked copy of a file that holds still is exactly the expected part of it, and it fails only if a read fails or the file goes away |
| `StableRead.AgreeingStats` | sidecar/cursor_chat.py:1443-1500 | stats that agree around the copies mean that both copies are whole and of one instant |
| `StableRead.TryCopy` | sidecar/cursor_chat.py:1443-1527 | one attempt: a race means that the source changed between its stats; a result is the source at one instant, within both file limits and the given limit; each error has its reason in the source, or in a look or copy that was refused; a database that was there at the first stat and is gone at the second is a race, never a source error |
| `StableRead.ReadStableCopy` | sidecar/cursor_chat.py:1432-1531 | an accepted result is the decode of the source at one instant with that instant's signature; a busy error names three ordered intervals in each of which the source changed, the last one before any time it held still from; a limit error means a file or a pair of files over the limit, a decode error a copy that does not decode, a source error a missing database or a refused look or copy; so a readable source that holds still is read whenever nothing is refused |
| `Broker.SurvivingFacts` | sidecar/cursor_chat.py:401-415 | expiry selects a sub-sequence of distinct entries, never heavier or longer |
| `Broker.SurvivingExpires` | sidecar/cursor_chat.py:401-415 | expiry drops exactly the entries that are due and not of the generation of an open scan, and keeps the others in order |
| `Broker.FreshMeansContained` | sidecar/cursor_chat.py:401-415 | a key is found after expiry exactly when it has an entry that is not due or belongs to the generation of an open scan |
| `Broker.ExpireStep` | sidecar/cursor_chat.py:401-415 | removing expired keys one at a time gives the surviving selection |
| `Broker.SurvivorsOk` | sidecar/cursor_chat.py:401-415 | what expiry leaves keeps the whole cache invariant, also when it opens a generation |
| `Broker.RenewedOk` | sidecar/cursor_chat.py:539-553 | renewing an entry keeps the whole cache invariant: nothing gets heavier and a pinned cache stays pinned |
| `Broker.DropUnpinnedMore` | sidecar/cursor_chat.py:470-486 | evicting the first unpinned entry of what is left is evicting one more |
| `Broker.DropUnpinnedSpares` | sidecar/cursor_chat.py:470-486 | eviction spares every entry of the generation of an open scan and keeps the order |
| `Broker.DropUnpinnedOldest` | sidecar/cursor_chat.py:470-486 | nothing newer than an evictable entry that stays is evicted |
| `Broker.DropUnpinnedIsDrop` | sidecar/cursor_chat.py:470-495 | with nothing pinned, evicting unpinned entries is dropping the oldest |
| `Broker.LastOneLasts` | sidecar/cursor_chat.py:470-489 | oldest first, a newly stored entry evicts itself exactly if it is heavier than the soft bound |
| `Broker.SnapshotBroker.constructor` | sidecar/cursor_chat.py:306-399 | a new broker over any source history is empty and satisfies the invariant |
| `Broker.SnapshotBroker.RemoveEntry` | sidecar/cursor_chat.py:417-427 | removes exactly that key and keeps the byte counter exact, so the clamp never bites |
| `Broker.SnapshotBroker.Expire` | sidecar/cursor_chat.py:401-415 | an entry stays exactly if it is not due, or a scan is open and it belongs to its generation; the order is kept and the byte counter stays exact |
| `Broker.SnapshotBroker.TrimSoft` | sidecar/cursor_chat.py:491-495 | drops the least number of oldest entries that brings both soft bounds back, never reading an empty dictionary |
| `Broker.SnapshotBroker.EvictUnpinned` | sidecar/cursor_chat.py:470-486 | evicts the least number of oldest evictable entries, spares every entry of the generation of an open scan, and stays over soft only if a scan is open and all the rest is of its generation |
| `Broker.SnapshotBroker.MakeRoom` | sidecar/cursor_chat.py:452-458 | drops the least number of oldest entries so that the new one fits under both hard ceilings |
| `Broker.SnapshotBroker.Store` | sidecar/cursor_chat.py:435-489 | keeps the whole cache invariant; another generation inserts nothing, an oversized state only loses its old entry, any other goes in as newest after the least hard and soft evictions; it reports success exactly if the entry fits and a scan is open or it fits the soft bound alone |
| `Broker.SnapshotBroker.EnterScan` | sidecar/cursor_chat.py:564-578 | only the outermost scan opens a generation; what stays are exactly the entries that are not due or belong to it; the invariant is kept |
| `Broker.SnapshotBroker.ExitScan` | sidecar/cursor_chat.py:580-596 | only the outermost exit expires and trims, by the least amount; an exit without a scan does nothing; the invariant is kept |
| `Broker.SnapshotBroker.PinEntry` | sidecar/cursor_chat.py:539-553 | the entry is renewed, joins the generation and becomes the newest; nothing else changes |
| `Broker.SnapshotBroker.Pin` | sidecar/cursor_chat.py:608-618 | true exactly when the key has an entry that is not due or of the generation of an open scan, and then it is renewed |
| `Broker.SnapshotBroker.TrySnapshot` | sidecar/cursor_chat.py:628-699 | a hit exactly when the key has an entry that is not due or of the generation of an open scan, and then what a direct read of the source at that key decodes to; otherwise join, refuse a source over the file limits or the byte budget, lead with one reservation or wait, each under its exact condition; waiting implies an outstanding flight |
| `Broker.SnapshotBroker.Enlist` | sidecar/cursor_chat.py:662-680 | a new flight holds exactly one reservation, and the bounds on flights and reserved bytes are kept |
| `Broker.SnapshotBroker.Release` | sidecar/cursor_chat.py:525-537 | the reservation comes back once, only for the registered flight itself; reserved bytes stay flights times the reservation |
| `Broker.SnapshotBroker.Settle` | sidecar/cursor_chat.py:512-537 | the flight leaves, its followers get this outcome, and every issued flight is registered or settled |
| `Broker.SnapshotBroker.Fail` | sidecar/cursor_chat.py:512-523 | the flight is settled with the error and its reservation returned |
| `Broker.SnapshotBroker.Publish` | sidecar/cursor_chat.py:719-732 | the state is stored as `Store` says, is in the cache afterwards unless it is too heavy or its generation is over, and is delivered to the followers; the reservation is returned |
| `Broker.SnapshotBroker.PublishInterrupted` | sidecar/cursor_chat.py:713-735 | a publication that raises half-way leaves the invariant intact and the flight registered |
| `Broker.SnapshotBroker.Recover` | sidecar/cursor_chat.py:733-744 | takes back the published entry only if it is its own, then fails the flight |
| `Broker.SnapshotBroker.Reset` | sidecar/cursor_chat.py:784-804 | empties the cache, keeps flights and reservations, and makes every flight in progress belong to an older generation |
| `Broker.SnapshotBroker.Load` | sidecar/cursor_chat.py:701-732 | a leader reads the source by the stable copy and publishes only what a direct read at the published signature gives, which is then in the cache unless it is too heavy; a readable source that holds still is published under its signature; a publication that raises leaves the flight registered and adds at most its own entry; a flight of an old generation inserts nothing |
| `Broker.SnapshotBroker.LoadAndPublish` | sidecar/cursor_chat.py:701-745 | a leader settles its flight once on every path, failed publication included, by a state that is the decode of the source at the published signature or by an error; after an error nothing it stored is left; a readable source that holds still gives a state |
| `Broker.SnapshotBroker.Collected` | sidecar/cursor_chat.py:694-699 | what a follower gets from a settled flight is what a direct read at the delivered signature gives |
| `Broker.SnapshotBroker.Run` | sidecar/cursor_chat.py:401-804 | for every source history and every run of scans, pins, lookups, loads, failures, interrupted publications and resets: each action has its effect, the invariant holds at every step, everything a caller receives is what a direct read at that signature gives, both hard ceilings hold, and the soft ones unless an open scan owns every entry; reserved bytes are flights times the reservation |
| `Follower.PrefixHashInjective` | sidecar/cursor_chat.py:1657-1661 | the hash over concatenated fixed-size ids determines the list of ids |
| `Follower.LcpBounds` | sidecar/cursor_chat.py:2001-2004 | the computed length is a common prefix |
| `Follower.LcpLongest` | sidecar/cursor_chat.py:2001-2004 | no common prefix is longer |
| `Follower.EmitAppendExact` | sidecar/cursor_chat.py:1909-1933 | an append poll sends exactly the lesser of the cap and what is owed, as a contiguous block, and pending means that something is still owed |
| `Follower.MatchMeansPrefix` | sidecar/cursor_chat.py:1978-1993 | the prefix hash matches exactly when the old cursor is a prefix of the new history |
| `Follower.AdvanceFromCommonPrefix` | sidecar/cursor_chat.py:1978-2011 | sending starts at the longest common prefix of the old cursor and the new history |
| `Follower.PollKeepsTracking` | sidecar/cursor_chat.py:1935-2025 | after every poll, one left by an escaping exception included, the cursor names a prefix of the newest history it has taken in and its hash matches; a failed poll keeps the old one |
| `Follower.PollEmitsFromCommonPrefix` | sidecar/cursor_chat.py:1909-2011 | the durable records of a successful poll are the block of the new history from the longest common prefix on, exactly the lesser of the cap and what is owed is sent, and the cursor stands behind it; a history that only grew needs no old root, so restored followers are covered |
| `Follower.PollRecords` | sidecar/cursor_chat.py:1822-1933 | the records of a poll one by one: the messages behind the common prefix in order, with the root and the time that `historical` decides, and last the provisional message exactly when it changed and the cap leaves room |
| `Follower.HistoricalMeansStood` | sidecar/cursor_chat.py:1994-2008 | over any run a message counts as there from the start as long as the follower was not moved back over its place |
| `Follower.OriginalMessages` | sidecar/cursor_chat.py:1968-2008 | of a follower from the start these are the messages of its first poll |
| `Follower.StampsOfRun` | sidecar/cursor_chat.py:1822-1846 | each record of any later poll carries the creation time of the session exactly when the state has one and the message stands where the first poll had one, at a place the follower was never moved back over; else the time of its poll |
| `Follower.FirstPollAnchors` | sidecar/cursor_chat.py:1968-1975 | the first poll of a follower that does not start from the beginning sends nothing and stands behind everything |
| `Follower.PollIsBounded` | sidecar/cursor_chat.py:1909-2011 | no poll of any kind sends more than the cap |
| `Follower.AppendOnlySendsEachOnce` | sidecar/cursor_chat.py:1935-2025 | over an append-only history, whatever fails or is skipped, each message is sent exactly once, in order, without gap or reset, by a restored follower too |
| `Follower.AnchoredSendsTheRest` | sidecar/cursor_chat.py:1935-2025 | over an append-only history such a follower sends exactly the messages behind those of its first successful poll, each once and in order |
| `Follower.RestartsSendEachOnce` | sidecar/cursor_chat.py:1707-2025 | the same however often the follower is exported and restored in between, and whatever moves during a poll |
| `Follower.PendingClearsOnTime` | sidecar/cursor_chat.py:1909-1933 | over a source that stopped changing, k polls send the lesser of what was owed and k times the cap, and pending is clear exactly when that is all |
| `Follower.PollKeepsMemory` | sidecar/cursor_chat.py:1935-1967 | a remembered signature without pending records means that the cursor is caught up, exactly when: the poll read; or did nothing, and it did before; or was left by an exception from the old root, and the signature moved or records were pending |
| `Follower.EscapeSilences` | sidecar/cursor_chat.py:1956-1989 | after a poll left by such an exception with a steady signature, the follower is silent in every poll for as long as the source keeps that signature |
| `Follower.EscapeOwes` | sidecar/cursor_chat.py:1956-2011 | although a poll of the same state with the old root at hand would move it and send whatever is new |
| `Follower.SkipRefinesFullPoll` | sidecar/cursor_chat.py:1935-1967 | a poll that skips on a truthful memory could as well have read the state that its signature names: it would have sent nothing and left the cursor where it is |
| `Follower.ResetsExactlyWhenLost` | sidecar/cursor_chat.py:1978-2011 | a reset is sent if and only if the history was rewritten and the old one is neither in memory nor readable; it is then all that is sent and the cursor is caught up |
| `Follower.RestoreAcceptsExport` | sidecar/cursor_chat.py:1707-1789 | restore accepts an export if and only if its text plus 17 bytes fits the limit; it does for every ordinary path length |
| `Follower.RefusedExports` | sidecar/cursor_chat.py:1707-1765 | a new follower's export succeeds and is refused by restore if and only if its path takes 16142 to 16158 bytes as JSON text |
| `Follower.ExportThatCannotBeRestored` | sidecar/cursor_chat.py:1707-1735 | an absolute path of 2700 characters, with names that a file system allows, for which that happens |
| `Follower.RestoredStandsWhereExported` | sidecar/cursor_chat.py:1707-1789 | a restored checkpoint is exported again unchanged, and puts the follower where its exporter was |
| `Follower.SilentWithoutNews` | sidecar/cursor_chat.py:1909-2011 | a poll that finds its place sends nothing if and only if there is no unsent message and no changed provisional one |
| `Follower.RestoredPollAgrees` | sidecar/cursor_chat.py:1935-2011 | one poll after an export, for every observation: original and restored follower send the same if and only if the poll is not one that the original skips over news, nor one of a rewritten history whose old root cannot be read (with the exact exceptions, by what that read raises) |
| `Follower.ReadingTogetherMerges` | sidecar/cursor_chat.py:1968-2011 | one poll that both followers read makes them identical, so that every later run is the same with nothing asked of the source |
| `Follower.BisimilarPoll` | sidecar/cursor_chat.py:1898-2011 | two bisimilar followers send the same records in one poll and stay bisimilar; the source has to hold still only if one of them skips; what the signatures around a poll have to enclose is `Sightings.CoherentUnlessLogCameAndWent` |
| `Follower.BisimilarRuns` | sidecar/cursor_chat.py:1898-2011 | they send the same in every later run that is sheltered up to the first poll both read; after it anything may happen |
| `Follower.ReachableCursors` | sidecar/cursor_chat.py:1935-2025 | every cursor reachable by polls tracks a history, and remembers truthfully if and only if the last poll that decided it did not lose it |
| `Follower.MemoryStaysTrue` | sidecar/cursor_chat.py:1935-2025 | in particular when no read of an old root raises anything but a chat error |
| `Follower.CheckpointRoundTrip` | sidecar/cursor_chat.py:1707-1789 | after any history that left a truthful memory, a follower restored from an accepted export sends in every later run exactly what the original would; the source has to hold still only in polls that the original skips, and the place has to be known, only until the first poll that both read |
| `Follower.PollKeepsStep` | sidecar/cursor_chat.py:1898-2025 | for every observation, one poll sends the same for two followers at one place and leaves them at one place if and only if, when only one reads, it is caught up or gives up without a reset, and when both read, both find their place or neither does |
| `Follower.LockstepIffStepKept` | sidecar/cursor_chat.py:1898-2025 | two followers at one place, such as an original and its restored copy, go through a run in lockstep if and only if every poll keeps their step; then they send the same |
| `Follower.MergedStaysInStep` | sidecar/cursor_chat.py:1898-2025 | once they are the same, every poll keeps their step, whatever the source does |
| `Follower.CursorChatFollower.constructor` | sidecar/cursor_chat.py:1667-1702 | a new follower stands at the empty prefix |
| `Follower.CursorChatFollower.SendAppend` | sidecar/cursor_chat.py:1909-1933 | the sending loop computes the specified block and cursor, whose records `Follower.PollRecords` describes |
| `Follower.CursorChatFollower.AnchorAt` | sidecar/cursor_chat.py:1791-1797 | anchoring puts the cursor behind the whole history |
| `Follower.CursorChatFollower.PollOnce` | sidecar/cursor_chat.py:1935-2025 | the object's poll is the specified one; a chat error changes nothing but the last error; any other exception leaves the method without a rollback and with the last error as it was |
| `Follower.CursorChatFollower.RestoreCheckpoint` | sidecar/cursor_chat.py:1724-1789 | accepts exactly the acceptable checkpoints; an accepted one is what the follower exports from then on, with nothing pending or remembered; a refused one changes nothing |
| `CheckpointText.SizesAreOfTexts` | sidecar/cursor_chat.py:1707-1778 | the sizes compared with the limit by export and restore are the lengths of the compact and of the spaced JSON text of the checkpoint |
| `CheckpointText.QuotedBytes` | sidecar/cursor_chat.py:1719 | a path takes as many bytes as its JSON string, escapes and surrogate pairs included |
| `Sightings.AgreeingStatsEncloseRead` | sidecar/cursor_chat.py:1942-1960 | when the signatures around a poll agree, the state it got, by its own read, from the cache or from another caller's load, is of the same database, and of the same log if the signatures show one |
| `Sightings.CoherentUnlessLogCameAndWent` | sidecar/cursor_chat.py:1942-1960 | a poll saw the state that its two agreeing signatures name if and only if they show a log, or the read saw none, or the log that came and went changes nothing in what is decoded |
| `Sightings.LogThatCameAndWent` | sidecar/cursor_chat.py:1942-1960 | a history of three writes over which a poll remembers a signature whose state it did not see |
| `Sightings.CheckpointRoundTripOverHistory` | sidecar/cursor_chat.py:1707-1789 | the checkpoint round trip over one history of the source, its hypotheses on the past derived from that history |
| `Protobuf.BoundIsTwoTo64` | sidecar/cursor_chat.py:1055-1067 | the decoder's range is 2^64 |
| `Protobuf.VarintRoundTrip` | sidecar/cursor_chat.py:1055-1067 | decoding undoes the canonical encoding of every value below 2^64, which has at most ten bytes, whatever follows |
| `Protobuf.VarintShortest` | sidecar/cursor_chat.py:1055-1067 | no accepted encoding of a value is shorter than the canonical one |
| `Protobuf.VarintLocal` | sidecar/cursor_chat.py:1055-1067 | a decoded varint does not depend on what follows it |
| `Protobuf.VarintAccepts` | sidecar/cursor_chat.py:1055-1067 | which bytes are a varint, and that the error is truncation exactly when the bytes end too early |
| `Protobuf.OrIsSum` | sidecar/cursor_chat.py:1055-1067 | for values below the next seven bits, as the loop's are, the bitwise or of the code is a sum |
| `Protobuf.ReadVarint` | sidecar/cursor_chat.py:1055-1067 | the loop computes the recursive definition, its errors included; running through all ten bytes is unreachable |
| `Protobuf.FieldRoundTrip` | sidecar/cursor_chat.py:1070-1140 | reading a field undoes encoding it, for every wire type |
| `Protobuf.ReadsExactlySpellings` | sidecar/cursor_chat.py:1080-1114 | a field is read exactly where a spelling, canonical or not, of a well-formed field begins: its number in range, fields 1, 4 and 9 length-delimited |
| `Protobuf.RefusedFields` | sidecar/cursor_chat.py:1086-1114 | for a field whose key could be read, what is wrong with it under each error |
| `Protobuf.ReadFieldLocal` | sidecar/cursor_chat.py:1070-1140 | a read field does not depend on what follows it |
| `Protobuf.ParseRoundTrip` | sidecar/cursor_chat.py:1070-1140 | parsing undoes encoding for every list of well-formed fields |
| `Protobuf.ParseConcat` | sidecar/cursor_chat.py:1070-1140 | glued messages have the fields of both, or fail as the second one does |
| `Protobuf.ScanFromIsParse` | sidecar/cursor_chat.py:1070-1140 | the one-pass scan accepts exactly the parsable messages within the limits, gathers references in order and the last field 4 and 9, and never trips the total payload check |
| `Protobuf.ScanStops` | sidecar/cursor_chat.py:1070-1140 | a refused scan reports what is wrong at the first place where something is; all before it is a message within the limits |
| `Protobuf.ScanInvertsEncoding` | sidecar/cursor_chat.py:1070-1140 | scanning the encoding of any well-formed field list within limits returns its references in order and its last field 4 and 9 |
| `Protobuf.ScanFinds` | sidecar/cursor_chat.py:1115-1140 | every field 1 is found at its place among the references, and the last field 4 and 9 are what the scan returns |
| `Protobuf.ScanInvents` | sidecar/cursor_chat.py:1115-1140 | and nothing else is: as many references as fields 1, nothing for a field 4 or 9 that is not there |
| `Protobuf.ScanMerges` | sidecar/cursor_chat.py:1070-1140 | scanning two glued messages merges their scans, the last one winning |
| `Protobuf.NextField` | sidecar/cursor_chat.py:1080-1136 | one turn of the scanner's loop reads the specified field or raises the specified error |
| `Protobuf.ScanRoot` | sidecar/cursor_chat.py:1070-1140 | the loop over a position computes the specified scan, errors included |
| `JsonLimits.UnfoldingIsUnique` | sidecar/json_limits.py:144-211 | a value unfolds into at most one tree |
| `JsonLimits.UnfoldingHasNoCycle` | sidecar/json_limits.py:213-218 | a value with a finite unfolding reaches no cycle |
| `JsonLimits.UnfoldsIffAcyclic` | sidecar/json_limits.py:213-218 | a value has a finite unfolding exactly when no cycle is reachable, sharing allowed |
| `JsonLimits.PositionsCount` | sidecar/json_limits.py:188-203 | a tree has as many positions as nodes |
| `JsonLimits.ItemPositionsCount` | sidecar/json_limits.py:188-203 | and as many positions that are not keys or the root as items |
| `JsonLimits.AcceptsByPosition` | sidecar/json_limits.py:144-228 | the recursive definition without trees: no reachable cycle, at every position a legal value within its limit and a text for a key, no position longer than the depth limit, not more positions than nodes nor more item positions than items allowed |
| `JsonLimits.VisitFindsTree` | sidecar/json_limits.py:144-211 | a successful walk under limits has found a legal tree with exactly the counted items and nodes |
| `JsonLimits.VisitOfTree` | sidecar/json_limits.py:144-211 | a legal tree is walked with success, and every finite tree is without limits, never meeting an active container |
| `JsonLimits.VisitDecides` | sidecar/json_limits.py:144-228 | acceptance by the recursive definition can be read off the walk's totals |
| `JsonLimits.SpineIsPath` | sidecar/json_limits.py:154-165 | the entered containers and the next value are a path from the root |
| `JsonLimits.PushChildren` | sidecar/json_limits.py:188-209 | pushing children keeps the stack linked and adds exactly their totals and steps |
| `JsonLimits.EnterStep` | sidecar/json_limits.py:188-209 | replacing a container by its children and a leaving mark conserves the totals and shortens the walk |
| `JsonLimits.LeavingKeepsProgress` | sidecar/json_limits.py:156-159 | a leaving mark always finds its container in the active set, so the removal never fails |
| `JsonLimits.EnteringKeepsProgress` | sidecar/json_limits.py:188-228 | entering keeps the active set equal to the path and counted plus waiting equal to the whole, under limits and without |
| `JsonLimits.StoppingMeansRejecting` | sidecar/json_limits.py:160-228 | each reason to stop makes the whole value unacceptable |
| `JsonLimits.TooMany` | sidecar/json_limits.py:220-228 | a count beyond its limit is beyond it in every unfolding of the value |
| `JsonLimits.CycleFound` | sidecar/json_limits.py:213-218 | meeting an active container means a reachable cycle |
| `JsonLimits.PushAll` | sidecar/json_limits.py:188-209 | pushes all children in order, or finds a key that is not text, exactly when there is one |
| `JsonLimits.Expand` | sidecar/json_limits.py:156-211 | one iteration keeps the loop's invariant and progress, or stops for a true reason |
| `JsonLimits.ValidateJson` | sidecar/json_limits.py:144-228 | ends on every finite graph; accepts if and only if the value unfolds into a tree within all limits with legal keys and leaves; every complaint is true: depth, key, leaf and cycle ones have a path from the root that shows it, item and node ones hold of every unfolding |
| `DaemonLog.LinesAre` | sidecar/daemon_log.py:537-549 | lines are the newline-free sequences with a newline behind them |
| `DaemonLog.GatherRename` | sidecar/daemon_log.py:455-475 | renaming into a free slot changes nothing about what is read |
| `DaemonLog.ShiftStep` | sidecar/daemon_log.py:455-468 | one rename or unlink of the rotation, gaps included, loses at most the oldest file |
| `DaemonLog.RetireStep` | sidecar/daemon_log.py:469-474 | the last rename completes a shift of every file by one slot |
| `DaemonLog.SoundGrows` | sidecar/daemon_log.py:116-122 | a partial write leaves whole lines and one torn line behind them |
| `DaemonLog.SoundCommits` | sidecar/daemon_log.py:116-122 | the write that makes a line whole extends the contiguous suffix by it |
| `DaemonLog.Glued` | sidecar/daemon_log.py:589-600 | what is written behind a torn line makes one line with it |
| `DaemonLog.EndOfLines` | sidecar/daemon_log.py:310-343 | the last newline separates the whole lines from the torn one |
| `DaemonLog.GatherJoins` | sidecar/daemon_log.py:310-343 | without torn lines the bytes read are those of the lines |
| `DaemonLog.OnlyCurrentGrew` | sidecar/daemon_log.py:596-609 | truncating to the old size undoes whatever the write did |
| `DaemonLog.RotatingLog.constructor` | sidecar/daemon_log.py:128-163 | a new log has an empty, sound directory |
| `DaemonLog.RotatingLog.Rename` | sidecar/daemon_log.py:463-474 | one `os.replace` overwrites at most the oldest file and keeps the directory sound, torn tails included |
| `DaemonLog.RotatingLog.ShiftBackups` | sidecar/daemon_log.py:454-468 | wherever it stops, the directory is sound and at most the oldest file is lost |
| `DaemonLog.RotatingLog.Rotate` | sidecar/daemon_log.py:441-487 | at every stop the survivors are a contiguous ordered suffix; with a backup only the oldest file may be lost; the current file is let go as a whole or untouched; when it completes every file has moved up one slot and the current one is empty |
| `DaemonLog.RotatingLog.WriteAll` | sidecar/daemon_log.py:116-122 | for every split of the write the line is whole and committed, or a proper prefix of the record is torn |
| `DaemonLog.RotatingLog.WriteRecord` | sidecar/daemon_log.py:589-612 | acknowledged means committed; a failed write whose truncation works leaves the files as they were; a crash or an interrupt leaves the record whole or torn; it succeeds when the system does its part |
| `DaemonLog.RotatingLog.Append` | sidecar/daemon_log.py:537-612 | under any faults the record is whole or torn, acknowledged only if committed and synced, as one line with what an interrupt had left torn before it; only a file without room for it is rotated, losing at most the oldest; too long a record or a lost descriptor disables; without faults the record is acknowledged; and without interrupts nothing is ever glued |
| `DaemonLog.RotatingLog.Stop` | sidecar/daemon_log.py:551-563 | a failure disables the log, a crash closes it, an interrupt leaves it open, with its descriptor if the current name is still there |
| `DaemonLog.RotatingLog.ValidateLines` | sidecar/daemon_log.py:310-332 | the scan accepts exactly when every complete line is a valid record |
| `DaemonLog.RotatingLog.Repair` | sidecar/daemon_log.py:310-343 | accepts exactly a file whose complete lines are records and whose torn suffix is shorter than a line, and removes that suffix |
| `DaemonLog.RotatingLog.Open` | sidecar/daemon_log.py:345-392 | succeeds if and only if the current file is acceptable and the steps that it needs get through, without losing a line; what crashes and failures leave always is acceptable, and then the bytes on disk are a contiguous suffix of the committed records |
| `DaemonLog.RotatingLog.GoOn` | sidecar/daemon_log.py:581-600 | after an interrupt that left the log open, the next acknowledged record leaves a file that the next open accepts if and only if nothing was torn where it was written, or the torn bytes and the record make a record together |
| `DaemonLog.RotatingLog.GoOnAndReopen` | sidecar/daemon_log.py:310-612 | and so the restart after it |
| `DaemonLog.RotatingLog.Live` | sidecar/daemon_log.py:345-612 | in every life of appends, interrupts, crashes and reopenings, the committed lines are the acknowledged records, in order, plus at most one per append that was cut short, each behind what was torn before it, and the directory is sound at every point; without interrupts nothing is glued and every open is accepted; and if the system works and the log is reopened after each death, every record is acknowledged |
| `KimiAcp.AcpDriver.constructor` | sidecar/kimi_acp.py:1326-1335 | a run starts at the beginning of the itinerary |
| `KimiAcp.AcpDriver.Notification` | sidecar/kimi_acp.py:799-827 | accepts exactly valid session updates that fit the response bound, and counts their text |
| `KimiAcp.AcpDriver.ReverseRequest` | sidecar/kimi_acp.py:829-861 | goes on if and only if a valid permission request under a new id gets its reply out whole; then one write was made and the id is recorded; any other request of the child ends the run under its code |
| `KimiAcp.AcpDriver.Consume` | sidecar/kimi_acp.py:736-782 | goes on exactly after an update that fits and a permission request that could be refused; returns an envelope exactly if it is the pending, uncompleted result that is waited for, completing it once; reports a busy session exactly when the answer to the prompt says so |
| `KimiAcp.AcpDriver.AwaitResult` | sidecar/kimi_acp.py:720-724 | ends with the expected result, exactly once, or under a code that the last line accounts for; a result behind updates and permission requests is found |
| `KimiAcp.AcpDriver.Ask` | sidecar/kimi_acp.py:697-719 | the request goes out once unless its id was used; each boundary or failure of the write has its code |
| `KimiAcp.AcpDriver.Request` | sidecar/kimi_acp.py:697-724 | one request, one accepted result, in itinerary order; a result that fails its check ends the run under the code of that check |
| `KimiAcp.AcpDriver.WritePrompt` | sidecar/kimi_acp.py:1402-1424 | the one write of the prompt: it is complete exactly if the pipe takes it whole, and the phase follows the boundary that was reached, also when the write raises |
| `KimiAcp.AcpDriver.Prompt` | sidecar/kimi_acp.py:1395-1431 | the callback precedes the only prompt write, and its failure prevents it; a failure is a busy one exactly when the last line says so |
| `KimiAcp.AcpDriver.Drain` | sidecar/kimi_acp.py:1433-1444 | after the answer only harmless lines are accepted, and nothing is completed |
| `KimiAcp.AcpDriver.Converse` | sidecar/kimi_acp.py:1337-1449 | no fault means a settled prompt and an observed exit; a busy failure is one of a written prompt whose last line says so |
| `KimiAcp.AcpDriver.Run` | sidecar/kimi_acp.py:1290-1533 | for every child and pipe: the itinerary is followed and every phase rests on results that passed; prompt boundary and stop reason match the phase, and the boundary is what the write or the cleanup reached; the error is that of the spawn, of an incomplete cleanup, of the conversation or of the exit, in that order, so none only for a settled prompt with clean exit zero, and a non-zero or unclean exit is reported; a busy rejection is definitive exactly when the child answered so and the proof was given; a child that plays along, with any updates and permission requests in between, gets a run without error |
| `KimiAcp.PromptComesLast` | sidecar/kimi_acp.py:1345-1431 | on the itinerary the prompt is tried at most once, behind four requests each answered exactly once in order and behind the callback |
| `Bus.DropFromMiddle` | sidecar/bus.py:76-80 | evicting the oldest queued event keeps delivered followed by queued in order |
| `Bus.BurstKeepsLatest` | sidecar/bus.py:64-86 | without a consumer a burst leaves exactly the latest events that the queue holds, and counts all others as dropped |
| `Bus.Subscription.constructor` | sidecar/bus.py:42-54 | a new subscription is empty, open and valid |
| `Bus.Subscription.Offer` | sidecar/bus.py:64-76 | filtered or late events change nothing; a selected one is queued or leaves the offer evicting |
| `Bus.Subscription.OfferEvict` | sidecar/bus.py:77-81 | loses at most the oldest event and counts one drop |
| `Bus.Subscription.OfferRetry` | sidecar/bus.py:82-86 | the second put always finds room and queues the offered event |
| `Bus.Subscription.Finish` | sidecar/bus.py:88-97 | closes once, putting the sentinel if there is room |
| `Bus.Subscription.FinishEvict` | sidecar/bus.py:98-101 | a close loses at most one event |
| `Bus.Subscription.FinishRetry` | sidecar/bus.py:102-105 | the sentinel is put exactly once, with nothing behind it |
| `Bus.Subscription.Get` | sidecar/bus.py:107-113 | the consumer gets the oldest item; an event is the accepted one of that number, the sentinel ends the queue |
| `Bus.Subscription.OfferUninterrupted` | sidecar/bus.py:64-86 | without interleaving, events lost equal drops counted |
| `Bus.Subscription.Interleave` | sidecar/bus.py:64-113 | under every interleaving of offers, closes and the consumer each operation has its effect, the invariant holds, and what was received is an in-order selection of what was accepted |
| `Framer.FramesCoverStream` | sidecar/client.py:252-303 | glued together the frames are the stream up to its end or its first bad frame; a frame has no newline but at its end, and only the last of a closed stream lacks one |
| `Framer.BufferDecides` | sidecar/client.py:258-279 | a buffered beginning with a newline, or longer than the limit, decides the first frame of the whole stream |
| `Framer.FrameReader.constructor` | sidecar/client.py:620-636 | a new reader has received nothing |
| `Framer.FrameReader.Recv` | sidecar/client.py:280-302 | every read asks for at least one byte and keeps the buffer within the limit plus one |
| `Framer.FrameReader.ReadResponse` | sidecar/client.py:252-303 | a returned frame is the first frame of the rest of the stream; an error is true of it |
| `Framer.FrameReader.Subscribe` | sidecar/client.py:644-653 | for every cutting and every timeout the frames and the end are those of the stream; only the canceller or a failing read cuts them short, and with a read for every byte and two for the end it gets there |
| `Archive.AddedLookup` | sidecar/archive.py:276-306 | after archiving, a known session keeps its entry and a new one has the current time |
| `Archive.WithoutLookup` | sidecar/archive.py:370-373 | releasing removes exactly the released sessions |
| `Archive.AddedKeepsDistinct` | sidecar/archive.py:121-139 | archiving never creates a second entry for a session |
| `Archive.PartitionDealsOut` | sidecar/archive.py:331-377 | every row is on exactly one side, each side in the original order |
| `Archive.StaleTargets` | sidecar/archive.py:156-175 | the selected targets are exactly those of the stale rows |
| `Archive.ReleasedMembers` | sidecar/archive.py:349-368 | the released targets are exactly those with activity after their archive time |
| `Archive.ScanOfSession` | sidecar/daemon.py:654-679 | what one scan, with its two clock readings, does to the entry of each session |
| `Archive.ScanVerdict` | sidecar/daemon.py:654-679 | a scan hides a session exactly when it leaves an entry for it |
| `Archive.ScanHidesExactly` | sidecar/daemon.py:654-679 | a scan hides a session with an entry exactly up to activity after its archive time, and one without exactly if it is idle or dead and has been for the threshold |
| `Archive.BusyStaysVisible` | sidecar/archive.py:156-175 | under the cap or over it and whatever fails, a session without an identity, or working or waiting and without an entry, is never hidden |
| `Archive.OneScanHidesUnlessReleased` | sidecar/archive.py:349-368 | one scan hides a stale session if and only if it does not have to release it first |
| `Archive.JustArchivedIsHidden` | sidecar/daemon.py:666-674 | a session just archived is hidden by the same scan, not released |
| `Archive.ActivityReleases` | sidecar/archive.py:360-368 | activity after the archive time makes a session visible at the next scan |
| `Archive.SecondScanFits` | sidecar/archive.py:425-429 | a scan leaves room for the next one: what fitted beside the old registry fits beside the new one |
| `Archive.TwoScansSettle` | sidecar/daemon.py:654-679 | whenever the registry has room for the stale sessions, two scans of one snapshot at any two times hide every session stale at the second, and a third changes nothing unless something went stale since |
| `Archive.SettledScan` | sidecar/daemon.py:654-679 | a scan with nothing to archive or release leaves everything as it is |
| `Archive.HiddenHaveEntries` | sidecar/archive.py:331-377 | no more sessions are hidden than the registry has entries |
| `Archive.SurplusStaysVisible` | sidecar/archive.py:425-429 | with more stale sessions than the cap, every scan leaves exactly the surplus visible, and its registry is one for which the next scan does the same |
| `Archive.OneScanIsNotEnough` | sidecar/archive.py:360-368 | a stale session that one scan leaves visible |
| `Archive.FailureHidesNothing` | sidecar/daemon.py:666-679 | whichever load or store of the registry fails, the scan hides nothing; otherwise it is the scan without faults |
| `Archive.FailsExactly` | sidecar/daemon.py:664-679 | a scan fails exactly for a threshold out of range, a stale session without an identity, and where it needs a load or store of the registry that fails |
| `Archive.RetryRecovers` | sidecar/daemon.py:654-679 | after a failed scan the same scan tried again gives what it would have given at once |
| `Archive.RetainedKeepsNewest` | sidecar/archive.py:425-429 | over the cap exactly the surplus is dropped, and nothing dropped is newer than anything kept |
| `Archive.RetainedOfOneTime` | sidecar/archive.py:425-429 | of the entries of one scan, which share its time, those listed last are kept |
| `Archive.RegistryStaysLoadable` | sidecar/archive.py:392-429 | whatever is scanned and whatever fails, the registry stays within the cap and without duplicates, as loading demands |
| `Archive.ArchiveStore.Archive` | sidecar/archive.py:276-306 | the loop adds exactly the new targets, in order, under the cap; a failing load or store changes nothing and is reported under its exact condition |
| `Archive.ArchiveStore.Split` | sidecar/archive.py:331-377 | the loop computes the specified partition and releases; a failing load or store changes nothing |
| `Archive.ArchiveStore.SelectArchivable` | sidecar/archive.py:156-175 | the loop selects exactly the stale rows, in order |
| `Archive.ArchiveStore.ApplyArchive` | sidecar/daemon.py:654-679 | one scan, with its two clock readings and any failure of the registry, computes the specified view |
| `WatchMerge.TakeOne` | sidecar/cli.py:2839-2852 | taking an entry keeps a source's output equal to the events it has been relieved of |
| `WatchMerge.InOrder` | sidecar/cli.py:2836-2913 | the output of a source is an initial part of its events, and all of them once it has ended |
| `WatchMerge.Merge.constructor` | sidecar/cli.py:2833-2835 | nothing put, taken or written yet |
| `WatchMerge.Merge.Arrive` | sidecar/cli.py:2378-2389 | a producer puts as many as fit under the capacity, and waits when the queue is full |
| `WatchMerge.Merge.Choose` | sidecar/cli.py:2585-2604 | a source that is waiting at the cursor is chosen; nothing is chosen only if nothing was waiting and nothing came during the waits |
| `WatchMerge.Merge.Await` | sidecar/cli.py:2594-2604 | a wait on a queue finds something exactly if it is there afterwards, and is left out when nothing can come |
| `WatchMerge.Merge.Serve` | sidecar/cli.py:2846-2913 | one entry is taken and acted upon, the turn passes, and fairness is kept |
| `WatchMerge.Merge.Round` | sidecar/cli.py:2836-2913 | an iteration that finds something waiting serves exactly one entry |
| `WatchMerge.Merge.Drain` | sidecar/cli.py:2833-2922 | per source the output is its events in order, complete when the loop ends, which it does only with every producer done and both queues empty, and does within one round per entry while the producers feed their queues |

## Left out

- Statistics counters and peaks of the broker, and the waiting itself: a caller that must wait is a state in which `TrySnapshot` is called again.
- SQLite opening and schema checks, message decoding, titles and workspace URIs: one decode function of the copied content.
- Entry weights (`_retained_size`): arbitrary natural numbers.
- Follower.CursorChatFollower.RestoreCheckpoint: a checkpoint in the model is well typed and has all its keys, so the refusals of wrong types and unknown or missing keys are not modelled.
- Follower.CheckpointRoundTrip: gives conditions on the source that suffice; the exact condition for a run is Follower.LockstepIffStepKept, where lockstep means the same records and the same place after every poll, and the exact condition for equal records alone is stated for one poll.
- The follower's clock: it does not raise.  A clock that did would leave `poll` after the signature was remembered, as the read of the old root can.
- CheckpointText.SizesAreOfTexts: is stated for the kind `cursor_chat`, since a checkpoint of any other kind is refused before its text is measured.
- The temporary directory of a snapshot copy: it can always be made and protected.
- Paths that are not valid Unicode: the length of a path as JSON text is computed for sequences of Unicode scalar values.
- JSON parsing before validation (`parse_json`): the model starts from the value graph.
- JsonLimits.ValidateJson: which of several faults is met first is not specified.
- File permissions, inode identity, `flock`, `O_NOFOLLOW` and the durability that `fsync` gives: a completed step of the operating system is taken to last.
- Removal of surplus backups when the log is opened with a smaller backup count: the count is fixed in the model.
- The content of log records: a record is a line that the record check accepts.
- DaemonLog.RotatingLog.Stop: the error code that a disabled log reports is not modelled.
- The schema checks of the ACP driver: verdicts on the envelope; `KeyboardInterrupt` and `SystemExit`, which leave `run_kimi_acp` as exceptions; the cancel frame and bounded waiting of the cleanup, which are an observed result.
- KimiAcp.AcpDriver.WriteLine: a frame is its kind and id; the text that is written is not modelled.
- `EventBus.subscribe`, `unsubscribe` and the fan-out of `publish`: they only repeat the subscription's steps for a set of subscriptions.
- Framer.FrameReader.ReadResponse: decoding and validating a frame are one predicate, and the acknowledgement is read like any other frame.
- The text of the registry file, reasons, `unarchive` and archived row rendering: a load or store of the registry succeeds or fails as a whole.
- Archive.TwoScansSettle: is stated for a registry with room for the stale sessions of the snapshot; Archive.SurplusStaysVisible says what happens without it, for a snapshot of stale sessions only.
- The exit code and the messages of the watch, and its cancellation.
- `IncrementalIndex`, preview tokens, clustering, HTTP serving, adapters, remote transport, injection and the rest of the command line: easy members or input and output.
