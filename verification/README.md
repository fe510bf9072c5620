# A verified model of the matching engine and its gateway

The repository is a single-writer limit order book and matching engine behind a
two-thread gateway, with a write-ahead log, snapshots and an independent log
verifier. This project models those parts in Dafny 4.11 and proves what they
promise. `dafny verify dfyconfig.toml` checks all of it.

## How it is organised

One reference book underlies everything: `FlatBook` keeps each side as one list
in price-time priority, with no levels, no cached totals and no index. What
greedy price-time matching means is stated there once.

- `Levels`, `Digests`, `OrderBook`, `MatchingEngine`: the level vectors, the id
  index and the crossing loop, as classes proved against the reference book.
- `DigestLaws`: which books the fingerprint tells apart.
- `ThreadSpec`, `Ownership`, `Invariant`, `Ledger`: what each command does to the
  book and the six ownership maps, the invariant of every reachable state, and
  the conservation of quantities.
- `CommandLaws`: what each command means to the client who sends it, on the
  command's own fields.
- `Bits`, `ClientKeys`, `KeyCases`: exclusive-or on numbers, the packed index key,
  and what happens when two sessions share one.
- `Similarity`, `Restore`, `SessionReuse`, `MatchingThread`: timestamps never
  matter, snapshots restore, who owns what after a restart, and the matching thread
  as a class proved against `ThreadSpec`.
- `Crc32`, `CrcLaws`, `Codec`, `Wal`, `Snapshot`, `Protocol`, `FrameReader`,
  `Layouts`: bytes.
- `TornTail`: what a reader makes of bytes appended behind a torn record.
- `Durability`, `CrashRuns`, `CrashCases`: the disk, down to the bytes of the log,
  as steps with a crash allowed between any two and inside any append; the runs
  that lose nothing, and runs that do.
- `PriceQueues`, `VerifierSpec`, `VerifierCases`, `SimpleBook`, `VerifierLoad`: the
  independent verifier, and when it agrees with the engine.
- `Spsc`, `Waiter`, `Notifier`, `Tombstone`: the two-thread handshakes, in every
  interleaving of their atomic steps.

Quantities, ids, sequence numbers and timestamps are unbounded naturals; the
codecs state the machine widths. Clocks, sockets, pipes and files are modelled as
parameters, counts and byte sequences.

## Where the code does less than it says

Each of these is a property that is false of the code as it stands. The lemma
named shows the failing run, or the exact condition under which it holds.

- A limit order of quantity zero can leave the book crossed:
  `FlatBook.UncrossedAfterLimit`. The risk gate keeps such orders out.
- The packed key of two sessions can coincide, and then one session cancels the
  other's order: `ClientKeys.CollisionAcrossSessions`,
  `KeyCases.WrongOrderCancelled`, `Invariant.FindOrderIsScan`.
- A restored index differs when two live orders share an index key and the index
  does not name the last of them in book order: `Restoring.RestoreExactly`,
  `KeyCases.RestoreDiffers`.
- Session ids start over with every process, and restored orders keep their owner:
  a new connection is sent the fills of the orders that the previous connection
  with its number entered, can cancel them, and takes them along when it goes:
  `SessionReuse.PredecessorCancelled`, `SessionReuse.PredecessorFills`,
  `SessionReuse.PredecessorAnswered`.
- A log reopened after a torn write is appended to behind the torn bytes. Behind a
  cut in the length field nothing appended is ever read again: a command takes
  exactly 31 bytes, and no other length is accepted. Behind a cut in the last four
  bytes the checksum refuses the mixture, unless the missing bytes are those every
  record starts with; then the command that was never logged is replayed instead:
  `TornTails.BuriedExactly`, `CrashRuns.AppendCoveredExactly`,
  `CrashCases.LostBehindTornTail`, `CrashCases.RevenantReplayed`.
- A damaged newest snapshot is renamed over its intact predecessor:
  `CrashRuns.RenameCoveredExactly`, `CrashCases.LostBehindDamage`.
- The verifier keeps the location of an order filled by a market order, so a later
  cancel or modify under the same client id finds the wrong one; a modify even
  brings an order back that is gone: `VerifierSpec.ApplyAgreesExactly`,
  `VerifierCases.CancelDisagrees`, `VerifierCases.ModifyDisagrees`.
- Two books can differ in one price and share a digest:
  `DigestLaws.DigestsCollide`. Values that agree outside four consecutive bytes,
  so any two below 2^32, are always told apart: `DigestLaws.DigestTells`.
- A log whose first record is numbered 0 is read on without a numbering check; any
  other log is read exactly as far as it is one: `TornTails.ReadIsLog`.
- A refused cancel-all frees queues the matching thread still knows, and uses as
  soon as it has an event or a book update for the session:
  `Tombstones.FreedExactly`, `Tombstones.RefusedCancelAll`.
- A connection whose egress queue overflowed, whose tombstone found the queue full,
  whose cancel-all could not be logged, or whose session-open was refused is never
  destroyed: `Tombstones.LostExactly`, `Tombstones.OverflowNeverFreed`,
  `Tombstones.DroppedNeverFreed`.

docs/PROTOCOL.md (lines 167-172) says a modify that does not raise price or
quantity keeps its place in the queue; include/ome/matching_thread.hpp (lines
481-513) cancels and replaces every time, and the model follows the code.

## Model

| member | source | states |
|---|---|---|
| FlatBook.InsertAt | src/order_book.cpp:10-56 | the only position that respects price-time priority is the one a resting order takes |
| FlatBook.GreedyFills | src/order_book.cpp:160-212 | filled quantity is exactly min(requested, quantity available within the limit); an unfilled remainder means nothing reachable is left |
| FlatBook.GreedyPrefix | src/order_book.cpp:108-212 | trade i is with order i of the opposite queue, all but the last filled whole, the rest untouched |
| FlatBook.GreedyPrices | src/order_book.cpp:108-212 | every trade involves the incoming order, and its price lies within both limits |
| FlatBook.GreedySeller | src/order_book.cpp:108-212 | trade i carries the selling order's price, or the resting price against a market order, and the later of the two timestamps |
| FlatBook.GreedyConserves | src/order_book.cpp:108-212 | taker and opposite side each give up exactly the traded quantity |
| FlatBook.CrossIsGreedy | src/matching_engine.cpp:31-53 | resting first and then crossing the top of the book is greedy matching, trade for trade |
| FlatBook.UncrossedAfterLimit | src/matching_engine.cpp:31-53 | an uncrossed book stays uncrossed exactly if the limit order has a quantity or does not reach the opposite best |
| Levels.LevelsAround | src/order_book.cpp:10-100 | splitting a level vector at any level keeps order, totals and strictness on both sides, so a level can be replaced alone |
| Levels.SetQtyIs | src/order_book.cpp:264-300 | setting one quantity moves no order and changes no other |
| Levels.ReduceAtExact | src/order_book.cpp:214-262 | a level gives up exactly the traded units, oldest orders first, and other levels are untouched |
| Digests.DepthsOfLevels | src/order_book.cpp:358-375 | the level vector shows exactly the price groups of the flat list: prices, totals, counts and their order |
| DigestLaws.MixByteInjective | src/order_book.cpp:350-355 | the byte step is injective in the state and in the byte |
| DigestLaws.MixInjectiveInState | src/order_book.cpp:350-355 | for every value, mixing is injective in what was mixed before |
| DigestLaws.MixInjective | src/order_book.cpp:350-355 | from one state, values that agree outside four consecutive bytes mix alike only if they are the same 64-bit word |
| DigestLaws.DigestTells | src/order_book.cpp:358-375 | books that differ in one price, total or count, with values so related, share a digest exactly if the values are the same word |
| DigestLaws.SmallTells | src/order_book.cpp:358-375 | books that differ in one price, total or count below 2^32 never share a digest |
| DigestLaws.DigestsCollide | src/order_book.cpp:358-375 | two one-order books with different prices and the same digest |
| OrderBooks.LowerBound | src/order_book.cpp:10-56 | the binary search finds the first level not better than a price |
| OrderBooks.OrderBook.AddOrder | src/order_book.cpp:10-56 | a limit order joins the flat book behind its equals; other kinds change nothing; sorted levels, exact totals and exact index are kept |
| OrderBooks.OrderBook.CancelOrder | src/order_book.cpp:58-99 | succeeds exactly for resting ids and removes that order alone |
| OrderBooks.OrderBook.ExecuteTopCross | src/order_book.cpp:108-158 | trades the two best orders at the ask's price exactly when the book is crossed, and keeps every structure in step |
| OrderBooks.OrderBook.MatchMarket | src/order_book.cpp:160-212 | a market order walks the opposite side as greedy matching does and hands back what it cannot fill |
| OrderBooks.OrderBook.ReduceLevel | src/order_book.cpp:214-262 | removes traded units at one price first in first out, or refuses and changes nothing |
| OrderBooks.OrderBook.ReplaceRemainingQuantity | src/order_book.cpp:264-300 | sets one resting quantity in place, keeping queue position; zero cancels |
| OrderBooks.OrderBook.Digest | src/order_book.cpp:358-375 | the digest is a function of the flat book alone |
| OrderBooks.OrderBook.AllOrders | src/order_book.cpp:390-400 | lists the book in priority order, bids then asks |
| OrderBooks.OrderBook.LevelsConsistent | src/order_book.cpp:402-419 | true exactly when every level is non-empty and its total exact |
| Engines.ProcessLimitIsGreedy | src/matching_engine.cpp:31-53 | on an uncrossed book a positive limit order is matched greedily, and fully-filled means nothing is left |
| Engines.ProcessReports | src/matching_engine.cpp:3-53 | on any book the reported quantity is what the order's own trades add up to; done means all of it for a limit order, always for a market order, never for a cancel, which reports whether the id rested |
| Engines.ProcessFills | src/matching_engine.cpp:14-53 | on an uncrossed book that is the volume traded, and the lesser of requested and available within the limit |
| Engines.ProcessPrices | src/matching_engine.cpp:14-53 | on an uncrossed book every trade of a limit order is at the seller's price, of a market order at the resting price |
| Engines.MatchingEngine.ProcessOrder | src/matching_engine.cpp:3-53 | book, trade log and result of every order kind, against the flat book; on an uncrossed book the filled quantity is the volume logged and min(requested, available); the crossing loop terminates |
| ThreadSpec.RunAppend | include/ome/matching_thread.hpp:121-132 | replaying a stream in two parts is replaying it whole |
| Ownership.PublishGreedy | include/ome/matching_thread.hpp:595-627 | publishing the trades of a match takes maps exact for the book before to maps exact for the book after |
| Ownership.ForgetAllGood | include/ome/matching_thread.hpp:564-592 | forgetting a set of orders keeps all six maps exact for the book without them |
| Invariant.ApplyKeepsInv | include/ome/matching_thread.hpp:291-347 | every command keeps the book well formed, positive and uncrossed and the six maps exactly its resting orders |
| Invariant.RunKeepsInv | include/ome/matching_thread.hpp:291-347 | so does every run |
| Invariant.FindOrderIsScan | include/ome/matching_thread.hpp:658-668 | the hash lookup answers what a scan of the session's orders would, exactly when no other resting order shares the key |
| Invariant.RunComplete | include/ome/matching_thread.hpp:410-458 | along every run that reuses no live client id, every resting order can be found |
| Invariant.CancelAllExact | include/ome/matching_thread.hpp:564-592 | cancel-all removes exactly that session's orders and leaves none of them |
| CommandLaws.ReferenceIs | include/ome/matching_thread.hpp:392-408 | the band's reference is the last trade, else the middle of a two-sided book toward zero, else none |
| CommandLaws.RiskGate | include/ome/matching_thread.hpp:352-390 | what the gate passes, if and only if, on quantity, tick, and distance above or below the reference; and what each refusal means |
| CommandLaws.NewRefused | include/ome/matching_thread.hpp:410-419 | a refused order changes nothing and is told the reason |
| CommandLaws.NewRests | include/ome/matching_thread.hpp:410-458 | an accepted limit order that reaches nothing rests whole at its own price and side under the next exchange id, and its session is told that id |
| CommandLaws.CancelAnswers | include/ome/matching_thread.hpp:460-479 | a known order is removed and acknowledged with its exchange id; anything else is refused as unknown and changes nothing |
| CommandLaws.ModifyIsCancelThenNew | include/ome/matching_thread.hpp:481-513 | a modify of a known order is its cancel followed by a limit order of the modify's price and quantity on the old side, with the second answer only; anything else is refused |
| CommandLaws.Unlogged | include/ome/matching_thread.hpp:317-333 | subscriptions and session openings change no state, and the first alone is acknowledged |
| CommandLaws.LoggedExactly | include/ome/wal.hpp:171-182 | a kind of command is logged exactly if it can change the state |
| ClientKeys.InjectiveWithinSession | include/ome/matching_thread.hpp:666-668 | within one session the packed key identifies the client id |
| ClientKeys.CollisionAcrossSessions | include/ome/matching_thread.hpp:666-668 | sessions 1 and 2 share a key, in the code's own 64-bit arithmetic |
| KeyCases.WrongOrderCancelled | include/ome/matching_thread.hpp:460-479 | with the real key, a session without orders cancels another session's order and is told it succeeded |
| Ledger.ApplyBalanced | include/ome/matching_thread.hpp:291-347 | for one command and any order: entered plus resting before is bought plus sold plus cancelled plus dropped plus resting after |
| Ledger.RunBalanced | include/ome/matching_thread.hpp:291-347 | the same over any run |
| Ledger.BoughtIsSold | include/ome/matching_thread.hpp:595-627 | over any run, what all orders together bought equals what they sold, and both equal the volume traded |
| Ledger.NewEvents | include/ome/matching_thread.hpp:410-458 | a new order yields its ack, then two fill records per trade, buyer first |
| Ledger.FillsTellTruth | include/ome/matching_thread.hpp:595-627 | for every command and every order, market orders and replacements included: the quantity last reported is what still rests plus what the command cancelled or dropped |
| Similarity.ApplySimilar | include/ome/matching_thread.hpp:291-347 | states that differ only in timestamps, clock and empty session entries stay so under every command and answer with the same events |
| Similarity.RunSimilar | include/ome/matching_thread.hpp:121-132 | and so under every stream |
| Restoring.RestoreRebuilds | include/ome/matching_thread.hpp:143-204 | re-adding the exported orders in book order rebuilds both sides, owners and client ids |
| Restoring.RestoreExactly | include/ome/matching_thread.hpp:143-204 | a restored state is sound, and equals the exported one but for time exactly when every resting order's key is indexed and no order behind the indexed one, in book order, carries the same key |
| KeyCases.RestoreDiffers | include/ome/matching_thread.hpp:143-204 | with the real key, a two-command run of two sessions whose state a snapshot does not restore |
| Restoring.SnapshotPlusTail | include/ome/matching_thread.hpp:121-204 | for every stream and every exportable split point, snapshot, restore and tail replay reach the state of full replay |
| Restoring.FreshExportable | include/ome/matching_thread.hpp:143-162 | streams that reuse no live client id are exportable at every point |
| SessionReuse.PredecessorCancelled | include/ome/matching_thread.hpp:564-592 | after a restart, cancel-all for a session id removes exactly the orders that id owned before it |
| SessionReuse.PredecessorFills | include/ome/matching_thread.hpp:608-623 | after a restart, a fill of any restored order is addressed to the session id and client id it was entered under |
| SessionReuse.PredecessorAnswered | include/ome/matching_thread.hpp:177-204 | after a restart from an exportable state, every command is answered as the old process would have answered it |
| MatchingThreads.LiveEqualsReplay | include/ome/wal.hpp:174-177 | dropping the commands that are not logged changes nothing |
| MatchingThreads.EmitDelivers | include/ome/matching_thread.hpp:628-648 | live, every event of a connected session is pushed in order and once; what finds room is sent, and exactly the sessions that miss one are marked |
| MatchingThreads.EmitWithRoom | include/ome/matching_thread.hpp:628-648 | with room everywhere, sessions receive exactly their events, in order |
| MatchingThreads.AcceptedSome | include/ome/matching_thread.hpp:636-647 | in general a subsequence is sent, and only events of marked sessions are missing |
| MatchingThreads.MatchingThread.PublishTradeLog | include/ome/matching_thread.hpp:595-627 | the whole trade log is routed, buyer before seller, and the last price kept |
| MatchingThreads.MatchingThread.ApplyNewOrder | include/ome/matching_thread.hpp:410-458 | new state and events of a new order, with any pattern of full queues; one book update unless refused |
| MatchingThreads.MatchingThread.ApplyCancelOrder | include/ome/matching_thread.hpp:460-479 | new state and events of a cancel; one book update unless refused |
| MatchingThreads.MatchingThread.ApplyModifyOrder | include/ome/matching_thread.hpp:481-513 | new state and events of a cancel-and-replace that keeps the side; one book update unless refused |
| MatchingThreads.MatchingThread.ApplyCancelAllOf | include/ome/matching_thread.hpp:564-592 | new state after cancel-all; the tombstone is the last event of the session's queue |
| MatchingThreads.MatchingThread.ApplyCommand | include/ome/matching_thread.hpp:291-347 | every command moves the fields exactly as the specification says; live and with room, connected sessions receive exactly its events in order, or the tombstone; subscriptions and book updates are counted; in replay nothing is emitted |
| MatchingThreads.MatchingThread.RunLive | include/ome/matching_thread.hpp:230-242 | a live run with session and subscription commands and full queues anywhere ends where replay of the loggable commands ends |
| MatchingThreads.MatchingThread.Recover | include/ome/matching_thread.hpp:121-132 | replay reaches the fold of the commands and sends nothing |
| MatchingThreads.MatchingThread.ExportSnapshot | include/ome/matching_thread.hpp:143-162 | the snapshot lists the resting orders in book order with owner and client id |
| MatchingThreads.MatchingThread.RestoreSnapshot | include/ome/matching_thread.hpp:177-204 | the restored fields are those of the specification |
| MatchingThreads.Restart | src/gateway_main.cpp:211-221 | a new thread restored from an exportable thread's snapshot and fed the logged tail ends where the old one would have, telling nobody |
| Crc.MakeTable | include/ome/crc32.hpp:33-45 | entry i is eight division steps of i |
| Crc.ComputeCrc32 | include/ome/crc32.hpp:56-67 | the table-driven loop computes the checksum |
| Crc.TableIsDivision | include/ome/crc32.hpp:33-67 | the byte-wise form equals bit-by-bit polynomial division on every input |
| Crc.Streaming | include/ome/crc32.hpp:54-67 | checksums compose over concatenation |
| Crc.DetectsBurst | include/ome/crc32.hpp:56-67 | two messages of any length that differ only within 32 consecutive bits have different checksums |
| Crc.DetectsFourBytes | include/ome/crc32.hpp:56-67 | so do messages that differ within four consecutive bytes |
| CrcLaws.CheckValues | include/ome/crc32.hpp:56-67 | the published checksums of no byte and of one zero byte |
| CrcLaws.LeadingZeroCounts | include/ome/crc32.hpp:58-67 | a zero byte in front of any buffer changes its checksum |
| Codec.DecodeEncode | include/ome/protocol.hpp:142-240 | fields read back as written, and nothing behind them is touched |
| Codec.EncodeDecode | include/ome/protocol.hpp:142-240 | every byte string that parses is the encoding of what it parses to |
| Codec.Reader.ReadFields | include/ome/protocol.hpp:172-240 | the latching cursor reads what the field decoder yields, and fails exactly on short input |
| WriteAheadLog.CommandRoundTrip | include/ome/wal.hpp:126-168 | every command of the machine widths decodes to itself |
| WriteAheadLog.CommandCanonical | include/ome/wal.hpp:136-168 | an accepted payload is the encoding of the command it yields |
| WriteAheadLog.ReadCutLog | include/ome/wal.hpp:434-494 | for every command list, first number and byte cut, the reader returns exactly the complete records, their numbering, the torn byte count and no gap |
| WriteAheadLog.CorruptPayload | include/ome/wal.hpp:458-494 | a payload altered within 32 consecutive bits is never accepted; the records before it are returned |
| WriteAheadLog.ReadThrough | include/ome/wal.hpp:434-494 | a log followed by bytes that are no record reads back as that log, with those bytes counted as torn |
| WriteAheadLog.StopsAt | include/ome/wal.hpp:458-494 | whatever follows a log but is not a record ends the read there, so nothing behind it is returned |
| WriteAheadLog.ReadLogBytes | include/ome/wal.hpp:434-494 | the reading loop computes the specified result on every byte string |
| WriteAheadLog.Wal.Append | include/ome/wal.hpp:244-264 | one record with the next number is added at the end; without a torn tail the log stays whole |
| WriteAheadLog.Wal.AppendCut | include/ome/wal.hpp:244-264 | an append cut at any byte leaves the log whole up to a torn tail |
| WriteAheadLog.Wal.TruncateBefore | include/ome/wal.hpp:281-361 | the file keeps exactly the records above the largest cut so far, with their numbers and bytes, and loses a torn tail |
| WriteAheadLog.Wal.ReadBack | include/ome/wal.hpp:434-494 | after any series of appends, cut appends and truncations the log reads back as the commands above the cut, with no gap and the torn bytes counted |
| TornTails.ReadIsLog | include/ome/wal.hpp:434-494 | on any bytes, what is read is byte for byte the log at their front, and reading stops only where no further record of it follows, unless the first number is 0 |
| TornTails.AcceptsExactly | include/ome/wal.hpp:458-494 | the reader takes a command from the front of a buffer exactly when that command's record is there |
| TornTails.EarlyCut | include/ome/wal.hpp:458-494 | behind a cut in the length field nothing is ever read, however much is appended |
| TornTails.LateCut | include/ome/wal.hpp:458-494 | behind a cut in the last four bytes the torn record is accepted exactly when the following bytes complete it |
| TornTails.MiddleCut | include/ome/wal.hpp:458-494 | behind a cut anywhere in the payload a record is accepted exactly when the checksum of the mixture is the torn record's and it decodes |
| TornTails.BuriedExactly | include/ome/wal.hpp:434-494 | for cuts in the length field or the last four bytes: the log appended to reads as before exactly unless the torn record ends as records start, and then the torn record comes back |
| TornTails.RevenantEnds | include/ome/wal.hpp:126-168 | a well-formed command whose record, under any number, does end so |
| TornTails.RereadCut | include/ome/wal.hpp:244-264 | when a record appended behind such a cut is itself read back |
| Snapshots.SnapshotRoundTrip | include/ome/snapshot.hpp:91-113 | a snapshot reads back as written |
| Snapshots.SnapshotCanonical | include/ome/snapshot.hpp:152-225 | whatever reads back has the header and the orders of what it reads as, under the checksum of all that follows the header |
| Snapshots.CutSnapshotRefused | include/ome/snapshot.hpp:152-225 | a snapshot file cut short anywhere is refused |
| Snapshots.CorruptSnapshotRefused | include/ome/snapshot.hpp:152-225 | a body altered within 32 consecutive bits is refused |
| Snapshots.ReadSnapshotBytes | include/ome/snapshot.hpp:152-225 | the parsing loop computes the specified result on every byte string |
| Protocol.MessageRoundTrip | include/ome/protocol.hpp:268-474 | every message decodes to itself, a book update to its top ten levels a side |
| Protocol.MessageCanonical | include/ome/protocol.hpp:339-474 | whatever decodes is the payload of its message, under its code |
| Layouts.MessageLayout | docs/PROTOCOL.md:69-131 | the type code and the bytes of every fixed-size message |
| Layouts.BookLayout | docs/PROTOCOL.md:113-116 | the bytes of a book update, cut to ten levels a side |
| Layouts.FrameLayout | docs/PROTOCOL.md:46-52 | length, type, version, payload |
| Layouts.RecordLayout | include/ome/wal.hpp:126-134 | length, checksum, number, and the command field by field |
| Layouts.SnapshotLayout | include/ome/snapshot.hpp:91-113 | the header and the orders of a snapshot file, field by field |
| Frames.ParseConsumes | include/ome/frame_reader.hpp:56-88 | on any bytes, the frames parsed re-encode to what was consumed, what is left holds no frame, and failure means an oversized claim |
| Frames.MessagesRoundTrip | include/ome/protocol.hpp:241-492 | concatenated frames parse into one frame per message, in order, and decode back |
| Frames.ReturnedIsPrefix | include/ome/frame_reader.hpp:45-88 | the frames returned are a prefix of the one-shot parse of everything received |
| Frames.FrameReader.Append | include/ome/frame_reader.hpp:45-50 | bytes join the stream however it is split; what was returned stays a prefix of its parse |
| Frames.FrameReader.NextFrame | include/ome/frame_reader.hpp:56-88 | hands out the next frame of the one-shot parse, or has handed out all that the stream so far holds; failure is that of the one-shot parse |
| Durability.CoveredExactly | src/gateway_main.cpp:138-176 | recovery replays the whole history exactly when the chosen snapshot is current, or it reaches back to the log's start and the log to its end |
| Durability.CoveredRecovers | src/gateway_main.cpp:138-221 | then the recovered state is the fold of every command logged, and numbering resumes there |
| Durability.ImageReads | include/ome/wal.hpp:434-494 | the bytes of a log with a torn tail read back as the commands the protocol accounts for |
| Durability.ReadBehind | include/ome/wal.hpp:434-494 | what is read when any bytes short of two records follow a log: nothing more, one record more, or a gap |
| Durability.SelectPending | src/gateway_main.cpp:169-175 | the loop replays exactly the records the snapshot does not cover |
| CrashRuns.StepSafe | include/ome/matching_thread.hpp:230-289 | every careful step keeps a crash at that point harmless |
| CrashRuns.RunRecovers | include/ome/matching_thread.hpp:230-310 | after any careful run with crashes, writes torn at any byte, failed snapshots and a damaged newest snapshot anywhere, restart rebuilds the fold of all commands ever logged and numbers on from there |
| CrashRuns.FreshRunRecovers | include/ome/matching_thread.hpp:230-310 | if the history reuses no live client id, not building on torn tails and damaged snapshots is all the care needed |
| CrashRuns.SnapshotsSpaced | include/ome/matching_thread.hpp:256-289 | in every run and across restarts, a snapshot is due exactly when `every` commands were logged since the last |
| CrashRuns.NewestRestored | src/gateway_main.cpp:134-150 | after any careful run, recovery starts from the intact snapshot that covers the most |
| CrashRuns.AppendCoveredExactly | include/ome/wal.hpp:213-264 | an append keeps recovery complete exactly when the new record is the first thing the reader meets behind the torn bytes |
| CrashRuns.TearCoveredExactly | include/ome/wal.hpp:244-264 | a crash inside an append keeps recovery complete exactly when the torn bytes do not read as a record, or as one already in the history behind an empty log |
| CrashRuns.RenameCoveredExactly | include/ome/matching_thread.hpp:269-275 | setting the newest snapshot aside keeps recovery complete exactly when it is not damaged or the log is still whole |
| CrashRuns.WriteStandsExactly | include/ome/matching_thread.hpp:277-281 | a written snapshot restores the running state exactly when that state is exportable |
| CrashCases.LostBehindTornTail | include/ome/wal.hpp:213-226 | torn write, restart, one more command, crash: when that command survives, for every cut, lost command and new command |
| CrashCases.RevenantReplayed | include/ome/wal.hpp:213-226 | a run after which recovery replays a command that was never logged; any other command logged behind it is lost |
| CrashCases.LostBehindDamage | include/ome/matching_thread.hpp:269-281 | a run after which no usable snapshot is left and the log starts too late |
| PriceQueues.CrossAllIsGreedy | tools/wal_verify.cpp:90-119 | crossing without watching the incoming order ends in the greedy book with the same trades |
| PriceQueues.QueuesInsert | tools/wal_verify.cpp:61-68 | appending to the queue at a price is inserting into the flat list |
| PriceQueues.QueuesErase | tools/wal_verify.cpp:159-171 | erasing an id from its queue is dropping it from the flat list |
| VerifierSpec.ApplyAgrees | tools/wal_verify.cpp:234-323 | one command leaves verifier and matching thread in agreement when their lookups name the same order |
| VerifierSpec.ApplyAgreesExactly | tools/wal_verify.cpp:234-323 | for every command: same book, last trade and next id exactly when both lookups name the same order, or the engine's finds none and the verifier can do nothing with its own |
| VerifierSpec.HarmlessExactly | tools/wal_verify.cpp:146-155 | in terms of the ids the verifier failed to forget: none precedes the order, or there is no order and none to modify |
| VerifierSpec.StaysNothingStale | tools/wal_verify.cpp:240-279 | only market orders leave such ids behind |
| VerifierSpec.RunsAgree | tools/wal_verify.cpp:234-323 | on every clean stream both end in the same book, last trade and next id |
| VerifierSpec.DigestsAgree | tools/wal_verify.cpp:192-209 | hence in the same digest; every fresh, unaliased stream without market orders is clean |
| VerifierSpec.CleanExactly | tools/wal_verify.cpp:234-323 | they agree after every command of a stream exactly when every lookup of it is harmless |
| VerifierCases.CancelDisagrees | tools/wal_verify.cpp:240-295 | a four-command stream of fresh ids on which a cancel makes them differ |
| VerifierCases.ModifyDisagrees | tools/wal_verify.cpp:240-309 | a three-command stream of fresh ids on which a modify makes the verifier rest an order the engine does not have |
| SimpleBooks.SimpleBook.Add | tools/wal_verify.cpp:61-68 | the queues, names and locations show the flat book with the order rested |
| SimpleBooks.SimpleBook.Cancel | tools/wal_verify.cpp:70-86 | removes exactly a resting order; a stale location changes nothing |
| SimpleBooks.SimpleBook.Cross | tools/wal_verify.cpp:90-119 | the loop ends in the uncrossed book, with the last ask price and the exhausted ids forgotten |
| SimpleBooks.SimpleBook.Sweep | tools/wal_verify.cpp:240-279 | a market order takes what greedy matching takes and leaves every location behind |
| SimpleBooks.SimpleBook.FindByClient | tools/wal_verify.cpp:146-155 | the scan returns the least known id of the session and client id |
| SimpleBooks.SimpleBook.PassesRisk | tools/wal_verify.cpp:214-232 | passes exactly what the matching thread's risk gate passes |
| SimpleBooks.SimpleBook.CancelSession | tools/wal_verify.cpp:310-319 | removes exactly the session's resting orders |
| SimpleBooks.SimpleBook.Apply | tools/wal_verify.cpp:234-323 | every command, against the specification |
| SimpleBooks.SimpleBook.Digest | tools/wal_verify.cpp:192-209 | the digest over the price maps is the digest of the flat book |
| SimpleBooks.Verify | tools/wal_verify.cpp:403-411 | the digest printed for a log is the engine's on every clean stream |
| VerifierLoads.LoadedAgrees | tools/wal_verify.cpp:365-385 | loading a snapshot the engine wrote agrees with the engine restored from it, with nothing stale |
| VerifierLoads.SnapshotDigestsAgree | tools/wal_verify.cpp:365-411 | after a clean tail the digest is that of the restored engine, and of an engine never interrupted if the state was exportable |
| VerifierLoads.UncoveredOf | tools/wal_verify.cpp:400-411 | for a history covered in front by the snapshot and behind by the log, the commands applied are exactly those missing |
| VerifierLoads.Load | tools/wal_verify.cpp:365-385 | the loop loads exactly the snapshot's orders and counters |
| VerifierLoads.VerifyFrom | tools/wal_verify.cpp:361-411 | the digest printed for a snapshot and a log that may overlap it, against the uninterrupted engine |
| Spsc.SpscQueue.Push | include/spsc_queue.h:52-65 | refuses exactly when full, else the element joins the back |
| Spsc.SpscQueue.Pop | include/spsc_queue.h:77-88 | yields the oldest element, or nothing from an empty ring |
| Spsc.SpscQueue.Empty | include/spsc_queue.h:69-73 | true exactly of an empty ring |
| Spsc.Linearized | include/spsc_queue.h:52-88 | in every interleaving, with stale views of the other index: popped is a prefix of pushed, at most n buffered, no slot written while unread or being read |
| Spsc.Refusals | include/spsc_queue.h:52-88 | a refused push was full and an empty answer empty when the other index was read |
| Waiters.NoMissedWakeup | include/ome/waiter.hpp:102-141 | no interleaving leaves the matching thread blocked on a non-empty queue with the signal complete and the pipe empty; the push under way always wakes it |
| Waiters.ReversedOrderMisses | include/ome/waiter.hpp:19-38 | checking before announcing does miss one |
| Notifiers.NoMissedEvent | include/ome/notifier.hpp:65-95 | with any number of connections, the network thread is never blocked on waiting events with the notification complete and the pipe empty, and the channel is never left pending with an empty pipe |
| Notifiers.DeadForever | include/ome/notifier.hpp:73-82 | a channel left pending with an empty pipe can never recover |
| Notifiers.ClearFirstDies | include/ome/notifier.hpp:73-82 | clearing the flag before reading the pipe leads there |
| Tombstones.StepKeepsInv | src/net/tcp_server.cpp:630-700 | every step of either thread keeps what the two queues, the three maps and the connection's flags may hold |
| Tombstones.TombstoneFirst | include/ome/matching_thread.hpp:581-591 | neither queue is used after the tombstone's push, between any two steps of retiring the session; an accepted cancel-all is followed by destruction only after the tombstone was read |
| Tombstones.FreedExactly | src/net/tcp_server.cpp:630-700 | from any point on, the queues of a destroyed connection may be used exactly when session-open was accepted, cancel-all refused, and the session has something resting, subscribed, queued or unanswered |
| Tombstones.LostExactly | src/net/tcp_server.cpp:467-483 | a connection waiting for its tombstone can still be destroyed exactly when session-open was accepted, cancel-all was not dropped unlogged, a published tombstone is in the queue, and the queue did not overflow or is still being drained |
| Tombstones.RefusedCancelAll | src/net/tcp_server.cpp:630-700 | a run in which a session enters an order, its cancel-all is refused, and the order's fill goes to freed queues |
| Tombstones.SilentSession | src/net/tcp_server.cpp:630-700 | a session that entered nothing has its cancel-all refused and its freed queues are never used |
| Tombstones.OverflowNeverFreed | src/net/tcp_server.cpp:467-483 | a run in which the fills of one order fill the queue, the next overflows it, and the connection is never destroyed |
| Tombstones.DroppedNeverFreed | include/ome/matching_thread.hpp:581-585 | a run in which the fills of one order fill the queue, the tombstone is dropped, and the connection is never destroyed |

## Left out

- TornTails.BuriedExactly: for cuts of 4 to 42 bytes whether the mixture reads as a record depends on a checksum collision; `TornTails.MiddleCut` and `TornTails.AcceptsExactly` give the condition on the bytes, not a closed form.
- DigestLaws.DigestTells: one differing value, within four consecutive bytes; beyond that, and for several differences at once, it depends on hash collisions, of which `DigestLaws.DigestsCollide` is one.
- CrashRuns.RunRecovers: a process crash, not a power cut; group commit, fsync and the page cache are not modelled, nor is a truncation that fails and closes the log.
- Levels.LevelsAround: the level vector itself is a value that the book class reassigns; in-place updates of one vector element are not modelled.
- MatchingThreads.MatchingThread.ApplyCancelAllOf: a tombstone that finds its queue full is lost, as in the code; `Tombstones.LostExactly` and `Tombstones.DroppedNeverFreed` say what follows.
- MatchingThreads.MatchingThread.PublishTradeLog: the content of market-data snapshots is not modelled, only how many are built and that the book is not touched by them.
- Notifiers.NoMissedEvent: the set of connections is fixed during a run.
- SimpleBooks.Verify: the sanity checks after the replay and the dump are not modelled; `VerifierLoads.VerifyFrom` starts from a snapshot the engine wrote, and a file that some other program wrote is not considered.
- Tombstones.TombstoneFirst: one session; the write buffer and the flush-then-close mode appear only as a close at any time, and the book only as the quantity it holds for the session.
- Machine-width wrap-around of ids, sequence numbers, quantities and the price-band product.
- The branch for an order type outside the three, which no command reaches.
- Running without a log, and the statistics counters.
- Weak memory: the two-thread machines are sequentially consistent, with stale reads of the ring indices only.
- Shutdown, timers, heartbeats, write buffers, rate limits and risk-file parsing.
- The LOBSTER parser and converter, the simulators, the benchmarks and the analysis scripts.
