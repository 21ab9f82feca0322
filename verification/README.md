# WTG price path: a verified model

A Dafny model of the stateful and parsing parts of the WTG price gateway, with
proofs over every input, every run and every interleaving.

- **Bars** (`bars`, `group_by`, `aggregation`, `aggregator`, `archiver`, `bar_table`, `pipeline`).
  Ticks become OHLC bars, a tick in a new bucket or a timer sweep closes a bar,
  closed bars pass a bounded queue, a batching loop and a first-write-wins
  table. The event-driven form is compared with plain grouping by bucket.
- **The C price client** (`ctext`, `json_*`, `server_strings`, `spot_*`). A scanner with a depth
  counter and two flags is compared with the recursive JSON grammar (sections
  4, 5 and 7 of RFC 8259); string escaping and percent-encoding (section 2.1 of
  RFC 3986) are inverted; a whole spot response is read back.
- **The quote forwarder** (`fix_*`, `flush_split`, `feed_worker`, `reject_gate`,
  `stream_supervisor`). FIX 4.4 parsing on two paths, recursive splitting of
  oversize batches, the reader, worker and timer of a feed, the lock-free log
  gate, and the reconnecting stream.
- **The shared pricing document** (`pricing_doc`, `pricing_cas`, `pricing_lineage`). Get,
  transform, compare-and-put beside writers that put blindly.
- **Fan-out, comparison, audit** (`chart_hub`, `chart_fanout`, `quote_matcher`, `audit_ring`).
- **The fixed-width bulk enquiry** (`bulk_codec`, `bulk_reply`, `bulk_reader`).

Objects the source updates in place are classes whose methods are proved
against functions. Where several goroutines meet, each atomic operation and
each locked section is one step of a machine, `Run` takes any sequence of such
steps, and the `RunInv` lemmas hold after all of them. Prices are reals; the
library's number readers and printers are parameters.

## Where the code does not do what is said of it

All but the last have a concrete run or input, and the exact condition.

- A tick that comes after its bucket was left, or after a sweep closed it, gives
  a second bar for the bucket: `Aggregation.LateTickBreaksGrouping`,
  `Aggregation.AggregatorGroupsIff`.
- A string value equal to the searched key ends the C key search:
  `JsonScan.ShadowedKeyIsLost`, `JsonScan.LookUpRight`.
- The client's string reader does not undo the client's own `\u00xx` escapes:
  `JsonStrings.EscapeRoundTrip`.
- The hot FIX path rejects quotes the slow path accepts, and the other way round:
  `FixExtract.NegativeBidHidesQuote`, `FixExtract.LongCodeIsBidOnHotPath`,
  `FixExtract.TwoPaths`, `FixExtract.FastAgainstSlow`.
- An acknowledgement loop of an old stream can fail the new one, which its
  generation check is there to prevent: `StreamSupervisor.OldLoopFailsFreshStream`,
  `StreamSupervisor.MarkIsOwnIff`.
- The failed send of a publisher that took an old stream does the same, without any
  check: `StreamSupervisor.OldPublisherFailsFreshStream`, `StreamSupervisor.PublisherMarkIsOwnIff`.
- A sync job can undo an update whose call returned nil:
  `PricingLineage.SyncJobLosesUpdate`, `PricingLineage.UpdateStaysIff`, `PricingLineage.LostIffUndone`.
- The client does not read the server's `\u0026` back as `&`:
  `SpotPrint.AmpersandIsLost`, `SpotPrint.PrintedSnapshotReadBack`.
- Two ticks of one stream with the same key are compared with each other:
  `QuoteMatcher.ClashIsPaired`, `QuoteMatcher.CrossPairsIff`.
- A chart client that closes before it is registered stays in the hub:
  `ChartFanout.ClosedBeforeAddStays`, `ChartFanout.ClosedStaysIff`.
- A header whose first bytes read as a fitting count is taken for records:
  `BulkReply.HeaderTakenForRecords`, `BulkCodec.HeaderSplitIff`.
- The gate logs two samples when their readings are so far apart that the
  subtraction wraps: `RejectGate.FarPastAccepted`, `RejectGate.SpacedIff`.
- A comment says that a record without a price echoes only names; the code also
  prints zero prices, and so does `BulkReply.Slot`.

## Model

| member | source | states |
|---|---|---|
| Bars.BucketStart | pkg/quote/bar.go:76-83 | the bucket is the multiple of the timeframe's duration whose window holds the time |
| Bars.BucketExact | pkg/quote/bar.go:76-83 | there is only one such multiple |
| Bars.Durations | pkg/quote/bar.go:40-61 | the eight durations in nanoseconds |
| Bars.PersistentIff | pkg/quote/bar.go:65-71 | what is stored is what lasts a minute or longer |
| Bars.BucketOf | pkg/quote/bar.go:76-83 | a time inside an aligned window has that window's start as its bucket |
| Bars.BucketIdempotent | pkg/quote/bar.go:76-83 | a bucket start is its own bucket |
| Bars.BucketAfter | pkg/quote/bar.go:76-83 | a time at or past an aligned window's end lies in a later bucket |
| Bars.FoldBarMeaning | pkg/quote/bar.go:121-169 | a bar built tick by tick has the first, highest, lowest and last bid and ask of its ticks and their number |
| GroupBy.GroupByUnique | internal/price/aggregator.go:77-136 | a tick list has only one grouping by bucket |
| GroupBy.GroupByNew | internal/price/aggregator.go:103-118 | a tick in a later bucket adds one bar to the grouping and changes none |
| GroupBy.GroupBySame | internal/price/aggregator.go:103-118 | a tick in the last bucket changes only the last bar of the grouping |
| Aggregation.AggregatorGroups | internal/price/aggregator.go:77-136 | for every run in time order the emitted bars and the open one are the ticks grouped by bucket |
| Aggregation.AggregatorGroupsIff | internal/price/aggregator.go:77-136 | over all runs this holds if and only if no tick is in an earlier bucket than one before it, or in the same bucket with a sweep past that bucket's end between them |
| Aggregation.AdmissibleIffOnTime | internal/price/aggregator.go:103-136 | what each tick meets in the machine is that condition on the events alone |
| Aggregation.LateTickBreaksGrouping | internal/price/aggregator.go:103-118 | one late tick breaks the grouping |
| Aggregation.SweepsDoNotMatter | internal/price/aggregator.go:124-136 | sweeps move no tick: the same ticks in order give the same bars |
| Aggregation.WithoutSweepsTicks | internal/price/aggregator.go:124-136 | leaving sweeps out keeps the ticks of every pair |
| Aggregation.NoTickLost | internal/price/aggregator.go:103-136 | in any run, in order or not, tick counts of the bars add up to the ticks accepted |
| BarAggregator.Aggregator.OnTick | internal/price/aggregator.go:77-100 | a tick with a decoder, an active known symbol and a decodable body joins the history with that pair, prices and time and moves every timeframe; any other changes nothing |
| BarAggregator.Aggregator.ApplyToKey | internal/price/aggregator.go:103-118 | one key moves by the specification step and its closed bar joins the log |
| BarAggregator.Aggregator.Sweep | internal/price/aggregator.go:124-136 | every key moves by the sweep step |
| BarAggregator.Aggregator.OpenBars | internal/price/aggregator.go:158-166 | returns each open bar exactly once |
| Archiving.WithDefaults | internal/price/archiver.go:40-53 | positive sizes are kept, others become 10000 and 500 |
| Archiving.RunInv | internal/price/archiver.go:102-175 | in every interleaving batches inserted, batch and queue concatenate to the accepted bars in order; batches hold 1 to the maximum; enqueued bars are inserted, failed, batched or queued |
| Archiving.OfferOutcome | internal/price/archiver.go:102-117 | after every run a bar shorter than a minute is ignored and any other dropped exactly when the queue is full |
| Archiving.IntervalHandsOver | internal/price/archiver.go:171-173 | the interval gives the inserter what is collected, whole, and leaves nothing |
| Archiving.ShortBatchesAreTimed | internal/price/archiver.go:148-175 | batches below the maximum are no more than intervals and the final flush |
| Archiving.Drained | internal/price/archiver.go:150-163 | with queue and batch empty the batches are exactly the accepted bars |
| Archiving.Archiver.OnBarClose | internal/price/archiver.go:102-117 | a persistent bar is queued or counted as dropped, any other is ignored |
| Archiving.Archiver.FlushBatch | internal/price/archiver.go:127-146 | gives the batch to the inserter, counts the outcome, empties the batch |
| Archiving.Archiver.TakeBar | internal/price/archiver.go:165-169 | moves the queue's head to the batch and flushes a full batch |
| Archiving.Archiver.Drain | internal/price/archiver.go:150-163 | on return the queue and the batch are empty and every accepted bar was given to the inserter in order |
| BarTable.PgxInserter.Insert | internal/price/archiver_pgx.go:57-85 | the table after a batch is the first-write-wins insertion of its bars |
| BarTable.InsertAllRows | internal/price/archiver_pgx.go:45-52 | the table has exactly the keys of the bars given, each with one of those bars |
| BarTable.FirstRowWins | internal/price/archiver_pgx.go:45-52 | of several bars with one key the first is kept |
| BarTable.SameRows | internal/price/archiver_pgx.go:45-52 | bar lists with the same members fill the same table, whatever order and repetition |
| Pipeline.AcceptedIsOffered | internal/price/archiver.go:102-117 | without drops the accepted bars are the persistent ones offered, in order |
| Pipeline.AggregatorLog | internal/price/aggregator.go:103-136 | the callback log of every valid aggregator object is, key by key, the bars its history closes |
| Pipeline.StoredIsConcat | internal/price/archiver.go:121-175 | without failures the table is the insertion of all batches as one list |
| Pipeline.TableOfLog | internal/price/archiver_pgx.go:45-85 | the log of a run in order fills the table with exactly the closed group-by bars of timeframes of a minute or longer, each row opening at a multiple of its timeframe and closing one duration later |
| Pipeline.PipelineExact | internal/price/archiver.go:102-175 | ticks in order, nothing dropped or failed, all flushed: the table holds exactly the grouping, whatever the batch sizes, flush times and interleaving |
| Pipeline.ReplayChangesNothing | internal/price/archiver_pgx.go:45-52 | replaying bars before or after changes nothing in the table |
| CText.SkipWhitespace | cside/wtgprice/wtgprice.c:138-141 | stops at the first character that is not blank |
| CText.SkipWsExact | cside/wtgprice/wtgprice.c:138-141 | only blanks, tabs, newlines and returns are passed over, and all of them |
| JsonWalk.WalkJson | cside/wtgprice/wtgprice.c:586-607 | the depth-and-flag machine is back where it was after every grammatical value |
| JsonScan.SkipStringBody | cside/wtgprice/wtgprice.c:610-617 | finds the closing quote of a string body, passing escaped characters |
| JsonScan.StringEndRaw | cside/wtgprice/wtgprice.c:610-617 | that end is the closing quote of the grammar's string |
| JsonScan.SkipObjectBody | cside/wtgprice/wtgprice.c:586-607 | computes the end of the object body as the machine defines it |
| JsonScan.SkipObjectExact | cside/wtgprice/wtgprice.c:586-607 | on every grammatical object it lands just behind the matching brace, whatever strings and nested values contain |
| JsonScan.FindKey | cside/wtgprice/wtgprice.c:148-202 | the loop computes the specification scan |
| JsonScan.FindKeyExact | cside/wtgprice/wtgprice.c:148-202 | on every grammatical object with blanks before it the scan finds the value the tree search finds, or nothing when that finds nothing |
| JsonScan.FindKeyInside | cside/wtgprice/wtgprice.c:148-202 | the same when entered behind the opening brace |
| JsonScan.LookUpRight | cside/wtgprice/wtgprice.c:148-202 | the search gives the first member of that name if and only if no earlier value is the key as a string |
| JsonScan.ShadowedKeyIsLost | cside/wtgprice/wtgprice.c:186-198 | an object where the key is a member and is not found |
| JsonStrings.ReadString | cside/wtgprice/wtgprice.c:205-230 | stores the decoded characters that fit, accepts exactly closed strings that leave room for the terminator, writes nothing beyond |
| JsonStrings.CharsOfRaw | cside/wtgprice/wtgprice.c:205-230 | what is read from a grammatical string is its unescaped text |
| JsonStrings.EscapeInto | cside/wtgprice/wtgprice.c:400-421 | succeeds exactly when the escaped text is shorter than the buffer and then holds it with a terminator |
| JsonStrings.PercentEncodeInto | cside/wtgprice/wtgprice.c:561-582 | succeeds exactly when the encoded text is shorter than the buffer and then holds it with a terminator |
| JsonStrings.EscapeRoundTrip | cside/wtgprice/wtgprice.c:400-421 | reading an escaped text gives it back if and only if every byte is 32 or more |
| JsonStrings.EscapeRawOk | cside/wtgprice/wtgprice.c:400-421 | an escaped text is a grammatical string body |
| JsonStrings.WriteThenRead | cside/wtgprice/wtgprice.c:205-230 | the same round trip through the reader on text |
| JsonStrings.PercentRoundTrip | cside/wtgprice/wtgprice.c:561-582 | percent-decoding the encoded text gives it back, for every byte string |
| JsonStrings.PercentClean | cside/wtgprice/wtgprice.c:561-582 | the encoded text has only unreserved characters and percent signs; never a separator, quote, blank, control or non-ASCII byte |
| SpotResponse.ExtractString | cside/wtgprice/wtgprice.c:260-264 | the field's decoded text when it is found, closed and short enough |
| SpotResponse.ExtractNumber | cside/wtgprice/wtgprice.c:266-276 | the number reader's answer on the field's token |
| SpotResponse.ExtractEntry | cside/wtgprice/wtgprice.c:693-703 | an entry exactly when all required fields can be read |
| SpotResponse.ReadSpots | cside/wtgprice/wtgprice.c:680-708 | the array holds the entries in order as the specification lists them; the size error comes before its end is passed |
| SpotResponse.ReadMissing | cside/wtgprice/wtgprice.c:711-733 | the same for the missing names |
| SpotResponse.GetSpot | cside/wtgprice/wtgprice.c:673-737 | the whole reply as the text-level specification gives it |
| SpotResponse.EntryAgrees | cside/wtgprice/wtgprice.c:693-703 | the fields read from an entry's text are those of its tree |
| SpotResponse.SpotsAgree | cside/wtgprice/wtgprice.c:680-708 | the array loop on text lists the entries of the array's tree |
| SpotResponse.MissingAgree | cside/wtgprice/wtgprice.c:711-733 | the same for the missing names |
| SpotResponse.SpotExact | cside/wtgprice/wtgprice.c:673-737 | on every grammatical body the pointer code and the tree extraction agree, errors included |
| SpotResponse.EntryNeeds | cside/wtgprice/wtgprice.c:693-700 | an entry is read exactly when its pair is a string of at most fifteen bytes and its four prices are numbers |
| SpotResponse.BodyNeeds | cside/wtgprice/wtgprice.c:675-733 | a body without readable version or spots array is a parse error; without missing array it gives the spots alone |
| ServerStrings.ServerRoundTrip | internal/price/spot_snapshot.go:130 | a text the server writes is read back by the client if and only if no character of it is written as an escape the client does not know |
| ServerStrings.ReadableAscii | internal/price/spot_snapshot.go:130 | for ASCII texts that is: no `<`, `>`, `&` and no control byte but newline, return and tab |
| ServerStrings.CutRoundTrip | cside/wtgprice/wtgprice.c:205-230 | the same where the client keeps only the first bytes: if and only if the text is also short enough |
| ServerStrings.ServerRawOk | internal/price/spot_snapshot.go:130 | what the server writes is a grammatical string body, for every byte string |
| SpotPrint.PrintedSnapshotRead | internal/price/spot_snapshot.go:33-54 | the client given the server's body returns version, entries and missing names in order, each text as seen, and the size error exactly when a list exceeds its array |
| SpotPrint.PrintedSnapshotReadBack | internal/price/spot_snapshot.go:130 | the snapshot comes back unchanged if and only if its lists have at most sixteen members and every text is readable; the size error comes exactly beyond sixteen |
| SpotPrint.AmpersandIsLost | internal/price/spot_snapshot.go:107-109 | a missing pair with an ampersand comes back as another name |
| SpotPrint.SnapshotRead | cside/wtgprice/wtgprice.c:673-737 | on the printed tree the extraction gives the snapshot as seen |
| FixWire.ReadFields | cmd/quote-forwarder/main.go:725-739 | the loop gives the fields of the wire text |
| FixWire.WireBack | cmd/quote-forwarder/main.go:725-739 | splitting undoes printing for every list of fields |
| FixQuote.ReadQuote | cmd/quote-forwarder/main.go:806-882 | the method computes the specification parse |
| FixQuote.Labels | cmd/quote-forwarder/main.go:742-841 | the labels of the known type, action and message codes |
| FixQuote.GroupsBack | cmd/quote-forwarder/main.go:806-882 | reading printed groups of either kind, in any mix, adds exactly their entries in order |
| FixQuote.ParseQuoteBack | cmd/quote-forwarder/main.go:806-882 | parsing a printed 35=W or 35=X message recovers type, sender, target, symbol and every entry in order |
| FixExtract.ExtractV1 | cmd/quote-forwarder/main.go:688-717 | the first positive bid and ask with the symbol, accepted exactly when a symbol exists and 0 < bid <= ask |
| FixExtract.CommonSymbol | cmd/quote-forwarder/main.go:688-717 | without per-entry symbols the message's symbol is used |
| FixExtract.ParseSnapshot | pkg/fixmd/fixmd.go:26-94 | the one-pass parser computes the specification fold over the fields |
| FixExtract.SnapMessage | pkg/fixmd/fixmd.go:26-94 | on any printed snapshot it has the message's symbol and, per side, the first price and the first size that are not zero |
| FixExtract.TwoPaths | cmd/quote-forwarder/main.go:675-717 | what each path makes of any snapshot message, whatever its type codes: first positive prices on the slow one; on the hot one first non-zero prices by the first character of each code |
| FixExtract.IncrementalPath | cmd/quote-forwarder/main.go:688-717 | on an incremental message with a symbol in every entry the quote has the symbol of the first entry that counts |
| FixExtract.FastAgainstSlow | cmd/quote-forwarder/main.go:675-717 | with one-character codes the hot path gives what the slow one gives, except exactly when a negative price precedes the first positive one |
| FixExtract.LongCodeIsBidOnHotPath | pkg/fixmd/fixmd.go:46-49 | a longer type code is a bid for the hot path only |
| FixExtract.NegativeBidHidesQuote | pkg/fixmd/fixmd.go:26-94 | a wire message the slow path accepts and the hot path rejects |
| FixExtract.MockSnapshotReadBack | cmd/mock-lp/scenario.go:81-98 | the mock provider's message is read back; it is accepted exactly for a named pair with 0 < bid <= ask |
| FlushSplitting.Worker.PublishOne | cmd/quote-forwarder/main.go:533-543 | one call is logged and a success counted in full |
| FlushSplitting.Worker.Flush | cmd/quote-forwarder/main.go:549-569 | the recursion computes the specification split |
| FlushSplitting.FlushCounts | cmd/quote-forwarder/main.go:549-569 | for any publisher at most 2n - 1 calls, and the two counters rise by n together |
| FlushSplitting.FlushConserves | cmd/quote-forwarder/main.go:549-569 | for any publisher every envelope is published or dropped exactly once |
| FlushSplitting.FlushExact | cmd/quote-forwarder/main.go:549-569 | for a size-limited publisher exactly the envelopes that fit alone are published, in order, and exactly the others dropped |
| FlushSplitting.PayloadMonotone | pkg/quote/pushdata.go:105-120 | the encoded size of a part of a batch is at most that of the batch |
| FlushSplitting.PayloadIsText | pkg/quote/pushdata.go:105-120 | the payload size is the length of the one text, or of the texts between brackets with commas |
| FlushSplitting.BrokerLimited | pkg/quote/pushdata.go:59-62 | the broker publisher refuses as too long exactly what exceeds 1512 bytes, and is size-limited in the sense of FlushExact |
| FlushSplitting.BrokerExact | cmd/quote-forwarder/publisher.go:44-56 | over the broker exactly the envelopes of at most 1512 bytes go out, in order, and the others drop |
| FeedWorker.RunInv | cmd/quote-forwarder/main.go:486-656 | in every interleaving a waiting batch has a flush on its way, batches stay below the maximum, and packets received are dropped, in hand, queued, rejected, batched, published or failed |
| FeedWorker.TakeOutcome | cmd/quote-forwarder/main.go:586-640 | after every run: the first quote of a batch arms the timer, the one that fills it sends the whole batch and stops the timer, any other only joins |
| FeedWorker.OtherOutcomes | cmd/quote-forwarder/main.go:514-600 | the reader drops exactly when the queue is full, a timer tick sends what is collected, a packet that is no quote is counted |
| FeedWorker.PublishedInOrder | cmd/quote-forwarder/main.go:549-656 | after every run the envelopes published are those of the packets taken that fit a message, in arrival order, up to the waiting batch |
| RejectGate.RunInv | cmd/quote-forwarder/main.go:145-163 | over every interleaving each accepted reading passed the check against the accepted one before it |
| RejectGate.LoneCall | cmd/quote-forwarder/main.go:145-163 | a call that nobody disturbs is accepted exactly when it is the first or sixty seconds past the last sample |
| RejectGate.SpacedIff | cmd/quote-forwarder/main.go:139-163 | every run with readings in a set keeps its samples an interval apart if and only if no two readings of the set wrap the subtraction |
| RejectGate.SpacedWithoutWrap | cmd/quote-forwarder/main.go:145-163 | the half for runs: without a wrapping pair every interleaving is spaced |
| RejectGate.WrappedReadingAccepted | cmd/quote-forwarder/main.go:145-163 | for any wrapping pair a run of the gate accepts both readings |
| RejectGate.HalfRangeNeverWraps | cmd/quote-forwarder/main.go:158-160 | readings within half the 64-bit range, such as those since the epoch, never wrap |
| RejectGate.Spacing | cmd/quote-forwarder/main.go:145-163 | accepted samples lie whole intervals apart, as many as they are apart in order |
| RejectGate.AtMost | cmd/quote-forwarder/main.go:139-163 | a span holds at most one more sample than full intervals |
| RejectGate.FarPastAccepted | cmd/quote-forwarder/main.go:145-163 | a run with a reading from the far past in which both samples are logged |
| StreamSupervisor.RunInv | cmd/quote-forwarder/publisher.go:117-283 | in every interleaving: status up means the installed stream is the current generation's; generations that were up strictly increase; reconnecting is only in the supervisor's hands; the generation is the first success plus reconnects plus the one in progress; the wait is the doubled, capped one |
| StreamSupervisor.BackoffRange | cmd/quote-forwarder/publisher.go:104-110 | the wait is 1, 2, 4, 8, 16 seconds and then thirty |
| StreamSupervisor.WaitCountsFailures | cmd/quote-forwarder/publisher.go:167-210 | over every run it is that of the failed opens since the last reconnect |
| StreamSupervisor.NothingSentBeforeUp | cmd/quote-forwarder/publisher.go:246-253 | as long as no stream has come up no publisher is admitted |
| StreamSupervisor.NoSilentFailure | cmd/quote-forwarder/publisher.go:224-242 | while the status is up, the current stream's loop has not marked or dismissed a failure; the supervisor's compare never loses; polling never sees the reconnecting status |
| StreamSupervisor.MarkIsOwnIff | cmd/quote-forwarder/publisher.go:230-237 | a loop's failure mark concerns its own stream if and only if no stream was opened since its check |
| StreamSupervisor.OldLoopFailsFreshStream | cmd/quote-forwarder/publisher.go:230-237 | a run in which an old loop fails a fresh stream |
| StreamSupervisor.PublisherMarkIsOwnIff | cmd/quote-forwarder/publisher.go:246-277 | a publisher's failure mark concerns the current stream if and only if it took that stream and none was opened since |
| StreamSupervisor.OldPublisherFailsFreshStream | cmd/quote-forwarder/publisher.go:246-277 | a run in which the failed send on an old stream fails a fresh one |
| PricingDoc.ApplySwapToDoc | pkg/pricing/swapapply.go:26-65 | the loops compute the specification update, or refuse text that does not parse |
| PricingDoc.KeepOthers | pkg/pricing/swapapply.go:35-42 | clearing keeps the other pairs' entries in order |
| PricingDoc.UpsertOne | pkg/pricing/swapapply.go:44-60 | moves the first entry of that pair and tenor or appends one |
| PricingDoc.ApplySwapMeaning | pkg/pricing/swapapply.go:17-25 | exactly the named rates change: bid and ask of the last update of each tenor, skew and spread kept or zero, or gone on clear; other rates and layers stay; the version rises by one |
| PricingCas.RunInv | cmd/mci-mds-shim/main.go:153-194 | over every interleaving with sync jobs, raw writes and lost answers each compare-and-put replaces the value current at that moment by its transform, each job by the change of what it had read; nil means exactly one write after as many lost compares as earlier tries, giving up none after three |
| PricingCas.GivesUpAfterThree | cmd/mci-mds-shim/main.go:187-190 | a call gives up only after three attempts, with a write of another between the get and the put of each |
| PricingCas.UncontendedCommits | cmd/mci-mds-shim/main.go:172-186 | a call that nobody writes in front of returns nil |
| PricingCas.RetryComesThrough | cmd/mci-mds-shim/main.go:155-191 | a run in which a call loses one compare, reads again and returns nil at its second try |
| PricingLineage.NoLostUpdateSince | cmd/mci-mds-shim/main.go:153-194 | from any point without blind writes on, the document is the one at that point with all later updates applied in order |
| PricingLineage.NoLostUpdate | cmd/mci-mds-shim/main.go:153-194 | without blind writers the document is all commits applied in order |
| PricingLineage.VersionCounts | pkg/pricing/swapapply.go:63 | the version counts the writes of the lineage |
| PricingLineage.DocumentIsLineage | internal/fxsync/syncer.go:141-171 | over every interleaving the document is exactly the writes of its lineage applied in order |
| PricingLineage.LineagePlaces | internal/fxsync/syncer.go:141-171 | the lineage holds exactly the writes that are not lost, in order |
| PricingLineage.UpdateStaysIff | cmd/mci-mds-shim/main.go:153-194 | an update that returned nil is in the document if and only if its one write did not fall between the get and the put of the last job that put, nor before a raw write, and was not gone when that job read |
| PricingLineage.LostIffUndone | internal/fxsync/syncer.go:141-171 | when blind writers do not overlap: lost if and only if it fell between the get and the put of some later-putting job or before a raw write |
| PricingLineage.OverlapRestores | internal/fxsync/syncer.go:141-171 | with overlapping jobs that simple rule is wrong: a job that read in between brings the write back |
| PricingLineage.SwapLayer | internal/fxsync/syncer.go:93-107 | the swap layer is the fold of the surviving updates and swap point jobs, jobs on other layers leaving it alone |
| PricingLineage.SyncJobLosesUpdate | internal/fxsync/syncer.go:141-171 | a run in which a job reads before an update and puts after it: the call returned nil and its rate is gone |
| ChartHub.Hub.NewSubscriber | internal/chart/ws.go:44-62 | an open subscriber with no filters, an empty queue and the configured or default size |
| ChartHub.Hub.SetFilters | internal/chart/ws.go:66-77 | the filters become exactly the given names |
| ChartHub.Hub.Matches | internal/chart/ws.go:80-94 | true exactly when each filter is empty or names the value |
| ChartHub.FilterMeaning | internal/chart/ws.go:66-94 | filters set from lists pass what the lists name, or everything where a list is empty |
| ChartHub.Hub.Send | internal/chart/ws.go:97-107 | queued, or the closed or full error with the queue unchanged |
| ChartHub.Hub.Close | internal/chart/ws.go:109-120 | closed; the first close takes it out of the hub |
| ChartHub.Hub.Add | internal/chart/ws.go:144-148 | registers it |
| ChartHub.Hub.Remove | internal/chart/ws.go:150-154 | takes it out |
| ChartHub.Hub.Publish | internal/chart/ws.go:157-183 | a subscriber whose pair or timeframe filter excludes the bar is untouched; a registered open one that neither excludes gets the payload at the end of its queue or, when that is full, is closed and leaves; the counts add up to the matches |
| ChartFanout.RunInv | internal/chart/ws.go:66-183 | the invariant behind NoHoles over every interleaving with one publisher |
| ChartFanout.NoHoles | internal/chart/ws.go:157-183 | an open registered subscriber has got or queued, in order, exactly the payloads since it registered that its pair and timeframe filters at the scan allowed; a closed one has a prefix; sent and dropped add up to the matches |
| ChartFanout.ClosedStaysIff | internal/chart/server.go:194-220 | a closed subscriber whose callback has run is still in the hub if and only if the callback ran before it was registered |
| ChartFanout.OpenAtAddLeaves | internal/chart/ws.go:109-154 | one that was open when registered is in the hub exactly until its callback runs |
| ChartFanout.ClosedBeforeAddStays | internal/chart/server.go:194-220 | one that closes before it registers stays |
| QuoteMatcher.Matcher.Submit | cmd/quote-diff/main.go:89-147 | one call alone: totals and pairing; a pair is a mismatch exactly when bids or asks lie a billionth or more apart, and only then each maximum rises to that distance |
| QuoteMatcher.Matcher.Expire | cmd/quote-diff/main.go:150-161 | removes exactly the ticks received before the cutoff and returns their number |
| QuoteMatcher.RunInv | cmd/quote-diff/main.go:89-161 | over every interleaving ticks are conserved, counting those in flight, and no mismatch escapes the maxima |
| QuoteMatcher.AtRest | cmd/quote-diff/main.go:89-161 | at rest the totals are twice the pairs plus pending plus expired, and each maximum is the largest difference of all mismatches |
| QuoteMatcher.CountersMeanPrices | cmd/quote-diff/main.go:106-147 | at rest mismatched counts the pairs whose bids or asks lie a billionth or more apart, matched the others, and each maximum is the widest distance over the pairs that differ |
| QuoteMatcher.TotalsByStream | cmd/quote-diff/main.go:90-94 | the two totals count the ticks of the two streams |
| QuoteMatcher.CrossPairsIff | cmd/quote-diff/main.go:89-104 | over all interleavings every pair compared has one tick of each stream if and only if no two ticks of one stream share a key |
| QuoteMatcher.ClashIsPaired | cmd/quote-diff/main.go:89-104 | a run that pairs two ticks of one stream |
| AuditRing.Ring.constructor | internal/admin/audit_ring.go:71-79 | an empty ring of the given or default size |
| AuditRing.Ring.Push | internal/admin/audit_ring.go:132-142 | the entry joins the history |
| AuditRing.Ring.List | internal/admin/audit_ring.go:192-234 | the newest entries kept, newest first, cut by a positive limit |
| AuditRing.Ring.Len | internal/admin/audit_ring.go:273-280 | the number of entries kept |
| AuditRing.PushAllNewest | internal/admin/audit_ring.go:159-187 | pushing and trimming keeps the newest entries, newest first |
| AuditRing.BackendsAgree | internal/admin/audit_ring.go:192-267 | whatever sizes are configured, the list backend and the ring agree on as many entries as both keep |
| BulkCodec.RawFrame | internal/mdsshim/w9501s03.go:27-31 | a count field and exactly that many records are taken whole, whatever the records hold |
| BulkReply.PrintedEnquiryIsRaw | internal/mdsshim/w9501s03.go:27-31 | an enquiry of n records as printed is never taken to start with a header |
| BulkCodec.HeaderSplitIff | internal/mdsshim/w9501s03.go:27-43 | a header before a fitting body of m records is split off if and only if its first six bytes do not read as m + 8 |
| BulkCodec.BuildS02Reply | internal/mdsshim/w9501s02.go:83-105 | the buffer written cell by cell is the reply defined byte by byte |
| BulkReader.ReplyReads | internal/mdsshim/w9501s02.go:83-105 | trimming the layout's byte ranges of a reply gives the request's four texts, the bid twice, the ask twice and the source twice, and all else is blank |
| BulkReader.EnquiryParses | internal/mdsshim/w9501s02.go:59-79 | an enquiry of four padded texts parses back to them, with the pair of a six-letter symbol, and without a symbol not at all |
| BulkReader.EnquiryAnswered | internal/mdsshim/w9501s02.go:110-136 | from texts to texts through the single enquiry, refused without symbol or price |
| BulkReader.HeaderAnswered | internal/mdsshim/w9501s02.go:34-39 | behind a 512-byte header the answer is the same after the header with byte 182 set to 0 |
| BulkReader.CountReadsIff | internal/mdsshim/w9501s03.go:46-59 | a printed count of up to six digits reads back if and only if it is at most a thousand |
| BulkCodec.Put16 | internal/mdsshim/w9501s02.go:88 | a text cut to its cell, nothing else touched |
| BulkReply.NrecBack | internal/mdsshim/w9501s03.go:46-59 | a printed count reads back, up to the limit |
| BulkReply.HandleS02 | internal/mdsshim/w9501s02.go:110-136 | the single enquiry: echoed header and reply, or refusal |
| BulkReply.HandleS03 | internal/mdsshim/w9501s03.go:63-113 | the buffer filled in the loop is the count and the slots |
| BulkReply.BulkIsSingles | internal/mdsshim/w9501s03.go:63-113 | every frame, fitting its count or not: refused if the count cannot be read, else same count, 6 + 546 n bytes behind the echoed header, and slot i is the single enquiry's answer to record i, blank when missing or unreadable, a zero quote when the price is unknown |
| BulkReply.HeaderIsEchoed | internal/mdsshim/w9501s03.go:103-111 | with a header split off the answer is the raw one behind the echoed header with its flag cleared |
| BulkReply.HeaderTakenForRecords | internal/mdsshim/w9501s03.go:27-31 | a header that is not split off |

## Left out

- Sockets, HTTP, TLS, UDP, gRPC and websocket transport, metrics, logging, configuration and the admin handlers.
- `strtod`, `strtoll`, `ParseFloat` and number formatting, rounding, overflow and not-a-number: readers and printers are parameters, assumed inverse on the numbers a message prints where a round trip needs it.
- Unicode white space in field trimming is not modelled.
- Bars, ticks and subscribers are values in maps, so pointers shared between goroutines (a bar handed to a handler, a subscriber held by its loops) are not aliased.
- BarTable.PgxInserter.Insert: a batch that fails leaves the table as it was; what a failed batch may have stored in part is not modelled.
- PricingCas.RunInv: the call's retry loop and the sync jobs are modelled as steps; layers other than the swap points are one value.
- QuoteMatcher.Matcher.Submit: each compare-and-swap loop is one comparison there; the loops themselves are steps of the machine.
- AuditRing.BackendsAgree: no Redis call fails; a push that is lost or trimmed late is not modelled.
- JsonStrings.EscapeInto: what a refused call leaves in the buffer is not stated, nor for JsonStrings.PercentEncodeInto.
- BarAggregator.Aggregator.OnTick: the body decoder is a parameter.
- Backfill before live chart data: what it queues is an arbitrary start of the queue.
- The dual-write publisher, the krx hubs, the swap lock and market calls of the C client, reject classification labels and Redis failure counters: they would add only easy members.
