# Isopace, verified

A Dafny model of the core of Isopace, the ISO 8583 messaging and payment switching
framework, and proofs about it. `dafny verify dfyconfig.toml` checks all of it.

- **The wire.** Schema-driven Marshal and Unmarshal with lazily decoded fields, edits through
  paths and nested positional composites (`Engine`, `Coherence`, `Framing`, `Delivery`,
  `Messages`, `Drafts`, `Edits`, `Presence`, `Clones`, `Copies`), over the codecs for lengths, bitmaps,
  packed decimals, hex, amounts and BER-TLV (`LengthCodecs`, `Bitmaps`, `Bcd`, `Hex`,
  `FieldCodecs`, `Decimals`, `BerTlv`) and field paths (`Paths`). What a message means is its
  `View`: the canonical values of its fields as a tree. `Loose` is what reads and edits keep;
  `Coherent` is that and a test that every value set fits its field, which Marshal followed by
  Unmarshal needs of the message sent.
- **The durable queue.** The log format and its tears (`StoreLog`), the queue and its
  invariant (`Stores`, `StoreQueue`), whole runs (`StoreRuns`) and runs cut at any octet
  (`StoreCuts`).
- **The reconciler.** Host and deployer (`Hosts`, `Deployers`, `HostObjects`), which states
  converge (`Convergence`, `Reconciliation`) and which never do (`Stranding`, `Histories`).
- **Concurrency as step machines.** The multiplexer (`Muxes`, `MuxSafety`), the local space
  (`Locals`), the link pool (`Pools`, `PoolRuns`) and the demo issuer's ledger (`Ledgers`): a
  step is what happens under one lock or at one channel operation, and every theorem holds for
  every interleaving of steps.
- **The transaction manager.** One run over stages that may behave in any way (`Flows`,
  `FlowRuns`, `Retries`), runs in flight at the same time (`InFlight`), and the demo pipeline
  as such a run (`Authorizations`).
- **Framing and cryptography.** The XML framer (`XmlFrames`, `XmlTags`, `XmlStreams`), MACs in
  software and on a token (`Macs`), and DUKPT (`Registers`, `Dukpt`), over any block cipher
  whose decryption undoes its encryption.

Clocks, randomness, the network, files and the outcomes of other people's code are
parameters: an oracle says which component starts and stops succeed, a parser what a
descriptor says, a world what a stage answers.

## Model

| member | source | states |
|---|---|---|
| `Engine.Unmarshal` | iso8583/codec.go:58-106 | the structural parse, MTI, bitmap and fields in ascending order, is the specification the round trip is proved about, with the same error at the same field |
| `Engine.DeriveBitmap` | iso8583/codec.go:130-135 | the bitmap Marshal sends is derived from the present slots alone |
| `Engine.AppendFields` | iso8583/codec.go:144-158 | present fields go out in ascending order behind dst; the first error discards everything |
| `Engine.Marshal` | iso8583/codec.go:115-159 | an unmodified decoded message is its source octets; any other is MTI, derived bitmap and fields behind dst |
| `Coherence.SpanMoves` | iso8583/codec.go:221-244 | a field parses by its own octets only: the same octets at another offset of another buffer are the same field, moved |
| `Coherence.CleanChunk` | iso8583/codec.go:260-265 | a clean field copied out of its source still parses, to the same body |
| `Framing.WireParses` | iso8583/codec.go:58-106 | a wire laid out as MTI, bitmap and fields is accepted, consumed to its last octet, and shows exactly those fields |
| `Delivery.FramedParses` | iso8583/codec.go:58-159 | every element that renders to a field arrives as that field, byte for byte, and nothing is left over |
| `Delivery.RoundTrips` | iso8583/codec.go:58-159 | for every usable schema at any nesting depth and every coherent message: Marshal succeeds, Unmarshal accepts it and shows the same fields with the same canonical values, and untouched fields keep their octets |
| `Delivery.DecodedCoherent` | iso8583/codec.go:58-106 | whatever Unmarshal accepts is coherent |
| `Messages.UnsignedIntoAmount` | iso8583/message.go:483-513 | a number put into an amount field means the same signed and unsigned exactly when it is zero; an unsigned one is always sent as zero |
| `Messages.Message.constructor` | iso8583/message.go:61-78 | a message object holds the state it was made from |
| `Messages.Message.Get` | iso8583/message.go:128-133 | a read answers as specified and changes nothing but memoised values |
| `Messages.Message.DecodeSlot` | iso8583/message.go:224-258 | a slot is decoded on first access and remembered |
| `Messages.Message.Set` | iso8583/message.go:282-310 | the slot is replaced, the bitmaps updated and the message owned, or an error leaves it as it was |
| `Messages.Message.EnsureChild` | iso8583/message.go:366-399 | the composite element holds a child to write into, made or decoded on demand |
| `Messages.Message.SetP` | iso8583/message.go:315-361 | a path write descends child by child, marking every composite on the way dirty |
| `Messages.Message.Unset` | iso8583/message.go:411-424 | the element is emptied and its bit cleared |
| `Messages.Message.Seal` | iso8583/message.go:445-448 | only the seal changes |
| `Drafts.SoundIff` | iso8583/message.go:282-361 | the invariant of delivery is exactly that of editing plus a test of the values set: Set and SetP test no length, so only the message finally sent has to pass it |
| `Edits.GetSound` | iso8583/message.go:128-133 | a read keeps the invariant of editing and the meaning, and the second read answers as the first |
| `Edits.GetAnswers` | iso8583/message.go:224-258 | Get answers exactly for the elements held, other than those whose octets do not decode, with the meaning the message has there |
| `Edits.SetPathSound` | iso8583/message.go:315-361 | a path write overrides exactly that element of the meaning, at any depth, whether or not the value fits |
| `Edits.FinishedDelivers` | iso8583/codec.go:58-159 | any edits of any draft: if the finished message fits, it is sent and read as the original overridden by the edits |
| `Edits.EditsSound` | iso8583/message.go:282-424 | any sequence of reads, sets, path sets and removals, whatever fits on the way, keeps the invariant of editing and overrides the meaning edit by edit |
| `Edits.EditedWireDelivers` | iso8583/codec.go:58-159 | decode, edit, encode, decode gives exactly the original fields overridden by the edits, if the finished message fits |
| `Edits.UntouchedOctets` | iso8583/codec.go:260-265 | every field no edit touches goes out with the octets it came in with |
| `Edits.BuiltMessageDelivers` | iso8583/message.go:61-67 | a message built from nothing arrives as the edits that built it, if it fits when it is sent |
| `Edits.SealedRefuses` | iso8583/message.go:282-285 | a sealed message refuses a write with ErrSealed and a removal silently |
| `Edits.SealedKeeps` | iso8583/message.go:445-448 | whatever is tried on a sealed message, it means the same, and what it sends is read as that |
| `Presence.BitmapNamesWhatIsHeld` | iso8583/message.go:282-310 | through any edits of a decoded or new message the bitmap names exactly the elements held |
| `Clones.CloneSendsSource` | iso8583/message.go:455-479 | the copy of a decoded message sends the source octets, whatever was edited |
| `Clones.CloneDelivers` | iso8583/message.go:455-479 | a message with no edit hidden behind a source and its copy send the same octets and mean the same; the copy is unsealed |
| `Clones.ReplayedResponse` | flow/idempotency.go:52-71 | the clone of a clone, as the idempotency store hands it out, sends what the first answer sent, if that was cloneable |
| `Copies.CopyMeansIff` | iso8583/message.go:455-479 | for every coherent message, built or decoded, at any depth: the copy delivers the meaning exactly when every decoded part still means what its source says and what each child's copy sends fits its field |
| `Clones.CloneDropsAnEdit` | iso8583/message.go:455-479 | a concrete wire and edit: decoded and edited, the message sends the edit and its copy sends the wire |
| `Bitmaps.RangeWord` | iso8583/bitmap.go:113-128 | one 64-bit word yields its elements by leading zeros, ascending, continuation bits left out |
| `Bitmaps.Range` | iso8583/bitmap.go:113-128 | Range yields the present elements in ascending order |
| `Bitmaps.BelowIsSorted` | iso8583/bitmap.go:113-128 | that order lists exactly the members, each once |
| `Bitmaps.WriteBitmap` | fieldcodec/bitmap.go:82-88 | the words needed, announced by their continuation bits, behind dst |
| `Bitmaps.ReadBitmap` | fieldcodec/bitmap.go:60-80 | levels are read while announced, and no further than allowed |
| `Bitmaps.BitmapRoundTrip` | fieldcodec/bitmap.go:32-88 | what is written is read back, wherever it stands, as the same elements exactly when every element is addressable: not 1, not 65, and within the levels |
| `FieldCodecs.PadFixed` | fieldcodec/fieldcodec.go:66-90 | a fixed field is padded on the proper side to its width, or refused |
| `FieldCodecs.PutBinary` | fieldcodec/numeric.go:122-137 | the low octets of the number, most significant first |
| `FieldCodecs.ScalarRoundTrip` | fieldcodec/fieldcodec.go:47-90 | on every usable field, for every scalar codec, a value survives encoding, its length prefix and decoding exactly when a test on the value alone says it fits |
| `Hex.HexRoundTrip` | fieldcodec/hex.go:30-49 | hex text of octets reads back as the octets |
| `LengthCodecs.PrefixRoundTrip` | lengthcodec/length.go:70-156 | a length is written exactly when the prefix can carry it, in the announced number of octets, and is read back wherever it stands |
| `LengthCodecs.AtoiDigits` | lengthcodec/length.go:174-183 | digits denote their number, anything else is refused |
| `LengthCodecs.DecimalPad` | lengthcodec/length.go:160-172 | zero-padded decimal of the width, or a refusal |
| `LengthCodecs.ReadBinary` | lengthcodec/length.go:104-112 | big-endian octets denote their number |
| `Bcd.Pack` | internal/bcd/bcd.go:35-61 | right-justified packing, a leading zero nibble for an odd count, non-digits refused |
| `Bcd.PackRight` | internal/bcd/bcd.go:99-118 | left-justified packing, a trailing zero nibble for an odd count |
| `Bcd.Unpack` | internal/bcd/bcd.go:66-94 | the digits, or the error for a negative count, a short input or a bad nibble |
| `Bcd.UnpackRight` | internal/bcd/bcd.go:122-143 | the same, left-justified |
| `Bcd.PackRoundTrip` | internal/bcd/bcd.go:35-143 | unpacking undoes packing, for odd counts and both alignments |
| `Decimals.MulCheckExact` | iso8583/decimal.go:144-153 | mulCheck returns the product or a refusal exactly as the product fits 64 bits, except at the least integer times minus one |
| `Decimals.AddCheckExact` | iso8583/decimal.go:156-162 | addCheck returns the sum or a refusal exactly as the sum fits |
| `Decimals.Pow10` | iso8583/decimal.go:40-49 | ten to the n, or none past the largest scale |
| `Decimals.RescaleUp` | iso8583/decimal.go:90-116 | growing the scale is exact, and refused exactly on overflow |
| `Decimals.RescaleDown` | iso8583/decimal.go:90-116 | shrinking the scale succeeds exactly when some integer has the same value at that scale |
| `Decimals.AddExact` | iso8583/decimal.go:120-138 | Add is the exact sum at the larger scale, and fails exactly when that, or either rescaling, overflows |
| `Decimals.TextRoundTrip` | render/xmlio/xmlio.go:334-351 | printing and parsing gives the decimal back exactly when it is not the least integer |
| `Paths.ParseElement` | iso8583/path.go:212-241 | one path element, by number or tag, or its error |
| `Paths.ParseUncached` | iso8583/path.go:184-210 | dotted elements up to the depth limit, or the first error |
| `Paths.PathRoundTrip` | iso8583/path.go:105-210 | every path that parses prints to a text that parses to the same path |
| `Paths.StoreEvictsOldest` | iso8583/path.go:150-164 | the bounded cache stays sound and evicts exactly the oldest key, only when full |
| `Paths.Cache.Lookup` | iso8583/path.go:143-148 | a hit is the parse of the text |
| `Paths.Cache.Store` | iso8583/path.go:150-164 | storing keeps the cache sound and the capacity |
| `Paths.Cache.ParsePath` | iso8583/path.go:169-182 | through the cache, the result is that of parsing without it |
| `BerTlv.ScanTag` | fieldcodec/tlv/bertlv.go:129-142 | a tag is one octet, or a first with all low bits set and octets up to the first without its high bit |
| `BerTlv.ReadLength` | fieldcodec/tlv/bertlv.go:145-164 | short form, or one to four length octets; anything else is refused |
| `BerTlv.ReadOne` | fieldcodec/tlv/bertlv.go:124-169 | one triplet, or its error |
| `BerTlv.DecodeBody` | fieldcodec/tlv/bertlv.go:49-79 | the loop yields the triplets of the body put into the child one after the other, or the first error |
| `BerTlv.EncodeBody` | fieldcodec/tlv/bertlv.go:83-112 | the child's tags in first-seen order, or an error for a tag that is not hex |
| `BerTlv.TagMessage.PutTag` | iso8583/message.go:186-195 | a new tag is appended to the order, a known one keeps its place |
| `BerTlv.LengthStands` | fieldcodec/tlv/bertlv.go:174-187 | every length below 2^32 is read back from the form it is written in |
| `BerTlv.ListRoundTrip` | fieldcodec/tlv/bertlv.go:49-187 | a list of distinct well-formed tags comes back as it was, tags and values in order |
| `BerTlv.ChildRoundTrip` | fieldcodec/tlv/bertlv.go:49-187 | encoding a canonical child and decoding it gives it back |
| `BerTlv.DecodeIsStable` | fieldcodec/tlv/bertlv.go:49-187 | whatever decodes, duplicates and long length forms included, re-encodes to octets that decode to the same child |
| `StoreLog.EncodeRecord` | space/store.go:335-354 | the buffer filled field by field is the record format |
| `StoreLog.RecordReads` | space/store.go:358-397 | readRecord undoes encodeRecord, whatever follows |
| `StoreLog.CutRecordReads` | space/store.go:358-397 | a record cut anywhere reads as the end of the log, never as corruption |
| `StoreLog.CutScans` | space/store.go:91-122 | a log cut at any octet scans to the longest prefix of its records that is whole |
| `StoreLog.AppendedIsRead` | space/store.go:236-246 | a record appended behind the first octets of another is read in its place exactly when there is no tear, none of the other's octets or all of them; then replay goes on as if nothing had happened |
| `StoreLog.SwallowedByTear` | space/store.go:358-397 | nothing behind a tear is read at all exactly while the length found there reaches past the end of the log |
| `StoreLog.TornComesBackChanged` | space/store.go:358-397 | a concrete tear: the torn push comes back with a wrong value and the tombstone behind it is lost |
| `Stores.PushRebuilds` | space/store.go:91-130 | no old tombstone kills a new entry |
| `Stores.PushKeeps` | space/store.go:133-147 | a push keeps the invariant that the log replays to the queues |
| `Stores.TakeKeeps` | space/store.go:194-208 | a pull's tombstone kills exactly the head it took |
| `Stores.CompactKeeps` | space/store.go:251-307 | compaction, in whatever order the keys come, leaves a log without tombstones that replays to the same queues |
| `Stores.ReopenKeeps` | space/store.go:91-130 | replay gives back exactly the queues in memory |
| `StoreRuns.StoreIsFifo` | space/store.go:91-307 | over every run of pushes, pulls, compactions and reopenings: what was pulled under a key and what is queued is what was pushed, and the log replays to the queues |
| `StoreRuns.CrashRecovers` | space/store.go:91-246 | after any run of pushes, pulls and reopenings behind any state, a cut at any octet recovers the queues as they were after exactly the operations whose records are whole |
| `StoreCuts.CutAnyRun` | space/store.go:91-130 | the log of any run, compacted or not, cut at any octet, replays its whole records |
| `StoreCuts.CutIsSegment` | space/store.go:91-307 | whatever the run and wherever its log is cut, each key recovers consecutive values as they were pushed |
| `StoreQueue.ReadLog` | space/store.go:91-122 | replay's first loop collects entries, tombstones and the next number |
| `StoreQueue.Replay` | space/store.go:91-130 | replay queues the entries no tombstone kills, or refuses a corrupt log |
| `StoreQueue.Store.Push` | space/store.go:133-147 | the record is appended and the value queued; a closed store changes nothing |
| `StoreQueue.Store.Pull` | space/store.go:194-208 | the head is taken and its tombstone appended, or nothing changes |
| `StoreQueue.Store.Peek` | space/store.go:211-219 | the head, and no change |
| `StoreQueue.Store.Compact` | space/store.go:251-307 | the log becomes the live entries, key by key |
| `StoreQueue.Store.Close` | space/store.go:321-330 | only the closed mark changes |
| `Locals.NoLostWakeup` | space/local.go:40-92 | in every interleaving a waiter whose key has an entry, or whose space is closed, is about to look or about to be woken |
| `Locals.TakenOnceInOrder` | space/local.go:46-128 | entries leave in the order they came, each to one call |
| `Locals.Local.Out` | space/local.go:46-54 | the entry joins its queue and the waiters are signalled |
| `Locals.Local.Inp` | space/local.go:95-105 | the head is taken, or none |
| `Locals.Local.Rdp` | space/local.go:108-116 | the head, left in place |
| `Hosts.DeploySound` | runtime/host.go:199-213 | a deploy keeps the host sound and adds the component exactly when it succeeds |
| `Hosts.UndeploySound` | runtime/host.go:216-240 | an undeploy removes the component whether or not its stop succeeded |
| `Hosts.StopStopsAll` | runtime/host.go:151-195 | a stop stops every running component once, in reverse order, whatever fails |
| `Hosts.StartStartsAllOrNone` | runtime/host.go:118-163 | a start runs everything in order, or stops exactly those before the one that failed, in reverse |
| `HostObjects.Host.StartAll` | runtime/host.go:118-135 | the loop and its rollback are the specified start |
| `HostObjects.Host.StopAll` | runtime/host.go:180-195 | the loop is the specified stop |
| `HostObjects.Host.Remove` | runtime/host.go:231-240 | the name leaves the order and the components |
| `HostObjects.Host.Deploy` | runtime/host.go:199-213 | the specified deploy, its rollback on a failed start included |
| `HostObjects.Host.Undeploy` | runtime/host.go:216-228 | the specified undeploy |
| `HostObjects.Deployer.Teardown` | runtime/deploy.go:252-258 | the entry stays when the stop fails |
| `HostObjects.Deployer.ApplyOne` | runtime/deploy.go:214-248 | build, tear down, deploy, in that order, with each failure's leftovers |
| `HostObjects.Deployer.Scan` | runtime/deploy.go:170-211 | changed files applied, then vanished ones undeployed |
| `Convergence.TwoScansConverge` | runtime/deploy.go:170-258 | from a consistent state, if everything then succeeds, two scans bring the host to the directory, even if names moved between files |
| `Convergence.ScanRests` | runtime/deploy.go:170-211 | a scan of a converged host changes nothing and calls nothing, whatever would fail |
| `Reconciliation.ScanKeeps` | runtime/deploy.go:170-258 | any scan keeps consistency as long as no replaced component fails to stop |
| `Reconciliation.ReachableConverges` | runtime/deploy.go:170-258 | every state reached by any history of scans and host operations in which replaced components stop converges in two scans and then rests, everything running |
| `Stranding.StrandedNeverSettles` | runtime/deploy.go:214-258 | from an inconsistent state some good directory is reached by no number of scans, in any order |
| `Stranding.ConvergesIffConsistent` | runtime/deploy.go:214-258 | a state reaches every good directory exactly when every applied entry still has its component and no two share a name |
| `Stranding.StopFailureStrands` | runtime/deploy.go:252-258 | a concrete scan in which a failed stop leaves such a state |
| `Histories.ReachedConvergesIff` | runtime/deploy.go:170-258 | the same exact condition in every state any history reaches, failed stops and interfering undeployments included; without it there is a good directory no number of scans reaches |
| `MuxSafety.SendNeverBlocks` | mux/mux.go:130-196 | a call's channel receives at most one frame, so the reader's send never blocks |
| `MuxSafety.EveryFramePlacedOnce` | mux/mux.go:171-196 | every received frame goes to exactly one call, or once to the unsolicited path |
| `MuxSafety.ResponseMatchesRequest` | mux/mux.go:130-196 | a response returned is a frame with the call's key that went to that call alone |
| `MuxSafety.FirstCauseStays` | mux/mux.go:235-242 | once stopped, the cause never changes |
| `MuxSafety.ReportedCauseIsFirst` | mux/mux.go:246-251 | a stopped call reports the first cause |
| `MuxSafety.MatchingFrameReachesCall` | mux/mux.go:130-196 | without early key reuse every frame matching a call still waiting goes to that call |
| `MuxSafety.LosesIffReused` | mux/mux.go:130-169 | in every reachable state a call that registers can lose a frame that answers it exactly when an earlier call with its key has yet to return, frames still come and some frame has the key |
| `MuxSafety.EarlyReuseLosesAFrame` | mux/mux.go:130-169 | a concrete run from the start in which that happens |
| `Flows.AppendGroups` | flow/flow.go:197-206 | the named groups' stages behind the work list, or the unknown one |
| `Flows.PreparePass` | flow/flow.go:126-163 | the prepare loop, its work list growing as stages route |
| `Flows.CommitJoined` | flow/flow.go:218-237 | joined committers in order, every error kept |
| `Flows.AbortJoined` | flow/flow.go:239-256 | joined aborters in reverse |
| `Flows.Run` | flow/flow.go:102-187 | the whole run: checks, replay, both phases, journal and store |
| `FlowRuns.RunIsTwoPhase` | flow/flow.go:102-187 | whatever the stages do: at most the allowed prepares, then the commits of exactly the stages that voted to join, or their aborts, never both, and the journal says which |
| `FlowRuns.JoinedIsSettledOnce` | flow/flow.go:218-256 | a stage that joined k times gets k commits and no abort, or k aborts and no commit |
| `FlowRuns.PreparedEnds` | flow/flow.go:126-163 | why the prepare pass ended, exactly |
| `FlowRuns.CommitsInOrder` | flow/flow.go:218-237 | each joined committer is committed once, in join order |
| `FlowRuns.AbortsInReverse` | flow/flow.go:239-256 | each joined aborter is aborted once, in reverse join order |
| `FlowRuns.JournalShape` | flow/flow.go:102-187 | Begin and then one outcome, a lone replay, or nothing; without Begin no stage is called |
| `FlowRuns.DuplicateIsReplayed` | flow/flow.go:111-122 | after a run under a key that succeeded, and whatever runs follow one after the other, the key is answered with that response and no stage is called |
| `FlowRuns.StoredIffSucceeded` | flow/flow.go:179-186 | over any sequence of runs a key is stored exactly when some run under it succeeded |
| `InFlight.AloneIsRun` | flow/flow.go:102-187 | Lookup, the stages and Store as separate steps, with nothing in between, are the run |
| `InFlight.ProcessedIff` | flow/flow.go:111-186 | in every interleaving of any number of runs, a call's stages run exactly when no call with its key had stored before it looked |
| `InFlight.BothProcessedIff` | flow/flow.go:111-186 | of two calls with one key both are processed exactly when the second looks before the first has stored |
| `InFlight.RunsTwice` | flow/flow.go:111-186 | a concrete interleaving in which both run all their stages |
| `Retries.Prepare` | flow/retry.go:69-91 | attempts stop at the first that settles, exhausts the policy or is cut short, and return that one's result |
| `Retries.MemoryStore.Lookup` | flow/idempotency.go:52-60 | hands out a clone of exactly what is stored, a nil response included |
| `Retries.MemoryStore.Store` | flow/idempotency.go:64-71 | records a clone of the response under the key |
| `Ledgers.Ledger.Hold` | examples/flowdemo/authflow.go:74-83 | moves the amount from available to held, or changes nothing when it is short |
| `Ledgers.Ledger.Capture` | examples/flowdemo/authflow.go:86-90 | takes the held amount for good |
| `Ledgers.Ledger.Release` | examples/flowdemo/authflow.go:93-98 | returns the held amount |
| `Ledgers.FundsAreConserved` | examples/flowdemo/authflow.go:74-251 | in every interleaving of any number of authorizations and cancellations: funds are conserved per card, nothing is overdrawn, what is held is what unfinished exchanges reserved, and balances stay within the opening one |
| `Authorizations.MovedIsAdvanced` | examples/flowdemo/authflow.go:212-224 | an exchange's stage depends on the books only through whether its hold finds the funds, and changes them only by that hold |
| `Authorizations.ExchangeIsRun` | examples/flowdemo/authflow.go:132-251 | the demo pipeline run by the transaction manager settles each hold, and commits, exactly as the ledger's exchange does, for every request, balance and cancellation |
| `Pools.Get` | link/pool.go:76-93 | a closed pool is refused; otherwise the first healthy link from next on is returned and next moves past it, or there is none |
| `Pools.FindHealthy` | link/pool.go:76-93 | the loop over the slots finds that link |
| `Pools.GetTurns` | link/pool.go:76-93 | each Get returns the first healthy link in turn and puts it last |
| `Pools.GetsVisitEach` | link/pool.go:76-93 | as many Gets as there are healthy links return each of them once |
| `PoolRuns.OneReconnectorPerEmptySlot` | link/pool.go:97-151 | in every interleaving, while the pool is open, an empty slot has exactly one reconnector and a filled one none |
| `PoolRuns.CloseShutsEveryLink` | link/pool.go:154-166 | once a Close has returned, every link ever dialled is shut and none will be dialled |
| `XmlFrames.ReadName` | link/xmlframe.go:135-141 | the run up to space, slash or the end |
| `XmlFrames.ClassifyTag` | link/xmlframe.go:114-131 | trim, skip, and compare the name, as classified |
| `XmlFrames.ReadFrame` | link/xmlframe.go:52-107 | the byte loop is the specified machine, end of stream and size limit included |
| `XmlFrames.WriteFrame` | link/xmlframe.go:38-47 | the body and a newline, or a refusal past the limit |
| `XmlTags.Classified` | link/xmlframe.go:114-141 | over the grammar of XML tags: a tag opens exactly when it is a start or empty-element tag named isomsg, whatever its attributes, closes exactly when it is an end tag of that name, and everything else is ignored |
| `XmlStreams.DocumentIsFrame` | link/xmlframe.go:52-107 | one document, nested to any depth, is one frame, and nothing past it is read |
| `XmlStreams.StreamIsDocuments` | link/xmlframe.go:38-107 | reading a stream of written documents returns them all, in order, and then the end |
| `Macs.ApplyPadding` | vault/mac.go:125-148 | both padding methods of ISO/IEC 9797-1 fill whole blocks |
| `Macs.Iso9797Pad` | adapters/pkcs11/pkcs11.go:341-361 | the token adapter pads alike |
| `Macs.Pad2Injective` | vault/mac.go:125-148 | no two messages pad alike under method 2 |
| `Macs.Pad1Alike` | vault/mac.go:125-148 | two messages pad alike under method 1 exactly when they take as many blocks and one is the other with zeros behind it |
| `Macs.Pad1NotInjective` | vault/mac.go:125-148 | two concrete messages that do |
| `Macs.CbcMacLoop` | vault/mac.go:115-122 | the loop computes the CBC-MAC |
| `Macs.CipherEndsInMac` | adapters/pkcs11/pkcs11.go:293-307 | the last block of the CBC ciphertext is the CBC-MAC |
| `Macs.MacCollapses` | adapters/pkcs11/pkcs11.go:293-307 | under K, K, K triple-DES CBC-MAC is the single-DES one |
| `Macs.TokenMac` | adapters/pkcs11/pkcs11.go:226-267 | the adapter's MAC, its missing keys included |
| `Macs.TokenMacIsSoftware` | adapters/pkcs11/pkcs11.go:226-267 | for every message, padding and key the token's MAC is the software MAC |
| `Macs.VerifyMac` | vault/mac.go:79-88 | accepts exactly the non-empty leading parts of the MAC; lengths out of range and bad keys are errors |
| `Registers.SetCounterBit` | vault/dukpt.go:132-136 | on the register's octets and the 32-bit shift, exactly one bit is set: the counter bit the shift stands for |
| `Registers.CounterBit` | vault/dukpt.go:126-128 | testing the joined 32-bit counter against the shift tests that counter bit of the KSN |
| `Registers.InitialRegister` | vault/dukpt.go:84-94 | the rightmost 8 octets of the KSN with the 21 counter bits off |
| `Dukpt.DeriveSessionKey` | vault/dukpt.go:78-106 | the loop over the shifting word, with the register's octets in place, computes the walk over the counter's bits, or refuses bad lengths |
| `Dukpt.SessionKeyIsOneStep` | vault/dukpt.go:78-150 | the key for a counter is one generation step from the key for the counter with its lowest set bit cleared, under the KSN's rightmost 8 octets |
| `Dukpt.SessionKeySteps` | vault/dukpt.go:78-106 | there are as many steps as set counter bits; with none the session key is the initial key |
| `Dukpt.IpekIgnoresCounter` | vault/dukpt.go:46-72 | the initial key is the same for every counter value of a device |

## Findings

Properties that turned out false of the code, each with an input that shows it and the exact
condition under which it holds.

- Clone forgets that a decoded message was edited, so the copy sends the unedited source
  (iso8583/message.go:455-479). `Clones.CloneDropsAnEdit` is such a message;
  `Copies.CopyMeansIff` gives the condition for every message. The idempotency store keeps
  clones, so a stored response is affected too.
- A failed stop strands the reconciler: the host has dropped the component, the applied entry
  stays, and some good directory is then reached by no number of scans
  (runtime/deploy.go:252-258).
  `Stranding.StopFailureStrands`, and `Histories.ReachedConvergesIff` for the condition.
- The multiplexer's deferred delete is by key, so a call that reuses the key of one still
  returning can lose its response (mux/mux.go:143-147). `MuxSafety.EarlyReuseLosesAFrame`, and
  `MuxSafety.LosesIffReused` for the condition.
- An unsigned integer stored in an amount field leaves the amount at zero
  (iso8583/message.go:483-513). `Messages.UnsignedIntoAmount`.
- mulCheck accepts the least integer times minus one (iso8583/decimal.go:144-153), and the
  least integer does not print and parse back (render/xmlio/xmlio.go:334-351).
  `Decimals.MulCheckExact`, `Decimals.TextRoundTrip`.
- A record appended behind a torn tail is never read in its place, and may change what the
  torn record comes back as (space/store.go:236-246). `StoreLog.TornComesBackChanged`, and
  `StoreLog.AppendedIsRead` for the condition: the tail is torn.
- Two exchanges with one idempotency key are both processed when the second looks before the
  first has stored, so a retransmission in flight runs its stages again (flow/flow.go:111-122,
  179-186). `InFlight.RunsTwice`, and `InFlight.ProcessedIff` for the condition.
- Padding method 1 is not injective (vault/mac.go:125-148), as ISO/IEC 9797-1 allows.
  `Macs.Pad1NotInjective`, and `Macs.Pad1Alike` for the condition.

## Left out

- StoreRuns.StoreIsFifo: pushed records fit the format, that is a body below 2^32 octets and a sequence number below 2^64; the wrap of the 64-bit counter is not modelled.
- StoreRuns.CrashRecovers: the operations behind the starting state do not compact, since a compaction replaces the log; a cut of any log, compacted or not, is StoreCuts.CutIsSegment.
- StoreQueue.Store.Push: appends either complete or are cut by a crash; an append that fails and leaves octets behind, fsync, and runs that go on behind a torn tail are not part of the store's runs.
- StoreQueue.Store.Pull: the non-blocking half; waiting and wake-ups are modelled in Locals, whose code is the same.
- Convergence.TwoScansConverge: everything succeeds during the two scans; what failures leave behind is stated by Reconciliation and Histories.
- HostObjects.Deployer.Scan: takes the order of the files and of the applied map as a parameter; factories build components of the descriptor's name; errors are kept as success or failure only.
- Copies.CopyMeansIff: in a built message, what a child's copy sends must fit where the child's field has a fixed width, since octets of another width shift every field behind them; a field with a length prefix and a decoded message need nothing.
- Messages.Message.SetP: positional elements; the branch for tag-addressed children, which hold no positional element, is not part of the engine's model.
- FieldCodecs.ScalarRoundTrip: the fixed-width number codecs (binary and amounts) on fixed fields only, which is where the wire width follows from the schema.
- Edits.EditsSound: a composite handed in whole as a value is an unsealed message of the field's schema; any other value may be handed in, and none has to fit.
- XmlTags.Classified: tags as escaped XML writes them, with no angle bracket inside; a declaration or comment body is any text without one.
- BerTlv.DecodeBody: tags with raw values; a tag with a codec of its own, and the upper-casing of a tag given by a caller, are not modelled.
- Authorizations.ExchangeIsRun: one exchange at a time with its funds and cancellations as parameters; their interleaving is FundsAreConserved. Response messages and idempotency are not part of the pipeline's world.
- Macs.TokenMacIsSoftware: the token does not fail; sessions and PKCS#11 errors are left out.
- Child messages are values: two parents sharing one child object are not modelled.
- EBCDIC codecs, UTF-8 checks and BER-TLV composites inside the wire engine.
- Validate, Fields, HasP, GetP, UnsetP and the string-path variants, which add only easy members.
- DES, triple-DES and AES themselves, PIN blocks, key blocks, SHA-256 MACs and the HSM command adapters.
- Sockets, TLS, timers, backoff, logging, profiling, journal write failures and metrics.
- Fairness and liveness beyond enabledness of the next step.
- Packager tables, the codec registry, typed accessors, description, JSON and ISO 20022 rendering, role-based access, operations endpoints and configuration.
