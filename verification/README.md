# ferrite in Dafny

ferrite collects telemetry from embedded devices and updates their firmware. This project models the parts of it that
have to be right on every input and in every run, and proves what they promise:

- **Campaigns and OTA protocol** (`Campaigns`, `OtaProtocol`). The server's update campaigns as a state machine over
  its tables, a class `Store` that changes those tables as the handlers do, and one device with its bootloader states,
  resets at any point, and reports that are lost, delayed, repeated or reordered.
- **Wire format** (`Crc16`, `Wire`, `Framer`, `Rle`). The checksum loop, chunk and batch decoding, the gateway's
  resynchronising framer, run-length compression.
- **Sealed delivery** (`ReplayWindow`, `Credentials`, `Sealing`, `Grouping`). The 4096-bit replay window, the
  credential store with its boot epochs, sealing and opening of chunks end to end, grouping of a request by device.
- **Signed updates** (`Manifest`, `Download`). The manifest and its hex form, what a device accepts, and the streaming
  download into aligned flash blocks.
- **End to end** (`EndToEnd`). Sealing, noisy line, framer, batch decoder and server, composed.
- **Bounded stores** (`Trace`, `Metrics`, `Spool`, `RateLimit`) and the **evidence log** (`Evidence`, `Der`).

Code that changes state step by step is a class or a method with loops, proved against a specification function; the
properties are then lemmas about that function, over all inputs and over whole runs. `Bytes` and `Decimals` hold shared
arithmetic. `dafny verify dfyconfig.toml` checks everything.

Encryption, hashing, signatures, UTF-8 validity, the clock, network replies and flash faults are parameters; results
hold for all of them. Hash results are stated up to a collision, which the proof then hands over.

## What the model shows about the code

- A reinstalled bad build. After a rollback from build b to build a, a device does not install b again unless the server
  handled the rollback report and someone then offered b anew, if and only if the device does not read a's number as b
  (`OtaProtocol.NoReinstallIff`): the server prints build numbers signed and the device's parser skips the sign, so it
  reads a build above 2^63 as 2^64 minus it. That is under two promises between rollback and reinstallation: while a
  rollback is unreported, an acknowledged upload was handled (the gateway's listener at
  ferrite-gateway/src/http_ingest.rs:115-136 answers 200 once chunks are queued), and an image that starts after a
  rollback can read the bootloader state (`from_updater` sets neither flag on a read error). For each there is a run that
  fails without it, for any failed build up to 2^63, the only ones a device can fetch.
- Emptied replay windows. Advancing a row that was emptied restores a full window, so an old counter can be accepted
  twice (`Credentials.AcceptedTwice` is a reachable run). A step makes the table forget an accepted counter if and only if
  it ends the key or advances an emptied row to less than 4096 ahead of that counter; up to the first such step the
  counter is refused, and right after it it is accepted again.
- Rate-limit cleanup. Dropping idle buckets changes no decision of any run if and only if 300 seconds refill a bucket, or
  the burst is below one and nothing is ever admitted (`RateLimit.CleanupInvisibleIff`); and the limiter admits at most
  burst + rate * time calls in every stretch of every run if and only if the same holds (`RateLimit.WindowBoundIff`):
  otherwise a bucket can be drained, cleaned 300 seconds later and drained again. With the server's own burst rule both
  are so from one request in 30 seconds upwards.
- Trace frames. Eviction removes exactly one frame if and only if the frame's level, tick and payload bytes are free of
  the sentinel 0xFF; the length byte never is 0xFF (`Trace.EvictsWholeFrame`); clean or not, the buffer
  holds the longest end of the bytes written that fits and starts at their front or right after a sentinel (`Trace.HoldsLongestEnd`).
- Completion. A campaign completes when each device is installed or failed, although its log entry gives the reason "all
  devices installed"; and pausing by hand leaves the offers in place, only a rollback or an automatic pause withdraws
  them. The model follows the code.
- Length octets. `read_tlv` reads back what `der` writes if and only if the content is shorter than 2^32 bytes, and a
  timestamp status if and only if it is below 2^31.

## Model

| member | source | states |
|---|---|---|
| OtaProtocol.NoReinstall | examples/embassy-stm32h563/src/ota.rs:56-135 | In every run of device and server with resets, lost, late, repeated and forged reports: a rolled-back build is installed again only after the server handled a report of that rollback, sent after it, and then an operator or a campaign offered the build anew, given that the device does not read the restored build's number as the failed one. |
| OtaProtocol.NoReinstallIff | ferrite-sdk/src/ota.rs:120-172 | For a rollback from b to another build a, that holds in all runs if and only if the device does not read a's number as b. |
| OtaProtocol.InstallsComeFromOffers | ferrite-server/src/store.rs:1247-1267 | From any moment when neither server nor device holds build b, no installation of b happens without an offer of b in between. |
| OtaProtocol.UntilReported | examples/embassy-stm32h563/src/ota.rs:77-99 | Until the server has handled a report of the rollback, sent after it, the device stays in the revert state, running the restored build, unable to poll. |
| OtaProtocol.ReportCleans | ferrite-server/src/ingest.rs:1044-1084 | Handling that report leaves the device without a target it would read as the failed build. |
| OtaProtocol.UnreadStateReinstalls | examples/embassy-stm32h563/src/ota.rs:56-75 | For any failed build up to 2^63, the only ones a device can fetch, and any other restored build, a run in which the state cannot be read after the rollback, no report is handled, and the failed build is installed again. |
| OtaProtocol.LostAfterAckReinstalls | ferrite-gateway/src/http_ingest.rs:99-136 | For any failed build up to 2^63 and any other restored build, a run in which an acknowledged rollback report never reaches the server, with the same outcome. |
| OtaProtocol.WrappedBuildReinstalls | ferrite-sdk/src/ota.rs:309-320 | For any restored build that the device reads as the failed one, a run that keeps both promises: a target naming it survives the report and is installed as the failed build. |
| OtaProtocol.WireBuildIsParsed | ferrite-sdk/src/ota.rs:309-320 | The number the device parses from the server's JSON is the build itself if and only if the build is at most 2^63. |
| Decimals.SignIsLost | ferrite-sdk/src/ota.rs:309-320 | Parsing a decimal number, negative or not, yields its absolute value, whatever follows it. |
| OtaProtocol.Ota.FromUpdater | examples/embassy-stm32h563/src/ota.rs:56-75 | The two flags follow the bootloader state, and an unreadable state sets neither. |
| OtaProtocol.Ota.RollbackReported | examples/embassy-stm32h563/src/ota.rs:87-99 | Leaves the revert state only if a rollback was unreported and marking succeeded. |
| OtaProtocol.Ota.Confirm | examples/embassy-stm32h563/src/ota.rs:106-118 | Leaves the swap state only if a confirmation was pending and marking succeeded. |
| OtaProtocol.Ota.StartUpload | examples/embassy-stm32h563/src/main.rs:257-266 | An upload's report carries the running build and whether a rollback is unreported. |
| OtaProtocol.Ota.UploadSucceeded | examples/embassy-stm32h563/src/main.rs:261-288 | After a complete upload: confirm a new image, close a rollback only if the upload carried the flag. |
| OtaProtocol.Ota.Poll | examples/embassy-stm32h563/src/ota.rs:122-167 | Fetches a target only with neither flag set and only if it names another build than the running one. |
| OtaProtocol.Ota.MarkUpdated | examples/embassy-stm32h563/src/ota.rs:202-217 | The fetched image is in the second slot; the swap is pending only if marking succeeded. |
| Campaigns.CampaignsOnlyAdvance | ferrite-server/src/campaigns.rs:221-475 | Between any two moments of a run every campaign keeps its terms and devices, device statuses only rise, terminal campaigns are frozen, `created` is never re-entered, the activation time is set once. |
| Campaigns.InvAlways | ferrite-server/src/store.rs:1436-1499 | At every moment: rows sorted and unique, activation time set exactly off `created`, completed campaigns all done, log entries exact. |
| Campaigns.CompletedForever | ferrite-server/src/ingest.rs:1134-1157 | A completed campaign never changes again and has only installed and failed devices. |
| Campaigns.LoggedOnce | ferrite-server/src/ingest.rs:1100-1159 | In every run the log holds an installation exactly once per installed device and campaign, a completion exactly once per completed campaign, and none otherwise. |
| Campaigns.NeverOfferedAgain | ferrite-server/src/campaigns.rs:279-310 | A device that has left `pending` in a campaign is never chosen by any later activation of it. |
| Campaigns.RollbackEffect | ferrite-server/src/store.rs:1545-1588 | A rollback report withdraws exactly a stale target, fails the device in exactly its active undecided campaigns, pauses exactly those now over their threshold and withdraws all offers to their devices; the outcome lists exactly these. |
| Campaigns.RollbackIdempotent | ferrite-server/src/store.rs:1551-1588 | A second identical report changes nothing and reports nothing. |
| Campaigns.PausesExactly | ferrite-server/src/store.rs:1574-1585 | The campaign pauses if and only if one more failure exceeds `failure_threshold` percent of its devices. |
| Campaigns.FailureCounted | ferrite-server/src/store.rs:1565-1579 | Failing an undecided device raises the number of failures by exactly one. |
| Campaigns.ActivationOffers | ferrite-server/src/campaigns.rs:276-321 | Activation offers the campaign's build to exactly the first pending devices by id, marks exactly those downloading, and changes no other target or campaign. |
| Campaigns.FirstPending | ferrite-server/src/campaigns.rs:279-296 | A row is among the first n pending ones if and only if it is pending and fewer than n pending rows precede it. |
| Campaigns.CanarySize | ferrite-server/src/campaigns.rs:281-287 | A canary reaches the floor of its share of the pending devices, at least one, at most all. |
| Campaigns.InstallReport | ferrite-server/src/ingest.rs:1099-1159 | A report of the target build installs the device in exactly its active campaigns of that version and completes those that are done. |
| Campaigns.EnrolAllFresh | ferrite-server/src/store.rs:1447-1461 | A new campaign has one pending row per device, in order, however often a device is listed. |
| Campaigns.TargetsComeFromOffers | ferrite-server/src/store.rs:1247-1318 | After any step a device's target is the one before or one that this step set. |
| Campaigns.Store.UpdateCampaignStatus | ferrite-server/src/store.rs:1436-1445 | Sets the status, and the activation time only on the first activation. |
| Campaigns.Store.UpdateCampaignDeviceStatus | ferrite-server/src/store.rs:1487-1499 | Changes exactly the device's row of that campaign. |
| Campaigns.Store.DeleteOtaTargetsForCampaign | ferrite-server/src/store.rs:1617-1624 | Removes exactly the targets of the campaign's devices. |
| Campaigns.Store.Create | ferrite-server/src/campaigns.rs:50-178 | The table change is `CreateCampaign`; nothing without its artifact. |
| Campaigns.Store.Activate | ferrite-server/src/campaigns.rs:221-344 | The guarded loop over pending devices has exactly the effect `ActivateCampaign`, and returns how many were offered. |
| Campaigns.Store.Pause | ferrite-server/src/campaigns.rs:347-402 | Only an active campaign pauses. |
| Campaigns.Store.RollBack | ferrite-server/src/campaigns.rs:405-475 | Only an active or paused campaign rolls back, and then none of its devices has a target. |
| Campaigns.Store.RecordOtaRollback | ferrite-server/src/store.rs:1551-1588 | The loop over active campaigns yields exactly `RecordRollback`; a target that remains names the running build. |
| Campaigns.Store.OtaRequest | ferrite-server/src/ingest.rs:1034-1165 | The branch for OTA requests, rollback or installation, yields exactly `OtaReport`. |
| Crc16.Crc16Ccitt | ferrite-server/src/ingest.rs:26-39 | The loop computes the shift-register checksum. |
| Crc16.BurstDetected | ferrite-server/src/ingest.rs:26-39 | Every difference confined to 16 consecutive bits of equally long messages changes the checksum. |
| Crc16.AdjacentBytesDetected | ferrite-gateway/src/framing.rs:20-33 | In particular any change of at most two adjacent bytes. |
| Crc16.ShiftLinear | ferrite-server/src/ingest.rs:29-36 | Shifting the register is linear over exclusive or. |
| Crc16.ShiftInjective | ferrite-server/src/ingest.rs:29-36 | Shifting the register loses nothing. |
| Wire.DecodeIffEncoded | ferrite-server/src/ingest.rs:113-158 | Decoding yields a chunk if and only if the bytes start with its reference encoding. |
| Wire.DamageRejected | ferrite-server/src/ingest.rs:113-158 | A 16-bit burst of damage to flags, sequence or payload is answered with `CrcMismatch` and both sums. |
| Wire.DecodeAllChunks | ferrite-server/src/ingest.rs:198-214 | The batch loop decodes chunk by chunk and stops at the first error. |
| Wire.BatchRoundTrip | ferrite-server/src/ingest.rs:198-214 | A batch decodes to the chunks put into it, in order, then to what follows. |
| Framer.ChunkFramer.Feed | ferrite-gateway/src/framing.rs:63-135 | The buffer loop emits and keeps exactly what one scan of buffer and data does. |
| Framer.SplittingInvariant | ferrite-gateway/src/framing.rs:63-135 | Any partition of the stream gives the same chunks and the same leftover. |
| Framer.ScanIsGreedy | ferrite-gateway/src/framing.rs:67-132 | Input is discarded bytes, emitted frames and leftover in order, read greedily from the left. |
| Framer.ScanIsFirstReading | ferrite-gateway/src/framing.rs:67-132 | Every greedy reading of a buffer that leaves an undecided rest starts with the framer's own pieces, and equals them if and only if it leaves the framer's leftover: the framer gives up no byte it could wait on. |
| Framer.TwoReadings | ferrite-gateway/src/framing.rs:79-89 | Without the leftover a greedy reading is not determined: a magic byte before a wrong version waits until the header is complete, and could also be given up at once. |
| Framer.GreedyUnique | ferrite-gateway/src/framing.rs:67-132 | Two greedy readings of the same bytes with the same leftover, decided or not, are the same. |
| Framer.SkipMeansNoFrame | ferrite-gateway/src/framing.rs:84-112 | A discarded byte does not start a valid frame, whatever arrives later. |
| Framer.LeftoverBounded | ferrite-gateway/src/framing.rs:69-99 | What is kept is empty or starts with the magic byte, is shorter than 258 bytes and holds no whole frame at its front. |
| Framer.ForwardedFramesDecode | ferrite-server/src/ingest.rs:198-214 | What the framer emits, concatenated, the server decodes one for one up to the first frame of unknown type; it decodes all of it if and only if every type is 1 to 7. |
| Framer.Resynchronises | ferrite-gateway/src/framing.rs:63-135 | Chunks separated by noise without the magic byte all arrive, in order, and nothing else. |
| Rle.CountRun | ferrite-sdk/src/compression.rs:33-40 | The inner loop measures the run at a position, up to 255. |
| Rle.RleCompress | ferrite-sdk/src/compression.rs:29-72 | Writes exactly the compressed form, and only if it fits and is shorter than the input. |
| Rle.RleDecompress | ferrite-sdk/src/compression.rs:75-106 | Succeeds if and only if the input expands within the output, and writes the expansion. |
| Rle.RoundTrip | ferrite-sdk/src/compression.rs:29-106 | Expanding a compressed string gives it back, marker bytes and long runs included. |
| Rle.SendChunk | ferrite-sdk/src/compression.rs:123-169 | The bytes handed on are exactly the rewritten or the original chunk. |
| Rle.DecompressPayload | ferrite-sdk/src/compression.rs:189-204 | Unpacks in place or refuses, as the specification says. |
| Rle.Transparent | ferrite-sdk/src/compression.rs:123-204 | A compressed chunk is a good chunk of the same type and sequence whose payload unpacks to the original, at most one byte longer; otherwise the chunk goes out unchanged. |
| ReplayWindow.WindowAccept | ferrite-server/src/credentials.rs:300-327 | On packed bits: Replayed exactly for remembered counters, Stale exactly from age 4096 or in an emptied row, else Fresh; the stored bits are the set of remembered counters. |
| ReplayWindow.SetThenGet | ferrite-server/src/credentials.rs:329-335 | Setting one bit changes that bit only. |
| ReplayWindow.Advanced | ferrite-server/src/credentials.rs:304-315 | The shifted bits stand for the counters still in reach and the new one. |
| Credentials.RefusedIff | ferrite-server/src/credentials.rs:212-260 | A counter is refused if and only if the table remembers it. |
| Credentials.RememberedIff | ferrite-server/src/credentials.rs:212-260 | A remembered counter stays remembered across a step if and only if the step neither ends the key nor advances an emptied row to less than 4096 ahead of it. |
| Credentials.AcceptedAtMostOnce | ferrite-server/src/credentials.rs:212-260 | Between two Fresh answers to one counter of a key and epoch there is such a step. |
| Credentials.AcceptedAgainIff | ferrite-server/src/credentials.rs:212-260 | After a Fresh answer the counter is refused up to the first such step, and accepted again right after a step if and only if that is one. |
| Credentials.EmptiedIsStale | ferrite-server/src/credentials.rs:300-319 | An emptied epoch answers Stale and changes nothing exactly at or below its highest counter. |
| Credentials.RevivedRowForgets | ferrite-server/src/credentials.rs:303-315 | Once an emptied row is advanced, every older counter within 4096 is Fresh again. |
| Credentials.AcceptedTwice | ferrite-server/src/credentials.rs:234-247 | A run of 33 boots after which an accepted counter is accepted again. |
| Credentials.NewEpochKeepsWindow | ferrite-server/src/credentials.rs:227-246 | After a new epoch appears, at most 32 epochs of the key keep a window, the new one among them. |
| Credentials.OrderedAlways | ferrite-server/src/credentials.rs:227-260 | In every run with a clock that does not go back, no row is newer than now and row numbers are distinct. |
| Credentials.CredentialStore.AcceptCounter | ferrite-server/src/credentials.rs:212-260 | Answer and new table are those of the specification. |
| Credentials.CredentialStore.Issue | ferrite-server/src/credentials.rs:98-149 | Issues an unused, non-zero key id under which the device and its new key are found from now on; the replaced id is found no more and its epochs are forgotten. |
| Credentials.CredentialStore.Revoke | ferrite-server/src/credentials.rs:152-167 | Removes the device's credential and its epochs, and tells which key it was. |
| Credentials.CredentialStore.KeyFor | ferrite-server/src/credentials.rs:197-207 | Finds a device if and only if one holds the key id, and then that device and its own key; together with Issue and Revoke, the newly issued id is found and the replaced or revoked one is not. |
| Sealing.NonceRoundTrip | ferrite-sdk/src/encryption.rs:83-108 | A nonce and its 13 bytes determine each other. |
| Sealing.ChunkSealer.SealChunk | ferrite-sdk/src/encryption.rs:151-197 | Seals under the next counter, or refuses and keeps the counter. |
| Sealing.ChunkSealer.Prepare | ferrite-sdk/src/encryption.rs:243-260 | A device credential never falls back to cleartext; a shared key passes on what it cannot seal. |
| Sealing.SealedChunkDecodes | ferrite-server/src/ingest.rs:160-194 | A sealed chunk is a good chunk of the same type and sequence that opens to the original payload. |
| Sealing.OpenWithCredential | ferrite-server/src/ingest.rs:796-820 | Unknown key, bad tag, replayed and stale chunks are refused in that order; only a verified tag uses up a counter. |
| Sealing.DeviceNumbersDistinct | ferrite-sdk/src/encryption.rs:151-197 | A device with distinct boot epochs and fewer than 2^32 chunks per boot never repeats a nonce. |
| Sealing.MergedLogsDistinct | ferrite-server/src/credentials.rs:98-149 | Devices with different key ids never repeat each other's nonces. |
| Sealing.RememberedAcross | ferrite-server/src/ingest.rs:796-820 | An event of the server keeps accepted numbers remembered if and only if it neither ends their key nor, with a verified tag, advances an emptied row of their epoch to less than 4096 ahead. |
| Sealing.DeliveredAtMostOnce | ferrite-server/src/ingest.rs:679-683 | Under any reordering, duplication and loss a sealed payload is accepted at most once, unless in between there was such an event. |
| Sealing.WindowsTellTruth | ferrite-server/src/credentials.rs:300-327 | A window only ever holds counters that were accepted. |
| Sealing.FirstArrivalAccepted | ferrite-server/src/ingest.rs:796-820 | On first arrival a sealed chunk is accepted and filed with its plaintext under the credential's device if and only if its epoch has no row, or its counter is ahead of the row, or it is fewer than 4096 behind and the row was not emptied. |
| EndToEnd.SealedChunksArrive | ferrite-server/src/ingest.rs:665-710 | Whatever a device seals in a new boot, sent over a line with noise free of the magic byte and read in any pieces, is framed, forwarded, decoded, opened and filed under that device, in order, with the original payloads, and nothing else is. |
| EndToEnd.Received | ferrite-gateway/src/framing.rs:63-135 | However the line is cut into reads, the server decodes exactly the sealed chunks. |
| Grouping.OpenAndGroup | ferrite-server/src/ingest.rs:665-792 | The loops over chunks yield exactly the specified groups and count of rejected chunks. |
| Grouping.Conserved | ferrite-server/src/ingest.rs:665-792 | Every chunk is in exactly one group or counted as rejected. |
| Grouping.GroupsKeepOrder | ferrite-server/src/ingest.rs:679-710 | Authenticated groups have distinct devices and hold exactly what was opened for them, in order. |
| Grouping.UnauthenticatedFiledSafely | ferrite-server/src/ingest.rs:830-889 | Rows of an unauthenticated group are only ever filed under a device without a credential, and never when authentication is required. |
| Grouping.AuthenticatedFiledUnderOwner | ferrite-server/src/ingest.rs:830-889 | Rows of an authenticated group are filed under the credential's device, whatever the chunks claim. |
| Trace.TraceBuffer.WriteFrame | ferrite-sdk/src/trace.rs:34-66 | The circular writes, evictions and counters are those of the byte-string specification; the live bytes are the last ones written. |
| Trace.TraceBuffer.EvictOldestFrame | ferrite-sdk/src/trace.rs:79-106 | Drops through the first sentinel, which is always there. |
| Trace.TraceBuffer.FindSentinel | ferrite-sdk/src/trace.rs:83-101 | The scan stops right after the first sentinel. |
| Trace.TraceFrameIter.Next | ferrite-sdk/src/trace.rs:163-206 | Yields the next header of the live bytes, or stops at an incomplete one. |
| Trace.EvictsWholeFrame | ferrite-sdk/src/trace.rs:79-106 | Eviction removes exactly the oldest frame if and only if nothing before its sentinel is a sentinel. |
| Trace.HeadersRoundTrip | ferrite-sdk/src/trace.rs:163-206 | The iterator finds every stored frame's level and ticks, oldest first. |
| Trace.KeptIsLongestSuffix | ferrite-sdk/src/trace.rs:34-66 | What is kept is the longest run of newest frames that fits. |
| Trace.HoldsNewestFrames | ferrite-sdk/src/trace.rs:34-106 | In every run of clean frames the buffer holds exactly that run, and every frame written is held, lost or cleared. |
| Trace.HoldsLongestEnd | ferrite-sdk/src/trace.rs:34-106 | In every run, whatever the frames contain, the buffer holds exactly the longest end of the bytes written since the last clear that starts at their front or right after a sentinel and fits. |
| Evidence.Verify | ferrite-server/src/evidence.rs:210-257 | Valid exactly if every link holds; otherwise the first broken entry is reported. |
| Evidence.PreimageInjective | ferrite-server/src/evidence.rs:302-326 | The hashed bytes determine every field of an entry but its hash. |
| Evidence.FieldsInjective | ferrite-server/src/evidence.rs:311-325 | Length-prefixed fields are never confused. |
| Evidence.HashPinsPrefix | ferrite-server/src/evidence.rs:210-257 | Two valid logs that share an entry hash agree up to it, or the proof yields a collision. |
| Evidence.SameHeadSameLog | ferrite-server/src/evidence.rs:210-257 | Two valid logs with the same head hash are identical, or the proof yields a collision. |
| Evidence.EvidenceLog.Append | ferrite-server/src/evidence.rs:128-173 | Appends the linked entry and keeps a valid log valid; fails, changing nothing, only if the hash column already holds the hash. |
| Evidence.AppendFailsByCollision | ferrite-server/src/evidence.rs:128-173 | On a valid log that failure is a hash collision. |
| Evidence.EvidenceLog.AnchorOnce | ferrite-server/src/evidence_anchor.rs:82-173 | Anchors only a valid, changed, non-empty log with a sink that answered, and logs the anchor. |
| Evidence.AnchoredOnce | ferrite-server/src/evidence_anchor.rs:82-173 | In every run of recorded events of other kinds and attempts to anchor, no two neighbouring entries are anchors, the first entry is none, and the log stays valid. |
| Evidence.AnchorPinsPrefix | ferrite-server/src/evidence_anchor.rs:82-173 | The hash an anchor carries outside pins every valid log that holds it, up to that entry, or the proof yields a collision. |
| Decimals.DecimalInjective | ferrite-server/src/evidence.rs:311-325 | Different sequence numbers are written differently. |
| Der.ReadsBackIff | ferrite-server/src/evidence_anchor.rs:244-301 | An encoding is read back, with everything after it, if and only if its content is shorter than 2^32 bytes; longer ones are refused. |
| Der.ReadIsSuffix | ferrite-server/src/evidence_anchor.rs:280-301 | Whatever is read lies in the buffer, behind a header of two to six bytes. |
| Der.UintCanonical | ferrite-server/src/evidence_anchor.rs:259-267 | An integer is encoded non-negative, in the fewest octets, with its own value. |
| Der.StatusReadBack | ferrite-server/src/evidence_anchor.rs:302-322 | A reply's status is read back, whatever explanation follows it, if and only if it is below 2^31, and a granted one only with a token. |
| Der.RequestInjective | ferrite-server/src/evidence_anchor.rs:269-278 | Two timestamp requests are equal if and only if their digests and nonces are. |
| RateLimit.RateLimiter.TryAcquire | ferrite-server/src/rate_limit.rs:41-61 | Decision and buckets are those of the token-bucket specification. |
| RateLimit.RateLimiter.Cleanup | ferrite-server/src/rate_limit.rs:64-68 | A bucket stays if and only if it was used within 300 seconds, and then unchanged. |
| RateLimit.WindowBound | ferrite-server/src/rate_limit.rs:41-61 | In any stretch of a run at most burst + rate * time calls of one address are admitted, provided the run has no cleanup, or 300 seconds refill a bucket, or the burst is below one. |
| RateLimit.WindowBoundIff | ferrite-server/src/rate_limit.rs:41-68 | With cleanup at any time, that bound holds in every run if and only if 300 seconds refill a bucket or the burst is below one. |
| RateLimit.SpacedCallAdmitted | ferrite-server/src/rate_limit.rs:41-61 | A call at least 1/rate after every earlier one of its address is admitted. |
| RateLimit.CleanupInvisible | ferrite-server/src/rate_limit.rs:64-68 | With a bucket that refills in 300 seconds, cleanup changes no decision of any run. |
| RateLimit.Distinguish | ferrite-server/src/rate_limit.rs:41-61 | Calls can tell any two levels of a bucket apart. |
| RateLimit.CleanupInvisibleIff | ferrite-server/src/rate_limit.rs:64-68 | For every rate and burst, cleanup is invisible in every run if and only if 300 seconds refill a bucket or the burst is below one. |
| RateLimit.ConfiguredSafeIff | ferrite-server/src/main.rs:159-168 | Under the server's configured burst, cleanup is invisible in every run, and the bound on admitted calls holds in every run, each if and only if the rate is at least 1/30 per second. |
| Spool.ClassifyStatus | ferrite-agent/src/uplink.rs:68-76 | Accepted exactly for 2xx; rejected exactly for 4xx other than 401, 403, 404 and 429. |
| Spool.Spool.Push | ferrite-agent/src/uplink.rs:125-141 | Queues the batch and drops the oldest beyond the cap. |
| Spool.Spool.Flush | ferrite-agent/src/uplink.rs:144-159 | Sends oldest first, deletes what was settled, stops at the first failure. |
| Spool.Deliver | ferrite-agent/src/uplink.rs:163-184 | Flushes first and queues behind a backlog that remains. |
| Spool.AlwaysOrderly | ferrite-agent/src/uplink.rs:92-184 | In every run with any replies: accepted batches in production order, at most `max` spooled, and conservation. |
| Spool.EveryBatchHasOneFate | ferrite-agent/src/uplink.rs:92-184 | Each batch produced is exactly once accepted, rejected, dropped or still spooled. |
| Metrics.MetricsBuffer.Increment | ferrite-sdk/src/metrics.rs:128-164 | Adds modulo 2^32, restarts on a change of kind, inserts with eviction, refuses long keys. |
| Metrics.MetricsBuffer.SetGauge | ferrite-sdk/src/metrics.rs:166-198 | The same for gauges. |
| Metrics.MetricsBuffer.Observe | ferrite-sdk/src/metrics.rs:200-265 | The same for histograms. |
| Metrics.MetricsBuffer.Clear | ferrite-sdk/src/metrics.rs:272-275 | Leaves no entry. |
| Metrics.BufferTellsHistory | ferrite-sdk/src/metrics.rs:122-275 | After any run of recording calls and clears: distinct keys, at most N, none from before the last clear, oldest-entered evicted first, and each value is what the calls on its key amount to since it entered or changed kind. |
| Manifest.DecodeIffEncoded | ferrite-sdk/src/ota_manifest.rs:91-142 | A body decodes to a manifest if and only if it is that manifest's encoding. |
| Manifest.HexIff | ferrite-sdk/src/ota_manifest.rs:310-331 | Hex text decodes to bytes if and only if, lower-cased, it is their encoding. |
| Manifest.AcceptedIff | ferrite-sdk/src/ota_manifest.rs:195-258 | With distinct trusted keys, a header is accepted if and only if it carries a manifest a trusted key signed, at or above the security floor. |
| Manifest.AcceptedIsAuthorised | ferrite-sdk/src/ota_manifest.rs:250-258 | Whatever the keys, an accepted manifest was signed by a trusted key. |
| Download.ImageVerifier.Update | ferrite-sdk/src/ota_manifest.rs:282-294 | Refuses a part exactly if the image would grow too long, before hashing it. |
| Download.ImageVerifier.Finish | ferrite-sdk/src/ota_manifest.rs:297-305 | Succeeds exactly on the announced size and hash. |
| Download.AlignedWriter.Write | examples/embassy-stm32h563/src/ota.rs:243-254 | What is in flash and buffer is everything written so far; sound flash with room never fails. |
| Download.AlignedWriter.Finish | examples/embassy-stm32h563/src/ota.rs:257-263 | Flash holds everything written, padded with 0xFF to a whole block. |
| Download.Download | ferrite-sdk/src/ota.rs:195-257 | Nothing is written before the manifest passed; what is handed to flash is a prefix of the body no longer than the image size; on sound flash it succeeds if and only if the whole described image arrived. |
| Download.FetchAndFinish | examples/embassy-stm32h563/src/ota.rs:175-217 | The slot may be marked only if it holds exactly the signed image of the target build, padded; on sound flash, if and only if that image arrived whole and fits. |
| Download.AdmittedIsAuthorised | ferrite-sdk/src/ota.rs:217-234 | Every image that may be marked was announced by a manifest a trusted key signed. |

## Left out

- OtaProtocol.NoReinstall: holds under the two promises named above, between the rollback and the installation; AcksMeanProcessed is not something the gateway guarantees. The swap algorithm inside the bootloader library is not part of this model: only its states, and a failed or abandoned write to the second slot counts as leaving the running image alone.
- Credentials.CredentialStore.Issue: the random source is a list of drawn ids that contains an unused one.
- Sealing.FirstArrivalAccepted: assumes that payloads whose tag verifies were sealed by a device, and distinct nonces as proved in DeviceNumbersDistinct.
- Sealing.DeviceNumbersDistinct: the counter wraps at 2^32 as in the code, so the result is for fewer chunks than that per boot and for boots that draw distinct epochs.
- RateLimit.CleanupInvisibleIff: rates and levels are real numbers, so rounding is not modelled; rates are not negative.
- Spool.AlwaysOrderly: file operations succeed and the process does not stop in the middle of a flush.
- Evidence.EvidenceLog.AnchorOnce: verifying, sending and appending are one step; another writer in between is not modelled.
- Campaigns.Store.Activate: database errors are not modelled, and the share of a canary is computed without 64-bit overflow.
- SQLite: tables are sequences and maps with the keys and orders the queries use; row numbers only grow; campaign ids are table positions; devices are numbered in the order of their ids; a handler is one step, as it holds the store lock.
- Campaign names, groups and tags, the firmware URL of a target, timestamps other than `activated_at`, user names in the log, server-sent events.
- Fixed stack buffers in `seal` and `send_chunk` are built as sequences with the same bounds; the in-place hex loops and the DER builders are functions.
- Counters that only count (`frames_lost`, `total_written`, chunk counts) are unbounded; metric values and thresholds are real numbers.
- `String::from_utf8_lossy` and the DeviceInfo parser are parameters; fault, metric, reboot, trace and heartbeat payloads are not parsed.
- `campaign_reach`, `median`, build distribution and firmware history: reports over the tables with nothing to keep.
- HTTP, BLE, USB, UART and TCP plumbing, the async runtime, dashboards, the command line, configuration, roles and provisioning.
