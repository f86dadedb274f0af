# REALITY in Dafny

A model of the core of REALITY, a TLS 1.3 server library that imitates the handshake of a target
site, with proofs of what its parts promise each other. `dafny verify dfyconfig.toml` (Dafny 4.11)
checks the whole project.

Five components are modelled:

1. **Message codecs.** The ClientHello, the certificate list, the resumable session and the inner
   ClientHello of Encrypted Client Hello. Writers and readers are functions on byte strings over a
   small layer for cursors and builders; the methods that fill objects and advance cursors are
   proved equal to them. `wire`, `extensions`, `clienthello`, `clienthello_roundtrip`, `clienthello_blocks`,
   `clienthello_msg`, `psk_binders`, `psk_received`, `ech`, `ech_msg`, `session`, `session_roundtrip`, `session_msg`.
2. **Record layer.** Sealing with the record-length slots, fragmentation, buffering, sequence
   numbers and nonces, and the constant-time padding check of the CBC suites. `padding`, `nonce`,
   `aead`, `record`, `record_run`, `record_data`, `record_conn`.
3. **Profile cache.** The life of a key from first observation to the dial-free path L2, quarantine,
   eviction and accounting, saving while the cache changes, and probe deduplication. `cachekey`,
   `amortize`, `amortize_run`, `amortize_lookup`, `amortize_life`, `cache_manager`, `persist`, `flight`.
4. **Certificate plans.** Length budgets, growth searches, the plan cache, the sampled reserve.
   `certplan`, `ee_stats`, `fidelity`, `split_flight` (from an observed profile to records of exactly its lengths).
5. **Replay guard and ClientHello classes.** `replay`, `classify`.

Conventions: a `Result`, an `Option` or a named outcome stands for every error return and panic. An
AEAD is a pair of functions with a 16-byte tag for which opening undoes sealing; certificate
creation, DER parsing, clocks, random seeds and the order in which a map is walked are parameters
or free choices. Each region the source runs under a lock is one step. The record-layer results are
for slots of at most 16384, which is what `ValidateRecordLens` lets through
(`Fidelity.ValidLensSuffice`).

## Where the code differs from what it says

Each of these is stated by a member of the model.

- An observation that matches a suspect entry is handled before the branch that would count such
  matches (amortize_cache.go:319-346), so that branch never runs and a mismatch replaces the profile
  at once: `AmortizeRun.MismatchReplacesAtOnce`, and the `assert false` in `CacheManager.UpdateEntry`.
- Matching is not transitive, because a group or shape of zero matches any: a probe between two live
  observations of different group and shape lets them count as one chain and reach L2
  (`AmortizeRun.MatchesIsNotTransitive`, `AmortizeRun.BridgedRun`). The observations of a chain all
  match exactly when their known groups agree and their known shapes do (`AmortizeRun.ChainAgrees`).
- The state of an entry is not saved, so a restart lifts a quarantine before its time, though not to
  L2: `AmortizeRun.RestartLiftsQuarantine`.
- The padding of an encoded inner hello overwrites the padding for the name (ech.go:228-236): the
  result is a multiple of 32 bytes exactly when the name padding is (`Ech.EncodedLength`).
- The HPKE counter adds up the bit lengths of its halves, so its guard fires at 2^94 + 2^63 and not
  at the documented limit: `Aead.GuardFiresAt`. It is checked after the message is sealed and the
  counter then stays, so a caller that recovers from the panic seals under the same nonce again:
  `Aead.UsedNoncesDiffer`.
- A slot more than 8192 bytes longer than its message makes `encrypt` panic on its buffer of zeros;
  a slot is used up even when the message turns out too long; a session ticket sent into its slot
  loses its first two bytes: `RecordRun.MessageArrives`, `RecordConn.HalfConn.EncryptRecord`,
  `Record.OpenUndoesSeal`, and over whole runs `RecordData.RunArrives`.
- A ServerHello written while other messages are held goes out ahead of them; nothing is lost, and
  the order is kept exactly when that does not happen: `RecordRun.CollectKeeps`.
- The last stage of certificate growth makes its leaf without the subject padding of the first, so it
  can end further from the target than it began: `CertPlan.ExtensionCanShrink`.
- The dial-free path does not compare protocol versions, as the path with a dial does:
  `AmortizeLookup.MissMeans`.
- The budget of a coalesced flight comes out as zero for slots up to 512 and where the sampled
  reserve alone fills the slot, and zero limits nothing; then the slot decides whether the flight is
  sent: `CertPlan.NoBudget`, `Fidelity.FlightImitates`.
- A save moves its watermark even when the final rename fails, and then changes count as saved that
  are in no file: `Persist.RenameFailureLoses`. With renames that succeed no counted change is lost.
- Some changes are never counted: an eviction comes after the change that caused it was counted
  (amortize_cache.go:391-394, cache_manager.go:226-230), and `MarkStale` and `MarkNegative` count
  nothing (cache_manager.go:248-300). A clean cache holds what the file does exactly for the keys
  without such a change since they were last read for it: `Persist.CleanMeansSaved`,
  `Persist.UnmarkedGoesUnnoticed`, `Persist.EvictionAfterSave`.
- An outer hello without extensions makes the decoder of the inner one fail: `Ech.EchRoundTrip`.
- With at most eight samples the 90th percentile of the EncryptedExtensions lengths is their
  maximum: `EeStats.Samples.P90`.
- `Quarantine` of an absent key, like a failure noted on a failed probe, leaves an entry without
  profile that the next eviction would dereference; `CacheManager.Manager.QuarantineKeyNow` and
  `CacheManager.Manager.NoteHandshakeFailure` state exactly when, `CacheManager.FailedProbeStrands`
  gives the shortest way there, and at capacity the storing calls require that there is none.
- Eviction takes the empty string for "no key": its order and the size bound are stated for caches
  without an empty key, which `CacheKey` and `CacheKeyV2` never build.

## Model

| member | source | states |
|---|---|---|
| `ClientHelloRoundTrip.RoundTrip` | handshake_messages.go:418-680 | Unmarshalling a marshalled ClientHello succeeds exactly when it is well formed, and then returns every field that was sent, the renegotiation flag also from the signalling suite, and the extension types in order |
| `ClientHelloRoundTrip.ParseTable` | handshake_messages.go:459-677 | The extension block as written parses to all its fields exactly when every extension is acceptable; each of the nineteen is read by the switch into its own field, none twice, and pre_shared_key last |
| `ClientHelloRoundTrip.ParseBody` | handshake_messages.go:418-457 | The fixed fields read back as written, and the rest of the message parses as its extension block does, with or without one |
| `ClientHelloBlocks.UnknownIgnored` | handshake_messages.go:459-677 | In any ClientHello at all, an extension of a type other than the nineteen numbers, inserted between two others, changes nothing but the list of types and the bytes of the message; the message is refused exactly if that type is there already or would follow pre_shared_key |
| `ClientHelloBlocks.InsertInBlock` | handshake_messages.go:459-677 | The same of any extension block, for any reader that ignores unknown types and wants pre_shared_key last |
| `ClientHelloBlocks.RepeatedRefused` | handshake_messages.go:468-470 | A ClientHello with two extensions of one type is refused, whatever they hold |
| `ClientHelloBlocks.NumbersOfFields` | handshake_messages.go:473-676 | Each of the nineteen registered numbers is read into its own field, and every other number is unknown |
| `ClientHelloBlocks.EveryMessage` | handshake_messages.go:418-457 | Every byte string that gets as far as its extension block is header, fixed fields and block, written out |
| `ClientHelloBlocks.SentExactly` | handshake_messages.go:104-340 | A hello is sent with exactly the extensions whose fields are set, by their registered numbers, in that order |
| `ClientHelloBlocks.SentInside` | handshake_messages.go:104-340 | An inner hello is sent without the TLS 1.2 extensions and with 0xfd00 in place of the compressed ones |
| `ClientHelloBlocks.GreaseValues` | amortize.go:68-71 | GREASE values are exactly the sixteen of RFC 8701 |
| `ClientHelloMsg.Msg.Marshal` | handshake_messages.go:104-373 | The builder steps produce the specified message, and an error exactly when some part overflows its length |
| `ClientHelloMsg.Msg.Unmarshal` | handshake_messages.go:418-680 | Filling the fields in place returns what the specified parser does, and fails exactly when it does |
| `ClientHelloMsg.Msg.ReadBlock` | handshake_messages.go:459-677 | The loop over the extensions, with its set of types seen, computes the parse of the block |
| `ClientHelloMsg.ReadContent` | handshake_messages.go:474-676 | The switch over the extension type decodes one extension as specified |
| `ClientHelloMsg.ReadServerName` | handshake_messages.go:475-501 | The loop over server names accepts at most one host name, without trailing dot |
| `ClientHelloMsg.ReadPsk` | handshake_messages.go:635-664 | Identities and binders are read to the end, none of them empty |
| `ClientHelloMsg.EmitRows` | handshake_messages.go:104-340 | Appending extensions one by one leaves exactly the encoding of those that are set |
| `ClientHelloMsg.Msg.MarshalWithoutBinders` | handshake_messages.go:382-400 | The message is cut in front of its binder list, whose length the loop adds up |
| `ClientHelloMsg.Msg.UpdateBinders` | handshake_messages.go:404-416 | Binders are replaced exactly when number and lengths agree; otherwise nothing changes |
| `PskBinders.BindersComeLast` | handshake_messages.go:320-340 | For any hello with identities about to be sent the full message is the bytes the binders are computed over followed by the encoded binders (section 4.2.11.2 of RFC 8446) |
| `PskReceived.ReceivedBindersComeLast` | handshake_server_tls13.go:620-630 | For any byte string that parses to a hello with identities, what the server checks the binders over is the message up to the binder list: the two together are the message, with nothing behind |
| `PskReceived.BlockEnds` | handshake_messages.go:459-677 | Whatever other extensions an accepted block holds, it ends in the encoding of the binders read from it |
| `PskBinders.UpdateKeepsPrefix` | handshake_client.go:1319-1327 | Replacing binders by others of the same lengths never changes the bytes they are computed over, and the new message ends in the new binders |
| `Ech.DecodeUndoesEncode` | ech.go:286-421 | For hellos that agree on the nine compressed fields, decoding the encoded inner hello with any padding yields what unmarshalling the client's own full inner hello, with the outer session id, would; otherwise the exact error |
| `Ech.EchRoundTrip` | ech.go:221-421 | For all inner and outer hellos that agree on the nine compressed fields, decoding what the client sends gives the client's own full inner hello, or exactly the error for one that is too long, not well formed, without TLS 1.3, or sent under an outer hello without extensions |
| `Ech.PaddingChecked` | ech.go:306-315 | An inner hello with any byte other than zero behind it is refused, whatever the outer one |
| `Ech.EncodedLength` | ech.go:221-237 | The encoding is a multiple of 32 bytes exactly when the longest name allowed less the name is, or 9 more than it where there is no name, or the name is as long |
| `Ech.EncodedIs` | ech.go:221-237 | The encoding is the message without its header and fewer than 32 zeros, which the padding for the name would bring to a multiple of 32 |
| `Ech.VersionsPass` | ech.go:396-418 | Offered versions pass exactly when TLS 1.3 is among them and, GREASE aside, nothing older is |
| `EchMsg.EncodeInnerClientHello` | ech.go:221-237 | Marshalling as inner, stripping the header and padding gives the specified encoding |
| `EchMsg.PadInner` | ech.go:226-236 | The padding length as computed and overwritten |
| `EchMsg.ExtractRawExtensions` | ech.go:260-284 | The outer extensions as they stand in the bytes, with the errors of the source |
| `EchMsg.CopyOuter` | ech.go:343-372 | The cursor over the outer extensions finds the listed types in order or refuses |
| `EchMsg.ExpandExtensions` | ech.go:335-379 | The loop replaces the list of outer types by the outer extensions and copies the rest |
| `EchMsg.DecodeInnerClientHello` | ech.go:286-421 | The whole decoder computes the specified result |
| `EchMsg.FinishInner` | ech.go:321-390 | The reconstructed bytes are unmarshalled and checked |
| `EchMsg.CheckInner` | ech.go:392-421 | The marker of an inner hello and the version loop |
| `SessionRoundTrip.CertsRoundTrip` | handshake_messages.go:1529-1587 | A marshalled certificate list reads back, whatever follows it, exactly when its staple and timestamps are not empty; both stay with the leaf |
| `SessionRoundTrip.SessionStateRoundTrip` | ticket.go:187-294 | Parsing an encoded session followed by any bytes succeeds exactly when it is acceptable, and restores every encoded field, the verified chains with the leaf that was left out |
| `SessionRoundTrip.ChainsRoundTrip` | ticket.go:252-274 | Verified chains written without their leaf are rebuilt with it, exactly when every certificate parses |
| `SessionMsg.MarshalCertificate` | handshake_messages.go:1474-1509 | The builder loop writes the specified list |
| `SessionMsg.UnmarshalCertificate` | handshake_messages.go:1529-1587 | The reading loops compute the specified parse |
| `SessionMsg.SessionBytes` | ticket.go:111-176 | The builder writes the specified session, and fails exactly when some part overflows |
| `SessionMsg.ReadChains` | ticket.go:248-274 | The chain loop rebuilds each chain on the leaf, or fails |
| `SessionMsg.ParseSessionState` | ticket.go:187-294 | The parser with its branches per version and role computes the specified result |
| `CbcPadding.ExtractPadding` | conn.go:292-337 | The constant-time check: 255 and p+1 bytes exactly when the last p+1 bytes exist and all equal p, else 0 and one byte; nothing for an empty payload |
| `CbcPadding.PadBlocks` | conn.go:578-588 | Padding fills whole blocks with at least one byte |
| `CbcPadding.PadThenExtract` | conn.go:292-337 | What encryption pads, extraction removes exactly |
| `Nonce.IncSeq` | conn.go:251-263 | In place, the number goes up by one, big-endian, and the wrap is reported exactly at the last value |
| `Nonce.IncIs` | conn.go:251-263 | Adding one with carry is adding one |
| `Nonce.MaskedInjective` | cipher_suites.go:484-505 | Different sequence numbers under one mask give different nonces |
| `Aead.XorNonceAead.Seal` | cipher_suites.go:484-494 | Sealing uses the mask with the number XORed in, and leaves the mask as it was |
| `Aead.XorNonceAead.Open` | cipher_suites.go:496-506 | Opening likewise |
| `Aead.RecordNoncesDiffer` | conn.go:528-532 | Two records under one key never share a nonce |
| `Aead.GuardFiresAt` | hpke/hpye.go:288-295 | Counting up from zero, the guard fires at 2^94 + 2^63 and not before |
| `Aead.MessageNoncesDiffer` | hpke/hpye.go:280-286 | Two HPKE messages within the limit never share a nonce |
| `Aead.Context.Seal` | hpke/hpye.go:297-301 | Each message is sealed under the nonce of its counter, also where the guard then fires; the counter moves by one until the limit and stays there |
| `Aead.Context.IncrementNonce` | hpke/hpye.go:288-295 | The log of counters stays exact, and the guard fires exactly at the limit |
| `Aead.Context.Open` | hpke/hpye.go:303-310 | A message that does not open leaves counter and log alone |
| `Aead.UsedNoncesDiffer` | hpke/hpye.go:280-310 | In every run of a context two messages have different nonces if and only if the first comes before the limit |
| `Record.OpenUndoesSeal` | conn.go:351-476 | A sealed record opens to type and bytes that were written, is framed and small enough, and while slots are armed is exactly as long as its slot |
| `Record.SealedOpens` | conn.go:351-476 | A text sealed under a number opens under that number to the content and type ahead of its zeros |
| `Record.SealedOutcome` | conn.go:419-476 | What the peer makes of any sealed text, in order: over 16385 bytes overflow, all zeros an unexpected message, the last number a wrap, else content and type |
| `Record.StripFinds` | conn.go:430-440 | Content type and content are found exactly when some byte is not zero, and with the zeros they are the text |
| `Record.TicketIsSpoiled` | conn.go:556-560 | A session ticket in an armed slot arrives with 23 and 0 for its first two bytes |
| `RecordRun.StreamRoundTrip` | conn.go:1053-1086 | Over every run under one key, with fragmentation, buffering and flushing, and also one that stops, reading the byte stream gives back in order what every record carried; the record number moves by the records sent; armed records have exactly their slot's length |
| `RecordRun.HeldUntilFlush` | conn.go:992-1001 | Over every run of buffered writes nothing reaches the network before the next flush |
| `RecordRun.FlushHandsOver` | conn.go:1003-1015 | A flush hands over and counts everything written so far, and ends the buffering unless there was nothing |
| `RecordRun.WriteGoesOut` | conn.go:992-1001 | A write that is not buffered goes to the network, byte for byte counted |
| `RecordRun.RunNoncesDiffer` | conn.go:240-263 | In every run under one key, any two records are each sealed, header authenticated, under the nonce of their own number, and the two nonces differ |
| `RecordRun.RunSeals` | conn.go:528-532 | In every run record i is the seal of its text under the nonce of the starting number plus i, and the number never wraps |
| `RecordRun.RunLooks` | conn.go:589-601 | Every record of every run has type 23, version 0x0303 and its own length outside |
| `RecordData.RunArrives` | conn.go:1053-1086 | Over every run that does not stop, the bytes read from the wire, each under its type, are the data of the writes in order if and only if no fragment that starts like a session ticket met an armed slot |
| `RecordData.StoppedRunArrives` | conn.go:1053-1086 | A run that stops delivers exactly the writes ahead of the failing one and its fragments ahead of the failing fragment, under the same condition, and that fragment is refused in the state reached |
| `RecordData.RunStops` | conn.go:1053-1086 | A run that stops puts out the records of the run of everything ahead of the failing fragment, which does not stop |
| `RecordData.WriteDelivers` | conn.go:1053-1086 | The fragments of a write, joined, are the data under its type, if and only if the slots are not armed for it or no fragment starts like a session ticket; the slots stay armed or not as they were |
| `RecordRun.MessageArrives` | conn.go:533-564 | A handshake message of one record is sent whole or not at all: exactly when its slot is long enough, the zeros suffice and the number does not wrap |
| `RecordRun.SlowStart` | conn.go:945-990 | The first record of application data fits one TCP segment, the next ones at most one segment more each, and the size allowed never goes down |
| `RecordRun.GrowsForThirteenRecords` | conn.go:945-990 | A record may hold 1186 bytes, and as many more with each of the first thirteen; from then on, and for everything else, 16384 |
| `RecordRun.SlotServesOnce` | conn.go:539-562 | A second message for a slot is refused while slots are armed |
| `RecordRun.FlightIsOneWrite` | conn.go:1112-1121 | A buffered flight leaves as one write, its messages in order, and the buffer is gone |
| `RecordRun.CollectKeeps` | conn.go:1112-1121 | For any messages, what is handed on followed by what is held is what was written, in order, if and only if no ServerHello comes while bytes are held |
| `RecordRun.CollectConserves` | conn.go:1112-1121 | For any messages, no byte is lost or added |
| `RecordConn.FindType` | conn.go:430-440 | The scan from the end finds the content type behind the padding |
| `RecordConn.HalfConn.constructor` | conn.go:240-248 | A new key starts at sequence number zero with no slots armed |
| `RecordConn.HalfConn.TakeSlot` | conn.go:539-558 | Each message kind takes the length of its own slot, once |
| `RecordConn.HalfConn.EncryptRecord` | conn.go:533-601 | In place: the specified record, the slot used up in every case, the number moved by one only on success |
| `RecordConn.HalfConn.DecryptRecord` | conn.go:351-476 | In place: the specified outcome for every record, the number moved only when one opens |
| `RecordConn.Conn.MaxPayloadSizeForWrite` | conn.go:945-990 | Record sizes start at one segment and grow, with the counter of packets |
| `RecordConn.Conn.WriteBytes` | conn.go:992-1001 | Bytes go to the buffer or the network, and only the latter are counted |
| `RecordConn.Conn.Flush` | conn.go:1003-1015 | Flushing hands over the buffer and ends buffering, unless there was nothing to flush |
| `RecordConn.Conn.WriteRecordLocked` | conn.go:1053-1086 | The loop cuts, seals and writes as specified and stops at the first failure |
| `RecordConn.Conn.WriteHandshakeRecord` | conn.go:1100-1122 | A message is held back, released with its flight, or written, as specified |
| `CacheKeys.SplitKey` | cache_key.go:136-173 | The split with five slots equals the plain split, on every string |
| `CacheKeys.SplitPieces` | cache_key.go:136-173 | One piece more than bars, none with a bar |
| `CacheKeys.JoinSplit` | cache_key.go:136-173 | The pieces joined by bars are the key |
| `CacheKeys.AppendUint16Hex` | cache_key.go:109-128 | Nibble by nibble: hexadecimal without leading zeros |
| `CacheKeys.VersionRoundTrip` | cache_key.go:130-134 | A version reads back from its hexadecimal form, with its prefix and without |
| `CacheKeys.ParseHexIs` | cache_key.go:130-134 | Digits are read as the number they stand for, or 65535 if it is greater; anything else gives 0, or 65535 if it comes after an overflow |
| `CacheKeys.DigitsOfBothCases` | cache_key.go:130-134 | The digits are those of both cases, and nothing else |
| `CacheKeys.KeyRoundTrip` | cache_key.go:90-96 | Parsing a V2 key gives back its fields, an empty class as "-", exactly when none holds a bar |
| `CacheKeys.ParseKeyInverts` | cache_key.go:64-87 | Server name, ALPN and version come back from both kinds of key |
| `CacheKeys.ShortKeys` | cache_key.go:79-86 | Keys of one and two pieces are read as names for TLS 1.3 |
| `CacheKeys.KindsDiffer` | cache_key.go:99-101 | V2 keys are never legacy; legacy keys pass for V2 exactly with two bars in their fields; without bars they never collide |
| `CacheKeys.KeysInjective` | cache_key.go:29-45 | Different fields make different keys |
| `CacheKeys.SoftKeys` | cache_key.go:183-194 | A V2 key is soft exactly when its class, behind any bar of its own, starts with "s:" |
| `CacheKeys.IsSoftCacheKey` | cache_key.go:183-194 | The test by counting bars and looking behind the last one decides that |
| `AmortizeRun.L2NeedsTwoLive` | amortize_cache.go:34-128 | In every run of observations, failures, quarantines, lookups, reads, refreshes, removals, saves and restarts, an L2 answer comes from a non-legacy, non-soft key whose latest observations since it was last removed and the program last restarted hold at least two live ones, each matching the one before |
| `AmortizeRun.L2Evidence` | amortize.go:313-349 | What makes an entry eligible are live observations alone: probes and persisted evidence never count |
| `AmortizeRun.RunKeeps` | amortize_cache.go:215-433 | Every run keeps the ladder: live evidence is the number of live observations since the ladder started, and the profile looks like the last observation |
| `AmortizeRun.SeenIsRecent` | amortize_cache.go:234-360 | What counts for a key is the unbroken tail of its observations |
| `AmortizeRun.TwoLiveSuffice` | amortize_cache.go:76-87 | Two complete matching live observations answer a compatible client with L2 |
| `AmortizeLookup.L2Gates` | amortize.go:313-349 | In every run an L2 answer rests on a valid profile at most 600 seconds old, without retry request, with group, suite, shape, template and ServerHello length known, lengths sane, and the suite and group the client is to be given |
| `AmortizeLookup.L2Evidenced` | amortize.go:313-331 | Even in a cache no run reaches, an L2 answer is never a probe's and has two pieces of evidence, live ones if there are any |
| `AmortizeLookup.L2Given` | amortize_cache.go:76-95 | In every run such a profile, with two live observations behind it, gives an L2 answer to a client of its exact class |
| `AmortizeLookup.L1Gates` | amortize_cache.go:97-121 | In every run an L1 answer comes from an entry in use whose known suite, group and version contradict nothing the client wants, and is called stale exactly when the entry is or has outlived its 1800 or 3600 seconds |
| `AmortizeLookup.MissMeans` | amortize_cache.go:34-128 | A lookup misses only where every entry in use contradicts the client; where all do there is no L1 answer, and an L2 answer only from another protocol version |
| `AmortizeLookup.SearchIsFirst` | amortize_cache.go:34-128 | Marking expired profiles on the way never changes the answer: it is that of the first key that has one |
| `AmortizeLookup.RunLasts` | cache_manager.go:248-267 | In every run a profile lasts 1800 seconds, or 3600 while it is not valid |
| `AmortizeLife.ExactThenSoftThenLegacy` | amortize_cache.go:108-128 | The answer is that of the exact class, else of the soft class, else of the key without class |
| `AmortizeLife.OutlivedIsMarked` | amortize_cache.go:66-72 | A valid profile that has outlived its time is stale after a lookup of its exact key, or a read |
| `AmortizeLife.LookupMarks` | amortize_cache.go:34-128 | All a lookup does to an entry is to mark as stale a valid profile that has outlived its time |
| `AmortizeLife.GetMarks` | cache_manager.go:168-203 | All a read does is to mark such a profile, or to drop a failed probe whose time has come |
| `AmortizeLife.LookupLeaves` | amortize_cache.go:34-128 | A lookup changes nothing but the keys it tries |
| `AmortizeLife.ObservationIsStored` | amortize_cache.go:215-396 | After an observation the key shows exactly that, with the old template where the new one is empty and matches |
| `AmortizeLife.ObservationIsIgnored` | amortize_cache.go:215-250 | One with insane lengths or on a key that is cooling down changes nothing |
| `AmortizeLife.FourWays` | amortize_cache.go:215-396 | The four ways an observation is taken in, field by field: it founds a key, restarts one after its cooldown, continues a ladder, or replaces a profile it does not match |
| `AmortizeLife.RefreshMarks` | cache_manager.go:248-267 | A refresh makes valid and stale profiles stale, and lets them last 3600 seconds for the first four times |
| `AmortizeRun.MatchesIsNotTransitive` | amortize_cache.go:398-433 | An observation without group matches two that do not match each other |
| `AmortizeRun.ProbeBridges` | amortize_cache.go:266-316 | Live, probe, live: with the probe matching both, the second live observation answers with L2, whether or not the two match |
| `AmortizeRun.BridgedRun` | amortize_cache.go:34-128 | A whole run with one probe between two live observations of different group and shape, which do not match, reaches L2 |
| `AmortizeRun.ChainAgrees` | amortize_cache.go:398-433 | All observations of a chain match one another if and only if their known groups agree and their known shapes agree |
| `AmortizeRun.MismatchReplacesAtOnce` | amortize_cache.go:317-364 | One mismatch replaces the profile and the next match makes it valid |
| `AmortizeRun.QuarantineHolds` | amortize_cache.go:42-60 | Until the cooldown ends, in every run that leaves the entry in place, the entry stays quarantined with its profile, no lookup returns it and no observation changes it |
| `AmortizeRun.QuarantineRebuilds` | amortize_cache.go:234-265 | Afterwards it answers with L2 only on two live observations made since any moment of the cooldown |
| `AmortizeRun.CooldownBounded` | amortize_cache.go:477-510 | In every run a quarantine ends at most one cooldown from now |
| `AmortizeLookup.TwoFailuresQuarantine` | amortize_cache.go:477-518 | From a valid entry without failures, one failure makes it suspect, so that it gives no L2 answer; the second quarantines it until 300 seconds later, and no lookup answers from it |
| `AmortizeLookup.ObservationForgives` | amortize_cache.go:266-316 | A matching observation between two failures starts the count again |
| `AmortizeLookup.MismatchCountsAsFailure` | amortize_cache.go:346-364 | After a mismatch one failure is enough |
| `AmortizeLookup.OtherFailuresIgnored` | amortize_cache.go:477-490 | Failures without key, on the path without the cache, or of absent keys change nothing |
| `AmortizeLife.FailureTakesOut` | amortize_cache.go:490-518 | Field by field, what a failure leaves and sets, by the failures before it |
| `AmortizeLife.TakenOut` | amortize_cache.go:438-474 | The same of a direct quarantine, on an entry that is there |
| `AmortizeLife.ProbedInVain` | cache_manager.go:286-300 | The same of a failed probe |
| `AmortizeLife.TakenOutNew` | cache_manager.go:270-290 | The same where there is none: out of service for 300 and for 60 seconds |
| `AmortizeLookup.ProbesBackOff` | cache_manager.go:270-300 | The n-th failed probe in a row puts the next off by 60 seconds doubled n - 1 times, at most four |
| `AmortizeLookup.FailedProbeWaits` | cache_manager.go:189-199 | Until then the key is neither answered from nor dropped; a read after that drops it |
| `AmortizeRun.RestartLiftsQuarantine` | profile_persist.go:299-360 | A restart makes a quarantined key valid again, without evidence for L2 |
| `AmortizeLife.SaveThenRestart` | profile_persist.go:185-362 | A save and a restart keep exactly the entries with a profile, no failed probes, within their time and half an hour; each comes back valid, without group, shape, template, live evidence or failures |
| `CacheManager.PickVictim` | cache_manager.go:347-388 | One pass in any order picks a failed probe, else a stale profile, else the oldest |
| `CacheManager.UpdateEntry` | amortize_cache.go:234-366 | The branches on a present entry compute the specified entry |
| `CacheManager.Manager.EvictIfFull` | cache_manager.go:347-394 | Above capacity exactly one entry goes, by that order, and the counter with it |
| `CacheManager.Manager.StoreObservation` | amortize_cache.go:215-396 | The run step for an observation, accounts exact, size at most the larger of before and capacity, and the change counted exactly when something was stored |
| `CacheManager.Manager.StoreNew` | amortize_cache.go:385-395 | A new entry is counted, and what it pushes out is the entry eviction prefers |
| `CacheManager.Manager.StoreProfile` | cache_manager.go:218-232 | An entry already there is kept; otherwise as above |
| `CacheManager.Manager.HotSwapProfile` | cache_manager.go:235-245 | The accounts stay right exactly when the key was present |
| `CacheManager.Manager.MarkStaleKey` | cache_manager.go:248-267 | The run step for a refresh, accounts exact |
| `CacheManager.Manager.MarkNegativeKey` | cache_manager.go:270-300 | The run step for a failed probe, a new entry counted |
| `CacheManager.Manager.InvalidateProfile` | cache_manager.go:303-313 | The entry is gone, counted and marked exactly if it was there |
| `CacheManager.Manager.InvalidateAll` | cache_manager.go:461-469 | Everything is gone and the counter is zero |
| `CacheManager.Manager.GetProfile` | cache_manager.go:168-203 | Valid entries are served and marked when expired, stale ones served as stale, failed probes refused and dropped in time, all others refused |
| `CacheManager.Manager.QuarantineKeyNow` | amortize_cache.go:438-474 | The run step for a quarantine, a new entry counted; eviction stays safe exactly when the key had a profile |
| `CacheManager.Manager.NoteHandshakeFailure` | amortize_cache.go:477-518 | The run step for a failure, with its early returns; eviction stays safe if and only if the failure does not quarantine an entry without profile |
| `CacheManager.Manager.FailEntry` | amortize_cache.go:490-518 | The branches on a present entry compute the specified entry |
| `CacheManager.FailedProbeStrands` | amortize_cache.go:490-518 | A failed probe of a new key, then one failure, and eviction is no longer safe |
| `CacheManager.Manager.TryKey` | amortize_cache.go:42-111 | One key of a lookup answers and marks as specified, reading the state without the lock first |
| `CacheManager.Manager.LookupAmortize` | amortize_cache.go:34-128 | The lookup is the specified search: exact, soft, legacy |
| `CacheManager.Manager.SnapshotProfiles` | cache_manager.go:398-419 | The snapshot holds exactly the profiles worth saving |
| `CacheManager.Manager.Load` | profile_persist.go:276-362 | Loading stores fresh profiles of the file only, with persisted evidence only: all of them if they fit, and otherwise as many as the capacity |
| `Persist.NothingIsLost` | profile_persist.go:185-257 | In every interleaving of any number of mutators with serialized saves whose renames succeed, every counted change up to the watermark is in the last file, and the cache is dirty while a counted change is not |
| `Persist.CleanMeansSaved` | cache_manager.go:472-492 | Then, in a cache that is not dirty, a key without counted change under way is as the file has it if and only if no uncounted change has happened to it since it was read for that file |
| `Persist.UnmarkedGoesUnnoticed` | cache_manager.go:248-300 | An uncounted change of a saved key leaves a cache that is not dirty and differs from its file |
| `Persist.EvictionAfterSave` | amortize_cache.go:391-394 | A store at capacity, a save, then the eviction: the evicted key stays in the file of a cache that is not dirty |
| `Persist.RenameFailureLoses` | profile_persist.go:248-256 | A rename that fails unnoticed counts every change it should have saved as saved, though the file holds none of them |
| `Persist.RenameFailureHappens` | profile_persist.go:248-256 | One change and one save suffice |
| `Flight.OneRunner` | cache_manager.go:90-100 | In every interleaving at most one caller runs the probe of a key |
| `Flight.AllGetTheProbesOutcome` | cache_manager.go:143-162 | Whoever returns from a flight returns what the probe of its owner ended with, a panic included |
| `Flight.StaysWithFlight` | cache_manager.go:90-100 | A caller never changes the flight it opened or joined |
| `Flight.ClosedIsFinal` | cache_manager.go:101-110 | A closed flight keeps its outcome |
| `Flight.FlightsEnd` | cache_manager.go:101-116 | From every reachable state a flight is closed and removed by its owner's own steps, however the probe ends, and then every waiter can go on |
| `Flight.QuietMeansEmpty` | cache_manager.go:143-162 | When nobody runs a probe the table is empty and nobody waits in vain |
| `Replay.NoReplayWithinWindow` | replay_guard.go:62-92 | In every run below capacity two accepts of one prefix lie more than the window apart |
| `Replay.AcceptsExactly` | replay_guard.go:62-92 | In every run below capacity a prefix is accepted if and only if it was not accepted within the window |
| `Replay.RunKeeps` | replay_guard.go:62-158 | In every run the counter is the number of entries, never above the maximum, and every key is in its shard |
| `Replay.ForgetsAtCapacity` | replay_guard.go:111-126 | At capacity a prefix dropped to make room is accepted again at once |
| `Replay.ShardFor` | replay_guard.go:55-58 | The shard is decided by the fourth byte |
| `Replay.Sweep` | replay_guard.go:104-110 | Exactly the expired entries go, and are counted |
| `Replay.DropSome` | replay_guard.go:114-126 | As many entries go as the running hash picks positions, and are counted; the rest stay as they were |
| `Replay.PicksATenth` | replay_guard.go:114-126 | While its running hash does not wrap, a tenth of the entries is dropped, up to one |
| `Replay.Guard.CheckAndMark` | replay_guard.go:62-92 | The run step for an arrival, at capacity too; below capacity a prefix is accepted exactly when it is new or its last accept has expired |
| `Replay.Guard.EvictOneShard` | replay_guard.go:98-127 | The run step that makes room: one shard, the next in turn, loses its expired entries, and unexpired ones only while still at capacity, as many as the hash picks |
| `Replay.Guard.GcTick` | replay_guard.go:141-153 | One shard per tick loses exactly its expired entries |
| `CertPlan.EstimateCertMsgLen` | cert_plan.go:756-766 | The loop adds up the entry lengths |
| `CertPlan.EstimateIsExact` | handshake_messages.go:1455-1472 | The estimate is the length of the marshalled Certificate message |
| `CertPlan.MessageIs` | handshake_messages.go:1455-1472 | Type 11, the length, an empty context and the list |
| `CertPlan.SplitPadding` | cert_plan.go:181-194 | A plan fits its split budget exactly when the padding of its record is not negative |
| `CertPlan.FitsNumbers` | cert_plan.go:181-207 | A plan fits a split budget with 22 bytes to spare for its record, and a coalesced one as it is |
| `CertPlan.CoalescedPadding` | cert_plan.go:247-299 | Within its budget, with the other messages within reserve and safety, the padding of the flight is not negative |
| `CertPlan.CoalescedBoundIsSharp` | cert_plan.go:247-299 | One byte more and the flight is not sent |
| `CertPlan.NoBudget` | cert_plan.go:247-299 | The budget is zero exactly when the slot is at most 512 or the reserve alone fills it, and then limits no plan; a flight is refused exactly when its certificate message is longer than the slot leaves |
| `CertPlan.BudgetNumbers` | cert_plan.go:247-299 | The budget is the slot less 258, or less 218 and the sampled length where that is above 40, and never negative |
| `CertPlan.LocateHmac` | cert_plan.go:771-795 | The search from the end computes the specified place |
| `CertPlan.HmacPlace` | cert_plan.go:771-795 | The authenticator's place lies within every certificate of at least 64 bytes, and is the last place of the signature where that can be found |
| `CertPlan.PadSubject` | cert_plan.go:515-533 | Subject padding goes up in steps of 32 that all fit, and ends at 256, at the target, or where the next step cannot be used |
| `CertPlan.FitFiller` | cert_plan.go:622-667 | A filler never exceeds its limit; where more padding makes no shorter filler it is the shortest that reaches the wanted length, or else the longest that fits |
| `CertPlan.AddFillers` | cert_plan.go:503-565 | Each filler is the closest to what is wanted at its place, 43 bytes at least and within the target; there is no further one exactly because the chain is as deep as the target's or three, fewer than 96 bytes are missing, or none of 43 bytes fits |
| `CertPlan.FillerNumbers` | cert_plan.go:541-554 | What length is wanted of a filler and how much padding is tried for it, in numbers; the bounds of the search itself never come into it |
| `CertPlan.DepthNumbers` | cert_plan.go:503-513 | The most fillers there can be, by the depth of the target's chain |
| `CertPlan.LongestExtension` | cert_plan.go:588-608 | The bisection ends, and where longer extensions make longer leaves it finds the longest that fits |
| `CertPlan.LeafFitsExactly` | cert_plan.go:588-608 | A leaf that makes the message exactly as long as the target can be used, and one byte less of target rules it out |
| `CertPlan.PadExtension` | cert_plan.go:567-612 | The padded leaf keeps to the target, and where longer extensions make longer leaves its extension is the longest in range that fits |
| `CertPlan.RangeNumbers` | cert_plan.go:569-586 | The extensions tried are 8 bytes to 8 fewer than are missing, at most 4000, behind the 3309 of a signature |
| `CertPlan.ExtensionKeeps` | cert_plan.go:588-608 | A leaf with a longer extension keeps its place for a signature and keeps to the target |
| `CertPlan.GrowCertsToward` | cert_plan.go:496-616 | A certificate below its target goes through subject, fillers and extension, each taken as far as it can be; one that reaches it stays as it is; the result keeps to the target and to the depth of the target's chain |
| `CertPlan.NothingLeftToGrow` | cert_plan.go:496-616 | Where growth adds no filler, none could be used, and the leaf has the longest extension that fits, if any does |
| `CertPlan.ExtensionCanShrink` | cert_plan.go:567-612 | For leaves whose lengths add up, the extension stage after 256 bytes of subject padding ends with a shorter certificate whenever fewer than 256 bytes were missing |
| `CertPlan.TargetNumbers` | cert_plan.go:344-400 | Growth aims at 54 bytes below a split budget above 310, and 32 below a coalesced one above 288 |
| `CertPlan.BuildCertPlan` | cert_plan.go:344-424 | A plan states its exact length, has room for the authenticator at its place, and is the minimal leaf grown as far as it goes towards the target of its budget; it is minimal where there is no target |
| `CertPlan.Materialize` | cert_plan.go:831-877 | Authenticator and signature stand at their places, nothing else in the leaf or the chain changes, and the message keeps its length; an error exactly when the leaf is empty or the signature's place is out of range |
| `CertPlan.MacFits` | cert_plan.go:841-844 | The authenticator lies within the leaf, at the planned place if it fits there and else in the last 64 bytes |
| `CertPlan.MacReplacesSignature` | cert_plan.go:771-795 | In a plan as it is built that is the last place where the certificate's signature stands |
| `CertPlan.FallbackKinds` | cert_plan.go:315-342 | The historical certificate with a signature serves only where one is asked for, and none where there is no plain one |
| `CertPlan.PlanCache.GetCertPlan` | cert_plan.go:125-176 | Cached plans fit their key's budget, in at most 512 entries; a plan that does not fit is no longer than the fallback |
| `CertPlan.PlanCache.ServerPlan` | handshake_server_tls13.go:204-222 | If the fallback fits, the plan the server sends fits; it is the fallback or fits where there is a budget |
| `EeStats.Sort` | dest_cert_meta.go:396-403 | The insertion sort sorts, in place, a permutation |
| `EeStats.Samples.Note` | dest_cert_meta.go:357-371 | The ring keeps the last eight sane samples |
| `EeStats.Samples.P90` | dest_cert_meta.go:375-410 | The percentile is the longest of the samples kept |
| `EeStats.SampledFlightPads` | cert_plan.go:270-299 | A coalesced flight whose EncryptedExtensions are no longer than a kept sample, and whose other messages keep to reserve, headroom and safety together, can be padded to its slot |
| `Fidelity.ValidateRecordLensMode` | fidelity.go:56-89 | The loop accepts exactly the valid lengths of a mode |
| `Fidelity.ValidLensSuffice` | fidelity.go:51-53 | Under the inferred mode the lengths alone decide; valid ones can serve as slots, armed exactly with a change_cipher_spec |
| `Fidelity.ModeAdds` | fidelity.go:56-89 | Lengths are valid for coalesced flights exactly when they are valid and would be taken for one, or tell nothing of it |
| `Fidelity.RecordImitates` | conn.go:535-569 | A message its slot can take leaves as one record of exactly the slot's length |
| `Fidelity.MessageOutcome` | conn.go:535-569 | Any handshake message other than a ticket, while slots are armed: one record of exactly the slot's length if the slack is between 0 and 8192 and the number does not wrap, otherwise nothing, with the exact reason |
| `Fidelity.CertificateImitates` | handshake_server_tls13.go:204-222 | The filled-in Certificate makes a record exactly as long as the target's if and only if the planned length leaves a slack the zeros can fill, and is refused otherwise |
| `Fidelity.FlightImitates` | handshake_server_tls13.go:207-222 | A coalesced flight makes one record exactly as long as the target's under the same condition on all its messages together, and is refused otherwise |
| `Fidelity.FlightWithinReserve` | cert_plan.go:247-299 | Within its budget, with the other messages within reserve and safety, a flight is never too long |
| `SplitFlight.SplitFlightImitates` | conn.go:535-569 | EncryptedExtensions, Certificate, CertificateVerify and Finished written one after the other leave as records of exactly the lengths in slots 2, 3, 4 and 5, up to the first its slot cannot carry, which is refused with the exact reason |
| `SplitFlight.WholeFlight` | conn.go:535-569 | Where every slot carries its message all four are sent, each as long as its slot |
| `SplitFlight.TicketImitates` | conn.go:553-558 | A session ticket leaves as a record of slot 6's length or is refused |
| `SplitFlight.NoSlotRefused` | conn.go:535-569 | Any other handshake message is refused while slots are armed |
| `Fidelity.ChooseCertificate` | handshake_server_tls13.go:204-262 | The plan chosen for a budget, filled in: as long as planned, and within the budget if the fallback is |
| `Fidelity.SendCertificate` | handshake_server_tls13.go:1055-1063 | Plan, authenticator, signature and record together: what reaches the wire is one record exactly as long as the target's that the peer reads as the certificates, or nothing; never too long if the fallback fits |
| `Classify.SameFeatures` | amortize.go:83-259 | Hellos that offer the same values, but for order, repetition and GREASE (RFC 8701), have the same class |
| `Classify.ClassIsStable` | amortize.go:83-259 | Any such change of the suite, group, signature and version lists keeps the class |
| `Classify.Reordered` | amortize.go:110-140 | A permutation offers the same |
| `Classify.Inserted` | amortize.go:69-71 | A GREASE value or a repetition anywhere offers the same |
| `Classify.FastSoftIsSoft` | dest_cert_meta.go:247-277 | Both shortcuts of the soft class equal the full one |
| `Classify.SoftMerges` | dest_cert_meta.go:247-265 | The soft class merges SCT with OCSP and ignores ECH |
| `Classify.StreamInjective` | amortize.go:83-259 | Different features are fed differently to the hash |
| `Classify.PresenceTells` | amortize.go:83-259 | Each bit of the presence byte tells of one part of the hello |
| `Classify.FeaturesTell` | amortize.go:110-200 | The other features, by the registered numbers of suites, groups and signature schemes |
| `Classify.MixIs` | amortize.go:83-108 | One step of the hash: the byte into the low byte alone, then the multiplication modulo 2^64 |
| `Classify.ClassesMakeTheirKind` | cache_key.go:183-194 | Keys of exact classes are never soft, keys of soft classes always |
| `Classify.CollectSuites` | amortize.go:110-140 | Collecting and sorting gives the suites offered in ascending order, whatever the list |
| `Classify.FormatUint64Hex` | amortize.go:421-434 | Digits filled from the end of a buffer of sixteen are the hexadecimal form |
| `Classify.ClassifyClientHello` | amortize.go:83-259 | The computed class is the hash of the features |

## Left out

- Sockets, dialing, mirroring, rate limits, deadlines and probing, and the capture of target records.
- Real cryptography, X.509 creation and parsing: an AEAD is a pair of functions, certificate creation an oracle that answers the same question the same way.
- TLS 1.0 to 1.2 handshakes and record protection other than the CBC padding, the client's handshake flow, QUIC, key agreement and certificate verification.
- The event bus, refresh timers, statistics other than the entry and change counters, alerts and text output.
- JSON and fsync: a save's write is one step that ends the save, fails unnoticed, or succeeds.
- The debounced scheduling of saves (`RequestSave`): only its effect, a save at any time, is.
- Resistance of the class hash to collisions: different features are hashed from different strings, nothing is said of the hashes.
- Certificate metadata of profiles, which decides nothing in the cache, and the lookup by destination over all keys.
- Concurrent use of the replay guard and of the cache's entry counter: both are modelled call by call.
- Network errors while writing records: a write to the network succeeds.
- Persist.NothingIsLost: is stated for renames that succeed, since it is false of the code when one fails.
- Replay.DropSome: does not say which entries go, only how many, because that depends on the order of the map.
- Fidelity.SendCertificate: covers split flights only; a coalesced flight is put together by the caller from `Fidelity.ChooseCertificate`, `RecordRun.FlightIsOneWrite` and `Fidelity.FlightImitates`.
