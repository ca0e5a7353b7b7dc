# Verified model of sing-vmess

A Dafny model of the stateful stream transformers of this repository, with
proofs that a writer and an independent reader stay in step under any
fragmentation. `dafny verify dfyconfig.toml` checks all of it.

The project follows the repository's components.

- **VLESS encryption, record layer** (`Nonce`, `Header`, `Record`, `NonceUse`,
  `CommonConn`, `XorConn`). `CommonConn` cuts plaintext into authenticated
  records and replaces its cipher when the 96-bit counter is used up; `XorConn`
  masks only the record headers. Both are classes over byte arrays, proved equal
  to specifications that know nothing of buffers: a record at a time, a byte at
  a time.
- **VLESS encryption, handshake and tickets** (`Relay`, `RelayShares`, `Padding`,
  `Handshake`, `Hello`, `HandOver`, `ClientHandshake`, `ServerHandshake`,
  `TicketNoise`, `Tickets`, `ClientState`, `Resumption`, `ConnRuns`,
  `ResumedRun`). The server undoes the relay chain and accepts no other;
  which bytes each side accepts is stated at fixed offsets; both handshakes leave
  the two ends aligned in keys, counters, keystreams and skips; the server's
  minute index refines a filter by expiry; a ticket of one handshake resumes in
  the next; and what one end writes the other reads.
- **Vision** (`VisionFormat`, `VisionFilter`, `VisionSwitch`, `VisionStream`,
  `Vision`, `VisionRuns`). The padded block format, the incremental unpadder,
  and the switch from padded to plain or raw bytes in the middle of a stream.
- **VMess chunk layers** (`ByteStream`, `ChunkFormat`, `ChunkWriters`,
  `ChunkReaders`, `ChunkStacks`, `ChunkRuns`, `ChunkNonces`). Length framing with
  masks and padding from one hash stream, sealed lengths, and the stacks chosen
  from option bits.
- **Mux** (`MuxFormat`, `MuxSessions`, `MuxServer`, `MuxClosing`, `MuxReplies`,
  `MuxDataless`, `MuxClient`, `MuxRuns`, `MuxFlush`, `MuxLevel`, `MuxDirect`,
  `MuxTorn`).
  Frame-aligned demultiplexing, agreement of both ends, and the ticket scheme by
  which concurrent writers share flushes, as a step system.

`Bytes`, `Net` and `Crypto` hold what the others share. Cryptography is foreign
code: ciphers, key exchange, hashes and keystreams are functions with the laws
they obey (`Crypto.Sound`, `Crypto.Separates`, `Relay.Agrees`,
`MuxFormat.Lawful`), and each set of laws is shown consistent by an instance.
The network is the bytes still to arrive; a read returns any non-empty prefix.
Clocks and random draws are parameters or nondeterministic.

## Where the code differs from its promise

Each of these is stated for all inputs, with the exact condition.

- A padding list whose bounds overflow a 64-bit sum is accepted although its
  total can exceed 65553 bytes (`Padding.PaddingInRange`,
  `Padding.OverflowIsAccepted`), and a handshake whose draws come to 2^63 panics
  (`ClientHandshake.Dialer.Handshake`).
- The server tests the block of the client's keys against the length of its own
  reply, which is shorter: a block below 1232 bytes is served with its tag, or
  with memory behind the buffer, as part of the X25519 key
  (`Handshake.SealedKeysAreTaken`, `HandOver.ShortKeysAreServed`).
- The noise for an unknown ticket avoids a valid header in its first five bytes,
  but the client judges bytes 16 to 20, and keeps its ticket if they are one
  (`TicketNoise.NoiseIsRefused`, `TicketNoise.TicketSurvivesNoise`).
- A Vision reader whose first piece is shorter than the id and a header takes
  the padded stream for plain bytes (`VisionStream.FirstPieceSurvives`).
- A plain piece that starts like an opening is taken for one while the TLS
  detection still counts (`VisionStream.PlainPieceSurvives`,
  `VisionStream.LookalikeIsSwallowed`).
- A Vision Read of no bytes replaces or overwrites what is held
  (`Vision.VisionConn.ReadOnce`, `Vision.EmptyReadOverwrites`).
- A chunk whose data and padding come to 65536 bytes or more announces too
  little and is lost (`ChunkFormat.FrameIsReadBack`,
  `ChunkNonces.WrappedLengthIsRefused`).
- The 16-bit nonce counters of the chunks repeat after 65536 chunks
  (`ChunkNonces.ChunkNoncesDiffer`).
- Without security a chunked write is not split, so the peer's 16384-byte buffer
  limits it (`ChunkStacks.UnsplitWrite`, `ChunkStacks.LargeWriteIsRefused`).
- The advertised reader overhead is a byte short for a single sealed byte behind
  a sealed length, unless the slice has capacity beyond its length
  (`ChunkStacks.ReaderOverheadSuffices`, `ChunkStacks.SingleByteIsRefused`).
- Without chunks the legacy writer does not go on with the stream of the header
  but starts a new one, which the reader does not (`ChunkRuns.NewStreamReadsBack`,
  `ChunkRuns.NewStreamIsMisread`).
- A mux frame with more than 65535 bytes of data loses alignment
  (`MuxFormat.FrameReadsBack`, `MuxFormat.LongFrameLosesAlignment`), and so does
  a packet frame to an invalid destination
  (`MuxReplies.PacketFrameNeedsDestination`).
- The packet client loses its place at a Keep without data, of which it takes two
  bytes too many, and both clients at a KeepAlive that names a target
  (`MuxDataless.DatalessFrames`, `MuxDataless.DatalessSteps`,
  `MuxDataless.TargetedKeepAliveIsNotPassedOver`); the server here sends neither.
- Unless the lock is granted in ticket order, a frame can stay in the buffered
  writer after the last call has returned (`MuxLevel.QuiescentBuffer`,
  `MuxLevel.SmallFrameStays`, `MuxFlush.OvertakenFrameStays`).
- A direct write that comes while a frame is partly sent tears it: the
  connection carries whole frames, whatever they contain, if and only if none
  does (`MuxTorn.WholeIffUncut`, `MuxTorn.FrameIsTorn`).
- With the lock free and no frame torn before, a direct write overtakes frames
  if and only if there are some in the buffer (`MuxDirect.OvertakesBuffered`,
  `MuxDirect.DirectOvertakes`).

## Model

| member | source | states |
|---|---|---|
| Nonce.IncreaseNonce | vless/encryption/common.go:386-394 | the in-place carry loop turns the 12-byte counter into its successor |
| Nonce.NextAddsOne | vless/encryption/common.go:386-394 | the successor is addition of one to the big-endian value, modulo 2^96 |
| Header.HeaderRoundTrip | vless/encryption/common.go:398-417 | a header carries its length back for every 16-bit length, and is accepted exactly when that length is from 17 to 16640 |
| CommonConn.AEAD.constructor | vless/encryption/common.go:351-362 | a new instance derives its key from context and united key and starts its counter at zero |
| CommonConn.AEAD.Seal | vless/encryption/common.go:364-369 | sealing without a nonce first advances the counter and uses the new value |
| CommonConn.AEAD.Open | vless/encryption/common.go:371-376 | opening without a nonce first advances the counter, also when it fails |
| CommonConn.CommonConn.Write | vless/encryption/common.go:112-145 | the bytes sent and the sender left behind are those of the record-at-a-time specification, for any length, through the pending prefix, rekeying and the XOR layer |
| CommonConn.CommonConn.WriteBuffer | vless/encryption/common.go:147-169 | the in-place path and its fallback send the same bytes and leave the same sender as Write of the same data |
| Record.RecordIsReceived | vless/encryption/common.go:237-290 | a sealed record, followed by anything, is taken off the stream whole, and reader and writer replace their cipher at the same record with the same context |
| Record.WriteIsCut | vless/encryption/common.go:112-122 | a Write of more than 8192 bytes sends what a Write of the first 8192 and one of the others send |
| Record.RecordOnTheWire | vless/encryption/common.go:123-138 | one record byte for byte: the pending prefix, the header, and the plaintext sealed under the next counter value with that header; after the largest value the key is derived from all these bytes and the counter is zero |
| Record.TakenExactly | vless/encryption/common.go:237-279 | a record is taken exactly if its header opens with 23, 3, 3 and names 17 to 16640 bytes, they are there, and they open together with the header; the three ways it fails are told apart |
| Record.WritesAreReceived | vless/encryption/common.go:112-290 | for any sequence of Writes the peer receives exactly the concatenation and ends with the same cipher, across any number of key changes |
| Record.PrefixedWritesAreReceived | vless/encryption/common.go:112-145 | a pending prefix goes out once, ahead of the first record, and never enters a rekeying context, because it is pending only while the counter is not at its maximum |
| Record.ReceiveMonotone | vless/encryption/common.go:237-290 | an earlier cut of the stream yields a prefix of the plaintext |
| NonceUse.UsesAreConsecutive | vless/encryption/common.go:112-145 | the counter values of any run are consecutive, each instance ending with the wrapped zero before it is replaced |
| NonceUse.NoncesDoNotRepeat | vless/encryption/common.go:112-145 | no counter value is used twice under one instance in any run |
| CommonConn.CommonConn.ReadPrologue | vless/encryption/common.go:209-233 | the server random and the padding are read before the first record and install the cipher and the peer keystream, exactly when enough bytes arrive and the padding opens; a short stream and a padding that does not open are told apart |
| CommonConn.CommonConn.ServerRandomIsClear | vless/encryption/common.go:209-222 | the first 16 bytes are read unmasked whatever keystream would be used, so the nil peer keystream is never applied |
| CommonConn.ReportedExactly | vless/encryption/common.go:209-279 | which error the bytes arriving call for: the end of the stream before the prologue or the next record is whole, a forgery if padding or record do not open, an invalid header as soon as the header is there |
| CommonConn.CommonConn.ReadRecord | vless/encryption/common.go:237-279 | one record is read where it fits and opened with the shared cipher; every way it can fail is told apart |
| CommonConn.CommonConn.ReadChunk | vless/encryption/common.go:237-290 | what fits goes to the caller, the remainder to the cache, in all three destination cases; an invalid header voids the cached ticket |
| CommonConn.CommonConn.Read | vless/encryption/common.go:171-184 | a Read hands out a non-empty prefix of the remaining plaintext exactly when there is some; nothing is lost, repeated or overwritten; with nothing cached its error is the one the bytes arriving call for, and an invalid header, and nothing else, voids the client's ticket |
| CommonConn.CommonConn.ReadBuffer | vless/encryption/common.go:186-205 | the same for a Read into the free space of a buffer, whose held bytes stay, and whose end too when the Read fails |
| XorConn.EncodeAppend | vless/encryption/xor.go:60-86 | the masked bytes and the state depend only on the concatenation of what is written |
| XorConn.RecordIsMasked | vless/encryption/xor.go:60-86 | of a record exactly the five header bytes are masked, each with the next keystream byte |
| Bytes.XorBitsDiffer | vless/encryption/xor.go:15-22 | exclusive or sets exactly the bits in which the two numbers differ |
| XorConn.RoundTrip | vless/encryption/xor.go:60-112 | masking is undone by the reader with the same keystream and skip, for every byte sequence, also behind headers that would be rejected |
| XorConn.FragmentedRoundTrip | vless/encryption/xor.go:60-112 | any splitting into Writes is recovered under any splitting into Reads behind a clear prefix |
| XorConn.CTR.XORKeyStream | vless/encryption/xor.go:15-22 | the stream advances by the bytes processed and XORs each with its own keystream byte |
| XorConn.XorConn.Write | vless/encryption/xor.go:60-86 | the loop over header and body parts, in place, sends exactly the masked bytes and keeps partial header, skip and position |
| XorConn.XorConn.Read | vless/encryption/xor.go:88-112 | a Read unmasks in place exactly the bytes it returns, under any fragmentation, also while the peer keystream is still nil |
| Relay.WrapRelays | vless/encryption/client.go:163-202 | the client loop fills the relay part of the hello in place as the layered specification says and ends with the last key share's secret, unless a relay's key is refused |
| Relay.UnwrapRelays | vless/encryption/service.go:242-296 | the server loop over the same bytes, in place, decides as the layered specification does |
| Relay.WrapLength | vless/encryption/client.go:69-86 | the relay part has the length computed beforehand from the key kinds |
| Relay.UnwrapsWhatWasWrapped | vless/encryption/service.go:247-296 | for any number of relay keys of either kind in either masking mode the server recovers every share, passes every hash check, ends with the client's secret and leaves exactly what follows |
| RelayShares.UnwrapsExactly | vless/encryption/service.go:242-296 | the server accepts exactly the relays that carry one share per key, each of its key's length, accepted by it and with the highest bit clear for X25519, and between them the masked hashes of the next keys; it comes out with the last secret and the bytes behind them |
| RelayShares.ShareIsMasked | vless/encryption/client.go:169-200 | each byte of a share is masked with the keystream of the relay's public key unless the mode is native, and the first 32 also with what follows the hash in the previous relay's stream |
| Padding.ParsePadding | vless/encryption/common.go:419-456 | the parameter list is judged and split as specified, with the 64-bit sum the code really computes |
| Padding.ListsAlternate | vless/encryption/common.go:439-451 | lengths and gaps are the parameters at the even and at the odd positions |
| Padding.PaddingInRange | vless/encryption/common.go:419-456 | every draw totals from 35 to 65553 bytes if and only if the largest attainable total is at most 65553 |
| Padding.NoOverflowSuffices | vless/encryption/common.go:419-456 | when the sum of the bounds does not overflow 64 bits, accepted parameters keep that promise |
| Padding.OverflowIsAccepted | vless/encryption/common.go:440-453 | a concrete list that is accepted although its total exceeds the limit, because the sum wraps around, and a draw of it on which any handshake panics |
| Padding.CreatePadding | vless/encryption/common.go:458-479 | each length and gap drawn is one its segment allows, and the total is their 64-bit sum |
| Padding.RandBetween | vless/encryption/common.go:481-489 | the result lies between the bounds in either order, the larger one excluded |
| Padding.PaddingFits | vless/encryption/client.go:229-230 | a total in range encodes in 16 bits and leaves valid slice bounds |
| Padding.DrawnFits | vless/encryption/client.go:159-176 | whatever an accepted list draws is at least 35 bytes, and if head and exact total stay below 2^63 the buffer has exactly that size |
| Padding.SendableIsExact | vless/encryption/client.go:159-245 | where the buffer has a size at all, it is the size of the fragments if and only if the sum did not wrap around |
| Padding.PromisedRangeIsSendable | vless/encryption/client.go:159-245 | a list that keeps the promised range never makes a handshake panic |
| Padding.SendFragments | vless/encryption/client.go:232-245 | the fragments sent concatenate to exactly the hello, the first also carrying everything before the padding |
| ClientHandshake.Dialer.Handshake | vless/encryption/client.go:155-305 | it panics exactly when the padding drawn has no buffer or overruns it, and stops at a refused relay key with nothing sent; otherwise with a live ticket nothing is sent and the connection is the 0-RTT end, and without one the 1-RTT hello is sent and the connection, the cached ticket and the leftover input are what the client's reading of the answer says, the cache also when there is no connection |
| ClientHandshake.Dialer.Resume | vless/encryption/client.go:205-219 | the 0-RTT hello becomes the pending prefix, its sealed ticket the first context, its length the XOR skip |
| ServerHandshake.Server.Handshake | vless/encryption/service.go:229-464 | unless the padding drawn overruns its buffer, a connection comes out exactly when the client's bytes are served and replay no session; it, the bytes sent and the tickets are then what the server's reading of the hello says, and whether or not one comes out, a ticket is filed exactly if keys were brought, and nothing is sent but noise for an unknown ticket and the hello for keys |
| Hello.ResumedExactly | vless/encryption/service.go:299-363 | from any bytes behind the relays the server resumes exactly if that is allowed, the first 18 announce 32 bytes, and these open to a ticket it knows; the end and the bytes left are then those of that ticket |
| Hello.StartedExactly | vless/encryption/service.go:299-464 | it makes a new session exactly if they announce at least 1136 bytes that open to keys the exchanges accept, and the padding behind them is there and opens |
| Hello.RequestedExactly | vless/encryption/service.go:299-396 | what the server files and sends before it is done, or without getting done, depends on a ticket having come, or keys, in exactly these cases |
| ServerHandshake.Server.ServeTicket | vless/encryption/service.go:320-363 | the 0-RTT branch serves each secret of a session once, leaves the store as it was, and sends noise exactly when the ticket opens and is unknown |
| ServerHandshake.Server.ServeKeys | vless/encryption/service.go:365-464 | the 1-RTT branch takes the client's keys from the buffer in which their block was opened, or from behind it, refuses invalid ones, answers, files a ticket exactly when it gets that far, skips the client's padding and builds the connection |
| ServerHandshake.Server.Noise | vless/encryption/service.go:336-349 | the first five bytes of the noise are never a valid record header |
| TicketNoise.NoiseIsRefused | vless/encryption/common.go:209-253 | the client reports an invalid header on the noise, and so forgets its ticket, if and only if the recovered bytes 16 to 20 are not one |
| TicketNoise.TicketSurvivesNoise | vless/encryption/service.go:336-349 | noise that passes the server's test, on which the client keeps its ticket |
| ServerHandshake.Server.ChooseAEAD | vless/encryption/service.go:297-314 | the length is opened with AES first and then with ChaCha20, and the instance that opened it is kept |
| HandOver.ChoosesClientCipher | vless/encryption/service.go:299-314 | the server settles on the cipher the client used |
| HandOver.ZeroRttIsServed | vless/encryption/service.go:320-363 | the client's 0-RTT hello, followed by anything, is served with the stored key for its ticket, leaving what follows |
| HandOver.ZeroRttUpload | vless/encryption/client.go:205-219 | after 0-RTT everything the client writes is received by the server, with keys, counters, keystream and skip aligned behind the hello |
| HandOver.ZeroRttDownload | vless/encryption/service.go:354-362 | after 0-RTT everything the server writes is received by the client behind the 16 random bytes |
| HandOver.OneRttIsServed | vless/encryption/service.go:365-464 | the client's 1-RTT hello is served: the server ends with the secrets both sides share and leaves what follows |
| HandOver.KeysAreServed | vless/encryption/service.go:365-464 | a sealed block of keys of any length the server accepts is served if and only if the keys taken from its buffer are valid, and then with those |
| Handshake.SealedKeysAreTaken | vless/encryption/service.go:365-396 | the keys taken are the ones sealed if and only if the block has at least 1232 bytes; below that its tag stands in, and below 1216 bytes they depend on memory never received |
| HandOver.ShortKeysAreServed | vless/encryption/service.go:365-396 | a concrete block of 1216 bytes is served with its tag as the end of the X25519 key |
| HandOver.OneRttIsCompleted | vless/encryption/client.go:247-304 | the client completes on the server's answer with the same secrets, the ticket and the padding still to come |
| Hello.CompletedExactly | vless/encryption/client.go:247-304 | the client completes exactly on 1136 bytes that open under the largest nonce to keys it can exchange with, and 32 and 18 that open under the first two counter values of the key they make, to the ticket and the length of the padding |
| HandOver.OneRttUpload | vless/encryption/client.go:269-304 | after 1-RTT everything the client writes is received by the server |
| HandOver.OneRttDownload | vless/encryption/service.go:415-463 | after 1-RTT everything the server writes is received by the client once the padding is skipped and opened |
| ConnRuns.WriteAll | vless/encryption/common.go:112-145 | any Writes send the bytes of the specification, across key changes and the XOR layer |
| ConnRuns.ReadAll | vless/encryption/common.go:171-290 | Reads of any sizes hand out the remaining plaintext in order, a byte at least for every Read with room, and all of it up to the one that fails; a ticket is voided if and only if the first header is invalid |
| ConnRuns.WrittenIsRead | vless/encryption/common.go:112-290 | from object to object: what one end writes the other reads, with Reads of any sizes, in order and complete once there are as many as bytes, whenever it arrives as in the next four rows |
| ConnRuns.ZeroRttUploadArrives | vless/encryption/service.go:320-362 | after 0-RTT the client's bytes behind the hello are its writes to the server's end |
| ConnRuns.ZeroRttDownloadArrives | vless/encryption/common.go:207-290 | the server's bytes are its writes to the client's end, which finds the server random first |
| ConnRuns.OneRttUploadArrives | vless/encryption/service.go:390-463 | after 1-RTT the client's bytes are its writes to the server's end |
| ConnRuns.OneRttDownloadArrives | vless/encryption/common.go:223-290 | the server's bytes behind its padding are its writes to the client's end |
| ResumedRun.ResumedIsRead | vless/encryption/service.go:229-362 | both handshakes and the records: a client with a live ticket dials and writes, and a server that knows the ticket and has not served it yet reads exactly that |
| ResumedRun.ExpiredDialsAnew | vless/encryption/client.go:205-305 | a client whose ticket is over, voided or was never there sends a 1-RTT hello, and the server serves it as such |
| HandOver.HelloNoncesDiffer | vless/encryption/service.go:415-422 | the four hello nonces and the largest nonce, used under one key, are five different values |
| Resumption.ResumptionIsServed | vless/encryption/service.go:229-464 | from one handshake to the next: a ticket issued after a 1-RTT handshake, cached by the client and used within its life and a minute under way, is served with the keys of that handshake, whatever the server issued and cleaned up before and meanwhile, and what either end then writes is received by the other |
| Resumption.KnownTicketResumes | vless/encryption/client.go:205-219 | a known ticket is served from the bytes the client sends with its first records, and both directions are received |
| Handshake.PfsKeysAgree | vless/encryption/client.go:257-269 | both sides derive the same key from each other's shares, of the expected lengths |
| Tickets.Service.IssueTicket | vless/encryption/service.go:398-413 | a ticket carries its seconds and is filed under its expiry minute together with its session |
| Tickets.ExpiryIsNear | vless/encryption/service.go:408 | the minute under which a ticket is filed lies one to two minutes behind the longest life it can have |
| Tickets.Service.DrawSeconds | vless/encryption/service.go:400-405 | the promised life lies between the configured bounds, or with one bound from its half to just below it |
| Tickets.Service.CleanLegacySessions | vless/encryption/service.go:198-212 | one cleanup changes index, queue and sessions as the specification says |
| Tickets.Service.Resume | vless/encryption/service.go:333-353 | an unknown ticket is expired, a known one is resumed once per secret |
| Tickets.CleanIsFilter | vless/encryption/service.go:198-212 | a cleanup that finds an entry for its minute leaves exactly the tickets expiring later, even if minutes were skipped |
| Tickets.CleanKeepsInvariant | vless/encryption/service.go:198-212 | sessions and queue agree, the queue is sorted by expiry and the index is exact for minutes not reached, before and after every cleanup |
| Tickets.IssueKeepsInvariant | vless/encryption/service.go:406-413 | the same for every issue, under a non-decreasing clock and distinct non-zero tickets |
| Tickets.RunKeepsInvariant | vless/encryption/service.go:181-214 | the same over whole runs of issues and cleanups |
| Tickets.KeptForItsLife | vless/encryption/service.go:198-212 | a session is still there more than 60 seconds after its issue time plus the larger bound |
| Tickets.TicketPromise | vless/encryption/client.go:281-289 | every ticket the client still believes valid is known to the server, as long as the message delay is at most 60 seconds |
| Tickets.PromiseFromStart | vless/encryption/service.go:181-214 | the same from the start of the server on, whatever it has issued and cleaned before |
| ClientState.Client.Keep | vless/encryption/client.go:281-289 | the client caches a ticket worth at least a second for the truncated number of seconds it carries |
| ClientState.Client.Expire | vless/encryption/common.go:244-253 | an invalid header voids the ticket unless a newer one has replaced it |
| VisionFormat.ReshapeBuffer | vless/constant.go:30-46 | the cutting loop ends and returns the pieces of the specification |
| VisionFormat.ReshapeKeepsBytes | vless/constant.go:30-46 | the pieces concatenate to the input and none exceeds 8171 bytes, so no 16-bit length is truncated |
| VisionFormat.CutsAtLastStart | vless/constant.go:30-46 | a long buffer is cut in front of the last record start in it if that lies between 32 and 8171, and else at 4096 |
| VisionFormat.BlockDecodes | vless/vision.go:317-407 | the unpadder inverts a padded block of any content and padding and keeps its command |
| VisionFormat.EmitAppend | vless/vision.go:354-407 | however a stream of blocks is fragmented, the unpadder yields the same bytes and the same state |
| VisionFilter.Filter.FilterTLS | vless/vision.go:267-315 | flags, count, hello length and cipher after a call are those of the specification; every index lies inside its buffer, and the count only falls |
| VisionFilter.SwitchIsEarned | vless/vision.go:267-315 | over any calls raw bytes are only allowed after a server hello with one of the four suites, and then filtering is over |
| VisionFilter.SwitchNeedsHello | vless/vision.go:267-315 | whenever raw bytes are allowed a server hello naming the noted suite and a buffer that says TLS 1.3 are among those seen |
| VisionFilter.HelloDecides | vless/vision.go:267-315 | a whole server hello in one buffer allows raw bytes exactly if it says TLS 1.3 and names one of the four suites, and ends the filtering |
| VisionFilter.CountRunsOut | vless/vision.go:267-315 | buffers without a handshake record leave the flags alone, and eight of them use up the count |
| VisionFilter.ClientHelloIsNoted | vless/vision.go:267-315 | a client hello is a sign of TLS and no more |
| VisionFilter.FilteredOnlyAdds | vless/vision.go:267-315 | a call only ever sets flags |
| Vision.VisionConn.Padding | vless/vision.go:317-352 | a block holds the command, both lengths, the content and the padding, after the id when it is the first |
| Vision.VisionConn.Write | vless/vision.go:211-265 | while padding, the pieces up to the first that ends it become blocks with their commands, and what follows goes out plain or raw exactly as the detection after this Write says; later Writes go the way chosen then; and what was sent on both ways stands for exactly what was written |
| Vision.VisionConn.UnPadding | vless/vision.go:354-407 | one piece is parsed from where the last one ended, or passed on as it is, exactly when the code's test says so |
| VisionSwitch.Padded | vless/vision.go:217-240 | a Write pads up to the first piece of application data in a TLS stream, or the first piece when there is no TLS 1.2 and the count is up, and all pieces otherwise |
| VisionRuns.RawIsEarned | vless/vision.go:211-315 | after any Writes and Reads raw bytes have been sent only if a server hello with one of the four suites and a buffer that says TLS 1.3 have passed |
| Vision.VisionConn.Digest | vless/vision.go:154-196 | a piece moves the reader through the padded, ended and direct phases, and fails on an unknown command; at a direct block the held plain and then the held raw bytes follow what the piece yields, whatever is held; and the detection sees what the piece yields exactly while it is counting |
| Vision.VisionConn.Read | vless/vision.go:119-209 | a Read returns exactly the next part of what is still to come, and nothing only when nothing is to come, if the reader finds its opening at once and the id does not occur in what is to come, or as long as each piece is as expected; a Read of no bytes goes on until the stream is direct or at its end |
| Vision.VisionConn.ReadOnce | vless/vision.go:121-207 | one turn of the loop; without room it loses nothing if and only if the held buffers say the same after the next piece has replaced or overwritten them |
| Vision.EmptyReadOverwrites | vless/vision.go:119-207 | the turns of a concrete Read of no bytes from a reader that holds nothing: of two records of a byte each the second is kept twice and the first lost |
| VisionStream.PieceByPiece | vless/vision.go:154-196 | one piece moves its own yield out of what is still to come, and nothing else |
| VisionStream.CommandDecides | vless/vision.go:158-184 | after a block with command 0 more blocks follow, after 1 plain bytes, after 2 raw bytes, and any other command fails |
| VisionStream.FirstPieceSurvives | vless/vision.go:354-366 | the first piece of what a sender sent gets through if and only if it holds the id and a header |
| VisionStream.PlainPieceSurvives | vless/vision.go:354-366 | a plain piece gets through if and only if it is not taken for an opening while filtering goes on |
| VisionStream.LookalikeIsSwallowed | vless/vision.go:354-366 | a reader that has just left the padding and meets a plain piece it swallows |
| VisionRuns.Do | vless/vision.go:119-265 | whatever Writes and Reads are done at one end in whatever order, what it has sent stands for exactly the bytes written |
| VisionRuns.WrittenIsRead | vless/vision.go:119-407 | from end to end: Reads into a buffer of any size, over what such an end has sent and however that comes in records, yield exactly what was written, if the opening arrives in one record and the id does not occur in what was written |
| Vision.WrittenIsYielded | vless/vision.go:119-407 | the whole-stream round trip: however the encrypted stream is cut, what the pieces yield and then the raw bytes are exactly what was written |
| ByteStream.DecryptUndoes | chunk_stream.go:17-70 | the decrypting stream recovers what the encrypting one made of any bytes |
| ByteStream.DecryptAppend | chunk_stream.go:24-40 | decrypting is the same however the ciphertext is cut |
| ByteStream.EncryptAt | protocol.go:300-321 | each byte of the ciphertext is masked by what was sent before it |
| ByteStream.Sink.Write | chunk_stream.go:58-66 | consecutive writes are encrypted as one stream |
| ByteStream.Sink.WriteInPlace | chunk_stream.go:58-61 | the caller's bytes are overwritten by what is sent |
| ChunkWriters.StreamChunkWriter.Write | chunk_length_stream.go:98-136 | a non-empty write becomes one chunk with padding word drawn before mask word; an empty one nothing |
| ChunkWriters.StreamChunkWriter.WriteBuffer | chunk_length_stream.go:138-169 | the one-buffer path writes the same chunk |
| ChunkWriters.StreamChunkWriter.WriteWithChecksum | chunk_length_stream.go:171-210 | the checksum counts as part of the chunk's data |
| ChunkReaders.StreamChunkReader.Read | chunk_length_stream.go:34-76 | a Read takes one chunk off the stream or fails as specified, advancing the hash stream as the writer did |
| ChunkWriters.AEADChunkWriter.Write | chunk_length_aead.go:126-170 | the length, less the tag size modulo 2^16, is sealed under the counted nonce |
| ChunkWriters.AEADChunkWriter.WriteBuffer | chunk_length_aead.go:172-201 | the one-buffer path writes the same chunk |
| ChunkReaders.AEADChunkReader.Read | chunk_length_aead.go:46-91 | the sealed length is read into the caller's slice up to its capacity and opened there, the data up to its length, and the wrap-around undone; every failure is told apart |
| ChunkWriters.AEADWriter.WriteBuffer | chunk_aead.go:97-121 | the data is sealed under the next counted nonce and becomes one chunk |
| ChunkReaders.AEADReader.Read | chunk_aead.go:38-66 | the chunk is opened in place under the same counted nonce |
| ChunkWriters.StreamChecksumWriter.Write | chunk_stream_checksum.go:68-72 | the data goes out behind its checksum as one chunk |
| ChunkWriters.StreamChecksumWriter.WriteBuffer | chunk_stream_checksum.go:74-80 | the one-buffer path writes the same chunk |
| ChunkReaders.StreamChecksumReader.Read | chunk_stream_checksum.go:22-54 | the data is moved to the front when its checksum matches and refused otherwise |
| ChunkFormat.FrameIsReadBack | chunk_length_stream.go:34-136 | for every length and capacity of the reader's slice a chunk is read back whole if and only if its data is not empty, fits the length and has together with its padding a 16-bit length, and a sealed length fits the capacity |
| ChunkFormat.EmptyFrameEnds | chunk_length_stream.go:34-79 | a chunk without data ends the stream, whatever its padding |
| ChunkFormat.HashWords | chunk_length_stream.go:98-136 | the first hash word of a padded chunk is its padding, modulo 64, and the next one its mask |
| ChunkFormat.ChunkOnTheWire | chunk_length_aead.go:115-201 | a chunk byte for byte: the length less the tag sealed under its own counted nonce, or as it is; the data sealed, behind its checksum, or as they are; the padding; and each counter goes on by one modulo 65536 where its layer seals |
| ChunkNonces.WrappedLengthIsRefused | chunk_length_stream.go:98-136 | 65500 bytes with 50 of padding announce 14 and are refused |
| ChunkFormat.ChunkIsReadBack | chunk_aead.go:38-121 | the same for a piece with its checksum or tag, which is either read back whole or not at all |
| ChunkFormat.ChunksAreReadBack | chunk_length_aead.go:46-201 | over any number of chunks reader and writer stay in step, in cursor, both nonce counters and all data, if and only if each chunk by itself is read back |
| ChunkNonces.ChunkNoncesDiffer | chunk_aead.go:38-121 | under one key no counted nonce is used twice if and only if no more than 65536 chunks go one way |
| ChunkStacks.CreateWriter | protocol.go:270-369 | for every security type and option bits the stack has the layers, the ciphers, keys and nonces of that type and the starting place both ends agree on, stated type by type and bit by bit |
| ChunkStacks.CreateReader | protocol.go:169-268 | the reading stack has the same layers, ciphers, keys, nonces and starting place |
| ChunkStacks.Writer.Write | protocol.go:319-365 | any write is cut at 15000 bytes, or not at all without security, and each piece goes through the whole stack |
| ChunkStacks.BodyReader.Read | protocol.go:169-268 | one Read through the stack takes one chunk apart or fails as specified |
| ChunkStacks.StackRoundTrip | protocol.go:169-369 | for every security type and option bits, any sequence of writes is read back in order from a 16384-byte buffer if and only if writes that are not split fit it |
| ChunkRuns.WriteAll | protocol.go:270-369 | any writes into a stack put their pieces on the stream, chunk after chunk |
| ChunkRuns.WrittenIsRead | protocol.go:169-369 | the whole way: what is written into a stack made by CreateWriter is read from one made by CreateReader over the bytes sent, the CFB stream of the legacy type included, under the same condition |
| ChunkRuns.NewStreamReadsBack | protocol.go:300-321 | without chunks the legacy response body, encrypted by a new stream, is read back behind its header if and only if the masks do not depend on the header |
| ChunkRuns.NewStreamIsMisread | protocol.go:300-321 | a concrete body that is misread behind a header of one byte |
| ChunkStacks.UnsplitWrite | protocol.go:272-299 | without security nothing splits a write: it is read back by one Read if and only if it fits the slice, its length with the padding is a 16-bit word and a sealed length fits the capacity |
| ChunkStacks.LargeWriteIsRefused | protocol.go:272-299 | a write of 16385 bytes is refused by the 16384-byte buffer |
| ChunkStacks.ReaderOverheadSuffices | protocol.go:153-167 | a slice longer than the piece by the advertised overhead takes it if and only if its length does not wrap around and it is not a single sealed byte behind a sealed length in a slice without capacity beyond its length |
| ChunkStacks.SingleByteIsRefused | protocol.go:153-167 | the single byte is refused by a slice of 17 bytes with capacity 17, and taken by one with capacity 64 |
| MuxFormat.FrameReadsBack | mux.go:77-209 | a well-formed frame is taken off the stream exactly, leaving what follows, if and only if its data has a 16-bit length |
| MuxFormat.OnlyTheseAreParsed | mux.go:77-209 | a frame is taken only with a status from 1 to 4, as New only with a target on TCP or UDP, and with data exactly if their bit is set |
| MuxFormat.LongFrameLosesAlignment | mux.go:249-271 | a frame of 65536 bytes of data announces none and leaves them to be read as frames |
| MuxServer.ServerSession.Recv | mux.go:77-230 | exactly the bytes of one frame are taken and its effect on sessions, pipes and pending closes applied, or the error reported |
| MuxServer.ServerSession.RecvTo | mux.go:212-230 | data reach the stream's pipe, as a packet with length and address unless it is TCP; a pipe nobody reads ends the session |
| MuxServer.ServerSession.LocalClose | mux.go:331-341 | an open session is removed and its pipe closed, another left alone |
| MuxServer.ServerSession.RecvLoop | mux.go:59-67 | frames are taken one after the other up to the first that fails, while handlers stop reading whenever they like |
| MuxServer.EatsWholeFrames | mux.go:59-209 | from any well-formed frames the loop takes every one and nothing else, whoever stops reading |
| MuxSessions.OtherSessionsKeep | mux.go:122-208 | a frame leaves every other session as it was |
| MuxSessions.OwnSessionMoves | mux.go:122-208 | a frame acts on its own session as if that were alone with its handler |
| MuxSessions.Demultiplexes | mux.go:77-230 | for any interleaving, and whenever handlers stop reading, each session is what its own frames and its own handler make of it |
| MuxSessions.SinceLatestNew | mux.go:124-208 | as long as its handler reads, a session's pipe holds exactly the data of its own frames since its latest New, in order |
| MuxClosing.ClosingIsOwed | mux.go:122-208 | over any run exactly these are answered with a close frame, once each and in order: a Keep for a session that is not open, and data for a pipe nobody reads; and exactly the pipes of sessions that end, by an End or so, are closed |
| MuxClosing.StreamIsAnswered | mux.go:59-230 | the same from the bytes of the connection |
| MuxClosing.StrayKeepIsAnswered | mux.go:158-164 | the bytes of a Keep for a session never opened, its answer and nothing else |
| MuxClosing.AnswerIsRead | mux_wrapper.go:46-104 | both clients take such an answer for the end of the stream |
| MuxServer.StreamDemultiplexes | mux.go:59-230 | the same from the bytes of the connection |
| MuxServer.PacketReadsBack | mux.go:466-499 | a packet comes back with its boundaries and address, and the next one is next, if and only if it fits the reader's buffer |
| MuxRuns.PacketsAreRead | mux.go:466-499 | the packets in a session's pipe are read one by one, in order, if and only if each fits the reader's buffer |
| MuxServer.PacketConn.ReadFrom | mux.go:466-480 | a Read takes one packet off the pipe or fails as specified |
| MuxClient.XUDPConn.WritePacket | xudp.go:142-176 | one frame per packet, New the first time and Keep afterwards, with exact header lengths |
| MuxClient.MuxConnWrapper.WriteBuffer | mux_wrapper.go:106-135 | one frame per write, only the first naming the destination |
| MuxClient.PacketsAreReceived | xudp.go:142-176 | the server's session holds exactly the packets written, with boundaries and addresses, the empty ones excepted |
| MuxRuns.PacketsRun | xudp.go:142-176 | from end to end: the packets a client writes are those the handler reads, in order and but for the empty ones, if and only if each fits the reader's buffer |
| MuxClient.StreamIsReceived | mux_wrapper.go:106-135 | the server's session holds exactly the bytes written |
| MuxReplies.SessionWriter.WriteFrame | mux.go:249-271 | the pieces written make up one Keep frame with the data |
| MuxReplies.SessionWriter.WritePacketFrame | mux.go:290-322 | the pieces written make up the packet frame, without an address when the destination is invalid |
| MuxReplies.SessionWriter.WriteCloseFrame | mux.go:360-379 | the pieces written make up one End frame |
| MuxReplies.ReplyReadsBack | xudp.go:58-123 | server packets come back one by one with the address named or the client's own, if and only if the buffer has room for the data and for the header |
| MuxRuns.RepliesAreRead | xudp.go:58-123 | replies are read one by one, in order and with their addresses, if and only if each fits the client's buffer, data and header |
| MuxRuns.RepliesRun | mux.go:249-322 | from end to end: the frames the server writes are the packets the client reads, under the same condition |
| MuxReplies.PacketFrameNeedsDestination | mux.go:290-322 | packet frames can be read back, whatever they carry that fits and whatever follows, if and only if the destination is valid |
| MuxDataless.PassedOverIsWalkedOver | xudp.go:58-123 | the packet client passes over any bytes, whatever follows, if and only if it walks from frame to frame to their end |
| MuxDataless.DatalessFrames | xudp.go:78-115 | a Keep or KeepAlive without data is passed over whole if and only if it is a KeepAlive without the error bit whose target is itself passed over, which no target is that is shorter than a frame header |
| MuxDataless.TargetedKeepAliveIsNotPassedOver | xudp.go:99-115 | a KeepAlive naming a target after which the next packet is lost |
| MuxDataless.DatalessSteps | mux_wrapper.go:46-92 | the stream client skips a Keep or KeepAlive without data whole if and only if the error bit is off and it is a Keep or has no target |
| MuxClient.XUDPConn.ReadPacket | xudp.go:58-123 | a Read takes the next packet or fails as specified, header and data sharing the caller's buffer |
| MuxClient.MuxConnWrapper.ReadBuffer | mux_wrapper.go:46-104 | a Read returns a non-empty part of the data still to come and loses none; it fails only at the end, with the error of the frame that ends the stream, or when the buffer cannot hold a header |
| MuxReplies.HeadersAreJudged | mux_wrapper.go:46-104 | both clients end a stream at an End, at a status other than Keep and KeepAlive, and at the error bit, each with its own error; only the packet client refuses a header length below four |
| MuxReplies.RepliesAreText | mux_wrapper.go:46-104 | replies of up to 65535 bytes each are exactly their data, in order |
| MuxFlush.InvKeeps | mux.go:232-358 | tickets, lock, contiguity and the buffer's state are kept by every step of any interleaving, direct writes included |
| MuxFlush.FramesStayWhole | mux.go:232-379 | in every reachable state what went through the buffer is whole frames in lock order but for the holder's own, and without direct writes that is all that was sent |
| MuxDirect.WireIsWoven | mux.go:394-520 | if no non-empty direct write comes while a frame is partly sent, what was sent is whole frames, those of calls in lock order and the direct ones in theirs, and then what the buffered writer sent since |
| MuxDirect.UnspilledWireIsWhole | mux.go:394-520 | that is so whenever the buffered writer never had to make room |
| MuxTorn.WholeIffUncut | mux.go:232-520 | the connection carries whole frames, each once, whatever bytes they consist of, if and only if no non-empty direct write came while a frame was partly sent; for every run that ends with the lock free and the buffer empty |
| MuxTorn.RunAlike | mux.go:232-520 | which runs are possible, and whether a direct write comes inside a frame in them, depends on the lengths of the pieces alone |
| MuxTorn.CutLeavesGap | mux.go:394-520 | after a direct write inside a frame the rest of that frame lies behind the direct one for good |
| MuxTorn.FrameIsTorn | mux.go:249-271 | a concrete run in which a direct write lands behind the first 4096 bytes of a frame with 5000 bytes of data |
| MuxDirect.OvertakesBuffered | mux.go:394-520 | with the lock free and no frame torn before, a direct write goes out behind the frames of all calls if and only if the buffer is empty; that it overtakes what is in the buffer holds of every run |
| MuxDirect.DirectOvertakes | mux.go:394-520 | a concrete direct write sent before the frame of a call that has returned |
| MuxFlush.NewestLeavesNothing | mux.go:232-247 | a call whose ticket is still the newest when it leaves empties the buffer |
| MuxFlush.LastFlushes | mux.go:232-358 | with no call in flight, the last call to get the lock has flushed if it had the newest ticket, and of fewer than 2^32 calls only then |
| MuxLevel.QuiescentBuffer | mux.go:232-379 | with no call in flight the buffer is empty if and only if the last call to get the lock has flushed or its frame came out even with the buffer behind what the earlier ones left, by an account of lengths alone |
| MuxLevel.SmallFrameStays | mux.go:232-379 | for fewer than 2^32 calls and a last frame that is not empty and has no piece above 4096 bytes that is so if and only if its call had the newest ticket |
| MuxFlush.OrderedLockLeavesNothing | mux.go:232-358 | if the lock is granted in ticket order the buffer is empty whenever no call is in flight |
| MuxFlush.OvertakenFrameStays | mux.go:232-247 | a concrete run without that order that leaves a frame in the buffer |
| MuxFlush.WrapOnlyAddsFlushes | mux.go:232-240 | wrap-around of the 32-bit counter only adds flushes |

## Left out

- String and base64 parsing of keys, modes and segments: the model starts from parsed integers and keys, which are non-negative and below 2^63.
- Failing writes, deadlines, timers, sleeps, closing and logging: transport writes succeed, and reads end only at the end of the stream.
- The cryptographic primitives and any secrecy claim. Whether an exchange refuses a public key depends on that key alone, as it does for ML-KEM-768 and X25519.
- Aliasing between the hello buffer and its parts: a hello is put together as a value and then sent in fragments; only the relay part is masked in an array.
- ServerHandshake.Server.Handshake: the bytes kept for a fallback handler are not described, nor what is sent before the padding drawn makes the handshake panic.
- ServerHandshake.Server.ServeKeys: the memory behind the buffer is arbitrary, but always there to be read, as in the slices of the buffer pool.
- ClientHandshake.Dialer.Handshake: fragments that are sent before one of them makes the handshake panic are not described; memory is unbounded.
- CommonConn.CommonConn.Read: says nothing about the reader's state after an error, which ends a connection.
- Tickets.CleanIsFilter: a cleanup in a minute without an entry drops nothing, so tickets of skipped minutes stay until the next minute that has one; that they are dropped then is part of the statement.
- Vision.VisionConn.Read: a piece that is not as expected is allowed, but then a Read may fail and only the state and the absence of index errors are described; what a Read of no bytes loses is stated turn by turn (`ReadOnce`), not for the whole call.
- Vision.VisionConn.Write: the lock around it and the pause before the first raw write.
- The reflection by which Vision finds the fields of the connection underneath: the model names them; undecrypted records in the raw buffer before the last record are not represented.
- ByteStream.Sink.Write: takes a value, so that the chunk writers do not show their callers' bytes being overwritten; that is `WriteInPlace`.
- ChunkStacks.UnsplitWrite: one Write against one Read.
- Headroom and overhead methods, buffer pooling and the sing library's buffers, chunk readers and vectorised writers: modelled by what they do to bytes.
- The address serializers: prefix decoders that know their lengths, the two serializers of the source taken to agree on lengths; an address the serializer refuses in the middle of a frame, and mapping IPv4-in-IPv6 addresses back.
- MuxServer.ServerSession.Recv: what the handlers do with a pipe, except that one may stop reading; a write to a pipe is taken whole or refused; with which error a pipe is closed.
- MuxDataless.DatalessSteps: one step of the stream client; what it makes of the bytes of a target it has not skipped is left to `MuxReplies.Text`.
- MuxFlush.InvKeeps: a failed write. A direct write reaches the connection in one piece, and so does each write of the buffered writer.
- The VMess request and response headers, user tables, key derivation, `packetaddr` and the option files: linear codecs and wrappers that would add only easy members.
