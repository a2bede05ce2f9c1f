# Verified model of tracehound

tracehound is a packet sensor: one loop reads packets, groups them into flows, recovers TLS client
fingerprints from TCP and QUIC handshakes, feeds windowed detectors, and hands alerts to a
background writer. This project models that logic in Dafny and proves what the code is meant to
guarantee, over every input, every run or every reachable state.

Methods and classes follow the code's own steps: cursors that advance, buffers that grow, an
intrusive list on the heap, maps updated in place. Each is proved equal to a function on values, and
the theorems are about those functions, or are invariants every method keeps. One module stands for
one component.

- `Bytes`, `Collections`, `Cursors`, `Sorting`, `Joins`: bytes, big-endian integers, exclusive or,
  facts about sequences and maps, checked reads, sorting by a key, and joining lists with a separator.
- `Varints`, `Frames`, `Keys`, `Initial`: the QUIC Initial codec in both directions. HMAC, one AES
  block and AES-GCM are parameters; `Primitives.Sound` states everything assumed of them.
- `CryptoStreams`, `QuicReassembly`: the out-of-order byte stream and the map of streams in progress.
- `QuicRoundTrip`: from a profile through fragments, Initials and datagrams to its fingerprint.
- `ClientHellos`, `HelloBuild`, `HelloPrinter`, `Records`: the ClientHello parser, the builder it
  must invert, and the record layer.
- `HelloCuts`: hellos that are cut short, corrupt, or lie about their lengths.
- `Reassembly`, `Fingerprints`, `Readings`, `WireOrder`: TCP segments to a hello, JA4 and JA3, what
  their characters say and what equal ones have in common, and what JA4 must not depend on.
- `Flows`, `FlowTable`, `FlowRuns`: flow records, the table with its recency list, and its runs.
- `Rolls`: creation numbers, which say of every flow where it went.
- `Ledger`, `Feeding`, `Pipelines`: the packet loop that keeps table and reassemblers in step, and what
  a packet's payload does to them.
- `Conversations`: from the packets of a conversation, through that loop, to the fingerprint on its flow.
- `Scans`, `ScanTracks`: port-scan evidence against a plain log of SYNs, and the tracks that hold it.
- `DnsWindows`, `DnsTracks`, `DnsNames`: the sliced query window against a plain log, and DNS names.
- `Suppression`, `Engines`: which alerts are published, and how that memory is bounded.
- `Stats`, `Beacons`: order statistics and the beacon score.
- `AlertStores`: the background writer as the steps of its two sides.

Time is an integer number of nanoseconds since the zero time; `float64` is `real`; an address is a
number, of which only the order matters. Bytes are integers below 256 and bit operations are written
as division and remainder.

Where the code departs from what is said of it, the model follows the code:

- JA4 is documented as 36 characters; a first ALPN protocol of a single ASCII byte makes it 35
  (`Fingerprints.Ja4Width`; `WireOrder.NarrowFingerprint` is such a hello).
- `Drain` does not count the flows it removes as expired, so flow conservation needs a count of its
  own (`FlowTable.Table.Drain`).
- The quartile cut may remove nothing, so the cap on suppression entries is conditional:
  `Engines.ReportKeepsCap` gives the exact condition, `Engines.CapHolds` meets it on every run of
  alerts at distinct times, and `Engines.OfferVolley` exceeds any cap with alerts at one instant.
- A TCP flow whose parse fails is forgotten and may start again, so segmentation invariance is for
  hellos that parse (`Reassembly.AnySegmentation`).
- Packets that are not Initials are passed over as if they had a Token field, which 0-RTT and
  Handshake packets do not have; the coalescing theorems are for Initials (`Initial.CoalescedParses`,
  `Initial.DatagramRoundTrip`).
- A sub-reader that overruns is said to leave its parent as it was; the parent fails with it
  (`Cursors.ShortReads`), and the walk over extensions ends there (`HelloCuts.CorruptBlockEnds`).
- `buildHello` can print a record longer than the parser's bound, which the parser refuses
  (`Records.BuildHelloRoundTrip` gives the exact condition, `Records.LongHelloRefused` such hellos).
- Expiry and trimming scan a prefix, so they are exact only when nothing stale sits behind something
  fresh (`FlowRuns.ReapExactIff`, `Beacons.TrimExactIff`); `FlowRuns.StaleFlowSurvives` and
  `Beacons.StaleStartSurvives` are runs where something is.
- A DNS name of 256 octets is accepted: the bound of 255 leaves out the final zero
  (`DnsNames.QueryRoundTrip`; `DnsNames.LongestName` is such a name).

Check the whole project with `dafny verify dfyconfig.toml`.

## Model

| member | source | states |
|---|---|---|
| `Bytes.XorInvolution` | internal/quic/build.go:85-89 | masking twice restores the byte, for any two values: why unmasking on the far side undoes header protection |
| `Bytes.XorKeepsHighNibble` | internal/quic/initial.go:175-181 | a mask confined to the low four bits leaves the high nibble of the first byte readable before it is removed |
| `Bytes.XorBit` | internal/quic/build.go:85-89 | a bit of the result is set exactly when it is set in one of the two |
| `Bytes.BigEndianAt` | internal/quic/crypto.go:195-202 | each big-endian digit is that of its power of 256 |
| `Varints.VarintRoundTrip` | internal/quic/varint.go:69-101 | decoding undoes encoding and leaves the bytes after it untouched if and only if the value is below 2^62 |
| `Varints.VarintShortest` | internal/quic/varint.go:69-101 | no encoding the decoder accepts for a value is shorter than the one written (section 16 of RFC 9000) |
| `Varints.VarintExact` | internal/quic/varint.go:69-84 | what is decoded from any bytes: the two top bits give the length, the rest the big-endian value, and too few bytes fail |
| `Varints.ReadVarintFrom` | internal/quic/varint.go:69-84 | the reader, position and bad flag included, does what the decoder function does |
| `Frames.FramesRoundTrip` | internal/quic/initial.go:233-284 | every encoded sequence of PADDING, PING, ACK, ACK_ECN and in-bound CRYPTO frames parses to exactly its CRYPTO frames in order, then to whatever the bytes after it parse to |
| `Frames.FramesWithinBound` | internal/quic/initial.go:233-284 | whatever the payload, only frames within the sensor's bound are reported |
| `Frames.FrameByType` | internal/quic/initial.go:233-284 | frames 0 and 1 are passed over, 2 and 3 skipped as acknowledgements, 6 read as CRYPTO, and any other type ends the walk |
| `Frames.CryptoFrameReads` | internal/quic/initial.go:260-273 | a CRYPTO frame that is there in full is found exactly when offset and length are at most 16384, and is malformed otherwise |
| `Frames.CryptoFrameCut` | internal/quic/initial.go:260-266 | a CRYPTO frame whose data is cut short is truncated |
| `Frames.ParseFrames` | internal/quic/initial.go:233-284 | the loop over the payload yields the frames, and the same error, as the specification walk |
| `Frames.SkipAckFrom` | internal/quic/initial.go:242-258 | skipping an ACK frame consumes exactly its ranges and ECN counts, or fails |
| `Keys.SoundPrimitivesExist` | internal/quic/crypto.go:130-218 | the assumptions made of HMAC, AES and GCM can all be met at once |
| `Keys.Expand` | internal/quic/crypto.go:161-173 | the expansion loop yields the first `length` bytes of T(1) T(2) ... of RFC 5869 |
| `Keys.ExpandPrefix` | internal/quic/crypto.go:161-173 | a shorter expansion is a prefix of a longer one |
| `Keys.DeriveClientInitialKeys` | internal/quic/crypto.go:103-127 | key, IV and header protection key have the lengths the cipher needs; `KeysExact` says what they are |
| `Keys.KeysExact` | internal/quic/crypto.go:58-127 | for both versions the three keys are the first bytes of one HMAC each, over salts and labels spelled out byte by byte, under the client secret of the connection ID (section 5.2 of RFC 9001, section 3.3 of RFC 9369) |
| `Keys.NonceIs` | internal/quic/crypto.go:195-202 | the nonce is the IV with the packet number, as twelve big-endian bytes, exclusive-ored in |
| `Keys.NonceInjective` | internal/quic/crypto.go:195-202 | different packet numbers never share a nonce |
| `Initial.BuildSucceeds` | internal/quic/build.go:24-91 | building succeeds for exactly the connection IDs in range and the packets whose length fits its field, whatever the offset, and the datagram then has exactly the target size, or the size its frame needs when that is more |
| `Initial.OnePacket` | internal/quic/initial.go:103-215 | a built packet is measured exactly and decrypted to its own frame, whatever follows it in the datagram |
| `Initial.DatagramRoundTrip` | internal/quic/initial.go:65-215 | any list of built Initials in one datagram parses to the first one's connection IDs and exactly their (offset, data) fragments in order, for any mask function and any AEAD that inverts |
| `Initial.RoundTripExactly` | internal/quic/build.go:24-91 | for one packet the round trip holds if and only if the offset is within `MaxCryptoBytes` |
| `Initial.WireParses` | internal/quic/initial.go:103-215 | a packet of either version laid out and masked as the standards say is measured exactly whatever its ciphertext, and what becomes of it is decided by opening that under the keys and nonce of the equations with the clear header as associated data: passed over when it does not open |
| `Initial.CoalescedParses` | internal/quic/initial.go:65-215 | any such packets in one datagram parse to the frames of exactly those that open, in order, under the identity of the first of them, the others passed over; to no Initial when none opens |
| `Initial.ShortIgnored` | internal/quic/initial.go:65-74 | less than 1200 bytes are not looked into |
| `Initial.SealedParses` | internal/quic/initial.go:103-215 | a client Initial of either version with any IDs, token, number, number length and payload, sealed and protected under the keys of the equations as sections 5.3 and 5.4 of RFC 9001 say, is measured exactly and opens to its payload, whatever follows it |
| `Initial.SealedFramesParse` | internal/quic/initial.go:103-284 | so when its payload is encoded frames it yields its identifiers and exactly their CRYPTO frames in order |
| `Initial.SealedDatagramParses` | internal/quic/initial.go:65-99 | and so does the datagram that holds it alone, from 1200 bytes on |
| `Initial.OtherTypePassed` | internal/quic/initial.go:129-143 | a packet of another type of a known version, laid out like an Initial, is measured exactly and passed over |
| `Initial.ForeignStops` | internal/quic/initial.go:103-135 | a short header, a cleared fixed bit or an unknown version ends the walk |
| `Initial.BuiltIsSealed` | internal/quic/build.go:24-91 | the builder writes the sealed packet of its arguments: version 1, number zero on four bytes, no token, a CRYPTO frame and padding |
| `Initial.WalkWithinBound` | internal/quic/initial.go:65-99 | whatever the datagram, no fragment past the bound is ever reported |
| `Initial.Parse` | internal/quic/initial.go:65-99 | the walk over coalesced packets terminates and yields the specification's packet or its error |
| `Initial.ParsePacketAt` | internal/quic/initial.go:103-215 | one packet read at an offset has the outcome of the bytes from there on: stop, pass over a known size, or an Initial |
| `Initial.UnprotectPacket` | internal/quic/initial.go:158-215 | removing header protection and opening the payload yields the specification's outcome |
| `Initial.UnmaskNumberBytes` | internal/quic/initial.go:186-191 | the loop unmasks exactly the packet number bytes |
| `Initial.Build` | internal/quic/build.go:24-91 | the appending builder yields the specified datagram or the same error |
| `Initial.Protect` | internal/quic/build.go:85-90 | masking in place yields the protected packet |
| `CryptoStreams.CompactInPlace` | internal/quic/initial.go:321-338 | the merge, overwriting the array it still reads, leaves exactly the coalesced spans |
| `CryptoStreams.SortInPlace` | internal/quic/initial.go:325-325 | the spans are permuted into order of start |
| `CryptoStreams.CryptoStream.Add` | internal/quic/initial.go:303-318 | a fragment is refused exactly when out of bounds; otherwise its bytes land at its offset, every other received byte stays, and the spans stay sorted with strict gaps |
| `CryptoStreams.CryptoStream.Merge` | internal/quic/initial.go:321-338 | the spans cover the same bytes as before and are sorted with strict gaps |
| `CryptoStreams.CryptoStream.TakeHandshake` | internal/quic/initial.go:352-363 | the message is handed over exactly when `Handshake` says it is whole |
| `CryptoStreams.ContiguousIsLargest` | internal/quic/initial.go:341-346 | `contiguous` is the largest n with every byte of [0, n) received |
| `CryptoStreams.RunCoversUnion` | internal/quic/initial.go:303-338 | after any run the spans are well formed and cover exactly the union of the ranges received |
| `CryptoStreams.RunKeepsBytes` | internal/quic/initial.go:303-318 | for fragments of one stream every byte received is the stream's own, however they overlap or repeat |
| `CryptoStreams.HandshakeExactlyWhenCovered` | internal/quic/initial.go:303-363 | for fragments of one stream in any order, the handshake is available exactly when every byte of the first message is in some fragment, and is then that message |
| `QuicReassembly.AddAll` | internal/quic/reassemble.go:67-73 | fragments are added until one is out of bounds, and the states they pass through form a run |
| `QuicReassembly.QuicReassembler.Feed` | internal/quic/reassemble.go:44-102 | a flow waits or yields according to all the fragments it has brought since it opened; no other flow is touched except one dropped from a full map when a new flow opens |
| `QuicReassembly.QuicReassembler.MakeRoom` | internal/quic/reassemble.go:53-63 | an entry is dropped exactly when the map is full, and counted; afterwards there is room for one more and every other stream is as before |
| `QuicReassembly.QuicReassembler.Forget` | internal/quic/reassemble.go:105-109 | exactly that flow's stream goes |
| `QuicReassembly.SettledExactlyWhenCovered` | internal/quic/reassemble.go:44-102 | for fragments of any one stream over any datagrams, the flow waits exactly until its first message is covered, and then yields that message's result; a message cut short or over the bound is waited for in vain |
| `QuicRoundTrip.HelloComesThrough` | internal/quic/reassemble.go:44-102 | however the handshake of a profile is cut into fragments, and these are spread over built Initials and datagrams, in any order, overlapping or repeated, the flow waits exactly until every byte has come and then yields the fingerprint of that profile |
| `QuicRoundTrip.Deliver` | internal/quic/reassemble.go:44-102 | a fresh flow fed such datagrams yields nothing on all but the one that completes the message, and on it the fingerprint of the profile, leaving nothing pending |
| `QuicRoundTrip.DatagramBrings` | internal/quic/build.go:24-91 | a datagram of Initials built to carry stretches of a message brings exactly those stretches, in order |
| `ClientHellos.GreaseValues` | internal/fingerprint/clienthello.go:140-142 | the test accepts exactly the 16 values of section 2 of RFC 8701 |
| `ClientHellos.DecodeHandshake` | internal/fingerprint/clienthello.go:165-207 | the cursor parser yields the specification's hello or its error |
| `ClientHellos.DecodeExtension` | internal/fingerprint/clienthello.go:272-355 | one extension changes the hello as specified, whatever its data |
| `ClientHellos.DecodeExtensions` | internal/fingerprint/clienthello.go:183-206 | the extension loop visits the blocks the specification visits and stops where it stops |
| `Cursors.Cursor.Bytes` | internal/fingerprint/clienthello.go:415-423 | a short read fails for good and yields nothing; a long enough one advances by exactly n |
| `Cursors.ShortReads` | internal/fingerprint/clienthello.go:385-436 | every read past the end fails for good, yields nothing and leaves nothing |
| `HelloBuild.HelloRoundTrip` | internal/fingerprint/clienthello.go:165-207 | any hello whose lengths fit their fields parses back to its own fields, whatever follows it |
| `HelloBuild.ProfileRoundTrip` | internal/pcapgen/payloads.go:128-237 | parsing a built hello returns the profile: ciphers, groups, point formats, signature algorithms, versions, ALPN list, server name, ECH fields and extension order, with or without GREASE added |
| `HelloBuild.NoGreaseUnchanged` | internal/fingerprint/clienthello.go:358-366 | a list comes back unchanged exactly when it holds no GREASE value |
| `HelloCuts.CutHello` | internal/fingerprint/clienthello.go:165-207 | a hello whose length field owns up to only part of its body parses when that is all of it or ends where the extensions would start, and is malformed at every other cut |
| `HelloCuts.HandshakeErrors` | internal/fingerprint/clienthello.go:165-182 | a message is no ClientHello exactly when its first byte is not 1, and incomplete exactly when it is shorter than its length says |
| `HelloCuts.CorruptBlockEnds` | internal/fingerprint/clienthello.go:183-206 | a corrupt extension block ends the walk, and the blocks before it count |
| `HelloCuts.ExtensionsByNumber` | internal/fingerprint/clienthello.go:272-355 | the seven extensions read, by number, each change their own fields; any other changes nothing |
| `HelloCuts.EncryptedHello` | internal/fingerprint/clienthello.go:272-355 | an encrypted hello is outer exactly when its type byte is zero, and then its configuration is the byte behind the cipher suite |
| `HelloCuts.NamesRead` | internal/fingerprint/clienthello.go:272-355 | the server name is the first non-empty host name of the list, no more than 253 bytes of it |
| `HelloPrinter.Builder.LenPrefixed` | internal/pcapgen/payloads.go:364-377 | the length written is that of what the callback appended, in n bytes |
| `HelloPrinter.PrintHandshake` | internal/pcapgen/payloads.go:128-237 | the appending builder prints the specified message |
| `HelloBuild.PaddedSize` | internal/pcapgen/payloads.go:219-226 | a padding block brings the extensions to exactly the size asked for when it fits, and there is none otherwise |
| `Records.CollectHandshake` | internal/fingerprint/clienthello.go:211-258 | the record loop yields the specified handshake bytes or error |
| `Records.CutParses` | internal/fingerprint/clienthello.go:211-270 | however a message is cut into consecutive records, the bytes parse as the message does, whatever follows |
| `Records.PrefixAsksForMore` | internal/fingerprint/clienthello.go:211-270 | and every proper prefix of them asks for more |
| `Records.CollectExact` | internal/fingerprint/clienthello.go:211-270 | a message is collected from exactly the streams that start with handshake records, the first of TLS, which carry it whole with the last of them and not before |
| `Records.OtherTraffic` | internal/fingerprint/clienthello.go:211-219 | less than five bytes ask for more, and five that are no TLS handshake are refused at once |
| `Records.TooLargeRefused` | internal/fingerprint/clienthello.go:229-232 | a message whose printed record length is zero or above `MaxClientHello` is refused as malformed |
| `Records.BuildHelloRoundTrip` | internal/pcapgen/payloads.go:118-124 | the hello built of any profile that fits its fields parses back to that profile if and only if the message is within `MaxClientHello`, hellos whose record length wraps included |
| `Records.WrappedNeverParses` | internal/pcapgen/payloads.go:118-124 | a message of 65536 bytes or more, printed with a wrapped record length, never parses, whatever follows |
| `Records.OverlongRefused` | internal/pcapgen/payloads.go:118-124 | the hello of any profile over the bound is refused, not merely misread |
| `Records.LongHelloRefused` | internal/pcapgen/payloads.go:118-124 | concretely, a profile of 8170 to 32767 cipher suites fits every length field and the parser refuses its hello |
| `Records.DecodeClientHello` | internal/fingerprint/clienthello.go:149-155 | collecting then parsing yields the specified result |
| `Reassembly.Reassembler.Feed` | internal/fingerprint/reassemble.go:66-137 | the flow fed follows one pure step over its own bytes; every other flow keeps its bytes except one dropped when the map is full and a new flow opens |
| `Reassembly.Reassembler.EvictOne` | internal/fingerprint/reassemble.go:146-152 | exactly one entry goes, and is counted |
| `Reassembly.Reassembler.Forget` | internal/fingerprint/reassemble.go:165-169 | exactly that flow's bytes go |
| `Reassembly.AnySegmentation` | internal/fingerprint/reassemble.go:66-137 | however an acceptable hello is cut into records and those into non-empty segments, a fresh flow yields nothing on every earlier segment, then the result of the message whole, leaving nothing pending |
| `Reassembly.Deliver` | internal/fingerprint/reassemble.go:66-137 | a fresh flow of the reassembler itself, fed these segments, yields nothing on all but the last and on it the result of the message whole, leaving nothing pending |
| `Reassembly.FeedEach` | internal/fingerprint/reassemble.go:66-137 | feeding any segments in turn yields, one by one, what the run of pure steps yields |
| `Reassembly.OthersIgnored` | internal/fingerprint/reassemble.go:66-137 | a flow is only ever opened by bytes that look like a TLS handshake, and one that passes the bound is dropped |
| `Reassembly.EarlierSegments` | internal/fingerprint/reassemble.go:66-137 | while the bytes are a proper prefix of the records they stay pending, all of them, and yield nothing |
| `Fingerprints.ComputeJa4` | internal/fingerprint/ja4.go:48-64 | the buffer-appending fingerprint equals the specified string, whose characters `Readings.Ja4Reads` spells out |
| `Readings.Ja4Reads` | internal/fingerprint/ja4.go:48-258 | every character of a JA4: transport, version code, d exactly with SNI, both counts capped at 99, the protocol code, and each hash the first six digest bytes in hex, zeros for an empty input |
| `Readings.Ja4Exact` | internal/fingerprint/ja4.go:48-258 | under a digest whose first six bytes separate the inputs concerned, two JA4 are equal exactly when transport, version code, SNI flag, capped counts and protocol code agree, the same ciphers are offered, and the extensions other than SNI and ALPN, and with any of them the signature algorithms in order, agree |
| `Readings.NegotiatedReads` | internal/fingerprint/clienthello.go:121-134 | the version is the highest of the supported ones, or the legacy one when none is listed |
| `Readings.CipherInputReads` | internal/fingerprint/ja4.go:93-106 | the second hash covers the ciphers offered, in ascending order, as comma-separated four-digit hex |
| `Readings.ExtensionInputReads` | internal/fingerprint/ja4.go:114-136 | the third hash covers the extensions but SNI and ALPN in ascending order, then an underscore and the signature algorithms as offered; nothing when no extension is left |
| `Fingerprints.Ja4Width` | internal/fingerprint/ja4.go:166-217 | the fingerprint has 36 characters, but 35 when the first protocol is a single ASCII byte |
| `WireOrder.NarrowFingerprint` | internal/fingerprint/ja4.go:202-217 | a concrete hello that builds, parses and has a fingerprint of 35 characters |
| `Fingerprints.CipherInputExact` | internal/fingerprint/ja4.go:93-106 | two inputs of the second hash are equal exactly when the same cipher suites are offered, in any order |
| `Fingerprints.ExtensionInputExact` | internal/fingerprint/ja4.go:114-142 | two non-empty inputs of the third hash are equal exactly when the sorted extensions without SNI and ALPN and the ordered signature algorithms are equal |
| `Fingerprints.Ja4ForgetsOrder` | internal/fingerprint/ja4.go:48-136 | hellos that offer the same in another order have the same JA4 |
| `Fingerprints.AppendHexList` | internal/fingerprint/ja4.go:229-242 | the loop writes the comma-separated four-digit hex list |
| `Fingerprints.HashedExtensionList` | internal/fingerprint/ja4.go:114-136 | the loop writes the sorted extensions without SNI and ALPN, then the signature algorithms in order |
| `Fingerprints.PickExtensions` | internal/fingerprint/ja4.go:114-124 | the loop keeps every extension but SNI and ALPN, in order |
| `Fingerprints.RawJa3` | internal/fingerprint/ja3.go:25-59 | the string builder writes the specified five fields |
| `Readings.Ja3Reads` | internal/fingerprint/ja3.go:25-59 | the string JA3 hashes has five fields, in order version, ciphers, extensions, groups and point formats, each number in decimal; JA3 spells its digest in hex |
| `Fingerprints.Ja3RawInjective` | internal/fingerprint/ja3.go:25-59 | two raw strings are equal exactly when version, ciphers, extensions, groups and point formats are all equal, in order |
| `WireOrder.Ja4IgnoresWireOrder` | internal/fingerprint/ja4.go:48-136 | two hellos on the wire with the same non-GREASE ciphers and extension blocks in any order, and GREASE anywhere, both parse and have the same JA4 |
| `WireOrder.PermutedCiphers` | internal/fingerprint/clienthello.go:358-366 | permuting ciphers and inserting any GREASE leaves the same ciphers once stripped |
| `WireOrder.PermutedBlocks` | internal/fingerprint/clienthello.go:183-206 | permuting extension blocks and inserting any GREASE leaves the same blocks once stripped |
| `WireOrder.GreaseContributesNothing` | internal/fingerprint/clienthello.go:183-206 | GREASE blocks change nothing the parser extracts |
| `WireOrder.ContentsForgetOrder` | internal/fingerprint/clienthello.go:183-206 | blocks of distinct types contribute the same in any order |
| `Sorting.SortForgetsOrder` | internal/fingerprint/ja4.go:93-136 | sorting forgets the order its input came in |
| `Joins.JoinInjective` | internal/fingerprint/ja4.go:229-242 | lists of non-empty parts without the separator are told apart by their joins |
| `Flows.KeyIgnoresDirection` | internal/model/flow.go:36-53 | two packets share a key exactly when they join the same two endpoints in either direction |
| `Flows.ObserveAccounts` | internal/model/flow.go:121-150 | a packet adds exactly one packet and its wire length to the record, to the server exactly when the client sent it; first seen is the first timestamp, last seen the latest in any order, and nothing found so far is touched |
| `Flows.ObserveOrients` | internal/model/flow.go:121-150 | the client stays one of the key's endpoints: the source of the first packet, until a SYN names it for good |
| `Flows.FoldingReads` | internal/model/flow.go:121-150 | over all its packets, in any order of time, the client of a flow is the source of its first packet until a SYN names it, and every packet and byte counts for its direction |
| `FlowTable.Table.Observe` | internal/flow/table.go:128-170 | the flow moves to the warm end with the packet folded in; exactly the excess at the cold end is evicted and reported; list and map keep agreeing and the size stays within `MaxFlows` |
| `FlowTable.Table.EvictExcess` | internal/flow/table.go:153-170 | the coldest flows go, as many as are over the cap, never the one just touched |
| `FlowTable.Table.Unlink` | internal/flow/table.go:263-275 | the entry leaves the list, both neighbours meet, and nothing else moves |
| `FlowTable.Table.PushBack` | internal/flow/table.go:277-286 | the entry becomes the tail, and nothing else moves |
| `FlowTable.Table.Reap` | internal/flow/table.go:176-191 | exactly the leading flows last seen at or before the cutoff are removed and returned in order |
| `FlowTable.Table.Drain` | internal/flow/table.go:231-242 | every flow is returned in list order and the table is empty; the count of expired flows does not move |
| `FlowTable.Table.Snapshot` | internal/flow/table.go:246-259 | copies come warmest first, as many as the limit allows |
| `FlowTable.Table.SetFingerprint` | internal/flow/table.go:201-216 | only the flow of that key changes, and an empty SNI or ALPN overwrites nothing |
| `FlowTable.Table.SetServerFingerprint` | internal/flow/table.go:220-227 | only the flow of that key changes |
| `FlowRuns.Conservation` | internal/flow/table.go:128-191 | on every run of packets, expiries and fingerprint writes the flows created are as many as the live, evicted and expired ones, and packets and bytes over all of them add up to what was observed |
| `FlowRuns.EachFlowOnce` | internal/flow/table.go:128-191 | on every run each flow created, told apart by its creation number, is in exactly one of live, evicted and expired, there once, and under the key it was created for |
| `Rolls.SeenEnrolled` | internal/flow/table.go:128-170 | one packet, with the evictions it causes, keeps every creation number in exactly one place |
| `Rolls.ClosedEnrolled` | internal/flow/table.go:176-191 | closing the coldest flows keeps every creation number in exactly one place |
| `Rolls.OnePlace` | internal/flow/table.go:128-191 | what that means: each number below the count of flows created occurs once in all, any other never |
| `FlowRuns.RunOrdered` | internal/flow/table.go:128-191 | on every run the list is in order of latest touch and within capacity |
| `FlowRuns.EvictsWhenFull` | internal/flow/table.go:153-170 | a table within its capacity evicts one flow, the coldest, when it is full and the packet starts another, and none otherwise |
| `FlowRuns.EvictsLeastRecentlyTouched` | internal/flow/table.go:153-170 | every flow a packet evicts was touched less recently than every flow that stays |
| `FlowRuns.ReapExactIff` | internal/flow/table.go:176-191 | expiry removes exactly the stale flows if and only if no stale flow sits behind a fresh one |
| `FlowRuns.StaleFlowSurvives` | internal/flow/table.go:176-191 | a concrete run of two packets, the second stamped earlier, after which a flow last seen before the cutoff outlives expiry |
| `FlowRuns.RunSorted` | internal/flow/table.go:128-191 | with packets in time order the list is sorted by last seen |
| `FlowRuns.ReapExact` | internal/flow/table.go:176-191 | so with packets in time order expiry removes exactly the flows last seen at or before the cutoff |
| `FlowRuns.PacketsInOrder` | internal/flow/table.go:128-191 | time order of the packets alone is enough, whatever expiries and fingerprint writes come between |
| `FlowRuns.PrintsOnly` | internal/flow/table.go:201-227 | writing a fingerprint between packets changes no flow otherwise and moves none |
| `Ledger.ObserveBalances` | internal/pipeline/pipeline.go:291-321 | one packet keeps the books balanced with one more packet and its bytes in them, evicted flows included |
| `Ledger.CloseBalances` | internal/pipeline/pipeline.go:412-439 | closing the coldest flows moves them from live to closed and loses nothing |
| `Ledger.PrintBalances` | internal/pipeline/pipeline.go:359-391 | a first fingerprint adds one to the books, and nothing else does |
| `Pipelines.Pipeline.Forget` | internal/pipeline/pipeline.go:173-177 | that flow's state leaves all three reassemblers, and nothing else does |
| `Pipelines.Pipeline.ObserveFlow` | internal/pipeline/pipeline.go:291-310 | counters, eviction log and pending state follow the table: what an evicted flow held is gone from all three maps |
| `Pipelines.Pipeline.FingerprintTls` | internal/pipeline/pipeline.go:343-356 | the payload is fed to at most one reassembler, that of its direction and transport, and what is held and yielded after is what that reassembler makes of it; the result is written on that flow only, and counted |
| `Pipelines.Pipeline.FingerprintClient` | internal/pipeline/pipeline.go:359-391 | a flow without a fingerprint has its payload fed to the reassembler of its transport, one with a fingerprint is fed nothing; the counters rise exactly when a result is written |
| `Pipelines.Pipeline.FingerprintServer` | internal/pipeline/pipeline.go:398-408 | only TCP flows without a JA4S are fed, and the counter rises exactly when a result is written |
| `Pipelines.Pipeline.Reap` | internal/pipeline/pipeline.go:412-417 | the idle flows are closed in order and everything held for them goes |
| `Pipelines.Pipeline.Handle` | internal/pipeline/pipeline.go:291-321 | after every packet: what is held for each flow is what its payload, fed to the reassembler of its direction and transport, leaves (`Feeding.PacketFed`), less what evicted and closed flows held; what that yields is written and counted; each key pending anywhere is a live flow's, every map is within its bound, the books balance flow by flow, no flow ever leaves the evicted or the closed, the table stands where the run of its events leads, exactly the flows due are closed, and with all packets so far in time order a scoring pass leaves no idle flow open |
| `Pipelines.Pipeline.Admit` | internal/pipeline/pipeline.go:291-315 | the packet is folded into its flow, exactly the excess is evicted with what it held, the payload is fed as `Feeding.PacketFed` says, and what it yields is written, counted and added to the events |
| `Pipelines.Pipeline.Finish` | internal/pipeline/pipeline.go:425-439 | every open flow is closed and all three maps are empty |
| `Pipelines.Run` | internal/pipeline/pipeline.go:221-288 | on every run, whatever mix of eviction, expiry and completion: nothing stays pending; every flow created, by its creation number, was evicted or closed, never both and only once; packets, bytes and fingerprints counted are those of these flows together; scoring passes never go back in time; and what was evicted and closed is what the table's own run of exactly these packets evicts, expires and leaves |
| `Conversations.Converse` | internal/pipeline/pipeline.go:291-391 | a pipeline handed the packets of one TCP conversation, on a new flow or a live one without a fingerprint: however an acceptable hello is cut into records and those into payloads, with whatever the server sends in between and both send after, the flow ends with the JA4, JA3 and names of that hello, one more fingerprint is counted, and nothing stays held |
| `Conversations.ConverseQuic` | internal/pipeline/pipeline.go:291-391 | the same over QUIC, the hello of a profile spread over Initials and datagrams in any order, among any other datagrams |
| `Conversations.ConverseServer` | internal/pipeline/pipeline.go:291-408 | and for the server: its flow ends with what the parser makes of the first hello the server completes, counted once |
| `Conversations.TakeTurn` | internal/pipeline/pipeline.go:291-321 | a packet leaves its own flow live, with the packet folded in and exactly what its payload yields written on it |
| `Scans.EvidenceExact` | internal/detect/scan.go:166-291 | after a pass a source's evidence is exactly the probes whose latest SYN is within the window and was not refused by a limit, each with that time; refusals are the only exception |
| `Scans.RunAccounts` | internal/detect/scan.go:166-291 | between passes an accepted SYN is on record unless some pass found it too old |
| `Scans.NothingRefused` | internal/detect/scan.go:166-202 | on a run with no more sources, ports of one target or targets on one port than there is room for, no SYN is refused |
| `Scans.RunAnswered` | internal/detect/scan.go:166-219 | on every run a probe on record is answered exactly when a SYN-ACK from that port of that target to that source came since the probe was entered |
| `Scans.RunCounts` | internal/detect/scan.go:166-202 | on every run a source is tracked with the number of its SYNs since then and the time of the latest |
| `Scans.WindowExact` | internal/detect/scan.go:166-291 | at a pass the probes kept of a source, and those of them answered, are exactly the ones the packets say |
| `Scans.FindingExact` | internal/detect/scan.go:222-259 | on every run a finding is due exactly when the packets call for it: never with more than the allowed share of the probes in the window answered, and always within it when they are wide and none was reported since they last were narrow |
| `Scans.LatchExact` | internal/detect/scan.go:236-259 | a shape is latched exactly while a finding of it was due that has not narrowed since |
| `Scans.RunBounded` | internal/detect/scan.go:166-202 | in every reachable state ports per target, targets per port and sources are within their limits |
| `Scans.NarrowedBetween` | internal/detect/scan.go:222-270 | between two findings of one shape, vertical or horizontal, for one source some pass saw the evidence below that shape's threshold, even if the source was forgotten in between |
| `ScanTracks.ScanTrack.RecordSyn` | internal/detect/scan.go:166-202 | the probe is recorded, refreshed or refused as specified, and both derived counts stay exact cardinalities |
| `ScanTracks.ScanTrack.Prune` | internal/detect/scan.go:274-291 | exactly the probes older than the cutoff go, and both counts stay exact with no zero kept |
| `ScanTracks.ScanTrack.Answered` | internal/detect/scan.go:294-302 | the loop counts exactly the answered probes |
| `ScanTracks.ScanTrack.WidestTarget` | internal/detect/scan.go:329-338 | no target has more ports than the one returned |
| `ScanTracks.ScanTrack.WidestPort` | internal/detect/scan.go:341-350 | no port has more targets than the one returned |
| `ScanTracks.ScanTrack.Score` | internal/detect/scan.go:236-259 | a finding is reported exactly when wide, scan-like and not latched, names the widest target or port, and leaves the latches as specified |
| `ScanTracks.Scan.OnPacket` | internal/detect/scan.go:157-219 | the tracks change as one step of the specification, and stay those of the run of all packets and passes so far, of which `Scans.RunAccounts` and `Scans.RunAnswered` speak |
| `ScanTracks.Scan.OnTick` | internal/detect/scan.go:222-270 | every source is pruned, scored and forgotten as specified; the findings are exactly those due, each once, each naming the widest target or port of its source, and with passes in time order exactly those the packets so far call for |
| `ScanTracks.Scan.Sweep` | internal/detect/scan.go:222-270 | the loop over all sources prunes, scores and forgets as one step of the specification, and lists each due finding once |
| `ScanTracks.ReportsCalledFor` | internal/detect/scan.go:222-270 | what is due at the pass just made is what the packets and passes before it call for |
| `DnsWindows.WindowIsSuffix` | internal/detect/dnstunnel.go:88-142 | on every run slices stay strictly ordered, the totals are exactly those of a suffix of the query log, everything missing is older than some cutoff, and in order everything counted is younger than each cutoff less one slice |
| `DnsWindows.CountBetween` | internal/detect/dnstunnel.go:88-142 | with the detector's own slice width, the queries counted lie between the log's count at or after the latest cutoff and, in order, its count after that cutoff less one slice |
| `DnsWindows.EvidenceReads` | internal/detect/dnstunnel.go:126-142 | evidence says of its queries how many they are, what lengths, entropies and telling types add up to, and the longest subdomain |
| `DnsWindows.WidthReads` | internal/detect/dnstunnel.go:244-249 | a slice is a twelfth of the history, or a second when that is nothing |
| `DnsWindows.AskHolds` | internal/detect/dnstunnel.go:88-101 | recording a query keeps the window a suffix of the log, in any order of arrival |
| `DnsWindows.CutHolds` | internal/detect/dnstunnel.go:104-114 | pruning keeps the window a suffix of the log |
| `DnsTracks.DnsTrack.BucketFor` | internal/detect/dnstunnel.go:88-101 | a slice is opened exactly when the query starts after the newest one |
| `DnsTracks.DnsTrack.Count` | internal/detect/dnstunnel.go:225-233 | the query is added to the newest slice, opened if need be, and to no other |
| `DnsTracks.DnsTrack.OnQuery` | internal/detect/dnstunnel.go:223-240 | slices and names stay those the queries and cutoffs so far lead to; the name is remembered or refreshed unless that would exceed the limit, which is then noted; the names never exceed the limit |
| `DnsTracks.DnsTrack.Prune` | internal/detect/dnstunnel.go:104-123 | exactly the slices over by the cutoff and the names last asked before it go, and the limit is no longer noted once there is room |
| `DnsTracks.NamesExact` | internal/detect/dnstunnel.go:104-123 | on every run a name is held only under the time it was last asked for, with no later cutoff past that; and each such name is held unless the limit was ever in the way |
| `DnsTracks.DnsTrack.TotalsNow` | internal/detect/dnstunnel.go:126-142 | the loop yields the sums over all slices |
| `DnsTracks.DnsTrack.Score` | internal/detect/dnstunnel.go:295-331 | a score exists exactly from the minimum number of queries on, lies in [0,1], and is reported exactly from the threshold on |
| `DnsTracks.SuspicionInUnit` | internal/detect/dnstunnel.go:295-331 | on every run the score lies in [0,1], however many names outlive their queries |
| `DnsTracks.SuspicionReads` | internal/detect/dnstunnel.go:295-331 | the score exactly, as a weighted sum over names, subdomain bytes from 15 to 50 a query, bits of entropy from 3.2 to 4.6 a query, and telling types |
| `DnsNames.QueryRoundTrip` | internal/detect/dnsparse.go:38-100 | a query parses back to its name, labels and type if and only if every label has 1 to 63 bytes and labels with their length bytes take at most 255, so 256 octets on the wire with the final zero |
| `DnsNames.WrongNameNeverParses` | internal/detect/dnsparse.go:38-100 | and when it does not, whatever is parsed is another name |
| `DnsNames.LongestName` | internal/detect/dnsparse.go:74-100 | a concrete name of 256 octets on the wire is read back |
| `DnsNames.ReadSeen` | internal/detect/dnsparse.go:74-100 | reading any written labels sees each one clipped, up to the first empty one, or fails when they are too long together |
| `DnsNames.NameExact` | internal/detect/dnsparse.go:74-100 | a name is read exactly when the bytes spell its labels, each of 1 to 63 bytes behind its length and then a zero, within 255 bytes of labels and lengths |
| `DnsNames.QuestionExact` | internal/detect/dnsparse.go:38-66 | a question is read from exactly the messages that are queries and not answers, count a question, and spell a name of at least one label with its type and two bytes more behind it |
| `DnsNames.QueryFields` | internal/pcapgen/payloads.go:314-325 | the header of a built query, byte by byte |
| `DnsNames.ReadLabels` | internal/detect/dnsparse.go:74-100 | the loop terminates on every input and reads what the specification reads |
| `DnsNames.DecodeQuestion` | internal/detect/dnsparse.go:38-66 | the parser yields the specified question or nothing |
| `DnsNames.AppendName` | internal/pcapgen/payloads.go:344-353 | the loop writes each label after its length, clipped to 63 bytes |
| `DnsNames.AppendLabel` | internal/pcapgen/payloads.go:345-351 | one label is written after its length, clipped to 63 bytes |
| `DnsNames.BuildQuery` | internal/pcapgen/payloads.go:314-325 | the builder prints the specified query |
| `DnsNames.DomainsRecompose` | internal/detect/dnsparse.go:139-175 | subdomain and registered domain always recompose to the name, for any set of two-label suffixes |
| `DnsNames.RegisteredIsTail` | internal/detect/dnsparse.go:139-165 | the registered domain is the join of exactly the trailing labels counted for it |
| `DnsNames.RegisteredShortest` | internal/detect/dnsparse.go:139-165 | the registered domain is the shortest tail of two labels or more that is no known suffix, three labels at most |
| `Engines.Engine.Emit` | internal/detect/engine.go:344-386 | every alert is filtered, suppressed or published as policy and the last publication decide, the three counts add up to the calls, every republication not dropped in between is news: another digest, and graver or past the cooldown; and the memory is one that the alerts let through so far lead to |
| `Engines.Engine.Report` | internal/detect/engine.go:370-374 | an alert that repeats nothing is remembered; over the cap the quartile cut is made, and the log says what it dropped |
| `Engines.Engine.Suppress` | internal/detect/engine.go:359-369 | an alert that repeats what was said moves its touch time and nothing else |
| `Engines.PublishNews` | internal/detect/engine.go:359-377 | publishing an alert that repeats nothing keeps all consecutive publications news |
| `Engines.RepeatsNoNews` | internal/detect/engine.go:359-377 | the memory holds an alert back exactly when, against what was last said of its key, it is no news |
| `Engines.Engine.Quartile` | internal/detect/engine.go:300-307 | the sorted touch times yield a time before which at most a quarter of the entries, and by which more than a quarter, were touched |
| `Engines.Engine.BoundSuppression` | internal/detect/engine.go:294-314 | over the cap exactly the entries touched before the quartile go, and are counted |
| `Engines.Engine.Touch` | internal/detect/engine.go:318-323 | only the touch time moves, and only forward |
| `Engines.ReportKeepsCap` | internal/detect/engine.go:294-314 | from any memory, however far over its cap, a report leaves the map within its cap if and only if it still fits or enough entries, at most a quarter, are older than the rest |
| `Engines.CapHolds` | internal/detect/engine.go:294-386 | over any run of alerts at distinct times with a cap of at least three the map never exceeds its cap, and its touch times stay distinct times of alerts |
| `Engines.CapExceeded` | internal/detect/engine.go:294-386 | any number of findings at one instant lead from an empty memory to one that holds them all, whatever the cap |
| `Engines.OfferVolley` | internal/detect/engine.go:344-386 | the same on the engine itself: offered one by one, all of them are remembered |
| `Suppression.CutDropsAQuarter` | internal/detect/engine.go:300-313 | the cut drops only entries touched strictly before it, at most a quarter of them |
| `Suppression.CutDropsIff` | internal/detect/engine.go:300-313 | the cut drops anything exactly when some entries, at most a quarter, are older than the rest |
| `Suppression.CapKeptIff` | internal/detect/engine.go:294-314 | however far over its cap, the map is back within it after a cut if and only if enough entries, at most a quarter, are older than the rest |
| `Suppression.DistinctCut` | internal/detect/engine.go:300-313 | with distinct touch times the cut drops exactly a quarter |
| `Suppression.QuartileUnique` | internal/detect/engine.go:307-307 | the quartile is determined by the counts on either side of it |
| `Suppression.TiesDropNothing` | internal/detect/engine.go:307-313 | when every entry was touched at one time the cut drops nothing |
| `Stats.MajorityMadRatio` | internal/detect/stats.go:74-87 | if more than half of the values are equal the ratio is zero whatever the outliers |
| `Stats.MajorityMedian` | internal/detect/stats.go:54-65 | a majority value is the median |
| `Stats.MadRatioScales` | internal/detect/stats.go:74-87 | the ratio is unchanged under any positive scaling |
| `Stats.MedianReads` | internal/detect/stats.go:54-65 | the median is the middle of the values in order, or halfway between the two in the middle |
| `Stats.MadRatioReads` | internal/detect/stats.go:74-87 | the ratio times the median is the median distance from it |
| `Stats.StdDevReads` | internal/detect/stats.go:28-39 | under a root that is one, the deviation is the root of the mean square less the square of the mean |
| `Stats.CoeffVarReads` | internal/detect/stats.go:45-51 | the coefficient times the mean is the deviation; both ratios are zero where there is nothing to divide by |
| `Stats.NormalizeBetween` | internal/detect/stats.go:120-125 | inside its range the value rises in a straight line |
| `Stats.GapAt` | internal/detect/stats.go:129-142 | each gap is the time from one to the next, none when that steps backwards |
| `Stats.GapsSpan` | internal/detect/stats.go:129-142 | over times in order the gaps add up to the whole span |
| `Stats.ComputeGaps` | internal/detect/stats.go:129-142 | the loop yields the gaps, backward steps counting as none |
| `Stats.ComputeMean` | internal/detect/stats.go:16-25 | the loop yields the mean, zero for none |
| `Stats.ComputeStdDev` | internal/detect/stats.go:28-39 | the loop yields the population deviation under any non-negative root |
| `Stats.ComputeMadRatio` | internal/detect/stats.go:74-87 | the loop yields the ratio of medians |
| `Stats.Normalize` | internal/detect/stats.go:115-125 | the result lies in [0,1] and saturates at both ends |
| `Beacons.RegularIsReported` | internal/detect/beacon.go:196-242 | an eligible source most of whose gaps are one value scores at least the default threshold, whatever the outliers, sizes and root |
| `Beacons.ScoreInUnit` | internal/detect/beacon.go:196-242 | score, periodicity and size score always lie in [0,1] |
| `Beacons.ReportedExactly` | internal/detect/beacon.go:196-242 | with too few sizes to judge, an eligible source is reported exactly when one of the two measures of spread is within what the threshold leaves, at the default a sixth |
| `Beacons.PeriodicityReads` | internal/detect/beacon.go:210-219 | gaps are regular to a degree exactly when either measure of spread is small enough |
| `Beacons.SizesRead` | internal/detect/beacon.go:221-228 | three sizes or more are alike to a degree exactly when they spread little; fewer say nothing either way |
| `Beacons.JudgedReads` | internal/detect/beacon.go:196-242 | a source is judged exactly when it has enough starts at an average gap in range, and regularity weighs three times what alike sizes do |
| `Beacons.BeaconTrack.Score` | internal/detect/beacon.go:196-242 | a result exists exactly for eligible tracks, and is reported exactly from the threshold on |
| `Beacons.BeaconTrack.RecordSize` | internal/detect/beacon.go:137-151 | the sizes kept are the latest 512 ever recorded |
| `Beacons.BeaconTrack.Trim` | internal/detect/beacon.go:287-296 | exactly the leading times before the cutoff go |
| `Beacons.TrimExactIff` | internal/detect/beacon.go:287-296 | trimming leaves exactly the times from the cutoff on if and only if no stale time follows a fresh one |
| `Beacons.StaleStartSurvives` | internal/detect/beacon.go:109-135 | three starts, the last recorded out of order, after which trimming at any cutoff drops the stale one in front and leaves the stale one behind the fresh one |
| `AlertStores.RunConserves` | internal/store/store.go:158-201 | on every interleaving each alert offered is in exactly one of dropped, queued, batched or sent; batches hold 1 to `BatchSize`, and what was accepted keeps the order of offers |
| `AlertStores.ClosedAccounts` | internal/store/store.go:126-133 | once the writer has returned nothing is queued or batched and offers equal dropped plus written plus failed |
| `AlertStores.DropsExactlyFull` | internal/store/store.go:158-164 | on every run an alert is dropped exactly when the queue is full as it is offered |
| `AlertStores.BatchesFull` | internal/store/store.go:188-201 | on every run batches are written full but for those the ticker or the end asks for |
| `AlertStores.CloseReturns` | internal/store/store.go:126-201 | after a close the writer can return within one step for each alert queued and one more |
| `AlertStores.EveryScheduleReturns` | internal/store/store.go:126-201 | after a close every schedule leads the same way: the writer advances at most once for each alert queued and once more, has returned exactly when it has, and until then can advance, whatever the ticker does in between |
| `AlertStores.Store.Offer` | internal/store/store.go:158-164 | the alert is queued if there is room and dropped and counted otherwise |
| `AlertStores.Store.TakeOne` | internal/store/store.go:188-196 | one alert moves from queue to batch, and a full batch is written |
| `AlertStores.Store.WriteBatch` | internal/store/store.go:174-184 | the whole batch counts as written or as failed, and leaves |
| `AlertStores.Store.OnTicker` | internal/store/store.go:197-198 | the ticker writes whatever is batched |
| `AlertStores.Store.CloseQueue` | internal/store/store.go:126-133 | closing ends offers and moves nothing |
| `AlertStores.Store.DrainAndReturn` | internal/store/store.go:188-192 | a closed empty queue writes the last batch and ends the writer |

## Left out

- Keys.SoundPrimitivesExist: HMAC, AES, GCM, SHA-256, MD5 and FNV are parameters; only output lengths and the inversion of sealing are assumed, no cryptographic strength.
- Initial.DatagramRoundTrip: says nothing of datagrams that also carry 0-RTT or Handshake packets, for the reason above; that the walk over them ends is proved.
- Initial.Build: version 2 packets, which the builder never prints; that both versions parse is proved of sealed packets.
- Initial.BuildSucceeds: slices and sizes of 2^48 bytes and more, which no memory holds.
- Initial.ParsePacketAt: integers are unbounded; the lengths involved stay below 2^63, so no conversion in the code wraps.
- Cursors.Cursor.Sub: a nil sub-slice and an empty one are the same value here; no caller tells them apart.
- CryptoStreams.SortInPlace: which of two spans with equal starts comes first is left open, as it is by an unstable sort; coalescing forgets it.
- Pipelines.Pipeline.FingerprintServer: the ServerHello parser and JA4S are a parameter; their reassembler is the client's class at another parser.
- Pipelines.Pipeline.ObserveFlow: state of evicted flows is dropped right after the table's call rather than from inside it; nothing between the two reads it.
- Pipelines.Run: a cancelled run is a run over fewer packets; pacing, atomics, mutexes and concurrent readers are not modelled, and the data path is sequential as the code declares.
- Flows.ObserveAccounts: TCP flags seen and whether a connection was established are not recorded; nothing modelled reads them.
- FlowTable.Table.Observe: the flow inside an entry is a value that is replaced, not a record shared with callers; callers that keep a reference past the next packet are not modelled.
- ScanTracks.Scan.OnTick: alert text, severity, score and time span of a finding; the order of findings, which follows map iteration.
- DnsTracks.DnsTrack.Score: the rate per minute and the time of the first query, which are reported but never scored; Shannon entropy is a number each query brings.
- DnsTracks.DnsTrack.OnQuery: the map of tracks over clients and domains, which is bounded and expired like that of the scan detector.
- Beacons.BeaconTrack.Score: the map of tracks over destinations; floating-point rounding, and the value of the square root beyond its sign.
- Engines.Engine.Emit: the finding key is the tuple of its parts; the code joins them into one string with a bar, which tells them apart unless a name contains one. The digest is a field of the alert, and identifiers of published alerts are not modelled.
- AlertStores.Store.WriteBatch: SQL, encoding and retention; a transaction commits or fails as a whole.
- AlertStores.Store.Offer: offering after a close is a caller's error that ends the program, so no step models it.
- AlertStores.EveryScheduleReturns: fairness of the scheduler, which must take the writer's next step at some point; what is proved is that this step is always there and how many there are.
- Capture sources, packet decoding, rule loading, the HTTP API, the dashboard and the command line: presentation and plumbing around the parts above.
- Exfiltration and inventory detectors: single-branch thresholds that would only add easy members.
