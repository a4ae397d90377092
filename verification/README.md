# Verified model of ShadowsocksQt's byte-level core

ShadowsocksQt is a Shadowsocks proxy. Between its sockets and its crypto library lies a hand-written, stateful
byte machine, and that machine is what this Dafny project models and proves things about, from the bottom up:

- **ChaCha engine** (`ChaChaSpec.dfy`, `ChaChaVector.dfy`, `ChaCha.dfy`): the block function and keystream as pure functions after
  section 2 of RFC 8439, an explicit inverse of the rounds, and the streaming object with its buffer, position
  and two-word counter, proved to deliver exactly that keystream.
- **Encryptor** (`Streams.dfy`, `Chunks.dfy`, `AuthenticatedStream.dfy`, `IVUse.dfy`, `KeyDerivation.dfy`,
  `Encryptor.dfy`): streams with an IV prefix, self-contained datagrams, header authentication, the chunk framing
  and its incremental reassembler, IV use over whole histories, key derivation. The specification works with any
  keystream cipher; the object uses the ChaCha engine and is proved against it.
- **Addresses** (`Addresses.dfy`): the `Address` object and the header codec.
- **TCP relay** (`RelaySpec.dfy`, `RelayInvariants.dfy`, `TcpRelay.dfy`, `Tunnel.dfy`): every slot as a step, what
  every run keeps in client and in server mode, the object proved against the steps, and a client and a server
  joined by a connection that fragments at will.
- **UDP relay** (`UdpSpec.dfy`, `UdpRelay.dfy`): the client cache and both datagram paths, with replies over a
  network that loses, reorders and repeats.
- **TCP server** (`TcpServer.dfy`): worker assignment and relay lifetimes.

Objects whose methods change fields are classes; each method is proved equal to a function on the old state, and
the theorems over runs are about those functions. `dafny verify dfyconfig.toml` checks everything.

## Where the code is narrower than one would expect

The model keeps the code as it is; each of these is stated by a lemma with the exact condition.

- `decrypt` throws away a first fragment shorter than the IV: `Streams.StreamRoundTripExact`.
- A chunk longer than 65535 bytes does not read back: `Chunks.FrameReadsBackExactly`.
- A name longer than 255 bytes does not read back: `Addresses.PackNameThenParse`.
- `parseHeader` accepts a name header as soon as the whole name is there and the port is not; it reports a length beyond
  the data and misreads the port: `Addresses.CutHeader`, `Addresses.AcceptedWithin`. A relay that gets its header in
  pieces therefore closes, except on those cuts: `RelaySpec.ServerSplitHeader`, `RelaySpec.ClientSplitHeader`,
  `UdpSpec.RequestHeaderCut`, `UdpSpec.ClientHeaderCut`. On them a client does no harm, because it passes on the bytes
  it got, while a server dials a wrong port and sends the rest of the header as payload: `RelaySpec.SplitHeaderLeaks`,
  `TunnelEndToEnd.UpstreamOutcome`, `TunnelEndToEnd.UpstreamExactly`.
- `onDNSResolved` ignores the stage, so an answer after `close` revives the relay: `RelaySpec.DestroyedExactly`,
  `RelaySpec.LateAnswerRevives`. Whether it can is settled when the relay closes, and it does happen:
  `RelaySpec.RevivedExactly`, `RelaySpec.RevivalHappens`.
- A greeting that is not SOCKS5 is rejected and then treated as accepted: `RelaySpec.RejectedGreetingProceeds`.
- A client takes its first read for the greeting, whatever it holds. The rest of a greeting cut in two is taken for the
  request, which closes the relay if the greeting was 5, 1, 0: `RelaySpec.GreetingCut`. A request that came with the
  greeting is lost and what follows is taken for the request: `RelaySpec.RequestWithGreeting`. The tunnel's theorems
  speak of what was sent behind the first read.
- `encryptAll` after a stream's `encrypt` reuses the IV: `IVUse.NoReuseExactly`, `IVUse.ReuseWhenMixed`.
- `reset` keeps an unfinished chunk, so what follows is a new stream if and only if there was none:
  `AuthenticatedStream.StartsAnewExactly`, with an example in `AuthenticatedStream.ResetKeepsLeftover`.
- The server cuts ten bytes off UDP requests: `UdpSpec.RequestCut`.
- With a 12-byte IV the counter carries into the nonce from block 2^32 to 2^64: `ChaChaSpec.RfcAgreement`.

## Conventions

- Bytes are `bv8`. A `QByteArray` is a sequence; reading one cell past its end gives the terminator 0, and what lies
  behind that is an arbitrary value (`junk` in a configuration).
- `QByteArray::mid` with a negative length goes to the end, and `insert` past the end pads with spaces, as in Qt 5.
- A `QHostAddress` made from 4 or 16 bytes counts as an address. The reading and writing of IP literals is a pair of
  arbitrary functions; `ValidText` asks that a written literal reads back, that surrounding white space does not
  matter to reading, and that the empty string is no literal.
- HMAC-SHA1 cut to 10 bytes and MD5 are arbitrary functions of those output lengths. Random IVs, lookup answers and
  ban decisions are inputs of the operations that ask for them.
- Socket events are those the predicates `Possible` and `UdpPossible` allow: reads while the socket is open, a
  connected signal only after `connectToHost`, one answer per lookup; writes to an open socket succeed. `Allowed`
  also rules out a lookup answer after `close`.
- In runs of two UDP relays (`NetPossible`) a socket handle is used once, the client's sockets are bound to the places a
  fixed function gives, and a reply arrives, if it does, at a socket bound to the place it was sent to.

## Model

| member | source | states |
|---|---|---|
| ChaChaSpec.QuarterRoundInverse | lib/chacha.cpp:12-20 | the quarter round has an explicit two-sided inverse, on all words |
| ChaChaSpec.QuarterRoundVector | lib/chacha.cpp:12-20 | the quarter round meets the test vector of section 2.1.1 of RFC 8439 |
| ChaChaSpec.DoubleRoundsInverse | lib/chacha.cpp:77-87 | any number of double rounds, ten in particular, permutes the sixteen-word states: the inverse undoes them from both sides |
| ChaChaSpec.CounterCarry | lib/chacha.cpp:106-107 | incrementing word 12 with a carry into word 13 is adding one to one 64-bit counter |
| ChaChaSpec.StateAdvances | lib/chacha.cpp:106-107 | the state of the next block differs only in those two words |
| ChaChaSpec.CounterExact | lib/chacha.cpp:49-68 | block n is taken at the starting counter plus n, modulo 2^64 |
| ChaChaSpec.RfcAgreement | lib/chacha.cpp:49-68 | with a 12-byte IV the state of block n is that of section 2.3 of RFC 8439 for counter c if and only if c is n modulo 2^64, so from block 2^32 to 2^64 for no c |
| ChaChaSpec.BlockBytes | lib/chacha.cpp:70-104 | word by word, in little-endian order, the block is the sum of the input words and what twenty rounds make of them |
| ChaChaSpec.RfcKeystream | lib/chacha.cpp:49-68 | hence the first 2^32 blocks of keystream are those of section 2.4 of RFC 8439 with initial counter 0 |
| ChaChaSpec.RfcStream | lib/chacha.cpp:49-133 | with a 12-byte IV every byte of the first 2^32 blocks is masked with the byte of that sum for the state of section 2.3 of RFC 8439, with the counter of its block |
| ChaChaSpec.ShortIVState | lib/chacha.cpp:49-68 | with an 8-byte IV the state of block n is constants, key, n modulo 2^64 in two words, and the IV in two |
| ChaChaVector.BlockVector | lib/chacha.cpp:23-104 | the block meets the test vector of section 2.3.2 of RFC 8439, from the bytes of key and nonce to those of the block |
| ChaChaVector.StreamVector | lib/chacha.cpp:23-133 | under that key and nonce bytes 64 to 128 of a stream of zeros are that block |
| ChaChaSpec.XorStreamSplit | lib/chacha.cpp:111-133 | processing two pieces one after the other equals processing their concatenation |
| ChaChaSpec.XorStreamInvolution | lib/chacha.cpp:111-133 | processing twice from the same position gives the input back |
| ChaChaEngine.ExclusiveOr | lib/common.cpp:115-125 | exactly the cells of the length are written with the exclusive or, except that length 0 writes one cell |
| ChaChaEngine.QuarterRoundInPlace | lib/chacha.cpp:12-20 | the quarter round through references equals the function on the state |
| ChaChaEngine.TenDoubleRounds | lib/chacha.cpp:77-87 | the loop performs ten double rounds |
| ChaChaEngine.FillBlock | lib/chacha.cpp:70-104 | the buffer receives the block of the input state |
| ChaChaEngine.ChaCha.constructor | lib/chacha.cpp:23-47 | a new engine holds block 0 and has used nothing |
| ChaChaEngine.ChaCha.SetIV | lib/chacha.cpp:49-68 | counter and nonce words for both IV lengths, then block 0 |
| ChaChaEngine.ChaCha.NextBlock | lib/chacha.cpp:70-109 | the buffer holds block n and the state is one block ahead |
| ChaChaEngine.ChaCha.Update | lib/chacha.cpp:111-133 | after N bytes in any calls of any lengths, byte k of the output is byte k of the input under keystream byte N+k; every access is in range |
| Streams.EncryptEachWire | lib/encryptor.cpp:28-39 | however the plaintext is cut into encrypt calls, the wire is one IV and one masked string |
| Streams.DecryptEachPlain | lib/encryptor.cpp:41-59 | total decrypt output depends on the fragmentation only through leading fragments too short for the IV |
| Streams.StreamRoundTrip | lib/encryptor.cpp:28-59 | whatever prefix of the wire has arrived in whatever fragments, the output is the matching prefix of the plaintext, if the first non-empty fragment holds the IV |
| Streams.StreamRoundTripExact | lib/encryptor.cpp:41-59 | a completely delivered stream comes out unchanged if and only if the fragments before the IV's are empty or there is no plaintext |
| Streams.DirectionsIndependent | lib/encryptor.cpp:28-59 | in any interleaving of encrypt and decrypt on one instance each direction behaves as if alone |
| Streams.DatagramRoundTrip | lib/encryptor.cpp:61-83 | decryptAll inverts encryptAll from any state of either side |
| Streams.DatagramLength | lib/encryptor.cpp:72-83 | a datagram shorter than an IV yields nothing and changes nothing; any other yields as many bytes less, under the cipher of its first bytes |
| Streams.WireBytes | lib/encryptor.cpp:28-70 | a datagram and a stream in one piece are the IV followed by the data, byte by byte under its keystream |
| Streams.HeaderAuthLayout | lib/encryptor.cpp:99-103 | within the data the tag of the header, keyed with next IV and key, stands behind the header |
| Streams.VerifiesExactly | lib/encryptor.cpp:117-121 | verification compares the ten bytes behind the header with that tag under the receiving IV |
| Streams.HeaderAuthUnderSameIV | lib/encryptor.cpp:99-121 | under the sender's IV the authenticated header verifies for every length within the data, and beyond it if and only if the tags of the data and of its padded form agree |
| Streams.StreamHeaderVerifies | lib/encryptor.cpp:85-121 | on a fresh stream, in any fragments, the receiver ends under the sender's IV and the header verifies |
| Streams.DatagramHeaderVerifies | lib/encryptor.cpp:61-121 | the same in a datagram, from any state of either side |
| Chunks.ParseResumes | lib/encryptor.cpp:123-154 | parsing may stop anywhere and resume with the leftover; a failure is final |
| Chunks.FeedIsParse | lib/encryptor.cpp:123-154 | successive calls all succeed if and only if the concatenated input parses, and then output, leftover and counter do not depend on the fragmentation |
| Chunks.FirstFailure | lib/encryptor.cpp:145-153 | up to and including the first failing call the output is what precedes the first bad tag, and the rest is lost |
| Chunks.IdAfterExact | lib/encryptor.cpp:138-138 | the chunk counter counts modulo 2^32 |
| Chunks.ParseFrames | lib/encryptor.cpp:105-154 | the parser inverts the printer on chunks that fit, leaving any unfinished tail |
| Chunks.FrameReadsBackExactly | lib/encryptor.cpp:105-115 | one framed chunk reads back if and only if its length is below 2^16 |
| Chunks.ChunkRoundTrip | lib/encryptor.cpp:105-154 | after any prefix of the framed stream, cut anywhere, every call succeeded, the output is the chunks that are complete, and exactly the unconsumed suffix is kept |
| Chunks.CounterBytes | lib/encryptor.cpp:107-110 | the counter enters the tag as its four bytes modulo 2^32, the highest first |
| Chunks.FrameLayout | lib/encryptor.cpp:105-115 | a frame is two length bytes, the highest first, ten bytes of the tag keyed with IV and counter bytes, and the chunk |
| Chunks.AuthenticExactly | lib/encryptor.cpp:134-141 | a received frame is authentic if and only if those ten bytes are that tag of what follows |
| Chunks.ParseSound | lib/encryptor.cpp:123-154 | what the parser accepts is what the printer prints, followed by an unfinished frame or by a complete frame with a bad tag, after which nothing is left and the counter has counted the bad frame too |
| Chunks.LeftoverExactly | lib/encryptor.cpp:123-154 | behind a leftover a framed stream parses into its own chunks, with nothing left, if and only if the leftover is empty |
| Chunks.LeftoverHarms | lib/encryptor.cpp:123-154 | behind any other unfinished leftover a single empty chunk is never just delivered: the call fails, or delivers bytes, or leaves some |
| AuthenticatedStream.AuthenticatedEndToEnd | lib/encryptor.cpp:28-59 | chunk framing over an encrypted stream: all verifications succeed and the output is the chunks whose frames have arrived |
| AuthenticatedStream.ResetStartsAnew | lib/encryptor.cpp:15-26 | after a reset of both sides, whatever they did before, a new framed stream reassembles if no chunk was unfinished |
| AuthenticatedStream.StartsAnewExactly | lib/encryptor.cpp:15-26 | after a reset an instance receives every new framed stream correctly, from every sender and in all fragments, if and only if no chunk was unfinished |
| AuthenticatedStream.ResetKeepsLeftover | lib/encryptor.cpp:15-26 | for example, a byte 0xff that came alone is kept, and with it in front a complete new chunk below 65279 bytes is not delivered, whereas without it it is |
| IVUse.NoReuseExactly | lib/encryptor.cpp:12-38 | over any history of calls the IV of every encrypting cipher is the draw the log names, no draw is named twice, and, if all draws differ, no two ciphers have the same IV, if and only if encryptAll never follows an encrypt that created the cipher without a reset or encryptAll in between |
| IVUse.NoReuseInRelays | lib/encryptor.cpp:12-70 | histories with encrypt and reset only, or encryptAll and reset only, never key two ciphers with one draw |
| IVUse.ReuseWhenMixed | lib/encryptor.cpp:61-70 | after encrypt and encryptAll of any data, with any draws, both ciphers have had the first IV |
| KeyDerivation.LongerChainSameKey | lib/encryptorprivate.cpp:45-61 | any sufficiently long digest chain gives the key of the shortest sufficient one |
| KeyDerivation.KeyFromDigests | lib/encryptorprivate.cpp:40-62 | for any digests of which the first is that of the password and each next one that of its predecessor followed by the password, the key is the first keyLen bytes of their concatenation, if they are enough |
| KeyDerivation.KeyOf32 | lib/encryptorprivate.cpp:40-62 | so a 32-byte key is the digest of the password followed by the digest of that digest and the password |
| KeyDerivation.EncryptorPrivate.EvpBytesToKey | lib/encryptorprivate.cpp:40-62 | although the loop builds keyLen + ivLen digests, the key is EVP_BytesToKey's, of length keyLen, whatever ivLen is |
| EncryptorObject.Encryptor.constructor | lib/encryptor.cpp:6-13 | no ciphers, counter 0, the first draw as next IV |
| EncryptorObject.Encryptor.Reset | lib/encryptor.cpp:15-26 | ciphers and counter go, a new IV is drawn only if one was in use, the unfinished chunk stays |
| EncryptorObject.Encryptor.Encrypt | lib/encryptor.cpp:28-39 | the stream step of the specification on the real engines, the other direction untouched |
| EncryptorObject.Encryptor.Decrypt | lib/encryptor.cpp:41-59 | the receiving step, including the fragment too short for an IV |
| EncryptorObject.Encryptor.EncryptAll | lib/encryptor.cpp:61-70 | the datagram step with the IV held so far, and a new draw afterwards |
| EncryptorObject.Encryptor.DecryptAll | lib/encryptor.cpp:72-83 | the receiving datagram step, with the datagram's own IV |
| EncryptorObject.Encryptor.AddHeaderAuth | lib/encryptor.cpp:99-103 | the tag of the header under next IV and key, inserted behind the header |
| EncryptorObject.Encryptor.VerifyHeaderAuth | lib/encryptor.cpp:117-121 | whether that tag is found under the receiving IV |
| EncryptorObject.Encryptor.AddChunkAuth | lib/encryptor.cpp:105-115 | the frame of the chunk at the current counter, whose bytes 2 to 12 are the tag keyed with next IV and the four counter bytes; the counter then advances modulo 2^32 |
| EncryptorObject.ExtractChunks | lib/encryptor.cpp:128-151 | the reassembly loop computes the recursive parser's chunks, leftover, counter and verdict |
| EncryptorObject.Encryptor.VerifyExtractChunkAuth | lib/encryptor.cpp:123-154 | one call is one parse of leftover plus input |
| Addresses.TrimExactly | lib/address.cpp:56-63 | trimming a name takes all white space off both ends and nothing else |
| Addresses.PackedV4 | lib/common.cpp:48-65 | the bytes of a packed IPv4 address and port: 1, the address and the port from the highest byte on |
| Addresses.PackedV6 | lib/common.cpp:48-65 | 4, the sixteen bytes, the port |
| Addresses.PackedHost | lib/common.cpp:22-46 | 3, the length byte, the name, the port |
| Addresses.PackIPThenParse | lib/common.cpp:48-113 | a packed IP header reads back with its exact length, whatever follows |
| Addresses.PackNameThenParse | lib/common.cpp:22-85 | a packed name reads back, whatever follows, if and only if it has at most 255 bytes |
| Addresses.PackThenParse | lib/common.cpp:22-113 | the round trip for all kinds of addresses |
| Addresses.HeadersSelfDelimiting | lib/common.cpp:22-113 | two packed headers that begin the same bytes are the same header with the same remainder |
| Addresses.ParseThenPack | lib/common.cpp:22-113 | packing a completely present header gives its bytes back with the high nibble of the first cleared, for a name if and only if it is trimmed and no literal |
| Addresses.HeaderThenParse | lib/common.cpp:67-113 | a complete header, however it was made, reads the same whatever follows it in the data or in memory |
| Addresses.NameIsHeader | lib/common.cpp:75-85 | type 3, with any high nibble, length, any name of that length and port are a complete header, for a literal and for untrimmed names too; its address is what setAddress makes of the name |
| Addresses.CutHeader | lib/common.cpp:67-113 | a proper prefix of any complete header is accepted if and only if it is a name's, longer than two bytes, and holds the whole name; then the length reported is the complete header's and the port is misread |
| Addresses.AcceptedWithin | lib/common.cpp:67-113 | of any data, an accepted header lies within the data if and only if, for a name, the data holds name and port |
| Addresses.ParseInto | lib/common.cpp:67-113 | parseHeader overwrites the destination completely or not at all |
| Addresses.Address.SetAddress | lib/address.cpp:56-63 | trimmed text and the literal's IP, keeping the address consistent |
| Addresses.Address.SetIPAddress | lib/address.cpp:65-69 | the IP and its text, keeping the address consistent |
| Addresses.Address.LookUp | lib/address.cpp:40-46 | an answer at once if and only if an IP is known |
| Addresses.Address.OnLookUpFinished | lib/address.cpp:96-103 | the answer's IPs on success, nothing on an error |
| RelaySpec.ClosesExactly | lib/tcprelay.cpp:68-240 | an open relay closes if and only if the event is a failure, an empty read, a failed lookup, or a request with an unknown command or no header, and then nothing more is written or dialled |
| RelaySpec.LookupDials | lib/tcprelay.cpp:144-154 | a successful lookup makes the relay dial the first IP of the answer, or none if it is empty, at the port of the address looked up |
| RelaySpec.RequestAnswered | lib/tcprelay.cpp:79-121 | the reply to an accepted connect request, byte by byte, and to a UDP request, whose stage then is UDP_ASSOC |
| RelaySpec.DestroyedExactly | lib/tcprelay.cpp:68-77 | a closed relay stays closed and unchanged if and only if the event is not a successful lookup answer |
| RelaySpec.LateAnswerRevives | lib/tcprelay.cpp:144-167 | such an answer makes a closed relay dial and, once connected, send what it had queued |
| RelaySpec.RevivedExactly | lib/tcprelay.cpp:68-77 | some possible event revives a closed relay if and only if a lookup was outstanding when it closed |
| RelaySpec.RevivalHappens | lib/tcprelay.cpp:68-167 | with a proxy known by name only, any greeting, any accepted connect request, a failure, a lookup answer and a connection are a possible run from the start: the relay closes with the request queued, revives, and sends it |
| RelaySpec.ServerSplitHeader | lib/tcprelay.cpp:100-131 | a server whose first decrypted bytes are a proper prefix of any header closes if and only if parseHeader notices the cut; otherwise it takes the name with a misread port |
| RelaySpec.SplitHeaderLeaks | lib/tcprelay.cpp:117-222 | the rest of such a header is then queued for the destination in front of the payload |
| RelaySpec.ClientSplitHeader | lib/tcprelay.cpp:79-131 | a client whose request is cut within any header closes on the same cuts, and otherwise accepts it and queues the encryption of the bytes it got |
| RelaySpec.RejectedGreetingProceeds | lib/tcprelay.cpp:201-213 | any greeting moves a client on; only the reply differs |
| RelaySpec.RequestWithGreeting | lib/tcprelay.cpp:179-213 | what came in one read with the greeting changes nothing, and the next read is the request: it closes the client if and only if it is refused as one |
| RelaySpec.GreetingCut | lib/tcprelay.cpp:179-213 | the rest of a greeting cut in two closes the client if and only if it is refused as a request, which the greeting 5, 1, 0 always is |
| RelayInvariants.ClientStep | lib/tcprelay.cpp:79-240 | every event keeps the client invariant: sockets go with the stage, both ciphers are where the reads so far put them, queue and written bytes are the encryption of request and payload |
| RelayInvariants.ServerStep | lib/tcprelay.cpp:79-240 | every event keeps the server invariant: the same for the decrypted bytes after the header, and the dialled address is the header's |
| RelayInvariants.ClientBuffering | lib/tcprelay.cpp:117-222 | in every state of every client run nothing leaves before the request, then the queue is IV plus encryption of header and payload so far, and once connected exactly that has been written; only the proxy is dialled, at its own first IP or the first one its lookup returned |
| RelayInvariants.ServerBuffering | lib/tcprelay.cpp:117-222 | in every state of every server run the same of the plaintext after a header that came whole, also when the lookup answers at once |
| TcpRelayObject.StepWellFormed | lib/tcprelay.cpp:117-154 | lookups are outstanding only for addresses without IPs and while nothing is dialled |
| TcpRelayObject.TcpRelay.NoIVReuse | lib/tcprelay.cpp:196-235 | over its whole life the IVs of the encrypting ciphers a relay created are different draws, so all different if the draws are |
| TcpRelayObject.TcpRelay.OnLocalTcpSocketReadyRead | lib/tcprelay.cpp:179-223 | the slot is the local read step |
| TcpRelayObject.TcpRelay.HandleStageAddrData | lib/tcprelay.cpp:79-98 | the SOCKS5 command dispatch is that of the step |
| TcpRelayObject.TcpRelay.TakeHeaderData | lib/tcprelay.cpp:100-132 | header, replies, queue and lookup are those of the step |
| TcpRelayObject.TcpRelay.OnRemoteTcpSocketReadyRead | lib/tcprelay.cpp:225-235 | the slot is the remote read step |
| TcpRelayObject.TcpRelay.OnRemoteConnected | lib/tcprelay.cpp:160-167 | the slot is the connected step: the queue is written once and emptied |
| TcpRelayObject.TcpRelay.OnLookUpFinished | lib/tcprelay.cpp:144-154 | the lookup answer and onDNSResolved together are the lookup step, and the first IP of the answer is dialled |
| TcpRelayObject.TcpRelay.OnSocketErrorOrTimeout | lib/tcprelay.cpp:68-77 | errors, disconnections and the timer close the relay once |
| TunnelEndToEnd.EveryRunOk | lib/tcprelay.cpp:79-240 | in every run of client and server over a fragmenting connection both invariants hold and each end has read a prefix of what the other wrote |
| TunnelEndToEnd.UpstreamEndToEnd | lib/tcprelay.cpp:79-235 | whatever header the request has and however the application cuts request and payload, with IV and header each in one piece at the server, the server dials the header's address, at its IP or the first one its only lookup returned, and has forwarded or queued a prefix of the payload; once everything written has arrived and it has not closed, exactly what the application sent behind its request |
| TunnelEndToEnd.UpstreamToAddress | lib/tcprelay.cpp:79-154 | in particular, if the header packs an address, that is where the server connects: at its IP, or for a name at the first IP its lookup returned |
| TunnelEndToEnd.UpstreamOutcome | lib/tcprelay.cpp:79-235 | for any header and with the IV in one piece at the server, what it does by its first decrypted fragment: the payload behind a whole header; closed with nothing dialled or sent on a cut it notices; else a misread port and the rest of the header in front of the payload |
| TunnelEndToEnd.UpstreamExactly | lib/tcprelay.cpp:100-131 | with everything arrived and the server not closed, it forwards exactly what was sent behind the header if and only if the header came whole at the server or nothing came behind its first fragment |
| TunnelEndToEnd.DownstreamEndToEnd | lib/tcprelay.cpp:225-235 | what the application receives is the two fixed replies and a prefix of what the destination sent, all of it once everything is delivered |
| TunnelEndToEnd.CompleteExchange | lib/tcprelay.cpp:79-235 | for any greeting, connect request, payload and reply, with or without lookups on either side, some run delivers all of the payload to the destination and all of the reply to the application, both dialling the first IP they have or look up |
| UdpSpec.CacheBijective | lib/udprelay.cpp:123-139 | no two clients share a socket and the reverse lookup returns the client a socket was created for |
| UdpSpec.ClosedClean | lib/udprelay.cpp:50-58 | closing leaves no client and no cipher, and a next IV that has keyed none |
| UdpSpec.CacheAlwaysOk | lib/udprelay.cpp:50-58 | this holds in every reachable state |
| UdpSpec.DisconnectRemovesOne | lib/udprelay.cpp:200-209 | disconnecting a socket removes its client's entry and no other |
| UdpSpec.EntryStays | lib/udprelay.cpp:123-139 | an entry survives a step if and only if the step neither closes the relay nor disconnects its socket |
| UdpSpec.ReplyEndToEnd | lib/udprelay.cpp:172-198 | from any states of both relays a reply reaches the client behind the socket as three zero bytes, the packed source and the unchanged payload (section 7 of RFC 1928) |
| UdpSpec.RepliedExactly | lib/udprelay.cpp:154-198 | a far datagram is passed on if and only if it is at most 65536 bytes long, its socket has a client with a port and, at a client, it decrypts to a header and more; otherwise nothing is sent |
| UdpSpec.RepliesGenuine | lib/udprelay.cpp:154-198 | under any loss, reordering and duplication every reply ever delivered has that form for some datagram a far host really sent, to a server socket opened from the very client socket that was created for the application which gets the reply |
| UdpSpec.OneApplicationPerSocket | lib/udprelay.cpp:123-198 | with client sockets bound differently, all replies that came in on one server socket go to one application |
| UdpSpec.RequestReaches | lib/udprelay.cpp:95-143 | a SOCKS5 datagram with fragment 0 and a header is sent once, through its client's own socket and to the proxy, at its own or the looked-up IP, and decrypts at any server to header and payload; any other datagram changes nothing |
| UdpSpec.RequestCut | lib/udprelay.cpp:115-151 | the server sends a request's payload to the address in its header, at its own or the looked-up IP, through the client's cached socket; unchanged if and only if it is shorter than ten bytes, and otherwise without its last ten |
| UdpSpec.ForwardedExactly | lib/udprelay.cpp:79-139 | a server forwards a datagram if and only if it is at most 65536 bytes long, its sender is not banned and it decrypts to a header and more; a banned one changes nothing |
| UdpSpec.RequestHeaderCut | lib/udprelay.cpp:113-146 | a request that ends within its header is ignored if and only if parseHeader notices the cut; otherwise the server sends one empty datagram to a misread port |
| UdpSpec.ClientHeaderCut | lib/udprelay.cpp:95-141 | a client ignores the same datagrams and passes the others on as they are |
| UdpRelayObject.UdpRelay.NoIVReuse | lib/udprelay.cpp:140-187 | over its whole life the IVs of the encrypting ciphers a relay created are different draws, so all different if the draws are |
| UdpRelayObject.UdpRelay.OnServerUdpSocketReadyRead | lib/udprelay.cpp:79-152 | the slot is the client datagram step and keeps the cache a bijection |
| UdpRelayObject.UdpRelay.OnClientUdpSocketReadyRead | lib/udprelay.cpp:154-198 | the slot is the far datagram step |
| UdpRelayObject.UdpRelay.OnClientDisconnected | lib/udprelay.cpp:200-209 | the slot is the disconnection step |
| UdpRelayObject.UdpRelay.Close | lib/udprelay.cpp:50-58 | closing empties the cache and resets the encryptor |
| TcpServerObject.ServerAlwaysOk | lib/tcpserver.cpp:20-76 | after any run the worker index is in range of as many workers as the hardware has, or one; loads differ by at most one, and every relay created is listed once or was scheduled for deletion once, however often it finished |
| TcpServerObject.Retires | lib/tcpserver.cpp:31-76 | a listed relay that finishes leaves the list and is scheduled for deletion, and the destructor does so with all |
| TcpServerObject.TcpServer.constructor | lib/tcpserver.cpp:21-28 | at least one worker, one thread each |
| TcpServerObject.TcpServer.IncomingConnection | lib/tcpserver.cpp:41-68 | the accepting step; a banned peer changes nothing |
| TcpServerObject.TcpServer.OnConnectionFinished | lib/tcpserver.cpp:70-76 | the finishing step: a relay already gone is not scheduled again |
| TcpServerObject.TcpServer.Destroy | lib/tcpserver.cpp:31-39 | the destructor schedules every relay still listed |

## Left out

- Ciphers reached through `Botan::Pipe`; the ChaCha engine is the one whose code is here. Its constructor's
  exception for other IV lengths is a precondition of the model.
- The insides of HMAC-SHA1, MD5 and the random generator.
- Sockets, timers, threads and signals beyond the events above: read buffer limits, partial and failed writes, and the
  repeated `finished` signal when closing a socket emits `disconnected` at once.
- Memory lifetimes: `deleteLater`, and the pointer `decryptAll` keeps to a cipher it has scheduled for deletion when a
  datagram is too short.
- Text encodings and white space outside ASCII; names are byte strings.
- The ban list: whether a peer is banned is an input; banning after a bad header is not recorded.
- UDP datagrams above 65536 bytes: the model ignores them, while the code leaves them pending in the socket.
- `addHeaderAuth` without a length, which appends the tag: the case of a header as long as the data.
- `Controller`, `Client`, `Profile`, `AddressTester`, logging, byte counters and latency reports.
- The cipher name tables: finite lookups.
- ChaChaEngine.ChaCha.Update: byte counts are unbounded; the code's 32-bit lengths are not modelled.
- EncryptorObject.Encryptor.DecryptAll: after a datagram too short for an IV the old cipher stays usable, while the code has scheduled it for deletion.
- Addresses.Address.LookUp: says whether the answer is immediate; emitting the signal and starting the lookup are left to the caller.
- Chunks.FrameReadsBackExactly: for a chunk that is too long it says only that the chunk is not read back, because what is read instead depends on the hash.
