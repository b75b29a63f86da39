# gnserver: verified model of its protocol core

gnserver carries QUIC inside its own datagram layer. Before QUIC starts, two
programs agree on transport keys from a key id or from fixed markers; a
post-quantum handshake inside TLS then gives both a fresh root, and the
datagram layer moves to keys derived from it while packets keep flowing. Above
that sit a route index with re-dispatch, the reassembly of requests from stream
chunks, a cache of inactive sessions, and a compiler from type annotations to
checkers. This project models those parts and proves what they promise.

`dafny verify dfyconfig.toml` checks everything.

## How it is organised

| files | subject |
|---|---|
| `Prelude`, `Bytes`, `Utf8`, `Filters` | results, big-endian numbers, UTF-8, order-keeping filters |
| `Symbols`, `KeySchedule`, `KdcTables` | octets over symbolic primitives, transport key derivation, key tables |
| `Encryptor`, `Rekey`, `RekeyInOrder`, `Bootstrap`, `Inbound`, `InboundFates`, `Load` | the datagram layer |
| `Certificate`, `CertificateNames`, `Configuration`, `Messages`, `Extensions`, `Handshake` | certificates, messages and the steps of the handshake |
| `Agreement`, `Authentication`, `HandshakeRuns` | what the ends agree on, whatever the network does, and what a run comes to |
| `SessionRoot`, `Witness` | the installation of the root, and runs that complete |
| `Templates`, `Paths`, `RouteIndex`, `Dispatch` | routing |
| `SessionCache`, `Streams`, `ClientStreams`, `Checkers`, `Validation` | session cache, streams, parameter checking |

Objects the program changes in place are classes here: `ConnectionEncryptor`,
`InboundPeer`, `App`, `InactiveSessions`, `Reassembly`, `ClientCore`,
`LoadWindow`. Their methods are proved against functions of the old state, and
the main results are proved about those functions: over every run of two
encryptors and a network, every interleaving of the inbound pipeline, every
history of the cache.

Cryptography is a free term algebra, not a set of axioms. An octet is a literal
byte or one octet of the output of a primitive, and each primitive is a
constructor; what is needed of HKDF (section 2 of RFC 5869), X25519 (section 6.1
of RFC 7748), ML-KEM and ML-DSA is proved from the definitions. AES-OCB is a
packet that opens under the key it was sealed with and no other. Message formats
are concrete octets.

## What turned out not to hold as one might expect

The code was kept as it is. Each item names an input on which the property fails and
the exact condition under which it holds.

- The inbound pipeline keeps payloads waiting until the keys are there, but a system
  datagram of a command other than 0 and 1 is passed on at once and overtakes them
  (`Inbound.OtherSystemBreaksOrder`). An Initial that does not parse as a QUIC packet,
  waiting in the queue, ends the flush, and a later datagram can overtake the ones
  behind it (`Inbound.MalformedInitialBreaksOrder`). Nothing else disturbs the order
  (`Inbound.InOrderExactly`), and every datagram is always accounted for, once
  (`Inbound.ExactlyOnce`).
- A certificate configured with a public key given as text is accepted at start-up, and
  every peer refuses it, since its source dictionary travels with the text in it
  (`Configuration.TextualKeyExample`). Runs need keys given as octets
  (`Configuration.ConfiguredReadableExactly`, `HandshakeRuns.RunCompletesExactly`).
- Request dispatch appends to the list of whatever object a handler returns. Two stored
  objects with lists of their own, returned in turn by two routes, keep it going without
  end (`Dispatch.NeverEnds`). When each returned object's list holds what the request's
  list held, it ends within the number of routes (`Dispatch.EndsWithin`).
- A stream that ends with a chunk on which the header parser raises keeps its entry in
  the buffer table (`Streams.AnySplitAnyInterleaving` has the exact condition). On the
  client, the rest of such a response is taken for a request
  (`ClientStreams.ResponseRaises`).
- A response that ends inside its header leaves its future in the table, pending,
  until the timeout (`ClientStreams.EndsInsideHeader`, `ClientStreams.ResponseFromBytes`).
- A send key that was pending before a re-bootstrap takes the place of the new bootstrap
  key with the first packet under the new inbound key (`Encryptor.StaleKeyExample`); a
  server is in that state between the installation of a root and its next turn.
  `Encryptor.BootstrapOverPending` has the exact condition.
- The Initial header carries key ids up to 0x7FFFFFFFFFFFFF only, although the
  client accepts larger ones (`Bootstrap.LargeIdIsLost`, `Bootstrap.HeaderRoundTrip`).
- A node key id that the client finds by name does not give mirrored keys
  (`Bootstrap.NodeByNameExample`), unless the client is itself called gn:node-client
  (`Bootstrap.NodeKeyByNameMirrors`).
- A certificate whose name lists several domains never covers its own name, so a
  client that presents one is always refused (`CertificateNames.ListedNameExample`,
  `CertificateNames.CoversItself`, `HandshakeRuns.RunCompletesExactly`).
- Inbound and outbound transport keys coincide for the names "a" and "aa"
  (`KeySchedule.OneKeyExample`), and exactly when both names are repetitions of one
  string (`KeySchedule.DirectionsSeparate`).

## Model

| member | source | states |
|---|---|---|
| Symbols.HkdfInjective | src/gnserver/_gn_pq_session.py:48-54 | equal outputs of one length come from equal secrets, salts and labels |
| Symbols.ExchangeCommutes | src/gnserver/_gn_pq_handshake.py:430-433 | both ends of an X25519 exchange compute one secret |
| Symbols.DecapsulateEncapsulated | src/gnserver/_gn_pq_handshake.py:512-513 | decapsulation with the key's seed gives the encapsulated secret |
| Symbols.ExchangeDetermines | src/gnserver/_gn_pq_handshake.py:430-433 | two exchanges give one secret exactly when the same two scalars take part |
| Symbols.DecapsulatesExactly | src/gnserver/_gn_pq_handshake.py:565-569 | the encapsulated secret comes out with the seed of the key it was made for and no other |
| Symbols.EncapsulationDetermines | src/gnserver/_gn_pq_handshake.py:512-513 | two encapsulations give one secret, or one ciphertext, exactly for equal keys and coins |
| Symbols.ForeignCiphertextSeparate | src/gnserver/_gn_pq_handshake.py:565-569 | a ciphertext nobody made for the key shares no secret with any encapsulation |
| Symbols.ForeignPointSeparate | src/gnserver/_gn_pq_handshake.py:430-433 | a point nobody made shares no secret with an honest exchange |
| Symbols.VerifySigned | src/gnserver/_gn_pq_handshake.py:501-503 | a signature verifies exactly under the signer's key and for the signed message |
| KeySchedule.MirroredExactly | src/gnserver/_gn_pq_session.py:455-471 | two ends' key pairs mirror exactly when the secret and both concatenations of names agree |
| KeySchedule.MirroredSameClient | src/gnserver/server/_datagram_enc.py:71-90 | with one secret and one client name, they mirror exactly when the client's idea of the server is the server's own name |
| KeySchedule.DirectionLabelled | src/gnserver/server/_datagram_enc.py:71-90 | the key of a direction is labelled by sender and then receiver, at both of its ends |
| KeySchedule.PhasesSeparate | src/gnserver/_gn_pq_session.py:455-471 | no bootstrap key is ever a transport key, whatever secrets and names are used |
| KeySchedule.CommuteExactly | src/gnserver/server/_datagram_enc.py:77-88 | two names give one concatenation in both orders exactly when they are powers of one string |
| KeySchedule.DirectionsSeparate | src/gnserver/server/_datagram_enc.py:71-90 | inbound and outbound key coincide exactly in that case |
| KeySchedule.OneKeyExample | src/gnserver/server/_datagram_enc.py:71-90 | the names "a" and "aa" give one key for both directions |
| Encryptor.BootstrapOverPending | src/gnserver/server/_datagram_enc.py:115-123 | when the first packet under new bootstrap keys leaves the new send key in place |
| Encryptor.StaleKeyExample | src/gnserver/server/_datagram_enc.py:115-123 | a pending key takes the place of the send key installed after it |
| Encryptor.InstalledStillOpens | src/gnserver/server/_datagram_enc.py:115-123 | after new keys both the new and the former inbound key open, and the new send key is used at once |
| Encryptor.ReceiveOnlyOpensBoth | src/gnserver/server/_datagram_enc.py:144-175 | after a receive-only change both inbound keys open and the former send key is used, until the first packet under the new key or the switch |
| Encryptor.OpensExactly | src/gnserver/server/_datagram_enc.py:327-346 | a packet opens exactly under the current or the previous inbound key, and changes nothing otherwise |
| Encryptor.NonceParts | src/gnserver/server/_datagram_enc.py:316-319 | the octets of a nonce read back as clock, counter and random number |
| Encryptor.InitializesExactly | src/gnserver/server/_datagram_enc.py:206-313 | which initializations succeed with which key id, and what a failure leaves alone |
| Encryptor.BootstrapLabelled | src/gnserver/server/_datagram_enc.py:220-234 | whose names label the keys of a key id: own and domain, or the client marker for nodes |
| Encryptor.RememberedKeyKept | src/gnserver/server/_datagram_enc.py:119-123 | without a current inbound key a change of keys keeps the one remembered before |
| KdcTables.FirstEntries | src/gnserver/_kdc_object.py:360-368 | a table look-up finds the first entry, both ways |
| KdcTables.NodeKeysExactly | src/gnserver/server/_datagram_enc.py:220-222 | the node key ids are those of types 252 and 253 |
| Encryptor.NoncesDistinct | src/gnserver/server/_datagram_enc.py:316-319 | up to 2^64 nonces of one encryptor are pairwise distinct, whatever clock and generator return |
| Encryptor.NoncesDistinctExactly | src/gnserver/server/_datagram_enc.py:316-319 | and that bound is exact |
| Encryptor.ConnectionEncryptor.constructor | src/gnserver/server/_datagram_enc.py:94-110 | the fresh state: no keys, not ready |
| Encryptor.ConnectionEncryptor.SetTransportKeys | src/gnserver/server/_datagram_enc.py:115-123 | both keys change and the old inbound key is remembered; wrong lengths change nothing |
| Encryptor.ConnectionEncryptor.SetSessionRoot64 | src/gnserver/server/_datagram_enc.py:128-142 | the root's keys are installed both ways |
| Encryptor.ConnectionEncryptor.SetSessionRoot64ReceiveOnly | src/gnserver/server/_datagram_enc.py:144-168 | the inbound key changes, the outbound key waits, nothing else moves |
| Encryptor.ConnectionEncryptor.ApplyPendingKeyOut | src/gnserver/server/_datagram_enc.py:170-175 | the waiting outbound key takes effect once |
| Encryptor.ConnectionEncryptor.RestoreInactiveSession | src/gnserver/server/_datagram_enc.py:191-203 | the stored session is back with its keys, or the root is refused after the other fields are set |
| Encryptor.ConnectionEncryptor.InitByKeyId | src/gnserver/server/_datagram_enc.py:206-242 | the whole state for every outcome, including the missing domain and the missing key |
| Encryptor.ConnectionEncryptor.InitRaw | src/gnserver/server/_datagram_enc.py:244-248 | the unencrypted state, transport keys untouched |
| Encryptor.ConnectionEncryptor.InitType2 | src/gnserver/server/_datagram_enc.py:251-269 | the marker keys of type 2 for either role |
| Encryptor.ConnectionEncryptor.InitByDomain | src/gnserver/server/_datagram_enc.py:277-313 | the whole state for every type and for unknown names |
| Encryptor.ConnectionEncryptor.MakeNonce | src/gnserver/server/_datagram_enc.py:316-319 | clock, counter after increment with wrap-around, random octets |
| Encryptor.ConnectionEncryptor.Encrypt | src/gnserver/server/_datagram_enc.py:321-325 | seals under the current outbound key and a fresh nonce |
| Encryptor.ConnectionEncryptor.Decrypt | src/gnserver/server/_datagram_enc.py:327-346 | opens under the current or the previous key; the first packet under the current one completes the switch |
| Rekey.ScheduleIsDistinct | src/gnserver/_gn_pq_session.py:455-471 | distinct roots give distinct keys, whatever names each epoch uses, and the server's derivation is the client's mirror image |
| Rekey.NextKeeps | src/gnserver/server/_datagram_enc.py:144-175 | every step of install, tick, send and delivery keeps the invariant of the two keyrings and of all packets in flight |
| Rekey.RekeySafety | src/gnserver/server/_datagram_enc.py:144-175 | under loss, repetition and reordering, over any number of rekeys, each send key is the peer's current or previous inbound key |
| Rekey.NeverLockedOut | src/gnserver/server/_datagram_enc.py:327-346 | so a packet sealed in any reachable state opens at the other end, both ways |
| Rekey.NoStepBack | src/gnserver/server/_datagram_enc.py:119-123 | no step returns a side to an earlier epoch's send key |
| Rekey.RoundCompletes | src/gnserver/server/_datagram_enc.py:144-178 | when nothing is lost, one rekey brings both ends to the next epoch with both send keys in place |
| Rekey.EveryEpochReached | src/gnserver/server/_datagram_enc.py:144-178 | so every epoch is reached in some run |
| Rekey.InstallSafeExactly | src/gnserver/server/_datagram_enc.py:144-175 | for a caller that may install several roots, another one is safe exactly when the client's send key is not pending |
| Rekey.FirstInstallSafe | src/gnserver/client/_client.py:780-789 | a client that installs once, as a client connection does, meets that condition in every reachable state |
| Rekey.InstallTwiceUnsafe | src/gnserver/server/_datagram_enc.py:144-168 | two installs in a row lock the ends out of each other |
| RekeyInOrder.ToServerKeeps | src/gnserver/server/_datagram_enc.py:327-346 | the next datagram to the server opens and the layering of old and new packets is kept |
| RekeyInOrder.EveryDeliveryOpens | src/gnserver/server/_datagram_enc.py:144-178 | with order kept, every datagram delivered in any run opens, whatever was lost |
| RekeyInOrder.OnePacketEachWaySettles | src/gnserver/server/_datagram_enc.py:327-340 | one packet under the newest key each way leaves no pending and no previous key |
| RekeyInOrder.InOrderRoundCompletes | src/gnserver/server/_datagram_enc.py:144-178 | the same over links that keep their order, after which the client holds no earlier key |
| RekeyInOrder.FollowUpSettles | src/gnserver/server/_datagram_enc.py:327-346 | and after one more packet of the client neither does the server |
| RekeyInOrder.LosesExactly | src/gnserver/server/_datagram_enc.py:327-346 | a loss takes one datagram off its link and changes nothing else |
| Bootstrap.FoldedId | src/gnserver/server/_datagram_enc.py:1195-1199 | the folded id is the id exactly from 0 to 0x7FFFFFFFFFFFFF |
| Bootstrap.FoldsModulo | src/gnserver/server/_datagram_enc.py:1195-1199 | beyond the bound an id is folded by its distance from zero, modulo the bound |
| Bootstrap.ConstructInitial | src/gnserver/server/_datagram_enc.py:1185-1208 | the ten octets, or the overflow of a key type beyond one octet; Inbound.ConstructedIsInitial says what a receiver takes them for |
| Bootstrap.HeaderMasks | src/gnserver/server/_datagram_enc.py:1185-1194 | only seven bits of the version and four of the type are sent |
| Bootstrap.HeaderRoundTrip | src/gnserver/server/_datagram_enc.py:1340-1351 | the parser recovers type, body and key id, the last exactly within that bound |
| Bootstrap.ParsesExactly | src/gnserver/server/_datagram_enc.py:1322-1351 | what a system datagram is taken for, and what is read from it, by its octets |
| Bootstrap.LargeIdIsLost | src/gnserver/server/_datagram_enc.py:1195-1199 | the first id beyond the bound reads back as 1 |
| Bootstrap.Type2Mirrors | src/gnserver/server/_datagram_enc.py:1358-1383 | type 2: after the header both ends hold mirrored marker keys, whatever they held before |
| Bootstrap.Type2ClientLabelled | src/gnserver/server/_datagram_enc.py:251-269 | the type 2 client seals under the empty secret, labelled by its own marker and then the server's |
| Bootstrap.MirroredEndsTalk | src/gnserver/server/_datagram_enc.py:321-346 | ends mirror exactly when each opens what the other seals |
| Bootstrap.OrdinaryKeyMirrors | src/gnserver/server/_datagram_enc.py:1295-1312 | ordinary ids: the ends mirror exactly when they share the key and the client meant the server's own name |
| Bootstrap.NodeKeyMirrors | src/gnserver/server/_datagram_enc.py:220-234 | node ids: the ends mirror exactly when their tables agree on the node's name and key |
| Bootstrap.NodeKeyByNameMirrors | src/gnserver/server/_datagram_enc.py:289-305 | a node id found by name mirrors exactly when the client is called gn:node-client |
| Bootstrap.NodeByNameExample | src/gnserver/server/_datagram_enc.py:289-305 | a client called "a" and a node with the same table do not mirror |
| Inbound.ClassifiedExactly | src/gnserver/server/_datagram_enc.py:1322-1351 | which octets make a payload, an Initial and a system datagram that is handed on; the others are dropped |
| Inbound.ConstructedIsInitial | src/gnserver/server/_datagram_enc.py:1185-1208 | what a client constructs is an Initial to a receiver of the same protocol version and foreign to any other |
| Inbound.InboundPeer.Flush | src/gnserver/server/_datagram_enc.py:1367-1369 | the flush loop moves waiting datagrams in order until the queue is empty or a malformed Initial raises |
| Inbound.InboundPeer.HandleDatagram | src/gnserver/server/_datagram_enc.py:1410-1459 | what a datagram of each kind does to queue, readiness and processing in every branch |
| Inbound.InboundPeer.FinalizeKeyAndFlush | src/gnserver/server/_datagram_enc.py:963-976 | what the key fetch does, with the blocked state on refusal or a raised flush |
| Inbound.FlushMoves | src/gnserver/server/_datagram_enc.py:973-976 | the flush moves a prefix of the queue, all of it unless one of its Initials is malformed |
| Inbound.EventAccounted | src/gnserver/server/_datagram_enc.py:978-1010 | every event keeps the account of all datagrams, whatever they are |
| Inbound.ExactlyOnce | src/gnserver/server/_datagram_enc.py:943-1010 | for every interleaving of all kinds of datagrams, each arrival is in exactly one place: processed, waiting, in hand, in the shard queue or dropped |
| Inbound.EventKeepsExactly | src/gnserver/server/_datagram_enc.py:1322-1459 | an event keeps arrival order exactly when it hands nothing past a waiting datagram and flushes past no malformed Initial |
| Inbound.InOrderExactly | src/gnserver/server/_datagram_enc.py:943-1010 | a run stays in order throughout exactly when every one of its steps is of that kind |
| Inbound.InOrderExactlyOnce | src/gnserver/server/_datagram_enc.py:943-1010 | so for every interleaving of payloads, well-formed Initials and dropped datagrams, processing is in arrival order and at most once |
| InboundFates.NothingBeforeKey | src/gnserver/server/_datagram_enc.py:1440-1459 | for every interleaving, no payload and no Initial reaches decryption before the key is known |
| InboundFates.NotReadyHolds | src/gnserver/server/_datagram_enc.py:1454-1459 | a peer that is not ready keeps payloads and waiting Initials and hands on neither |
| InboundFates.RefusedNeverProcessed | src/gnserver/server/_datagram_enc.py:860-911 | an Initial that is refused never reaches decryption, whatever follows |
| InboundFates.NothingLost | src/gnserver/server/_datagram_enc.py:943-1010 | with room in the shard queue, no refusal and no shutdown, every datagram with a meaning stays in the line |
| InboundFates.AwaitingFetches | src/gnserver/server/_datagram_enc.py:891-896 | an Initial that waits for its key stands last in the queue with a fetch under way |
| InboundFates.FetchFlushes | src/gnserver/server/_datagram_enc.py:963-976 | a fetch that ends well leaves nothing waiting, all of it handed on in order |
| InboundFates.AnsweredFetchCompletes | src/gnserver/server/_datagram_enc.py:943-976 | a fetch that is answered can complete, step by step, and then nothing waits |
| InboundFates.FailedFetchBlocks | src/gnserver/server/_datagram_enc.py:954-971 | a fetch that fails blocks the peer and hands on nothing |
| InboundFates.LockExcludes | src/gnserver/server/_datagram_enc.py:948-953 | worker and fetch exclude each other, and a fetch finishes only after its answer |
| Inbound.InitializeKeepsOrderExactly | src/gnserver/server/_datagram_enc.py:1358-1369 | an Initial that installs the key keeps the order exactly when no Initial waiting before the last is malformed |
| Inbound.OtherSystemKeepsOrderExactly | src/gnserver/server/_datagram_enc.py:1329-1408 | a system datagram of another command keeps the order exactly when nothing waits |
| Inbound.OtherSystemBreaksOrder | src/gnserver/server/_datagram_enc.py:1440-1459 | a run in which such a datagram overtakes a waiting payload |
| Inbound.MalformedInitialBreaksOrder | src/gnserver/server/_datagram_enc.py:891-896 | a run in which a malformed waiting Initial makes a later datagram overtake |
| Load.PoppedIsWindow | src/gnserver/server/_datagram_enc.py:1049-1056 | with times that never decrease, as a monotonic clock gives, popping leaves exactly the events in the window |
| Load.PoppedIsWindowExactly | src/gnserver/server/_datagram_enc.py:1049-1056 | and for any times exactly when no event before the threshold stands behind one that is not |
| Load.ClockDecides | src/gnserver/server/_datagram_enc.py:1049-1056 | it does so for every threshold exactly when the times never decrease |
| Load.LoadWindow.Prune | src/gnserver/server/_datagram_enc.py:1043-1056 | each of the three deques keeps exactly its events in the window, waits with their times |
| Load.LoadWindow.RecordQueueWait | src/gnserver/server/_datagram_enc.py:1058-1063 | the wait is appended and the window pruned |
| Load.P95Exactly | src/gnserver/server/_datagram_enc.py:1066-1072 | the percentile is a sample with at least 95 percent of the samples at or below it, and the least such |
| Load.ScoreMonotone | src/gnserver/server/_app.py:481-503 | the score grows with each input, is 0 without load and 10000 at full load |
| Load.Score | src/gnserver/server/_app.py:499-503 | the score stays within 0 and 10000 |
| Load.ScoreWeighs | src/gnserver/server/_app.py:481-503 | fill, drops and wait weigh 4 : 3 : 2, and the score is the nearest integer to their share of 10000 |
| Load.ScoreSaturates | src/gnserver/server/_app.py:481-499 | inputs beyond their range count as its end |
| Certificate.NormalizeTwice | src/gnserver/_gn_pq_session.py:14-23 | normalizing an algorithm name is idempotent |
| Certificate.CaseIgnored | src/gnserver/_gn_pq_session.py:21-30 | names are compared without regard to case |
| Certificate.OldNames | src/gnserver/_gn_pq_session.py:14-30 | the names of the competition stand for those of the standard, every other lower-case name for itself |
| Certificate.NormalizeKeys | src/gnserver/_gn_pq_session.py:135-147 | the loop over public keys: normalized names, the first place kept, empty names or keys refused |
| Certificate.NormalizedCanonical | src/gnserver/_gn_pq_session.py:135-147 | its result has pairwise different normalized names and no empty key |
| Certificate.LastSpellingWins | src/gnserver/_gn_pq_session.py:135-147 | a normalized name has the key given last under any of its spellings |
| Certificate.MakesExactly | src/gnserver/_gn_pq_session.py:124-160 | which arguments the constructor accepts, and the fields it makes of them |
| Certificate.SpellingIrrelevant | src/gnserver/_gn_pq_session.py:156-160 | a key is found under any spelling of its algorithm |
| Certificate.MadeIsWellFormed | src/gnserver/_gn_pq_session.py:124-154 | the constructor's checks leave their own result unchanged |
| Certificate.ParsedIsWellFormed | src/gnserver/_gn_pq_session.py:185-234 | a received certificate is described by its own source dictionary, all keys as octets, so it can be sent on |
| Certificate.ValueRoundTrip | src/gnserver/_gn_pq_session.py:162-234 | a certificate whose source dictionary describes it with keys as octets, or that has none, is read back, source attached |
| Certificate.BytesRoundTrip | src/gnserver/_gn_pq_session.py:174-238 | the same over the wire, and what is signed and sent does not change |
| Certificate.SignatureCovers | src/gnserver/_gn_pq_session.py:174-176 | what the authority signs determines every field of the certificate but the signature |
| Certificate.SentCovers | src/gnserver/_gn_pq_session.py:178-183 | what is sent determines the signature too |
| Certificate.LoadsExactly | src/gnserver/_gn_pq_session.py:208-224 | the algorithms are read exactly when all are named dictionaries whose key is octets |
| Certificate.TextualKeysRefused | src/gnserver/_gn_pq_session.py:208-224 | a certificate with any other key is refused by every receiver |
| Configuration.ParsePublicKeys | src/gnserver/_gn_pq_quic.py:194-220 | the loop over the configured algorithms, with text decoded, padded and measured, and the entries it refuses |
| Configuration.FixedExactly | src/gnserver/_gn_pq_quic.py:158-191 | octets must have the length; text is decoded, or encoded, and filled up with zeros in front |
| Configuration.ReadsExactly | src/gnserver/_gn_pq_quic.py:203-220 | which entries are read, and the key they give |
| Configuration.ConfiguresExactly | src/gnserver/_gn_pq_quic.py:194-220 | the algorithms are accepted exactly when each entry can be read, and each mechanism has its last key |
| Configuration.ConfiguredReadableExactly | src/gnserver/_gn_pq_quic.py:256-298 | a configured certificate can be read by its receivers exactly when its dictionary gives every key as octets |
| Configuration.TextualKeyExample | src/gnserver/_gn_pq_quic.py:158-220 | a configuration with a textual key that is accepted, and whose certificate no receiver reads |
| CertificateNames.CertNameCoversDomain | src/gnserver/_gn_pq_handshake.py:53-72 | the loop decides whether some listed pattern covers the domain |
| CertificateNames.CoversItself | src/gnserver/_gn_pq_handshake.py:63-71 | a name covers itself exactly when it is one pattern without surrounding space |
| CertificateNames.ListedNameExample | src/gnserver/_gn_pq_handshake.py:63-71 | the name "a,b" does not cover itself |
| CertificateNames.ListCovers | src/gnserver/_gn_pq_handshake.py:53-72 | a list covers exactly what its parts cover |
| CertificateNames.SinglePatternCovers | src/gnserver/_gn_pq_handshake.py:60-71 | a literal covers itself alone; a wildcard covers itself and the literal domains the matcher gives it |
| CertificateNames.StripExactly | src/gnserver/_gn_pq_handshake.py:57-60 | space around a part is removed, and nothing else |
| Messages.BlobLayout | src/gnserver/_gn_pq_session.py:57-60 | two octets of length, high one first, and then the value |
| Messages.BlobInContext | src/gnserver/_gn_pq_session.py:63-74 | a blob anywhere in a message is read back with the offset behind it |
| Messages.AsTextExactly | src/gnserver/_gn_pq_session.py:77-83 | octets are read as a text exactly when they are its encoding |
| Messages.FixedLayouts | src/gnserver/_gn_pq_session.py:252-264 | where the fields of the messages of fixed size stand |
| Messages.ClientHelloRoundTrip | src/gnserver/_gn_pq_session.py:252-264 | data parses to a hello exactly when it is its encoding |
| Messages.CommitRoundTrip | src/gnserver/_gn_pq_session.py:360-371 | data parses to a commit exactly when it is its encoding |
| Messages.ClientFinishRoundTrip | src/gnserver/_gn_pq_session.py:338-346 | the finish is read back, and refused with anything behind it |
| Messages.FinishParsesOnly | src/gnserver/_gn_pq_session.py:334-346 | what parses as a finish is the blob of a ciphertext that is not empty |
| Messages.ServerHelloFromBytes | src/gnserver/_gn_pq_session.py:298-327 | the decoder with its moving offset computes the field-by-field reading |
| Messages.ServerHelloRoundTrip | src/gnserver/_gn_pq_session.py:286-327 | every encodable server hello with a certificate that can be read comes back with its fields; trailing octets are refused |
| Messages.HelloLayout | src/gnserver/_gn_pq_session.py:286-296 | where the fields of an encoded server hello stand |
| Messages.ParsedHelloShape | src/gnserver/_gn_pq_session.py:298-327 | whatever parses as a server hello has its blobs in place to the last octet and a certificate that can be read |
| Messages.UnreadableHello | src/gnserver/_gn_pq_session.py:298-327 | a server hello whose certificate cannot be read is refused |
| Messages.ReceivedEncodesAlike | src/gnserver/_gn_pq_session.py:286-296 | the received hello re-encodes to the same octets, signed and unsigned |
| Messages.BuildTranscriptHash | src/gnserver/_gn_pq_session.py:374-379 | the loop hashes the domain binding and the framed payloads, or fails on an oversized one |
| Messages.FrameInjective | src/gnserver/_gn_pq_session.py:377-378 | payload lists of any lengths frame alike only when they are equal |
| Messages.FrameConcat | src/gnserver/_gn_pq_session.py:377-378 | payloads are framed one after the other |
| Messages.TranscriptBinds | src/gnserver/_gn_pq_session.py:374-379 | transcripts hash alike exactly when domain and all payloads are equal |
| Messages.RootBinds | src/gnserver/_gn_pq_session.py:412-452 | a root determines domain, nonces, both secrets, transcript and the optional KDC key |
| Messages.CommitBindsRoot | src/gnserver/_gn_pq_session.py:474-486 | a commit verifies under its own root and no other |
| Messages.Derivations | src/gnserver/_gn_pq_session.py:374-486 | what binding, transcript, mix, root and commit are derived from, in which order and under which labels |
| Extensions.EncodeExtensionList | src/gnserver/_gn_pq_quic.py:423-428 | the loop encodes the list or refuses what does not fit |
| Extensions.ParseExtensionList | src/gnserver/_gn_pq_quic.py:431-438 | the loop terminates on all inputs and computes the list or an error |
| Extensions.FindExtension | src/gnserver/_gn_pq_quic.py:413-420 | the loop finds what the recursive search finds |
| Extensions.FindsFirst | src/gnserver/_gn_pq_quic.py:417-420 | that is the first extension of the kind, and none only where there is none |
| Extensions.ListRoundTrip | src/gnserver/_gn_pq_quic.py:423-438 | exactly the lists with 16-bit types and lengths are encoded, and each is parsed back |
| Extensions.ParsesOnlyEncodings | src/gnserver/_gn_pq_quic.py:431-438 | literal octets parse to a list exactly when they are its encoding |
| Extensions.AnonymousFlightRoundTrip | src/gnserver/_gn_pq_quic.py:1032-1035 | the server recovers the finish of an anonymous client |
| Extensions.CertifiedFlightRoundTrip | src/gnserver/_gn_pq_quic.py:1036-1052 | the server recovers certificate, finish, algorithm and signature of a certified client |
| Extensions.SignedListTravels | src/gnserver/_gn_pq_quic.py:655-664 | behind a client's certificate stand finish, algorithm and signature, in this order |
| Extensions.FlightTells | src/gnserver/_gn_pq_quic.py:1032-1052 | whatever entry is read, which parts of it make the flight, and that none may be missing |
| Handshake.BuildClient | src/gnserver/_gn_pq_handshake.py:397-408 | the hello has its fixed widths |
| Handshake.BuildClientSettings | src/gnserver/_gn_pq_quic.py:327-366 | a client has a domain exactly when it has a certificate |
| Handshake.SettingsExactly | src/gnserver/_gn_pq_quic.py:327-366 | settings are refused exactly for a certificate that does not cover the client domain beside it, and else as given |
| Handshake.AnswersOnly | src/gnserver/_gn_pq_quic.py:711-746 | what a server that answers has found in the hello: 64 octets, a domain that is text or none, and its own certificate covering its domain |
| Handshake.ServerMessageBinds | src/gnserver/_gn_pq_session.py:386-392 | what a server signs determines the domain and both hellos |
| Handshake.ClientMessageBinds | src/gnserver/_gn_pq_session.py:395-409 | what a client signs determines its name, both hellos, the finish and the certificate |
| Handshake.RolesSeparate | src/gnserver/_gn_pq_session.py:386-409 | nothing a server signs is what a client signs |
| Agreement.ClientExtensionsFound | src/gnserver/_gn_pq_quic.py:1207-1224 | the server finds the hello, and the domain exactly when a non-empty one is configured |
| Agreement.ServerHelloTravels | src/gnserver/_gn_pq_quic.py:504-516 | the client stores the server's hello as sent, from its certificate extensions |
| Agreement.HelloSignature | src/gnserver/_gn_pq_handshake.py:443-450 | the server's signature verifies exactly under its key, for the domain and the hellos it was made for |
| Agreement.AcceptsHelloExactly | src/gnserver/_gn_pq_handshake.py:468-555 | the client accepts a stored hello exactly when the certificate is valid for the expected domain, holds the server's key, and that domain is the server's |
| HandshakeRuns.StoresExactly | src/gnserver/_gn_pq_quic.py:504-516 | the client stores the hello of a configured server exactly when its certificate gave all keys as octets |
| HandshakeRuns.ClientCompletesExactly | src/gnserver/_gn_pq_handshake.py:468-555 | a configured server's client completes exactly when it can read and accepts the certificate and expects the signed domain |
| Agreement.RootsAgreeExactly | src/gnserver/_gn_pq_handshake.py:516-535 | two views give one root exactly when domain, all messages, both secrets and the KDC key agree, whatever the network did |
| Agreement.EndsAgree | src/gnserver/_gn_pq_handshake.py:558-602 | client and server share the transcript, and share the root and accept the commit exactly when the KDC keys agree |
| Agreement.AuthenticatesExactly | src/gnserver/_gn_pq_quic.py:1049-1087 | a signed flight is accepted exactly when the client's certificate is acceptable, and authenticates the name the client goes by |
| Authentication.ClientAcceptsOnlySigned | src/gnserver/_gn_pq_handshake.py:468-510 | whatever hello is delivered, a client that completes has seen a valid certificate for its domain and a signature of the holder of its key on its own hello and the one delivered |
| Authentication.HelloBoundToSession | src/gnserver/_gn_pq_handshake.py:485-510 | a hello with a signature made for some domain, client hello and fields is accepted only there |
| Authentication.HonestHelloUnaltered | src/gnserver/_gn_pq_handshake.py:468-555 | no octets with the signature of an honest server are accepted but those of its hello, by the client and for the domain it was made for |
| Authentication.ServerAcceptsOnlySigned | src/gnserver/_gn_pq_quic.py:1049-1087 | whatever flight is delivered, a server that authenticates a name has seen a valid certificate that covers it and a signature on this very session |
| Authentication.FlightBoundToSession | src/gnserver/_gn_pq_quic.py:1049-1087 | a signed flight is accepted exactly with the name, hellos, finish and certificate it was signed for, when the certificate is valid and holds the key |
| Authentication.ServerSignatureNoFlight | src/gnserver/_gn_pq_quic.py:1076-1087 | a server's signature is never taken for a client's |
| Authentication.SignedSessionAgrees | src/gnserver/_gn_pq_quic.py:441-1121 | whatever the network does, a server that accepts a flight with an honest client's signature shares with it one domain, one transcript, and one root exactly when the KDC keys are equal |
| HandshakeRuns.HandshakeAgreement | src/gnserver/_gn_pq_quic.py:1002-1121 | every completed run of configured ends, anonymous or certified: one domain, one transcript, one root and valid commit exactly with equal KDC keys, and the client's name |
| HandshakeRuns.ServerCompletesExactly | src/gnserver/_gn_pq_quic.py:1032-1109 | once the client has finished, the server fails exactly for a client certificate it cannot read or accept |
| HandshakeRuns.ClientFinishesExactly | src/gnserver/_gn_pq_quic.py:592-677 | the client finishes exactly when it can read and accepts the server's certificate, expects the signed domain and can sign with its own |
| HandshakeRuns.OfferedExactly | src/gnserver/_gn_pq_quic.py:698-943 | the flight of the server goes out exactly when it can speak for its domain and its hello fits one extension |
| HandshakeRuns.RunCompletesExactly | src/gnserver/_gn_pq_quic.py:441-1121 | a run of configured ends completes exactly when the hello fits, the client can read and accepts the certificate, expects the signed domain, and is anonymous or holds a readable and acceptable certificate |
| Witness.RunsComplete | src/gnserver/_gn_pq_quic.py:441-1121 | a world, an identity and settings, anonymous and certified, whose runs complete for all KDC keys and all randomness |
| Witness.CodecIsLawful | src/gnserver/_gn_pq_session.py:174-183 | a serializer that can be undone, as the results about the wire demand |
| SessionRoot.ApplySessionRoot | src/gnserver/server/_datagram_enc.py:453-534 | the encryptor after each way to skip or to install the root, and when the send key is scheduled |
| SessionRoot.AppliesExactly | src/gnserver/server/_datagram_enc.py:453-534 | when the root is installed, what that leaves, and that only a server schedules its send key |
| SessionRoot.InstalledKeyLabelled | src/gnserver/server/_datagram_enc.py:487-519 | whose names label the key an end will send under, for logical and ordinary key ids and either role |
| SessionRoot.AppliedOnce | src/gnserver/server/_datagram_enc.py:483-485 | a root that is in place is not installed again |
| SessionRoot.InitializedAnew | src/gnserver/server/_datagram_enc.py:206-313 | after a new initialization any established root is installed, even one that was in place before |
| SessionRoot.BootstrapKeyMixedIn | src/gnserver/_gn_pq_quic.py:752-764 | the KDC key mixed into the root is the one the bootstrap keys were derived from |
| SessionRoot.LogicalKeysMirror | src/gnserver/server/_datagram_enc.py:487-517 | type 2 and node ids: after a completed run the keys mirror exactly when the KDC keys agree and the server goes by its certificate's name |
| SessionRoot.Type2KeysMirror | src/gnserver/_gn_pq_quic.py:593-608 | in type 2 the signature forces the certificate's name to be the server's domain, so only the server's own name is left to match |
| SessionRoot.OrdinaryKeysMirror | src/gnserver/server/_datagram_enc.py:518-519 | ordinary ids: the keys mirror exactly when the KDC keys agree and the client's peer is the server's own name |
| Templates.CompilePath | src/gnserver/server/_routes.py:51-85 | the scanner loop computes the token list, or fails on an unclosed brace |
| Templates.UnscanScanned | src/gnserver/server/_routes.py:63-83 | the scanner loses nothing: the tokens spell the expression out again |
| Templates.LiteralPrefix | src/gnserver/server/_routes.py:63-83 | a literal prefix of an expression is a prefix of everything it matches, and the rest is matched by the rest |
| Templates.StaticMatchesItself | src/gnserver/server/_app.py:173-174 | an expression without braces matches itself only |
| Templates.ParameterMatches | src/gnserver/server/_routes.py:66-85 | a parameter accepts what its converter accepts, an unknown converter a string, and its name makes no difference |
| Templates.SecondParameter | src/gnserver/server/_routes.py:63-83 | of two parameters in a row the second stands at the start exactly when the first takes nothing |
| Templates.ConverterExactly | src/gnserver/server/_routes.py:66-74 | the converter stands behind the first colon |
| Templates.WholePathExpressions | src/gnserver/server/_routes.py:52-56 | "*" matches every text without a line break, "!" an expression of its own |
| Paths.PathCandidates | src/gnserver/server/_app.py:193-204 | the path first, then its variant: the candidates are distinct and differ from the path in trailing slashes only |
| Paths.TrailingSlashIrrelevant | src/gnserver/server/_app.py:193-204 | a path has the same candidates with a slash behind it |
| Paths.VariantExactly | src/gnserver/server/_app.py:193-204 | which path the second candidate is |
| Paths.FirstSegmentOf | src/gnserver/server/_app.py:207-211 | the first segment of a path, after any slashes |
| Paths.PruningIsSound | src/gnserver/server/_app.py:177-190 | whatever a template with a literal first segment matches has that first segment |
| Paths.LiteralSegmentFound | src/gnserver/server/_app.py:177-190 | every template with a literal first segment goes into the bucket of that segment |
| Paths.NoSegment | src/gnserver/server/_app.py:207-211 | a path of slashes only has no first segment |
| RouteIndex.BucketsMissNothing | src/gnserver/server/_app.py:255-278 | an expression matches a candidate exactly when its bucket is visited and the cheaper path test passes |
| RouteIndex.ScopesExactly | src/gnserver/server/_app.py:213-216 | a route is asked for exactly when it belongs to the scope of the request or to every scope |
| RouteIndex.LookupLeavesOut | src/gnserver/server/_app.py:255-278 | a lookup leaves out static routes of other paths and routes with another literal first segment |
| RouteIndex.SortedByOrder | src/gnserver/server/_app.py:278-278 | the gathered routes in registration order, each once |
| RouteIndex.App.RegisterRoute | src/gnserver/server/_app.py:405-429 | the route is appended and indexed, or nothing is stored |
| RouteIndex.App.IndexRoute | src/gnserver/server/_app.py:226-253 | order, static mark and exactly one bucket grow |
| RouteIndex.App.CollectCandidateRoutes | src/gnserver/server/_app.py:255-278 | exactly the routes of the visited buckets, in registration order, without repetition |
| RouteIndex.App.IndexRefinesScan | src/gnserver/server/_app.py:561-577 | lookup and path test leave exactly the routes a plain scan leaves, in the same order |
| Dispatch.IndexKeepsFirst | src/gnserver/server/_app.py:558-577 | bucket lookup changes neither the first answering route nor whether the path is known |
| Dispatch.DispatchOnce | src/gnserver/server/_app.py:551-719 | for any handlers, one pass over the candidate routes gives the reply or the next request of a plain scan, of which Dispatch.HopTells says what it is |
| Dispatch.DispatchRequest | src/gnserver/server/_app.py:551-719 | with returned objects whose lists hold what the list of the request held, the recursion terminates and gives the reply of a plain scan |
| Dispatch.EarliestAnswers | src/gnserver/server/_app.py:672-715 | a hop ends as the earliest registered eligible route with a result says, for any handlers |
| Dispatch.NoAnswerErrors | src/gnserver/server/_app.py:717-719 | without an answer: method not allowed exactly when some route not gone through knows the path, else path not found |
| Dispatch.HopTells | src/gnserver/server/_app.py:558-719 | the route a hop ends at is registered, in scope, not gone through, knows the path and takes the request's verb, and the reply or the next request is what its handler made of this one; the two errors likewise |
| Dispatch.OtherVerbsOnly | src/gnserver/server/_app.py:579-581 | when every route that knows the path is for another verb, the method is not allowed |
| Dispatch.TrailNeverRepeats | src/gnserver/server/_app.py:696-702 | with such lists no route passes a request on twice, and hops are bounded by the routes not yet gone through |
| Dispatch.TrailIsTheRun | src/gnserver/server/_app.py:694-702 | the trail has one route for every hop that passes the request on, and the hop behind it makes the reply |
| Dispatch.EndsWithin | src/gnserver/server/_app.py:694-702 | so that many hops always suffice |
| Dispatch.NeverEnds | src/gnserver/server/_app.py:694-702 | with other lists they need not: two stored objects, returned in turn, are passed on in every hop |
| SessionCache.InactiveSessions.Remember | src/gnserver/_kdc_object.py:377-410 | the list after storing, displacing and evicting; the index stays inverse to it |
| SessionCache.InactiveSessions.LookUpByDomain | src/gnserver/_kdc_object.py:412-418 | finds what a search of the list finds and moves it to the end |
| SessionCache.InactiveSessions.LookUpByKeyId | src/gnserver/_kdc_object.py:420-431 | the same by key id; the repair of a dangling index entry is unreachable |
| SessionCache.InactiveSessions.DeleteByDomain | src/gnserver/_kdc_object.py:433-438 | the session and its index entry go |
| SessionCache.InactiveSessions.DeleteByKeyId | src/gnserver/_kdc_object.py:440-442 | the same by key id |
| SessionCache.InactiveSessions.ClearAll | src/gnserver/_kdc_object.py:444-446 | nothing is left in either map |
| SessionCache.StepKeepsDistinct | src/gnserver/_kdc_object.py:377-446 | no operation leaves two sessions with one domain or one key id |
| SessionCache.RecencyOrder | src/gnserver/_kdc_object.py:403-431 | after every history the list is in the order of last touches, read off the history alone |
| SessionCache.EvictsLeastRecent | src/gnserver/_kdc_object.py:406-410 | storing keeps the new session and the limit, and evicts only what was touched longer ago than all that stays |
| SessionCache.StoresExactly | src/gnserver/_kdc_object.py:377-390 | which sessions are stored, and that other calls change nothing |
| SessionCache.KeepsTheOthers | src/gnserver/_kdc_object.py:391-410 | with room to spare only sessions with the same domain or key id give way |
| Streams.Reassembly.FeedStream | src/gnserver/server/_app.py:744-784 | what a chunk does to its stream, for every parser verdict, and to no other stream; Streams.PayloadExactly says what that comes to |
| Streams.Reassembly.OnReset | src/gnserver/server/_app.py:838-844 | a reset finishes the message as incomplete and leaves nothing |
| Streams.Reassembly.Receive | src/gnserver/server/_app.py:826-844 | interleaved events of many streams leave each stream as its own events do |
| Streams.ChunkingIrrelevant | src/gnserver/server/_app.py:744-784 | any split of a stream leaves what its bytes determine, whether a header comes, is missing or makes the parser raise |
| Streams.AnySplitAnyInterleaving | src/gnserver/server/_app.py:744-784 | two runs that carry the same bytes for an ended stream end alike, and leave no entry for it exactly when the parser does not raise |
| Streams.ReportedOnce | src/gnserver/server/_app.py:751-776 | the request is reported once, with the first chunk that completes a header |
| Streams.PayloadExactly | src/gnserver/server/_app.py:751-776 | the one message of a stream has its header, and as payload exactly the bytes behind it, live, finished and reset |
| Streams.NoMessageWithoutHeader | src/gnserver/server/_app.py:751-762 | a stream without a header has no message, and what is kept of it |
| Streams.PastStays | src/gnserver/server/_app.py:751-784 | finished messages stay as they are |
| Streams.ResetOutcome | src/gnserver/server/_app.py:838-844 | a stream reset after a header leaves one message finished as incomplete, before it nothing |
| ClientStreams.ClientCore.FeedIncomingResponse | src/gnserver/client/_client.py:731-777 | the response is fed, and the request leaves the table in flight exactly when its message ends |
| ClientStreams.ClientCore.OnChunk | src/gnserver/client/_client.py:791-829 | request or response path, resolved or failed future, and no other stream touched |
| ClientStreams.ClientCore.OnEvent | src/gnserver/client/_client.py:791-846 | chunks, resets and time-outs, with muted streams and the limit at which muting is forgotten |
| ClientStreams.ClientCore.Run | src/gnserver/client/_client.py:779-846 | interleaved events leave a stream as its own events do, if it never times out or the muted streams stay within the limit |
| ClientStreams.ResponseFromBytes | src/gnserver/client/_client.py:731-829 | where the parser never raises, the future's result, the payload and what is left are determined by the response's bytes, not by the chunks |
| ClientStreams.ResponsePayload | src/gnserver/client/_client.py:700-777 | the response has its header, as payload exactly the bytes behind it, and the future is resolved with the header |
| ClientStreams.ResetReleases | src/gnserver/client/_client.py:830-846 | a reset fails a pending future, keeps a resolved one, and finishes the response as incomplete |
| ClientStreams.TimeOutReleases | src/gnserver/client/_client.py:791-800 | a time-out releases the future as it stands and ignores the stream until its end |
| ClientStreams.MutedExactly | src/gnserver/client/_client.py:791-846 | which streams are ignored after an event, with the limit at which all are forgotten |
| ClientStreams.SettledStays | src/gnserver/client/_client.py:731-777 | a settled future is never settled again |
| ClientStreams.ResponseRaises | src/gnserver/client/_client.py:731-829 | where it raises, the future fails once and the chunks behind go to the request path |
| ClientStreams.EndsInsideHeader | src/gnserver/client/_client.py:731-777 | one octet of a two-octet header, and the end: the future stays pending |
| Checkers.TypedSerializable | src/gnserver/server/_func_params_validation.py:16-38 | a value of any type is serializable, so the gate before an element changes no verdict |
| Checkers.SerializableExactly | src/gnserver/server/_func_params_validation.py:16-38 | a value can be serialized exactly when nothing within it, however deep, is a foreign object or a dictionary with another key than a string, bytes or an integer |
| Checkers.FirstErrorExactly | src/gnserver/server/_func_params_validation.py:87-99 | the element loop finds no error exactly when every element has the type |
| Checkers.FirstErrorNames | src/gnserver/server/_func_params_validation.py:87-99 | the complaint names the place of the first element that is not of the type |
| Checkers.JoinedLinesComeApart | src/gnserver/server/_func_params_validation.py:144-165 | joined complaints come apart again, line by line |
| Checkers.RefusalsName | src/gnserver/server/_func_params_validation.py:48-85 | a refusal by a simple type names that type and the value |
| Checkers.OtherRefusalsName | src/gnserver/server/_func_params_validation.py:48-85 | the same of the remaining simple types and of an untyped parameter |
| Checkers.ContainersName | src/gnserver/server/_func_params_validation.py:87-141 | a refusal by a container type names that type and the value |
| Checkers.EntryComplaints | src/gnserver/server/_func_params_validation.py:144-165 | the complaints about an entry, in order |
| Checkers.LinesAtBreak | src/gnserver/server/_func_params_validation.py:160-165 | every line break ends a line, and the rest is cut in the same way |
| Checkers.DigitsRead | src/gnserver/server/_func_params_validation.py:87-99 | the digits of a place read back as its number |
| Checkers.CollectDictErrors | src/gnserver/server/_func_params_validation.py:144-165 | the loop gathers all complaints of all entries in order |
| Checkers.EntryExactly | src/gnserver/server/_func_params_validation.py:146-162 | an entry is complained about exactly when key or value is not of its type |
| Checkers.CompilerCorrect | src/gnserver/server/_func_params_validation.py:41-168 | for every annotation and value the compiled checker returns None exactly when the value has the type, and never an empty text |
| Validation.BuildSchema | src/gnserver/server/_func_params_validation.py:221-246 | the loop over a signature's parameters, with the failing body unions |
| Validation.GatheredDescribes | src/gnserver/server/_func_params_validation.py:227-242 | fields, names and **kwargs are exactly those of the signature |
| Validation.BodyModelExactly | src/gnserver/server/_func_params_validation.py:200-219 | which annotations make a field, which a body, and which are refused |
| Validation.SchemaExists | src/gnserver/server/_func_params_validation.py:221-246 | a signature has a schema exactly when no parameter mixes a body model with another type and at most one is a body |
| Validation.ValidateParams | src/gnserver/server/_func_params_validation.py:274-306 | all complaints joined, or None without any; Validation.ValidatesExactly says when there are none |
| Validation.ValidatesExactly | src/gnserver/server/_func_params_validation.py:274-306 | None exactly when nothing is extra without **kwargs, every supplied field has its type and every other has a default |
| Validation.LookupExactly | src/gnserver/server/_func_params_validation.py:290-296 | in a dictionary, the value under a name is the one entered with it |
| Validation.ValidatesDictionary | src/gnserver/server/_func_params_validation.py:274-306 | the same by membership in the dictionary of arguments |
| Validation.ComplaintsName | src/gnserver/server/_func_params_validation.py:274-306 | every extra name, every missing one and every ill-typed value has its complaint, which names it |

## Left out

- liboqs, AES-OCB, HKDF, SHA-3 and X25519 themselves: symbolic, with no computational claim. An octet of a
  primitive's output counts as zero where a length field is read from it, and as no text.
- aioquic and TLS: only the handshake fields and the order of messages are kept. The buffer helper that writes an
  extension is taken to refuse a type or a length beyond 16 bits; aioquic is not part of this model.
- The serializer: any pair of functions of which loading undoes dumping and dumping writes something.
- Configuration: the decoder of textual values is any function, and a mechanism has public keys of at least one octet.
- Algorithm names: case folding is that of ASCII letters, and liboqs is taken to offer ML-KEM-1024.
- Strings hold Unicode scalar values; Python's lone surrogates have no counterpart.
- Regular expressions of parameters: any table of languages; the results hold for every one. Custom expressions that
  close their group early, and names `re` refuses, are not covered.
- Requests, responses and futures are values here. Of aliasing between request objects, only the proxy list that a
  returned object already carries is captured; a handler's outcome is a function of its route and the request.
- Parameter conversion, cross-origin rules and body decoding inside dispatch: part of a handler's outcome.
- Rekey: the run starts from bootstrap keys and has no further Initial and no late key fetch; both reinstall bootstrap
  keys (`_datagram_enc.py:964`, `_datagram_enc.py:1375-1383`).
- Inbound pipeline: one server peer of an encrypted type with one key id, per-peer locks; the outgoing path's use of
  the same waiting queue and the global lock are not covered.
- Inbound.InOrderExactlyOnce: assumes arrivals that can do no harm in any interleaving, because otherwise it is false;
  Inbound.InOrderExactly has the exact condition on a run.
- ClientStreams.ClientCore.Run: for a stream that times out, only while the muted streams stay within the limit, because
  forgetting them couples streams.
- Streams: header parsers whose result does not change when octets follow the header.
- Dispatch.DispatchRequest: assumes lists that carry on, because otherwise the recursion need not end (Dispatch.NeverEnds);
  Dispatch.DispatchOnce has each hop for any handlers.
- Checkers: message texts are in English and name fewer alternatives; which values print how is a parameter.
- Load: exact numbers in place of floats, so rounding of 0.95 * n and of the weights is not captured.
- Key requests, sockets, DNS, timers, logging, configuration, connect and disconnect, deletion from the key tables.
