# SmallX, verified

A Dafny model of SmallX, a native Shadowsocks server with a small control plane, and proofs about it.

- **The stream codec** (`Nonce`, `Aead`, `Wire`, `Reading`, `StreamWriter`, `StreamReader`, `Handshake`,
  `Pipe`).  A chunking AEAD writer, a reader with a carry-over buffer, and a hand-off in the middle of a
  stream.  The classes work in place over arrays and are proved against functions on byte sequences; round
  trips, truncation, lockstep and interleaving are proved about the functions.
- **The relay** (`Relay`, `Connection`).  The copy loop and its accounting in both directions, and the
  upstream path from the first byte of a connection to the remote.
- **Addresses and datagrams** (`Text`, `Socks`, `Addresses`, `Datagram`).  The SOCKS address codec down to
  decimal digits and brackets, and one UDP datagram through PassX header, decryption and address.
- **Admission and sessions** (`Limits`, `Limiter`, `Sessions`, `UdpTable`).  Lease counts, rate limiters,
  and an interleaved run of TCP handlers, UDP sessions, their exits and listener restarts.
- **Accounting and presence** (`Traffic`, `Online`).  Byte counters until the panel has them, and the
  address tracker against the full log of sightings.
- **Control** (`Control`, `Listeners`, `MasterKey`).  ETag fetching against plain fetching, Apply with and
  without a restart, and key derivation.

## What holds only under a condition

- *Session table.*  A session's exit deletes its table entry by key.  After a restart an old session can
  delete the entry of a new one, which then runs on unseen: `Sessions.StaleRemoveLosesSession` is such a
  run, and `Sessions.TrackedIff` says exactly which steps do it.
- *ETag cache.*  A tag is stored before its content is decoded and applied, so an interruption in between
  loses the change: `Control.AgreementLostIff` and `Control.ChangeNeverApplied`.  `Control.RestoredIff` says
  which ticks bring it back.
- *PassX.*  A direct client behind a trusted transport is misread when its random salt begins with "PX":
  `Datagram.DirectArrivesIff`.
- *Upstream credit.*  A failed write of the first payload credits nothing even if part was accepted:
  `Relay.RelayUpstream`.
- *SOCKS targets.*  A target survives the round trip exactly when it is canonical: `Socks.RoundTripIff`.

## Assumptions

Library code appears as function values with stated laws, never as axioms.  A cipher suite opens what it
sealed and changes lengths by its overhead (`Aead.Suite.Lawful`); that no other listed key opens a given
frame is a hypothesis about that frame.  MD5 is any function with 16-byte results.  netip's IPv6 text and
`strings.TrimSpace` obey `Socks.Lib.Lawful`.  Sources end with any error and deliver in any portions;
destinations fail at any time after accepting any part.  Time is a parameter that does not go back.  Random
salts are parameters.  Leases are keyed by address rather than by its text, which the address determines.

`Hypotheses` shows with a toy suite and a toy library that the hypotheses of the datagram and connection
theorems can all be met together, for any users and data (`DatagramsExist`, `ClientsExist`).

## Model

| member | source | states |
|---|---|---|
| Nonce.IncrementNonce | internal/ss/stream.go:219-226 | the loop in place: the counter becomes its little-endian successor, stopping at the first byte that does not wrap |
| Nonce.IncrementAddsOne | internal/ss/stream.go:219-226 | the successor is the value plus one modulo 256^length |
| Nonce.IncrementIsNext | internal/ss/stream.go:95-97 | one increment takes the nonce of operation i to that of operation i + 1 |
| Nonce.NoncesDistinct | internal/ss/stream.go:219-226 | below 256^length, two operations have the same nonce exactly when they are the same operation |
| Nonce.NoncePeriod | internal/ss/stream.go:219-226 | and the bound is exact: the counter repeats after 256^length operations |
| Wire.ChunksFlatten | internal/ss/stream.go:87-92 | the pieces Write cuts its argument into are the argument |
| Wire.ChunksAreFull | internal/ss/stream.go:87-92 | all but the last piece are full |
| Wire.DecodeWire | internal/ss/stream.go:94-101 | decoding undoes encoding, for any chunks and whatever follows on the wire |
| Wire.ChunkFits | internal/ss/stream.go:143-154 | a decoded chunk is at most 0x3FFF bytes, so it fits the reader's buffer, and consumes exactly its frame |
| Wire.ChunkIsAuthentic | internal/ss/stream.go:128-155 | a chunk comes only from two frames that open, its size under nonce i and its payload under nonce i + 1 |
| Wire.AlteredChunkFails | internal/ss/stream.go:134-151 | a whole frame whose size or payload does not open is an authentication error |
| Wire.TruncatedWire | internal/ss/stream.go:128-155 | any prefix of a valid frame sequence decodes to exactly its complete chunks; a plain EOF if and only if the cut is at a frame edge |
| Reading.ReadKeeps | internal/ss/stream.go:60-78 | one Read with any buffer size, 0 included, moves a prefix of what remains to the caller and loses nothing; it fails only when nothing remains |
| Reading.ReadProgress | internal/ss/stream.go:60-78 | a successful Read into a non-empty buffer makes progress |
| Reading.ReadIsAuthentic | internal/ss/stream.go:60-78 | a Read that decodes delivers the beginning of a chunk whose frames opened; if one is whole and does not open, it fails, not with EOF, and delivers nothing |
| Reading.InitFails | internal/ss/stream.go:112-126 | a salt cut short or a master key of the wrong size is an error, and nothing is delivered |
| Reading.ReadManyKeeps | internal/ss/stream.go:60-78 | the same over any run of Reads; a failed run has delivered everything |
| Reading.RoundTrip | internal/ss/stream.go:60-110 | for any writes and any buffer sizes the reader delivers a prefix of what was written, all of it by the time it reports an error, and gets there |
| Reading.TruncatedStream | internal/ss/stream.go:112-155 | a cut stream delivers the plaintext of its complete chunks and ends with io.EOF exactly at the start, after the salt, or at a frame edge |
| Reading.AlteredStream | internal/ss/stream.go:128-155 | a stream altered on the way delivers what was written before the altered frame, nothing after, and then an error that is not EOF |
| Pipe.DeliveredIsPrefix | internal/ss/stream.go:60-110 | in every interleaving of Write, delivery in arbitrary portions and Read: no failure, delivered is a prefix of written, the counters stay in lockstep, and nothing is lost once nothing is on the way |
| Pipe.EverythingIsDelivered | internal/ss/stream.go:60-110 | after any interleaving, once what is on the way has arrived, enough Reads into non-empty buffers deliver everything written |
| Pipe.WhatMoves | internal/ss/stream.go:80-110 | what each Write puts on the way and each delivery takes off it |
| Handshake.HandOffAgrees | internal/ss/stream.go:178-217 | for any bytes: first payload plus an established reader on the rest equals one client reader on the whole, errors included |
| Handshake.IdentifyPicksFirstOpener | internal/ss/stream.go:189-201 | the user returned is the first listed one whose key opens the size frame |
| Handshake.IdentifiedIsAuthentic | internal/ss/stream.go:189-217 | the key of the user named opens the size under nonce 0 and the handed-on payload under nonce 1 |
| Handshake.IdentifyFails | internal/ss/stream.go:178-217 | what stops an identification: a source that ends early, no key that opens the size, or the payload frame |
| Handshake.FirstPayloadOutcome | internal/ss/stream.go:203-217 | a whole payload frame is handed on if it opens and refused if not |
| Handshake.TcpEndToEnd | internal/ss/stream.go:178-217 | for any client writes and server buffer sizes the first listed user with the writer's key is named and exactly what was written comes out, given that no other listed key opens the size frame |
| StreamWriting.StreamWriter.EnsureReady | internal/ss/stream.go:157-176 | the salt is written once and the key comes from it; a failed attempt leaves the writer not ready and the destination with part of the salt at most; it fails only for want of a salt or a key, or if the destination does |
| StreamWriting.StreamWriter.WriteFrame | internal/ss/stream.go:94-104 | one frame under the next two nonces, which are used up even if the destination fails |
| StreamWriting.StreamWriter.WriteFrames | internal/ss/stream.go:85-109 | the chunk loop: a partial count covers exactly the frames accepted whole |
| StreamWriting.StreamWriter.Write | internal/ss/stream.go:80-110 | the same with the salt; while nothing fails the destination holds the salt and the frames of all writes in order, and after the first failure part of one more frame or of the salt besides |
| StreamWriting.TornReads | internal/ss/stream.go:94-110 | what a failed write leaves reads back as exactly what was reported written, with the next chunk just when its whole frame is there |
| StreamWriting.ChunksOfPart | internal/ss/stream.go:85-109 | what a failed write reports is whole chunks, the ones it would be cut into on its own |
| StreamWriting.SealsDistinct | internal/ss/stream.go:94-97 | no two seals of a session share a nonce within 256^length seals, failed writes included |
| StreamReading.StreamReader.Client | internal/ss/stream.go:32-40 | a reader that has yet to take its salt |
| StreamReading.StreamReader.Established | internal/ss/stream.go:42-50 | a reader that carries on a session after a given number of opens |
| StreamReading.StreamReader.InitFromSalt | internal/ss/stream.go:112-126 | the session key from the salt, or the reader unchanged but for the bytes consumed |
| StreamReading.StreamReader.ReadChunk | internal/ss/stream.go:128-155 | decodes the next chunk into the buffer exactly as the decoding function says, counters included |
| StreamReading.StreamReader.KeepLeftover | internal/ss/stream.go:74-76 | the append that keeps the rest of a chunk, in place or in a new array, never in the chunk buffer |
| StreamReading.StreamReader.Read | internal/ss/stream.go:60-78 | data, error and new state are those of the pure Read about which the properties are proved |
| StreamReading.IdentifyTCPUser | internal/ss/stream.go:178-217 | the loop over the users computes the pure identification and hands on the nonce it reached |
| Relay.CopyCount | internal/ss/service.go:650-682 | total, sum of onCount calls and bytes accepted agree; accepted is a prefix of the source, the whole of it up to EOF when nil is returned; of a stream it is what the destination holds in whole frames, and a failed write adds no more than the next frame |
| Relay.RelayUpstream | internal/ss/service.go:337-357 | upstream credit equals what the remote accepted if and only if the first payload's write succeeds or nothing of it was accepted; when it fails the remote has part of that payload and no more |
| Relay.RelayDownstream | internal/ss/service.go:347-362 | whatever fails, the client's reader gets a prefix of what the remote sent: all of it without a failure, else the credited bytes and one chunk more just when the failed write left its whole frame |
| Relay.IntactReads | internal/ss/stream.go:80-110 | the destination of a writer on which nothing failed reads back as its plaintext |
| Connection.ServeUpstream | internal/ss/service.go:295-357 | identification, address and relay composed: for any client bytes, what the remote receives and what is credited, failed writes included |
| Connection.ClientIsHeard | internal/ss/service.go:296-302 | a client that writes an address and data is served as the right user, to the right target, with exactly its data |
| MasterKey.DeriveMasterKey | internal/ss/cipher.go:65-76 | the loop returns exactly KeySize bytes of the chain D_i = MD5(D_(i-1) ++ password) |
| MasterKey.SmallerKeyIsPrefix | internal/ss/cipher.go:65-76 | a smaller key of the same password is a prefix of a larger one |
| MasterKey.SupportedKeys | internal/ss/cipher.go:65-76 | the 16, 24 and 32-byte keys outright: MD5 of the password, then MD5 of that followed by the password |
| Aead.Suite.SaltSizes | internal/ss/cipher.go:50-55 | salts of 16, 24 and 32 bytes for the supported key sizes |
| Text.ParseOfFormat | internal/ss/socksaddr.go:68 | printed octets parse back, for any number of octets |
| Text.FormatOfParse | internal/ss/socksaddr.go:68 | only the printed form parses |
| Text.SplitOfJoin | internal/ss/socksaddr.go:53 | splitting undoes joining of host and port |
| Text.JoinIsSplitIff | internal/ss/socksaddr.go:53 | joining undoes splitting exactly when brackets stand where a colon needs them |
| Text.JoinOfSplit | internal/ss/socksaddr.go:53 | only a host and a port, in brackets or without a colon, split at all |
| Text.AtoiOfDigits | internal/ss/socksaddr.go:57-60 | a port may have a sign, and otherwise digits only |
| Socks.ReadBack | internal/ss/socksaddr.go:17-96 | whatever EncodeAddr accepts is read back as the host's text and the port's number, consuming exactly the header of at most 259 bytes |
| Socks.RoundTripIff | internal/ss/socksaddr.go:17-96 | the target comes back unchanged if and only if it was canonical |
| Socks.CommonTargetsAreCanonical | internal/ss/socksaddr.go:52-96 | dotted quads, printed IPv6 addresses that are not v4-mapped and plain host names, with plain ports, are accepted and canonical |
| Socks.SplitIsStable | internal/ss/socksaddr.go:17-50 | a successful parse depends on its header only: bytes appended or cut after it change nothing |
| Socks.SplitsIff | internal/ss/socksaddr.go:17-50 | which payloads parse, how long their header is, and which error the others give |
| Socks.PrefixFree | internal/ss/socksaddr.go:52-96 | no encoded address begins another |
| Socks.EncodedForms | internal/ss/socksaddr.go:66-95 | the encoding byte for byte: type, address or length and name, port high byte first |
| Socks.EncodeInto | internal/ss/socksaddr.go:52-96 | the buffer that is filled by copying at offsets holds the encoding, or the same error is returned |
| Datagram.ResolveOfBuild | internal/ss/resolver.go:101-141 | a PassX header behind a trusted transport gives back its address and its own length; an unspecified address is refused |
| Datagram.TakenAsItIsIff | internal/ss/resolver.go:106-114 | a packet is taken whole, as from its transport, if and only if the transport is untrusted or it does not begin with PX; another real address comes only from the header |
| Datagram.ResolvesIff | internal/ss/resolver.go:101-152 | behind a trusted transport a packet that begins with PX is resolved exactly if it begins with a whole header of a specified address, and to that address and length |
| Datagram.DecryptFrom | internal/ss/service.go:609-617 | the first listed user whose key opens the packet, or none because none does |
| Datagram.DecryptUDPPacket | internal/ss/service.go:609-617 | the loop computes that |
| Datagram.DecryptOfEncrypt | internal/ss/service.go:619-648 | a packet opens for its own user to what was sealed |
| Datagram.DecryptIsAuthentic | internal/ss/service.go:619-633 | a packet is a user's only if the session key of that user and its salt opens it |
| Datagram.DeliveredIsAuthentic | internal/ss/service.go:398-425 | whatever is delivered was sealed: the first listed key that opens the packet opens it to that address and payload |
| Datagram.TunnelledArrives | internal/ss/service.go:398-425 | through a trusted tunnel the real address, user, target and payload all arrive |
| Datagram.DirectArrivesIff | internal/ss/resolver.go:106-114 | a direct datagram arrives when its transport is untrusted or its salt does not begin with PX; otherwise it is refused or loses 9 or 21 bytes |
| Datagram.ReplyOpens | internal/ss/service.go:518-526 | a reply opens to the sender's address and the data |
| Datagram.PayloadIsShorter | internal/ss/service.go:374-404 | no forwarded payload is as long as its datagram, so none exceeds 64 KiB |
| Addresses.RealIPIs | internal/ss/resolver.go:17-25 | a client counts by its real address, and by its transport address only if it has no other |
| Limits.AcquireTallies | internal/ss/limits.go:35-70 | an admission keeps every count equal to the number of outstanding leases |
| Limits.ReleaseTallies | internal/ss/limits.go:72-97 | so does the release of an outstanding lease, and no defensive guard fires |
| Limits.NoLeasesNoCounts | internal/ss/limits.go:76-96 | with no lease outstanding both maps are empty |
| Limits.RefsAreDevices | internal/ss/limits.go:44-52 | a user's address map is exactly the set of addresses it holds leases for |
| Limits.RefusedIff | internal/ss/limits.go:39-51 | each refusal happens if and only if its limit is reached by the outstanding leases; admitted addresses are never refused for the device limit |
| Limits.AdmittedWithinLimits | internal/ss/limits.go:35-70 | an admission leaves its own limits respected, whatever was in force before |
| Limiter.SessionLimiter.Acquire | internal/ss/limits.go:35-70 | in place: the new counts and a release closure, or an error and nothing changed |
| Limiter.SessionLimiter.Release | internal/ss/limits.go:72-97 | in place: the counts without the lease |
| Limiter.ReleaseFunc.Call | internal/ss/limits.go:64-69 | the closure releases once; later calls change nothing |
| Limiter.SpeedIsExactIff | internal/ss/limits.go:168-173 | megabits to bytes is exact if and only if the 64-bit product does not overflow |
| Limiter.NoLimitIsZero | internal/ss/limits.go:169-171 | a limit of zero or less is none |
| Limiter.LastSpeedUnique | internal/ss/limits.go:133-139 | with distinct identifiers a user's speed is that of its one entry |
| Limiter.SessionLimiter.SyncUsers | internal/ss/limits.go:128-160 | exactly the users whose last entry is limited have a limiter, set to that speed, and one that stays is the same object |
| Limiter.ServedUsers | internal/ss/limits.go:128-160 | outright, with distinct identifiers: no limiter for a user without a limit or an entry, otherwise one at limit * 125000 with a burst of the larger of that and 65536 |
| Limiter.NeverRefused | internal/ss/service.go:684-689 | every limiter ever installed admits 65536 bytes, so WaitN never refuses by size, overflowing speeds included |
| UdpTable.SessionNeverRefused | internal/ss/service.go:487 | nor does the limiter a session keeps, after its user's limit was taken away |
| Sessions.StepKeeps | internal/ss/service.go:459-544 | every step of handlers, sessions, exits and restarts keeps the invariant |
| Sessions.LeasesConserved | internal/ss/service.go:315-325 | in every reachable state counts equal outstanding leases, no guard is pending, repeated releases do nothing, and all ends empty |
| Sessions.SightingsWereGranted | internal/ss/service.go:430-440 | every sighting, of the user and address the handler itself asked with, is of a pair granted a lease earlier, though the lease may be that of another packet's session |
| Sessions.SeeRecords | internal/ss/service.go:327 | a task that has yet to report adds exactly its user, address and time to the sightings, and nothing else adds any |
| Sessions.GrantedAreLeases | internal/ss/service.go:315-325 | what counts as granted is exactly the pairs of the leases of all holders there have been |
| Sessions.TrackedIff | internal/ss/service.go:495-504 | a step keeps the table exact if and only if it is not the delete of an evicted session whose key is in the table again |
| Sessions.TableExact | internal/ss/service.go:459-504 | without restarts the table holds exactly the sessions not through their final delete, one per key |
| Sessions.TableExactWithRestarts | internal/ss/service.go:495-544 | with restarts the same of the sessions not evicted, when no such delete runs |
| Sessions.SameSocket | internal/ss/service.go:459-470 | all packets of a key are served by one session until it exits or a restart (endpoint-independent mapping, section 4.1 of RFC 4787) |
| Sessions.StaleRemoveLosesSession | internal/ss/service.go:501-503 | a concrete run in which an old session's delete loses a new one: two sockets and two leases for one key |
| Sessions.LimitsHold | internal/ss/limits.go:35-70 | with constant enforced limits both bounds are kept along any run |
| Sessions.ConstantLimitsHold | internal/ss/limits.go:35-70 | so from the start both bounds hold in every reachable state, of leases and of counters |
| UdpTable.Handlers.AcquireTCP | internal/ss/service.go:315-325 | the objects follow the run: a TCP admission, granted or refused as Acquire says |
| UdpTable.Handlers.GetOrCreateUDPSession | internal/ss/service.go:459-493 | the objects follow the run: the session in the table, a new one with its user's limiter, or the error and no change |
| UdpTable.Handlers.Seen | internal/ss/service.go:327 | the objects follow the run: one sighting more in the tracker's log |
| UdpTable.Handlers.HandleTCP | internal/ss/service.go:313-327 | an admitted handler adds exactly its user, address and time to the tracker's log, a refused one nothing |
| UdpTable.Handlers.HandleUDP | internal/ss/service.go:430-440 | a packet adds its own user, address and time once it has a session, found or made, and nothing otherwise |
| UdpTable.Handlers.AliveIPs | internal/ss/service.go:135-143 | what Snapshot reports alive is who was seen within the time to live, and nobody who had not been granted a lease for that address |
| UdpTable.Handlers.Finish | internal/ss/service.go:496-499 | the objects follow the run: a release closure is called |
| UdpTable.Handlers.RemoveSession | internal/ss/service.go:500-503 | the objects follow the run: socket closed, entry deleted by key |
| UdpTable.Handlers.CloseUDPSessions | internal/ss/service.go:537-544 | the objects follow the run: every listed session closed, the table empty |
| UdpTable.Handlers.SyncUsers | internal/ss/service.go:112 | new rate limits leave the sessions and the limiters they hold consistent |
| Traffic.TrafficStore.Ensure | internal/ss/service.go:705-712 | a user's counters, made if missing, with nobody's pending bytes changed |
| Traffic.TrafficStore.AddUp | internal/ss/service.go:691-696 | adds to this user's up count and to nothing else |
| Traffic.TrafficStore.AddDown | internal/ss/service.go:698-703 | adds to this user's down count and to nothing else |
| Traffic.TrafficStore.SnapshotAndReset | internal/ss/service.go:714-731 | everything pending is reported, each user at most once and never with nothing, and nothing stays |
| Traffic.ReportBody | internal/provider/xboard/client.go:68-71 | the by-identifier map loses nothing when each user is listed once |
| Traffic.ReportTraffic | internal/provider/xboard/client.go:64-73 | an empty list sends nothing; otherwise the panel accepts all of it or none |
| Traffic.Accounts.AddUp | internal/ss/service.go:344 | the objects follow the run: the store's pending counts are the run's |
| Traffic.Accounts.AddDown | internal/ss/service.go:360 | the same for the other direction |
| Traffic.Accounts.Snapshot | internal/agent/agent.go:124-127 | the objects follow the run: what was pending is in the returned list, and only there |
| Traffic.Accounts.Report | internal/agent/agent.go:129-134 | the objects follow the run: the panel accepts the whole list if and only if the status and traffic requests both succeed, and the whole of it is dropped otherwise |
| Traffic.Accounts.PushSnapshot | internal/agent/agent.go:123-136 | a push with counts arriving in between takes the run through its snapshot, those counts and its report |
| Traffic.TrafficConserved | internal/agent/agent.go:123-136 | counted == accepted + dropped + on its way, per user and direction, along any run with counts arriving in between |
| Traffic.DroppedOnlyByFailure | internal/agent/agent.go:129-134 | bytes are dropped only by a failed status or traffic request |
| Traffic.FromTheStart | internal/agent/agent.go:123-136 | conservation from the start, and nothing dropped when no report fails |
| Traffic.TrafficAccounted | internal/agent/agent.go:123-136 | read off the objects at any moment: counted == accepted by the panel + dropped + in the agent's list + in the store |
| Online.OnlineTracker.Seen | internal/ss/service.go:733-740 | keeps the tracker a refinement of the full log |
| Online.OnlineTracker.Snapshot | internal/ss/service.go:742-767 | reports per user exactly the addresses whose latest sighting is within the time to live; pruning never changes a later snapshot |
| Online.AliveIff | internal/ss/service.go:742-767 | with times that do not go back, the latest sighting is recent exactly if some sighting is |
| Online.OnlineTracker.PruneUser | internal/ss/service.go:748-755 | the inner loop deletes exactly what has expired and lists the rest once each |
| Online.ReportedWereGranted | internal/ss/service.go:430-440 | who is alive in the log of a run had been granted a lease for that address |
| Control.Client.Get | internal/provider/xboard/client.go:97-169 | one conditional fetch; the tag is stored before the body is decoded, and no other tag changes |
| Control.FetchOutcomes | internal/provider/xboard/client.go:97-169 | a value only from a success whose body decodes, none from a 304, an error from everything else; the tag changes only to that of a success |
| Control.Agent.SyncOnce | internal/agent/agent.go:65-121 | fields, tags, plans and outcome are those of the pure synchronisation step |
| Control.FailedFetchAppliesNothing | internal/agent/agent.go:69-82 | a synchronisation in which a fetch fails fails, and applies and keeps nothing |
| Control.Agent.Run | internal/agent/agent.go:35-63 | the objects follow the run, which a failed first synchronisation ends |
| Control.RunGoesOn | internal/agent/agent.go:35-63 | a run goes on with every tick, unless its first one failed |
| Control.RunRefinesPlainGet | internal/agent/agent.go:35-121 | an undisturbed run of the agent succeeds, and after each tick the runtime has what a plain GET would have given it |
| Control.OnlyServedPlans | internal/agent/agent.go:35-121 | in every run, whatever fails, each plan applied is of a node and a user list the panel served: an empty node never is |
| Control.EmptyNodeIff | internal/agent/agent.go:84-86 | only a panel that answers a request without a tag with 304 has the agent apply an empty node |
| Control.CleanTick | internal/agent/agent.go:84-121 | an undisturbed tick leaves applied what a plain GET would give, and Apply runs exactly when something was refetched, which the panel may send again unasked |
| Control.SyncRefinesPlainGet | internal/agent/agent.go:65-121 | over any undisturbed run, after every tick |
| Control.AgreementLostIff | internal/provider/xboard/client.go:124-129 | a tick breaks the agreement if and only if it is interrupted after storing the tag of content not yet applied, or its restart fails |
| Control.AgreementKept | internal/agent/agent.go:35-121 | over whole runs of the agent with faults that lose nothing: in step, and after each undisturbed tick with what a plain GET at that tick would give |
| Control.RestoredIff | internal/agent/agent.go:84-121 | an undisturbed tick restores the agreement if and only if the panel sends again what the agent lacks, or anything if only the runtime lacks it |
| Control.StaysDown | internal/agent/agent.go:87-90 | after a restart that failed nothing runs for as long as the panel has nothing new |
| Control.ChangeNeverApplied | internal/agent/agent.go:74-77 | one such interruption, and no number of undisturbed ticks applies the change |
| Listeners.AlwaysFaithful | internal/ss/service.go:94-133 | in every state any calls lead to, what is bound is as the stored configuration asks |
| Listeners.StepFaithful | internal/ss/service.go:109-124 | a successful Apply leaves everything asked for bound; after a failed restart the next that builds restarts; after Close nothing changes again |
| Listeners.ApplyBinds | internal/ss/service.go:94-133 | with everything granted an Apply that builds succeeds and binds exactly what the configuration enables, at its address |
| Listeners.RestartSucceedsIff | internal/ss/service.go:212-267 | when a restart succeeds, by what is enabled and granted, and what each failure leaves bound |
| Listeners.BuildsIff | internal/ss/service.go:170-201 | a configuration is refused exactly for obfuscation, an unknown cipher or rules that do not compile |
| Listeners.WhenItRestarts | internal/ss/service.go:203-210 | a change of users or trusted prefixes only keeps the listeners, a change of cipher or of a binding restarts |
| Listeners.RunNext | internal/ss/service.go:94-133 | a run is its calls one after the other, with one outcome each |
| Listeners.FastPathAgreesIff | internal/ss/service.go:203-210 | for all calls, failing ones included, skipping restarts ends with the same listeners and outcomes as always restarting if and only if no skipped restart would have failed |
| Listeners.Service.Restart | internal/ss/service.go:212-267 | closes every old listener and every listed session, then opens what the grants allow, in the source's order of failures |
| Listeners.Service.Apply | internal/ss/service.go:94-133 | the objects follow the pure step; no listener is leaked; sessions are closed exactly when listeners restart; rate limits follow the users; a state that does not build changes nothing |
| Listeners.Service.Close | internal/ss/service.go:145-168 | every listener ever opened and every listed session is closed |

## Left out

- AES-GCM, ChaCha20-Poly1305, HKDF, MD5 and randomness: library code, present only through its laws.
- Sockets, dialing, DNS, the PROXY protocol, linger and half-close: present only as sources, sinks and outcomes.
- HTTP transport, JSON, msgpack and URL building: present only as status, tag and a body that decodes or not.
- Timing of rate limiters: only their limit, burst and identity are modelled.
- Target rules (`internal/ss/rules.go`): they rest on Go's regexp engine; a TCP connection or datagram is followed as if admitted.
- Configuration loading and translation (`internal/ss/translate.go`, `internal/config/config.go`): defaulting and trimming, easy members only.
- PassX CIDR parsing and prefix matching: netip behaviour; whether a transport is trusted is a parameter.
- `SnapshotAliveIPs` of the limiter, sorting only; dry-run and prototype backends, logging, the installer.
- Reports of alive addresses and audits: they follow the traffic report and change nothing modelled.
- Goroutines: steps under a lock are atomic events of a run (Sessions, Pipe, Traffic); the two directions of a connection share only counters and are followed one at a time.
- Traffic.TrafficStore.AddUp: counts are unbounded integers, so the wrap of an int64 after 2^63 bytes is not modelled.
- Traffic.TrafficStore.AddDown: the same.
- StreamWriting.StreamWriter.Write: a caller that goes on writing after an error, which copyCount never does, is covered only by the nonce, count and frame clauses.
- Limiter.SessionLimiter.Acquire: the per-user address maps are values, so sharing of an inner map between a caller and the limiter is not modelled; the source shares none.
- Online.OnlineTracker.Snapshot: the saturation of Go's time subtraction near its limits is not modelled.
- UdpTable.Handlers.RemoveSession: sessions end for any reason; the five-minute read deadline is not modelled.
