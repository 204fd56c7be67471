# HyperAgg data plane: a verified model

HyperAgg bonds several network paths into one tunnel. A payload read from the client's TUN device is put into a
forward-error-correction group, numbered, and sent over one or more paths that may lose, repeat, delay and reorder it. The
server drops duplicates, recovers lost packets from parity, restores the order and writes to its own TUN device. This project
models that pipeline and proves what it guarantees on every run; beside it stand the reassembly of the older engine and the
arithmetic cores of pacing, scheduling and congestion control.

Each part that changes state is a class whose methods are proved against step functions on plain values, and the theorems
about whole runs are proved about these step functions.

| module | models |
|---|---|
| Collections, Numbers, Bytes, GroupStream | sets, numbers, byte strings with XOR, and the groups an encoder has formed |
| XorFec, XorDecoder | XOR parity: encoding, and recovery over arbitrary arrivals |
| RsFec, RsDecoder | Reed-Solomon FEC: a code on columns of bytes lifted to blocks of unequal length |
| ColumnCodes, GaloisField | column codes that meet the law RsFec asks for |
| FecEngine, Engine | three encoders and three decoders behind mode, tier and group size |
| KindRuns, Witness, CodeDistance, Misrouting | runs that use one code alone, and exactly when such runs recover rightly although group sizes coincide |
| Mixing, Collisions | the same for runs that mix codes |
| ReorderBuffer, ReorderRuns | the adaptive reorder buffer, and its runs |
| Packet, Client, Server, Tunnel | wire format, sending and receiving steps, and the two objects |
| HeaderBytes, Copies | the header byte by byte, and what every copy sent says of itself |
| EndToEnd | from one TUN device to the other: order and integrity |
| DecoderShares, Arrivals, GroupAges, LossRecovery | what recovery adds: packets that did not come in time are written |
| DecodedOnce, AtMostTwice, Forgotten | nothing is recovered twice, nothing written three times, and for which sizes |
| Draining | what the timeout loop releases when the traffic stops |
| Realization, ServerRecovery | the server recovers what the engine recovers, and exactly when all it writes was sent |
| Records | what the components remember and count |
| Reassembly | the older server's reassembly, with handlers that suspend in the middle of a delivery |
| Interleaver, TokenBucket, PathScheduler, Decisions, Congestion, Trend | the arithmetic cores |

`dafny verify dfyconfig.toml` checks everything.

Conventions: bytes are integers from 0 to 255. Clock readings are parameters, one per callback; only the theorems on pacing
and draining need them to be ascending. Floating-point quantities are real numbers. Dictionaries are maps; where the code
walks one, the model walks it in an arbitrary order. The codec library behind Reed-Solomon is a parameter with one law
(`RsFec.Lawful`): any k of the k + p positions determine the data, and decoding finds them. Codes that meet it are
constructed.

Where the code does not do what its comments say, the model follows the code:

- Heavy Reed-Solomon groups are meant for the heavy decoder, but with six or more data shards they carry the group size of
  normal ones, and other sizes can coincide too. `FecEngine.RoutedWhen` says exactly when each kind finds its decoder. The
  theorems about single recoveries ask that no other kind goes to the decoder in question, and nothing of the others.
  For runs that use one kind alone, `Misrouting.XorAlone`, `RsAlone` and `HeavyAlone` say exactly when recovery is right; for
  runs that mix them, `Collisions.MixedExactly` at the engine and `ServerRecovery.ServerExactly` from end to end. The default
  configuration does not meet the condition: `Realization.DefaultHeavyModeWritesNoInput` has its server write a payload that
  was never sent. The order of the released writes (`EndToEnd.ReleasesAreInOrder`) holds in every configuration.
- Recovered packets are written at once and do not pass the reorder buffer (hyperagg/tunnel/server.py:233-236), so order and
  at-most-once are properties of what the reorder buffer releases. A packet that was released can be written a second time
  as a recovery; `AtMostTwice.WrittenAtMostTwice` says when that is all.
- Parity packets take global numbers that never enter the reorder buffer (hyperagg/tunnel/client.py:425-428), so without
  timeouts nothing passes the first of them, on a lossless channel either (`EndToEnd.ParityHoldsBack`).
- The older server advances the expected number after the await. `Reassembly.ExactWhenNoOverlap` gives the exact condition for
  an exact stream, and `Reassembly.ReinjectionRepeatsAndSkips` a run that breaks it by the reinjection the older client does
  (engine/tunnel_client.py:142-150). A delivery that raises stops the stream for good (`Reassembly.FailureStalls`).
- A consumption of zero bytes before the first rate creates a bucket without a clock, and the path never gets a token
  (`TokenBucket.StartsOrStarves`).

## Model

| member | source | states |
|---|---|---|
| EndToEnd.Integrity | hyperagg/tunnel/server.py:182-246 | end-to-end integrity for every run of the client (any payloads, tiers, mode changes, paths and drops before sending), and every run of the server on what a channel may drop, repeat, reorder or cut short, with timeout sweeps anywhere: the writes released by the reorder buffer are inputs, in input order, each at most once; and every write recovered by the decoder of a kind is the input that its group and index name, zero-padded to the longest of its group, if no packet of another kind goes to that decoder, whatever happens to the others |
| ServerRecovery.ServerExactly | hyperagg/tunnel/server.py:182-246 | the main theorem on recovery: for every configuration with lawful codes and group sizes below 256, on all runs of client and server everything written to the TUN device is an input, recovered ones zero-padded, if and only if the sizes tell the kinds apart where it matters: normal groups are not as long as XOR groups (or both are groups of one packet with one parity that copies it), heavy groups are not as long as XOR groups, and heavy groups are not as long as normal ones or there is no normal parity |
| ServerRecovery.ServerNamesExactly | hyperagg/tunnel/server.py:182-246 | the stricter question, for the same configurations and runs: every recovered write is the zero-padded original of the group and index it names if and only if normal groups are not as long as XOR groups, heavy groups are not either, and heavy groups are not as long as normal ones or there is no normal parity |
| ServerRecovery.ServerIsEngine | hyperagg/tunnel/server.py:205-236 | on every channel the decoders inside a server run are in the state of an engine fed with the outputs the client logged, and every recovered write is what the engine recovers there |
| ServerRecovery.ClientIsEngine | hyperagg/tunnel/client.py:288-345 | whatever copies are attempted, dropped or rerouted: what the client numbers is what the FEC engine puts out for the same payloads and modes |
| Realization.TrialIsServed | hyperagg/tunnel/server.py:205-246 | the converse: whatever the engine recovers from packets that arrive once each and fit their headers, a server writes that gets datagrams the client sent |
| Realization.DefaultHeavyModeWritesNoInput | hyperagg/tunnel/server.py:215-236 | with the default group sizes (4; 8 and 2), interpolation codes and heavy mode there are a run of the client and datagrams it sent on which the server writes a payload that was never sent |
| EndToEnd.XorIsOwn | hyperagg/fec/fec_engine.py:256-272 | when neither Reed-Solomon kind has the XOR group size, no packet of another kind reaches the XOR decoder in any run: heavy packets of the default configuration do not |
| EndToEnd.ParsesToSent | hyperagg/tunnel/server.py:182-208 | whatever arrives is dropped before deduplication or parses to exactly a packet the client sent |
| EndToEnd.ReorderRun | hyperagg/tunnel/server.py:238-246 | the released writes and the state of the reorder buffer inside a server run are those of a run of the reorder buffer alone on the data packets that pass deduplication |
| EndToEnd.ArrivalsAreLogged | hyperagg/tunnel/server.py:238-246 | every packet that reaches the reorder buffer is a non-parity FEC output of the client under its own global number |
| EndToEnd.ReleasedAreInputs | hyperagg/tunnel/server.py:238-246 | released numbers strictly increase, and each payload is the input whose rank among the data packets that number has |
| EndToEnd.ReleasesAreInOrder | hyperagg/tunnel/server.py:182-246 | the first half of Integrity for every configuration and every mode, heavy mode included, and with no law for the codes: the writes released by the reorder buffer are inputs, in input order, each at most once |
| EndToEnd.WithoutTicks | hyperagg/tunnel/server.py:205-246 | in a run without timeouts a number is released if and only if it and every number below it arrived in data packets |
| EndToEnd.ParityHoldsBack | hyperagg/tunnel/client.py:425-428 | so in a run without timeouts nothing from the number of the first parity packet on is ever released, on any channel, a lossless one included |
| Draining.TicksDrain | hyperagg/tunnel/server.py:390-400 | with timeouts: after as many ticks as there were events, the first of them a timeout after the last event, a number has been released if and only if its data packet arrived before a timeout gave the number up |
| LossRecovery.LostInputIsWritten | hyperagg/tunnel/server.py:205-236 | loss recovery end to end: when the parity and all data packets but one of a completed XOR group have arrived before timeouts gave up their numbers, in any order, with any repeats and anything between, with no tick before that finding the first packet of the group older than the timeout (stated on arrival times alone) and no other kind going to the XOR decoder, then the packet that did not come in time has been written, padded to the longest of its group, also after its own number was given up |
| LossRecovery.LostShardsAreWritten | hyperagg/tunnel/server.py:205-236 | the same for both Reed-Solomon kinds: when as many distinct packets of a group have arrived in time as it has data packets, every data packet that did not has been written, padded to the longest of its group |
| GroupAges.XorKept | hyperagg/fec/xor_fec.py:215-226 | a condition on arrival times is what keeps an XOR group alive inside a server run: if until enough of it has come in time no tick finds its first packet older than the timeout, the decoder does not expire it before |
| GroupAges.ShardsKept | hyperagg/fec/rs_fec.py:255-266 | the same for Reed-Solomon groups |
| AtMostTwice.NeverRecoveredTwice | hyperagg/tunnel/server.py:205-236 | on every run of client and server, however long and however many groups expire and are forgotten: a decoder that is its kind's alone recovers no packet twice, if there are at least two data packets to a parity packet (XOR groups of two or more; 8 and 2) |
| AtMostTwice.NoneRecoveredTwice | hyperagg/tunnel/server.py:227-236 | for any sizes, and whatever arrives: while the recovered groups stay remembered, no packet of a group is recovered twice |
| DecodedOnce.DataReachesOnce | hyperagg/tunnel/server.py:205-231 | a decoder that is its kind's alone gets every data packet of the client at most once in a run |
| DecodedOnce.LogIsUnique | hyperagg/tunnel/client.py:288-345 | no two data packets that go to the decoder of a kind have one group and index |
| XorDecoder.NeverTwice | hyperagg/fec/xor_fec.py:153-213 | if no data packet comes twice, the XOR decoder recovers no packet twice on any run with any expiries, with groups of two or more |
| RsDecoder.NeverTwice | hyperagg/fec/rs_fec.py:198-275 | the same for Reed-Solomon with at least two data shards to a parity shard: two recoveries of one packet would need two disjoint sets of other data shards |
| Forgotten.XorOnceExactly | hyperagg/fec/xor_fec.py:153-213 | and these sizes are exact: with groups of one packet a run with 257 groups recovers one of them twice |
| Forgotten.RsOnceExactly | hyperagg/fec/rs_fec.py:198-275 | for any code: with fewer than two data shards to a parity shard a run with 10001 groups recovers one packet of a forgotten group again, although no data shard comes twice |
| AtMostTwice.WrittenAtMostTwice | hyperagg/tunnel/server.py:227-246 | under either condition no three writes are of the same packet of the client, released under its number or recovered under its group and index |
| AtMostTwice.FewGroupsAreRemembered | hyperagg/fec/xor_fec.py:203-211 | recovered groups stay remembered while the XOR decoder has closed at most 256 groups and each Reed-Solomon decoder at most 10000 |
| Arrivals.SeenIsInTime | hyperagg/tunnel/server.py:205-231 | on every run a decoder has seen of a group exactly what arrived before a timeout gave up its number: deduplication drops only repeats that were decoded before and packets that come too late |
| Arrivals.AllInTime | hyperagg/tunnel/server.py:205-231 | that is all that arrived, if no packet of the group arrives for the first time after its number was given up; without timeouts none does |
| DecoderShares.RecoveryIsWritten | hyperagg/tunnel/server.py:227-236 | every recovery of the XOR decoder inside a server run is written |
| DecoderShares.ShardRecoveryIsWritten | hyperagg/tunnel/server.py:227-236 | so is every recovery of a Reed-Solomon decoder |
| EndToEnd.RecoveriesAreSound | hyperagg/tunnel/server.py:215-236 | at every point of a server run a decoder that no other kind reaches holds only what the client's encoder of its kind emitted, and all its recovered writes so far are sound |
| EndToEnd.SentIsEmitted | hyperagg/tunnel/client.py:328-345 | a packet on the wire that goes to the decoder of a kind carries an output of the encoder of that kind, unless another kind goes there |
| EndToEnd.SoundIsPaddedInput | hyperagg/tunnel/client.py:288-330 | a sound recovery is some payload read from the TUN device, padded |
| Client.RunNumbered | hyperagg/tunnel/client.py:328-428 | every copy sent carries, under its global number, the FEC output that was given this number; numbers are never reused within a run, and advance for parity and for dropped outputs too |
| Client.DataPacketsAreInputs | hyperagg/tunnel/client.py:288-330 | the data outputs in order of their numbers are exactly the inputs in their order, whatever modes and parities come between |
| Client.RankedInput | hyperagg/tunnel/client.py:425-428 | the data packet with number q carries the input of the rank of q, and ranks follow numbers, although parity packets take numbers from the same counter |
| Client.RunEncoded | hyperagg/tunnel/client.py:288-330 | at every point of a run each output so far that goes to the decoder of a kind is one of its encoder's packets for its group and index, if no other kind goes there, and all groups are drawn from the inputs |
| Client.RealtimeLeavesNoTrace | hyperagg/tunnel/client.py:288-330 | over every run the encoders are where they would be had no realtime payload been sent: none ever takes a place in a group |
| Client.RealtimeIsLogged | hyperagg/tunnel/client.py:288-330 | a realtime payload gets one number, as one output without a group that is marked for replication |
| Client.ModeIsLastSet | hyperagg/tunnel/client.py:288-330 | the encoders work in the mode set last; no packet changes it |
| Copies.RunAccounted | hyperagg/tunnel/client.py:328-428 | over every run one packet was sent for each attempt that went out, in order: version 1, flags 0 or 1, with the path and time of the attempt and the global number of its output, and numbered one after the last copy that went out on its path, or 0; so also when an alternate path took over |
| Copies.NumbersCount | hyperagg/tunnel/client.py:344-424 | as long as no copy goes out on an alternate path, the number of a copy is how many copies went out on its path before |
| Copies.OnTheWire | hyperagg/tunnel/packet.py:89-105 | so every byte of every datagram sent is known: magic and version, the flags, path, numbers, group, lengths and time at their places, then the payload |
| Tunnel.TunnelClient.SendPacket | hyperagg/tunnel/client.py:288-428 | encodes, numbers and sends one payload: succeeds exactly if no header field of an attempted copy overflows; then the state is the specified one and the new datagrams are the wire forms of the new packets |
| Tunnel.TunnelClient.SendOuts | hyperagg/tunnel/client.py:328-428 | the loop over FEC outputs against its specification, with the failure condition |
| Tunnel.TunnelClient.SendOut | hyperagg/tunnel/client.py:328-428 | the loop over path assignments of one output, and the step to the next global number |
| Tunnel.TunnelServer.OnUdpReadable | hyperagg/tunnel/server.py:182-246 | one datagram: new state and TUN writes are those of the specified step, including malformed, keepalive, control, duplicate, parity and no-FEC packets |
| Tunnel.TunnelServer.HandlePacket | hyperagg/tunnel/server.py:205-246 | deduplicates, decodes and writes recoveries first, then releases from the reorder buffer unless the packet is parity |
| Tunnel.TunnelServer.DecodeAndWrite | hyperagg/tunnel/server.py:215-236 | decodes if the packet belongs to a group, writes every recovery at once and counts it |
| Tunnel.TunnelServer.TimeoutTick | hyperagg/tunnel/server.py:390-400 | one sweep: reorder timeouts are written, then FEC groups expire |
| Records.StepWritesInOrder | hyperagg/tunnel/server.py:205-246 | in one step all recoveries are written before any release |
| Records.ServerCounts | hyperagg/tunnel/server.py:205-246 | over every run the counters of the server are what its writes show: releases, recoveries, and datagrams dropped as repeated or late |
| Packet.DeserializeSerialize | hyperagg/tunnel/packet.py:89-156 | parsing undoes serializing for every packet with fields in range, and ignores trailing bytes |
| Packet.SerializeDeserialize | hyperagg/tunnel/packet.py:89-156 | serializing undoes parsing: an accepted datagram is the wire form of the packet it parses to, followed by ignored bytes |
| Packet.TruncatedIsRejected | hyperagg/tunnel/packet.py:124-156 | a packet cut short at any byte is rejected |
| Packet.HeaderFields | hyperagg/tunnel/packet.py:27-36 | where each of the eleven big-endian fields lies in the 28 header bytes |
| HeaderBytes.ParsedFields | hyperagg/tunnel/packet.py:124-156 | every field of a parsed packet is the big-endian number at its place in the datagram |
| HeaderBytes.SentFields | hyperagg/tunnel/packet.py:89-105 | every field of a packet stands at its place in the datagram |
| HeaderBytes.AcceptedExactly | hyperagg/tunnel/packet.py:124-156 | a datagram is accepted if and only if it begins with HAGG and is as long as its 28 header bytes and the payload length in them |
| HeaderBytes.OthersPassOver | hyperagg/tunnel/server.py:188-203 | on the flags byte: with bit 2 (keepalive) or bit 3 (control) set a datagram changes nothing the model keeps and writes nothing, in every state |
| HeaderBytes.DataAndParityAreProcessed | hyperagg/tunnel/server.py:196-246 | with both bits clear it is processed as data or parity, and bit 0 decides whether it can reach the reorder buffer |
| HeaderBytes.KeepalivesPassOver | hyperagg/tunnel/packet.py:184-200 | the keepalive factory sends 28 bytes with flags byte 4, and every server passes them over |
| HeaderBytes.ControlsPassOver | hyperagg/tunnel/packet.py:228-247 | the control factory sends flags byte 8, and every server passes the packet over |
| FecEngine.EngineIsSound | hyperagg/fec/fec_engine.py:145-292 | modes and tiers may change between any two packets, also inside a group, and the channel may drop, repeat and reorder: every recovery by a decoder that packets of no other kind go to is the padded original of the group and index it names, whatever the other kinds run into |
| FecEngine.EncRunEmits | hyperagg/fec/fec_engine.py:145-236 | over every run that sends no other kind to a decoder, each output that goes to it belongs to one group of its own encoder: encoders are never mixed inside a group |
| FecEngine.EncodeStepEmits | hyperagg/fec/fec_engine.py:145-236 | one packet through the encoder: streams only grow, the mode stays, and every output that goes to the decoder of a kind is emitted by the encoder of that kind |
| FecEngine.OneDataPerPayload | hyperagg/fec/fec_engine.py:145-236 | in every mode a payload comes out unchanged as the first output and the only data output; the rest is parity |
| FecEngine.RealtimeIsReplicated | hyperagg/fec/fec_engine.py:163-182 | in every mode and state a realtime payload leaves the encoders alone and goes out once, without a group, marked for replication |
| FecEngine.StreamingAvoidsXor | hyperagg/fec/fec_engine.py:166-182 | a streaming payload in mode XOR leaves the XOR group alone and joins a normal Reed-Solomon group |
| FecEngine.ModeDecides | hyperagg/fec/fec_engine.py:168-191 | for every other pair of mode and tier exactly the stream the mode names is fed, and gives the group size |
| FecEngine.DecodeStepSound | hyperagg/fec/fec_engine.py:238-292 | a decoder that holds only packets of its own encoder still does after one more, and returns only sound recoveries |
| FecEngine.DecAfterFaithful | hyperagg/fec/fec_engine.py:238-298 | the same over every run of packets and expiries |
| FecEngine.RoutedWhen | hyperagg/fec/fec_engine.py:256-292 | exactly which configurations send each kind of packet to its own decoder: XOR always; normal Reed-Solomon unless its group size equals the XOR one; heavy only with fewer than six data shards and another group size than XOR |
| Misrouting.XorAlone | hyperagg/fec/fec_engine.py:193-272 | runs that use XOR alone recover rightly in every configuration |
| Misrouting.RsAlone | hyperagg/fec/fec_engine.py:238-292 | runs that use normal Reed-Solomon alone recover rightly if and only if its group size is not that of XOR, or its parity count is neither 1 nor 2, or it is 1 and the parity is the exclusive or; the same condition decides whether every recovered payload is some payload sent |
| Misrouting.HeavyAlone | hyperagg/fec/fec_engine.py:238-292 | runs that use heavy Reed-Solomon alone recover rightly if and only if its group size is its own, or is that of XOR and there is normal parity, or is the normal one and there is none; if heavy codewords are normal ones the same condition decides whether every recovered payload is some payload sent |
| Misrouting.HeavyTakenForNormalWhen | hyperagg/fec/fec_engine.py:278-285 | heavy packets reach the normal decoder exactly with six or more normal data shards and a group size other than the XOR one |
| Misrouting.MisroutedHeavyIsNotRecovered | hyperagg/fec/fec_engine.py:274-292 | then a heavy group of which fewer than the normal number of data shards have come is not recovered, whatever else arrived and expired, although its own code needs two fewer |
| Misrouting.ForeignIndexComesOut | hyperagg/fec/fec_engine.py:274-292 | then, for any lawful codes, the data packets and the second and third parity packets of a heavy group make the normal decoder hand out a data packet that the group does not have |
| Misrouting.ParityComesOutAsData | hyperagg/fec/fec_engine.py:274-292 | and when heavy codewords are normal ones, the bytes handed out are exactly the first parity packet |
| Misrouting.LeftoverComesOut | hyperagg/fec/fec_engine.py:262-272 | what the XOR decoder makes of a Reed-Solomon group: the XOR of the held data packets and the last parity packet, under an index of its own |
| Misrouting.LeftoverIsNoInput | hyperagg/fec/fec_engine.py:262-272 | with two parity packets, or one that is not the exclusive or, some group makes that a payload that was never sent |
| Collisions.MixedExactly | hyperagg/fec/fec_engine.py:145-298 | whatever kinds are mixed in a run: every recovered payload is some payload sent, padded, if and only if the sizes tell the kinds apart where it matters; for every configuration with lawful codes |
| Collisions.SoundExactly | hyperagg/fec/fec_engine.py:145-298 | whatever kinds are mixed in a run of the engine: every recovery is the padded original it names under that stricter condition, and only under it |
| Mixing.TellingApartSuffices | hyperagg/fec/fec_engine.py:238-292 | one direction, for all runs: decoders that are their kind's alone recover rightly, a normal decoder without parity never recovers, and single packets with one copy stay copies |
| Collisions.CollisionFails | hyperagg/fec/fec_engine.py:238-292 | the other direction: for each configuration left, a run that mixes two kinds (or uses normal Reed-Solomon alone) and recovers a payload nobody sent |
| Collisions.StrangerFails | hyperagg/fec/fec_engine.py:274-292 | a heavy packet among normal ones: for any lawful codes the normal decoder hands out a payload with a byte that neither group has |
| EndToEnd.DefaultHeavyModeFails | hyperagg/fec/fec_engine.py:29-61 | with the default group sizes (4; 8 and 2) and interpolation codes, XOR and normal Reed-Solomon alone recover rightly, and heavy Reed-Solomon alone hands out a payload that was never sent |
| KindRuns.RoutedIsSound | hyperagg/fec/fec_engine.py:145-292 | a kind that is routed to its own decoder recovers rightly in runs that use it alone |
| KindRuns.WholeGroupFrom | hyperagg/fec/fec_engine.py:193-236 | an encoder that has encoded nothing yet, given one whole group, puts out exactly its data packets and its parity packets, in order, under group id 0 |
| Engine.Engine.EncodePacket | hyperagg/fec/fec_engine.py:145-191 | the engine object picks an encoder by mode and tier; the new encoder state and the outputs are the specified ones, whichever of the six component objects change |
| Engine.Engine.EncodeXor | hyperagg/fec/fec_engine.py:193-213 | data packet with group and index, and the XOR parity when the group is complete |
| Engine.Engine.EncodeRs | hyperagg/fec/fec_engine.py:215-236 | data packet with group and index, and all parity shards when the group is complete |
| Engine.Engine.DecodePacket | hyperagg/fec/fec_engine.py:238-260 | dispatch by group size only; the other decoders stay as they were |
| Engine.Engine.DecodeXor | hyperagg/fec/fec_engine.py:262-272 | at most one recovery, counted |
| Engine.Engine.DecodeRs | hyperagg/fec/fec_engine.py:274-292 | normal before heavy; an unknown group size is ignored |
| Engine.Engine.ExpireGroups | hyperagg/fec/fec_engine.py:294-298 | expires the groups of all three decoders |
| Bytes.FastXorIsXor | hyperagg/fec/xor_fec.py:19-30 | the big-integer route (pad right, convert big-endian, XOR once, convert back) gives the position-wise XOR of strings of any two lengths |
| Bytes.FastXorFits | hyperagg/fec/xor_fec.py:24-30 | the integer XOR always fits into the output length: to_bytes cannot overflow |
| Bytes.ToFromBytes | hyperagg/fec/xor_fec.py:27-30 | a byte string comes back from its big-endian integer |
| Bytes.FromToBytes | hyperagg/fec/xor_fec.py:27-30 | an integer in range comes back from its big-endian bytes |
| Bytes.XorBytesComm | hyperagg/fec/xor_fec.py:19-30 | commutative for unequal lengths |
| Bytes.XorBytesAssoc | hyperagg/fec/xor_fec.py:19-30 | associative for unequal lengths |
| Bytes.XorBytesUnit | hyperagg/fec/xor_fec.py:19-30 | the empty string is the unit |
| Bytes.XorBytesCancel | hyperagg/fec/xor_fec.py:19-30 | XOR twice with b gives a back, zero-padded to the length of b |
| XorFec.EncodeGroup | hyperagg/fec/xor_fec.py:39-56 | the XOR of all packets; a wrong count is a ValueError, an empty group of size zero an IndexError |
| XorFec.DecodeRecover | hyperagg/fec/xor_fec.py:58-80 | the parity XOR all received packets but the one named missing, in whatever order the dictionary is walked |
| XorFec.XorOverTake | hyperagg/fec/xor_fec.py:70-80 | the XOR over a dictionary does not depend on the order of its keys |
| XorFec.ParityColumns | hyperagg/fec/xor_fec.py:49-56 | byte i of the parity is the XOR of byte i of all packets, each extended with zeros |
| XorFec.RecoverMissing | hyperagg/fec/xor_fec.py:58-80 | parity XOR all other packets of the group is the missing packet, zero-padded to the parity length |
| XorFec.XorFecEncoder.AddPacket | hyperagg/fec/xor_fec.py:98-117 | the payload joins the group named by the returned id and index, and the parity of the whole group comes with its last packet |
| XorFec.EmittedLater | hyperagg/fec/xor_fec.py:98-117 | what the encoder emitted stays what it emitted while the encoder runs on |
| XorDecoder.XorFecDecoder.ReceivePacket | hyperagg/fec/xor_fec.py:153-186 | stores and tries to recover, unless the group was delivered: new state and result are the specified ones |
| XorDecoder.XorFecDecoder.TryRecover | hyperagg/fec/xor_fec.py:188-213 | recovers exactly when the parity and all but one data packet are held; then remembers and drops the group |
| XorDecoder.XorFecDecoder.MarkRecovered | hyperagg/fec/xor_fec.py:203-211 | counts and remembers the recovered group and drops what it held; when more than 256 ids are remembered, the lower half of them is forgotten |
| XorDecoder.XorFecDecoder.ExpireGroups | hyperagg/fec/xor_fec.py:215-226 | drops exactly the groups older than the timeout, and names them |
| XorDecoder.XorFecDecoder.CleanupGroup | hyperagg/fec/xor_fec.py:228-232 | the group leaves all three dictionaries |
| XorDecoder.InvRun | hyperagg/fec/xor_fec.py:153-232 | in every reachable state: dictionaries agree on their groups, live and delivered groups are disjoint, at most 256 ids are remembered, and no held group is recoverable |
| XorDecoder.EveryRecoveryIsRight | hyperagg/fec/xor_fec.py:153-213 | any packets of the encoder in any order with any repeats and expiries: each recovery is the padded original it names |
| XorDecoder.RecoveryIsRight | hyperagg/fec/xor_fec.py:188-213 | the same for one state |
| XorDecoder.HoldsWhatWasSeen | hyperagg/fec/xor_fec.py:153-186 | until a group first becomes complete the decoder holds exactly what arrived of it, whatever happens to other groups |
| XorDecoder.RecoversOnCompletion | hyperagg/fec/xor_fec.py:153-213 | a fresh group that does not expire is recovered exactly on the arrival that completes it, and the recovered index is the one that never came |
| XorDecoder.ExactlyOneRecovery | hyperagg/fec/xor_fec.py:153-213 | while its id stays remembered and it does not expire, a group that ever becomes complete is recovered exactly once, and any other never |
| XorDecoder.StampedWhenBegun | hyperagg/fec/xor_fec.py:165-186 | over every run the stamp of a group is the time of the first packet of it since it was last recovered or expired; later packets do not renew it |
| XorDecoder.ExpiresByAge | hyperagg/fec/xor_fec.py:215-226 | so an expiry drops exactly the groups whose first such packet came before the cutoff, and leaves the others as they are |
| Records.XorRemembers | hyperagg/fec/xor_fec.py:203-211 | 256 recovered groups are remembered; of 257 the upper 129 are |
| Records.XorCounts | hyperagg/fec/xor_fec.py:188-213 | over every run the counter is the number of recoveries given |
| XorDecoder.RememberSize | hyperagg/fec/xor_fec.py:203-211 | remembering one more id keeps the limit and invents no id |
| RsFec.Encode | hyperagg/fec/rs_fec.py:31-68 | column by column in two nested loops over byte buffers: the parity blocks are those of the specification; a wrong or zero count is a ValueError |
| RsFec.Decode | hyperagg/fec/rs_fec.py:70-129 | too few shards, no shard and an undecodable column are errors as in the code; otherwise the data blocks decoded column by column, zero-padded to the longest shard |
| RsFec.AnyKShardsDetermineTheData | hyperagg/fec/rs_fec.py:31-129 | for any column code in which any k positions determine the data: any k or more shards of a group of blocks of any lengths decode to every block padded to the longest |
| RsFec.LongestIsPresent | hyperagg/fec/rs_fec.py:89-100 | the pigeonhole step: with k shards or more, the longest shard present has the length of the longest data block, since a missing data shard means a parity shard is there |
| RsFec.ColumnIsErasedCodeword | hyperagg/fec/rs_fec.py:97-117 | each column of the received shards is the encoded column of the data with the missing positions erased |
| RsFec.ShardColumn | hyperagg/fec/rs_fec.py:46-68 | byte i of shard j is position j of the encoded column i, for data shards shorter than i as well |
| RsFec.DecodeColumns | hyperagg/fec/rs_fec.py:102-127 | the column loop stops exactly if some column does not decode, and otherwise fills every row |
| RsFec.FillParity | hyperagg/fec/rs_fec.py:50-66 | the loop over columns and parity rows fills every parity byte |
| RsFec.BuildCodeword | hyperagg/fec/rs_fec.py:110-117 | one column of the shards with zeros at the missing positions |
| RsFec.LongestBlock | hyperagg/fec/rs_fec.py:94-95 | the length of the longest shard |
| RsDecoder.RSFecEncoder.AddPacket | hyperagg/fec/rs_fec.py:146-163 | the payload joins the group named by the returned id and index, and all parity shards come with its last packet |
| RsDecoder.RSFecDecoder.ReceiveShard | hyperagg/fec/rs_fec.py:198-222 | stores and tries to recover, unless the group was delivered: new state and result are the specified ones |
| RsDecoder.RSFecDecoder.TryRecover | hyperagg/fec/rs_fec.py:224-253 | with fewer shards than needed nothing; with all data packets the group is only closed; otherwise the missing ones are decoded |
| RsDecoder.RSFecDecoder.ExpireGroups | hyperagg/fec/rs_fec.py:255-266 | drops exactly the groups older than the timeout, and names them |
| RsDecoder.RSFecDecoder.CleanupGroup | hyperagg/fec/rs_fec.py:268-275 | the group leaves the dictionaries, and too many delivered ids are purged |
| RsDecoder.RecoveryIsRight | hyperagg/fec/rs_fec.py:224-253 | once k shards of a group are held, exactly the missing data packets come out, in ascending order, each the padded original |
| RsDecoder.EveryRecoveryIsRight | hyperagg/fec/rs_fec.py:198-253 | any shards of the encoder in any order with any repeats and expiries: each recovery is right |
| RsDecoder.HoldsWhatWasSeen | hyperagg/fec/rs_fec.py:198-222 | until k distinct shards of a fresh group have come the decoder holds exactly the shards seen |
| RsDecoder.RecoversOnKthShard | hyperagg/fec/rs_fec.py:198-253 | a fresh group that does not expire is recovered on the arrival of its k-th distinct shard and not before: exactly the unseen data packets, in order and right; it is then remembered, up to the purge of a full memory |
| RsDecoder.HeldShardsAreShards | hyperagg/fec/rs_fec.py:224-253 | k shards held under one id belong to one completed group of the encoder |
| RsDecoder.ExactlyOneRecovery | hyperagg/fec/rs_fec.py:198-253 | while its id stays remembered and it does not expire, a group gives each data packet that had not come by its k-th distinct shard exactly once, rightly and in order, and nothing else |
| RsDecoder.StampedWhenBegun | hyperagg/fec/rs_fec.py:206-222 | over every run the stamp of a group is the time of the first shard of it since it was last closed or expired |
| RsDecoder.ExpiresByAge | hyperagg/fec/rs_fec.py:255-266 | so an expiry drops exactly the groups whose first such shard came before the cutoff |
| Records.RsRemembers | hyperagg/fec/rs_fec.py:268-275 | 10000 closed groups are remembered; of 10001 the 5000 lowest are forgotten |
| Records.RsCounts | hyperagg/fec/rs_fec.py:224-253 | over every run the counter is the number of data packets recovered |
| CodeDistance.ParityDiffers | hyperagg/fec/rs_fec.py:25-68 | in every lawful code, data words that differ in one byte differ in every parity byte |
| CodeDistance.AnyWordDecodes | hyperagg/fec/rs_fec.py:105-125 | in every lawful code, with as many erasures as parity positions whatever is left decodes: any k bytes are part of a codeword |
| CodeDistance.AnyKShardsDecode | hyperagg/fec/rs_fec.py:89-129 | any k byte strings under distinct shard numbers decode to something |
| ColumnCodes.OneParityIsLawful | hyperagg/fec/rs_fec.py:25-68 | the law asked of the column code can be met: by the one-parity XOR code, for every number of data shards |
| ColumnCodes.OneParityShardIsXor | hyperagg/fec/rs_fec.py:31-68 | with that code the one Reed-Solomon parity shard is the XOR parity packet, for blocks of any lengths |
| ColumnCodes.InterpolationIsLawful | hyperagg/fec/rs_fec.py:25-129 | the law can be met for any number of data and parity shards, 256 in all, by polynomial interpolation over any field on the bytes whose addition is XOR |
| ColumnCodes.AgreeEverywhere | hyperagg/fec/rs_fec.py:119-125 | two polynomials with n coefficients that agree at n distinct points agree at every point: why any k shards determine the others |
| ColumnCodes.InterpolateAt | hyperagg/fec/rs_fec.py:60-63 | the interpolating polynomial passes through every given point |
| ColumnCodes.InterpolationRecovers | hyperagg/fec/rs_fec.py:105-125 | erase any p of the k + p positions of an encoded column: decoding returns the data |
| GaloisField.GF256IsField | hyperagg/fec/rs_fec.py:25-29 | with multiplication modulo x^8 + x^4 + x^3 + x^2 + 1 the bytes are such a field: multiplication is commutative, associative and distributive over XOR, and every byte but zero has an inverse, because the order of 2 is 255 |
| GaloisField.LawfulCodeExists | hyperagg/fec/rs_fec.py:25-68 | hence a lawful column code exists, with nothing assumed, for all k data and p parity shards, 256 in all |
| GaloisField.NoSmallerOrder | hyperagg/fec/rs_fec.py:25-29 | no power of 2 below the 255th is 1: a smaller order would divide 15, 51 or 85 |
| EndToEnd.LawfulConfigsExist | hyperagg/fec/fec_engine.py:29-61 | the hypothesis of the end-to-end theorem can be met for all group sizes up to 256 |
| ColumnCodes.InterpolationIsNested | hyperagg/fec/rs_fec.py:25-29 | interpolation codes of one length contain one another: a codeword is also that of its own first bytes, read as data of a longer code |
| ReorderBuffer.AdaptiveReorderBuffer.Insert | hyperagg/tunnel/reorder_buffer.py:111-132 | a duplicate changes only the late counters; a new packet is stored, the seen set pruned, and the consecutive run delivered |
| ReorderBuffer.AdaptiveReorderBuffer.IsDuplicate | hyperagg/tunnel/reorder_buffer.py:102-105 | below the next number, or seen |
| ReorderBuffer.AdaptiveReorderBuffer.CheckTimeouts | hyperagg/tunnel/reorder_buffer.py:134-158 | skips the gap in front of an aged packet and delivers the consecutive run behind it |
| ReorderBuffer.AdaptiveReorderBuffer.SkipExpiredGap | hyperagg/tunnel/reorder_buffer.py:138-156 | the skip loop: its while loop ends, gives up exactly the numbers below the lowest packet if that has aged, and keeps the record of given-up numbers bounded |
| ReorderBuffer.AdaptiveReorderBuffer.DeliverInOrder | hyperagg/tunnel/reorder_buffer.py:160-166 | delivers exactly the consecutive packets from the next number on |
| ReorderBuffer.FlushRangeKeepsHighest | hyperagg/tunnel/reorder_buffer.py:145-153 | of all numbers ever given up the highest are remembered, as many as the window has room for |
| ReorderBuffer.InvInsert | hyperagg/tunnel/reorder_buffer.py:111-132 | an insertion keeps the buffer invariant: next not buffered, buffer and stamps agree, seen above next is exactly the buffer |
| ReorderBuffer.InvCheck | hyperagg/tunnel/reorder_buffer.py:134-158 | so does a timeout check |
| ReorderBuffer.InvSkip | hyperagg/tunnel/reorder_buffer.py:138-156 | giving up a gap only moves the next number, up to the lowest packet buffered |
| ReorderRuns.Conservation | hyperagg/tunnel/reorder_buffer.py:102-166 | in every reachable state: below the next number every number was delivered or skipped and not both, accepted packets are delivered or buffered, and the output is the accepted packets below the next number in ascending order |
| ReorderRuns.BelowAscends | hyperagg/tunnel/reorder_buffer.py:160-166 | the output is strictly ascending, hence at most once each |
| ReorderRuns.BelowIsAccepted | hyperagg/tunnel/reorder_buffer.py:160-166 | a packet is in the output exactly if it was accepted and lies below the next number |
| ReorderRuns.BelowCount | hyperagg/tunnel/reorder_buffer.py:160-166 | accepted packets are as many as delivered and buffered ones together |
| ReorderRuns.DuplicateMeansSeenOrSkipped | hyperagg/tunnel/reorder_buffer.py:102-132 | after every run a number is a duplicate exactly if it was accepted or given up before: pruning the seen set never changes an answer |
| ReorderRuns.FirstArrivalWins | hyperagg/tunnel/reorder_buffer.py:111-132 | a number that arrived is accepted with its first payload, or was given up before |
| ReorderRuns.Confluence | hyperagg/tunnel/reorder_buffer.py:111-166 | without timeouts any arrival order with any repeats delivers exactly the first payloads of 0 to m - 1 in order, m the least number that never came, and buffers the rest |
| ReorderRuns.OrderDoesNotMatter | hyperagg/tunnel/reorder_buffer.py:111-166 | two orders with the same first payloads deliver the same stream and leave the same buffer |
| ReorderRuns.SkipsExactlyWhenAged | hyperagg/tunnel/reorder_buffer.py:134-156 | in any state a check gives numbers up exactly if the lowest packet buffered was stamped at least the timeout, in seconds, before the check, and then exactly the numbers in front of it |
| ReorderRuns.StampsAreArrivals | hyperagg/tunnel/reorder_buffer.py:111-132 | over every run a packet in the buffer is stamped with the time at which it was accepted |
| ReorderRuns.HeldIsWaiting | hyperagg/tunnel/reorder_buffer.py:111-166 | a number is in the buffer exactly if it was accepted and has not been delivered |
| ReorderRuns.GivesUpInTime | hyperagg/tunnel/reorder_buffer.py:134-156 | over every run with a fixed timeout, on the events alone: a check gives a number up if and only if the lowest packet waiting was accepted at least the timeout before; no gap is given up early |
| ReorderRuns.CheckReleases | hyperagg/tunnel/reorder_buffer.py:134-158 | a check with all packets aged releases at least the lowest, and the ascending listing of the buffer is its output followed by the listing of what is left |
| ReorderRuns.ChecksDrain | hyperagg/tunnel/reorder_buffer.py:134-158 | once all packets have aged, as many checks as there are packets, each with its own later reading of the clock, empty the buffer in ascending order |
| Records.HighestRemembered | hyperagg/tunnel/reorder_buffer.py:148-151 | over every run the numbers remembered as given up are the highest of all given up, as many as the window has room for |
| Records.RunCounts | hyperagg/tunnel/reorder_buffer.py:111-166 | over every run: how many packets were delivered, how many came after their number was given up and while it was remembered, and the last hundred outcomes |
| Records.ForgetsOnlyTheDelivered | hyperagg/tunnel/reorder_buffer.py:116-119 | beyond twice the window exactly the numbers below the next one are forgotten |
| Reassembly.Session.OnPacket | engine/tunnel_server.py:198-204 | from the arrival of a packet to the first await |
| Reassembly.Session.OnDelivered | engine/tunnel_server.py:201-205 | from the end of a delivery to the next await: the expected number advances only now |
| Reassembly.ExactWhenNoOverlap | engine/tunnel_server.py:198-205 | for every schedule of any number of handlers the delivered stream is 0, 1, 2, ... if and only if no packet arrives again while it is being delivered |
| Reassembly.ReassemblyIsExact | engine/tunnel_server.py:183-205 | with every number received at most once, whatever the interleaving: at most one handler is mid-delivery, the stream is 0, 1, 2, ... with the received payloads, and when no handler is mid-delivery and no delivery has failed it has reached the least number never received |
| Reassembly.NothingLost | engine/tunnel_server.py:198-205 | every number received is delivered, held, or the one whose delivery has begun |
| Reassembly.Session.OnFailure | engine/tunnel_server.py:201-205 | a delivery that raises leaves the expected number where it is, with its packet gone from the buffer |
| Reassembly.FailureStalls | engine/tunnel_server.py:198-205 | after a delivery that raised nothing is ever delivered again, with every number received at most once |
| Reassembly.ReinjectionRepeatsAndSkips | engine/tunnel_server.py:183-205 | a concrete schedule with one reinjected packet: packet 0 is delivered twice, the expected number advances twice, and packet 1 is stuck |
| Interleaver.PacketInterleaver.AddPacket | hyperagg/fec/adaptive_fec.py:185-208 | the packet joins its group or opens a new one; enough groups flush |
| Interleaver.PacketInterleaver.Emit | hyperagg/fec/adaptive_fec.py:216-225 | the two nested loops emit round by round, and the groups are emptied |
| Interleaver.PacketInterleaver.FlushAll | hyperagg/fec/adaptive_fec.py:210-214 | flushes, also when nothing is held |
| Interleaver.PacketInterleaver.ChangeDepth | hyperagg/fec/adaptive_fec.py:182-183 | sets the depth and flushes nothing |
| Interleaver.DepthIsPositive | hyperagg/fec/adaptive_fec.py:177-183 | a depth below one counts as one |
| Interleaver.HoldsWhatWaits | hyperagg/fec/adaptive_fec.py:185-208 | over every run the groups held are the packets since the last flush by id, ids in the order of their first packets, and the depth is the one set last, at least 1 |
| Interleaver.AddFlushesAtDepth | hyperagg/fec/adaptive_fec.py:204-208 | a packet flushes if and only if with it as many ids wait as the depth set last; then everything waiting comes out, interleaved by id in that order |
| Interleaver.OrderKeepingPermutation | hyperagg/fec/adaptive_fec.py:185-225 | whatever the depths, a run that ends with a flush has sent exactly the packets put in, each as often as it was put in, and those of each group in their order |
| Interleaver.LandsAt | hyperagg/fec/adaptive_fec.py:216-225 | packet i of group j lands at the position counted from the group lengths alone: the packets of the first i rounds, plus the earlier groups with more than i packets |
| Interleaver.PositionsAscend | hyperagg/fec/adaptive_fec.py:216-225 | positions ascend by round and then by group, so no two packets share one |
| Interleaver.EqualPositions | hyperagg/fec/adaptive_fec.py:216-225 | with m groups of equal length output t is packet t / m of group t % m |
| Interleaver.BurstIsShared | hyperagg/fec/adaptive_fec.py:168-175 | with m groups of equal length any b consecutive outputs contain at most b / m packets, rounded up, of one group |
| TokenBucket.TokenBucketPacer.ChangeRate | hyperagg/scheduler/bandwidth_estimator.py:76-82 | sets rate and burst; a first bucket starts full |
| TokenBucket.TokenBucketPacer.CanSend | hyperagg/scheduler/bandwidth_estimator.py:84-87 | answers by the tokens after a refill |
| TokenBucket.TokenBucketPacer.TryConsume | hyperagg/scheduler/bandwidth_estimator.py:89-99 | takes the tokens exactly if there are enough after a refill |
| TokenBucket.TokenBucketPacer.TimeUntilAvailable | hyperagg/scheduler/bandwidth_estimator.py:106-113 | the reported wait |
| TokenBucket.ConsumptionIsPaced | hyperagg/scheduler/bandwidth_estimator.py:66-127 | for any interleaving of operations on any paths, with no rate of the path above R: the bytes consumed on the path in any interval of length T are at most 0.05 R + R T |
| TokenBucket.WaitIsExact | hyperagg/scheduler/bandwidth_estimator.py:106-113 | with nothing changed meanwhile, at a later instant the packet can be sent if and only if it fits the burst and the reported wait is over |
| TokenBucket.FirstRateFillsBucket | hyperagg/scheduler/bandwidth_estimator.py:76-82 | after its first rate a path has 50 ms worth of tokens, then and whenever asked before anything is consumed |
| TokenBucket.LaterRateKeepsTokens | hyperagg/scheduler/bandwidth_estimator.py:76-82 | a later rate leaves the tokens, and from then on fills at the new rate up to the new burst |
| TokenBucket.ConsumedComesBack | hyperagg/scheduler/bandwidth_estimator.py:89-127 | what is consumed comes back at the rate, up to the burst |
| TokenBucket.WaitWithoutRate | hyperagg/scheduler/bandwidth_estimator.py:106-113 | without a positive rate the wait reported is the longest there is; for a path without any rate it is as at one byte a second |
| TokenBucket.OtherPathsKeep | hyperagg/scheduler/bandwidth_estimator.py:76-127 | no operation on one path changes the tokens of another at any time |
| TokenBucket.StartsOrStarves | hyperagg/scheduler/bandwidth_estimator.py:76-99 | a path starts to fill if and only if its first rate is set before any consumption of zero bytes; otherwise it never has a token again |
| TokenBucket.StarvedNeverSends | hyperagg/scheduler/bandwidth_estimator.py:84-127 | a starved path can send nothing but empty packets at any time |
| PathScheduler.Scheduler.UpdatePredictions | hyperagg/scheduler/path_scheduler.py:68-99 | alive paths, predictions and table after a refresh, including no alive path and a zero score total |
| PathScheduler.Scheduler.ScheduleAi | hyperagg/scheduler/path_scheduler.py:139-228 | the branches of the probabilistic mode |
| PathScheduler.Scheduler.SchedulePacket | hyperagg/scheduler/path_scheduler.py:101-137 | a decision in every mode, with or without a refresh first |
| PathScheduler.Scheduler.PickFromTable | hyperagg/scheduler/path_scheduler.py:286-292 | the table entry at the position, counting round and round |
| PathScheduler.DecisionsAreGood | hyperagg/scheduler/path_scheduler.py:101-255 | in every mode and reachable state the paths of a decision are alive and pairwise different, and there is one if and only if some path is alive |
| PathScheduler.SplitUsesTheBestTwo | hyperagg/scheduler/path_scheduler.py:170-208 | data and parity are split over the path most likely to deliver and the most likely of the others |
| Decisions.ReplicateUsesAll | hyperagg/scheduler/path_scheduler.py:247-255 | replicate mode sends on every path alive, in order, each time |
| Decisions.RealtimeUsesAll | hyperagg/scheduler/path_scheduler.py:139-228 | so does the probabilistic mode with a realtime packet |
| Decisions.ProbabilitiesDecide | hyperagg/scheduler/path_scheduler.py:139-228 | with two paths or more, p and q the two best probabilities: alone on the best path if p > 0.95 and p - q > 0.3, data and parity on a best two if else p > 0.7, by weight if else both exceed 0.5, else on all |
| Decisions.TableDecides | hyperagg/scheduler/path_scheduler.py:239-292 | weighted mode and unknown modes take the next entry of the table, round and round |
| Decisions.NothingWithoutPaths | hyperagg/scheduler/path_scheduler.py:101-137 | without a path alive there is no assignment in any mode, and nothing moves |
| Decisions.OnePathDecides | hyperagg/scheduler/path_scheduler.py:139-228 | with one path alive the probabilistic mode sends there |
| Decisions.RefreshTakesOver | hyperagg/scheduler/path_scheduler.py:68-99 | after a refresh exactly the paths reported alive are alive, with the predictions reported |
| Decisions.TableStartsOver | hyperagg/scheduler/path_scheduler.py:257-284 | a refresh puts the table back to its first entry, the first path alive; without any score it has one entry a path and the position stays |
| Decisions.SlotsArePercent | hyperagg/scheduler/path_scheduler.py:270-277 | a path has its percentage of all scores as slots, rounded down, but at least one |
| PathScheduler.TableSize | hyperagg/scheduler/path_scheduler.py:257-280 | with a positive score total the table has between n and n + 100 slots for n alive paths |
| PathScheduler.SlotsOfPath | hyperagg/scheduler/path_scheduler.py:274-277 | every alive path has exactly its computed number of slots, at least one |
| PathScheduler.FullWindow | hyperagg/scheduler/path_scheduler.py:286-292 | any L picks in a row, L the table length, choose each path as often as it stands in the table, from whatever position |
| PathScheduler.WeightedIsFair | hyperagg/scheduler/path_scheduler.py:239-292 | after a refresh and any number of decisions, L further decisions choose every alive path exactly its slot count |
| PathScheduler.RoundRobinIsFair | hyperagg/scheduler/path_scheduler.py:230-237 | any n decisions in a row choose each of n alive paths exactly once, whatever the counter |
| Congestion.AIMDController.RecordAck | hyperagg/scheduler/congestion_control.py:77-90 | slow start and congestion avoidance, with integer division by the window |
| Congestion.AIMDController.RecordSent | hyperagg/scheduler/congestion_control.py:73-75 | what is sent is in flight |
| Congestion.AIMDController.OnLoss | hyperagg/scheduler/congestion_control.py:118-131 | rate times beta but not below the minimum; window halved but not below two segments |
| Congestion.AIMDController.OnSuccess | hyperagg/scheduler/congestion_control.py:107-116 | one additive increase per 100 ms, capped |
| Congestion.AIMDController.UpdateEstimatedBw | hyperagg/scheduler/congestion_control.py:60-66 | a new estimate moves the increment, the minimum and the cap |
| Congestion.Run | hyperagg/scheduler/congestion_control.py:60-131 | the window is at least 2800 bytes in every reachable state, so no acknowledgement divides by zero |
| Congestion.RateIsCapped | hyperagg/scheduler/congestion_control.py:50-131 | the rate is at most 1.2 times the current bandwidth estimate in every reachable state |
| Congestion.LossesDecay | hyperagg/scheduler/congestion_control.py:118-131 | after n losses in a row the rate is beta to the n of what it was, but not below the minimum |
| Congestion.LossHalvesWindow | hyperagg/scheduler/congestion_control.py:118-131 | a loss halves the window, rounded down but leaving 2800 bytes, ends slow start and makes the window the threshold |
| Congestion.SlowStartAdds | hyperagg/scheduler/congestion_control.py:77-90 | in slow start the window grows by exactly what is acknowledged, and slow start ends with the acknowledgement that reaches the threshold |
| Congestion.AvoidanceAdds | hyperagg/scheduler/congestion_control.py:86-90 | in congestion avoidance an acknowledgement of n bytes adds 1400 n divided by the window, rounded down, but at least one byte |
| Congestion.SuccessesAdd | hyperagg/scheduler/congestion_control.py:107-116 | successes 100 ms apart or more add the increment each, up to the cap |
| Congestion.TooSoonAddsNothing | hyperagg/scheduler/congestion_control.py:107-116 | a success less than 100 ms after the last increase changes nothing |
| Congestion.EstimateSetsRange | hyperagg/scheduler/congestion_control.py:60-131 | after a new estimate: 5 percent of it a success, never above 120 percent, and losses never take the rate below 10 percent |
| Congestion.StartsInSlowStart | hyperagg/scheduler/congestion_control.py:31-50 | a new controller sends at 80 percent of the estimate, with 65536 bytes and slow start up to half the estimate |
| Congestion.InFlight | hyperagg/scheduler/congestion_control.py:73-80 | what is in flight is what was sent and not acknowledged, never less than nothing |
| Congestion.GrowthIsLinear | hyperagg/scheduler/congestion_control.py:86-90 | in congestion avoidance any acknowledgements of at most the starting window in total grow the window by at least one byte each, and by at most 1400 plus one byte each |
| Trend.SlopeOfLine | hyperagg/scheduler/path_predictor.py:52-61 | on three or more points of a line the slope is exact |
| Trend.SlopeSign | hyperagg/scheduler/path_predictor.py:52-61 | the slope of a non-increasing sequence of any length is at most zero, of a non-decreasing one at least zero |
| Trend.NoSlope | hyperagg/scheduler/path_predictor.py:52-61 | fewer than three points have no slope |
| Trend.MeanShifts | hyperagg/scheduler/path_predictor.py:34-38 | the mean of shifted values is shifted as much, and that of zeros is zero |
| Trend.TrendIsSound | hyperagg/scheduler/path_predictor.py:158-176 | falling times are never reported as degrading, nor rising ones as improving |
| Trend.TrendOfLine | hyperagg/scheduler/path_predictor.py:158-176 | steady growth is degrading if and only if it exceeds two percent of the mean per step, steady decline improving likewise |
| Trend.RecentAreTheLast | hyperagg/scheduler/path_predictor.py:158-176 | the verdict depends on the last twenty measurements and on nothing before them |
| Trend.TooLittleIsStable | hyperagg/scheduler/path_predictor.py:158-164 | fewer than ten measurements are always stable |

## Left out

- Encryption: modelled as off. With a key the client encrypts parity too, and the server does not decrypt parity.
- Sockets, TUN devices, the event loop and its suspension points in the newer tunnel: a callback is one atomic step with one
  clock reading; the channel is an arbitrary sequence of datagrams, each a prefix of a sent one or something ignored.
- Forged datagrams: a well-formed data or parity packet the client never sent is outside the channel model.
- Handshakes, keepalive and control handling, sessions, return traffic and per-path statistics: packets of these kinds are
  only recognised and passed over.
- Scheduler, tier budget, pacer and socket errors inside the client: their outcome for each copy is a parameter of the
  sending step (the plan), so the theorems hold for all of them. An attempt that is dropped before a packet is built is
  left out of the plan.
- Client and server read their configurations separately; the model gives both the same one.
- Client.RunNumbered: an exception other than a socket error leaves the global number to be used again by the next output
  (hyperagg/tunnel/client.py:425-428); in the model every output that is begun is numbered. The only such exception without
  a key is a header field out of range, the global number from the 2^32nd output on among them.
- A resumed session: the client starts one past the last saved global number with fresh group ids, so numbers given out
  after that save are used again (hyperagg/tunnel/client.py:164-174, hyperagg/tunnel/session.py:102-135). A run here starts
  from number 0 (`Client.Init`), and what a server that outlives the client makes of repeated numbers and group ids is not
  modelled.
- Tunnel.TunnelClient.SendPacket: when a header field overflows, the state from which the client goes on is not described.
- Copies.NumbersCount: asks that no copy goes out on an alternate path. Such a copy is numbered by the path it was built for
  and moves the counter of the path it goes out on (hyperagg/tunnel/client.py:344-424), so numbers of a path can repeat;
  `Copies.RunAccounted` says what they are on every run.
- The `flush` of the FEC encoders: the engine never calls it, and the indices of a flushed group include some never sent.
- In a configuration that does not tell the kinds apart, nothing is claimed of the single recoveries of a decoder that two
  kinds share in the run; those of the other decoders are covered.
- AtMostTwice.WrittenAtMostTwice: with fewer than two data packets to a parity packet it asks that recovered groups stay
  remembered. That some such condition is needed is shown on runs of the decoders (`Forgotten.XorOnceExactly`,
  `Forgotten.RsOnceExactly`), not of the server.
- Group sizes of zero: an encoder of size zero is not constructed (the configuration has at least one data packet a group).
- `update_mode` and `_resolve_mode`: a mode change is an arbitrary event between packets.
- The formula of `update_timeout`: in a run of the reorder buffer any timeout may be set between any two steps; the server
  never changes its own.
- The recorded original lengths in the FEC decoders: written and never read.
- Erasure positions are passed to the column code as a set, where the code passes a list.
- The column code of the library itself is not part of this model: any lawful one will do, and lawful ones are constructed
  for one parity shard (XOR) and for any number (interpolation over the field of 256 elements).
- The older server's probes, control messages and return traffic; what a delivery does with the data.
- `BurstDetector` and `AdaptiveFecSizer`: run lengths and thresholds that would only add easy members.
- Delivery probabilities and quality scores: real numbers given at each refresh; their formulas are not modelled.
- Reasons, statistics and decision times of the scheduler.
- PathScheduler.TableSize: asks for scores that are not negative, which the monitor's clamping ensures.
- Congestion.RateIsCapped: asks for a bandwidth that is not negative, beta at most 1 and a minimum ratio at most 1.2; the
  defaults are 0.5 and 0.1. No lower bound on the rate is claimed, since a new estimate can lift the minimum above it.
- Round-trip tracking and the bandwidth-delay product in the congestion controller, and the tier bandwidth manager.
- Rounding of floating-point numbers.
- The other components (monitoring, dashboards, AI, edge agent, simulators, session and QoS helpers).
