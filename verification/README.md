# A verified model of the VPN's protocol core

This project models the protocol of a VPN written in Python: the data channel with its replay
window, the handshake, the server's session table with its address pool, the client's
connection, and the framing of byte streams. Code that updates objects is modelled by classes
with the same fields and loops; every method is proved against a function on values, and the
theorems about whole runs are proved about those functions.

| files | what they model |
|---|---|
| `Bits`, `Bytes`, `Packet`, `Wire` | bit operations on unbounded integers, big-endian fields, the packet header; the bytes of every packet, and what a receiver makes of any bytes |
| `Replay` | the anti-replay window, as a class and as a function, against the set of accepted ids |
| `Data`, `DataChannel` | encrypt, decrypt, cleanup: as functions, and as the class with its loops |
| `Fragments`, `Ambiguity`, `Numbering` | chunk arithmetic, sizes, round trips; datagrams taken for fragments; how packet numbers are used up |
| `Delivery`, `Ages`, `Expiry`, `Forgery`, `Completeness`, `Reassembly` | runs of a sender and a receiver over a network that loses, duplicates, reorders, corrupts and forges undecryptable packets; how long a group is kept; what an expired group and an unauthentic packet cost; what is delivered when there is neither |
| `Control`, `Sessions` | sessions and the six handshake handlers, as functions and as the class |
| `Handshake`, `Agreement`, `Fallback`, `Witness` | one client session and one server session over such a network, what every run guarantees, and what takes either side out of ESTABLISHED |
| `Routing` | the address pool |
| `Endpoint`, `ServerTable`, `Liveness`, `Sweeps`, `Server`, `Client`, `Connection` | the server's table and events, when it last heard a client, its stale sweeps, the server's objects; the client's object and runs of its connection |
| `Tunnel`, `Uplink`, `Downlink`, `Exchange` | one client against the whole server with all its other clients: handshake and data channel put together, up to what reaches the server's TUN device; what the client's decrypt returns |
| `Framing` | length-prefixed frames over TCP and over the TLS control channel |

## What the theorems assume

- The cipher is ideal in three respects (`Data.Ideal`): sizes, opening what was sealed, refusing
  other associated data. X25519 commutes and public keys have 32 bytes (`Handshake.Sound`).
  HKDF, signing, certificate parsing and checking are arbitrary functions that may fail. LZ4 is
  an arbitrary codec that decompresses what it compressed. `Fragments.IdealExists` and
  `Witness.CompletableExists` show that these assumptions can be met together with everything
  the handshake needs.
- The network may deliver to a receiver anything that does not authenticate, and any packet sent
  in that direction, as often and in whatever order it likes. Handshake packets come from the
  two honest sessions.
- A datagram of at most 1400 bytes starts with a byte below 0x80 or is empty. IPv4 and IPv6
  packets do (section 3.1 of RFC 791, section 3 of RFC 8200). Longer datagrams are arbitrary.
  `Ambiguity.NextDatagramExact` shows that the condition is exact, also in the middle of
  reassembly.
- Clocks, random draws and nonces are parameters. A function that raises returns `None`, and
  the state in which it raises is part of its contract.

## What is not as one might expect

These are facts of the code, kept as they are.

- A short datagram whose first byte is 0x80 or more is not delivered (`src/protocol/data.py:116`).
  It may be dropped, bytes that nobody sent may be handed out in its place
  (`Ambiguity.DeliversForeign`), or decrypt raises KeyError (`Ambiguity.RaisesKeyError`).
- The replay window moves before the packet is authenticated (`src/protocol/data.py:95`). A packet
  that does not open leaves the receiver alone exactly if its number was refused anyway; otherwise
  it burns that number and every number the window's size or more below it
  (`Forgery.UnopenedExact`), and messages with a burned number are never delivered
  (`Forgery.BurnedNeverDelivered`).
- A message of more packets than the window has places can fail even though every packet
  arrives: `Reassembly.AnyOrderIffWindowHolds` gives the exact condition.
- A message whose group expires is lost for good, because the fragments already seen stay refused
  (`Expiry.ExpiredNeverDelivered`). In a run in which no cleanup comes more than five seconds after
  the packet that opened a group and every accepted packet opens, a message is handed out exactly if the window accepted all its packets
  (`Completeness.DeliversExactly`).
- A receiver without LZ4 drops what a sender with LZ4 compressed; what was sent uncompressed it
  still reads (`Fragments.ReadWire`). The number of the dropped packet is used up all the same
  (`Forgery.UnopenedExact`).
- Packet numbers are 1, 2, ..., counter exactly when there is a cipher, no datagram takes more than
  255 packets and all packets together fit in 32 bits; a call that raises uses up one number
  (`Numbering.NumbersExact`).
- ESTABLISHED is not absorbing. The server leaves it exactly when the client's reset or hello
  arrives again, the client exactly when the server's reset does or when it starts again itself,
  and these packets exist whenever the state does (`Fallback.ServerStaysExactly`, `Fallback.ClientStaysExactly`,
  `Fallback.EstablishedCanFallBack`). Keys and data channels stay.
- A repeated reset also puts a live client under the handshake's 30 seconds: a sweep then removes
  it and frees its address however recently it was heard (`Sweeps.ResetThenSwept`).
- `IpPool.allocate` breaks the pool when it is called for a client that holds an address
  (`Routing.AllocateKeepsExactly`, `Routing.SecondAllocationLeaks`); the server never does that
  (`ServerTable.NeverAllocatesTwice`).
- A stale sweep never removes a session that is still idle (`ServerTable.SweepExact`).

## Model

Lemmas without a row are links in the proofs of those with one.

| member | source | states |
|---|---|---|
| Uplink.ServerHearsTheClient | src/server.py:355-359 | in every run of one client against the whole server, whatever its other clients, timers and handshake packets do, each datagram decrypt returns at the server for this client is the one the client read from its TUN device in one event, unchanged, and sent under the packet number it is returned under; no two returned datagrams have the same event or number, equal bytes or not; decrypt never raises |
| Downlink.ClientHearsTheSender | src/client.py:299-302 | in every run of a connection, on any bytes, with any sender that fits the channel the client builds, over a network that cannot forge: each datagram decrypt returns at the client is the plaintext of the encrypt call whose number it bears, no two have the same number, and decrypt never raises |
| Exchange.SomeRunDelivers | src/server.py:355-359 | whenever certificates, signatures and keys are good and the server's range is not empty, there is such a run in which the client gets the address that the server holds for it and sends any one-packet datagram that is not taken for a fragment, and the server delivers it if and only if it has LZ4 or the datagram was not compressed |
| Exchange.HandshakeTells | src/server.py:267-284 | an undisturbed handshake of good parties ends with one IP_ASSIGN packet, whose text, read as an address, is the one that the server then holds for the client, the first of its range |
| Uplink.RunFlows | src/client.py:208-218 | the data packets of every such run are a run of one sender and one receiver, with the client's counter and the receiving half in the server's table |
| Downlink.RunFlows | src/client.py:129-145 | the data packets and turns of every such run are a run of one sender and one receiver with a window of 64 |
| Uplink.FittingPair | src/server.py:343-349 | whichever data channels exist in such a run, they fit each other |
| Uplink.SendsExact | src/client.py:208-218 | every datagram in the history of sends was read by the client in one event, in this order, and bears the number after the client's counter at that moment |
| Tunnel.RunSimulates | src/server.py:303-359 | in every run of one client against the whole server, with any other clients, packets and timers, the client object and its entry in the server's table go through a run of the two-party handshake |
| Tunnel.TunnelKeys | src/server.py:339-349 | in every such run both ends hold the same key, and neither is established before both have it |
| Tunnel.TunnelEndToEnd | src/client.py:138-145 | once the client and the server's entry for it have built data channels, the two fit each other, and every run of traffic in either direction hands out only sent datagrams, under their own numbers, each encrypt call at most once, and raises nothing |
| Tunnel.TunnelReachable | src/client.py:123-146 | such a tunnel can be built whenever certificates, signatures and keys are good |
| Delivery.EndToEnd | src/protocol/data.py:61-172 | over every run of encrypt, decrypt and cleanup calls on a losing, duplicating, reordering network, every datagram handed out is the plaintext of the one encrypt call that began at the number it is handed out under, these numbers are distinct, so no call is handed out twice even among equal datagrams, and decrypt never raises |
| Completeness.DeliversExactly | src/protocol/data.py:81-143 | in every run in which no cleanup comes more than five seconds after the packet that opened a group still there, and every packet the window accepts opens, a message is handed out if and only if the window accepted all its packets, whatever else is sent, repeated, reordered or lost |
| Completeness.DeliveredWasAccepted | src/protocol/data.py:116-143 | in every run at all, only messages all of whose packets the window accepted are handed out |
| Delivery.GroupsArePartial | src/protocol/data.py:124-143 | between calls every group is a non-empty, incomplete part of the true chunks of the message starting at its id, with that message's total |
| Delivery.GroupIdsDistinct | src/protocol/data.py:122 | the number on a fragment less its index is its message's first number; two encrypt calls never share a group id, and no two packets a number |
| Ages.KeptFiveSeconds | src/protocol/data.py:124-171 | in every run, a cleanup at time t leaves a group, unchanged, if and only if t is at most five seconds after the arrival of the packet that opened it; it brings back no other and touches nothing else |
| Ages.OpenedBy | src/protocol/data.py:124-129 | every group in every run was opened by the arrival of one packet and still has the time of that |
| Forgery.UnopenedExact | src/protocol/data.py:95-105 | a packet that does not open leaves the receiver as it was exactly if its number would have been refused; otherwise the numbers refused from then on are, beyond those before, exactly its own and all that are the window's size or more below it |
| Forgery.UnopenedInRun | src/protocol/data.py:95-105 | the same in every run of sender and receiver |
| Forgery.BurnedNeverDelivered | src/protocol/data.py:95-105 | in every run and every continuation, a message with a number so burned, sent before or after, is not handed out: no output has its number |
| Expiry.ExpiredNeverDelivered | src/protocol/data.py:166-171 | a message for which a cleanup came more than five seconds after the packet that opened its group is not handed out afterwards, whatever arrives, however often: no output has its number |
| Reassembly.AnyOrderReassembles | src/protocol/data.py:116-143 | when all packets of a message no longer than the window arrive at a receiver that can decompress them, in any order with any duplicates, exactly the call that handles the last missing one returns the whole message, all others return nothing, and the group is gone |
| Reassembly.AnyOrderIffWindowHolds | src/protocol/replay.py:35-37 | every order of arrival delivers a message that the receiver can decompress if and only if it has no more packets than the window has places |
| Numbering.NumbersRise | src/protocol/data.py:61-79 | over any sequence of encrypt calls the packet numbers strictly rise, and packets and raised calls together make up the counter |
| Numbering.NumbersExact | src/protocol/data.py:61-79 | the packets are numbered exactly 1, 2, ..., counter if and only if the calls keep within limits a caller can check: a cipher, at most 255 packets a datagram, all packets together below 2^32; the counter is then the number of packets asked for |
| Numbering.RaisesExactly | src/protocol/data.py:44-74 | no call of a sequence raises if and only if it keeps within those limits |
| Numbering.NumbersOnSealed | src/protocol/data.py:70-76 | the packets of one call carry consecutive numbers as the receiver reads them |
| Fragments.ChunkSize | src/protocol/data.py:67-72 | every chunk of a datagram of more than 1400 bytes has 1400 bytes, but the last between 1 and 1400 |
| Fragments.OnePacketExact | src/protocol/data.py:63-64 | one packet, as it is, for a datagram of at most 1400 bytes and for no other |
| Fragments.JoinAll | src/protocol/data.py:140 | the chunks of a datagram, joined in index order, are the datagram |
| Fragments.EveryWireFits | src/protocol/data.py:43-79 | every packet of every encrypt call has at most 1445 bytes, compressed or not |
| Fragments.ReadWire | src/protocol/data.py:81-114 | a receiver with the same key and session id reads number and plaintext back from a sealed packet, or the number alone exactly if the sender compressed it and the receiver has no LZ4 |
| Fragments.WrongSessionDropped | src/protocol/data.py:99-105 | a receiver with the same key but another session id drops the packet |
| Fragments.SinglePacketRoundTrip | src/protocol/data.py:113-145 | a one-packet datagram that is empty or starts with a byte below 0x80 comes back from any receiver that can decompress it and whose window accepts it; from a receiver with no group for its number no other does, and what becomes of those is stated |
| Fragments.MisreadExact | src/protocol/data.py:116-143 | what decrypt makes of a one-packet datagram that starts with a byte of 0x80 or more, when its number belongs to no group: dropped, its tail handed out, or KeyError |
| Ambiguity.NextDatagramExact | src/protocol/data.py:116-143 | in every run, also in the middle of reassembly, the next one-packet datagram is delivered exactly if it is empty or starts with a byte below 0x80, and the receiver can decompress it |
| Ambiguity.DeliversForeign | src/protocol/data.py:139-142 | the first packet of a channel, sealed by a fitting sender, for which decrypt hands out bytes that nobody sent |
| Ambiguity.RaisesKeyError | src/protocol/data.py:139-140 | the first packet of a channel for which decrypt raises KeyError |
| Fragments.IdealExists | src/protocol/data.py:56 | the assumptions about the cipher can be met |
| DataChannels.DataChannel.constructor | src/protocol/data.py:34-41 | a new channel has the XOR session id, counter zero, no groups and a fresh window |
| DataChannels.DataChannel.Make | src/protocol/data.py:34-41 | the same, or the ValueError of a window outside 1 to 64 |
| DataChannels.DataChannel.Encrypt | src/protocol/data.py:61-79 | counter and packets after a call, and the counter left behind by a call that raises, with the receiving half untouched |
| DataChannels.DataChannel.EncryptFragments | src/protocol/data.py:66-76 | the loop seals chunk i with number start + i, and raises exactly without a cipher, above 255 packets, or when a number exceeds four bytes |
| DataChannels.DataChannel.Decrypt | src/protocol/data.py:81-145 | window, groups and result of every call, on any bytes |
| DataChannels.DataChannel.Process | src/protocol/data.py:113-145 | what is done with an opened plaintext, fragment or not |
| DataChannels.DataChannel.Reassemble | src/protocol/data.py:122-143 | the fragment table after a fragment, including the mismatched total and the missing index |
| DataChannels.DataChannel.JoinFragments | src/protocol/data.py:140 | the fragments in index order, or KeyError when one below the total is missing |
| DataChannels.DataChannel.StaleIds | src/protocol/data.py:168-169 | exactly the ids of the groups older than five seconds |
| DataChannels.DataChannel.CleanupFragments | src/protocol/data.py:166-171 | the loop leaves exactly the groups that are not stale, and the window alone |
| Replay.CheckAllRefines | src/protocol/replay.py:16-41 | after any sequence of checks the bitmap agrees with the set of accepted ids inside the window, and each check accepted exactly the ids that are not negative, new, and not the window size behind an accepted one |
| Replay.CheckRefines | src/protocol/replay.py:16-41 | the same for one check from any window that represents a set |
| Replay.AcceptedAtMostOnce | src/protocol/replay.py:35-41 | no id is ever accepted twice |
| Replay.TruncationEquivalence | src/protocol/replay.py:20-33 | the bitmap that is never truncated answers every sequence of calls like one cut to the window size that treats the first packet like any other |
| Replay.CheckMaskedAgrees | src/protocol/replay.py:20-33 | the same for one call |
| Replay.AdvanceBits | src/protocol/replay.py:25-31 | after an advance, each bit of the window is the bit that many places lower before |
| Replay.ReplayWindow.constructor | src/protocol/replay.py:12-14 | a new window has accepted nothing |
| Replay.ReplayWindow.Make | src/protocol/replay.py:9-14 | sizes outside 1 to 64 are refused |
| Replay.ReplayWindow.Check | src/protocol/replay.py:16-41 | true exactly for ids acceptable given the ids accepted so far, which are then recorded |
| Replay.ReplayWindow.Reset | src/protocol/replay.py:43-45 | nothing counts as accepted any more |
| Bits.BitShl | src/protocol/replay.py:30 | which bits a left shift sets |
| Bits.BitOr | src/protocol/replay.py:31 | which bits an or sets |
| Bits.AndShlOne | src/protocol/replay.py:38 | the test of one bit by masking |
| Bits.BitXor | src/protocol/data.py:30 | which bits an exclusive or sets |
| Bits.BitAnd | src/protocol/data.py:116 | which bits an and sets |
| Packet.DecodeEncode | src/protocol/packet.py:9-18 | decoding gives back opcode, session and payload of every encoded packet |
| Packet.EncodeDecode | src/protocol/packet.py:14-18 | every packet that decodes is the encoding of what it decodes to |
| Packet.SessionBytesOfNumber | src/protocol/control.py:127-135 | an eight-byte session id survives being sent as a number |
| Wire.PacketLayout | src/protocol/packet.py:9-11 | a packet is one byte of opcode, numbered as in the protocol, eight bytes of session number, and the payload |
| Wire.DecodeExact | src/protocol/packet.py:14-18 | any bytes decode exactly if there are nine of them and the first is one of the five opcodes, and what they then decode to |
| Wire.MessageLayout | src/protocol/packet.py:26-32 | a control message has its type in the tenth byte |
| Wire.ControlMessageExact | src/server.py:326-334 | which bytes are a control message, of which type |
| Wire.ServerRaisesExact | src/server.py:309-334 | the server's handlers raise exactly on a reset of fewer than nine bytes and on a control message of unknown type |
| Wire.ClientRaisesExact | src/client.py:268-290 | the same for the client, whose hello may also be too long and whose address may not decode |
| Wire.ResetsExact | src/protocol/control.py:125-139 | the bytes of the resets, and what a reset handler does with any bytes |
| Wire.ResetAckExact | src/protocol/control.py:142-156 | the same for the client's handler, down to every byte of its hello |
| Wire.ServerHelloExact | src/protocol/control.py:184-200 | every byte of the server's answer to any hello: its certificate, its public key, and its signature of the client's key and then its own, each after its length |
| Wire.ClientFinishedExact | src/protocol/control.py:243-249 | every byte of the client's answer: its signature of its own public key and then the server's |
| Wire.PackFieldExact | src/protocol/control.py:108-110 | a field has its length before it, high byte first, and cannot be packed from 65536 bytes on |
| Wire.DataLayout | src/protocol/data.py:43-59 | a data packet has its number in bytes 9 to 12, and the rest opens, with session id and number as associated data, to a byte 0 and the plaintext, or to a byte 1 and the compressed one exactly when that is shorter and the plaintext has more than 32 bytes |
| Wire.ReadExact | src/protocol/data.py:81-114 | any bytes at all: fewer than 42, or without an opcode, leave the receiver untouched; all others have a number, and open exactly to what follows their marker byte |
| Wire.RenumberedDropped | src/protocol/data.py:99-105 | a packet under another number than its own does not open |
| Fragments.FragmentLayout | src/protocol/data.py:70-75 | a fragment is the byte 0x80, the number of fragments, its index, and its chunk |
| Wire.FragmentExact | src/protocol/data.py:122-143 | what becomes of any fragment, honest or not: it removes a group with another total, is filed, completes the group, or raises and leaves the group as it is |
| Bytes.UnpackPack | src/protocol/packet.py:10 | a number that fits its field is read back |
| Bytes.PackUnpack | src/protocol/packet.py:17 | a field read as a number is written back |
| Bytes.UnpackFirst | src/protocol/packet.py:17 | the most significant byte comes first |
| Bytes.XorBytesCommutes | src/protocol/data.py:29-30 | the shared session id does not depend on which side computes it |
| Bytes.XorBytesBit | src/protocol/data.py:29-30 | every bit of the shared id is the exclusive or of the two ids' bits |
| Bytes.XorBytesCancels | src/protocol/data.py:29-30 | combined with one id the shared id gives the other |
| Bytes.LessIsBefore | src/protocol/control.py:162 | the lesser of two ids is a proper prefix of the other, or has the smaller byte where they first differ |
| Control.SaltSymmetric | src/protocol/control.py:159-162 | neither does the salt |
| Control.SaltIsInOrder | src/protocol/control.py:159-162 | the salt is the lesser id followed by the greater |
| Control.AcceptHelloExact | src/protocol/control.py:168-182 | on any hello: it is accepted exactly if the certificate parses and is issued by the CA, or neither side has one, and the exchange works; the key is then derived with the lesser id first, and otherwise no key is touched |
| Control.AnswersOrFails | src/protocol/control.py:165-253 | on any bytes the two hello handlers either answer with one packet and reach their state, or say nothing and end in ERROR |
| Control.FinishedExact | src/protocol/control.py:256-277 | on any bytes the server is established exactly if the peer showed no certificate or one that verifies the signature of the client's key and then its own, and otherwise ends in ERROR |
| Control.HandshakeRoundTrip | src/protocol/packet.py:26-32 | a handshake message decodes to its type, session id and body |
| Control.ServerHelloRoundTrip | src/protocol/control.py:192-196 | a SERVER_HELLO comes back with certificate, public key and signature, for all lengths below 65536 |
| Control.ClientHelloRoundTrip | src/protocol/control.py:151-154 | a CLIENT_HELLO comes back with certificate and public key, for all lengths below 65536 |
| Control.FinishedRoundTrip | src/protocol/control.py:244-247 | a CLIENT_FINISHED comes back with its signature, for all lengths below 65536 |
| Control.IpAssignRoundTrip | src/server.py:277-279 | an IP_ASSIGN packet comes back with its text, a keepalive with nothing |
| Control.UnpackPackedField | src/protocol/control.py:113-122 | a length-prefixed field is read back, and what follows it is left |
| Control.UnpackFieldExact | src/protocol/control.py:113-122 | any field on the wire: the bytes its length says, or all there are, and the rest |
| Control.UnpackPackedHello | src/protocol/control.py:108-122 | certificate and public key are read back, and what follows them is left |
| Sessions.Session.constructor | src/protocol/control.py:37-55 | a new session is idle and knows nothing of its peer |
| Sessions.Session.ClientStartHandshake | src/protocol/control.py:125-128 | the session and packets after the first reset |
| Sessions.Session.ServerHandleReset | src/protocol/control.py:131-139 | the session and packets after any packet handed to the handler, or that it raises |
| Sessions.Session.ClientHandleResetAck | src/protocol/control.py:142-156 | the same for the client, including a hello that cannot be packed |
| Sessions.Session.AcceptHello | src/protocol/control.py:168-182 | the fields a hello leaves behind at each point where accepting it can stop |
| Sessions.Session.ServerHandleClientHello | src/protocol/control.py:165-204 | the session and packets on every body, with ERROR on every failure |
| Sessions.Session.ClientHandleServerHello | src/protocol/control.py:207-253 | the session and packets on every body, with ERROR on every failure |
| Sessions.Session.ServerHandleClientFinished | src/protocol/control.py:256-277 | the session on every body, with ERROR on every failure |
| Agreement.KeyAgreement | src/protocol/control.py:179-182 | in every run every key derived on either side is one and the same: what HKDF makes of the exchanged secret and the two ids, the lesser first; it is derived with the true peer id, and a session is established only with it |
| Agreement.KeysNeverChange | src/protocol/control.py:125-277 | a derived key and a built data channel never change in the rest of the run |
| Fallback.ServerStaysExactly | src/protocol/control.py:131-204 | in every run an established server stays established in an event exactly unless the event delivers the client's reset or its hello |
| Fallback.ClientStaysExactly | src/protocol/control.py:142-253 | an established client stays established exactly unless the event delivers the server's reset or the client starts again |
| Fallback.EstablishedCanFallBack | src/protocol/control.py:136 | in every established state the packets that undo it have been sent, and any of them does undo it |
| Fallback.FinishedEstablishesAgain | src/protocol/control.py:256-272 | once the server has its data channel, the client's last packet exists and establishes the server again from any state |
| Agreement.ModeAgreement | src/protocol/control.py:99-105 | if either side is ever established, both run with certificates or both without; with them each holds the other's certificate, verified by its CA, and a verified signature over client key then server key |
| Agreement.EstablishmentExact | src/protocol/control.py:165-277 | some run establishes the server if and only if the exchange works and either neither party has credentials or each has a certificate that the other's CA issued and a signature of both public keys that it verifies, all below 65536 bytes; then some run builds both data channels |
| Agreement.CompletesFromAnywhere | src/protocol/control.py:125-277 | from every reachable state, whatever was lost, repeated or thrown back before, one undisturbed handshake of such parties establishes both and leaves both with data channels |
| Witness.CompletableExists | src/protocol/control.py:99-105 | the assumptions can be met, with certificates and without |
| Agreement.ChannelsMatch | src/server.py:343-349 | in every run, if both ends have built a data channel, the two hold the same key, derived as above, and the same session id, bit by bit the exclusive or of the two sessions' ids, so that with either id it gives the other |
| Agreement.TunnelSafe | src/protocol/data.py:61-172 | end-to-end safety holds in both directions between the channels that any run of the handshake builds: each output under the number of its own encrypt call, each call at most once, no exception |
| Handshake.RunKeeps | src/protocol/control.py:125-277 | in every run, each packet in existence implies what both sessions must already know, in spite of handlers that check no state |
| Handshake.ServerEvent | src/protocol/control.py:131-204 | any packet that can exist leaves the server with only true knowledge, and established only with everything verified |
| Handshake.ClientEvent | src/protocol/control.py:142-253 | the same for the client |
| Handshake.ServerOnHello | src/protocol/control.py:165-199 | an honest CLIENT_HELLO yields the one key and an honest SERVER_HELLO exactly if the certificate is good, the exchange works and the answer can be signed and packed; otherwise no packet and ERROR |
| Handshake.ClientOnServerHello | src/protocol/control.py:207-248 | an honest SERVER_HELLO establishes the client exactly if certificate and signature verify, the exchange works and the answer can be signed and packed; otherwise no packet and ERROR |
| Handshake.ServerOnFinished | src/protocol/control.py:256-272 | an honest CLIENT_FINISHED establishes the server exactly when its signature verifies |
| Routing.AllocateKeepsExactly | src/routing.py:27-38 | allocating keeps the pool's books in order exactly for a client without an address or an empty pool |
| Routing.SecondAllocationLeaks | src/routing.py:35-36 | after a second allocation the first address is never given back by releasing the client |
| Routing.ReleaseKeeps | src/routing.py:40-47 | releasing always keeps the books in order |
| Routing.PoolConserves | src/routing.py:23-25 | free addresses and holders add up to the size of the range |
| Routing.DottedReads | src/routing.py:34 | the text of an address, read as four decimal numbers separated by dots, most significant first, is the address |
| Routing.DottedDistinct | src/routing.py:34 | so different addresses have different texts |
| Routing.DefaultRangeExact | src/routing.py:13-21 | without a configured range the server has the first host address of the network and the pool exactly all others |
| Routing.IpPool.constructor | src/routing.py:11-25 | every address of the configured range, or of the subnet's default one, is free |
| Routing.IpPool.Allocate | src/routing.py:27-38 | the least free address is taken and entered in both dictionaries, or nothing changes |
| Routing.IpPool.LeastOf | src/routing.py:32 | the least element |
| Routing.IpPool.Release | src/routing.py:40-47 | the client's address is free again and in neither dictionary |
| ServerTable.IndexesAgree | src/server.py:222-353 | in every reachable state ip_to_addr is the inverse of the live clients' addresses, the pool's dictionaries are the same relation, and free and used addresses make up the range |
| ServerTable.StepKeeps | src/server.py:209-353 | every packet, connection, removal, sweep and timer keeps that agreement |
| ServerTable.RaisesExact | src/server.py:303-359 | handle_udp_data raises exactly on a reset of fewer than nine bytes, on a known client's control message of unknown type, and when decrypt raises on a data packet of an established client |
| ServerTable.NeverAllocatesTwice | src/server.py:343-350 | a client that still gets a data channel, and so an address, is not in the pool's books |
| ServerTable.AssignKeeps | src/server.py:267-284 | giving an address to a client without one keeps the agreement and overwrites nothing in the pool |
| ServerTable.AddressesAreDistinct | src/server.py:272-273 | no two clients share an address |
| ServerTable.NoAddressLeaks | src/server.py:228-229 | in every run free addresses and clients holding one add up to the size of the range |
| ServerTable.SweepExact | src/server.py:209-220 | a sweep removes exactly the established clients silent beyond the timeout and the unfinished handshakes older than 30 seconds, leaves the others unchanged, and returns exactly the removed clients' addresses |
| Liveness.BornBy | src/server.py:256-323 | in every run every entry of the table was made by one event, its session is as old as that, and last_seen is the time of the last non-empty packet since from its address that is no reset, or else of that event |
| Liveness.SweptByTheClock | src/server.py:209-220 | in every run a sweep removes a client exactly if it is established and that last packet is further back than the timeout, or its handshake has begun, is unfinished, and the event that made the entry is more than 30 seconds back |
| Liveness.SilentIsSwept | src/server.py:213-216 | while the clock does not go back, a sweep removes an established client exactly if all such packets, and the event that made the entry, are further back than the timeout |
| Sweeps.OnceEstablishedSwept | src/server.py:213-220 | in every run a client that was once established is removed by a sweep exactly when, being established, it was last heard longer ago than the timeout, or, being thrown back, its session is older than 30 seconds; its address is then free |
| Sweeps.ResetThenSwept | src/server.py:309-314 | after one more reset the next sweep removes a client exactly if its session is older than 30 seconds, even if it was heard a moment ago, and frees its address |
| ServerTable.AssignedIsTold | src/server.py:267-284 | in every run a client is told an address exactly when it is given one; the text in the packet, read as an address, is the client's address, under which the server finds it |
| ServerTable.ServerKeepsItsAddress | src/routing.py:13-23 | in every run no client holds the server's own address, unless a configured range has it |
| ServerTable.RemoveIsWithout | src/server.py:222-231 | removing a client takes out its entry, its address from both indexes and the pool's books, and nothing else |
| ServerTable.WithoutKeeps | src/server.py:219-220 | removing any set of clients keeps the agreement |
| Server.ClientSession.constructor | src/server.py:40-47 | a new entry has a session and no data channel or address |
| Server.VpnServer.constructor | src/server.py:59-72 | a server starts with empty tables and a full pool, if it has one |
| Server.VpnServer.GetOrCreateSession | src/server.py:256-265 | the table gains an idle client at a new address and keeps every other object as it was |
| Server.VpnServer.AssignIpToClient | src/server.py:267-284 | the object, ip_to_addr and the pool after an address was assigned, or none was left, and the IP_ASSIGN packet sent |
| Server.VpnServer.BuildData | src/server.py:344-349 | the data channel of an established client |
| Server.VpnServer.Welcome | src/server.py:350 | an address for a client whose data channel was just built, and only then |
| Server.VpnServer.RunHandler | src/server.py:326-341 | the session and the packets sent back after the dispatch of a control packet, whether a handler ran, and the ValueError of an unknown message type |
| Server.VpnServer.HandleControl | src/server.py:325-349 | session and data channel after a control packet, the packets sent back, and whether it raises |
| Server.VpnServer.HandleData | src/server.py:355-359 | the receiving half after a data packet, only on a ready client |
| Server.VpnServer.ReceiveFrom | src/server.py:323-359 | the whole client object after any packet but a reset, the packets sent back and what decrypt returned |
| Server.VpnServer.ReceiveKnown | src/server.py:319-359 | no other client, index or pool entry changes meanwhile |
| Server.VpnServer.HandleKnown | src/server.py:319-359 | the whole table after such a packet, address assignment included |
| Server.VpnServer.ResetSession | src/server.py:311-313 | the session of a known client after its reset, and nothing else |
| Server.VpnServer.HandleReset | src/server.py:309-314 | the whole table after a reset from any address, and the packets sent back |
| Server.VpnServer.HandleUdpData | src/server.py:303-359 | the whole table after any bytes from any address, the handshake packets and the IP_ASSIGN packet sent back, what decrypt returned, and whether the call raises |
| Server.VpnServer.RemoveClient | src/server.py:222-231 | the whole table after a removal |
| Server.VpnServer.FindStale | src/server.py:212-218 | exactly the addresses the sweep has to remove |
| Server.VpnServer.LooksStale | src/server.py:214-218 | the two conditions of the sweep |
| Server.VpnServer.CleanupStale | src/server.py:209-220 | the loop of removals comes to removing the whole set at once |
| Server.VpnServer.ExpireAll | src/server.py:152-154 | every client's stale groups are gone and nothing else changed |
| Server.VpnServer.Perform | src/server.py:149-155 | every event on the objects is one step of the table, and keeps all indexes in agreement |
| Client.VpnClient.constructor | src/client.py:65-70 | a connection starts with a new session and no data channel |
| Client.VpnClient.RunHandler | src/client.py:268-297 | session, assigned address, packets sent, keepalive answer and exception after any packet but a data packet |
| Client.VpnClient.HandleUdpData | src/client.py:259-302 | session, address, receiving half, packets and keepalive answer sent, and exception after any bytes |
| Client.VpnClient.Turn | src/client.py:129-157 | the data channel is built in the first turn that finds the session established, groups expire in every turn, and whether the client gives up |
| Client.VpnClient.OnTunReadable | src/client.py:208-218 | nothing is sent before the client has a data channel and a non-empty address; then counter and packets, or that encrypt raises |
| Connection.SendsExactly | src/client.py:208-218 | in every run of a connection on any bytes, a datagram is sent, or raises, exactly if it is not empty, some turn of the loop found the session established, and the last address packet told the client a text that is not empty; otherwise nothing changes |
| Connection.ToldExact | src/client.py:287-290 | in every such run the client's address is the text of the last address packet whose text decodes |
| Connection.BuiltExact | src/client.py:138-145 | the data channel exists exactly if some turn of the loop found the session established |
| Connection.GivesUpExactly | src/client.py:147-157 | a turn gives up exactly if this or an earlier one found the session established and the last non-empty packet, or else the creation, is further back than the timeout |
| Connection.TurnExpires | src/client.py:130-131 | a turn leaves exactly the groups that are not more than five seconds old, and the window and the counter |
| Connection.EchoExact | src/client.py:291-294 | a keepalive, and nothing else, is answered, with one keepalive of the client's own |
| Connection.RaisesExact | src/client.py:259-302 | a packet raises at the client exactly if it is a reset too short to decode or whose hello cannot be packed, a control message of unknown type, an address that does not decode, or a data packet on which decrypt raises |
| Framing.PrefixParses | src/protocol/framing.py:8-21 | from every prefix of a stream of frames the reader gets exactly the packets wholly inside it, in order |
| Framing.WholeIsLargest | src/protocol/framing.py:12-21 | these are all the packets whose frames fit in the prefix |
| Framing.FramesRoundTrip | src/protocol/tls_channel.py:61-69 | the complete stream gives all messages back, for either header |
| Framing.FramesAppend | src/protocol/tls_channel.py:61-64 | what one more send adds to the stream |
| Framing.WiresOverTcp | src/protocol/framing.py:8-9 | every packet that encrypt makes can be framed, and a TCP stream of them, cut anywhere, yields the first of them whole |
| Framing.StreamReader.ReadExactly | src/protocol/framing.py:14-19 | the next n bytes, or nothing and the end of the stream |
| Framing.ReadFrame | src/protocol/framing.py:12-21 | the next packet and the rest of the stream, or nothing and the end |
| Framing.ReadLoop | src/server.py:293-297 | the loop yields all packets of the stream and stops |
| Framing.Socket.Recv | src/protocol/tls_channel.py:75 | a chunk of any size from 1 to n, empty only at the end |
| Framing.RecvExact | src/protocol/tls_channel.py:71-81 | for every chunking, the next n bytes, or an error if the peer closed before |
| Framing.Recv | src/protocol/tls_channel.py:66-69 | for every chunking, the next message and the rest of the stream, or an error if it is cut |
| Framing.RecvAll | src/protocol/tls_channel.py:66-81 | for every chunking, repeated receiving yields the messages wholly in the stream, in order, and all that were sent if it is complete |
| Framing.Send | src/protocol/tls_channel.py:61-64 | the stream grows by one frame, or the message is too long for its header |

## Left out

- Real cryptography (`src/crypto/`): see the assumptions above; nothing is said about secrecy.
- Reflection of a data packet to its own sender: both directions share one key, and the theorems cover packets sent in the receiver's direction and packets that do not authenticate.
- Adversarial handshake messages: the two sessions are honest and the network only loses, duplicates and reorders their packets; other clients of the server are arbitrary.
- A client that connects again with a new session id from the same address: the server keeps the old data channel (`src/server.py:343`). Tunnel excludes it; the theorems about the table and the pool cover it.
- Handshake liveness: nothing is retransmitted (`src/client.py:154`). `Agreement.CompletesFromAnywhere` is about a handshake that is undisturbed from some point on.
- The client's reconnection loop and what follows its giving up: a run of the client ends there.
- The writes to the TUN devices themselves: an empty datagram that decrypt returns is not written (`src/server.py:358`).
- The server's keepalive timer (`src/server.py:198-207`): the packets it sends arrive at the client as arbitrary neutral packets, and the client's answer is modelled.
- What the client does with its address beside storing its text: interface, routes, privileges (`src/client.py:225-257`).
- Which bytes decode as UTF-8 is a parameter; client ids are the clients' network addresses, and address texts are the texts of their numbers.
- Parsing of subnets and ranges: a pool is created from the two ends of its network and, if configured, of its range.
- Session fields that nothing reads (`last_rx`, `last_tx`, `assigned_ip`) and the TCP writers.
- DataChannels.DataChannel.constructor: an own id of other than eight bytes, which no session has (`src/protocol/control.py:38`); windows outside 1 to 64 are refused by Make.
- ACK packets: encoded by a function nobody calls, never handled.
- TUN devices, `ip` and `iptables`, logging, status files, asyncio, TLS contexts, privileges, configuration parsing, netmasks.
- Sending from the server's TUN: `_ipv4_dest` reads bytes ihl+4 to ihl+8 (`src/server.py:383`), and the packets are handed to a coroutine that is never awaited (`src/server.py:254`). No theorem is stated about it.
- The state after shutdown, which clears the tables but not the pool (`src/server.py:171-181`).
- Unreadable key and certificate files: credentials are values.
- Framing.RecvExact: an OSError of the socket and a close by the peer are one error, as both raise TLSChannelError.
- `TLSControlChannel.exchange_data_key`: one send and one recv.
- DataChannels.DataChannel.Reassemble: a group is a value in the fragments dictionary that is replaced, not an object updated through an alias; nothing else refers to it.
