/** Length-prefixed framing over byte streams: two-byte lengths on the TCP transport
    (src/protocol/framing.py), four-byte lengths on the TLS control channel
    (src/protocol/tls_channel.py). */
module Framing {
  import opened Bytes
  import Data
  import Fragments

  const FRAME_SIZE := 2
  const TLS_HEADER_SIZE := 4

  /** A length header of h bytes and the packet. */
  function Frame(h: nat, packet: bytes): (r: bytes)
    requires |packet| < Limit(h)
    ensures |r| == h + |packet|
  {
    Pack(h, |packet|) + packet
  }

  ghost predicate Frameable(h: nat, packets: seq<bytes>) {
    forall i :: 0 <= i < |packets| ==> |packets[i]| < Limit(h)
  }

  /** All packets framed, one after the other. */
  function Frames(h: nat, packets: seq<bytes>): bytes
    requires Frameable(h, packets)
  {
    if packets == [] then [] else Frame(h, packets[0]) + Frames(h, packets[1..])
  }

  /** The next packet of a stream and what follows it; None if the stream ends before. */
  function Next(h: nat, stream: bytes): (r: Option<(bytes, bytes)>)
    ensures r.Some? && h > 0 ==> |r.value.1| < |stream|
  {
    if |stream| < h || |stream| - h < Unpack(stream[..h]) then None
    else
      var length := Unpack(stream[..h]);
      Some((stream[h..h + length], stream[h + length..]))
  }

  /** All packets a reader gets out of a stream before it ends. */
  function Packets(h: nat, stream: bytes): seq<bytes>
    requires h > 0
    decreases |stream|
  {
    match Next(h, stream)
    case None => []
    case Some((packet, rest)) => [packet] + Packets(h, rest)
  }

  lemma NextOfFrame(h: nat, packet: bytes, rest: bytes)
    requires |packet| < Limit(h)
    ensures Next(h, Frame(h, packet) + rest) == Some((packet, rest))
  {
    var stream := Frame(h, packet) + rest;
    assert stream[..h] == Pack(h, |packet|);
    UnpackPack(h, |packet|);
    assert stream[h..h + |packet|] == packet && stream[h + |packet|..] == rest;
  }

  lemma NextOfPartialFrame(h: nat, packet: bytes, n: nat)
    requires |packet| < Limit(h) && n < h + |packet|
    ensures Next(h, Frame(h, packet)[..n]) == None
  {
    var stream := Frame(h, packet)[..n];
    if n >= h {
      assert stream[..h] == Pack(h, |packet|);
      UnpackPack(h, |packet|);
    }
  }

  /** The number of packets that lie wholly in the first n bytes of their frames. */
  function Whole(h: nat, packets: seq<bytes>, n: nat): (k: nat)
    ensures k <= |packets|
  {
    if packets == [] || n < h + |packets[0]| then 0
    else 1 + Whole(h, packets[1..], n - h - |packets[0]|)
  }

  /** Whole is the largest such number: those frames fit, and one more does not. */
  lemma {:induction false} WholeIsLargest(h: nat, packets: seq<bytes>, n: nat)
    requires Frameable(h, packets)
    ensures var k := Whole(h, packets, n);
      && |Frames(h, packets[..k])| <= n
      && (k < |packets| ==> |Frames(h, packets[..k + 1])| > n)
  {
    var k := Whole(h, packets, n);
    if packets != [] {
      if n < h + |packets[0]| {
        assert packets[..k + 1][1..] == [];
      } else {
        WholeIsLargest(h, packets[1..], n - h - |packets[0]|);
        assert packets[..k][1..] == packets[1..][..k - 1];
        if k < |packets| {
          assert packets[..k + 1][1..] == packets[1..][..k];
        }
      }
    }
  }

  lemma FirstParses(h: nat, packet: bytes, rest: bytes, n: nat)
    requires h > 0 && |packet| < Limit(h) && h + |packet| <= n <= h + |packet| + |rest|
    ensures Packets(h, (Frame(h, packet) + rest)[..n]) == [packet] + Packets(h, rest[..n - h - |packet|])
  {
    var tail := rest[..n - h - |packet|];
    assert (Frame(h, packet) + rest)[..n] == Frame(h, packet) + tail;
    NextOfFrame(h, packet, tail);
  }

  lemma PartialParses(h: nat, packet: bytes, rest: bytes, n: nat)
    requires h > 0 && |packet| < Limit(h) && n < h + |packet|
    ensures Packets(h, (Frame(h, packet) + rest)[..n]) == []
  {
    assert (Frame(h, packet) + rest)[..n] == Frame(h, packet)[..n];
    NextOfPartialFrame(h, packet, n);
  }

  lemma TakeOneMore(packets: seq<bytes>, k: nat)
    requires packets != [] && k <= |packets| - 1
    ensures packets[..k + 1] == [packets[0]] + packets[1..][..k]
  {
  }

  /** However a stream of frames is cut off, the reader gets exactly the packets that are
      wholly in it: none partly, none merged, none out of order. */
  lemma {:induction false} PrefixParses(h: nat, packets: seq<bytes>, n: nat)
    requires h > 0 && Frameable(h, packets) && n <= |Frames(h, packets)|
    ensures Packets(h, Frames(h, packets)[..n]) == packets[..Whole(h, packets, n)]
  {
    if packets != [] {
      var m := n - h - |packets[0]|;
      assert Frames(h, packets) == Frame(h, packets[0]) + Frames(h, packets[1..]);
      if m < 0 {
        PartialParses(h, packets[0], Frames(h, packets[1..]), n);
      } else {
        FirstParses(h, packets[0], Frames(h, packets[1..]), n);
        PrefixParses(h, packets[1..], m);
        TakeOneMore(packets, Whole(h, packets[1..], m));
      }
    }
  }

  /** The complete stream gives all packets back. */
  lemma FramesRoundTrip(h: nat, packets: seq<bytes>)
    requires h > 0 && Frameable(h, packets)
    ensures Packets(h, Frames(h, packets)) == packets
  {
    var n := |Frames(h, packets)|;
    PrefixParses(h, packets, n);
    assert Frames(h, packets)[..n] == Frames(h, packets);
    AllWhole(h, packets);
  }

  lemma {:induction false} AllWhole(h: nat, packets: seq<bytes>)
    requires Frameable(h, packets)
    ensures Whole(h, packets, |Frames(h, packets)|) == |packets|
  {
    if packets != [] {
      AllWhole(h, packets[1..]);
    }
  }

  lemma {:induction false} FramesAppend(h: nat, packets: seq<bytes>, packet: bytes)
    requires Frameable(h, packets) && |packet| < Limit(h)
    ensures Frameable(h, packets + [packet])
    ensures Frames(h, packets + [packet]) == Frames(h, packets) + Frame(h, packet)
  {
    var all := packets + [packet];
    if packets == [] {
      assert all[1..] == [];
    } else {
      FramesAppend(h, packets[1..], packet);
      assert all[1..] == packets[1..] + [packet];
    }
  }

  /** frame_packet; None is the struct.error of a packet too long for its header. */
  function FramePacket(packet: bytes): Option<bytes> {
    if |packet| < Limit(FRAME_SIZE) then Some(Frame(FRAME_SIZE, packet)) else None
  }

  /** Over TCP: frame_packet takes every packet that encrypt makes, of any plaintext, and
      however the connection is cut, the peer reads the first of them whole and in order. */
  lemma WiresOverTcp(ch: Data.Channel, counter: nat, plain: bytes, nonces: nat -> Data.Nonce, n: nat)
    requires Data.Ideal(ch.aead) && Data.Encryptable(ch, counter, plain)
    ensures var wires := Data.Encrypt(ch, counter, plain, nonces).1.value;
      && Frameable(2, wires)
      && (forall i :: 0 <= i < |wires| ==> FramePacket(wires[i]).Some?)
      && (n <= |Frames(2, wires)| ==>
            Packets(2, Frames(2, wires)[..n]) == wires[..Whole(2, wires, n)])
  {
    var wires := Data.Encrypt(ch, counter, plain, nonces).1.value;
    Limits();
    forall i | 0 <= i < |wires|
      ensures |wires[i]| < Limit(2)
    {
      Fragments.EveryWireFits(ch, plain, counter + 1, nonces, i);
    }
    if n <= |Frames(FRAME_SIZE, wires)| {
      PrefixParses(FRAME_SIZE, wires, n);
    }
  }

  // ---- The TCP reader ----

  /** asyncio.StreamReader on a connection whose remaining bytes, up to EOF, are `rest`. */
  class StreamReader {
    var rest: bytes

    constructor (stream: bytes)
      ensures rest == stream
    {
      rest := stream;
    }

    /** None is IncompleteReadError, which leaves nothing to read. */
    method ReadExactly(n: nat) returns (data: Option<bytes>)
      modifies this
      ensures old(|rest|) >= n ==> data == Some(old(rest)[..n]) && rest == old(rest)[n..]
      ensures old(|rest|) < n ==> data == None && rest == []
    {
      if |rest| < n {
        rest := [];
        return None;
      }
      data := Some(rest[..n]);
      rest := rest[n..];
    }
  }

  method ReadFrame(reader: StreamReader) returns (packet: Option<bytes>)
    modifies reader
    ensures match Next(2, old(reader.rest))
      case None => packet == None && reader.rest == []
      case Some((p, rest)) => packet == Some(p) && reader.rest == rest
  {
    var raw := reader.ReadExactly(FRAME_SIZE);
    if raw.None? {
      return None;
    }
    var length := Unpack(raw.value);
    ghost var stream := old(reader.rest);
    packet := reader.ReadExactly(length);
    if FRAME_SIZE + length <= |stream| {
      assert stream[FRAME_SIZE..][..length] == stream[FRAME_SIZE..FRAME_SIZE + length];
      assert stream[FRAME_SIZE..][length..] == stream[FRAME_SIZE + length..];
    }
  }

  /** The read loop of a TCP connection, while the program runs: the packets it hands on. */
  method ReadLoop(reader: StreamReader) returns (packets: seq<bytes>)
    modifies reader
    ensures packets == Packets(2, old(reader.rest)) && reader.rest == []
  {
    packets := [];
    var running := true;
    while running
      invariant packets + (if running then Packets(FRAME_SIZE, reader.rest) else [])
        == Packets(FRAME_SIZE, old(reader.rest))
      invariant !running ==> reader.rest == []
      decreases running, |reader.rest|
    {
      ghost var before := reader.rest;
      var packet := ReadFrame(reader);
      if packet.None? {
        running := false;
      } else {
        packets := packets + [packet.value];
      }
    }
  }

  // ---- The TLS control channel ----

  /** A socket that will still deliver `rest` before the peer closes it, and the bytes `sent`
      into it so far. */
  class Socket {
    var rest: bytes
    var sent: bytes

    constructor (stream: bytes)
      ensures rest == stream && sent == []
    {
      rest := stream;
      sent := [];
    }

    /** At most n bytes, in chunks of any size; b"" only at the end. */
    method Recv(n: nat) returns (chunk: bytes)
      requires n > 0
      modifies this`rest
      ensures |chunk| <= n && old(rest) == chunk + rest
      ensures chunk == [] <==> old(rest) == []
    {
      if rest == [] {
        return [];
      }
      var k: nat :| 1 <= k <= n && k <= |rest|;
      chunk := rest[..k];
      rest := rest[k..];
    }
  }

  /** None is TLSChannelError: the peer closed the channel before n bytes arrived. */
  method RecvExact(sock: Socket, n: nat) returns (data: Option<bytes>)
    modifies sock`rest
    ensures old(|sock.rest|) >= n ==> data == Some(old(sock.rest)[..n]) && sock.rest == old(sock.rest)[n..]
    ensures old(|sock.rest|) < n ==> data == None && sock.rest == []
  {
    var buf: bytes := [];
    while |buf| < n
      invariant |buf| <= n && buf + sock.rest == old(sock.rest)
      decreases n - |buf|
    {
      ghost var before := sock.rest;
      var chunk := sock.Recv(n - |buf|);
      if chunk == [] {
        return None;
      }
      buf := buf + chunk;
    }
    return Some(buf);
  }

  method Recv(sock: Socket) returns (message: Option<bytes>)
    modifies sock`rest
    ensures match Next(4, old(sock.rest))
      case None => message == None && sock.rest == []
      case Some((m, rest)) => message == Some(m) && sock.rest == rest
  {
    var header := RecvExact(sock, TLS_HEADER_SIZE);
    if header.None? {
      return None;
    }
    var length := Unpack(header.value);
    ghost var stream := old(sock.rest);
    message := RecvExact(sock, length);
    if TLS_HEADER_SIZE + length <= |stream| {
      assert stream[TLS_HEADER_SIZE..][..length] == stream[TLS_HEADER_SIZE..TLS_HEADER_SIZE + length];
      assert stream[TLS_HEADER_SIZE..][length..] == stream[TLS_HEADER_SIZE + length..];
    }
  }

  /** Calling recv until it raises, as a reader of the channel does: for every chunking, the
      messages wholly in the stream, in order; all that were sent if the stream is complete. */
  method RecvAll(sock: Socket) returns (messages: seq<bytes>)
    modifies sock`rest
    ensures messages == Packets(4, old(sock.rest)) && sock.rest == []
    ensures forall sent :: Frameable(4, sent) && Frames(4, sent) == old(sock.rest) ==>
              messages == sent
  {
    messages := [];
    var open := true;
    while open
      invariant messages + (if open then Packets(TLS_HEADER_SIZE, sock.rest) else [])
        == Packets(TLS_HEADER_SIZE, old(sock.rest))
      invariant !open ==> sock.rest == []
      decreases open, |sock.rest|
    {
      ghost var before := sock.rest;
      var message := Recv(sock);
      if message.None? {
        open := false;
      } else {
        messages := messages + [message.value];
      }
    }
    forall sent | Frameable(TLS_HEADER_SIZE, sent) && Frames(TLS_HEADER_SIZE, sent) == old(sock.rest)
      ensures messages == sent
    {
      FramesRoundTrip(TLS_HEADER_SIZE, sent);
    }
  }

  /** The bytes sent so far grow by one frame; false is the struct.error of a message whose
      length does not fit the header. */
  method Send(sock: Socket, message: bytes) returns (ok: bool)
    modifies sock`sent
    ensures ok <==> |message| < Limit(4)
    ensures sock.sent == if ok then old(sock.sent) + Frame(4, message) else old(sock.sent)
  {
    Limits();
    ok := |message| < 0x1_0000_0000;
    if ok {
      sock.sent := sock.sent + Frame(TLS_HEADER_SIZE, message);
    }
  }
}
