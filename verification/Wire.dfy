/** Packet framing (src/util/communication.c and communication.h).
 *
 *  A `Packet` has a four-byte type, a two-byte length and then the payload, but
 *  `sizeof(Packet)` is eight: a message is a six-byte header, the payload and two bytes
 *  more, which are zero because the sender allocates with calloc.  Words are stored
 *  lowest byte first. */
module Wire {
  import opened Bytes
  import opened Seqs

  const PACKET_DATA: Word32 := 0
  const PACKET_SEND: Word32 := 1
  const PACKET_DELETE: Word32 := 4
  const PACKET_REPLICA_MSG: Word32 := 6
  const PACKET_CONNECTION_CLOSED: Word32 := 7

  /** `sizeof(Packet)`, and where its payload starts. */
  const PACKET_SIZE := 8
  const PAYLOAD_OFFSET := 6

  datatype Packet = Packet(kind: Word32, payload: seq<byte>)

  /** The length of a payload is a 16-bit word. */
  predicate Sendable(p: Packet) {
    |p.payload| < 0x1_0000
  }

  /** `create_packet`: the length argument is a 16-bit parameter, so a longer one is cut. */
  function CreatePacket(kind: Word32, data: seq<byte>): (p: Packet)
    ensures Sendable(p)
    ensures |data| < 0x1_0000 ==> p == Packet(kind, data)
    ensures p.kind == kind && p.payload <= data && |p.payload| == |data| % 65536
  {
    Packet(kind, data[..|data| % 0x1_0000])
  }

  // ------------------------------------------------------------------ words

  /** n in k bytes, lowest first; what does not fit is dropped. */
  function Word(n: nat, k: nat): (s: seq<byte>)
    ensures |s| == k
    decreases k
  {
    if k == 0 then [] else [n % 0x100] + Word(n / 0x100, k - 1)
  }

  function Number(s: seq<byte>): nat {
    if s == [] then 0 else s[0] + 0x100 * Number(s[1..])
  }

  function Pow256(k: nat): nat {
    if k == 0 then 1 else 0x100 * Pow256(k - 1)
  }

  lemma {:induction false} NumberOfWord(n: nat, k: nat)
    requires n < Pow256(k)
    ensures Number(Word(n, k)) == n
    decreases k
  {
    if k > 0 {
      NumberOfWord(n / 0x100, k - 1);
      assert Word(n, k)[1..] == Word(n / 0x100, k - 1);
    }
  }

  // ------------------------------------------------------------------ frames

  /** The bytes `send_packet` writes. */
  function Encode(p: Packet): (s: seq<byte>)
    requires Sendable(p)
    ensures |s| == PACKET_SIZE + |p.payload|
  {
    Word(p.kind, 4) + Word(|p.payload|, 2) + p.payload + [0, 0]
  }

  /** What the receiver makes of a buffer. */
  function Kind(buffer: seq<byte>): nat
    requires |buffer| >= PACKET_SIZE
  {
    Number(buffer[..4])
  }

  function Length(buffer: seq<byte>): nat
    requires |buffer| >= PACKET_SIZE
  {
    Number(buffer[4..6])
  }

  function Payload(buffer: seq<byte>): seq<byte>
    requires |buffer| >= PACKET_SIZE && |buffer| == PACKET_SIZE + Length(buffer)
  {
    buffer[PAYLOAD_OFFSET..PAYLOAD_OFFSET + Length(buffer)]
  }

  /** A buffer holding a whole packet. */
  predicate Whole(buffer: seq<byte>) {
    |buffer| >= PACKET_SIZE && |buffer| == PACKET_SIZE + Length(buffer)
  }

  /** The number in bytes i and i + 1, lowest first, as the machine stores it. */
  function TwoBytes(s: seq<byte>, i: nat): int
    requires i + 2 <= |s|
  {
    s[i] as int + 256 * s[i + 1] as int
  }

  /** Where everything is in a frame: a type of four bytes and a length of two, lowest byte
   *  first, the payload from offset six, and two zero bytes. */
  lemma FrameLayout(p: Packet)
    requires Sendable(p)
    ensures var s, n := Encode(p), |p.payload|;
            && |s| == n + 8 && s[6..6 + n] == p.payload && s[6 + n..] == [0, 0]
            && TwoBytes(s, 0) + 65536 * TwoBytes(s, 2) == p.kind && TwoBytes(s, 4) == n
  {
    var s := Encode(p);
    FourBytes(p.kind);
    LowBytes(|p.payload|, 2);
    assert s[..4] == Word(p.kind, 4) && s[4..6] == Word(|p.payload|, 2);
    assert s[0] == s[..4][0] && s[1] == s[..4][1] && s[2] == s[..4][2] && s[3] == s[..4][3];
    assert s[4] == s[4..6][0] && s[5] == s[4..6][1];
  }

  lemma LowBytes(n: nat, k: nat)
    requires k >= 2
    ensures TwoBytes(Word(n, k), 0) == n % 65536 && Word(n, k)[2..] == Word(n / 65536, k - 2)
  {
    TwoDigits(n);
    var n1, w := n / 0x100, Word(n / 65536, k - 2);
    assert Word(n1, k - 1) == [n1 % 0x100] + w;
    assert Word(n, k) == [n % 0x100] + ([n1 % 0x100] + w);
  }

  lemma TwoDigits(n: nat)
    ensures n / 0x100 / 0x100 == n / 65536 && n % 0x100 + 256 * (n / 0x100 % 0x100) == n % 65536
  {
  }

  lemma FourBytes(n: Word32)
    ensures TwoBytes(Word(n, 4), 0) + 65536 * TwoBytes(Word(n, 4), 2) == n
  {
    var s := Word(n, 4);
    LowBytes(n, 4);
    LowBytes(n / 65536, 2);
    assert s[2..][0] == s[2] && s[2..][1] == s[3];
  }

  lemma EncodeParts(p: Packet)
    requires Sendable(p)
    ensures Whole(Encode(p)) && Kind(Encode(p)) == p.kind && Payload(Encode(p)) == p.payload
    ensures Encode(p)[PAYLOAD_OFFSET + |p.payload|..] == [0, 0]
  {
    var s := Encode(p);
    assert s[..4] == Word(p.kind, 4) && s[4..6] == Word(|p.payload|, 2);
    assert Pow256(4) == 0x1_0000_0000 && Pow256(2) == 0x1_0000;
    NumberOfWord(p.kind, 4);
    NumberOfWord(|p.payload|, 2);
  }

  /** How many bytes of the stream the next packet takes, if all of them are there. */
  function NextFrame(stream: seq<byte>): (n: Option<nat>)
    ensures n.Some? ==> PACKET_SIZE <= n.value <= |stream|
  {
    if |stream| < PACKET_SIZE then None
    else
      var n := PACKET_SIZE + Number(stream[4..6]);
      if |stream| < n then None else Some(n)
  }

  /** What `read_packet` returns when the connection ends first. */
  function ClosedBuffer(): (s: seq<byte>)
    ensures Whole(s) && Kind(s) == PACKET_CONNECTION_CLOSED && Payload(s) == []
  {
    EncodeParts(Packet(PACKET_CONNECTION_CLOSED, []));
    Encode(Packet(PACKET_CONNECTION_CLOSED, []))
  }

  /** The buffer of the next packet and the rest of the stream. */
  function TakePacket(stream: seq<byte>): (r: (seq<byte>, seq<byte>))
    ensures Whole(r.0)
  {
    match NextFrame(stream)
    case None => (ClosedBuffer(), [])
    case Some(n) =>
      assert stream[..n][4..6] == stream[4..6];
      (stream[..n], stream[n..])
  }

  lemma NumberOfTwo(s: seq<byte>)
    requires |s| == 2
    ensures Number(s) == TwoBytes(s, 0)
  {
    assert s[1..][0] == s[1] && s[1..][1..] == [];
    assert Number([]) == 0 && Number(s[1..]) == s[1];
  }

  lemma ClosedLayout()
    ensures ClosedBuffer() == [7, 0, 0, 0, 0, 0, 0, 0]
  {
    assert Word(0, 1) == [0] && Word(0, 2) == [0, 0] && Word(0, 3) == [0, 0, 0];
    assert Word(7, 4) == [7, 0, 0, 0];
  }

  /** A packet takes eight bytes and its length; a stream that ends before is a closed one. */
  lemma HowMuchIsTaken(stream: seq<byte>)
    ensures TakePacket(stream) ==
            if |stream| >= 8 && |stream| >= 8 + TwoBytes(stream, 4)
            then (stream[..8 + TwoBytes(stream, 4)], stream[8 + TwoBytes(stream, 4)..])
            else ([7, 0, 0, 0, 0, 0, 0, 0], [])
  {
    ClosedLayout();
    if |stream| >= 8 { NumberOfTwo(stream[4..6]); }
  }

  /** A reader takes exactly the bytes of the packet that was sent. */
  lemma TakeEncoded(p: Packet, rest: seq<byte>)
    requires Sendable(p)
    ensures TakePacket(Encode(p) + rest) == (Encode(p), rest)
    ensures NextFrame(Encode(p) + rest) == Some(PACKET_SIZE + |p.payload|)
  {
    EncodeParts(p);
    var stream := Encode(p) + rest;
    assert stream[4..6] == Encode(p)[4..6];
    assert stream[..|Encode(p)|] == Encode(p) && stream[|Encode(p)|..] == rest;
  }

  predicate AllSendable(ps: seq<Packet>) {
    forall p :: p in ps ==> Sendable(p)
  }

  function EncodeAll(ps: seq<Packet>): seq<byte>
    requires AllSendable(ps)
  {
    if ps == [] then [] else Encode(ps[0]) + EncodeAll(ps[1..])
  }

  lemma {:induction false} EncodeAllConcat(a: seq<Packet>, b: seq<Packet>)
    requires AllSendable(a) && AllSendable(b)
    ensures AllSendable(a + b) && EncodeAll(a + b) == EncodeAll(a) + EncodeAll(b)
  {
    if a == [] {
      assert a + b == b;
    } else {
      assert (a + b)[1..] == a[1..] + b;
      EncodeAllConcat(a[1..], b);
    }
  }

  /** n packets taken from the stream, one after the other. */
  function TakePackets(stream: seq<byte>, n: nat): (r: (seq<seq<byte>>, seq<byte>))
    ensures |r.0| == n && forall i :: 0 <= i < n ==> Whole(r.0[i])
    decreases n
  {
    if n == 0 then ([], stream)
    else
      var (buffer, rest) := TakePacket(stream);
      var (more, end) := TakePackets(rest, n - 1);
      ([buffer] + more, end)
  }

  function Buffers(ps: seq<Packet>): (r: seq<seq<byte>>)
    requires AllSendable(ps)
    ensures |r| == |ps| && forall i :: 0 <= i < |ps| ==> r[i] == Encode(ps[i])
  {
    if ps == [] then [] else [Encode(ps[0])] + Buffers(ps[1..])
  }

  lemma {:induction false} TakeAllEncoded(ps: seq<Packet>, rest: seq<byte>)
    requires AllSendable(ps)
    ensures TakePackets(EncodeAll(ps) + rest, |ps|) == (Buffers(ps), rest)
  {
    if ps == [] {
      assert [] + rest == rest;
    } else {
      var later := EncodeAll(ps[1..]) + rest;
      assert EncodeAll(ps) + rest == Encode(ps[0]) + later;
      TakeEncoded(ps[0], later);
      TakeAllEncoded(ps[1..], rest);
    }
  }

  /** Framing round trip: whatever follows them, the packets come back one by one with
   *  their type and payload, each payload followed by two zero bytes. */
  lemma FramingRoundTrip(ps: seq<Packet>, rest: seq<byte>)
    requires AllSendable(ps)
    ensures var (buffers, end) := TakePackets(EncodeAll(ps) + rest, |ps|);
            && end == rest && |buffers| == |ps|
            && forall i :: 0 <= i < |ps| ==>
                 && Kind(buffers[i]) == ps[i].kind && Payload(buffers[i]) == ps[i].payload
                 && |buffers[i]| == PACKET_SIZE + |ps[i].payload|
                 && buffers[i][PAYLOAD_OFFSET + |ps[i].payload|..] == [0, 0]
  {
    TakeAllEncoded(ps, rest);
    forall i | 0 <= i < |ps| ensures Whole(Encode(ps[i])) && Kind(Encode(ps[i])) == ps[i].kind
                                     && Payload(Encode(ps[i])) == ps[i].payload
                                     && Encode(ps[i])[PAYLOAD_OFFSET + |ps[i].payload|..] == [0, 0]
    {
      EncodeParts(ps[i]);
    }
  }

  // ------------------------------------------------------------------ sockets

  /** One end of a connection: the bytes the peer has sent and will send before it closes,
   *  and the bytes sent to the peer. */
  class Socket {
    var incoming: seq<byte>
    var outgoing: seq<byte>

    constructor (incoming: seq<byte>)
      ensures this.incoming == incoming && outgoing == []
    {
      this.incoming, outgoing := incoming, [];
    }

    /** `read`: a non-empty piece as long as the peer has something to say. */
    method Read(max: nat) returns (chunk: seq<byte>)
      requires max > 0
      modifies `incoming
      ensures old(incoming) == chunk + incoming && |chunk| <= max
      ensures chunk == [] <==> old(incoming) == []
    {
      if incoming == [] {
        return [];
      }
      var n :| 1 <= n <= max && n <= |incoming|;
      chunk := incoming[..n];
      incoming := incoming[n..];
    }

    /** `send` of a whole packet. */
    method Send(p: Packet)
      requires Sendable(p)
      modifies `outgoing
      ensures outgoing == old(outgoing) + Encode(p)
    {
      outgoing := outgoing + Encode(p);
    }
  }

  /** memcpy of `chunk` to position `at`. */
  method CopyInto(buffer: array<byte>, at: nat, chunk: seq<byte>)
    requires at + |chunk| <= buffer.Length
    modifies buffer
    ensures buffer[..at] == old(buffer[..at])
    ensures buffer[at..at + |chunk|] == chunk
  {
    for i := 0 to |chunk|
      invariant buffer[..at] == old(buffer[..at])
      invariant buffer[at..at + i] == chunk[..i]
    {
      buffer[at + i] := chunk[i];
    }
  }

  /** One of the two loops of `read_packet`: fill the buffer from `start` on, over as many
   *  short reads as it takes, or find the connection closed. */
  method Fill(socket: Socket, buffer: array<byte>, start: nat) returns (complete: bool)
    requires start <= buffer.Length
    modifies socket`incoming, buffer
    ensures buffer[..start] == old(buffer[..start])
    ensures complete <==> |old(socket.incoming)| >= buffer.Length - start
    ensures complete ==> buffer[start..] + socket.incoming == old(socket.incoming)
    ensures !complete ==> socket.incoming == []
  {
    var total := start;
    while total < buffer.Length
      invariant start <= total <= buffer.Length
      invariant buffer[..start] == old(buffer[..start])
      invariant buffer[start..total] + socket.incoming == old(socket.incoming)
    {
      var chunk := socket.Read(buffer.Length - total);
      if chunk == [] {
        return false;
      }
      ghost var got := buffer[start..total];
      CopyInto(buffer, total, chunk);
      assert buffer[start..total] == got by { assert buffer[..total][start..] == buffer[start..total]; }
      total := total + |chunk|;
      assert buffer[start..total] == got + chunk;
    }
    return true;
  }

  /** `read_packet`: header first, then as much payload as the header announces. */
  method ReadPacket(socket: Socket) returns (buffer: seq<byte>)
    modifies socket`incoming
    ensures (buffer, socket.incoming) == TakePacket(old(socket.incoming))
    ensures var s := old(socket.incoming);
            if |s| >= 8 && |s| >= 8 + TwoBytes(s, 4)
            then buffer == s[..8 + TwoBytes(s, 4)] && socket.incoming == s[8 + TwoBytes(s, 4)..]
            else buffer == [7, 0, 0, 0, 0, 0, 0, 0] && socket.incoming == []
  {
    HowMuchIsTaken(socket.incoming);
    var header := new byte[PACKET_SIZE];
    var complete := Fill(socket, header, 0);
    if !complete {
      return ClosedBuffer();
    }
    assert header[..] == old(socket.incoming)[..PACKET_SIZE];
    var packet := new byte[PACKET_SIZE + Number(header[4..6])];
    CopyInto(packet, 0, header[..]);
    ghost var afterHeader := socket.incoming;
    complete := Fill(socket, packet, PACKET_SIZE);
    assert old(socket.incoming)[4..6] == header[4..6];
    if !complete {
      return ClosedBuffer();
    }
    buffer := packet[..];
    assert old(socket.incoming) == buffer + socket.incoming;
  }
}
