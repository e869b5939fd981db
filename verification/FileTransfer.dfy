/** Sending and receiving a file as an announcement and a run of data packets
 *  (src/util/communication.c). */
module FileTransfer {
  import opened Bytes
  import opened Seqs
  import opened Wire
  import opened Streams

  const FILE_CHUNK_SIZE := 1000
  /** `sizeof(FileAnnoucement)`: two 64-bit words before the name. */
  const ANNOUNCEMENT_SIZE := 16

  // ------------------------------------------------------------------ what is sent

  function Announcement(numPackets: nat, name: seq<byte>): (s: seq<byte>)
    ensures |s| == ANNOUNCEMENT_SIZE + |name|
  {
    Word(numPackets, 8) + Word(|name|, 8) + name
  }

  /** `total_packet_amount`. */
  function PacketCount(size: nat): nat {
    size / FILE_CHUNK_SIZE + if size % FILE_CHUNK_SIZE != 0 then 1 else 0
  }

  /** The content cut into pieces of 1000 bytes, the last one shorter. */
  function Chunks(content: Content): seq<Content> {
    if content == [] then []
    else if |content| <= FILE_CHUNK_SIZE then [content]
    else [content[..FILE_CHUNK_SIZE]] + Chunks(content[FILE_CHUNK_SIZE..])
  }

  function DataPackets(chunks: seq<Content>): (ps: seq<Packet>)
    ensures |ps| == |chunks| && AllSendable(ps)
  {
    if chunks == [] then [] else [CreatePacket(PACKET_DATA, chunks[0])] + DataPackets(chunks[1..])
  }

  /** All packets of one file. */
  function FilePackets(name: seq<byte>, content: Content): (ps: seq<Packet>)
    ensures AllSendable(ps)
  {
    [CreatePacket(PACKET_SEND, Announcement(PacketCount(|content|), name))] + DataPackets(Chunks(content))
  }

  /** The announced count is the number of data packets. */
  lemma {:induction false} CountIsChunks(content: Content)
    ensures PacketCount(|content|) == |Chunks(content)|
    decreases |content|
  {
    if |content| > FILE_CHUNK_SIZE {
      CountIsChunks(content[FILE_CHUNK_SIZE..]);
      CountLess(|content|);
    }
  }

  lemma CountLess(n: nat)
    requires n > FILE_CHUNK_SIZE
    ensures PacketCount(n) == PacketCount(n - FILE_CHUNK_SIZE) + 1
  {
  }

  /** Piece i begins at byte 1000 i, and all but the last have 1000 bytes. */
  lemma {:induction false} ChunkLayout(content: Content, i: nat)
    requires i < |Chunks(content)|
    ensures 1000 * i < |content|
    ensures Chunks(content)[i] == content[1000 * i..if 1000 * i + 1000 <= |content| then 1000 * i + 1000 else |content|]
    decreases |content|
  {
    if i > 0 { ChunkLayout(content[1000..], i - 1); }
  }

  lemma CountLayout(content: Content)
    ensures |Chunks(content)| == PacketCount(|content|) == (|content| + 999) / 1000
  {
    CountIsChunks(content);
  }

  /** An announcement is the count and the length of the name in eight bytes each, and the name. */
  lemma AnnouncementLayout(count: nat, name: seq<byte>)
    ensures var s := Announcement(count, name);
            s[..8] == Word(count, 8) && s[8..16] == Word(|name|, 8) && s[16..] == name
  {
  }

  /** The packets of a file: an announcement of type 1, and one packet of type 0 per piece. */
  lemma {:induction false} PacketLayout(name: seq<byte>, content: Content)
    requires |name| + 16 < 0x1_0000
    ensures var ps, chunks := FilePackets(name, content), Chunks(content);
            && |ps| == |chunks| + 1
            && ps[0] == Packet(1, Announcement((|content| + 999) / 1000, name))
            && forall i :: 0 <= i < |chunks| ==> ps[i + 1] == Packet(0, chunks[i])
  {
    CountLayout(content);
    forall i | 0 <= i < |Chunks(content)| ensures |Chunks(content)[i]| <= 1000 { ChunkLayout(content, i); }
    DataLayout(Chunks(content));
  }

  lemma {:induction false} DataLayout(chunks: seq<Content>)
    requires forall i :: 0 <= i < |chunks| ==> |chunks[i]| <= 1000
    ensures forall i :: 0 <= i < |chunks| ==> DataPackets(chunks)[i] == Packet(0, chunks[i])
  {
    if chunks != [] { DataLayout(chunks[1..]); }
  }

  /** An open file being read from the front. */
  class OpenFile {
    const content: Content
    var position: nat
    var endOfFile: bool

    constructor (content: Content)
      ensures this.content == content && position == 0 && !endOfFile
    {
      this.content, position, endOfFile := content, 0, false;
    }

    /** `fread` of up to n bytes; the end-of-file flag goes up only when it finds fewer. */
    method Read(n: nat) returns (chunk: seq<byte>)
      requires position <= |content|
      modifies this
      ensures old(position) <= position <= |content| && chunk == content[old(position)..position]
      ensures position == if old(position) + n <= |content| then old(position) + n else |content|
      ensures endOfFile <==> old(endOfFile) || old(position) + n > |content|
    {
      var end := if position + n <= |content| then position + n else |content|;
      endOfFile := endOfFile || position + n > |content|;
      chunk := content[position..end];
      position := end;
    }
  }

  /** What remains to be written when the reader stands at a position. */
  function Pending(content: Content, position: nat): seq<byte>
    requires position <= |content|
  {
    EncodeAll(DataPackets(Chunks(content[position..])))
  }

  /** `send_file`: a missing file sends nothing; otherwise the announcement, and then one
   *  packet per chunk until end of file or an empty read. */
  method SendFile(socket: Socket, name: seq<byte>, file: Option<Content>)
    modifies socket`outgoing
    ensures socket.outgoing ==
            old(socket.outgoing) + if file.None? then [] else EncodeAll(FilePackets(name, file.value))
  {
    if file.None? {
      return;
    }
    var content := file.value;
    ghost var sent := socket.outgoing;
    var p := CreatePacket(PACKET_SEND, Announcement(PacketCount(|content|), name));
    FirstPending(name, content, p);
    socket.Send(p);
    SendChunks(socket, content);
    Regroup(sent, Encode(p), Pending(content, 0));
  }

  method SendChunks(socket: Socket, content: Content)
    modifies socket`outgoing
    ensures socket.outgoing == old(socket.outgoing) + Pending(content, 0)
  {
    var f := new OpenFile(content);
    ghost var total, pending := socket.outgoing + Pending(content, 0), Pending(content, 0);
    while !f.endOfFile
      invariant f.content == content && f.position <= |content|
      invariant f.endOfFile ==> f.position == |content|
      invariant socket.outgoing + pending == total && pending == Pending(content, f.position)
      decreases |content| - f.position, !f.endOfFile
    {
      ghost var start, sent := f.position, socket.outgoing;
      var chunk := f.Read(FILE_CHUNK_SIZE);
      if chunk == [] {
        break;
      }
      var p := CreatePacket(PACKET_DATA, chunk);
      PendingStep(content, start, chunk, p);
      socket.Send(p);
      pending := Pending(content, f.position);
      Regroup(sent, Encode(p), pending);
    }
    NothingPending(content, f.position);
  }

  lemma Regroup(a: seq<byte>, b: seq<byte>, c: seq<byte>)
    ensures (a + b) + c == a + (b + c)
  {
  }

  lemma NothingPending(content: Content, position: nat)
    requires position == |content|
    ensures Pending(content, position) == []
  {
    assert content[position..] == [];
  }

  lemma FirstPending(name: seq<byte>, content: Content, p: Packet)
    requires p == CreatePacket(PACKET_SEND, Announcement(PacketCount(|content|), name))
    ensures EncodeAll(FilePackets(name, content)) == Encode(p) + Pending(content, 0)
  {
    var ps := FilePackets(name, content);
    assert content[0..] == content;
    assert ps[1..] == DataPackets(Chunks(content));
  }

  /** What a read of 1000 bytes takes from the front. */
  lemma OneMoreChunk(content: Content, start: nat, chunk: Content)
    requires start < |content|
    requires chunk ==
             content[start..if start + FILE_CHUNK_SIZE <= |content| then start + FILE_CHUNK_SIZE else |content|]
    ensures Chunks(content[start..]) == [chunk] + Chunks(content[start + |chunk|..])
  {
    var rest := content[start..];
    if |rest| > FILE_CHUNK_SIZE {
      assert rest[..FILE_CHUNK_SIZE] == chunk && rest[FILE_CHUNK_SIZE..] == content[start + FILE_CHUNK_SIZE..];
    } else {
      assert rest == chunk && content[start + |chunk|..] == [];
    }
  }

  lemma PendingStep(content: Content, start: nat, chunk: Content, p: Packet)
    requires start < |content| && p == CreatePacket(PACKET_DATA, chunk)
    requires chunk ==
             content[start..if start + FILE_CHUNK_SIZE <= |content| then start + FILE_CHUNK_SIZE else |content|]
    ensures Pending(content, start) == Encode(p) + Pending(content, start + |chunk|)
  {
    OneMoreChunk(content, start, chunk);
    var later := Chunks(content[start + |chunk|..]);
    assert ([chunk] + later)[1..] == later;
    assert ([p] + DataPackets(later))[1..] == DataPackets(later);
  }

  // ------------------------------------------------------------------ what is received

  /** An announcement that stays inside its packet. */
  predicate Announces(buffer: seq<byte>) {
    && Whole(buffer) && Length(buffer) >= ANNOUNCEMENT_SIZE
    && ANNOUNCEMENT_SIZE + Number(Payload(buffer)[8..16]) <= Length(buffer)
  }

  function AnnouncedCount(buffer: seq<byte>): nat
    requires Announces(buffer)
  {
    Number(Payload(buffer)[..8])
  }

  function AnnouncedName(buffer: seq<byte>): seq<byte>
    requires Announces(buffer)
  {
    Payload(buffer)[ANNOUNCEMENT_SIZE..ANNOUNCEMENT_SIZE + Number(Payload(buffer)[8..16])]
  }

  /** The payloads of n packets joined, and the rest of the stream. */
  function TakeContent(stream: seq<byte>, n: nat): (Content, seq<byte>)
    decreases n
  {
    if n == 0 then ([], stream)
    else
      var (buffer, rest) := TakePacket(stream);
      var (more, end) := TakeContent(rest, n - 1);
      (Payload(buffer) + more, end)
  }

  lemma {:induction false} TakeContentSnoc(stream: seq<byte>, n: nat)
    ensures var (content, rest) := TakeContent(stream, n);
            var (buffer, end) := TakePacket(rest);
            TakeContent(stream, n + 1) == (content + Payload(buffer), end)
    decreases n
  {
    var (buffer, rest) := TakePacket(stream);
    if n > 0 {
      TakeContentSnoc(rest, n - 1);
      var (content, rest') := TakeContent(rest, n - 1);
      var (last, end) := TakePacket(rest');
      assert Payload(buffer) + (content + Payload(last)) == Payload(buffer) + content + Payload(last);
    } else {
      assert TakeContent(rest, 0) == ([], rest);
      assert Payload(buffer) + [] == [] + Payload(buffer);
    }
  }

  /** `write_packets_to_file`, the file being what it writes. */
  method WritePacketsToFile(socket: Socket, numPackets: nat) returns (file: Content)
    modifies socket`incoming
    ensures (file, socket.incoming) == TakeContent(old(socket.incoming), numPackets)
  {
    file := [];
    for i := 0 to numPackets
      invariant (file, socket.incoming) == TakeContent(old(socket.incoming), i)
    {
      TakeContentSnoc(old(socket.incoming), i);
      var packet := ReadPacket(socket);
      file := file + Payload(packet);
    }
  }

  /** `receive_file` for an announcement already read. */
  method ReceiveFile(packet: seq<byte>, socket: Socket) returns (name: seq<byte>, file: Content)
    requires Announces(packet)
    modifies socket`incoming
    ensures name == AnnouncedName(packet)
    ensures (file, socket.incoming) == TakeContent(old(socket.incoming), AnnouncedCount(packet))
  {
    name := AnnouncedName(packet);
    file := WritePacketsToFile(socket, AnnouncedCount(packet));
  }

  /** Names and contents that fit: the announcement has 16 bits for its length and the
   *  packet count is a 32-bit `int`. */
  predicate Fits(name: seq<byte>, content: Content) {
    ANNOUNCEMENT_SIZE + |name| < 0x1_0000 && PacketCount(|content|) < 0x8000_0000
  }

  lemma PartsOf(count: nat, name: seq<byte>)
    requires count < 0x1_0000_0000_0000_0000 && |name| < 0x1_0000_0000_0000_0000
    ensures var payload := Announcement(count, name);
            Number(payload[..8]) == count && Number(payload[8..16]) == |name| && payload[16..] == name
  {
    var payload := Announcement(count, name);
    assert payload[..8] == Word(count, 8) && payload[8..16] == Word(|name|, 8);
    assert Pow256(8) == 0x1_0000_0000_0000_0000;
    NumberOfWord(count, 8);
    NumberOfWord(|name|, 8);
  }

  lemma AnnouncesFor(buffer: seq<byte>, payload: seq<byte>, count: nat, name: seq<byte>)
    requires Whole(buffer) && Payload(buffer) == payload && |payload| == ANNOUNCEMENT_SIZE + |name|
    requires Number(payload[..8]) == count && Number(payload[8..16]) == |name| && payload[16..] == name
    ensures Announces(buffer) && AnnouncedName(buffer) == name && AnnouncedCount(buffer) == count
  {
  }

  lemma AnnouncementParts(name: seq<byte>, content: Content)
    requires Fits(name, content)
    ensures var buffer := Encode(CreatePacket(PACKET_SEND, Announcement(PacketCount(|content|), name)));
            && Announces(buffer) && Kind(buffer) == PACKET_SEND
            && AnnouncedName(buffer) == name && AnnouncedCount(buffer) == PacketCount(|content|)
  {
    var count := PacketCount(|content|);
    var p := CreatePacket(PACKET_SEND, Announcement(count, name));
    EncodeParts(p);
    PartsOf(count, name);
    AnnouncesFor(Encode(p), p.payload, count, name);
  }

  function Join(chunks: seq<Content>): Content {
    if chunks == [] then [] else chunks[0] + Join(chunks[1..])
  }

  lemma {:induction false} JoinChunks(content: Content)
    ensures Join(Chunks(content)) == content
    ensures forall i :: 0 <= i < |Chunks(content)| ==> 0 < |Chunks(content)[i]| <= FILE_CHUNK_SIZE
    decreases |content|
  {
    if |content| > FILE_CHUNK_SIZE {
      JoinChunks(content[FILE_CHUNK_SIZE..]);
      assert content == content[..FILE_CHUNK_SIZE] + content[FILE_CHUNK_SIZE..];
    } else if content != [] {
      assert [content][1..] == [];
    }
  }

  lemma OnePacketMore(p: Packet, later: seq<byte>, n: nat, content: Content, end: seq<byte>)
    requires Sendable(p) && TakeContent(later, n) == (content, end)
    ensures TakeContent(Encode(p) + later, n + 1) == (p.payload + content, end)
  {
    TakeEncoded(p, later);
    EncodeParts(p);
  }

  lemma FirstData(chunks: seq<Content>)
    requires chunks != []
    ensures EncodeAll(DataPackets(chunks))
            == Encode(CreatePacket(PACKET_DATA, chunks[0])) + EncodeAll(DataPackets(chunks[1..]))
  {
    var ps := DataPackets(chunks);
    assert ps[1..] == DataPackets(chunks[1..]);
  }

  lemma {:induction false} DataRoundTrip(chunks: seq<Content>, rest: seq<byte>)
    requires forall i :: 0 <= i < |chunks| ==> |chunks[i]| < 0x1_0000
    ensures TakeContent(EncodeAll(DataPackets(chunks)) + rest, |chunks|) == (Join(chunks), rest)
  {
    if chunks == [] {
      assert [] + rest == rest;
    } else {
      var p, later := CreatePacket(PACKET_DATA, chunks[0]), EncodeAll(DataPackets(chunks[1..]));
      DataRoundTrip(chunks[1..], rest);
      FirstData(chunks);
      Regroup(Encode(p), later, rest);
      OnePacketMore(p, later + rest, |chunks| - 1, Join(chunks[1..]), rest);
    }
  }

  /** File transfer round trip: for every content, the empty one and exact multiples of the
   *  chunk size included, what `send_file` writes makes the receiver restore name and
   *  content, and leaves whatever follows untouched. */
  lemma FileRoundTrip(name: seq<byte>, content: Content, rest: seq<byte>)
    requires Fits(name, content)
    ensures var (announcement, data) := TakePacket(EncodeAll(FilePackets(name, content)) + rest);
            && Announces(announcement) && Kind(announcement) == PACKET_SEND
            && AnnouncedName(announcement) == name
            && TakeContent(data, AnnouncedCount(announcement)) == (content, rest)
  {
    var p := CreatePacket(PACKET_SEND, Announcement(PacketCount(|content|), name));
    var ds := DataPackets(Chunks(content));
    assert ([p] + ds)[1..] == ds;
    assert EncodeAll(FilePackets(name, content)) + rest == Encode(p) + (EncodeAll(ds) + rest);
    TakeEncoded(p, EncodeAll(ds) + rest);
    AnnouncementParts(name, content);
    CountIsChunks(content);
    JoinChunks(content);
    DataRoundTrip(Chunks(content), rest);
  }

  // ------------------------------------------------------------------ a sender that stops

  /** From a stream that ends inside a packet nothing more comes. */
  lemma {:induction false} NothingMore(partial: seq<byte>, n: nat)
    requires NextFrame(partial) == None
    ensures TakeContent(partial, n) == ([], if n == 0 then partial else [])
    decreases n
  {
    if n > 0 {
      NothingMore([], n - 1);
      var none: seq<byte> := [];
      assert none + none == none;
    }
  }

  lemma {:induction false} CutData(chunks: seq<Content>, partial: seq<byte>, n: nat)
    requires forall i :: 0 <= i < |chunks| ==> |chunks[i]| < 0x1_0000
    requires NextFrame(partial) == None && n > |chunks|
    ensures TakeContent(EncodeAll(DataPackets(chunks)) + partial, n) == (Join(chunks), [])
    decreases |chunks|
  {
    if chunks == [] {
      assert [] + partial == partial;
      NothingMore(partial, n);
    } else {
      var p, later := CreatePacket(PACKET_DATA, chunks[0]), EncodeAll(DataPackets(chunks[1..]));
      CutData(chunks[1..], partial, n - 1);
      FirstData(chunks);
      Regroup(Encode(p), later, partial);
      OnePacketMore(p, later + partial, n - 1, Join(chunks[1..]), []);
    }
  }

  /** Part of a packet is no packet. */
  lemma PartOfPacket(p: Packet, cut: nat)
    requires Sendable(p) && cut < PACKET_SIZE + |p.payload|
    ensures NextFrame(Encode(p)[..cut]) == None
  {
    EncodeParts(p);
    if cut >= PACKET_SIZE {
      assert Encode(p)[..cut][4..6] == Encode(p)[4..6];
    }
  }

  /** What has been written of a file's data when the sender stops inside packet j. */
  function CutBytes(chunks: seq<Content>, j: nat, cut: nat): seq<byte>
    requires j < |chunks| && cut <= |Encode(CreatePacket(PACKET_DATA, chunks[j]))|
  {
    EncodeAll(DataPackets(chunks[..j])) + Encode(CreatePacket(PACKET_DATA, chunks[j]))[..cut]
  }

  lemma {:induction false} JoinPrefix(content: Content, j: nat)
    requires j < |Chunks(content)|
    ensures j * FILE_CHUNK_SIZE < |content| && Join(Chunks(content)[..j]) == content[..j * FILE_CHUNK_SIZE]
    decreases |content|
  {
    if j > 0 {
      var rest := content[FILE_CHUNK_SIZE..];
      assert |content| > FILE_CHUNK_SIZE;
      JoinPrefix(rest, j - 1);
      assert Chunks(content)[..j][1..] == Chunks(rest)[..j - 1];
      assert content[..j * FILE_CHUNK_SIZE] == content[..FILE_CHUNK_SIZE] + rest[..(j - 1) * FILE_CHUNK_SIZE];
    }
  }

  /** A sender that stops anywhere in the data leaves a shorter file: a receiver that was told
   *  the whole packet count takes the chunks that arrived for all of the content, and nothing
   *  tells it otherwise. */
  lemma CutTransferTruncates(content: Content, j: nat, cut: nat)
    requires j < |Chunks(content)| && cut < |Encode(CreatePacket(PACKET_DATA, Chunks(content)[j]))|
    ensures j * FILE_CHUNK_SIZE < |content|
    ensures TakeContent(CutBytes(Chunks(content), j, cut), PacketCount(|content|))
            == (content[..j * FILE_CHUNK_SIZE], [])
  {
    var chunks := Chunks(content);
    JoinChunks(content);
    JoinPrefix(content, j);
    CountIsChunks(content);
    PartOfPacket(CreatePacket(PACKET_DATA, chunks[j]), cut);
    CutData(chunks[..j], Encode(CreatePacket(PACKET_DATA, chunks[j]))[..cut], |chunks|);
  }

  /** A full data packet on the wire. */
  const FRAME_SIZE := PACKET_SIZE + FILE_CHUNK_SIZE

  function DataBytes(content: Content): seq<byte> {
    EncodeAll(DataPackets(Chunks(content)))
  }

  /** What is left of a content when r bytes of its data packets arrive. */
  function Kept(content: Content, r: nat): Content {
    var n := r / FRAME_SIZE * FILE_CHUNK_SIZE;
    if n <= |content| then content[..n] else content
  }

  lemma NoChunksBefore(chunks: seq<Content>, cut: nat)
    requires chunks != [] && cut <= |Encode(CreatePacket(PACKET_DATA, chunks[0]))|
    ensures CutBytes(chunks, 0, cut) == Encode(CreatePacket(PACKET_DATA, chunks[0]))[..cut]
  {
    assert chunks[..0] == [];
  }

  lemma OneChunkBefore(chunks: seq<Content>, j: nat, cut: nat)
    requires j + 1 < |chunks| && cut <= |Encode(CreatePacket(PACKET_DATA, chunks[j + 1]))|
    ensures CutBytes(chunks, j + 1, cut) == Encode(CreatePacket(PACKET_DATA, chunks[0])) + CutBytes(chunks[1..], j, cut)
  {
    var first, last := CreatePacket(PACKET_DATA, chunks[0]), CreatePacket(PACKET_DATA, chunks[j + 1]);
    FirstData(chunks[..j + 1]);
    assert chunks[..j + 1][1..] == chunks[1..][..j];
    Regroup(Encode(first), EncodeAll(DataPackets(chunks[1..][..j])), Encode(last)[..cut]);
  }

  lemma LaterPlace(content: Content, r: nat, first: seq<byte>)
    requires content != [] && first == Encode(CreatePacket(PACKET_DATA, Chunks(content)[0]))
    requires |first| <= r < |DataBytes(content)|
    ensures |content| > FILE_CHUNK_SIZE && |first| == FRAME_SIZE
    ensures Chunks(content)[1..] == Chunks(content[FILE_CHUNK_SIZE..])
    ensures DataBytes(content) == first + DataBytes(content[FILE_CHUNK_SIZE..])
  {
    FirstData(Chunks(content));
  }

  lemma FirstPlace(content: Content, r: nat)
    requires content != [] && r < |Encode(CreatePacket(PACKET_DATA, Chunks(content)[0]))|
    ensures r < FRAME_SIZE && r <= |DataBytes(content)| && DataBytes(content)[..r] == CutBytes(Chunks(content), 0, r)
  {
    JoinChunks(content);
    FirstData(Chunks(content));
    NoChunksBefore(Chunks(content), r);
  }

  /** The first r bytes of the data are j whole packets and `cut` bytes of the next. */
  ghost predicate StopsAt(content: Content, r: nat, j: nat, cut: nat) {
    && r <= |DataBytes(content)| && r == j * FRAME_SIZE + cut && cut < FRAME_SIZE && j < |Chunks(content)|
    && cut < |Encode(CreatePacket(PACKET_DATA, Chunks(content)[j]))|
    && DataBytes(content)[..r] == CutBytes(Chunks(content), j, cut)
  }

  lemma StopsLater(content: Content, r: nat, j: nat, cut: nat)
    requires content != [] && |Encode(CreatePacket(PACKET_DATA, Chunks(content)[0]))| <= r < |DataBytes(content)|
    requires |content| > FILE_CHUNK_SIZE && r >= FRAME_SIZE
    requires StopsAt(content[FILE_CHUNK_SIZE..], r - FRAME_SIZE, j, cut)
    ensures StopsAt(content, r, j + 1, cut)
  {
    var chunks, later := Chunks(content), Chunks(content[FILE_CHUNK_SIZE..]);
    var first := Encode(CreatePacket(PACKET_DATA, chunks[0]));
    LaterPlace(content, r, first);
    assert chunks[1..] == later && chunks[j + 1] == later[j];
    OneChunkBefore(chunks, j, cut);
    SliceLater(DataBytes(content), first, DataBytes(content[FILE_CHUNK_SIZE..]), r, CutBytes(later, j, cut));
    OneMoreFrame(j);
  }

  lemma SliceLater(all: seq<byte>, first: seq<byte>, rest: seq<byte>, r: nat, bytes: seq<byte>)
    requires all == first + rest && |first| <= r <= |all| && rest[..r - |first|] == bytes
    ensures all[..r] == first + bytes
  {
  }

  lemma OneMoreFrame(j: nat)
    ensures (j + 1) * FRAME_SIZE == j * FRAME_SIZE + FRAME_SIZE
  {
  }

  /** Every place at which the data can stop lies inside one data packet. */
  lemma {:induction false} CutPlace(content: Content, r: nat) returns (j: nat, cut: nat)
    requires r < |DataBytes(content)|
    ensures StopsAt(content, r, j, cut)
    decreases |content|
  {
    assert content != [];
    var first := Encode(CreatePacket(PACKET_DATA, Chunks(content)[0]));
    if r < |first| {
      FirstPlace(content, r);
      j, cut := 0, r;
    } else {
      LaterPlace(content, r, first);
      j, cut := CutPlace(content[FILE_CHUNK_SIZE..], r - FRAME_SIZE);
      StopsLater(content, r, j, cut);
      j := j + 1;
    }
  }

  lemma KeptAt(content: Content, r: nat, j: nat, cut: nat)
    requires r == j * FRAME_SIZE + cut && cut < FRAME_SIZE && j * FILE_CHUNK_SIZE < |content|
    ensures Kept(content, r) == content[..j * FILE_CHUNK_SIZE] && |Kept(content, r)| < |content|
  {
    assert r / FRAME_SIZE == j;
  }

  /** However far the data gets, the file is cut to the full chunks that arrived. */
  lemma CutDataIsKept(content: Content, r: nat)
    requires r < |DataBytes(content)|
    ensures TakeContent(DataBytes(content)[..r], PacketCount(|content|)) == (Kept(content, r), [])
    ensures |Kept(content, r)| < |content|
  {
    var j, cut := CutPlace(content, r);
    CutTransferTruncates(content, j, cut);
    KeptAt(content, r, j, cut);
  }

  /** The same, end to end: one side runs `send_file`, the other reads the announcement and
   *  runs `receive_file`, over any splitting into short reads. */
  method Transfer(name: seq<byte>, content: Content, rest: seq<byte>) returns (name': seq<byte>, content': Content)
    requires Fits(name, content)
    ensures name' == name && content' == content
  {
    var sender := new Socket([]);
    SendFile(sender, name, Some(content));
    FileRoundTrip(name, content, rest);
    assert sender.outgoing == EncodeAll(FilePackets(name, content));
    var receiver := new Socket(sender.outgoing + rest);
    var packet := ReadPacket(receiver);
    name', content' := ReceiveFile(packet, receiver);
  }
}
