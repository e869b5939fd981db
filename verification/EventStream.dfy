/** The stream of events from the manager to a backup: what `send_event` writes
 *  (src/server/replica.c) and what the backup reads back (src/server/serverRoles.c,
 *  src/server/server.c). */
module EventStream {
  import opened Bytes
  import opened Seqs
  import opened ServerCommon
  import opened Wire
  import opened FileTransfer
  import opened Text
  import opened EventText
  import opened UserState
  import opened Streams

  /** Everything a manager tells its backups, with the file that goes along. */
  datatype Item =
    | Beat
    | Connected(user: CString, address: Address)
    | Disconnected(user: CString, address: Address)
    | Joined(id: Int32, listenerPort: Int32, address: Address)
    | Uploaded(user: CString, address: Address, file: CString, content: Content)
    | Deleted(user: CString, address: Address, file: CString)

  function EventOf(item: Item): (e: ReplicaEvent)
    ensures Constructed(e)
  {
    match item
    case Beat => Heartbeat()
    case Connected(user, address) => ClientConnected(user, address)
    case Disconnected(user, address) => ClientDisconnected(user, address)
    case Joined(id, port, address) => ReplicaAdded(id, port, address)
    case Uploaded(user, address, file, _) => FileUploaded(user, address, file)
    case Deleted(user, address, file) => FileDeleted(user, address, file)
  }

  // ------------------------------------------------------------------ writing

  function EventPacket(e: ReplicaEvent): (p: Packet)
    ensures Sendable(p)
  {
    CreatePacket(PACKET_REPLICA_MSG, Serialize(e))
  }

  /** The packets after an event: the file of an upload, if it is there, or the delete packet. */
  function Attached(e: ReplicaEvent, folder: Folder): (ps: seq<Packet>)
    ensures AllSendable(ps)
  {
    if e.filepath.None? then []
    else if e.kind == EVENT_FILE_UPLOADED then
      (if e.filepath.value in folder then FilePackets(e.filepath.value, folder[e.filepath.value]) else [])
    else if e.kind == EVENT_FILE_DELETED then [CreatePacket(PACKET_DELETE, e.filepath.value)]
    else []
  }

  /** `send_event`. */
  method SendEvent(e: ReplicaEvent, socket: Socket, folder: Folder)
    requires e.kind == EVENT_FILE_UPLOADED || e.kind == EVENT_FILE_DELETED ==> e.filepath.Some?
    modifies socket`outgoing
    ensures socket.outgoing == old(socket.outgoing) + Encode(EventPacket(e)) + EncodeAll(Attached(e, folder))
  {
    socket.Send(EventPacket(e));
    if e.kind == EVENT_FILE_UPLOADED {
      SendFile(socket, e.filepath.value, FileIn(folder, e.filepath.value));
    } else if e.kind == EVENT_FILE_DELETED {
      var p := CreatePacket(PACKET_DELETE, e.filepath.value);
      socket.Send(p);
      EncodeOne(p);
    }
  }

  /** What follows the event of an item. */
  function FileBytes(item: Item): seq<byte> {
    match item
    case Uploaded(_, _, file, content) => EncodeAll(FilePackets(file, content))
    case Deleted(_, _, file) => Encode(CreatePacket(PACKET_DELETE, file))
    case _ => []
  }

  /** The bytes of an item. */
  function ItemBytes(item: Item): seq<byte> {
    Encode(EventPacket(EventOf(item))) + FileBytes(item)
  }

  /** An event goes out in a packet of type 6; the packets of the file follow an upload, and one
   *  of type 4 with the name a removal. */
  lemma ItemLayout(item: Item)
    requires |Serialize(EventOf(item))| < 0x1_0000
    ensures var head := Encode(Packet(6, Serialize(EventOf(item))));
            match item
            case Uploaded(_, _, file, content) => ItemBytes(item) == head + EncodeAll(FilePackets(file, content))
            case Deleted(_, _, file) => ItemBytes(item) == head + Encode(CreatePacket(4, file))
            case _ => ItemBytes(item) == head
  {
  }

  /** What each item says, letter by letter. */
  lemma ItemText(item: Item)
    ensures var text := Serialize(EventOf(item));
            match item
            case Connected(user, address) => text == [48] + [124] + AddressText(address) + [124] + user + [124] + []
            case Disconnected(user, address) => text == [49] + [124] + AddressText(address) + [124] + user + [124] + []
            case Uploaded(user, address, file, _) =>
              text == [50] + [124] + AddressText(address) + [124] + user + [124] + file
            case Joined(id, port, address) =>
              text == [51] + [124] + AddressText(address) + [124] + (Decimal(id) + [58] + Decimal(port)) + [124] + []
            case Beat => text == [52] + [124] + [48, 46, 48, 46, 48, 46, 48, 58, 48] + [124] + [] + [124] + []
            case Deleted(user, address, file) =>
              text == [53] + [124] + AddressText(address) + [124] + user + [124] + file
  {
    match item
    case Connected(user, address) => SessionEventText(user, address);
    case Disconnected(user, address) => SessionEventText(user, address);
    case Uploaded(user, address, file, _) => FileEventText(user, address, file);
    case Joined(id, port, address) => ReplicaEventText(id, port, address);
    case Beat => ReplicaEventText(0, 0, NO_ADDRESS);
    case Deleted(user, address, file) => FileEventText(user, address, file);
  }

  lemma AttachedBytes(item: Item, folder: Folder)
    requires item.Uploaded? ==> item.file in folder && folder[item.file] == item.content
    ensures EncodeAll(Attached(EventOf(item), folder)) == FileBytes(item)
  {
    if item.Deleted? {
      EncodeOne(CreatePacket(PACKET_DELETE, item.file));
    }
  }

  lemma EncodeOne(p: Packet)
    requires Sendable(p)
    ensures EncodeAll([p]) == Encode(p)
  {
    assert [p][1..] == [];
  }

  /** `send_event` writes the bytes of the item, when an uploaded file is in the folder. */
  method SendItem(item: Item, socket: Socket, folder: Folder)
    requires item.Uploaded? ==> item.file in folder && folder[item.file] == item.content
    modifies socket`outgoing
    ensures socket.outgoing == old(socket.outgoing) + ItemBytes(item)
  {
    ghost var sent, head := socket.outgoing, Encode(EventPacket(EventOf(item)));
    SendEvent(EventOf(item), socket, folder);
    AttachedBytes(item, folder);
    Regroup(sent, head, FileBytes(item));
  }

  // ------------------------------------------------------------------ reading

  /** The C string that starts a buffer. */
  function CutAtZero(s: seq<byte>): (r: CString)
    ensures 0 !in s ==> r == s
  {
    if s == [] || s[0] == 0 then [] else [s[0]] + CutAtZero(s[1..])
  }

  lemma {:induction false} CutAtZeroOf(s: CString, rest: seq<byte>)
    ensures CutAtZero(s + [0] + rest) == s
  {
    if s != [] {
      assert (s + [0] + rest)[1..] == s[1..] + [0] + rest;
      CutAtZeroOf(s[1..], rest);
    }
  }

  /** One packet and what `handle_send_delete` makes of it: a file, a deleted name, or no
   *  name at all. */
  function TakeFile(stream: seq<byte>): (Option<Incoming>, seq<byte>) {
    var (buffer, rest) := TakePacket(stream);
    if Kind(buffer) == PACKET_SEND && Announces(buffer) then
      var (content, end) := TakeContent(rest, AnnouncedCount(buffer));
      (Some(IncomingSend(CutAtZero(AnnouncedName(buffer)), content)), end)
    else if Kind(buffer) == PACKET_DELETE then (Some(IncomingDelete(CutAtZero(Payload(buffer)))), rest)
    else (None, rest)
  }

  method ReadFile(socket: Socket) returns (r: Option<Incoming>)
    modifies socket`incoming
    ensures (r, socket.incoming) == TakeFile(old(socket.incoming))
  {
    var packet := ReadPacket(socket);
    if Kind(packet) == PACKET_SEND && Announces(packet) {
      var name, file := ReceiveFile(packet, socket);
      return Some(IncomingSend(CutAtZero(name), file));
    }
    r := if Kind(packet) == PACKET_DELETE then Some(IncomingDelete(CutAtZero(Payload(packet)))) else None;
  }

  function EventIn(buffer: seq<byte>): ReplicaEvent
    requires Whole(buffer)
  {
    Deserialize(CutAtZero(buffer[PAYLOAD_OFFSET..]))
  }

  /** An event without a packet of its own; None where the backup does nothing or fails. */
  function PlainItem(e: ReplicaEvent): Option<Item> {
    if e.kind == EVENT_HEARTBEAT then Some(Beat)
    else if e.username.None? then None
    else if e.kind == EVENT_CLIENT_CONNECTED then Some(Connected(e.username.value, e.address))
    else if e.kind == EVENT_CLIENT_DISCONNECTED then Some(Disconnected(e.username.value, e.address))
    else if e.kind == EVENT_REPLICA_ADDED then
      match ScanIdAndPort(e.username.value)
      case Some((id, port)) => Some(Joined(ToInt32(id), ToInt32(port), e.address))
      case None => None
    else None
  }

  /** A file event with the packet that was read for it, whose type alone decides. */
  function FileItem(e: ReplicaEvent, incoming: Option<Incoming>): Option<Item> {
    if e.username.None? then None
    else
      match incoming
      case Some(IncomingSend(name, content)) => Some(Uploaded(e.username.value, e.address, name, content))
      case Some(IncomingDelete(name)) => Some(Deleted(e.username.value, e.address, name))
      case None => None
  }

  predicate IsFileEvent(e: ReplicaEvent) {
    e.kind == EVENT_FILE_UPLOADED || e.kind == EVENT_FILE_DELETED
  }

  /** What the backup makes of a packet and the stream behind it. */
  function ItemFrom(buffer: seq<byte>, rest: seq<byte>): (Option<Item>, seq<byte>)
    requires Whole(buffer)
  {
    if Kind(buffer) != PACKET_REPLICA_MSG then (None, rest)
    else
      var e := EventIn(buffer);
      if IsFileEvent(e) then
        var (incoming, end) := TakeFile(rest);
        (FileItem(e, incoming), end)
      else (PlainItem(e), rest)
  }

  /** The next item the backup finds in its stream. */
  function TakeItem(stream: seq<byte>): (Option<Item>, seq<byte>) {
    var (buffer, rest) := TakePacket(stream);
    ItemFrom(buffer, rest)
  }

  /** One round of the loop of `connect_to_server_thread`. */
  method ReadItem(socket: Socket) returns (r: Option<Item>)
    modifies socket`incoming
    ensures (r, socket.incoming) == TakeItem(old(socket.incoming))
  {
    var packet := ReadPacket(socket);
    if Kind(packet) != PACKET_REPLICA_MSG {
      return None;
    }
    var e := EventIn(packet);
    if IsFileEvent(e) {
      var incoming := ReadFile(socket);
      r := FileItem(e, incoming);
    } else {
      r := PlainItem(e);
    }
  }

  // ------------------------------------------------------------------ alignment

  /** Items the text format carries: names that survive as fields, and lengths that fit. */
  predicate Carried(item: Item) {
    var e := EventOf(item);
    && |Serialize(e)| < 0x1_0000 && Clean(e.username) && Clean(e.filepath)
    && (item.Uploaded? ==> Fits(item.file, item.content))
  }

  lemma TakeText(s: CString, rest: seq<byte>) returns (buffer: seq<byte>)
    requires |s| < 0x1_0000
    ensures TakePacket(Encode(CreatePacket(PACKET_REPLICA_MSG, s)) + rest) == (buffer, rest)
    ensures Whole(buffer) && Kind(buffer) == PACKET_REPLICA_MSG && EventIn(buffer) == Deserialize(s)
  {
    var p := CreatePacket(PACKET_REPLICA_MSG, s);
    buffer := Encode(p);
    TakeEncoded(p, rest);
    EncodeParts(p);
    assert Encode(p)[PAYLOAD_OFFSET..] == s + [0] + [0];
    CutAtZeroOf(s, [0]);
  }

  /** The reader finds the event that was written. */
  lemma TakeEvent(e: ReplicaEvent, rest: seq<byte>) returns (buffer: seq<byte>)
    requires Constructed(e) && Clean(e.username) && Clean(e.filepath) && |Serialize(e)| < 0x1_0000
    ensures TakePacket(Encode(EventPacket(e)) + rest) == (buffer, rest)
    ensures Whole(buffer) && Kind(buffer) == PACKET_REPLICA_MSG && EventIn(buffer) == e
  {
    EventRoundTrip(e);
    buffer := TakeText(Serialize(e), rest);
  }

  lemma TakeItemIs(stream: seq<byte>, buffer: seq<byte>, rest: seq<byte>, r: (Option<Item>, seq<byte>))
    requires TakePacket(stream) == (buffer, rest) && Whole(buffer) && ItemFrom(buffer, rest) == r
    ensures TakeItem(stream) == r
  {
  }

  lemma FromPlain(e: ReplicaEvent, buffer: seq<byte>, rest: seq<byte>)
    requires Whole(buffer) && Kind(buffer) == PACKET_REPLICA_MSG && EventIn(buffer) == e && !IsFileEvent(e)
    ensures ItemFrom(buffer, rest) == (PlainItem(e), rest)
  {
  }

  lemma FromFile(e: ReplicaEvent, buffer: seq<byte>, data: seq<byte>, incoming: Option<Incoming>, rest: seq<byte>)
    requires Whole(buffer) && Kind(buffer) == PACKET_REPLICA_MSG && EventIn(buffer) == e && IsFileEvent(e)
    requires TakeFile(data) == (incoming, rest)
    ensures ItemFrom(buffer, data) == (FileItem(e, incoming), rest)
  {
  }

  lemma TakeUpload(file: CString, content: Content, rest: seq<byte>)
    requires Fits(file, content)
    ensures TakeFile(EncodeAll(FilePackets(file, content)) + rest) == (Some(IncomingSend(file, content)), rest)
  {
    FileRoundTrip(file, content, rest);
  }

  lemma TakeDelete(file: CString, rest: seq<byte>)
    requires |file| < 0x1_0000
    ensures TakeFile(Encode(CreatePacket(PACKET_DELETE, file)) + rest) == (Some(IncomingDelete(file)), rest)
  {
    var p := CreatePacket(PACKET_DELETE, file);
    TakeEncoded(p, rest);
    EncodeParts(p);
  }

  lemma FileRead(item: Item, rest: seq<byte>) returns (incoming: Incoming)
    requires Carried(item) && IsFileEvent(EventOf(item))
    ensures TakeFile(FileBytes(item) + rest) == (Some(incoming), rest)
    ensures FileItem(EventOf(item), Some(incoming)) == Some(item)
  {
    if item.Uploaded? {
      TakeUpload(item.file, item.content, rest);
      incoming := IncomingSend(item.file, item.content);
    } else {
      NameFits(item);
      TakeDelete(item.file, rest);
      incoming := IncomingDelete(item.file);
    }
  }

  lemma NameFits(item: Item)
    requires item.Deleted?
    ensures |item.file| <= |Serialize(EventOf(item))|
  {
  }

  lemma PlainBack(item: Item)
    requires !IsFileEvent(EventOf(item))
    ensures PlainItem(EventOf(item)) == Some(item) && FileBytes(item) == []
  {
    if item.Joined? {
      IdAndPortRoundTrip(item.id, item.listenerPort);
      JoinedBack(EventOf(item), item.id, item.listenerPort);
    }
  }

  lemma JoinedBack(e: ReplicaEvent, id: Int32, port: Int32)
    requires e.kind == EVENT_REPLICA_ADDED && e.username.Some? && ScanIdAndPort(e.username.value) == Some((id, port))
    ensures PlainItem(e) == Some(Joined(id, port, e.address))
  {
  }

  /** One item, whatever follows it. */
  lemma ItemRoundTrip(item: Item, rest: seq<byte>)
    requires Carried(item)
    ensures TakeItem(ItemBytes(item) + rest) == (Some(item), rest)
  {
    var e, head, data := EventOf(item), Encode(EventPacket(EventOf(item))), FileBytes(item);
    var buffer := TakeEvent(e, data + rest);
    if IsFileEvent(e) {
      var incoming := FileRead(item, rest);
      FromFile(e, buffer, data + rest, Some(incoming), rest);
    } else {
      PlainBack(item);
      assert data + rest == rest;
      FromPlain(e, buffer, rest);
    }
    TakeItemIs(head + (data + rest), buffer, data + rest, (Some(item), rest));
    Regroup(head, data, rest);
  }

  /** A file event takes whatever `handle_send_delete` makes of the stream behind it. */
  lemma EventThenFile(e: ReplicaEvent, data: seq<byte>, incoming: Option<Incoming>, rest: seq<byte>)
    requires Constructed(e) && Clean(e.username) && Clean(e.filepath) && |Serialize(e)| < 0x1_0000 && IsFileEvent(e)
    requires TakeFile(data) == (incoming, rest)
    ensures TakeItem(Encode(EventPacket(e)) + data) == (FileItem(e, incoming), rest)
  {
    var buffer := TakeEvent(e, data);
    FromFile(e, buffer, data, incoming, rest);
    TakeItemIs(Encode(EventPacket(e)) + data, buffer, data, (FileItem(e, incoming), rest));
  }

  /** What the backup makes nothing of: kinds outside the enumeration, and events without a user,
   *  but for heartbeats. */
  lemma NoItem(e: ReplicaEvent, incoming: Option<Incoming>)
    ensures e.kind < 0 || e.kind > 5 ==> PlainItem(e) == None && !IsFileEvent(e)
    ensures e.username == None && e.kind != 4 ==> PlainItem(e) == None && FileItem(e, incoming) == None
    ensures incoming == None ==> FileItem(e, incoming) == None
  {
  }

  /** For a file event the type of the packet behind it decides, whatever the event says. */
  lemma PacketTypeDecides(user: CString, address: Address, file: CString, name: CString, content: Content,
                          rest: seq<byte>)
    requires var e := FileDeleted(user, address, file);
             Clean(e.username) && Clean(e.filepath) && |Serialize(e)| < 0x1_0000 && Fits(name, content)
    ensures TakeItem(Encode(EventPacket(FileDeleted(user, address, file)))
                     + (EncodeAll(FilePackets(name, content)) + rest))
            == (Some(Uploaded(user, address, name, content)), rest)
  {
    TakeUpload(name, content, rest);
    EventThenFile(FileDeleted(user, address, file), EncodeAll(FilePackets(name, content)) + rest,
                  Some(IncomingSend(name, content)), rest);
  }

  /** Any packet that is not a replica message is read and ignored. */
  lemma OtherPacketsIgnored(p: Packet, rest: seq<byte>)
    requires Sendable(p) && p.kind != 6
    ensures TakeItem(Encode(p) + rest) == (None, rest)
  {
    TakeEncoded(p, rest);
    EncodeParts(p);
  }

  lemma EventForFile(e: ReplicaEvent, next: ReplicaEvent, rest: seq<byte>)
    requires Constructed(e) && Clean(e.username) && Clean(e.filepath) && |Serialize(e)| < 0x1_0000 && IsFileEvent(e)
    requires Constructed(next) && Clean(next.username) && Clean(next.filepath) && |Serialize(next)| < 0x1_0000
    ensures TakeItem(Encode(EventPacket(e)) + (Encode(EventPacket(next)) + rest)) == (None, rest)
  {
    var following := Encode(EventPacket(next)) + rest;
    var swallowed := TakeEvent(next, rest);
    NoFile(following, swallowed, rest);
    EventThenFile(e, following, None, rest);
  }

  lemma NoFile(stream: seq<byte>, buffer: seq<byte>, rest: seq<byte>)
    requires TakePacket(stream) == (buffer, rest) && Whole(buffer) && Kind(buffer) == PACKET_REPLICA_MSG
    ensures TakeFile(stream) == (None, rest)
  {
  }

  /** Without the atomic step: when an uploaded file is gone before it is sent on, nothing
   *  follows its event, and the reader swallows the next event in place of the file. */
  lemma MissingFileSwallowsAnEvent(upload: Item, next: Item, folder: Folder, rest: seq<byte>)
    requires upload.Uploaded? && Carried(upload) && upload.file !in folder && Carried(next)
    ensures Attached(EventOf(upload), folder) == []
    ensures TakeItem(Encode(EventPacket(EventOf(upload))) + (Encode(EventPacket(EventOf(next))) + rest)) == (None, rest)
  {
    NothingAttached(EventOf(upload), folder);
    EventForFile(EventOf(upload), EventOf(next), rest);
  }

  /** What `send_event` writes about an upload, and then the next event. */
  function SentWithNext(upload: Item, folder: Folder, next: Item, rest: seq<byte>): seq<byte>
    requires upload.Uploaded?
  {
    var e := EventOf(upload);
    Encode(EventPacket(e)) + EncodeAll(Attached(e, folder)) + (Encode(EventPacket(EventOf(next))) + rest)
  }

  lemma SentIfThere(upload: Item, folder: Folder, next: Item, rest: seq<byte>)
    requires upload.Uploaded? && upload.file in folder
    ensures SentWithNext(upload, folder, next, rest)
            == ItemBytes(upload.(content := folder[upload.file])) + (Encode(EventPacket(EventOf(next))) + rest)
  {
    AttachedBytes(upload.(content := folder[upload.file]), folder);
  }

  lemma SentIfGone(upload: Item, folder: Folder, next: Item, rest: seq<byte>)
    requires upload.Uploaded? && upload.file !in folder
    ensures SentWithNext(upload, folder, next, rest)
            == Encode(EventPacket(EventOf(upload))) + (Encode(EventPacket(EventOf(next))) + rest)
  {
    NothingAttached(EventOf(upload), folder);
  }

  /** The reader finds an upload, with the content now in the folder, if and only if its file
   *  is there when it is sent on; otherwise the event behind it is gone. */
  lemma FoundIffInFolder(upload: Item, folder: Folder, next: Item, rest: seq<byte>)
    requires upload.Uploaded? && Carried(upload) && Carried(next)
    requires upload.file in folder ==> Fits(upload.file, folder[upload.file])
    ensures var (found, end) := TakeItem(SentWithNext(upload, folder, next, rest));
            && (found.Some? <==> upload.file in folder)
            && (found.Some? ==> found.value == upload.(content := folder[upload.file]))
            && end == if upload.file in folder then Encode(EventPacket(EventOf(next))) + rest else rest
  {
    if upload.file in folder {
      SentIfThere(upload, folder, next, rest);
      ItemRoundTrip(upload.(content := folder[upload.file]), Encode(EventPacket(EventOf(next))) + rest);
    } else {
      SentIfGone(upload, folder, next, rest);
      MissingFileSwallowsAnEvent(upload, next, folder, rest);
    }
  }

  lemma NothingAttached(e: ReplicaEvent, folder: Folder)
    requires e.kind == EVENT_FILE_UPLOADED && e.filepath.Some? && e.filepath.value !in folder
    ensures Attached(e, folder) == []
  {
  }

  lemma FileOf(stream: seq<byte>, buffer: seq<byte>, data: seq<byte>, name: CString, content: Content)
    requires TakePacket(stream) == (buffer, data) && Announces(buffer) && Kind(buffer) == PACKET_SEND
    requires AnnouncedName(buffer) == name && TakeContent(data, AnnouncedCount(buffer)) == (content, [])
    ensures TakeFile(stream) == (Some(IncomingSend(name, content)), [])
  {
  }

  /** Where the data of an upload begins. */
  function HeadLength(item: Item): nat
    requires item.Uploaded?
  {
    |Encode(EventPacket(EventOf(item)))| + |Encode(AnnouncementOf(item))|
  }

  function AnnouncementOf(item: Item): (p: Packet)
    requires item.Uploaded?
    ensures Sendable(p)
  {
    CreatePacket(PACKET_SEND, Announcement(PacketCount(|item.content|), item.file))
  }

  /** What a backup makes of the first `cut` bytes of an item: of an upload whose announcement
   *  has arrived a file cut to its full chunks, and otherwise nothing. */
  function Truncated(item: Item, cut: nat): Option<Item> {
    if item.Uploaded? && cut >= HeadLength(item) then
      Some(item.(content := Kept(item.content, cut - HeadLength(item))))
    else None
  }

  /** From part of a packet nothing can be made. */
  lemma NothingFrom(stream: seq<byte>)
    requires NextFrame(stream) == None
    ensures TakeItem(stream) == (None, []) && TakeFile(stream) == (None, [])
  {
  }

  lemma CutEvent(e: ReplicaEvent, cut: nat)
    requires cut < |Encode(EventPacket(e))|
    ensures TakeItem(Encode(EventPacket(e))[..cut]) == (None, [])
  {
    PartOfPacket(EventPacket(e), cut);
    NothingFrom(Encode(EventPacket(e))[..cut]);
  }

  /** The announcement of an upload and the first r bytes of its data. */
  lemma CutUpload(item: Item, r: nat)
    requires item.Uploaded? && Fits(item.file, item.content) && r < |DataBytes(item.content)|
    ensures TakeFile(Encode(AnnouncementOf(item)) + DataBytes(item.content)[..r])
            == (Some(IncomingSend(item.file, Kept(item.content, r))), [])
  {
    var p, data := AnnouncementOf(item), DataBytes(item.content)[..r];
    CutDataIsKept(item.content, r);
    AnnouncementParts(item.file, item.content);
    TakeEncoded(p, data);
    FileOf(Encode(p) + data, Encode(p), data, item.file, Kept(item.content, r));
  }

  lemma UploadBytes(item: Item)
    requires item.Uploaded?
    ensures FileBytes(item) == Encode(AnnouncementOf(item)) + DataBytes(item.content)
  {
    FirstPending(item.file, item.content, AnnouncementOf(item));
    assert item.content[0..] == item.content;
  }

  lemma CutInAnnouncement(item: Item, r: nat)
    requires item.Uploaded? && r < |Encode(AnnouncementOf(item))|
    ensures r <= |FileBytes(item)| && TakeFile(FileBytes(item)[..r]) == (None, [])
  {
    UploadBytes(item);
    PartOfPacket(AnnouncementOf(item), r);
    assert FileBytes(item)[..r] == Encode(AnnouncementOf(item))[..r];
    NothingFrom(FileBytes(item)[..r]);
  }

  lemma CutInData(item: Item, r: nat)
    requires item.Uploaded? && Fits(item.file, item.content) && |Encode(AnnouncementOf(item))| <= r < |FileBytes(item)|
    ensures TakeFile(FileBytes(item)[..r])
            == (Some(IncomingSend(item.file, Kept(item.content, r - |Encode(AnnouncementOf(item))|))), [])
  {
    UploadBytes(item);
    var head := Encode(AnnouncementOf(item));
    CutBeyond(head, DataBytes(item.content), r);
    CutUpload(item, r - |head|);
  }

  lemma CutDelete(item: Item, r: nat)
    requires item.Deleted? && r < |FileBytes(item)|
    ensures TakeFile(FileBytes(item)[..r]) == (None, [])
  {
    PartOfPacket(CreatePacket(PACKET_DELETE, item.file), r);
    NothingFrom(FileBytes(item)[..r]);
  }

  lemma FileItemOf(item: Item, content: Content)
    requires item.Uploaded?
    ensures FileItem(EventOf(item), Some(IncomingSend(item.file, content))) == Some(item.(content := content))
    ensures FileItem(EventOf(item), None) == None
  {
  }

  lemma TruncatedFile(item: Item, r: nat)
    requires IsFileEvent(EventOf(item))
    ensures item.Deleted? ==> Truncated(item, |Encode(EventPacket(EventOf(item)))| + r) == None
    ensures item.Uploaded? ==>
              var head := |Encode(AnnouncementOf(item))|;
              Truncated(item, |Encode(EventPacket(EventOf(item)))| + r)
              == if r < head then None else Some(item.(content := Kept(item.content, r - head)))
  {
  }

  lemma CutUploadFile(item: Item, r: nat) returns (incoming: Option<Incoming>)
    requires item.Uploaded? && Fits(item.file, item.content) && r < |FileBytes(item)|
    ensures TakeFile(FileBytes(item)[..r]) == (incoming, [])
    ensures var head := |Encode(AnnouncementOf(item))|;
            FileItem(EventOf(item), incoming)
            == if r < head then None else Some(item.(content := Kept(item.content, r - head)))
  {
    var head := |Encode(AnnouncementOf(item))|;
    if r < head {
      incoming := None;
      FileItemOf(item, []);
      CutInAnnouncement(item, r);
    } else {
      var kept := Kept(item.content, r - head);
      incoming := Some(IncomingSend(item.file, kept));
      FileItemOf(item, kept);
      CutInData(item, r);
    }
  }

  /** The first r bytes of what follows an event. */
  lemma CutFile(item: Item, r: nat) returns (incoming: Option<Incoming>)
    requires Carried(item) && IsFileEvent(EventOf(item)) && r < |FileBytes(item)|
    ensures TakeFile(FileBytes(item)[..r]) == (incoming, [])
    ensures FileItem(EventOf(item), incoming) == Truncated(item, |Encode(EventPacket(EventOf(item)))| + r)
  {
    TruncatedFile(item, r);
    if item.Deleted? {
      incoming := None;
      CutDelete(item, r);
    } else {
      incoming := CutUploadFile(item, r);
    }
  }

  lemma CutBehindEvent(item: Item, r: nat, cut: nat)
    requires Carried(item) && IsFileEvent(EventOf(item)) && r < |FileBytes(item)|
    requires cut == |Encode(EventPacket(EventOf(item)))| + r
    ensures TakeItem(Encode(EventPacket(EventOf(item))) + FileBytes(item)[..r]) == (Truncated(item, cut), [])
  {
    var incoming := CutFile(item, r);
    EventThenFile(EventOf(item), FileBytes(item)[..r], incoming, []);
  }

  lemma CutInEvent(item: Item, cut: nat)
    requires cut < |Encode(EventPacket(EventOf(item)))|
    ensures cut <= |ItemBytes(item)| && TakeItem(ItemBytes(item)[..cut]) == (None, [])
  {
    var head := Encode(EventPacket(EventOf(item)));
    CutInside(head, FileBytes(item), cut);
    CutEvent(EventOf(item), cut);
    SameItem(head[..cut], ItemBytes(item)[..cut], (None, []));
  }

  lemma CutInFile(item: Item, cut: nat)
    requires Carried(item) && |Encode(EventPacket(EventOf(item)))| <= cut < |ItemBytes(item)|
    ensures TakeItem(ItemBytes(item)[..cut]) == (Truncated(item, cut), [])
  {
    var head := Encode(EventPacket(EventOf(item)));
    OnlyFilesAreLonger(item, cut);
    CutBeyond(head, FileBytes(item), cut);
    var r := cut - |head|;
    assert ItemBytes(item)[..cut] == head + FileBytes(item)[..r];
    CutBehindEvent(item, r, cut);
    SameItem(head + FileBytes(item)[..r], ItemBytes(item)[..cut], (Truncated(item, cut), []));
  }

  lemma OnlyFilesAreLonger(item: Item, cut: nat)
    requires |Encode(EventPacket(EventOf(item)))| <= cut < |ItemBytes(item)|
    ensures IsFileEvent(EventOf(item))
  {
  }

  lemma SameItem(stream: seq<byte>, same: seq<byte>, r: (Option<Item>, seq<byte>))
    requires stream == same && TakeItem(stream) == r
    ensures TakeItem(same) == r
  {
  }

  /** A manager that stops inside an item, at any byte: the backup finds an item if and only
   *  if an upload was announced in full, and then the file cut to the chunks that arrived. */
  lemma CutItem(item: Item, cut: nat)
    requires Carried(item) && cut < |ItemBytes(item)|
    ensures TakeItem(ItemBytes(item)[..cut]) == (Truncated(item, cut), [])
  {
    if cut < |Encode(EventPacket(EventOf(item)))| {
      CutInEvent(item, cut);
      NotYetAnnounced(item, cut);
    } else {
      CutInFile(item, cut);
    }
  }

  lemma NotYetAnnounced(item: Item, cut: nat)
    requires cut < |Encode(EventPacket(EventOf(item)))|
    ensures Truncated(item, cut) == None
  {
  }

  /** The truncated file is shorter than the one that was uploaded. */
  lemma TruncatedIsShorter(item: Item, cut: nat)
    requires cut < |ItemBytes(item)| && Truncated(item, cut).Some?
    ensures item.Uploaded? && |Truncated(item, cut).value.content| < |item.content|
  {
    UploadBytes(item);
    CutDataIsKept(item.content, cut - HeadLength(item));
  }

  function StreamBytes(items: seq<Item>): seq<byte> {
    if items == [] then [] else ItemBytes(items[0]) + StreamBytes(items[1..])
  }

  /** n rounds of the backup's loop. */
  function TakeItems(stream: seq<byte>, n: nat): (seq<Option<Item>>, seq<byte>)
    decreases n
  {
    if n == 0 then ([], stream)
    else
      var (item, rest) := TakeItem(stream);
      var (more, end) := TakeItems(rest, n - 1);
      ([item] + more, end)
  }

  function Found(items: seq<Item>): (r: seq<Option<Item>>)
    ensures |r| == |items| && forall i :: 0 <= i < |items| ==> r[i] == Some(items[i])
  {
    seq(|items|, i requires 0 <= i < |items| => Some(items[i]))
  }

  /** Event stream alignment: for every sequence of heartbeats, connects, disconnects, joins,
   *  uploads and deletes, the backup decodes exactly that sequence; every event consumes the
   *  packets that belong to it and no others. */
  lemma {:induction false} StreamRoundTrip(items: seq<Item>, rest: seq<byte>)
    requires forall i :: 0 <= i < |items| ==> Carried(items[i])
    ensures TakeItems(StreamBytes(items) + rest, |items|) == (Found(items), rest)
  {
    if items == [] {
      assert [] + rest == rest;
    } else {
      var head, later := ItemBytes(items[0]), StreamBytes(items[1..]);
      ItemRoundTrip(items[0], later + rest);
      StreamRoundTrip(items[1..], rest);
      TakeItemsStep(head, later + rest, items[0], |items| - 1, Found(items[1..]), rest);
      Regroup(head, later, rest);
      FoundFirst(items);
    }
  }

  lemma FoundFirst(items: seq<Item>)
    requires items != []
    ensures Found(items) == [Some(items[0])] + Found(items[1..])
  {
  }

  lemma TakeItemsStep(head: seq<byte>, later: seq<byte>, item: Item, n: nat, found: seq<Option<Item>>, end: seq<byte>)
    requires TakeItem(head + later) == (Some(item), later) && TakeItems(later, n) == (found, end)
    ensures TakeItems(head + later, n + 1) == ([Some(item)] + found, end)
  {
  }

  // ------------------------------------------------------------------ a stream that stops

  function Blocks(items: seq<Item>): (r: seq<seq<byte>>)
    ensures |r| == |items| && forall i :: 0 <= i < |r| ==> r[i] == ItemBytes(items[i])
  {
    seq(|items|, i requires 0 <= i < |items| => ItemBytes(items[i]))
  }

  lemma {:induction false} StreamIsBlocks(items: seq<Item>)
    ensures StreamBytes(items) == Concat(Blocks(items))
  {
    if items != [] {
      StreamIsBlocks(items[1..]);
      assert Blocks(items)[1..] == Blocks(items[1..]);
    }
  }

  lemma {:induction false} TakeIsRead(stream: seq<byte>, n: nat)
    ensures TakeItems(stream, n) == ReadN(TakeItem, stream, n)
    decreases n
  {
    if n > 0 { TakeIsRead(TakeItem(stream).1, n - 1); }
  }

  lemma {:induction false} DecodedFound(items: seq<Item>)
    ensures Decoded(Found(items)) == items
  {
    if items != [] {
      assert Found(items)[1..] == Found(items[1..]);
      DecodedFound(items[1..]);
    }
  }

  lemma FindsItem(item: Item)
    requires Carried(item)
    ensures Finds(TakeItem, ItemBytes(item), item, Truncated)
  {
    forall rest ensures TakeItem(ItemBytes(item) + rest) == (Some(item), rest) {
      ItemRoundTrip(item, rest);
    }
    forall c | 0 <= c < |ItemBytes(item)| ensures TakeItem(ItemBytes(item)[..c]) == (Truncated(item, c), []) {
      CutItem(item, c);
    }
  }

  function WholeItems(items: seq<Item>, cut: nat): (n: nat)
    ensures n <= |items|
  {
    WholeBlocks(Blocks(items), cut)
  }

  /** What is made of the item that the cut goes through. */
  function LastPart(items: seq<Item>, cut: nat): Option<Item> {
    PartLeft(items, Truncated, WholeItems(items, cut), Leftover(Blocks(items), cut))
  }

  /** The first `cut` bytes of any stream give the items that lie within them and, of the item
   *  the cut goes through, what is left of an announced upload. */
  lemma CutStream(items: seq<Item>, cut: nat, n: nat)
    requires (forall i :: 0 <= i < |items| ==> Carried(items[i])) && cut <= |StreamBytes(items)| && n >= |items|
    ensures Decoded(TakeItems(StreamBytes(items)[..cut], n).0)
            == items[..WholeItems(items, cut)] + AsSeq(LastPart(items, cut))
  {
    StreamIsBlocks(items);
    TakeIsRead(StreamBytes(items)[..cut], n);
    NothingFrom([]);
    forall k | 0 <= k < |items| ensures Finds(TakeItem, Blocks(items)[k], items[k], Truncated) {
      FindsItem(items[k]);
    }
    ReadCut(TakeItem, items, Blocks(items), Truncated, cut, n);
  }

  /** A part of an uploaded file in place of the whole. */
  predicate ShortOf(part: Item, item: Item) {
    && part.Uploaded? && item.Uploaded? && part == item.(content := part.content)
    && |part.content| < |item.content|
  }

  /** The cut goes through the item after the whole ones. */
  lemma LastPartOf(items: seq<Item>, cut: nat)
    requires LastPart(items, cut).Some?
    ensures WholeItems(items, cut) < |items|
    ensures ShortOf(LastPart(items, cut).value, items[WholeItems(items, cut)])
  {
    TruncatedIsShorter(items[WholeItems(items, cut)], Leftover(Blocks(items), cut));
  }
}
