/** What the server keeps for one user, as values: session slots, the file index and the
 *  folder (src/server/server.c, src/util/connectionManagement.c).  The methods of module
 *  `UserContext` are proved against these functions. */
module UserState {
  import opened Bytes
  import opened Seqs
  import opened ServerCommon
  import opened Crc
  import opened SyncQueue
  import CrcBits

  const MAX_SESSIONS := 2

  type Folder = map<CString, Content>

  /** A node of `file_list`. */
  datatype IndexEntry = IndexEntry(key: CString, crc: nat)

  /** What the protocol sees of a session. */
  datatype SessionView = SessionView(address: Address, active: bool)

  datatype User = User(slots: seq<Option<SessionView>>, index: seq<IndexEntry>, folder: Folder)

  const NEW_USER := User([None, None], [], map[])

  datatype FileStatus = NotFound | Updated | Exists

  // ------------------------------------------------------------------ the file index

  /** The crc of the first node with that name. */
  function Lookup(index: seq<IndexEntry>, name: CString): Option<nat> {
    if index == [] then None
    else if index[0].key == name then Some(index[0].crc)
    else Lookup(index[1..], name)
  }

  function SetCrc(index: seq<IndexEntry>, name: CString, crc: nat): seq<IndexEntry> {
    if index == [] then []
    else if index[0].key == name then [IndexEntry(name, crc)] + index[1..]
    else [index[0]] + SetCrc(index[1..], name, crc)
  }

  /** The index without the first node of that name. */
  function Without(index: seq<IndexEntry>, name: CString): seq<IndexEntry> {
    if index == [] then []
    else if index[0].key == name then index[1..]
    else [index[0]] + Without(index[1..], name)
  }

  function FileIn(folder: Folder, name: CString): Option<Content> {
    if name in folder then Some(folder[name]) else None
  }

  /** `get_file_status`. */
  function Status(index: seq<IndexEntry>, folder: Folder, name: CString): FileStatus {
    match Lookup(index, name)
    case None => NotFound
    case Some(crc) => if FileCrc(FileIn(folder, name)) != crc then Updated else Exists
  }

  /** The index after a received file that is already in the folder. */
  function IndexAfterSend(index: seq<IndexEntry>, folder: Folder, name: CString): seq<IndexEntry> {
    match Status(index, folder, name)
    case NotFound => [IndexEntry(name, FileCrc(FileIn(folder, name)))] + index
    case Updated => SetCrc(index, name, FileCrc(FileIn(folder, name)))
    case Exists => index
  }

  /** `remove_file_from_user_list`. */
  function IndexAfterDelete(index: seq<IndexEntry>, folder: Folder, name: CString): seq<IndexEntry> {
    if Status(index, folder, name) == NotFound then index else Without(index, name)
  }

  // ------------------------------------------------------------------ handled packets

  /** A SEND packet: the folder changes first; the index only for an active session. */
  function AfterSend(u: User, active: bool, name: CString, content: Content): User {
    var folder := u.folder[name := content];
    u.(folder := folder, index := if active then IndexAfterSend(u.index, folder, name) else u.index)
  }

  /** A DELETE packet: again the folder first. */
  function AfterDelete(u: User, active: bool, name: CString): User {
    var folder := u.folder - {name};
    u.(folder := folder, index := if active then IndexAfterDelete(u.index, folder, name) else u.index)
  }

  /** The DELETE command: only if the file exists, and then the index first. */
  function AfterDeleteCommand(u: User, name: CString): User {
    if name !in u.folder then u
    else u.(index := IndexAfterDelete(u.index, u.folder, name), folder := u.folder - {name})
  }

  /** What a client or the manager sends about a file. */
  datatype Incoming = IncomingSend(name: CString, content: Content) | IncomingDelete(name: CString)

  function After(u: User, active: bool, incoming: Incoming): User {
    match incoming
    case IncomingSend(name, content) => AfterSend(u, active, name, content)
    case IncomingDelete(name) => AfterDelete(u, active, name)
  }

  /** Whether the index takes note of a packet, and so passes it on to the other sessions. */
  function Noticed(u: User, active: bool, incoming: Incoming): bool {
    active &&
    match incoming
    case IncomingSend(name, content) => Status(u.index, u.folder[name := content], name) != Exists
    case IncomingDelete(name) => Status(u.index, u.folder - {name}, name) != NotFound
  }

  lemma {:induction false} WithoutShorter(index: seq<IndexEntry>, name: CString)
    ensures |Without(index, name)| == |index| - if Lookup(index, name).Some? then 1 else 0
  {
    if index != [] && index[0].key != name { WithoutShorter(index[1..], name); }
  }

  /** A packet is passed on exactly if it changes the index, which an inactive session's never
   *  does. */
  lemma NoticedIsChange(u: User, active: bool, incoming: Incoming)
    ensures Noticed(u, active, incoming) <==> After(u, active, incoming).index != u.index
    ensures Noticed(u, active, incoming) ==> active
  {
    match incoming
    case IncomingSend(name, content) =>
      var folder := u.folder[name := content];
      if Status(u.index, folder, name) == Updated {
        SetCrcLookup(u.index, name, FileCrc(FileIn(folder, name)), name);
      }
    case IncomingDelete(name) =>
      WithoutShorter(u.index, name);
  }

  // ------------------------------------------------------------------ index agreement

  ghost predicate DistinctKeys(index: seq<IndexEntry>) {
    forall i, j :: 0 <= i < j < |index| ==> index[i].key != index[j].key
  }

  /** What the folder says the index should hold for a name. */
  function Expected(folder: Folder, name: CString): Option<nat> {
    if name in folder then Some(Crc32(folder[name])) else None
  }

  /** The index is a cache of the folder: one node per file, with the CRC of its content. */
  ghost predicate Agrees(index: seq<IndexEntry>, folder: Folder) {
    DistinctKeys(index) && forall name: CString :: Lookup(index, name) == Expected(folder, name)
  }

  lemma {:induction false} LookupFinds(index: seq<IndexEntry>, name: CString)
    ensures Lookup(index, name).Some? <==> exists i :: 0 <= i < |index| && index[i].key == name
    ensures DistinctKeys(index) ==>
              forall i :: 0 <= i < |index| && index[i].key == name ==> Lookup(index, name) == Some(index[i].crc)
  {
    if index != [] {
      LookupFinds(index[1..], name);
      assert forall i :: 1 <= i < |index| ==> index[i] == index[1..][i - 1];
    }
  }

  /** A name is in the list if and only if it is a file in the folder, and then with the
   *  CRC of that file. */
  ghost predicate Holds(index: seq<IndexEntry>, folder: Folder, name: CString) {
    && (name in folder <==> exists i :: 0 <= i < |index| && index[i].key == name)
    && forall i :: 0 <= i < |index| && index[i].key == name ==> name in folder && index[i].crc == Crc32(folder[name])
  }

  /** Agreement spelt out: the names in the list are distinct, they are exactly the files in
   *  the folder, and every node has the CRC-32 of the stored content. */
  lemma AgreesMeans(index: seq<IndexEntry>, folder: Folder)
    ensures Agrees(index, folder) <==>
            && DistinctKeys(index)
            && forall name: CString :: Holds(index, folder, name)
  {
    forall name: CString
      ensures DistinctKeys(index) ==> (Lookup(index, name) == Expected(folder, name) <==> Holds(index, folder, name))
    {
      LookupFinds(index, name);
    }
  }

  lemma {:induction false} SetCrcLookup(index: seq<IndexEntry>, name: CString, crc: nat, other: CString)
    requires Lookup(index, name).Some?
    ensures Lookup(SetCrc(index, name, crc), other) == if other == name then Some(crc) else Lookup(index, other)
  {
    if index[0].key != name { SetCrcLookup(index[1..], name, crc, other); }
  }

  lemma {:induction false} SetCrcKeys(index: seq<IndexEntry>, name: CString, crc: nat)
    ensures var r := SetCrc(index, name, crc);
            |r| == |index| && forall i :: 0 <= i < |r| ==> r[i].key == index[i].key
  {
    if index != [] && index[0].key != name { SetCrcKeys(index[1..], name, crc); }
  }

  lemma {:induction false} WithoutMembers(index: seq<IndexEntry>, name: CString)
    ensures forall e :: e in Without(index, name) ==> e in index
  {
    if index != [] {
      WithoutMembers(index[1..], name);
      assert index == [index[0]] + index[1..];
    }
  }

  lemma {:induction false} WithoutKeepsDistinct(index: seq<IndexEntry>, name: CString)
    requires DistinctKeys(index)
    ensures DistinctKeys(Without(index, name))
  {
    if index != [] && index[0].key != name {
      WithoutKeepsDistinct(index[1..], name);
      WithoutMembers(index[1..], name);
      var rest := Without(index[1..], name);
      forall j | 0 <= j < |rest| ensures rest[j].key != index[0].key {
        assert rest[j] in index[1..];
      }
    }
  }

  lemma {:induction false} WithoutLookup(index: seq<IndexEntry>, name: CString, other: CString)
    requires DistinctKeys(index)
    ensures Lookup(Without(index, name), other) == if other == name then None else Lookup(index, other)
  {
    if index != [] {
      if index[0].key == name {
        LookupFinds(index[1..], name);
      } else {
        WithoutLookup(index[1..], name, other);
      }
    }
  }

  /** Removing a name takes exactly that name out of the list. */
  lemma DeleteKeepsRest(index: seq<IndexEntry>, folder: Folder, name: CString, other: CString)
    requires DistinctKeys(index)
    ensures DistinctKeys(IndexAfterDelete(index, folder, name))
    ensures Lookup(IndexAfterDelete(index, folder, name), other) == if other == name then None else Lookup(index, other)
  {
    WithoutKeepsDistinct(index, name);
    WithoutLookup(index, name, other);
  }

  lemma SendKeepsDistinct(index: seq<IndexEntry>, folder: Folder, name: CString)
    requires DistinctKeys(index)
    ensures DistinctKeys(IndexAfterSend(index, folder, name))
  {
    LookupFinds(index, name);
    SetCrcKeys(index, name, FileCrc(FileIn(folder, name)));
  }

  /** After a handled SEND the index knows the new CRC, and the other names as before. */
  lemma SendKeepsRest(index: seq<IndexEntry>, folder: Folder, name: CString, other: CString)
    requires name in folder
    ensures Lookup(IndexAfterSend(index, folder, name), other)
            == if other == name then Some(Crc32(folder[name])) else Lookup(index, other)
  {
    if Lookup(index, name).Some? {
      SetCrcLookup(index, name, Crc32(folder[name]), other);
    }
  }

  /** File index agreement, exactly: a handled file keeps the agreement if and only if the
   *  session was still active or the file was one the index already described. */
  lemma SendAgreement(u: User, active: bool, name: CString, content: Content)
    requires Agrees(u.index, u.folder)
    ensures var u' := AfterSend(u, active, name, content);
            Agrees(u'.index, u'.folder) <==> active || Status(u.index, u'.folder, name) == Exists
  {
    var u' := AfterSend(u, active, name, content);
    assert Lookup(u.index, name) == Expected(u.folder, name);
    assert Expected(u'.folder, name) == Some(Crc32(content));
    if active {
      SendKeepsDistinct(u.index, u'.folder, name);
      forall other: CString ensures Lookup(u'.index, other) == Expected(u'.folder, other) {
        SendKeepsRest(u.index, u'.folder, name, other);
        assert Lookup(u.index, other) == Expected(u.folder, other);
      }
    } else if Status(u.index, u'.folder, name) == Exists {
      forall other: CString ensures Lookup(u'.index, other) == Expected(u'.folder, other) {
        assert Lookup(u.index, other) == Expected(u.folder, other);
      }
    } else {
      assert Lookup(u'.index, name) != Expected(u'.folder, name);
    }
  }

  /** The same for a delete packet: an inactive session may only delete what is not there. */
  lemma DeleteAgreement(u: User, active: bool, name: CString)
    requires Agrees(u.index, u.folder)
    ensures var u' := AfterDelete(u, active, name);
            Agrees(u'.index, u'.folder) <==> active || Status(u.index, u'.folder, name) == NotFound
  {
    var u' := AfterDelete(u, active, name);
    assert Lookup(u.index, name) == Expected(u.folder, name);
    if active || Status(u.index, u'.folder, name) == NotFound {
      DeleteKeepsRest(u.index, u'.folder, name, name);
      forall other: CString ensures Lookup(u'.index, other) == Expected(u'.folder, other) {
        DeleteKeepsRest(u.index, u'.folder, name, other);
        assert Lookup(u.index, other) == Expected(u.folder, other);
      }
    } else {
      assert Lookup(u'.index, name) != Expected(u'.folder, name);
    }
  }

  /** Deleting a new file restores index and folder as they were. */
  lemma DeleteUndoesSend(u: User, name: CString, content: Content)
    requires Agrees(u.index, u.folder) && name !in u.folder
    ensures AfterDelete(AfterSend(u, true, name, content), true, name) == u
  {
    assert Lookup(u.index, name) == Expected(u.folder, name);
    var sent := AfterSend(u, true, name, content);
    assert sent.index[0] == IndexEntry(name, Crc32(content)) && sent.index[1..] == u.index;
    assert sent.folder - {name} == u.folder;
  }

  /** For an existing file the command and the packet end alike, although the command takes
   *  the list first and the packet the file. */
  lemma CommandIsDelete(u: User, name: CString)
    requires name in u.folder
    ensures AfterDeleteCommand(u, name) == AfterDelete(u, true, name)
  {
  }

  /** The delete command runs in the thread that would begin the exit, so it always agrees. */
  lemma DeleteCommandAgreement(u: User, name: CString)
    requires Agrees(u.index, u.folder)
    ensures Agrees(AfterDeleteCommand(u, name).index, AfterDeleteCommand(u, name).folder)
  {
    var u' := AfterDeleteCommand(u, name);
    if name in u.folder {
      DeleteKeepsRest(u.index, u.folder, name, name);
      forall other: CString ensures Lookup(u'.index, other) == Expected(u'.folder, other) {
        DeleteKeepsRest(u.index, u.folder, name, other);
        assert Lookup(u.index, other) == Expected(u.folder, other);
      }
    }
  }

  /** An exiting session's new file is in the folder but not in the index. */
  lemma LateFileIsMissed(name: CString, content: Content)
    ensures var u' := AfterSend(NEW_USER, false, name, content);
            name in u'.folder && Lookup(u'.index, name) == None && !Agrees(u'.index, u'.folder)
  {
    assert Lookup(AfterSend(NEW_USER, false, name, content).index, name) != Expected(map[name := content], name);
  }

  /** A file sent again with changes inside 32 consecutive bits is classed UPDATED whenever it
   *  has changed at all. */
  lemma BurstIsUpdated(u: User, name: CString, content: Content, i: nat)
    requires Agrees(u.index, u.folder) && name in u.folder && |content| == |u.folder[name]|
    requires forall k :: 0 <= k < 8 * |content| && !(i <= k < i + 32) ==>
               CrcBits.FileBits(u.folder[name])[k] == CrcBits.FileBits(content)[k]
    ensures Status(u.index, u.folder[name := content], name) == if content == u.folder[name] then Exists else Updated
  {
    assert Lookup(u.index, name) == Expected(u.folder, name);
    CrcBits.BurstDetected(u.folder[name], content, i);
  }

  // ------------------------------------------------------------------ session slots

  /** `find_free_session_index`: the lowest free slot, or the number of slots. */
  function FreeSlot(slots: seq<Option<SessionView>>): (i: nat)
    ensures i <= |slots|
    ensures forall k :: 0 <= k < i ==> slots[k].Some?
    ensures i < |slots| ==> slots[i].None?
  {
    if slots == [] || slots[0].None? then 0
    else
      assert forall k :: 1 <= k < |slots| ==> slots[k] == slots[1..][k - 1];
      1 + FreeSlot(slots[1..])
  }

  /** `get_user_session_by_address`: the lowest slot with that address, or the number of slots. */
  function SlotOf(slots: seq<Option<SessionView>>, address: Address): (i: nat)
    ensures i <= |slots|
    ensures forall k :: 0 <= k < i ==> slots[k].None? || slots[k].value.address != address
    ensures i < |slots| ==> slots[i].Some? && slots[i].value.address == address
  {
    if slots == [] || (slots[0].Some? && slots[0].value.address == address) then 0
    else
      assert forall k :: 1 <= k < |slots| ==> slots[k] == slots[1..][k - 1];
      1 + SlotOf(slots[1..], address)
  }

  /** `initialize_user_session_and_threads`: nothing happens when all slots are taken. */
  function AfterConnect(u: User, address: Address): User {
    var i := FreeSlot(u.slots);
    if i == |u.slots| then u else u.(slots := u.slots[i := Some(SessionView(address, true))])
  }

  predicate Occupied(u: User, slot: nat) {
    slot < |u.slots| && u.slots[slot].Some?
  }

  /** The exit command stops the session first and frees its slot after its threads have ended. */
  function AfterBeginExit(u: User, slot: nat): User
    requires Occupied(u, slot)
  {
    u.(slots := u.slots[slot := Some(u.slots[slot].value.(active := false))])
  }

  function AfterFinishExit(u: User, slot: nat): User
    requires slot < |u.slots|
  {
    u.(slots := u.slots[slot := None])
  }

  /** `disconnect_all_users`, for one user: the sessions go, the files stay. */
  function AfterDisconnectAll(u: User): User {
    u.(slots := NEW_USER.slots)
  }

  /** A new address is found in the lowest free slot, and its exit restores what was before. */
  lemma ExitUndoesConnect(u: User, address: Address)
    requires FreeSlot(u.slots) < |u.slots| && SlotOf(u.slots, address) == |u.slots|
    ensures var i, u' := FreeSlot(u.slots), AfterConnect(u, address);
            && SlotOf(u'.slots, address) == i && Occupied(u', i) && u'.slots[i].value.active
            && (forall k :: 0 <= k < |u.slots| && k != i ==> u'.slots[k] == u.slots[k])
            && AfterFinishExit(AfterBeginExit(u', i), i) == u
  {
    var i, u' := FreeSlot(u.slots), AfterConnect(u, address);
    assert u'.slots[i] == Some(SessionView(address, true));
    assert !(SlotOf(u'.slots, address) < i);
    assert AfterFinishExit(AfterBeginExit(u', i), i).slots == u.slots;
  }

  /** The other sessions a change is passed on to. */
  function Others(slots: seq<Option<SessionView>>, slot: nat): (r: seq<nat>) {
    OthersFrom(slots, slot, 0)
  }

  function OthersFrom(slots: seq<Option<SessionView>>, slot: nat, from: nat): seq<nat>
    requires from <= |slots|
    decreases |slots| - from
  {
    if from == |slots| then []
    else (if from != slot && slots[from].Some? then [from] else []) + OthersFrom(slots, slot, from + 1)
  }

  /** Exactly the other occupied slots, in rising order. */
  lemma {:induction false} OthersMembers(slots: seq<Option<SessionView>>, slot: nat, from: nat)
    requires from <= |slots|
    ensures forall k :: k in OthersFrom(slots, slot, from) <==> from <= k < |slots| && k != slot && slots[k].Some?
    ensures forall i, j :: 0 <= i < j < |OthersFrom(slots, slot, from)| ==>
              OthersFrom(slots, slot, from)[i] < OthersFrom(slots, slot, from)[j]
    decreases |slots| - from
  {
    if from < |slots| {
      OthersMembers(slots, slot, from + 1);
      var rest := OthersFrom(slots, slot, from + 1);
      forall j | 0 <= j < |rest| ensures from < rest[j] { assert rest[j] in rest; }
    }
  }

  /** One entry for every other session of the user in the slots before n, in rising order, and
   *  none for the session itself or a free slot. */
  ghost predicate PassedUpTo(to: seq<FileEntry>, slots: seq<Option<SessionView>>, slot: nat, n: nat,
                             kind: EntryType, username: CString, name: CString)
    requires n <= |slots|
  {
    && (forall i :: 0 <= i < |to| ==>
          to[i] == FileEntry(kind, username, to[i].toSession, name) && 0 <= to[i].toSession < n)
    && (forall k :: 0 <= k < n ==> (FileEntry(kind, username, k, name) in to <==> k != slot && slots[k].Some?))
    && (forall i, j :: 0 <= i < j < |to| ==> to[i].toSession < to[j].toSession)
  }

  /** One entry for every other session of the user. */
  ghost predicate PassedOn(to: seq<FileEntry>, slots: seq<Option<SessionView>>, slot: nat,
                           kind: EntryType, username: CString, name: CString) {
    PassedUpTo(to, slots, slot, |slots|, kind, username, name)
  }

  /** The next slot gets an entry unless it is free or the session's own. */
  lemma PassNext(to: seq<FileEntry>, slots: seq<Option<SessionView>>, slot: nat, n: nat,
                 kind: EntryType, username: CString, name: CString)
    requires n < |slots| && PassedUpTo(to, slots, slot, n, kind, username, name)
    ensures var more := if n != slot && slots[n].Some? then [FileEntry(kind, username, n, name)] else [];
            PassedUpTo(to + more, slots, slot, n + 1, kind, username, name)
  {
    var entry := FileEntry(kind, username, n, name);
    assert entry !in to;
    assert entry in to + [entry];
  }

  function Entries(to: seq<nat>, kind: EntryType, username: CString, name: CString): (r: seq<FileEntry>)
    ensures |r| == |to| && forall i :: 0 <= i < |r| ==> r[i] == FileEntry(kind, username, to[i], name)
  {
    seq(|to|, i requires 0 <= i < |to| => FileEntry(kind, username, to[i], name))
  }

  /** The entries for `Others` are that. */
  lemma OthersArePassed(slots: seq<Option<SessionView>>, slot: nat, kind: EntryType, username: CString, name: CString)
    ensures PassedOn(Entries(Others(slots, slot), kind, username, name), slots, slot, kind, username, name)
  {
    var to := Others(slots, slot);
    var entries := Entries(to, kind, username, name);
    OthersMembers(slots, slot, 0);
    forall i | 0 <= i < |to| ensures to[i] < |slots| { assert to[i] in to; }
    forall k | 0 <= k < |slots|
      ensures FileEntry(kind, username, k, name) in entries <==> k != slot && slots[k].Some?
    {
      if k in to {
        var i :| 0 <= i < |to| && to[i] == k;
        assert entries[i] == FileEntry(kind, username, k, name);
      }
      if FileEntry(kind, username, k, name) in entries {
        var i :| 0 <= i < |entries| && entries[i] == FileEntry(kind, username, k, name);
        assert to[i] in to;
      }
    }
  }

  /** With two slots: slot 0 hears of slot 1 and slot 1 of slot 0. */
  lemma TheOtherOne(slots: seq<Option<SessionView>>, slot: nat)
    requires |slots| == 2 && slot < 2
    ensures Others(slots, slot) == if slots[1 - slot].Some? then [1 - slot] else []
  {
    assert OthersFrom(slots, slot, 2) == [];
    assert OthersFrom(slots, slot, 1) == if slot == 0 && slots[1].Some? then [1] else [];
  }

  /** A user has two sessions at most. */
  lemma ThirdSessionRefused(a: Address, b: Address, c: Address)
    ensures var two := AfterConnect(AfterConnect(NEW_USER, a), b);
            && two.slots == [Some(SessionView(a, true)), Some(SessionView(b, true))]
            && AfterConnect(two, c) == two
  {
    var one := AfterConnect(NEW_USER, a);
    assert one.slots == [Some(SessionView(a, true)), None];
    var two := AfterConnect(one, b);
    assert two.slots == [Some(SessionView(a, true)), Some(SessionView(b, true))];
  }
}
