/** Contexts, sessions and the mutable file list (src/util/connectionManagement.c,
 *  src/util/fileLinkedList.c, src/server/server.c). */
module UserContext {
  import opened Bytes
  import opened Seqs
  import opened ServerCommon
  import opened Crc
  import opened SyncQueue
  import opened UserState
  import opened EventText

  class FileNode {
    const key: CString
    var crc: nat
    var next: FileNode?

    constructor (key: CString, crc: nat, next: FileNode?)
      ensures this.key == key && this.crc == crc && this.next == next
    {
      this.key, this.crc, this.next := key, crc, next;
    }
  }

  class Session {
    const index: nat
    const address: Address
    var active: bool

    constructor (index: nat, address: Address)
      ensures this.index == index && this.address == address && active
    {
      this.index, this.address, active := index, address, true;
    }
  }

  /** The folder of one user on disk. */
  class Disk {
    var files: Folder

    constructor ()
      ensures files == map[]
    {
      files := map[];
    }
  }

  /** `FileLinkedList_push`. */
  method PushFile(list: FileNode?, key: CString, crc: nat) returns (head: FileNode)
    ensures fresh(head) && head.key == key && head.crc == crc && head.next == list
  {
    head := new FileNode(key, crc, list);
  }

  ghost function FileNodeAt(nodes: seq<FileNode>, i: int): FileNode? {
    if 0 <= i < |nodes| then nodes[i] else null
  }

  /** The list of files of one user. */
  class FileList {
    var head: FileNode?
    ghost var spine: seq<FileNode>
    ghost var Repr: set<FileNode>

    ghost predicate Valid()
      reads this, Repr
    {
      && Distinct(spine)
      && (forall i {:trigger spine[i]} :: 0 <= i < |spine| ==> spine[i] in Repr)
      && head == FileNodeAt(spine, 0)
      && forall i {:trigger spine[i].next} :: 0 <= i < |spine| ==> spine[i].next == FileNodeAt(spine, i + 1)
    }

    ghost function Index(): (r: seq<IndexEntry>)
      requires Valid()
      reads this, Repr
      ensures |r| == |spine|
      ensures forall i :: 0 <= i < |r| ==> r[i] == IndexEntry(spine[i].key, spine[i].crc)
    {
      seq(|spine|, i requires 0 <= i < |spine| && Valid() reads this, Repr => IndexEntry(spine[i].key, spine[i].crc))
    }

    constructor ()
      ensures Valid() && Index() == [] && Repr == {}
    {
      head, spine, Repr := null, [], {};
    }

    /** `FileLinkedList_get`. */
    method Get(name: CString) returns (node: FileNode?, ghost i: nat)
      requires Valid()
      ensures node == FileNodeAt(spine, i) && (node != null ==> node in Repr)
      ensures node == null ==> Lookup(Index(), name) == None
      ensures node != null ==>
                && i < |Index()| && Index()[i] == IndexEntry(name, node.crc)
                && (forall k :: 0 <= k < i ==> Index()[k].key != name)
                && Lookup(Index(), name) == Some(node.crc)
    {
      node := head;
      i := 0;
      while node != null
        invariant 0 <= i <= |spine| && node == FileNodeAt(spine, i)
        invariant forall k :: 0 <= k < i ==> Index()[k].key != name
        decreases |spine| - i
      {
        if node.key == name {
          LookupAt(Index(), name, i);
          return;
        }
        node := node.next;
        i := i + 1;
      }
      LookupAbsent(Index(), name);
    }

    /** A new node in front of the list. */
    method Push(name: CString, crc: nat)
      requires Valid()
      modifies this
      ensures Valid() && Index() == [IndexEntry(name, crc)] + old(Index())
      ensures fresh(Repr - old(Repr))
    {
      var node := PushFile(head, name, crc);
      head := node;
      Repr := Repr + {node};
      spine := [node] + spine;
      Prepended(node);
      PrependedIndex(node);
    }

    twostate lemma Prepended(new node: FileNode)
      requires old(Valid()) && node !in old(Repr) && unchanged(old(Repr))
      requires spine == [node] + old(spine) && Repr == old(Repr) + {node} && head == node && node.next == old(head)
      ensures Valid()
    {
      forall i | 1 <= i < |spine| ensures spine[i].next == FileNodeAt(spine, i + 1) {
        assert spine[i] == old(spine)[i - 1] && FileNodeAt(spine, i + 1) == FileNodeAt(old(spine), i);
      }
    }

    twostate lemma PrependedIndex(new node: FileNode)
      requires old(Valid()) && Valid() && spine == [node] + old(spine)
      requires forall j {:trigger old(spine)[j].crc} :: 0 <= j < |old(spine)| ==> old(spine)[j].crc == old(spine[j].crc)
      ensures Index() == [IndexEntry(node.key, node.crc)] + old(Index())
    {
    }

    /** `file_node->crc = ...` on the node of that name. */
    method Update(name: CString, crc: nat)
      requires Valid() && Lookup(Index(), name).Some?
      modifies Repr
      ensures Valid() && Index() == SetCrc(old(Index()), name, crc)
    {
      ghost var before := Index();
      var node, i := Get(name);
      SetCrcAt(before, name, i, crc);
      node.crc := crc;
      forall k | 0 <= k < |spine| ensures Index()[k] == before[i := IndexEntry(name, crc)][k] {
        assert k != i ==> spine[k] != spine[i];
      }
    }

    /** `remove_file_from_context`: unlink through the pointer that leads to the node, which
     *  is `head` while `prev` is null. */
    method Remove(name: CString) returns (removed: bool)
      requires Valid()
      modifies this, Repr
      ensures Valid() && Repr == old(Repr)
      ensures removed <==> Lookup(old(Index()), name).Some?
      ensures Index() == if removed then Without(old(Index()), name) else old(Index())
    {
      var current, prev: FileNode? := head, null;
      ghost var i := 0;
      while current != null
        invariant 0 <= i <= |spine| && current == FileNodeAt(spine, i) && prev == FileNodeAt(spine, i - 1)
        invariant forall k :: 0 <= k < i ==> Index()[k].key != name
        invariant unchanged(this) && unchanged(Repr)
        decreases |spine| - i
      {
        if current.key == name {
          LookupAt(Index(), name, i);
          if prev == null {
            head := current.next;
          } else {
            prev.next := current.next;
          }
          spine := RemoveAt(spine, i);
          Relinked(i);
          RelinkedIndex(i);
          return true;
        }
        prev := current;
        current := current.next;
        i := i + 1;
      }
      LookupAbsent(Index(), name);
      return false;
    }

    twostate lemma Relinked(i: nat)
      requires Repr == old(Repr)
      requires old(Valid()) && i < |old(spine)| && spine == RemoveAt(old(spine), i)
      requires head == if i == 0 then FileNodeAt(old(spine), 1) else old(head)
      requires forall j :: 0 <= j < |old(spine)| && j != i - 1 ==> old(spine)[j].next == old(spine[j].next)
      requires i > 0 ==> old(spine)[i - 1].next == FileNodeAt(old(spine), i + 1)
      ensures Valid()
    {
      forall j | 0 <= j < |spine| ensures spine[j].next == FileNodeAt(spine, j + 1) {
        var j' := if j < i then j else j + 1;
        assert spine[j] == old(spine)[j'];
        assert old(spine[j'].next) == FileNodeAt(old(spine), j' + 1);
      }
    }

    twostate lemma RelinkedIndex(i: nat)
      requires old(Valid()) && Valid() && i < |old(spine)| && spine == RemoveAt(old(spine), i)
      requires forall j {:trigger old(spine)[j].crc} :: 0 <= j < |old(spine)| ==> old(spine)[j].crc == old(spine[j].crc)
      ensures Index() == RemoveAt(old(Index()), i)
    {
    }
  }

  ghost function ViewOf(s: Session?): Option<SessionView>
    reads s
  {
    if s == null then None else Some(SessionView(s.address, s.active))
  }

  /** A `UserContext` with its folder. */
  class Context {
    const username: CString
    const sessions: array<Session?>
    const files: FileList
    const disk: Disk

    ghost predicate Valid()
      reads this, sessions, files, files.Repr
    {
      && sessions.Length == MAX_SESSIONS && files.Valid()
      && forall i :: 0 <= i < MAX_SESSIONS && sessions[i] != null ==> sessions[i].index == i
    }

    ghost function Slots(): (r: seq<Option<SessionView>>)
      reads sessions, sessions[..]
      ensures |r| == sessions.Length
      ensures forall i :: 0 <= i < |r| ==> r[i] == ViewOf(sessions[i])
    {
      seq(sessions.Length, i requires 0 <= i < sessions.Length reads sessions, sessions[..] => ViewOf(sessions[i]))
    }

    ghost function View(): User
      requires Valid()
      reads this, sessions, sessions[..], files, files.Repr, disk
    {
      User(Slots(), files.Index(), disk.files)
    }

    /** A session that still has its slot. */
    ghost predicate Holds(session: Session)
      requires Valid()
      reads this, sessions, files, files.Repr
    {
      session.index < MAX_SESSIONS && sessions[session.index] == session
    }

    /** `create_context`. */
    constructor (username: CString)
      ensures Valid() && this.username == username && View() == NEW_USER
      ensures fresh(sessions) && fresh(files) && fresh(disk) && files.Repr == {}
    {
      this.username := username;
      sessions := new Session?[MAX_SESSIONS](_ => null);
      files := new FileList();
      disk := new Disk();
    }

    /** `find_free_session_index`. */
    method FindFreeSessionIndex() returns (index: int)
      requires Valid()
      ensures index == if FreeSlot(Slots()) < MAX_SESSIONS then FreeSlot(Slots()) else -1
    {
      for i := 0 to MAX_SESSIONS
        invariant forall k :: 0 <= k < i ==> Slots()[k].Some?
      {
        if sessions[i] == null {
          FreeSlotIs(Slots(), i);
          return i;
        }
      }
      FreeSlotIs(Slots(), MAX_SESSIONS);
      return -1;
    }

    /** `get_user_session_by_address`. */
    method GetSessionByAddress(address: Address) returns (session: Session?)
      requires Valid()
      ensures var i := SlotOf(Slots(), address);
              session == if i < MAX_SESSIONS then sessions[i] else null
    {
      for i := 0 to MAX_SESSIONS
        invariant forall k :: 0 <= k < i ==> Slots()[k].None? || Slots()[k].value.address != address
      {
        if sessions[i] != null && sessions[i].address == address {
          SlotOfIs(Slots(), address, i);
          return sessions[i];
        }
      }
      SlotOfIs(Slots(), address, MAX_SESSIONS);
      return null;
    }

    /** `initialize_user_session_and_threads`. */
    method Connect(address: Address, manager: bool) returns (event: Option<ReplicaEvent>)
      requires Valid()
      modifies sessions
      ensures Valid() && View() == AfterConnect(old(View()), address)
      ensures forall i :: 0 <= i < MAX_SESSIONS && old(sessions[i]) == null
                          && (forall k :: 0 <= k < i ==> old(sessions[k]) != null) ==>
                && sessions[i] != null && fresh(sessions[i])
                && sessions[i].index == i && sessions[i].address == address && sessions[i].active
                && (forall k :: 0 <= k < MAX_SESSIONS && k != i ==> sessions[k] == old(sessions[k]))
      ensures (forall i :: 0 <= i < MAX_SESSIONS ==> old(sessions[i]) != null) ==> sessions[..] == old(sessions[..])
      ensures event == if manager && exists i :: 0 <= i < MAX_SESSIONS && old(sessions[i]) == null
                       then Some(ClientConnected(username, address)) else None
    {
      var free := FindFreeSessionIndex();
      if free == -1 {
        return None;
      }
      var session := new Session(free, address);
      event := if manager then Some(ClientConnected(username, address)) else None;
      sessions[free] := session;
      assert Slots() == old(Slots())[free := Some(SessionView(address, true))];
    }

    /** The exit command, up to the joins: the session stops being active. */
    method BeginExit(session: Session)
      requires Valid() && Holds(session)
      modifies session
      ensures Valid() && Holds(session) && View() == AfterBeginExit(old(View()), session.index)
      ensures !session.active
    {
      session.active := false;
    }

    /** The rest of it, once the session's threads have ended. */
    method FinishExit(session: Session) returns (event: ReplicaEvent)
      requires Valid() && Holds(session)
      modifies sessions
      ensures Valid() && View() == AfterFinishExit(old(View()), session.index)
      ensures sessions[..] == old(sessions[..])[session.index := null]
      ensures event == ClientDisconnected(username, session.address)
    {
      sessions[session.index] := null;
      event := ClientDisconnected(username, session.address);
    }

    /** `disconnect_all_users`, for one context. */
    method DisconnectAll()
      requires Valid()
      modifies sessions
      ensures Valid() && View() == AfterDisconnectAll(old(View()))
      ensures forall i :: 0 <= i < MAX_SESSIONS ==> sessions[i] == null
    {
      for i := 0 to MAX_SESSIONS
        invariant Valid() && unchanged(files) && unchanged(files.Repr)
        invariant forall k :: 0 <= k < i ==> sessions[k] == null
        invariant forall k :: i <= k < MAX_SESSIONS ==> sessions[k] == old(sessions[k])
      {
        if sessions[i] != null {
          sessions[i] := null;
        }
      }
    }

    // ---------------------------------------------------------------- files

    /** `crc32` of a path. */
    method PathCrc(name: CString) returns (crc: nat)
      ensures crc == FileCrc(FileIn(disk.files, name))
    {
      var stream := null;
      if name in disk.files {
        stream := new FileStream(disk.files[name]);
      }
      crc := ComputeCrc32(stream);
    }

    /** `get_file_status`. */
    method FileStatus(name: CString) returns (status: FileStatus)
      requires Valid()
      ensures status == Status(files.Index(), disk.files, name)
    {
      var node, _ := files.Get(name);
      if node == null {
        return NotFound;
      }
      var crc := PathCrc(name);
      status := if crc != node.crc then Updated else Exists;
    }

    /** The loop that queues a file for every other session. */
    method ForwardToOthers(session: Session, name: CString, kind: EntryType) returns (to: seq<FileEntry>)
      requires Valid()
      ensures PassedOn(to, Slots(), session.index, kind, username, name)
    {
      to := [];
      for i := 0 to MAX_SESSIONS
        invariant PassedUpTo(to, Slots(), session.index, i, kind, username, name)
      {
        PassNext(to, Slots(), session.index, i, kind, username, name);
        if i != session.index && sessions[i] != null {
          to := to + [FileEntry(kind, username, i, name)];
        }
        assert to + [] == to;
      }
    }

    /** `remove_file_from_user_list`. */
    method RemoveFileFromUserList(session: Session, name: CString, manager: bool) returns (forwards: seq<FileEntry>)
      requires Valid()
      modifies files, files.Repr
      ensures Valid() && files.Repr == old(files.Repr)
      ensures files.Index() == IndexAfterDelete(old(files.Index()), disk.files, name)
      ensures if manager && Lookup(old(files.Index()), name).Some?
              then PassedOn(forwards, Slots(), session.index, FileEntryDelete, username, name)
              else forwards == []
    {
      forwards := [];
      var status := FileStatus(name);
      if status != NotFound {
        var _ := files.Remove(name);
        if manager {
          forwards := ForwardToOthers(session, name, FileEntryDelete);
        }
      }
    }

    /** The SEND branch of `handle_incoming_file`, the file being in the folder already. */
    method NoteReceivedFile(session: Session, name: CString, manager: bool) returns (forwards: seq<FileEntry>)
      requires Valid()
      modifies files, files.Repr
      ensures Valid() && fresh(files.Repr - old(files.Repr))
      ensures files.Index() == IndexAfterSend(old(files.Index()), disk.files, name)
      ensures if manager && Lookup(old(files.Index()), name) != Some(FileCrc(FileIn(disk.files, name)))
              then PassedOn(forwards, Slots(), session.index, FileEntrySend, username, name)
              else forwards == []
    {
      forwards := [];
      var status := FileStatus(name);
      var crc := PathCrc(name);
      match status {
        case NotFound =>
          files.Push(name, crc);
        case Updated =>
          files.Update(name, crc);
        case Exists =>
          return;
      }
      if manager {
        forwards := ForwardToOthers(session, name, FileEntrySend);
      }
    }

    /** `handle_incoming_file`: the folder first, then the index, and last the event, which is
     *  sent whether or not the session was active.  What an inactive session still sends is
     *  passed on to nobody. */
    method HandleIncomingFile(session: Session, incoming: Incoming, manager: bool)
      returns (forwards: seq<FileEntry>, event: Option<ReplicaEvent>)
      requires Valid() && Holds(session)
      modifies disk, files, files.Repr
      ensures Valid() && fresh(files.Repr - old(files.Repr))
      ensures View() == After(old(View()), session.active, incoming)
      ensures disk.files == if incoming.IncomingSend? then old(disk.files)[incoming.name := incoming.content]
                            else old(disk.files) - {incoming.name}
      ensures !session.active ==> files.Index() == old(files.Index()) && forwards == []
      ensures var kind := if incoming.IncomingSend? then FileEntrySend else FileEntryDelete;
              if manager && files.Index() != old(files.Index())
              then PassedOn(forwards, Slots(), session.index, kind, username, incoming.name)
              else forwards == []
      ensures event == if !manager then None
                       else if incoming.IncomingSend? then Some(FileUploaded(username, session.address, incoming.name))
                       else Some(FileDeleted(username, session.address, incoming.name))
    {
      ghost var slots, before := Slots(), View();
      forwards := [];
      var name := incoming.name;
      NoticedIsChange(before, session.active, incoming);
      if incoming.IncomingSend? {
        disk.files := disk.files[name := incoming.content];
        if session.active {
          forwards := NoteReceivedFile(session, name, manager);
        }
        event := if manager then Some(FileUploaded(username, session.address, name)) else None;
      } else {
        disk.files := disk.files - {name};
        if session.active {
          forwards := RemoveFileFromUserList(session, name, manager);
        }
        event := if manager then Some(FileDeleted(username, session.address, name)) else None;
      }
      assert Slots() == slots;
    }

    /** The DELETE command of the interface: here the list comes first. */
    method DeleteCommand(session: Session, name: CString, manager: bool)
      returns (forwards: seq<FileEntry>, event: Option<ReplicaEvent>)
      requires Valid() && Holds(session)
      modifies disk, files, files.Repr
      ensures Valid() && View() == AfterDeleteCommand(old(View()), name)
      ensures disk.files == old(disk.files) - {name}
      ensures if manager && name in old(disk.files) && Lookup(old(files.Index()), name).Some?
              then PassedOn(forwards, Slots(), session.index, FileEntryDelete, username, name)
              else forwards == []
      ensures event == if manager && name in old(disk.files)
                       then Some(FileDeleted(username, session.address, name)) else None
    {
      ghost var slots := Slots();
      forwards, event := [], None;
      if name in disk.files {
        forwards := RemoveFileFromUserList(session, name, manager);
        disk.files := disk.files - {name};
        assert Slots() == slots;
        event := if manager then Some(FileDeleted(username, session.address, name)) else None;
      }
    }
  }

  lemma FreeSlotIs(slots: seq<Option<SessionView>>, i: nat)
    requires i <= |slots| && (i < |slots| ==> slots[i].None?) && forall k :: 0 <= k < i ==> slots[k].Some?
    ensures FreeSlot(slots) == i
  {
  }

  lemma SlotOfIs(slots: seq<Option<SessionView>>, address: Address, i: nat)
    requires i <= |slots| && (i < |slots| ==> slots[i].Some? && slots[i].value.address == address)
    requires forall k :: 0 <= k < i ==> slots[k].None? || slots[k].value.address != address
    ensures SlotOf(slots, address) == i
  {
  }

  lemma {:induction false} LookupAt(index: seq<IndexEntry>, name: CString, i: nat)
    requires i < |index| && index[i].key == name && forall k :: 0 <= k < i ==> index[k].key != name
    ensures Lookup(index, name) == Some(index[i].crc)
    ensures Without(index, name) == RemoveAt(index, i)
  {
    if i > 0 {
      LookupAt(index[1..], name, i - 1);
    }
  }

  lemma {:induction false} SetCrcAt(index: seq<IndexEntry>, name: CString, i: nat, crc: nat)
    requires i < |index| && index[i].key == name && forall k :: 0 <= k < i ==> index[k].key != name
    ensures SetCrc(index, name, crc) == index[i := IndexEntry(name, crc)]
  {
    if i > 0 {
      SetCrcAt(index[1..], name, i - 1, crc);
    }
  }

  lemma {:induction false} LookupAbsent(index: seq<IndexEntry>, name: CString)
    requires forall k :: 0 <= k < |index| ==> index[k].key != name
    ensures Lookup(index, name) == None
  {
    if index != [] { LookupAbsent(index[1..], name); }
  }
}
