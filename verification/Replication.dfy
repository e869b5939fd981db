/** Primary-backup replication: the manager's operations with the events they emit
 *  (src/server/server.c) and the backup that replays them (src/server/serverRoles.c).  One
 *  operation with its notification is one step. */
module Replication {
  import opened Bytes
  import opened Seqs
  import opened ServerCommon
  import opened Crc
  import opened UserState
  import opened EventText
  import opened EventStream
  import opened Streams
  import opened UserContext

  /** All users a server knows. */
  type Users = map<CString, User>

  function Get(users: Users, name: CString): User {
    if name in users then users[name] else NEW_USER
  }

  // ------------------------------------------------------------------ the manager

  datatype Op =
    | Connect(user: CString, address: Address)
    | BeginExit(user: CString, slot: nat)
    | FinishExit(user: CString, slot: nat)
    | Receive(user: CString, slot: nat, incoming: Incoming)
    | Command(user: CString, slot: nat, name: CString)
    | Other(item: Item)

  predicate Live(u: User, address: Address) {
    exists i :: 0 <= i < |u.slots| && u.slots[i].Some? && u.slots[i].value.address == address
  }

  /** What can happen to a user: a new session has a new address; a session receives files
   *  until its threads have ended, but obeys commands only until its exit begins. */
  predicate EnabledFor(u: User, op: Op) {
    match op
    case Connect(_, address) => !Live(u, address)
    case BeginExit(_, slot) => Occupied(u, slot) && u.slots[slot].value.active
    case FinishExit(_, slot) => Occupied(u, slot) && !u.slots[slot].value.active
    case Receive(_, slot, _) => Occupied(u, slot)
    case Command(_, slot, _) => Occupied(u, slot) && u.slots[slot].value.active
    case Other(item) => item.Beat? || item.Joined?
  }

  function ApplyFor(u: User, op: Op): User
    requires EnabledFor(u, op)
  {
    match op
    case Connect(_, address) => AfterConnect(u, address)
    case BeginExit(_, slot) => AfterBeginExit(u, slot)
    case FinishExit(_, slot) => AfterFinishExit(u, slot)
    case Receive(_, slot, incoming) => After(u, u.slots[slot].value.active, incoming)
    case Command(_, _, name) => AfterDeleteCommand(u, name)
    case Other(_) => u
  }

  function Carrying(user: CString, address: Address, incoming: Incoming): Item {
    match incoming
    case IncomingSend(name, content) => Uploaded(user, address, name, content)
    case IncomingDelete(name) => Deleted(user, address, name)
  }

  /** The events of an operation. */
  function Emitted(u: User, op: Op): seq<Item>
    requires EnabledFor(u, op)
  {
    match op
    case Connect(user, address) => if FreeSlot(u.slots) < |u.slots| then [Connected(user, address)] else []
    case BeginExit(_, _) => []
    case FinishExit(user, slot) => [Disconnected(user, u.slots[slot].value.address)]
    case Receive(user, slot, incoming) => [Carrying(user, u.slots[slot].value.address, incoming)]
    case Command(user, slot, name) =>
      if name in u.folder then [Deleted(user, u.slots[slot].value.address, name)] else []
    case Other(item) => [item]
  }

  // ------------------------------------------------------------------ the manager's methods

  /** The events returned are those of the items, in order. */
  predicate EventsOf(events: seq<ReplicaEvent>, items: seq<Item>) {
    |events| == |items| && forall i :: 0 <= i < |items| ==> events[i] == EventOf(items[i])
  }

  function AsList(event: Option<ReplicaEvent>): seq<ReplicaEvent> {
    if event.Some? then [event.value] else []
  }

  /** The manager carries out an operation on the context of its user: what the handlers do to
   *  it and the events they send are those of `ApplyFor` and `Emitted`. */
  method Perform(context: Context, op: Op) returns (events: seq<ReplicaEvent>)
    requires context.Valid() && EnabledFor(context.View(), op) && (op.Other? || op.user == context.username)
    modifies context.sessions, context.sessions[..], context.disk, context.files, context.files.Repr
    ensures context.Valid() && context.View() == ApplyFor(old(context.View()), op)
    ensures EventsOf(events, Emitted(old(context.View()), op))
  {
    match op {
      case Connect(_, address) =>
        var event := context.Connect(address, true);
        events := AsList(event);
      case BeginExit(_, slot) =>
        context.BeginExit(context.sessions[slot]);
        events := [];
      case FinishExit(_, slot) =>
        var event := context.FinishExit(context.sessions[slot]);
        events := [event];
      case Receive(_, _, _) =>
        events := PerformOnFile(context, op);
      case Command(_, _, _) =>
        events := PerformOnFile(context, op);
      case Other(item) =>
        events := [EventOf(item)];
    }
  }

  method PerformOnFile(context: Context, op: Op) returns (events: seq<ReplicaEvent>)
    requires context.Valid() && EnabledFor(context.View(), op) && (op.Receive? || op.Command?)
    requires op.user == context.username
    modifies context.disk, context.files, context.files.Repr
    ensures context.Valid() && context.View() == ApplyFor(old(context.View()), op)
    ensures EventsOf(events, Emitted(old(context.View()), op))
  {
    var session, event := context.sessions[op.slot], None;
    match op {
      case Receive(_, _, incoming) =>
        var _, told := context.HandleIncomingFile(session, incoming, true);
        event := told;
      case Command(_, _, name) =>
        var _, told := context.DeleteCommand(session, name, true);
        event := told;
    }
    events := AsList(event);
  }

  /** What is said of a packet carries the address of the session it came from, active or not,
   *  and its own name and content. */
  lemma PacketEvent(u: User, user: CString, slot: nat, incoming: Incoming)
    requires Occupied(u, slot)
    ensures var address := u.slots[slot].value.address;
            Emitted(u, Receive(user, slot, incoming)) ==
            match incoming
            case IncomingSend(name, content) => [Uploaded(user, address, name, content)]
            case IncomingDelete(name) => [Deleted(user, address, name)]
  {
  }

  // ------------------------------------------------------------------ the backup

  /** The user an item is about. */
  function Subject(item: Item): CString {
    match item
    case Beat => []
    case Joined(_, _, _) => []
    case _ => item.user
  }

  /** What the backup makes of an item; None where it would follow a null session. */
  function ReplayFor(u: User, item: Item): Option<User> {
    match item
    case Beat => Some(u)
    case Joined(_, _, _) => Some(u)
    case Connected(_, address) => Some(AfterConnect(u, address))
    case Disconnected(_, address) =>
      var i := SlotOf(u.slots, address);
      if i == |u.slots| then None else Some(AfterFinishExit(u, i))
    case Uploaded(_, address, file, content) => ReplayFile(u, address, IncomingSend(file, content))
    case Deleted(_, address, file) => ReplayFile(u, address, IncomingDelete(file))
  }

  function ReplayFile(u: User, address: Address, incoming: Incoming): Option<User> {
    var i := SlotOf(u.slots, address);
    if i == |u.slots| then None else Some(After(u, u.slots[i].value.active, incoming))
  }

  /** The backup follows a null session exactly if a disconnect or a file names an address that
   *  no session of the user has. */
  lemma NullSessionIff(u: User, item: Item)
    ensures ReplayFor(u, item) == None <==>
            (item.Disconnected? || item.Uploaded? || item.Deleted?) && !Live(u, item.address)
  {
    if item.Disconnected? || item.Uploaded? || item.Deleted? {
      var i := SlotOf(u.slots, item.address);
      if i < |u.slots| {
        assert u.slots[i].Some? && u.slots[i].value.address == item.address;
      }
    }
  }

  /** The backup's loop body, on the context of the user: the item of `ReplayFor`, carried out
   *  on the mutable session slots, file list and folder. */
  method ApplyItem(context: Context, item: Item) returns (ok: bool)
    requires context.Valid()
    modifies context.sessions, context.disk, context.files, context.files.Repr
    ensures ok <==> ReplayFor(old(context.View()), item).Some?
    ensures context.Valid() && (ok ==> Some(context.View()) == ReplayFor(old(context.View()), item))
  {
    match item {
      case Beat =>
        return true;
      case Joined(_, _, _) =>
        return true;
      case Connected(_, address) =>
        var _ := context.Connect(address, false);
        return true;
      case Disconnected(_, address) =>
        var session := context.GetSessionByAddress(address);
        if session == null {
          return false;
        }
        var _ := context.FinishExit(session);
        return true;
      case Uploaded(_, address, file, content) =>
        ok := ApplyFile(context, address, IncomingSend(file, content));
      case Deleted(_, address, file) =>
        ok := ApplyFile(context, address, IncomingDelete(file));
    }
  }

  method ApplyFile(context: Context, address: Address, incoming: Incoming) returns (ok: bool)
    requires context.Valid()
    modifies context.disk, context.files, context.files.Repr
    ensures ok <==> ReplayFile(old(context.View()), address, incoming).Some?
    ensures context.Valid() && (ok ==> Some(context.View()) == ReplayFile(old(context.View()), address, incoming))
  {
    var session := context.GetSessionByAddress(address);
    if session == null {
      return false;
    }
    var _, _ := context.HandleIncomingFile(session, incoming, false);
    return true;
  }

  // ------------------------------------------------------------------ one user, one step

  ghost predicate DistinctAddresses(slots: seq<Option<SessionView>>) {
    forall i, j :: 0 <= i < j < |slots| && slots[i].Some? && slots[j].Some? ==>
      slots[i].value.address != slots[j].value.address
  }

  /** The same sessions in the same slots, by address, all of them active at the backup. */
  ghost predicate SameSessions(m: User, b: User) {
    && |m.slots| == |b.slots| && DistinctAddresses(m.slots)
    && forall i :: 0 <= i < |m.slots| ==>
         && (m.slots[i].None? <==> b.slots[i].None?)
         && (m.slots[i].Some? ==> b.slots[i] == Some(SessionView(m.slots[i].value.address, true)))
  }

  /** The backup's copy of a user: the same sessions and the same folder. */
  ghost predicate Mirrors(m: User, b: User) {
    SameSessions(m, b) && m.folder == b.folder
  }

  lemma SameSlot(m: User, b: User, slot: nat)
    requires SameSessions(m, b) && Occupied(m, slot)
    ensures SlotOf(b.slots, m.slots[slot].value.address) == slot
  {
    var address := m.slots[slot].value.address;
    var i := SlotOf(b.slots, address);
    assert b.slots[slot].value.address == address;
    assert i <= slot;
  }

  lemma SameFree(m: User, b: User)
    requires SameSessions(m, b)
    ensures FreeSlot(m.slots) == FreeSlot(b.slots)
  {
    assert !(FreeSlot(m.slots) < FreeSlot(b.slots));
    assert !(FreeSlot(b.slots) < FreeSlot(m.slots));
  }

  /** A packet that an exiting session still puts in the folder although its index entry
   *  would have to change. */
  predicate Late(u: User, op: Op)
    requires EnabledFor(u, op)
  {
    op.Receive? && !u.slots[op.slot].value.active && Noticed(u, true, op.incoming)
  }

  /** The items of one step applied to the backup's user. */
  function ReplaySeq(u: User, items: seq<Item>): Option<User>
    decreases |items|
  {
    if items == [] then Some(u)
    else
      match ReplayFor(u, items[0])
      case None => None
      case Some(u') => ReplaySeq(u', items[1..])
  }

  lemma ReplayOne(u: User, item: Item)
    ensures ReplaySeq(u, [item]) == ReplayFor(u, item)
  {
    assert [item][1..] == [];
  }

  /** A handled packet. */
  lemma ReceiveMirrors(m: User, b: User, slot: nat, incoming: Incoming)
    requires Mirrors(m, b) && Occupied(m, slot)
    ensures var session := m.slots[slot].value;
            var m', r := After(m, session.active, incoming), ReplayFile(b, session.address, incoming);
            && r.Some? && Mirrors(m', r.value)
            && (m.index == b.index ==> (m'.index == r.value.index <==> session.active || !Noticed(m, true, incoming)))
  {
    SameSlot(m, b, slot);
    NoticedIsChange(m, true, incoming);
  }

  /** A session that comes or goes. */
  lemma SlotsMirror(m: User, b: User, op: Op)
    requires SameSessions(m, b) && EnabledFor(m, op)
    requires op.Connect? || op.BeginExit? || op.FinishExit?
    ensures var m', r := ApplyFor(m, op), ReplaySeq(b, Emitted(m, op));
            && r.Some? && SameSessions(m', r.value)
            && m'.index == m.index && r.value.index == b.index
            && m'.folder == m.folder && r.value.folder == b.folder
  {
    match op
    case Connect(user, address) =>
      SameFree(m, b);
      ReplayOne(b, Connected(user, address));
    case BeginExit(_, _) =>
    case FinishExit(user, slot) =>
      SameSlot(m, b, slot);
      ReplayOne(b, Disconnected(user, m.slots[slot].value.address));
  }

  /** A delete command: the manager's order of list and file does not show. */
  lemma CommandMirrors(m: User, b: User, slot: nat, name: CString)
    requires Mirrors(m, b) && Occupied(m, slot) && name in m.folder
    ensures var m', r := AfterDeleteCommand(m, name), ReplayFile(b, m.slots[slot].value.address, IncomingDelete(name));
            r.Some? && Mirrors(m', r.value) && (m.index == b.index ==> m'.index == r.value.index)
  {
    SameSlot(m, b, slot);
  }

  /** One operation of the manager, replayed: the backup keeps mirroring the user, and it
   *  keeps the same index if and only if the packet was not a late one. */
  lemma StepMirrors(m: User, b: User, op: Op)
    requires EnabledFor(m, op) && Mirrors(m, b)
    ensures var r := ReplaySeq(b, Emitted(m, op));
            && r.Some? && Mirrors(ApplyFor(m, op), r.value)
            && (m.index == b.index ==> (ApplyFor(m, op).index == r.value.index <==> !Late(m, op)))
  {
    match op
    case Receive(user, slot, incoming) =>
      ReceiveMirrors(m, b, slot, incoming);
      ReplayOne(b, Carrying(user, m.slots[slot].value.address, incoming));
    case Command(user, slot, name) =>
      if name in m.folder {
        CommandMirrors(m, b, slot, name);
        ReplayOne(b, Deleted(user, m.slots[slot].value.address, name));
      }
    case Other(item) =>
      ReplayOne(b, item);
    case _ =>
      SlotsMirror(m, b, op);
  }

  // ------------------------------------------------------------------ whole runs

  function UserOf(users: Users, op: Op): User {
    if op.Other? then NEW_USER else Get(users, op.user)
  }

  predicate Enabled(users: Users, op: Op) {
    EnabledFor(UserOf(users, op), op)
  }

  function Apply(users: Users, op: Op): Users
    requires Enabled(users, op)
  {
    if op.Other? then users else users[op.user := ApplyFor(UserOf(users, op), op)]
  }

  predicate IsRun(users: Users, ops: seq<Op>)
    decreases |ops|
  {
    ops == [] || (Enabled(users, ops[0]) && IsRun(Apply(users, ops[0]), ops[1..]))
  }

  function Exec(users: Users, ops: seq<Op>): Users
    requires IsRun(users, ops)
    decreases |ops|
  {
    if ops == [] then users else Exec(Apply(users, ops[0]), ops[1..])
  }

  /** Everything the manager sends along a run. */
  function Stream(users: Users, ops: seq<Op>): seq<Item>
    requires IsRun(users, ops)
    decreases |ops|
  {
    if ops == [] then [] else Emitted(UserOf(users, ops[0]), ops[0]) + Stream(Apply(users, ops[0]), ops[1..])
  }

  /** No packet of the run is a late one. */
  predicate Prompt(users: Users, ops: seq<Op>)
    requires IsRun(users, ops)
    decreases |ops|
  {
    ops == [] || (!Late(UserOf(users, ops[0]), ops[0]) && Prompt(Apply(users, ops[0]), ops[1..]))
  }

  /** The backup applies items in order; None once it would follow a null session. */
  function ReplayAll(users: Users, items: seq<Item>): Option<Users>
    decreases |items|
  {
    if items == [] then Some(users)
    else
      match ReplayFor(Get(users, Subject(items[0])), items[0])
      case None => None
      case Some(u) => ReplayAll(users[Subject(items[0]) := u], items[1..])
  }

  lemma {:induction false} ReplayAllConcat(users: Users, a: seq<Item>, b: seq<Item>)
    ensures ReplayAll(users, a + b)
            == match ReplayAll(users, a) case None => None case Some(u) => ReplayAll(u, b)
    decreases |a|
  {
    if a == [] {
      assert a + b == b;
    } else {
      assert (a + b)[1..] == a[1..] + b;
      match ReplayFor(Get(users, Subject(a[0])), a[0])
      case None =>
      case Some(u) => ReplayAllConcat(users[Subject(a[0]) := u], a[1..], b);
    }
  }

  /** The backup mirrors every user. */
  ghost predicate Replicates(m: Users, b: Users) {
    forall name: CString :: Mirrors(Get(m, name), Get(b, name))
  }

  ghost predicate SameIndexes(m: Users, b: Users) {
    forall name: CString :: Get(m, name).index == Get(b, name).index
  }

  /** One step touches one user. */
  lemma ReplayStep(b: Users, u: User, op: Op) returns (b': Users)
    requires EnabledFor(u, op) && ReplaySeq(Get(b, Who(op)), Emitted(u, op)).Some?
    ensures ReplayAll(b, Emitted(u, op)) == Some(b')
    ensures forall name: CString :: Get(b', name)
              == if name == Who(op) then ReplaySeq(Get(b, Who(op)), Emitted(u, op)).value else Get(b, name)
  {
    var items := Emitted(u, op);
    b' := b;
    if items != [] {
      assert items == [items[0]] && Subject(items[0]) == Who(op);
      ReplayOne(Get(b, Who(op)), items[0]);
      b' := b[Who(op) := ReplayFor(Get(b, Who(op)), items[0]).value];
      assert items[1..] == [];
    }
  }

  function Who(op: Op): CString {
    if op.Other? then [] else op.user
  }

  lemma ApplyTouches(users: Users, op: Op, name: CString)
    requires Enabled(users, op)
    ensures !op.Other? && name == op.user ==> Get(Apply(users, op), name) == ApplyFor(Get(users, name), op)
    ensures op.Other? || name != op.user ==> Get(Apply(users, op), name) == Get(users, name)
  {
  }

  lemma StepReplicates(m: Users, b: Users, op: Op) returns (b': Users)
    requires Enabled(m, op) && Replicates(m, b)
    ensures ReplayAll(b, Emitted(UserOf(m, op), op)) == Some(b')
    ensures Replicates(Apply(m, op), b')
    ensures SameIndexes(m, b) && !Late(UserOf(m, op), op) ==> SameIndexes(Apply(m, op), b')
  {
    var name, u := Who(op), UserOf(m, op);
    assert Mirrors(Get(m, name), Get(b, name));
    if op.Other? {
      ReplayOne(Get(b, name), op.item);
    } else {
      StepMirrors(u, Get(b, name), op);
    }
    b' := ReplayStep(b, u, op);
    forall other: CString
      ensures Mirrors(Get(Apply(m, op), other), Get(b', other))
      ensures SameIndexes(m, b) && !Late(u, op) ==> Get(Apply(m, op), other).index == Get(b', other).index
    {
      ApplyTouches(m, op, other);
      assert Mirrors(Get(m, other), Get(b, other));
    }
  }

  lemma {:induction false} RunReplicates(m: Users, b: Users, ops: seq<Op>) returns (b': Users)
    requires IsRun(m, ops) && Replicates(m, b)
    ensures ReplayAll(b, Stream(m, ops)) == Some(b') && Replicates(Exec(m, ops), b')
    ensures SameIndexes(m, b) && Prompt(m, ops) ==> SameIndexes(Exec(m, ops), b')
    decreases |ops|
  {
    b' := b;
    if ops != [] {
      var first := Emitted(UserOf(m, ops[0]), ops[0]);
      var next := StepReplicates(m, b, ops[0]);
      b' := RunReplicates(Apply(m, ops[0]), next, ops[1..]);
      ReplayAllConcat(b, first, Stream(Apply(m, ops[0]), ops[1..]));
    }
  }

  /** Every user's index agrees with the folder. */
  ghost predicate AllAgree(users: Users) {
    forall name: CString :: Agrees(Get(users, name).index, Get(users, name).folder)
  }

  /** File index agreement, exactly: an operation breaks it if and only if it is late. */
  lemma StepAgreement(u: User, op: Op)
    requires EnabledFor(u, op) && Agrees(u.index, u.folder)
    ensures Agrees(ApplyFor(u, op).index, ApplyFor(u, op).folder) <==> !Late(u, op)
  {
    match op
    case Receive(_, slot, incoming) =>
      var active := u.slots[slot].value.active;
      if incoming.IncomingSend? {
        SendAgreement(u, active, incoming.name, incoming.content);
      } else {
        DeleteAgreement(u, active, incoming.name);
      }
    case Command(_, _, name) => DeleteCommandAgreement(u, name);
    case _ =>
  }

  lemma {:induction false} RunAgreement(users: Users, ops: seq<Op>)
    requires IsRun(users, ops) && AllAgree(users) && Prompt(users, ops)
    ensures AllAgree(Exec(users, ops))
    decreases |ops|
  {
    if ops != [] {
      var op := ops[0];
      forall name: CString
        ensures Agrees(Get(Apply(users, op), name).index, Get(Apply(users, op), name).folder)
      {
        ApplyTouches(users, op, name);
        assert Agrees(Get(users, name).index, Get(users, name).folder);
        if !op.Other? && name == op.user {
          StepAgreement(Get(users, name), op);
        }
      }
      RunAgreement(Apply(users, op), ops[1..]);
    }
  }

  // ------------------------------------------------------------------ the backup's own index

  /** All sessions are active, as every session of a backup is, and the index agrees. */
  ghost predicate Sound(u: User) {
    && Agrees(u.index, u.folder)
    && forall i :: 0 <= i < |u.slots| && u.slots[i].Some? ==> u.slots[i].value.active
  }

  ghost predicate AllSound(users: Users) {
    forall name: CString :: Sound(Get(users, name))
  }

  lemma ReplayKeepsSound(u: User, item: Item)
    requires Sound(u) && ReplayFor(u, item).Some?
    ensures Sound(ReplayFor(u, item).value)
  {
    match item
    case Uploaded(_, _, file, content) => SendAgreement(u, true, file, content);
    case Deleted(_, _, file) => DeleteAgreement(u, true, file);
    case _ =>
  }

  /** A backup's index always agrees with its own folder, late packets or not. */
  lemma {:induction false} BackupStaysSound(users: Users, items: seq<Item>)
    requires AllSound(users) && ReplayAll(users, items).Some?
    ensures AllSound(ReplayAll(users, items).value)
    decreases |items|
  {
    if items != [] {
      var who := Subject(items[0]);
      assert Sound(Get(users, who));
      ReplayKeepsSound(Get(users, who), items[0]);
      var next := users[who := ReplayFor(Get(users, who), items[0]).value];
      forall name: CString ensures Sound(Get(next, name)) { assert Sound(Get(users, name)); }
      BackupStaysSound(next, items[1..]);
    }
  }

  lemma SoundAgrees(users: Users)
    requires AllSound(users)
    ensures AllAgree(users)
  {
    forall name: CString ensures Agrees(Get(users, name).index, Get(users, name).folder) {
      assert Sound(Get(users, name));
    }
  }

  lemma FreshStart()
    ensures Replicates(map[], map[]) && SameIndexes(map[], map[]) && AllAgree(map[]) && AllSound(map[])
  {
  }

  /** Replication: a backup that is there from the start and applies the manager's events in
   *  order never follows a null session, has every user's sessions in the same slots by
   *  address and the same folder, and an index that agrees with it.  Unless a packet was late
   *  the manager's index is the same and agrees too. */
  lemma BackupMirrorsManager(ops: seq<Op>)
    requires IsRun(map[], ops)
    ensures var m, b := Exec(map[], ops), ReplayAll(map[], Stream(map[], ops));
            && b.Some? && Replicates(m, b.value) && AllSound(b.value)
            && (Prompt(map[], ops) ==> SameIndexes(m, b.value) && AllAgree(m))
  {
    FreshStart();
    var b := RunReplicates(map[], map[], ops);
    BackupStaysSound(map[], Stream(map[], ops));
    if Prompt(map[], ops) {
      RunAgreement(map[], ops);
    }
  }

  lemma OneStep(users: Users, op: Op, ops: seq<Op>)
    requires Enabled(users, op) && IsRun(Apply(users, op), ops)
    ensures IsRun(users, [op] + ops)
    ensures Exec(users, [op] + ops) == Exec(Apply(users, op), ops)
    ensures Stream(users, [op] + ops) == Emitted(UserOf(users, op), op) + Stream(Apply(users, op), ops)
  {
    assert ([op] + ops)[1..] == ops;
  }

  /** The first n items of a run are the items of its first j operations. */
  lemma {:induction false} ItemsOfPrefix(users: Users, ops: seq<Op>, n: nat) returns (j: nat)
    requires IsRun(users, ops) && n <= |Stream(users, ops)|
    ensures j <= |ops| && IsRun(users, ops[..j]) && Stream(users, ops[..j]) == Stream(users, ops)[..n]
    decreases |ops|
  {
    j := 0;
    if n > 0 {
      var op, later := ops[0], Apply(users, ops[0]);
      var first := Emitted(UserOf(users, op), op);
      assert |first| <= 1;
      j := ItemsOfPrefix(later, ops[1..], n - |first|);
      OneStep(users, op, ops[1..][..j]);
      assert ops[..j + 1] == [op] + ops[1..][..j];
      assert (first + Stream(later, ops[1..]))[..n] == first + Stream(later, ops[1..])[..n - |first|];
      j := j + 1;
    }
  }

  // ------------------------------------------------------------------ a late packet

  /** The last packet of an exiting session. */
  function LateRun(user: CString, address: Address, name: CString, content: Content): seq<Op> {
    [Connect(user, address)] + ([BeginExit(user, 0)] + ([Receive(user, 0, IncomingSend(name, content))] + []))
  }

  lemma LateRunSteps(user: CString, address: Address, name: CString, content: Content)
    ensures var ops := LateRun(user, address, name, content);
            && IsRun(map[], ops)
            && Stream(map[], ops) == [Connected(user, address)] + ([] + ([Uploaded(user, address, name, content)] + []))
            && Get(Exec(map[], ops), user).index == [] && Get(Exec(map[], ops), user).folder == map[name := content]
  {
    var u1 := AfterConnect(NEW_USER, address);
    var u2 := AfterBeginExit(u1, 0);
    var m1: Users := map[user := u1];
    var m2: Users := m1[user := u2];
    assert Apply(map[], Connect(user, address)) == m1;
    assert Apply(m1, BeginExit(user, 0)) == m2;
    var op := Receive(user, 0, IncomingSend(name, content));
    OneStep(m2, op, []);
    OneStep(m1, BeginExit(user, 0), [op] + []);
    OneStep(map[], Connect(user, address), [BeginExit(user, 0)] + ([op] + []));
  }

  /** One late upload: both folders have the file, the backup has indexed it, and the manager
   *  has not, although it sent the event. */
  lemma LateUploadDiverges(user: CString, address: Address, name: CString, content: Content)
    ensures var ops := LateRun(user, address, name, content);
            && IsRun(map[], ops)
            && var m, b := Get(Exec(map[], ops), user), ReplayAll(map[], Stream(map[], ops));
            && b.Some? && m.folder == Get(b.value, user).folder == map[name := content]
            && m.index == [] && Get(b.value, user).index == [IndexEntry(name, Crc32(content))]
  {
    LateRunSteps(user, address, name, content);
    var items := [Connected(user, address), Uploaded(user, address, name, content)];
    assert Stream(map[], LateRun(user, address, name, content)) == items;
    var u1 := AfterConnect(NEW_USER, address);
    var b1: Users := map[user := u1];
    assert SlotOf(u1.slots, address) == 0;
    assert items[1..] == [Uploaded(user, address, name, content)];
    assert items[1..][1..] == [];
    assert ReplayAll(b1, items[1..]) == Some(b1[user := AfterSend(u1, true, name, content)]);
  }

  // ------------------------------------------------------------------ end to end

  /** End to end: whatever the manager does, the bytes it writes make a backup that reads them
   *  mirror it, and whatever the manager writes later is still there to be read. */
  lemma BytesMirrorManager(ops: seq<Op>, rest: seq<byte>)
    requires IsRun(map[], ops)
    requires forall i :: 0 <= i < |Stream(map[], ops)| ==> Carried(Stream(map[], ops)[i])
    ensures var items := Stream(map[], ops);
            var (found, end) := TakeItems(StreamBytes(items) + rest, |items|);
            var b := ReplayAll(map[], Decoded(found));
            && end == rest && b.Some? && Replicates(Exec(map[], ops), b.value)
            && (Prompt(map[], ops) ==> SameIndexes(Exec(map[], ops), b.value))
  {
    var items := Stream(map[], ops);
    StreamRoundTrip(items, rest);
    DecodedFound(items);
    BackupMirrorsManager(ops);
  }
}
