/** What becomes of backups that a dying manager left at different items, once one of them is
 *  the manager (src/server/serverRoles.c, src/server/replica.c). */
module NextTerm {
  import opened Bytes
  import opened Seqs
  import opened ServerCommon
  import opened Crc
  import opened UserState
  import opened EventStream
  import opened Replication
  import opened Failover

  /** What every server does when a new leader has been decided. */
  function DisconnectAll(users: Users): Users {
    map name | name in users :: AfterDisconnectAll(users[name])
  }

  /** The item carries this file of this user, or its removal. */
  predicate Touches(item: Item, user: CString, file: CString) {
    (item.Uploaded? || item.Deleted?) && item.user == user && item.file == file
  }

  predicate Touched(items: seq<Item>, user: CString, file: CString) {
    exists i :: 0 <= i < |items| && Touches(items[i], user, file)
  }

  function FileOf(users: Users, user: CString, file: CString): Option<Content> {
    FileIn(Get(users, user).folder, file)
  }

  function EntryOf(users: Users, user: CString, file: CString): Option<nat> {
    Lookup(Get(users, user).index, file)
  }

  lemma TouchedConcat(a: seq<Item>, b: seq<Item>, user: CString, file: CString)
    ensures Touched(a + b, user, file) <==> Touched(a, user, file) || Touched(b, user, file)
  {
    if i :| 0 <= i < |a| && Touches(a[i], user, file) { assert Touches((a + b)[i], user, file); }
    if i :| 0 <= i < |b| && Touches(b[i], user, file) { assert Touches((a + b)[|a| + i], user, file); }
    if i :| 0 <= i < |a + b| && Touches((a + b)[i], user, file) {
      assert if i < |a| then Touches(a[i], user, file) else Touches(b[i - |a|], user, file);
    }
  }

  // ------------------------------------------------------------------ one operation

  /** Every user's sessions are the same; the folders may be anything. */
  ghost predicate AllSameSessions(m: Users, b: Users) {
    forall name: CString :: SameSessions(Get(m, name), Get(b, name))
  }

  /** What the files of a user are after the items: a touched one is the same at both, the
   *  others are as they were. */
  ghost predicate Follows(m: User, b: User, m': User, b': User, items: seq<Item>, user: CString) {
    forall file: CString ::
      if Touched(items, user, file) then FileIn(m'.folder, file) == FileIn(b'.folder, file)
      else FileIn(m'.folder, file) == FileIn(m.folder, file) && FileIn(b'.folder, file) == FileIn(b.folder, file)
  }

  lemma OneItemTouches(item: Item, user: CString, file: CString)
    ensures Touched([item], user, file) <==> Touches(item, user, file)
  {
    if Touches(item, user, file) { assert Touches([item][0], user, file); }
  }

  lemma PacketFollows(m: User, b: User, user: CString, slot: nat, incoming: Incoming, m': User)
    requires SameSessions(m, b) && Occupied(m, slot)
    requires m'.slots == m.slots
    requires m'.folder == After(m, true, incoming).folder
    ensures var item := Carrying(user, m.slots[slot].value.address, incoming);
            var r := ReplaySeq(b, [item]);
            && r.Some? && SameSessions(m', r.value)
            && Follows(m, b, m', r.value, [item], user)
  {
    var item := Carrying(user, m.slots[slot].value.address, incoming);
    SameSlot(m, b, slot);
    ReplayOne(b, item);
    forall file: CString ensures Touched([item], user, file) <==> Touches(item, user, file) {
      OneItemTouches(item, user, file);
    }
  }

  /** One operation of the manager and its replay, for folders that need not be the same. */
  lemma StepFollows(m: User, b: User, op: Op)
    requires EnabledFor(m, op) && SameSessions(m, b) && !op.Other?
    ensures var items := Emitted(m, op);
            var r := ReplaySeq(b, items);
            && r.Some? && SameSessions(ApplyFor(m, op), r.value)
            && Follows(m, b, ApplyFor(m, op), r.value, items, op.user)
  {
    match op
    case Receive(user, slot, incoming) =>
      PacketFollows(m, b, user, slot, incoming, ApplyFor(m, op));
    case Command(user, slot, name) =>
      if name in m.folder {
        PacketFollows(m, b, user, slot, IncomingDelete(name), ApplyFor(m, op));
      }
    case _ =>
      SlotsMirror(m, b, op);
  }

  // ------------------------------------------------------------------ a term

  ghost predicate AllFollow(m: Users, b: Users, m': Users, b': Users, items: seq<Item>) {
    forall name: CString :: Follows(Get(m, name), Get(b, name), Get(m', name), Get(b', name), items, name)
  }

  /** The items of an operation are about its user. */
  lemma OthersUntouched(u: User, op: Op, name: CString, file: CString)
    requires EnabledFor(u, op) && (op.Other? || name != op.user)
    ensures !Touched(Emitted(u, op), name, file)
  {
  }

  lemma TermStep(m: Users, b: Users, op: Op) returns (b': Users)
    requires Enabled(m, op) && AllSameSessions(m, b)
    ensures ReplayAll(b, Emitted(UserOf(m, op), op)) == Some(b')
    ensures AllSameSessions(Apply(m, op), b') && AllFollow(m, b, Apply(m, op), b', Emitted(UserOf(m, op), op))
  {
    var name, u := Who(op), UserOf(m, op);
    assert SameSessions(Get(m, name), Get(b, name));
    if op.Other? {
      ReplayOne(Get(b, name), op.item);
    } else {
      StepFollows(u, Get(b, name), op);
    }
    b' := ReplayStep(b, u, op);
    forall other: CString
      ensures SameSessions(Get(Apply(m, op), other), Get(b', other))
      ensures Follows(Get(m, other), Get(b, other), Get(Apply(m, op), other), Get(b', other), Emitted(u, op), other)
    {
      ApplyTouches(m, op, other);
      assert SameSessions(Get(m, other), Get(b, other));
      if op.Other? || other != op.user {
        forall file: CString ensures !Touched(Emitted(u, op), other, file) { OthersUntouched(u, op, other, file); }
      }
    }
  }

  lemma FollowsOn(m: User, b: User, m1: User, b1: User, m2: User, b2: User,
                  first: seq<Item>, later: seq<Item>, name: CString)
    requires Follows(m, b, m1, b1, first, name) && Follows(m1, b1, m2, b2, later, name)
    ensures Follows(m, b, m2, b2, first + later, name)
  {
    forall file: CString
      ensures Touched(first + later, name, file) <==> Touched(first, name, file) || Touched(later, name, file)
    {
      TouchedConcat(first, later, name, file);
    }
  }

  /** Any operations of the manager, replayed by a backup whose folders need not be the same. */
  lemma {:induction false} TermFollows(m: Users, b: Users, ops: seq<Op>) returns (b': Users)
    requires IsRun(m, ops) && AllSameSessions(m, b)
    ensures ReplayAll(b, Stream(m, ops)) == Some(b')
    ensures AllSameSessions(Exec(m, ops), b') && AllFollow(m, b, Exec(m, ops), b', Stream(m, ops))
    decreases |ops|
  {
    b' := b;
    if ops != [] {
      var next, first := Apply(m, ops[0]), Emitted(UserOf(m, ops[0]), ops[0]);
      var b1 := TermStep(m, b, ops[0]);
      b' := TermFollows(next, b1, ops[1..]);
      ReplayAllConcat(b, first, Stream(next, ops[1..]));
      forall name: CString
        ensures Follows(Get(m, name), Get(b, name), Get(Exec(m, ops), name), Get(b', name), Stream(m, ops), name)
      {
        FollowsOn(Get(m, name), Get(b, name), Get(next, name), Get(b1, name), Get(Exec(m, ops), name), Get(b', name),
                  first, Stream(next, ops[1..]), name);
      }
    }
  }

  // ------------------------------------------------------------------ the next manager

  lemma Disconnected(users: Users, name: CString)
    ensures var u, v := Get(users, name), Get(DisconnectAll(users), name);
            v.folder == u.folder && v.index == u.index && v.slots == NEW_USER.slots
  {
  }

  lemma NewTerm(a: Users, b: Users)
    ensures AllSameSessions(DisconnectAll(a), DisconnectAll(b))
  {
    forall name: CString ensures SameSessions(Get(DisconnectAll(a), name), Get(DisconnectAll(b), name)) {
      Disconnected(a, name);
      Disconnected(b, name);
    }
  }

  lemma SuccessorIsSound(users: Users)
    requires AllSound(users)
    ensures AllSound(DisconnectAll(users))
  {
    forall name: CString ensures Sound(Get(DisconnectAll(users), name)) {
      Disconnected(users, name);
      assert Sound(Get(users, name));
    }
  }

  predicate SameFile(a: Users, b: Users, user: CString, file: CString) {
    FileOf(a, user, file) == FileOf(b, user, file)
  }

  predicate SameEntry(a: Users, b: Users, user: CString, file: CString) {
    EntryOf(a, user, file) == EntryOf(b, user, file)
  }

  lemma FileFollows(a: Users, b: Users, m: Users, r: Users, items: seq<Item>, user: CString, file: CString)
    requires AllFollow(DisconnectAll(a), DisconnectAll(b), m, r, items)
    ensures SameFile(m, r, user, file) <==> SameFile(a, b, user, file) || Touched(items, user, file)
    ensures !Touched(items, user, file) ==>
              FileOf(m, user, file) == FileOf(a, user, file) && FileOf(r, user, file) == FileOf(b, user, file)
  {
    var a', b' := DisconnectAll(a), DisconnectAll(b);
    Disconnected(a, user);
    Disconnected(b, user);
    assert Follows(Get(a', user), Get(b', user), Get(m, user), Get(r, user), items, user);
  }

  lemma EntryOfFile(users: Users, user: CString, file: CString)
    requires AllAgree(users)
    ensures EntryOf(users, user, file)
            == match FileOf(users, user, file) case None => None case Some(content) => Some(Crc32(content))
  {
    assert Agrees(Get(users, user).index, Get(users, user).folder);
  }

  lemma EntryFollows(a: Users, b: Users, m: Users, r: Users, items: seq<Item>, user: CString, file: CString)
    requires AllFollow(DisconnectAll(a), DisconnectAll(b), m, r, items)
    requires AllAgree(a) && AllAgree(b) && AllAgree(m) && AllAgree(r)
    ensures SameEntry(m, r, user, file) <==> SameEntry(a, b, user, file) || Touched(items, user, file)
  {
    FileFollows(a, b, m, r, items, user, file);
    EntryOfFile(a, user, file);
    EntryOfFile(b, user, file);
    EntryOfFile(m, user, file);
    EntryOfFile(r, user, file);
  }

  lemma SameFilesSameFolder(f: Folder, g: Folder)
    ensures f == g <==> forall file: CString :: FileIn(f, file) == FileIn(g, file)
  {
    if forall file: CString :: FileIn(f, file) == FileIn(g, file) {
      forall file: CString ensures file in f <==> file in g {
        assert FileIn(f, file) == FileIn(g, file);
      }
      forall file: CString | file in f ensures f[file] == g[file] {
        assert FileIn(f, file) == FileIn(g, file);
      }
    }
  }

  lemma ReplicatesMeans(m: Users, b: Users)
    requires AllSameSessions(m, b)
    ensures Replicates(m, b) <==> forall user: CString, file: CString :: SameFile(m, b, user, file)
  {
    forall user: CString
      ensures Mirrors(Get(m, user), Get(b, user)) <==> forall file: CString :: SameFile(m, b, user, file)
    {
      assert SameSessions(Get(m, user), Get(b, user));
      SameFilesSameFolder(Get(m, user).folder, Get(b, user).folder);
      assert forall file: CString ::
          SameFile(m, b, user, file) <==> FileIn(Get(m, user).folder, file) == FileIn(Get(b, user).folder, file);
    }
  }

  /** The next term, exactly: two backups, wherever the old manager left them, of which one
   *  becomes the manager.  Whatever it does, the other one never follows a null session and has
   *  the same sessions; and a file of a user is the same at both if and only if it was to begin
   *  with or an event of the term is about it.  Without late packets the index entries behave
   *  the same way. */
  lemma NextTermReplicates(a: Users, b: Users, next: seq<Op>)
    requires AllSound(a) && AllSound(b) && IsRun(DisconnectAll(a), next)
    ensures var items, m := Stream(DisconnectAll(a), next), Exec(DisconnectAll(a), next);
            var r := ReplayAll(DisconnectAll(b), items);
            && r.Some? && AllSameSessions(m, r.value) && AllSound(r.value)
            && (forall user: CString, file: CString ::
                  SameFile(m, r.value, user, file) <==> SameFile(a, b, user, file) || Touched(items, user, file))
            && (Prompt(DisconnectAll(a), next) ==>
                  && AllAgree(m)
                  && forall user: CString, file: CString ::
                       SameEntry(m, r.value, user, file) <==> SameEntry(a, b, user, file) || Touched(items, user, file))
  {
    var start, follower := DisconnectAll(a), DisconnectAll(b);
    var items, m := Stream(start, next), Exec(start, next);
    NewTerm(a, b);
    var r := TermFollows(start, follower, next);
    SuccessorIsSound(a);
    SuccessorIsSound(b);
    BackupStaysSound(follower, items);
    forall user: CString, file: CString
      ensures SameFile(m, r, user, file) <==> SameFile(a, b, user, file) || Touched(items, user, file)
    {
      FileFollows(a, b, m, r, items, user, file);
    }
    if Prompt(start, next) {
      SoundAgrees(a);
      SoundAgrees(b);
      SoundAgrees(start);
      SoundAgrees(r);
      RunAgreement(start, next);
      forall user: CString, file: CString
        ensures SameEntry(m, r, user, file) <==> SameEntry(a, b, user, file) || Touched(items, user, file)
      {
        EntryFollows(a, b, m, r, items, user, file);
      }
    }
  }

  /** So the follower has caught up, and mirrors the new manager, exactly when every file that
   *  differed has been touched. */
  lemma CaughtUpIffTouched(a: Users, b: Users, next: seq<Op>)
    requires AllSound(a) && AllSound(b) && IsRun(DisconnectAll(a), next)
    ensures var items := Stream(DisconnectAll(a), next);
            var r := ReplayAll(DisconnectAll(b), items);
            && r.Some?
            && (Replicates(Exec(DisconnectAll(a), next), r.value) <==>
                  forall user: CString, file: CString :: SameFile(a, b, user, file) || Touched(items, user, file))
  {
    NextTermReplicates(a, b, next);
    ReplicatesMeans(Exec(DisconnectAll(a), next), ReplayAll(DisconnectAll(b), Stream(DisconnectAll(a), next)).value);
  }

  // ------------------------------------------------------------------ at different items

  lemma ItemLeavesOthers(u: User, item: Item, file: CString)
    requires ReplayFor(u, item).Some? && !Touches(item, Subject(item), file)
    ensures FileIn(ReplayFor(u, item).value.folder, file) == FileIn(u.folder, file)
  {
  }

  lemma {:induction false} ReplayLeavesOthers(b: Users, items: seq<Item>, user: CString, file: CString)
    requires ReplayAll(b, items).Some? && !Touched(items, user, file)
    ensures FileOf(ReplayAll(b, items).value, user, file) == FileOf(b, user, file)
    decreases |items|
  {
    if items != [] {
      var who := Subject(items[0]);
      assert items == [items[0]] + items[1..];
      TouchedConcat([items[0]], items[1..], user, file);
      OneItemTouches(items[0], user, file);
      if who == user { ItemLeavesOthers(Get(b, who), items[0], file); }
      var next := b[who := ReplayFor(Get(b, who), items[0]).value];
      assert FileOf(next, user, file) == FileOf(b, user, file);
      ReplayLeavesOthers(next, items[1..], user, file);
    }
  }

  /** The items that only one of two backups has seen. */
  function Between(items: seq<Item>, n: nat, n': nat): seq<Item>
    requires n <= |items| && n' <= |items|
  {
    if n <= n' then items[n..n'] else items[n'..n]
  }

  lemma LaterBackup(items: seq<Item>, n: nat, n': nat, user: CString, file: CString)
    requires n <= n' <= |items| && ReplayAll(map[], items[..n]).Some? && ReplayAll(map[], items[..n']).Some?
    requires !Touched(items[n..n'], user, file)
    ensures SameFile(ReplayAll(map[], items[..n]).value, ReplayAll(map[], items[..n']).value, user, file)
  {
    assert items[..n'] == items[..n] + items[n..n'];
    ReplayAllConcat(map[], items[..n], items[n..n']);
    ReplayLeavesOthers(ReplayAll(map[], items[..n]).value, items[n..n'], user, file);
  }

  /** A manager that dies between its sends leaves its backups at different items, n and n'.
   *  They are sound, and differ only in files that an item between the two is about; in the
   *  next term those come together that an event of that term is about, and no others. */
  lemma NextTermAfter(ops: seq<Op>, n: nat, n': nat, next: seq<Op>)
    requires IsRun(map[], ops) && n <= |Stream(map[], ops)| && n' <= |Stream(map[], ops)|
    ensures var items := Stream(map[], ops);
            var a, b := ReplayAll(map[], items[..n]), ReplayAll(map[], items[..n']);
            && a.Some? && b.Some?
            && (forall user: CString, file: CString ::
                  !Touched(Between(items, n, n'), user, file) ==> SameFile(a.value, b.value, user, file))
            && (IsRun(DisconnectAll(a.value), next) ==>
                  var later, m := Stream(DisconnectAll(a.value), next), Exec(DisconnectAll(a.value), next);
                  var r := ReplayAll(DisconnectAll(b.value), later);
                  && r.Some?
                  && forall user: CString, file: CString ::
                       SameFile(m, r.value, user, file)
                       <==> SameFile(a.value, b.value, user, file) || Touched(later, user, file))
  {
    var items := Stream(map[], ops);
    var _ := BackupIsAnEarlierManager(ops, n);
    var _ := BackupIsAnEarlierManager(ops, n');
    var a, b := ReplayAll(map[], items[..n]).value, ReplayAll(map[], items[..n']).value;
    forall user: CString, file: CString | !Touched(Between(items, n, n'), user, file)
      ensures SameFile(a, b, user, file)
    {
      if n <= n' { LaterBackup(items, n, n', user, file); } else { LaterBackup(items, n', n, user, file); }
    }
    if IsRun(DisconnectAll(a), next) {
      NextTermReplicates(a, b, next);
    }
  }

  /** One session, one upload. */
  function UploadRun(user: CString, address: Address, name: CString, content: Content): seq<Op> {
    [Connect(user, address)] + ([Receive(user, 0, IncomingSend(name, content))] + [])
  }

  lemma UploadRunSteps(user: CString, address: Address, name: CString, content: Content)
    ensures var ops := UploadRun(user, address, name, content);
            && IsRun(map[], ops)
            && Stream(map[], ops) == [Connected(user, address), Uploaded(user, address, name, content)]
  {
    var u := AfterConnect(NEW_USER, address);
    var m: Users := map[user := u];
    assert Apply(map[], Connect(user, address)) == m;
    var op := Receive(user, 0, IncomingSend(name, content));
    OneStep(m, op, []);
    OneStep(map[], Connect(user, address), [op] + []);
  }

  /** A run after which two backups differ for good reason: the manager has sent an upload to
   *  one of them and died before the other one's turn. */
  lemma LaggingBackupDiverges(user: CString, address: Address, name: CString, content: Content)
    ensures var ops := UploadRun(user, address, name, content);
            && IsRun(map[], ops) && |Stream(map[], ops)| == 2
            && var a, b := ReplayAll(map[], Stream(map[], ops)[..2]), ReplayAll(map[], Stream(map[], ops)[..1]);
            && a.Some? && b.Some?
            && Get(a.value, user).folder == map[name := content] && Get(b.value, user).folder == map[]
            && !Replicates(DisconnectAll(a.value), DisconnectAll(b.value))
  {
    UploadRunSteps(user, address, name, content);
    var items := [Connected(user, address), Uploaded(user, address, name, content)];
    var u := AfterConnect(NEW_USER, address);
    var b: Users := map[user := u];
    assert items[..2] == items && items[..1] == [items[0]] && items[1..] == [items[1]];
    assert [items[0]][1..] == [] && [items[1]][1..] == [];
    assert ReplayAll(map[], items[..1]) == Some(b);
    assert SlotOf(u.slots, address) == 0;
    var a: Users := b[user := AfterSend(u, true, name, content)];
    assert ReplayAll(b, [items[1]]) == Some(a);
    assert ReplayAll(map[], items) == ReplayAll(b, items[1..]);
    Disconnected(a, user);
    Disconnected(b, user);
    assert !Mirrors(Get(DisconnectAll(a), user), Get(DisconnectAll(b), user));
  }
}
