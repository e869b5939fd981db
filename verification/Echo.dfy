/** How a change to one file travels between the sessions of a user (src/server/server.c,
 *  src/client/client.c).  Every client watches its directory, so it sends back whatever it
 *  receives; the server's file status decides whether that goes round again.
 *
 *  A file, a message about it and a copy are all an optional content: None is "no file" or
 *  "delete it". */
module Echo {
  import opened Bytes
  import opened Seqs
  import opened Crc
  import opened SyncQueue
  import opened UserState
  import CrcBits

  type Copy = Option<Content>

  /** What the index holds for a file. */
  function IndexOf(file: Copy): Option<nat> {
    if file.None? then None else Some(Crc32(file.value))
  }

  /** One session: the client's copy, the entries in its sync buffer (true for a SEND), the
   *  messages on their way to it, the directory events its watcher has not handled (true for
   *  a write) and the messages on their way to the server. */
  datatype Client = Client(copy: Copy, queue: seq<bool>, inbox: seq<Copy>, watch: seq<bool>, outbox: seq<Copy>)

  datatype System = System(file: Copy, crc: Option<nat>, clients: seq<Client>)

  datatype Step = Deliver(i: nat) | Receive(i: nat) | Watch(i: nat) | Handle(i: nat)

  predicate Enabled(s: System, t: Step) {
    t.i < |s.clients| &&
    match t
    case Deliver(i) => s.clients[i].queue != []
    case Receive(i) => s.clients[i].inbox != []
    case Watch(i) => s.clients[i].watch != []
    case Handle(i) => s.clients[i].outbox != []
  }

  /** The send thread takes an entry; it sends the file as it is by now, if it is there. */
  function Delivered(c: Client, file: Copy): Client
    requires c.queue != []
  {
    var sent := if !c.queue[0] then [None] else if file.Some? then [file] else [];
    c.(queue := c.queue[1..], inbox := c.inbox + sent)
  }

  /** The receiver thread writes or removes the copy, which its watcher notices: creating a
   *  file makes two directory events, overwriting one makes one. */
  function Received(c: Client): Client
    requires c.inbox != []
  {
    var m := c.inbox[0];
    var seen := if m.Some? then (if c.copy.None? then [true, true] else [true])
                else if c.copy.Some? then [false] else [];
    c.(copy := m, inbox := c.inbox[1..], watch := c.watch + seen)
  }

  /** The watcher handles a directory event; it sends the copy as it is by now. */
  function Watched(c: Client): Client
    requires c.watch != []
  {
    var sent := if !c.watch[0] then [None] else if c.copy.Some? then [c.copy] else [];
    c.(watch := c.watch[1..], outbox := c.outbox + sent)
  }

  function Enqueue(c: Client, send: bool): Client {
    c.(queue := c.queue + [send])
  }

  /** The entries for the other sessions. */
  function Forward(clients: seq<Client>, from: nat, send: bool): (r: seq<Client>)
    ensures |r| == |clients|
    ensures forall k :: 0 <= k < |r| ==> r[k] == if k == from then clients[k] else Enqueue(clients[k], send)
  {
    seq(|clients|, k requires 0 <= k < |clients| => if k == from then clients[k] else Enqueue(clients[k], send))
  }

  /** The server handles a message: it passes the change on exactly if its index changes. */
  function Handled(s: System, i: nat): System
    requires i < |s.clients| && s.clients[i].outbox != []
  {
    var m := s.clients[i].outbox[0];
    var clients := s.clients[i := s.clients[i].(outbox := s.clients[i].outbox[1..])];
    if IndexOf(m) == s.crc then System(m, s.crc, clients)
    else System(m, IndexOf(m), Forward(clients, i, m.Some?))
  }

  function Apply(s: System, t: Step): System
    requires Enabled(s, t)
  {
    match t
    case Deliver(i) => s.(clients := s.clients[i := Delivered(s.clients[i], s.file)])
    case Receive(i) => s.(clients := s.clients[i := Received(s.clients[i])])
    case Watch(i) => s.(clients := s.clients[i := Watched(s.clients[i])])
    case Handle(i) => Handled(s, i)
  }

  /** `Handled` is what `handle_incoming_file` does to one name, and other names are left
   *  alone: for an active session, whatever the index held before. */
  lemma HandledIsAfter(u: User, name: CString, m: Copy, other: CString)
    requires DistinctKeys(u.index)
    ensures var incoming := if m.Some? then IncomingSend(name, m.value) else IncomingDelete(name);
            var u' := After(u, true, incoming);
            && FileIn(u'.folder, name) == m && Lookup(u'.index, name) == IndexOf(m)
            && (Noticed(u, true, incoming) <==> Lookup(u.index, name) != IndexOf(m))
            && (other != name ==>
                  && FileIn(u'.folder, other) == FileIn(u.folder, other)
                  && Lookup(u'.index, other) == Lookup(u.index, other))
  {
    if m.Some? {
      var folder := u.folder[name := m.value];
      SendKeepsRest(u.index, folder, name, name);
      SendKeepsRest(u.index, folder, name, other);
    } else {
      DeleteKeepsRest(u.index, u.folder - {name}, name, name);
      DeleteKeepsRest(u.index, u.folder - {name}, name, other);
    }
  }

  /** And the entries it makes are those of `handle_incoming_file`, for a user whose sessions are
   *  all there: a client's buffer gets one exactly if the packet is passed on to its slot. */
  lemma HandledPassesOn(s: System, i: nat, u: User, username: CString, name: CString, to: seq<FileEntry>)
    requires i < |s.clients| == |u.slots| && s.clients[i].outbox != []
    requires (forall k :: 0 <= k < |u.slots| ==> u.slots[k].Some?) && DistinctKeys(u.index)
    requires Lookup(u.index, name) == s.crc
    requires var m := s.clients[i].outbox[0];
             var incoming := if m.Some? then IncomingSend(name, m.value) else IncomingDelete(name);
             var kind := if m.Some? then FileEntrySend else FileEntryDelete;
             if After(u, true, incoming).index != u.index then PassedOn(to, u.slots, i, kind, username, name)
             else to == []
    ensures forall k :: 0 <= k < |s.clients| ==>
              Handled(s, i).clients[k].queue == s.clients[k].queue
                + (if FileEntry(FileEntrySend, username, k, name) in to then [true] else [])
                + (if FileEntry(FileEntryDelete, username, k, name) in to then [false] else [])
  {
    var m := s.clients[i].outbox[0];
    var incoming := if m.Some? then IncomingSend(name, m.value) else IncomingDelete(name);
    HandledIsAfter(u, name, m, name);
    NoticedIsChange(u, true, incoming);
    forall k | 0 <= k < |s.clients|
      ensures Handled(s, i).clients[k].queue == s.clients[k].queue
                + (if FileEntry(FileEntrySend, username, k, name) in to then [true] else [])
                + (if FileEntry(FileEntryDelete, username, k, name) in to then [false] else [])
    {
      if j :| 0 <= j < |to| && to[j] == FileEntry(FileEntrySend, username, k, name) {
        assert to[j].kind == FileEntrySend;
      }
      if j :| 0 <= j < |to| && to[j] == FileEntry(FileEntryDelete, username, k, name) {
        assert to[j].kind == FileEntryDelete;
      }
    }
  }

  // ------------------------------------------------------------------ one change

  function Idle(copy: Copy): Client {
    Client(copy, [], [], [], [])
  }

  /** All sessions agree with the server on `before`. */
  predicate Settled(s: System, before: Copy) {
    && s.file == before && s.crc == IndexOf(before)
    && forall k :: 0 <= k < |s.clients| ==> s.clients[k] == Idle(before)
  }

  /** Session `a` writes the file, or deletes it if it was there.  A write makes one directory
   *  event or, by creating the file, two. */
  function Changed(s: System, a: nat, target: Copy, twice: bool): System
    requires a < |s.clients|
  {
    var events := if target.Some? && twice then [true, true] else [target.Some?];
    s.(clients := s.clients[a := s.clients[a].(copy := target, watch := s.clients[a].watch + events)])
  }

  predicate All<T(==)>(q: seq<T>, x: T) {
    forall k :: 0 <= k < |q| ==> q[k] == x
  }

  /** Every message on its way is about the change. */
  predicate About(c: Client, target: Copy) {
    && All(c.queue, target.Some?) && All(c.inbox, target)
    && All(c.watch, target.Some?) && All(c.outbox, target)
    && (c.watch != [] ==> c.copy == target)
  }

  /** The others have heard nothing, and the author has received nothing. */
  predicate OnlyAuthor(s: System, a: nat, before: Copy)
    requires a < |s.clients|
  {
    && (forall k :: 0 <= k < |s.clients| && k != a ==> s.clients[k] == Idle(before))
    && s.clients[a].queue == [] && s.clients[a].inbox == []
  }

  /** The server has not heard of the change yet. */
  predicate Waiting(s: System, a: nat, before: Copy)
    requires a < |s.clients|
  {
    && OnlyAuthor(s, a, before) && s.file == before && s.crc == IndexOf(before)
    && (s.clients[a].watch != [] || s.clients[a].outbox != [])
  }

  /** The server has the change and has passed it on. */
  predicate Reached(s: System, before: Copy, target: Copy) {
    && s.file == target && s.crc == IndexOf(target) && IndexOf(before) != IndexOf(target)
    && forall k :: 0 <= k < |s.clients| ==>
         s.clients[k].copy == target || s.clients[k].queue != [] || s.clients[k].inbox != []
  }

  /** The server has the change but takes it for what it had. */
  predicate Ignored(s: System, a: nat, before: Copy, target: Copy)
    requires a < |s.clients|
  {
    OnlyAuthor(s, a, before) && s.file == target && s.crc == IndexOf(target) == IndexOf(before)
  }

  predicate Inv(s: System, a: nat, before: Copy, target: Copy) {
    && a < |s.clients| && s.clients[a].copy == target
    && (forall k :: 0 <= k < |s.clients| ==> About(s.clients[k], target) && |s.clients[k].queue| <= 1)
    && (Waiting(s, a, before) || Reached(s, before, target) || Ignored(s, a, before, target))
  }

  lemma ChangeStarts(s: System, a: nat, before: Copy, target: Copy, twice: bool)
    requires Settled(s, before) && a < |s.clients|
    ensures Inv(Changed(s, a, target, twice), a, before, target)
    ensures Measure(Changed(s, a, target, twice), IndexOf(target)) <= 4 + 6 * |s.clients|
  {
    LoadIdle(s.clients, before);
    LoadUpdate(s.clients, a, Changed(s, a, target, twice).clients[a]);
  }

  // ------------------------------------------------------------------ the measure

  function Weight(c: Client): nat {
    6 * |c.queue| + 5 * |c.inbox| + 2 * |c.watch| + |c.outbox|
  }

  function Load(clients: seq<Client>): nat {
    if clients == [] then 0 else Weight(clients[0]) + Load(clients[1..])
  }

  /** Every entry may become a message, a message two directory events, an event a message;
   *  and as long as the server's index is not that of the change, it may pass it on once. */
  function Measure(s: System, index: Option<nat>): nat {
    Load(s.clients) + if s.crc != index then 6 * |s.clients| else 0
  }

  lemma {:induction false} LoadIdle(clients: seq<Client>, before: Copy)
    requires forall k :: 0 <= k < |clients| ==> clients[k] == Idle(before)
    ensures Load(clients) == 0
  {
    if clients != [] { LoadIdle(clients[1..], before); }
  }

  lemma {:induction false} LoadUpdate(clients: seq<Client>, i: nat, c: Client)
    requires i < |clients|
    ensures Load(clients[i := c]) == Load(clients) - Weight(clients[i]) + Weight(c)
  {
    if i == 0 {
      assert clients[i := c][1..] == clients[1..];
    } else {
      assert clients[i := c][1..] == clients[1..][i - 1 := c];
      LoadUpdate(clients[1..], i - 1, c);
    }
  }

  lemma {:induction false} LoadGrows(a: seq<Client>, b: seq<Client>)
    requires |a| == |b| && forall k :: 0 <= k < |a| ==> Weight(b[k]) <= Weight(a[k]) + 6
    ensures Load(b) <= Load(a) + 6 * |a|
  {
    if a != [] { LoadGrows(a[1..], b[1..]); }
  }

  /** Any step lowers the measure, if what it hands to the server has the index expected. */
  lemma StepDescends(s: System, t: Step, index: Option<nat>)
    requires Enabled(s, t) && (t.Handle? ==> IndexOf(s.clients[t.i].outbox[0]) == index)
    ensures Measure(Apply(s, t), index) < Measure(s, index)
  {
    var c := s.clients[t.i];
    match t
    case Deliver(i) => LoadUpdate(s.clients, i, Delivered(c, s.file));
    case Receive(i) => LoadUpdate(s.clients, i, Received(c));
    case Watch(i) => LoadUpdate(s.clients, i, Watched(c));
    case Handle(i) => HandleDescends(s, i, index);
  }

  lemma HandleDescends(s: System, i: nat, index: Option<nat>)
    requires Enabled(s, Handle(i)) && IndexOf(s.clients[i].outbox[0]) == index
    ensures Measure(Handled(s, i), index) < Measure(s, index)
  {
    var c := s.clients[i];
    var clients := s.clients[i := c.(outbox := c.outbox[1..])];
    LoadUpdate(s.clients, i, c.(outbox := c.outbox[1..]));
    LoadGrows(clients, Forward(clients, i, c.outbox[0].Some?));
  }

  // ------------------------------------------------------------------ the invariant

  lemma AboutDelivered(c: Client, file: Copy, target: Copy)
    requires About(c, target) && c.queue != [] && (target.Some? ==> file == target)
    ensures About(Delivered(c, file), target)
  {
  }

  lemma AboutReceived(c: Client, target: Copy)
    requires About(c, target) && c.inbox != []
    ensures About(Received(c), target) && Received(c).copy == target
  {
  }

  lemma AboutWatched(c: Client, target: Copy)
    requires About(c, target) && c.watch != []
    ensures About(Watched(c), target)
  {
  }

  lemma AboutEnqueued(c: Client, target: Copy)
    requires About(c, target)
    ensures About(Enqueue(c, target.Some?), target)
  {
  }

  lemma AboutHandled(s: System, i: nat, target: Copy)
    requires forall k :: 0 <= k < |s.clients| ==> About(s.clients[k], target)
    requires i < |s.clients| && s.clients[i].outbox != []
    ensures forall k :: 0 <= k < |s.clients| ==> About(Handled(s, i).clients[k], target)
  {
    forall k | 0 <= k < |s.clients| ensures About(Handled(s, i).clients[k], target) {
      AboutEnqueued(s.clients[k], target);
    }
  }

  lemma KeepsAbout(s: System, t: Step, a: nat, before: Copy, target: Copy)
    requires Inv(s, a, before, target) && Enabled(s, t)
    ensures forall k :: 0 <= k < |s.clients| ==> About(Apply(s, t).clients[k], target)
    ensures Apply(s, t).clients[a].copy == target
  {
    var c := s.clients[t.i];
    match t
    case Deliver(_) => AboutDelivered(c, s.file, target);
    case Receive(_) => AboutReceived(c, target);
    case Watch(_) => AboutWatched(c, target);
    case Handle(i) => AboutHandled(s, i, target);
  }

  /** No sync buffer ever holds more than one entry. */
  lemma KeepsQueuesShort(s: System, t: Step, a: nat, before: Copy, target: Copy)
    requires Inv(s, a, before, target) && Enabled(s, t)
    ensures forall k :: 0 <= k < |s.clients| ==> |Apply(s, t).clients[k].queue| <= 1
  {
  }

  lemma KeepsPhase(s: System, t: Step, a: nat, before: Copy, target: Copy)
    requires Inv(s, a, before, target) && Enabled(s, t)
    ensures var s' := Apply(s, t);
            Waiting(s', a, before) || Reached(s', before, target) || Ignored(s', a, before, target)
  {
    if t.Handle? {
      HandleKeepsPhase(s, t.i, a, before, target);
    } else if Reached(s, before, target) {
      MoveKeepsReached(s, t, before, target);
    } else {
      MoveKeepsEarly(s, t, a, before, target);
    }
  }

  /** Before the server has passed the change on, only the author has anything to do. */
  lemma MoveKeepsEarly(s: System, t: Step, a: nat, before: Copy, target: Copy)
    requires Inv(s, a, before, target) && Enabled(s, t) && !t.Handle? && !Reached(s, before, target)
    ensures var s' := Apply(s, t); Waiting(s', a, before) || Ignored(s', a, before, target)
  {
    assert t.i == a && t.Watch?;
  }

  lemma MoveKeepsReached(s: System, t: Step, before: Copy, target: Copy)
    requires Reached(s, before, target) && Enabled(s, t) && !t.Handle?
    requires forall k :: 0 <= k < |s.clients| ==> About(s.clients[k], target)
    ensures Reached(Apply(s, t), before, target)
  {
    var c, s' := s.clients[t.i], Apply(s, t);
    assert s'.clients[t.i].copy == target || s'.clients[t.i].queue != [] || s'.clients[t.i].inbox != [] by {
      if t.Receive? {
        assert c.inbox[0] == target;
      }
    }
  }

  lemma HandleKeepsPhase(s: System, i: nat, a: nat, before: Copy, target: Copy)
    requires Inv(s, a, before, target) && Enabled(s, Handle(i))
    ensures var s' := Handled(s, i); Reached(s', before, target) || Ignored(s', a, before, target)
  {
    assert s.clients[i].outbox[0] == target;
    if !Reached(s, before, target) { assert i == a; }
  }

  lemma StepKeepsInv(s: System, t: Step, a: nat, before: Copy, target: Copy)
    requires Inv(s, a, before, target) && Enabled(s, t)
    ensures Inv(Apply(s, t), a, before, target)
  {
    KeepsAbout(s, t, a, before, target);
    KeepsQueuesShort(s, t, a, before, target);
    KeepsPhase(s, t, a, before, target);
  }

  /** An echo is not passed on: once the server has the change, no message of the cascade adds
   *  an entry to a sync buffer. */
  lemma EchoIsNotForwarded(s: System, i: nat, a: nat, before: Copy, target: Copy)
    requires Inv(s, a, before, target) && s.crc == IndexOf(target) && Enabled(s, Handle(i))
    ensures Apply(s, Handle(i)).crc == s.crc
    ensures forall k :: 0 <= k < |s.clients| ==> Apply(s, Handle(i)).clients[k].queue == s.clients[k].queue
  {
  }

  // ------------------------------------------------------------------ runs

  predicate IsRun(s: System, run: seq<Step>)
    decreases |run|
  {
    run == [] || (Enabled(s, run[0]) && IsRun(Apply(s, run[0]), run[1..]))
  }

  function Exec(s: System, run: seq<Step>): System
    requires IsRun(s, run)
    decreases |run|
  {
    if run == [] then s else Exec(Apply(s, run[0]), run[1..])
  }

  lemma {:induction false} RunDescends(s: System, run: seq<Step>, a: nat, before: Copy, target: Copy)
    requires Inv(s, a, before, target) && IsRun(s, run)
    ensures Inv(Exec(s, run), a, before, target)
    ensures |run| + Measure(Exec(s, run), IndexOf(target)) <= Measure(s, IndexOf(target))
    decreases |run|
  {
    if run != [] {
      StepKeepsInv(s, run[0], a, before, target);
      StepDescends(s, run[0], IndexOf(target));
      RunDescends(Apply(s, run[0]), run[1..], a, before, target);
    }
  }

  ghost predicate Quiet(s: System) {
    forall t :: !Enabled(s, t)
  }

  predicate AllEqual(s: System) {
    forall k :: 0 <= k < |s.clients| ==> s.clients[k].copy == s.file
  }

  lemma QuietMeans(s: System)
    requires Quiet(s)
    ensures forall k :: 0 <= k < |s.clients| ==> NothingLeft(s.clients[k])
  {
    forall k | 0 <= k < |s.clients| ensures NothingLeft(s.clients[k]) {
      assert !Enabled(s, Deliver(k)) && !Enabled(s, Receive(k));
      assert !Enabled(s, Watch(k)) && !Enabled(s, Handle(k));
    }
  }

  /** Echo quiescence: from a state where all sessions of a user agree, one write or one delete
   *  causes at most 4 + 6n further steps, whatever their order, although every client sends
   *  back what it receives; and when nothing is left to do, every session equals the server
   *  if and only if the index could tell the change from what was there before, or there was
   *  no change, or no other session. */
  lemma EchoQuiesces(s: System, a: nat, before: Copy, target: Copy, twice: bool, run: seq<Step>)
    requires Settled(s, before) && a < |s.clients|
    requires IsRun(Changed(s, a, target, twice), run)
    ensures |run| <= 4 + 6 * |s.clients|
    ensures var end := Exec(Changed(s, a, target, twice), run);
            Quiet(end) ==>
              && end.file == target
              && (AllEqual(end) <==> IndexOf(before) != IndexOf(target) || before == target || |s.clients| == 1)
  {
    var start := Changed(s, a, target, twice);
    ChangeStarts(s, a, before, target, twice);
    RunDescends(start, run, a, before, target);
    var end := Exec(start, run);
    if Quiet(end) {
      QuietMeans(end);
      RunKeepsSize(start, run);
      QuietOutcome(end, a, before, target);
    }
  }

  /** Along every run about one change, no sync buffer ever holds more than one entry. */
  lemma QueuesStayShort(s: System, a: nat, before: Copy, target: Copy, twice: bool, run: seq<Step>)
    requires Settled(s, before) && a < |s.clients| && IsRun(Changed(s, a, target, twice), run)
    ensures var now := Exec(Changed(s, a, target, twice), run);
            |now.clients| == |s.clients| && forall k :: 0 <= k < |now.clients| ==> |now.clients[k].queue| <= 1
  {
    ChangeStarts(s, a, before, target, twice);
    RunDescends(Changed(s, a, target, twice), run, a, before, target);
    RunKeepsSize(Changed(s, a, target, twice), run);
  }

  lemma {:induction false} RunKeepsSize(s: System, run: seq<Step>)
    requires IsRun(s, run)
    ensures |Exec(s, run).clients| == |s.clients|
    decreases |run|
  {
    if run != [] { RunKeepsSize(Apply(s, run[0]), run[1..]); }
  }

  predicate NothingLeft(c: Client) {
    c.queue == [] && c.inbox == [] && c.watch == [] && c.outbox == []
  }

  lemma QuietOutcome(s: System, a: nat, before: Copy, target: Copy)
    requires Inv(s, a, before, target)
    requires forall k :: 0 <= k < |s.clients| ==> NothingLeft(s.clients[k])
    ensures s.file == target
    ensures AllEqual(s) <==> IndexOf(before) != IndexOf(target) || before == target || |s.clients| == 1
  {
    assert NothingLeft(s.clients[a]);
    if Reached(s, before, target) {
      forall k | 0 <= k < |s.clients| ensures s.clients[k].copy == target {
        assert NothingLeft(s.clients[k]);
      }
    } else if |s.clients| > 1 {
      var other := if a == 0 then 1 else 0;
      assert s.clients[other].copy == before;
    }
  }

  /** A change inside 32 consecutive bits of a file reaches every session. */
  lemma BurstReachesAll(s: System, a: nat, x: Content, y: Content, w: nat, twice: bool, run: seq<Step>)
    requires Settled(s, Some(x)) && a < |s.clients| && |x| == |y|
    requires forall k :: 0 <= k < 8 * |x| && !(w <= k < w + 32) ==> CrcBits.FileBits(x)[k] == CrcBits.FileBits(y)[k]
    requires IsRun(Changed(s, a, Some(y), twice), run)
    ensures var end := Exec(Changed(s, a, Some(y), twice), run);
            Quiet(end) ==> AllEqual(end) && end.file == Some(y)
  {
    CrcBits.BurstDetected(x, y, w);
    EchoQuiesces(s, a, Some(x), Some(y), twice, run);
  }

  /** A larger change need not: to every file of at least five bytes there is one of the same
   *  length that never gets past the server. */
  lemma SomeWritesStopAtTheServer(s: System, a: nat, x: Content, twice: bool) returns (y: Content)
    requires Settled(s, Some(x)) && a < |s.clients| && |s.clients| > 1 && |x| >= 5
    ensures y != x && |y| == |x|
    ensures var start := Changed(s, a, Some(y), twice);
            forall run :: IsRun(start, run) && Quiet(Exec(start, run)) ==> !AllEqual(Exec(start, run))
  {
    y := CrcBits.CollisionExists(x);
    forall run | IsRun(Changed(s, a, Some(y), twice), run) && Quiet(Exec(Changed(s, a, Some(y), twice), run))
      ensures !AllEqual(Exec(Changed(s, a, Some(y), twice), run))
    {
      EchoQuiesces(s, a, Some(x), Some(y), twice, run);
    }
  }
}
