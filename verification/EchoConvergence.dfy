/** Any number of changes by any number of sessions, at any moment: when everything has come to
 *  rest, all are equal, if the index tells their contents apart. */
module EchoConvergence {
  import opened Seqs
  import opened Bytes
  import opened Crc
  import opened Echo

  /** A session changes the file, or one of the steps of `Echo`. */
  datatype Move = Change(i: nat, target: Copy, twice: bool) | Go(t: Step)

  predicate CanMove(s: System, m: Move) {
    match m
    case Change(i, _, _) => i < |s.clients|
    case Go(t) => Enabled(s, t)
  }

  function Moved(s: System, m: Move): System
    requires CanMove(s, m)
  {
    match m
    case Change(i, target, twice) => Changed(s, i, target, twice)
    case Go(t) => Apply(s, t)
  }

  predicate CanAll(s: System, moves: seq<Move>)
    decreases |moves|
  {
    moves == [] || (CanMove(s, moves[0]) && CanAll(Moved(s, moves[0]), moves[1..]))
  }

  function AllMoved(s: System, moves: seq<Move>): System
    requires CanAll(s, moves)
    decreases |moves|
  {
    if moves == [] then s else AllMoved(Moved(s, moves[0]), moves[1..])
  }

  /** The changes are to contents of v, or removals. */
  predicate ChangesIn(moves: seq<Move>, v: iset<Content>) {
    forall k :: 0 <= k < |moves| && moves[k].Change? && moves[k].target.Some? ==> moves[k].target.value in v
  }

  predicate In(copy: Copy, v: iset<Content>) {
    copy.Some? ==> copy.value in v
  }

  /** The CRC tells the contents of v apart. */
  ghost predicate TellsApart(v: iset<Content>) {
    forall x: Content, y: Content :: x in v && y in v && Crc32(x) == Crc32(y) ==> x == y
  }

  // ------------------------------------------------------------------ one client

  /** All contents on their way are of v. */
  predicate Within(c: Client, v: iset<Content>) {
    && In(c.copy, v)
    && (forall k :: 0 <= k < |c.inbox| ==> In(c.inbox[k], v))
    && (forall k :: 0 <= k < |c.outbox| ==> In(c.outbox[k], v))
  }

  /** The last thing a client will say is what it holds. */
  predicate SaysWhatItHolds(c: Client) {
    if c.watch != [] then c.watch[|c.watch| - 1] == c.copy.Some?
    else c.outbox != [] ==> c.outbox[|c.outbox| - 1] == c.copy
  }

  predicate MessageWakes(c: Client, k: nat) {
    k < |c.inbox| && (c.copy.Some? || c.inbox[k].Some?)
  }

  predicate EntryWakes(c: Client, k: nat, file: Copy) {
    k < |c.queue| && if c.queue[k] then file.Some? else c.copy.Some?
  }

  /** Something on its way to the client will make it speak again. */
  predicate WillSpeak(c: Client, file: Copy) {
    (exists k :: 0 <= k < |c.inbox| && MessageWakes(c, k)) || (exists k :: 0 <= k < |c.queue| && EntryWakes(c, k, file))
  }

  /** A client with nothing to say has what the server has, or will speak again. */
  predicate Settling(c: Client, file: Copy) {
    c.watch == [] && c.outbox == [] && c.copy != file ==> WillSpeak(c, file)
  }

  predicate Sane(c: Client, file: Copy, v: iset<Content>) {
    Within(c, v) && SaysWhatItHolds(c) && Settling(c, file)
  }

  lemma DeliveredSane(c: Client, file: Copy, v: iset<Content>)
    requires Sane(c, file, v) && In(file, v) && c.queue != []
    ensures Sane(Delivered(c, file), file, v)
  {
    var d := Delivered(c, file);
    if d.watch == [] && d.outbox == [] && d.copy != file {
      assert WillSpeak(c, file);
      if k :| 0 <= k < |c.inbox| && MessageWakes(c, k) {
        assert MessageWakes(d, k);
      } else {
        var j :| 0 <= j < |c.queue| && EntryWakes(c, j, file);
        assert if j == 0 then MessageWakes(d, |c.inbox|) else EntryWakes(d, j - 1, file);
      }
    }
  }

  lemma ReceivedSane(c: Client, file: Copy, v: iset<Content>)
    requires Sane(c, file, v) && c.inbox != []
    ensures Sane(Received(c), file, v)
  {
    var d := Received(c);
    if d.watch == [] && d.outbox == [] && d.copy != file {
      assert c.copy.None? && c.inbox[0].None? && WillSpeak(c, file);
      if k :| 0 <= k < |c.inbox| && MessageWakes(c, k) {
        assert MessageWakes(d, k - 1);
      } else {
        var j :| 0 <= j < |c.queue| && EntryWakes(c, j, file);
        assert EntryWakes(d, j, file);
      }
    }
  }

  lemma WatchedSane(c: Client, file: Copy, v: iset<Content>)
    requires Sane(c, file, v) && c.watch != []
    ensures Sane(Watched(c), file, v)
  {
  }

  lemma ChangedSane(c: Client, file: Copy, v: iset<Content>, target: Copy, twice: bool)
    requires Sane(c, file, v) && In(target, v)
    ensures Sane(c.(copy := target, watch := c.watch + if target.Some? && twice then [true, true] else [target.Some?]),
                 file, v)
  {
  }

  lemma SpokenSane(c: Client, file: Copy, v: iset<Content>)
    requires Sane(c, file, v) && c.outbox != []
    ensures Sane(c.(outbox := c.outbox[1..]), c.outbox[0], v) && In(c.outbox[0], v)
  {
  }

  lemma ToldSane(c: Client, file: Copy, v: iset<Content>, news: Copy)
    requires Sane(c, file, v)
    ensures Sane(Enqueue(c, news.Some?), news, v)
  {
    var d := Enqueue(c, news.Some?);
    if d.watch == [] && d.outbox == [] && d.copy != news {
      assert EntryWakes(d, |c.queue|, news);
    }
  }

  // ------------------------------------------------------------------ the system

  predicate AllSane(s: System, v: iset<Content>) {
    && In(s.file, v) && s.crc == IndexOf(s.file)
    && forall k :: 0 <= k < |s.clients| ==> Sane(s.clients[k], s.file, v)
  }

  lemma HandledSane(s: System, i: nat, v: iset<Content>)
    requires AllSane(s, v) && (TellsApart(v) || |s.clients| == 1) && i < |s.clients| && s.clients[i].outbox != []
    ensures AllSane(Handled(s, i), v)
  {
    var m := s.clients[i].outbox[0];
    SpokenSane(s.clients[i], s.file, v);
    assert TellsApart(v) && IndexOf(m) == s.crc ==> m == s.file;
    forall k | 0 <= k < |s.clients| ensures Sane(Handled(s, i).clients[k], m, v) {
      if k != i { ToldSane(s.clients[k], s.file, v, m); }
    }
  }

  lemma MoveKeepsSane(s: System, m: Move, v: iset<Content>)
    requires AllSane(s, v) && (TellsApart(v) || |s.clients| == 1) && CanMove(s, m) && (m.Change? ==> In(m.target, v))
    ensures AllSane(Moved(s, m), v) && |Moved(s, m).clients| == |s.clients|
  {
    match m
    case Change(i, target, twice) => ChangedSane(s.clients[i], s.file, v, target, twice);
    case Go(Deliver(i)) => DeliveredSane(s.clients[i], s.file, v);
    case Go(Receive(i)) => ReceivedSane(s.clients[i], s.file, v);
    case Go(Watch(i)) => WatchedSane(s.clients[i], s.file, v);
    case Go(Handle(i)) => HandledSane(s, i, v);
  }

  lemma {:induction false} MovesKeepSane(s: System, moves: seq<Move>, v: iset<Content>)
    requires AllSane(s, v) && (TellsApart(v) || |s.clients| == 1) && CanAll(s, moves) && ChangesIn(moves, v)
    ensures AllSane(AllMoved(s, moves), v)
    decreases |moves|
  {
    if moves != [] {
      MoveKeepsSane(s, moves[0], v);
      MovesKeepSane(Moved(s, moves[0]), moves[1..], v);
    }
  }

  lemma QuietIsEqual(s: System, v: iset<Content>)
    requires AllSane(s, v) && Quiet(s)
    ensures AllEqual(s)
  {
    QuietMeans(s);
    forall k | 0 <= k < |s.clients| ensures s.clients[k].copy == s.file {
      assert NothingLeft(s.clients[k]) && Settling(s.clients[k], s.file);
    }
  }

  /** However the sessions change the file between contents of v, all are equal at rest. */
  ghost predicate Converges(s: System, v: iset<Content>) {
    forall moves :: CanAll(s, moves) && ChangesIn(moves, v) && Quiet(AllMoved(s, moves)) ==>
      AllEqual(AllMoved(s, moves))
  }

  // ------------------------------------------------------------------ two contents of one CRC

  ghost predicate Leads(s: System, v: iset<Content>, end: System) {
    exists moves :: CanAll(s, moves) && ChangesIn(moves, v) && AllMoved(s, moves) == end
  }

  lemma {:induction false} MovesSnoc(s: System, moves: seq<Move>, m: Move)
    requires CanAll(s, moves) && CanMove(AllMoved(s, moves), m)
    ensures CanAll(s, moves + [m]) && AllMoved(s, moves + [m]) == Moved(AllMoved(s, moves), m)
    decreases |moves|
  {
    if moves == [] {
      assert [m][1..] == [] && [] + [m] == [m];
    } else {
      assert (moves + [m])[1..] == moves[1..] + [m];
      MovesSnoc(Moved(s, moves[0]), moves[1..], m);
    }
  }

  lemma LeadStep(s: System, v: iset<Content>, mid: System, m: Move)
    requires Leads(s, v, mid) && CanMove(mid, m) && (m.Change? ==> In(m.target, v))
    ensures Leads(s, v, Moved(mid, m))
  {
    var moves :| CanAll(s, moves) && ChangesIn(moves, v) && AllMoved(s, moves) == mid;
    MovesSnoc(s, moves, m);
  }

  lemma LeadStart(s: System, v: iset<Content>)
    ensures Leads(s, v, s)
  {
    assert CanAll(s, []) && ChangesIn([], v) && AllMoved(s, []) == s;
  }

  lemma {:induction false} LeadsToRest(s: System, v: iset<Content>, mid: System, a: nat, before: Copy, target: Copy)
    returns (end: System)
    requires Leads(s, v, mid) && Inv(mid, a, before, target)
    ensures Leads(s, v, end) && Inv(end, a, before, target) && Quiet(end) && |end.clients| == |mid.clients|
    decreases Measure(mid, IndexOf(target))
  {
    if t :| Enabled(mid, t) {
      StepKeepsInv(mid, t, a, before, target);
      StepDescends(mid, t, IndexOf(target));
      LeadStep(s, v, mid, Go(t));
      end := LeadsToRest(s, v, Apply(mid, t), a, before, target);
    } else {
      end := mid;
    }
  }

  /** A change of session 0 comes to rest. */
  lemma ChangeComesToRest(s: System, v: iset<Content>, mid: System, before: Copy, target: Content, twice: bool)
    returns (end: System)
    requires Leads(s, v, mid) && Settled(mid, before) && |mid.clients| > 0 && target in v
    ensures Leads(s, v, end) && Quiet(end) && |end.clients| == |mid.clients| && end.file == Some(target)
    ensures IndexOf(before) != IndexOf(Some(target)) ==> Settled(end, Some(target))
    ensures AllEqual(end) <==>
              IndexOf(before) != IndexOf(Some(target)) || before == Some(target) || |end.clients| == 1
  {
    ChangeStarts(mid, 0, before, Some(target), twice);
    LeadStep(s, v, mid, Change(0, Some(target), twice));
    end := LeadsToRest(s, v, Changed(mid, 0, Some(target), twice), 0, before, Some(target));
    QuietMeans(end);
    QuietOutcome(end, 0, before, Some(target));
    if IndexOf(before) != IndexOf(Some(target)) {
      forall k | 0 <= k < |end.clients| ensures end.clients[k] == Idle(Some(target)) {
        assert NothingLeft(end.clients[k]);
      }
    }
  }

  lemma CollisionDiverges(s: System, before: Copy, v: iset<Content>)
    requires Settled(s, before) && |s.clients| > 1 && !TellsApart(v)
    ensures !Converges(s, v)
  {
    var x: Content, y: Content :| x in v && y in v && Crc32(x) == Crc32(y) && x != y;
    LeadStart(s, v);
    var end;
    if IndexOf(before) == Some(Crc32(x)) {
      end := ChangeComesToRest(s, v, s, before, if before == Some(x) then y else x, false);
    } else {
      var mid := ChangeComesToRest(s, v, s, before, x, before.None?);
      end := ChangeComesToRest(s, v, mid, Some(x), y, false);
    }
    assert !AllEqual(end);
    var moves :| CanAll(s, moves) && ChangesIn(moves, v) && AllMoved(s, moves) == end;
  }

  /** Convergence, exactly: whatever the sessions of a user write and delete, whenever they do it
   *  and however the messages and echoes cross, all are equal to the server whenever nothing is
   *  left to do, if and only if the CRC tells apart the contents that they may write, or there is
   *  only one session. */
  lemma ConvergesIffToldApart(s: System, before: Copy, v: iset<Content>)
    requires Settled(s, before) && In(before, v) && |s.clients| > 0
    ensures Converges(s, v) <==> TellsApart(v) || |s.clients| == 1
  {
    if TellsApart(v) || |s.clients| == 1 {
      forall moves | CanAll(s, moves) && ChangesIn(moves, v) && Quiet(AllMoved(s, moves))
        ensures AllEqual(AllMoved(s, moves))
      {
        MovesKeepSane(s, moves, v);
        QuietIsEqual(AllMoved(s, moves), v);
      }
    } else {
      CollisionDiverges(s, before, v);
    }
  }
}
