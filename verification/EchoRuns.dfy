/** Runs in which the echo of a session's first change undoes its second one. */
module EchoRuns {
  import opened Seqs
  import opened Echo
  import opened EchoCrossing
  import opened EchoOverwrite

  /** From `start` the run leads to `end`. */
  predicate Leads(start: System, run: seq<Step>, end: System) {
    IsRun(start, run) && Exec(start, run) == end
  }

  lemma LeadsNowhere(start: System)
    ensures Leads(start, [], start)
  {
  }

  lemma Extend(start: System, run: seq<Step>, s: System, t: Step, s': System)
    requires Leads(start, run, s) && Enabled(s, t) && Apply(s, t) == s'
    ensures Leads(start, run + [t], s')
  {
    RunSnoc(start, run, t);
  }

  /** Session 0 of a pair moves. */
  lemma Move0(start: System, run: seq<Step>, t: Step, file: Copy, c: Client, c': Client, d: Client)
    requires Leads(start, run, Pair(0, file, c, d)) && t.i == 0 && !t.Handle?
    requires t.Deliver? ==> c.queue != [] && c' == Delivered(c, file)
    requires t.Receive? ==> c.inbox != [] && c' == Received(c)
    requires t.Watch? ==> c.watch != [] && c' == Watched(c)
    ensures Leads(start, run + [t], Pair(0, file, c', d))
  {
    PairMoves(0, file, c, d);
    Extend(start, run, Pair(0, file, c, d), t, Pair(0, file, c', d));
  }

  /** Session 1 of a pair moves. */
  lemma Move1(start: System, run: seq<Step>, t: Step, file: Copy, c: Client, d: Client, d': Client)
    requires Leads(start, run, Pair(0, file, c, d)) && t.i == 1 && !t.Handle?
    requires t.Deliver? ==> d.queue != [] && d' == Delivered(d, file)
    requires t.Receive? ==> d.inbox != [] && d' == Received(d)
    requires t.Watch? ==> d.watch != [] && d' == Watched(d)
    ensures Leads(start, run + [t], Pair(0, file, c, d'))
  {
    PairFlip(0, file, c, d);
    PairFlip(0, file, c, d');
    PairMoves(1, file, d, c);
    Extend(start, run, Pair(0, file, c, d), t, Pair(0, file, c, d'));
  }

  /** The server handles a message m of session 0. */
  lemma Handle0(start: System, run: seq<Step>, file: Copy, c: Client, d: Client, m: Copy, c': Client, d': Client)
    requires Leads(start, run, Pair(0, file, c, d)) && c.outbox != [] && c.outbox[0] == m
    requires c' == c.(outbox := c.outbox[1..]) && d' == if IndexOf(m) == IndexOf(file) then d else Enqueue(d, m.Some?)
    ensures Leads(start, run + [Handle(0)], Pair(0, m, c', d'))
  {
    PairHandles(0, file, c, d);
    Extend(start, run, Pair(0, file, c, d), Handle(0), Pair(0, m, c', d'));
  }

  lemma Handle1(start: System, run: seq<Step>, file: Copy, c: Client, d: Client, m: Copy, c': Client, d': Client)
    requires Leads(start, run, Pair(0, file, c, d)) && d.outbox != [] && d.outbox[0] == m
    requires d' == d.(outbox := d.outbox[1..]) && c' == if IndexOf(m) == IndexOf(file) then c else Enqueue(c, m.Some?)
    ensures Leads(start, run + [Handle(1)], Pair(0, m, c', d'))
  {
    PairFlip(0, file, c, d);
    PairFlip(0, m, c', d');
    PairHandles(1, file, d, c);
    Extend(start, run, Pair(0, file, c, d), Handle(1), Pair(0, m, c', d'));
  }

  lemma SettledPair(s: System, before: Copy)
    requires Settled(s, before) && |s.clients| == 2
    ensures s == Pair(0, before, Idle(before), Idle(before))
  {
    assert s.clients == [Idle(before), Idle(before)];
  }

  // ------------------------------------------------------------------ a second write

  /** It is not enough that the other session has received the first write: its watcher has yet
   *  to send it back. */
  lemma ReceivedIsTooEarly(s: System, before: Copy, x: Copy, y: Copy) returns (run: seq<Step>)
    requires Settled(s, before) && |s.clients| == 2 && x.Some? && y.Some?
    requires IndexOf(before) != IndexOf(x) && IndexOf(x) != IndexOf(y)
    ensures run == [Watch(0), Handle(0), Deliver(1), Receive(1)] && IsRun(Changed(s, 0, x, before.None?), run)
    ensures var mid := Exec(Changed(s, 0, x, before.None?), run);
            && |mid.clients| == 2 && mid.file == x && mid.clients[0].copy == x && mid.clients[1].copy == x
            && CanEndWith(Changed(mid, 0, y, false), x)
  {
    run := [Watch(0), Handle(0), Deliver(1), Receive(1)];
    var mid := UntilReceived(s, before, x, if before.None? then [true] else []);
    SecondChangeSurvivesIff(s, 0, before, x, y, before.None?, false, run);
  }

  lemma UntilReceived(s: System, before: Copy, x: Copy, more: seq<bool>) returns (mid: System)
    requires Settled(s, before) && |s.clients| == 2 && x.Some? && IndexOf(before) != IndexOf(x)
    requires more == if before.None? then [true] else []
    ensures Leads(Changed(s, 0, x, before.None?), [Watch(0), Handle(0), Deliver(1), Receive(1)], mid)
    ensures mid.file == x && |mid.clients| == 2
    ensures mid.clients[0].copy == x && mid.clients[1].copy == x && mid.clients[1].watch != []
  {
    var t := Changed(s, 0, x, before.None?);
    var told, d := Enqueue(Idle(before), true), Received(Client(before, [], [x], [], []));
    SettledPair(s, before);
    PairChanges(0, before, x, before.None?, Idle(before));
    LeadsNowhere(t);
    WatchSends(x, [], more);
    Move0(t, [], Watch(0), before, Wrote(x, [], more), Sent(x, [], more), Idle(before));
    Handle0(t, [] + [Watch(0)], before, Sent(x, [], more), Idle(before), x, Rests(x, [], more), told);
    Move1(t, [] + [Watch(0)] + [Handle(0)], Deliver(1), x, Rests(x, [], more), told, Client(before, [], [x], [], []));
    Move1(t, [] + [Watch(0)] + [Handle(0)] + [Deliver(1)], Receive(1), x, Rests(x, [], more),
          Client(before, [], [x], [], []), d);
    mid := Pair(0, x, Rests(x, [], more), d);
    assert [] + [Watch(0)] + [Handle(0)] + [Deliver(1)] + [Receive(1)] == [Watch(0), Handle(0), Deliver(1), Receive(1)];
  }

  // ------------------------------------------------------------------ a file written anew

  const TOLD_OF_REMOVAL := [Watch(0), Handle(0), Deliver(1), Receive(1), Watch(1)]
  const WRITES_AGAIN := [Watch(0), Watch(0), Handle(0), Handle(0), Handle(1)]
  const LOSES_IT := [Deliver(1), Deliver(0), Receive(0), Watch(0), Handle(0)]

  /** The removal reaches the other session, which removes its copy and reports it. */
  lemma ToldOfRemoval(start: System, x: Copy, y: Copy)
    requires x.Some? && y.Some? && start == Pair(0, x, Client(y, [], [], [false, true, true], []), Idle(x))
    ensures Leads(start, TOLD_OF_REMOVAL,
                  Pair(0, None, Client(y, [], [], [true, true], []), Client(None, [], [], [], [None])))
  {
    var c, d := Client(y, [], [], [true, true], []), Client(x, [], [None], [], []);
    assert [false, true, true][1..] == [true, true];
    LeadsNowhere(start);
    Move0(start, [], Watch(0), x, Client(y, [], [], [false, true, true], []), c.(outbox := [None]), Idle(x));
    Handle0(start, [] + [Watch(0)], x, c.(outbox := [None]), Idle(x), None, c, Enqueue(Idle(x), false));
    Move1(start, [] + [Watch(0)] + [Handle(0)], Deliver(1), None, c, Enqueue(Idle(x), false), d);
    Move1(start, [] + [Watch(0)] + [Handle(0)] + [Deliver(1)], Receive(1), None, c, d,
          Client(None, [], [], [false], []));
    Move1(start, [] + [Watch(0)] + [Handle(0)] + [Deliver(1)] + [Receive(1)], Watch(1), None, c,
          Client(None, [], [], [false], []), Client(None, [], [], [], [None]));
    assert [] + [Watch(0)] + [Handle(0)] + [Deliver(1)] + [Receive(1)] + [Watch(1)] == TOLD_OF_REMOVAL;
  }

  /** The new file reaches the server, and behind it the report. */
  lemma WritesAgain(start: System, run: seq<Step>, y: Copy)
    requires y.Some?
    requires Leads(start, run, Pair(0, None, Client(y, [], [], [true, true], []), Client(None, [], [], [], [None])))
    ensures Leads(start, run + WRITES_AGAIN, Pair(0, None, Enqueue(Idle(y), false), Enqueue(Idle(None), true)))
  {
    var d := Client(None, [], [], [], [None]);
    assert [true, true][1..] == [true] && [y] + [y] == [y, y] && [y, y][1..] == [y];
    Move0(start, run, Watch(0), None, Client(y, [], [], [true, true], []), Client(y, [], [], [true], [y]), d);
    Move0(start, run + [Watch(0)], Watch(0), None, Client(y, [], [], [true], [y]), Client(y, [], [], [], [y, y]), d);
    Handle0(start, run + [Watch(0)] + [Watch(0)], None, Client(y, [], [], [], [y, y]), d, y,
            Client(y, [], [], [], [y]), Enqueue(d, true));
    Handle0(start, run + [Watch(0)] + [Watch(0)] + [Handle(0)], y, Client(y, [], [], [], [y]), Enqueue(d, true), y,
            Idle(y), Enqueue(d, true));
    Handle1(start, run + [Watch(0)] + [Watch(0)] + [Handle(0)] + [Handle(0)], y, Idle(y), Enqueue(d, true), None,
            Enqueue(Idle(y), false), Enqueue(Idle(None), true));
    assert run + [Watch(0)] + [Watch(0)] + [Handle(0)] + [Handle(0)] + [Handle(1)] == run + WRITES_AGAIN;
  }

  /** The file is gone, so there is nothing to send; the author removes its copy. */
  lemma DropsEntry(y: Copy)
    requires y.Some?
    ensures Delivered(Enqueue(Idle(None), true), None) == Idle(None)
    ensures Delivered(Enqueue(Idle(y), false), None) == Client(y, [], [None], [], [])
    ensures Received(Client(y, [], [None], [], [])) == Client(None, [], [], [false], [])
    ensures Watched(Client(None, [], [], [false], [])) == Client(None, [], [], [], [None])
  {
  }

  /** The author is told to remove it. */
  lemma LosesIt(start: System, run: seq<Step>, y: Copy)
    requires y.Some? && Leads(start, run, Pair(0, None, Enqueue(Idle(y), false), Enqueue(Idle(None), true)))
    ensures Leads(start, run + LOSES_IT, Pair(0, None, Idle(None), Idle(None)))
  {
    var c, told := Client(y, [], [None], [], []), Enqueue(Idle(y), false);
    DropsEntry(y);
    Move1(start, run, Deliver(1), None, told, Enqueue(Idle(None), true), Idle(None));
    Move0(start, run + [Deliver(1)], Deliver(0), None, told, c, Idle(None));
    Move0(start, run + [Deliver(1)] + [Deliver(0)], Receive(0), None, c, Client(None, [], [], [false], []), Idle(None));
    Move0(start, run + [Deliver(1)] + [Deliver(0)] + [Receive(0)], Watch(0), None, Client(None, [], [], [false], []),
          Client(None, [], [], [], [None]), Idle(None));
    Handle0(start, run + [Deliver(1)] + [Deliver(0)] + [Receive(0)] + [Watch(0)], None,
            Client(None, [], [], [], [None]), Idle(None), None, Idle(None), Idle(None));
    assert run + [Deliver(1)] + [Deliver(0)] + [Receive(0)] + [Watch(0)] + [Handle(0)] == run + LOSES_IT;
  }

  /** A session deletes the file and writes it anew before the server has heard anything: the
   *  echo of the removal removes the new file everywhere. */
  lemma RewrittenFileIsLost(s: System, x: Copy, y: Copy)
    requires Settled(s, x) && |s.clients| == 2 && x.Some? && y.Some?
    ensures var start := Changed(Changed(s, 0, None, false), 0, y, true);
            Leads(start, TOLD_OF_REMOVAL + WRITES_AGAIN + LOSES_IT, System(None, None, [Idle(None), Idle(None)]))
  {
    var start := Changed(Changed(s, 0, None, false), 0, y, true);
    SettledPair(s, x);
    PairChanges(0, x, None, false, Idle(x));
    assert [false] + [true, true] == [false, true, true];
    assert start.clients[0] == Client(y, [], [], [false, true, true], []);
    ToldOfRemoval(start, x, y);
    WritesAgain(start, TOLD_OF_REMOVAL, y);
    LosesIt(start, TOLD_OF_REMOVAL + WRITES_AGAIN, y);
  }
}
