/** Two sessions that change the same file at the same moment. */
module EchoCrossing {
  import opened Seqs
  import opened Crc
  import opened Echo

  /** Both clients of a settled system make a change before the server hears of either. */
  function BothChanged(s: System, x: Copy, y: Copy, twice: bool): System
    requires |s.clients| == 2
  {
    Changed(Changed(s, 0, x, twice), 1, y, twice)
  }

  ghost predicate LongRun(s: System, n: nat) {
    exists run :: IsRun(s, run) && |run| >= n
  }

  /** There are runs of any length. */
  ghost predicate GoesOnForEver(s: System) {
    forall n: nat :: LongRun(s, n)
  }

  // ------------------------------------------------------------------ changes of one index

  predicate AllIndexed(q: seq<Copy>, index: Option<nat>) {
    forall k :: 0 <= k < |q| ==> IndexOf(q[k]) == index
  }

  /** Whatever is under way has the same index. */
  predicate Alike(c: Client, index: Option<nat>) {
    && All(c.queue, index.Some?) && AllIndexed(c.inbox, index)
    && All(c.watch, index.Some?) && AllIndexed(c.outbox, index)
    && (c.watch != [] ==> IndexOf(c.copy) == index)
  }

  ghost predicate AllAlike(s: System, index: Option<nat>) {
    && (forall k :: 0 <= k < |s.clients| ==> Alike(s.clients[k], index))
    && (IndexOf(s.file) == index || forall k :: 0 <= k < |s.clients| ==> s.clients[k].queue == [])
  }

  lemma AlikeDelivered(c: Client, file: Copy, index: Option<nat>)
    requires Alike(c, index) && c.queue != [] && IndexOf(file) == index
    ensures Alike(Delivered(c, file), index)
  {
  }

  lemma AlikeReceived(c: Client, index: Option<nat>)
    requires Alike(c, index) && c.inbox != []
    ensures Alike(Received(c), index)
  {
  }

  lemma AlikeWatched(c: Client, index: Option<nat>)
    requires Alike(c, index) && c.watch != []
    ensures Alike(Watched(c), index)
  {
  }

  lemma AlikeHandled(c: Client, index: Option<nat>)
    requires Alike(c, index)
    ensures c.outbox != [] ==> Alike(c.(outbox := c.outbox[1..]), index) && IndexOf(c.outbox[0]) == index
  {
  }

  lemma AlikeEnqueued(c: Client, index: Option<nat>)
    requires Alike(c, index)
    ensures Alike(Enqueue(c, index.Some?), index)
  {
  }

  lemma HandledAlike(s: System, i: nat, index: Option<nat>)
    requires AllAlike(s, index) && Enabled(s, Handle(i))
    ensures AllAlike(Handled(s, i), index)
  {
    AlikeHandled(s.clients[i], index);
    forall k | 0 <= k < |s.clients| ensures Alike(Handled(s, i).clients[k], index) {
      AlikeEnqueued(s.clients[k], index);
    }
  }

  lemma StepKeepsAlike(s: System, t: Step, index: Option<nat>)
    requires AllAlike(s, index) && Enabled(s, t)
    ensures AllAlike(Apply(s, t), index)
  {
    var c := s.clients[t.i];
    match t
    case Deliver(_) => AlikeDelivered(c, s.file, index);
    case Receive(_) => AlikeReceived(c, index);
    case Watch(_) => AlikeWatched(c, index);
    case Handle(i) => HandledAlike(s, i, index);
  }

  lemma {:induction false} AlikeRunEnds(s: System, run: seq<Step>, index: Option<nat>)
    requires AllAlike(s, index) && IsRun(s, run)
    ensures |run| <= Measure(s, index)
    decreases |run|
  {
    if run != [] {
      AlikeHandled(s.clients[run[0].i], index);
      StepDescends(s, run[0], index);
      StepKeepsAlike(s, run[0], index);
      AlikeRunEnds(Apply(s, run[0]), run[1..], index);
    }
  }

  lemma BothAlike(s: System, before: Copy, x: Copy, y: Copy, twice: bool)
    requires Settled(s, before) && |s.clients| == 2 && IndexOf(x) == IndexOf(y)
    ensures AllAlike(BothChanged(s, x, y, twice), IndexOf(x))
    ensures Measure(BothChanged(s, x, y, twice), IndexOf(x)) <= 20
  {
    var s1 := Changed(s, 0, x, twice);
    LoadIdle(s.clients, before);
    LoadUpdate(s.clients, 0, s1.clients[0]);
    LoadUpdate(s1.clients, 1, BothChanged(s, x, y, twice).clients[1]);
  }

  // ------------------------------------------------------------------ changes of two indexes

  ghost predicate Reaches(s: System, n: nat, s': System) {
    exists run :: |run| == n && IsRun(s, run) && Exec(s, run) == s'
  }

  lemma {:induction false} ReachStart(s: System)
    ensures Reaches(s, 0, s)
  {
    var run: seq<Step> := [];
    assert |run| == 0 && IsRun(s, run) && Exec(s, run) == s;
  }

  lemma {:induction false} RunSnoc(s: System, run: seq<Step>, t: Step)
    requires IsRun(s, run) && Enabled(Exec(s, run), t)
    ensures IsRun(s, run + [t]) && Exec(s, run + [t]) == Apply(Exec(s, run), t)
    decreases |run|
  {
    if run == [] {
      assert [t][1..] == [];
      assert [] + [t] == [t];
    } else {
      assert (run + [t])[1..] == run[1..] + [t];
      RunSnoc(Apply(s, run[0]), run[1..], t);
    }
  }

  lemma ReachStep(s: System, n: nat, mid: System, t: Step, end: System)
    requires Reaches(s, n, mid) && Enabled(mid, t) && Apply(mid, t) == end
    ensures Reaches(s, n + 1, end)
  {
    var run :| |run| == n && IsRun(s, run) && Exec(s, run) == mid;
    RunSnoc(s, run, t);
    assert |run + [t]| == n + 1;
  }

  /** Two sessions: first that of client p, then that of the other one. */
  function Pair(p: nat, file: Copy, cp: Client, cq: Client): System {
    System(file, IndexOf(file), if p == 0 then [cp, cq] else [cq, cp])
  }

  lemma PairFlip(p: nat, file: Copy, cp: Client, cq: Client)
    requires p < 2
    ensures Pair(p, file, cp, cq) == Pair(1 - p, file, cq, cp)
  {
  }

  lemma PairMoves(p: nat, file: Copy, cp: Client, cq: Client)
    requires p < 2
    ensures var s := Pair(p, file, cp, cq);
            && (cp.queue != [] ==>
                  Enabled(s, Deliver(p)) && Apply(s, Deliver(p)) == Pair(p, file, Delivered(cp, file), cq))
            && (cp.inbox != [] ==>
                  Enabled(s, Receive(p)) && Apply(s, Receive(p)) == Pair(p, file, Received(cp), cq))
            && (cp.watch != [] ==> Enabled(s, Watch(p)) && Apply(s, Watch(p)) == Pair(p, file, Watched(cp), cq))
  {
  }

  lemma PairHandles(p: nat, file: Copy, cp: Client, cq: Client)
    requires p < 2 && cp.outbox != []
    ensures var s, m := Pair(p, file, cp, cq), cp.outbox[0];
            Enabled(s, Handle(p)) && Apply(s, Handle(p)) ==
              Pair(p, m, cp.(outbox := cp.outbox[1..]),
                   if IndexOf(m) == IndexOf(file) then cq else Enqueue(cq, m.Some?))
  {
  }

  /** A client whose watcher has `more` events to handle, one that has seen its own change
   *  before them, and one that has just sent it. */
  function Rests(copy: Copy, inbox: seq<Copy>, more: seq<bool>): Client {
    Client(copy, [], inbox, more, [])
  }

  function Wrote(copy: Copy, inbox: seq<Copy>, more: seq<bool>): Client {
    Client(copy, [], inbox, [copy.Some?] + more, [])
  }

  function Sent(copy: Copy, inbox: seq<Copy>, more: seq<bool>): Client {
    Client(copy, [], inbox, more, [copy])
  }

  lemma WatchSends(copy: Copy, inbox: seq<Copy>, more: seq<bool>)
    ensures Watched(Wrote(copy, inbox, more)) == Sent(copy, inbox, more)
    ensures Sent(copy, inbox, more).(outbox := Sent(copy, inbox, more).outbox[1..]) == Rests(copy, inbox, more)
  {
    assert ([copy.Some?] + more)[1..] == more;
  }

  /** The events after the first one when a client writes `m` over `copy`. */
  function More(copy: Copy, m: Copy): seq<bool> {
    if m.Some? && copy.None? then [m.Some?] else []
  }

  lemma ReceiveWrites(copy: Copy, m: Copy)
    requires copy.Some? || m.Some?
    ensures Received(Rests(copy, [m], [])) == Wrote(m, [], More(copy, m))
  {
  }

  lemma EntryDelivers(c: Client, m: Copy)
    requires c.queue == []
    ensures Delivered(Enqueue(c, m.Some?), m) == c.(inbox := c.inbox + [m])
  {
  }

  /** A client sends its change and the server handles it. */
  lemma SendAndHandle(start: System, n: nat, p: nat, file: Copy, copy: Copy, inbox: seq<Copy>, more: seq<bool>,
                      cq: Client)
    requires p < 2 && Reaches(start, n, Pair(p, file, Wrote(copy, inbox, more), cq))
    ensures Reaches(start, n + 2, Pair(p, copy, Rests(copy, inbox, more),
                                       if IndexOf(copy) == IndexOf(file) then cq else Enqueue(cq, copy.Some?)))
  {
    WatchSends(copy, inbox, more);
    PairMoves(p, file, Wrote(copy, inbox, more), cq);
    ReachStep(start, n, Pair(p, file, Wrote(copy, inbox, more), cq), Watch(p),
              Pair(p, file, Sent(copy, inbox, more), cq));
    PairHandles(p, file, Sent(copy, inbox, more), cq);
    ReachStep(start, n + 1, Pair(p, file, Sent(copy, inbox, more), cq), Handle(p),
              Pair(p, copy, Rests(copy, inbox, more),
                   if IndexOf(copy) == IndexOf(file) then cq else Enqueue(cq, copy.Some?)));
  }

  /** A client sends a change that is news to the server, which passes it on to the other. */
  lemma EchoRound(start: System, n: nat, p: nat, file: Copy, copy: Copy, inbox: seq<Copy>, more: seq<bool>, cq: Client)
    requires p < 2 && IndexOf(copy) != IndexOf(file) && cq.queue == []
    requires Reaches(start, n, Pair(p, file, Wrote(copy, inbox, more), cq))
    ensures Reaches(start, n + 3, Pair(p, copy, Rests(copy, inbox, more), cq.(inbox := cq.inbox + [copy])))
  {
    var rests, q, told := Rests(copy, inbox, more), Enqueue(cq, copy.Some?), cq.(inbox := cq.inbox + [copy]);
    SendAndHandle(start, n, p, file, copy, inbox, more, cq);
    EntryDelivers(cq, copy);
    PairFlip(p, copy, rests, q);
    PairMoves(1 - p, copy, q, rests);
    PairFlip(1 - p, copy, told, rests);
    ReachStep(start, n + 2, Pair(p, copy, rests, q), Deliver(1 - p), Pair(p, copy, rests, told));
  }

  /** The same with the second event of a created file, which makes no difference. */
  lemma FirstRound(start: System, n: nat, p: nat, file: Copy, copy: Copy, inbox: seq<Copy>, twice: bool, cq: Client)
    returns (n': nat)
    requires p < 2 && IndexOf(copy) != IndexOf(file) && cq.queue == []
    requires Reaches(start, n, Pair(p, file, Wrote(copy, inbox, if twice then [copy.Some?] else []), cq))
    ensures n' > n && Reaches(start, n', Pair(1 - p, copy, cq.(inbox := cq.inbox + [copy]), Rests(copy, inbox, [])))
  {
    var told := cq.(inbox := cq.inbox + [copy]);
    EchoRound(start, n, p, file, copy, inbox, if twice then [copy.Some?] else [], cq);
    n' := n + 3;
    if twice {
      assert Rests(copy, inbox, [copy.Some?]) == Wrote(copy, inbox, []);
      SendAndHandle(start, n', p, copy, copy, inbox, [], told);
      n' := n' + 2;
    }
    PairFlip(p, copy, Rests(copy, inbox, []), told);
  }

  lemma WroteHears(copy: Copy, m: Copy, more: seq<bool>)
    ensures var c := Wrote(copy, [], more); c.(inbox := c.inbox + [m]) == Wrote(copy, [m], more)
  {
  }

  lemma RestsHears(copy: Copy, m: Copy)
    ensures var c := Rests(copy, [], []); c.(inbox := c.inbox + [m]) == Rests(copy, [m], [])
  {
  }

  /** Each client has the other's change on its way to it; p has the server's file. */
  function Crossed(p: nat, x: Copy, y: Copy): System {
    Pair(p, y, Rests(y, [x], []), Rests(x, [y], []))
  }

  /** Two clients that made different changes send them one after the other. */
  lemma BothEcho(start: System, n: nat, p: nat, file: Copy, x: Copy, y: Copy, xs: bool, ys: bool) returns (n': nat)
    requires p < 2 && IndexOf(x) != IndexOf(y) && IndexOf(x) != IndexOf(file)
    requires Reaches(start, n, Pair(p, file, Wrote(x, [], if xs then [x.Some?] else []),
                                    Wrote(y, [], if ys then [y.Some?] else [])))
    ensures n' > n && Reaches(start, n', Crossed(1 - p, x, y))
  {
    var cq := Wrote(y, [], if ys then [y.Some?] else []);
    n' := FirstRound(start, n, p, file, x, [], xs, cq);
    WroteHears(y, x, if ys then [y.Some?] else []);
    n' := FirstRound(start, n', 1 - p, x, y, [x], ys, Rests(x, [], []));
    RestsHears(x, y);
    PairFlip(p, y, Rests(x, [y], []), Rests(y, [x], []));
  }

  /** Both clients take what is on its way and send it back, and it has crossed again. */
  lemma Lap(start: System, n: nat, p: nat, x: Copy, y: Copy) returns (n': nat)
    requires p < 2 && IndexOf(x) != IndexOf(y) && Reaches(start, n, Crossed(p, x, y))
    ensures n' > n && Reaches(start, n', Crossed(1 - p, x, y))
  {
    ReceiveWrites(y, x);
    ReceiveWrites(x, y);
    var cx, cy := Wrote(x, [], More(y, x)), Wrote(y, [], More(x, y));
    PairMoves(p, y, Rests(y, [x], []), Rests(x, [y], []));
    ReachStep(start, n, Crossed(p, x, y), Receive(p), Pair(p, y, cx, Rests(x, [y], [])));
    PairFlip(p, y, cx, Rests(x, [y], []));
    PairMoves(1 - p, y, Rests(x, [y], []), cx);
    ReachStep(start, n + 1, Pair(p, y, cx, Rests(x, [y], [])), Receive(1 - p), Pair(1 - p, y, cy, cx));
    PairFlip(1 - p, y, cy, cx);
    n' := BothEcho(start, n + 2, p, y, x, y, x.Some? && y.None?, y.Some? && x.None?);
  }

  lemma {:induction false} Laps(start: System, n: nat, p: nat, x: Copy, y: Copy, laps: nat) returns (n': nat, p': nat)
    requires p < 2 && IndexOf(x) != IndexOf(y) && Reaches(start, n, Crossed(p, x, y))
    ensures p' < 2 && n' >= laps && Reaches(start, n', Crossed(p', x, y))
  {
    n', p' := n, p;
    if laps > 0 {
      n', p' := Laps(start, n, p, x, y, laps - 1);
      n' := Lap(start, n', p', x, y);
      p' := 1 - p';
    }
  }

  lemma BothStart(s: System, before: Copy, x: Copy, y: Copy, twice: bool)
    requires Settled(s, before) && |s.clients| == 2
    ensures BothChanged(s, x, y, twice)
            == Pair(0, before, Wrote(x, [], if x.Some? && twice then [x.Some?] else []),
                    Wrote(y, [], if y.Some? && twice then [y.Some?] else []))
  {
    assert s.clients == [Idle(before), Idle(before)];
    var cx := Wrote(x, [], if x.Some? && twice then [x.Some?] else []);
    var cy := Wrote(y, [], if y.Some? && twice then [y.Some?] else []);
    PairChanges(0, before, x, twice, Idle(before));
    PairFlip(0, before, cx, Idle(before));
    PairChanges(1, before, y, twice, cx);
    PairFlip(1, before, cy, cx);
  }

  lemma PairChanges(p: nat, before: Copy, x: Copy, twice: bool, cq: Client)
    requires p < 2
    ensures Changed(Pair(p, before, Idle(before), cq), p, x, twice)
            == Pair(p, before, Wrote(x, [], if x.Some? && twice then [x.Some?] else []), cq)
  {
    var s := Pair(p, before, Idle(before), cq);
    assert s.clients[p] == Idle(before);
    assert Changed(s, p, x, twice).clients[p] == Wrote(x, [], if x.Some? && twice then [x.Some?] else []);
  }

  lemma DifferentGoOn(s: System, before: Copy, x: Copy, y: Copy, twice: bool, n: nat)
    requires Settled(s, before) && |s.clients| == 2 && IndexOf(x) != IndexOf(y)
    ensures LongRun(BothChanged(s, x, y, twice), n)
  {
    var start := BothChanged(s, x, y, twice);
    var xs, ys := x.Some? && twice, y.Some? && twice;
    BothStart(s, before, x, y, twice);
    ReachStart(start);
    var m, p;
    if IndexOf(x) != IndexOf(before) {
      m := BothEcho(start, 0, 0, before, x, y, xs, ys);
      m, p := Laps(start, m, 1, x, y, n);
    } else {
      PairFlip(0, before, Wrote(x, [], if xs then [x.Some?] else []), Wrote(y, [], if ys then [y.Some?] else []));
      m := BothEcho(start, 0, 1, before, y, x, ys, xs);
      m, p := Laps(start, m, 0, y, x, n);
    }
  }

  /** One change at a time is what makes the echoes die out.  When two sessions change a file
   *  at the same moment, whatever either of them does, the echoes can go round for ever if
   *  and only if the index tells the changes apart: for two writes, if and only if their
   *  CRCs differ.  Otherwise they are over after at most 20 steps. */
  lemma EchoesGoOnIffTold(s: System, before: Copy, x: Copy, y: Copy, twice: bool)
    requires Settled(s, before) && |s.clients| == 2
    ensures GoesOnForEver(BothChanged(s, x, y, twice)) <==> IndexOf(x) != IndexOf(y)
    ensures IndexOf(x) == IndexOf(y) ==>
              forall run :: IsRun(BothChanged(s, x, y, twice), run) ==> |run| <= 20
    ensures x.Some? && y.Some? ==> (GoesOnForEver(BothChanged(s, x, y, twice)) <==> Crc32(x.value) != Crc32(y.value))
  {
    var start := BothChanged(s, x, y, twice);
    if IndexOf(x) == IndexOf(y) {
      BothAlike(s, before, x, y, twice);
      forall run | IsRun(start, run) ensures |run| <= 20 {
        AlikeRunEnds(start, run, IndexOf(x));
      }
      assert !LongRun(start, 21);
    } else {
      forall n: nat ensures LongRun(start, n) {
        DifferentGoOn(s, before, x, y, twice, n);
      }
    }
  }
}
