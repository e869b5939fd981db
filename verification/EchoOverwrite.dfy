/** A session changes a file again before its first change has come to rest.  The echo of the
 *  first change can reach the server behind the second and undo it. */
module EchoOverwrite {
  import opened Seqs
  import opened Echo
  import opened EchoCrossing
  import EchoRemoval

  // ------------------------------------------------------------------ the first change

  /** A client that has x and may have to report it. */
  predicate Has(c: Client, x: Copy) {
    c.copy == x && c.queue == [] && c.inbox == [] && All(c.watch, x.Some?) && All(c.outbox, x)
  }

  /** The server has not noticed the change. */
  predicate Unnoticed(s: System, a: nat, before: Copy, x: Copy) {
    && a < 2 && |s.clients| == 2 && Has(s.clients[a], x) && s.clients[1 - a] == Idle(before)
    && s.crc == IndexOf(before)
    && (IndexOf(before) == IndexOf(x)
        || (s.file == before && (s.clients[a].watch != [] || s.clients[a].outbox != [])))
  }

  /** The other client is told of the change, or has just received it. */
  predicate Hears(c: Client, before: Copy, x: Copy) {
    c == Enqueue(Idle(before), x.Some?) || c == Client(before, [], [x], [], [])
  }

  /** The server has noticed the change and passed it on. */
  predicate Noticed(s: System, a: nat, before: Copy, x: Copy) {
    && a < 2 && |s.clients| == 2 && Has(s.clients[a], x)
    && (Hears(s.clients[1 - a], before, x) || Has(s.clients[1 - a], x))
    && IndexOf(before) != IndexOf(x) && s.file == x && s.crc == IndexOf(x)
  }

  predicate OneChange(s: System, a: nat, before: Copy, x: Copy) {
    Unnoticed(s, a, before, x) || Noticed(s, a, before, x)
  }

  lemma HearsMoves(c: Client, before: Copy, x: Copy)
    requires Hears(c, before, x) && IndexOf(before) != IndexOf(x)
    ensures c.queue != [] ==> Delivered(c, x) == Client(before, [], [x], [], [])
    ensures c.inbox != [] ==> Has(Received(c), x) && Received(c).watch != []
    ensures c.watch == [] && c.outbox == []
  {
  }

  lemma HasMoves(c: Client, x: Copy)
    requires Has(c, x)
    ensures c.watch != [] ==>
              && Has(Watched(c), x) && |Watched(c).watch| == |c.watch| - 1
              && |Watched(c).outbox| == |c.outbox| + 1
    ensures c.outbox != [] ==> c.outbox[0] == x && Has(c.(outbox := c.outbox[1..]), x)
  {
  }

  lemma UnnoticedStep(s: System, t: Step, a: nat, before: Copy, x: Copy)
    requires Unnoticed(s, a, before, x) && Enabled(s, t)
    ensures OneChange(Apply(s, t), a, before, x)
  {
    assert t.i == a;
    HasMoves(s.clients[a], x);
    if t.Handle? && IndexOf(before) != IndexOf(x) {
      assert Apply(s, t).clients[1 - a] == Enqueue(Idle(before), x.Some?);
    }
  }

  lemma NoticedStep(s: System, t: Step, a: nat, before: Copy, x: Copy)
    requires Noticed(s, a, before, x) && Enabled(s, t)
    ensures Noticed(Apply(s, t), a, before, x)
  {
    var c := s.clients[t.i];
    if Has(c, x) { HasMoves(c, x); } else { HearsMoves(c, before, x); }
  }

  lemma StepKeepsOneChange(s: System, t: Step, a: nat, before: Copy, x: Copy)
    requires OneChange(s, a, before, x) && Enabled(s, t)
    ensures OneChange(Apply(s, t), a, before, x)
  {
    if Unnoticed(s, a, before, x) { UnnoticedStep(s, t, a, before, x); } else { NoticedStep(s, t, a, before, x); }
  }

  lemma {:induction false} RunKeepsOneChange(s: System, run: seq<Step>, a: nat, before: Copy, x: Copy)
    requires OneChange(s, a, before, x) && IsRun(s, run)
    ensures OneChange(Exec(s, run), a, before, x)
    decreases |run|
  {
    if run != [] {
      StepKeepsOneChange(s, run[0], a, before, x);
      RunKeepsOneChange(Apply(s, run[0]), run[1..], a, before, x);
    }
  }

  lemma FirstChange(s: System, a: nat, before: Copy, x: Copy, twice: bool, run: seq<Step>)
    requires Settled(s, before) && a < |s.clients| == 2 && IsRun(Changed(s, a, x, twice), run)
    ensures OneChange(Exec(Changed(s, a, x, twice), run), a, before, x)
  {
    RunKeepsOneChange(Changed(s, a, x, twice), run, a, before, x);
  }

  // ------------------------------------------------------------------ the second change

  /** What session a has not yet told the server is no news, and the other session is at rest
   *  with the version that the server knows. */
  predicate Calm(s: System, a: nat)
    requires a < |s.clients| == 2
  {
    var c, d := s.clients[a], s.clients[1 - a];
    && d == Idle(d.copy) && s.crc == IndexOf(d.copy)
    && AllIndexed(c.outbox, s.crc) && (false in c.watch ==> s.crc.None?)
  }

  /** Some x, and y behind them. */
  predicate InOrder<T(==)>(q: seq<T>, x: T, y: T) {
    && (forall i :: 0 <= i < |q| ==> q[i] == x || q[i] == y)
    && (forall i, j :: 0 <= i < j < |q| && q[i] == y ==> q[j] == y)
  }

  predicate LastIs<T(==)>(q: seq<T>, y: T) {
    q != [] && q[|q| - 1] == y
  }

  /** The author has changed x to y, and the server has yet to hear of y. */
  predicate Rewrote(c: Client, x: Copy, y: Copy) {
    && c.copy == y && c.queue == [] && c.inbox == []
    && InOrder(c.watch, x.Some?, y.Some?) && InOrder(c.outbox, x, y)
    && (y in c.outbox ==> All(c.watch, y.Some?))
    && if c.watch == [] then LastIs(c.outbox, y) else LastIs(c.watch, y.Some?)
  }

  lemma AuthorRewrote(c: Client, x: Copy, y: Copy, twice: bool)
    requires Has(c, x)
    ensures var d := c.(copy := y, watch := c.watch + if y.Some? && twice then [true, true] else [y.Some?]);
            Rewrote(d, x, y) && d.watch != [] && (false in d.watch ==> y.None? || false in c.watch)
  {
  }

  lemma RewroteWatches(c: Client, x: Copy, y: Copy)
    requires Rewrote(c, x, y) && c.watch != []
    ensures Rewrote(Watched(c), x, y) && |Watched(c).watch| == |c.watch| - 1
    ensures false in Watched(c).watch ==> false in c.watch
  {
    var d := Watched(c);
    assert c.watch == [c.watch[0]] + d.watch;
    if c.watch[0] == y.Some? {
      assert All(d.watch, y.Some?);
    }
  }

  lemma RewroteHandles(c: Client, x: Copy, y: Copy)
    requires Rewrote(c, x, y) && c.outbox != []
    ensures c.outbox[0] != y ==> c.outbox[0] == x && Rewrote(c.(outbox := c.outbox[1..]), x, y)
    ensures c.outbox[0] == y ==> All(c.outbox[1..], y) && All(c.watch, y.Some?)
  {
    assert c.outbox == [c.outbox[0]] + c.outbox[1..];
  }

  /** However it goes on, when it comes to rest y is everywhere. */
  ghost predicate Survives(s: System, y: Copy) {
    forall run :: IsRun(s, run) && Quiet(Exec(s, run)) ==> Exec(s, run).file == y && AllEqual(Exec(s, run))
  }

  ghost predicate Bounded(s: System, n: nat) {
    forall run :: IsRun(s, run) ==> |run| <= n
  }

  /** It can come to rest with x everywhere. */
  ghost predicate CanEndWith(s: System, x: Copy) {
    exists run :: IsRun(s, run) && Quiet(Exec(s, run)) && Exec(s, run).file == x && AllEqual(Exec(s, run))
  }

  lemma EndsSomewhere(s: System, n: nat, end: System, x: Copy, y: Copy)
    requires Reaches(s, n, end) && Quiet(end)
    ensures end.file == x && AllEqual(end) ==> CanEndWith(s, x)
    ensures Survives(s, y) ==> end.file == y && AllEqual(end)
  {
    var run :| |run| == n && IsRun(s, run) && Exec(s, run) == end;
  }

  lemma BoundedEnds(s: System, n: nat)
    requires Bounded(s, n)
    ensures !GoesOnForEver(s)
  {
    assert !LongRun(s, n + 1);
  }

  // ------------------------------------------------------------------ from a calm state

  /** The other session rests with z, which is what the server knows; what the author reports
   *  before y is no news. */
  predicate Pending(s: System, a: nat, z: Copy, x: Copy, y: Copy) {
    && a < 2 && |s.clients| == 2 && s.clients[1 - a] == Idle(z) && s.crc == IndexOf(z)
    && Rewrote(s.clients[a], x, y)
    && (x in s.clients[a].outbox ==> x == y || IndexOf(x) == s.crc)
    && (false in s.clients[a].watch ==> y.None? || s.crc.None?)
  }

  lemma BothAbout(s: System, a: nat, before: Copy, x: Copy)
    requires a < 2 && |s.clients| == 2 && s.clients[a].copy == x
    requires About(s.clients[a], x) && s.clients[a].queue == []
    requires About(s.clients[1 - a], x) && |s.clients[1 - a].queue| <= 1
    requires Waiting(s, a, before) || Reached(s, before, x) || Ignored(s, a, before, x)
    ensures Inv(s, a, before, x)
  {
    forall k | 0 <= k < 2 ensures About(s.clients[k], x) && |s.clients[k].queue| <= 1 {
      assert k == a || k == 1 - a;
    }
  }

  /** The first message about y: if it is news, the other session is told. */
  lemma SecondArrives(s: System, a: nat, z: Copy, x: Copy, y: Copy)
    requires Pending(s, a, z, x, y) && s.clients[a].outbox != [] && s.clients[a].outbox[0] == y
    ensures Inv(Handled(s, a), a, z, y)
  {
    var c, s' := s.clients[a], Handled(s, a);
    RewroteAbout(c, x, y);
    assert s'.clients[a] == c.(outbox := c.outbox[1..]);
    if IndexOf(y) == s.crc {
      assert s'.clients[1 - a] == Idle(z);
      assert Ignored(s', a, z, y);
    } else {
      assert s'.clients[1 - a] == Enqueue(Idle(z), y.Some?);
      assert Reached(s', z, y);
    }
    BothAbout(s', a, z, y);
  }

  lemma RewroteAbout(c: Client, x: Copy, y: Copy)
    requires Rewrote(c, x, y) && c.outbox != [] && c.outbox[0] == y
    ensures About(c.(outbox := c.outbox[1..]), y)
  {
    RewroteHandles(c, x, y);
  }

  lemma PendingStep(s: System, t: Step, a: nat, z: Copy, x: Copy, y: Copy)
    requires Pending(s, a, z, x, y) && Enabled(s, t)
    ensures Pending(Apply(s, t), a, z, x, y) || Inv(Apply(s, t), a, z, y)
  {
    assert t.i == a;
    if t.Watch? {
      RewroteWatches(s.clients[a], x, y);
    } else if s.clients[a].outbox[0] == y {
      SecondArrives(s, a, z, x, y);
    } else {
      RewroteHandles(s.clients[a], x, y);
    }
  }

  /** A message that is no news only leaves. */
  lemma OldNewsDescends(s: System, i: nat, index: Option<nat>)
    requires Enabled(s, Handle(i)) && IndexOf(s.clients[i].outbox[0]) == s.crc
    ensures Measure(Handled(s, i), index) < Measure(s, index)
  {
    var c := s.clients[i];
    LoadUpdate(s.clients, i, c.(outbox := c.outbox[1..]));
  }

  lemma PendingDescends(s: System, t: Step, a: nat, z: Copy, x: Copy, y: Copy)
    requires Pending(s, a, z, x, y) && Enabled(s, t)
    ensures Measure(Apply(s, t), IndexOf(y)) < Measure(s, IndexOf(y))
  {
    assert t.i == a;
    if t.Handle? && s.clients[a].outbox[0] != y {
      assert s.clients[a].outbox[0] == x;
      OldNewsDescends(s, a, IndexOf(y));
    } else {
      StepDescends(s, t, IndexOf(y));
    }
  }

  /** On its way from a calm state. */
  predicate OnItsWay(s: System, a: nat, z: Copy, x: Copy, y: Copy) {
    |s.clients| == 2 && (Pending(s, a, z, x, y) || Inv(s, a, z, y))
  }

  lemma WayStep(s: System, t: Step, a: nat, z: Copy, x: Copy, y: Copy)
    requires OnItsWay(s, a, z, x, y) && Enabled(s, t)
    ensures OnItsWay(Apply(s, t), a, z, x, y)
    ensures Measure(Apply(s, t), IndexOf(y)) < Measure(s, IndexOf(y))
  {
    if Pending(s, a, z, x, y) {
      PendingStep(s, t, a, z, x, y);
      PendingDescends(s, t, a, z, x, y);
    } else {
      StepKeepsInv(s, t, a, z, y);
      StepDescends(s, t, IndexOf(y));
    }
  }

  lemma {:induction false} WayEnds(s: System, run: seq<Step>, a: nat, z: Copy, x: Copy, y: Copy)
    requires OnItsWay(s, a, z, x, y) && IsRun(s, run)
    ensures OnItsWay(Exec(s, run), a, z, x, y)
    ensures |run| <= Measure(s, IndexOf(y))
    decreases |run|
  {
    if run != [] {
      WayStep(s, run[0], a, z, x, y);
      WayEnds(Apply(s, run[0]), run[1..], a, z, x, y);
    }
  }

  lemma {:induction false} CanComeToRest(start: System, n: nat, s: System, a: nat, z: Copy, x: Copy, y: Copy)
    returns (n': nat, end: System)
    requires Reaches(start, n, s) && OnItsWay(s, a, z, x, y)
    ensures Reaches(start, n', end) && OnItsWay(end, a, z, x, y) && Quiet(end)
    decreases Measure(s, IndexOf(y))
  {
    if t :| Enabled(s, t) {
      WayStep(s, t, a, z, x, y);
      ReachStep(start, n, s, t, Apply(s, t));
      n', end := CanComeToRest(start, n + 1, Apply(s, t), a, z, x, y);
    } else {
      n', end := n, s;
    }
  }

  lemma PendingIsNotQuiet(s: System, a: nat, z: Copy, x: Copy, y: Copy)
    requires Pending(s, a, z, x, y)
    ensures !Quiet(s)
  {
    assert Enabled(s, Watch(a)) || Enabled(s, Handle(a));
  }

  lemma WayOutcome(s: System, a: nat, z: Copy, x: Copy, y: Copy)
    requires OnItsWay(s, a, z, x, y) && Quiet(s)
    ensures s.file == y && (AllEqual(s) <==> IndexOf(z) != IndexOf(y) || z == y)
  {
    if Pending(s, a, z, x, y) { PendingIsNotQuiet(s, a, z, x, y); }
    QuietMeans(s);
    QuietOutcome(s, a, z, y);
  }

  /** A change on its way ends, and is everywhere in the end if the index can tell it from what
   *  the other session has. */
  lemma WaySurvivesIff(s: System, a: nat, z: Copy, x: Copy, y: Copy)
    requires OnItsWay(s, a, z, x, y)
    ensures Survives(s, y) <==> IndexOf(z) != IndexOf(y) || z == y
    ensures Bounded(s, Measure(s, IndexOf(y)))
  {
    forall run | IsRun(s, run) ensures |run| <= Measure(s, IndexOf(y)) && OnItsWay(Exec(s, run), a, z, x, y) {
      WayEnds(s, run, a, z, x, y);
    }
    if IndexOf(z) != IndexOf(y) || z == y {
      forall run | IsRun(s, run) && Quiet(Exec(s, run)) ensures Exec(s, run).file == y && AllEqual(Exec(s, run)) {
        WayOutcome(Exec(s, run), a, z, x, y);
      }
    } else {
      ReachStart(s);
      var n, end := CanComeToRest(s, 0, s, a, z, x, y);
      WayOutcome(end, a, z, x, y);
      EndsSomewhere(s, n, end, x, y);
    }
  }

  lemma CalmStarts(s: System, a: nat, before: Copy, x: Copy, y: Copy, twice: bool)
    requires OneChange(s, a, before, x) && Calm(s, a)
    ensures OnItsWay(Changed(s, a, y, twice), a, s.clients[1 - a].copy, x, y)
  {
    AuthorRewrote(s.clients[a], x, y, twice);
  }

  /** The same change again. */
  lemma SameAgain(s: System, a: nat, before: Copy, x: Copy, twice: bool)
    requires OneChange(s, a, before, x) && IndexOf(before) != IndexOf(x)
    ensures OnItsWay(Changed(s, a, x, twice), a, before, x, x)
  {
    var again, other := Changed(s, a, x, twice), s.clients[1 - a];
    AboutAgain(s.clients[a], x, twice);
    OtherAbout(other, before, x);
    assert again.clients[1 - a] == other;
    if Unnoticed(s, a, before, x) {
      StillWaiting(s, a, before, x, twice);
    } else {
      StillReached(s, a, before, x, twice);
    }
    BothAbout(again, a, before, x);
  }

  lemma StillWaiting(s: System, a: nat, before: Copy, x: Copy, twice: bool)
    requires Unnoticed(s, a, before, x) && IndexOf(before) != IndexOf(x)
    ensures Waiting(Changed(s, a, x, twice), a, before)
  {
  }

  lemma StillReached(s: System, a: nat, before: Copy, x: Copy, twice: bool)
    requires Noticed(s, a, before, x)
    ensures Reached(Changed(s, a, x, twice), before, x)
  {
  }

  lemma OtherAbout(c: Client, before: Copy, x: Copy)
    requires c == Idle(before) || Hears(c, before, x) || Has(c, x)
    ensures About(c, x) && |c.queue| <= 1
  {
  }

  lemma AboutAgain(c: Client, x: Copy, twice: bool)
    requires Has(c, x)
    ensures About(c.(copy := x, watch := c.watch + if x.Some? && twice then [true, true] else [x.Some?]), x)
  {
  }

  // ------------------------------------------------------------------ from a state that is not calm

  /** The other session has heard of x and has yet to report it. */
  predicate Busy(c: Client, before: Copy, x: Copy) {
    Hears(c, before, x) || (Has(c, x) && c != Idle(x))
  }

  lemma NotCalm(s: System, a: nat, before: Copy, x: Copy)
    requires OneChange(s, a, before, x) && !Calm(s, a)
    ensures IndexOf(before) != IndexOf(x)
    ensures Unnoticed(s, a, before, x) && s.clients[a].outbox == [] ==> x.None? && s.clients[a].watch != []
    ensures Noticed(s, a, before, x) ==> Busy(s.clients[1 - a], before, x)
  {
  }

  /** A client with x reports it. */
  lemma {:induction false} AllReported(start: System, n: nat, p: nat, file: Copy, c: Client, other: Client, x: Copy)
    returns (n': nat, c': Client)
    requires p < 2 && Has(c, x) && c != Idle(x) && Reaches(start, n, Pair(p, file, c, other))
    ensures Has(c', x) && c'.watch == [] && c'.outbox != [] && Reaches(start, n', Pair(p, file, c', other))
    decreases |c.watch|
  {
    n', c' := n, c;
    if c.watch != [] {
      HasMoves(c, x);
      PairMoves(p, file, c, other);
      ReachStep(start, n, Pair(p, file, c, other), Watch(p), Pair(p, file, Watched(c), other));
      n', c' := AllReported(start, n + 1, p, file, Watched(c), other, x);
    }
  }

  /** The server handles a message of the first session of the pair. */
  lemma FirstHandled(start: System, n: nat, p: nat, file: Copy, cp: Client, cq: Client)
    requires p < 2 && Reaches(start, n, Pair(p, file, cp, cq)) && cp.outbox != []
    ensures Reaches(start, n + 1, Pair(p, cp.outbox[0], cp.(outbox := cp.outbox[1..]),
                    if IndexOf(cp.outbox[0]) == IndexOf(file) then cq else Enqueue(cq, cp.outbox[0].Some?)))
  {
    PairHandles(p, file, cp, cq);
    ReachStep(start, n, Pair(p, file, cp, cq), Handle(p),
              Pair(p, cp.outbox[0], cp.(outbox := cp.outbox[1..]),
                   if IndexOf(cp.outbox[0]) == IndexOf(file) then cq else Enqueue(cq, cp.outbox[0].Some?)));
  }

  /** The server knows x, and takes all messages about it but the last. */
  lemma {:induction false} OneLeft(start: System, n: nat, p: nat, c: Client, other: Client, x: Copy) returns (n': nat)
    requires p < 2 && Has(c, x) && c.watch == [] && c.outbox != [] && Reaches(start, n, Pair(p, x, c, other))
    ensures Reaches(start, n', Pair(p, x, Sent(x, [], []), other))
    decreases |c.outbox|
  {
    n' := n;
    if |c.outbox| == 1 {
      assert c.outbox == [x];
      assert c == Sent(x, [], []);
    } else {
      HasMoves(c, x);
      FirstHandled(start, n, p, x, c, other);
      n' := OneLeft(start, n + 1, p, c.(outbox := c.outbox[1..]), other, x);
    }
  }

  /** A busy session comes to have exactly one message about x left. */
  lemma BusyReports(start: System, n: nat, p: nat, c: Client, other: Client, before: Copy, x: Copy) returns (n': nat)
    requires p < 2 && IndexOf(before) != IndexOf(x) && Busy(c, before, x) && Reaches(start, n, Pair(p, x, c, other))
    ensures Reaches(start, n', Pair(p, x, Sent(x, [], []), other))
  {
    var c';
    n', c' := n, c;
    if c'.queue != [] {
      HearsMoves(c', before, x);
      PairMoves(p, x, c', other);
      ReachStep(start, n', Pair(p, x, c', other), Deliver(p), Pair(p, x, Delivered(c', x), other));
      n', c' := n' + 1, Delivered(c', x);
    }
    if c'.inbox != [] {
      HearsMoves(c', before, x);
      PairMoves(p, x, c', other);
      ReachStep(start, n', Pair(p, x, c', other), Receive(p), Pair(p, x, Received(c'), other));
      n', c' := n' + 1, Received(c');
    }
    n', c' := AllReported(start, n', p, x, c', other, x);
    n' := OneLeft(start, n', p, c', other, x);
  }

  /** The author reports its changes. */
  lemma {:induction false} AuthorReports(start: System, n: nat, p: nat, file: Copy, c: Client, other: Client,
                                         x: Copy, y: Copy) returns (n': nat, c': Client)
    requires p < 2 && Reaches(start, n, Pair(p, file, c, other)) && Rewrote(c, x, y)
    ensures Rewrote(c', x, y) && c'.watch == [] && Reaches(start, n', Pair(p, file, c', other))
    decreases |c.watch|
  {
    n', c' := n, c;
    if c.watch != [] {
      RewroteWatches(c, x, y);
      PairMoves(p, file, c, other);
      ReachStep(start, n, Pair(p, file, c, other), Watch(p), Pair(p, file, Watched(c), other));
      n', c' := AuthorReports(start, n + 1, p, file, Watched(c), other, x, y);
    }
  }

  /** What is left to say of y is no news. */
  lemma {:induction false} OldNews(start: System, n: nat, p: nat, other: Client, y: Copy, q: seq<Copy>)
    returns (n': nat)
    requires p < 2 && Reaches(start, n, Pair(p, y, Client(y, [], [], [], q), other)) && All(q, y)
    ensures Reaches(start, n', Pair(p, y, Idle(y), other))
    decreases |q|
  {
    n' := n;
    if q != [] {
      FirstHandled(start, n, p, y, Client(y, [], [], [], q), other);
      n' := OldNews(start, n + 1, p, other, y, q[1..]);
    }
  }

  lemma RestInOrder(q: seq<Copy>, x: Copy, y: Copy)
    requires InOrder(q, x, y) && LastIs(q, y)
    ensures q[0] == y ==> All(q[1..], y)
    ensures q[0] != y ==> q[0] == x && InOrder(q[1..], x, y) && LastIs(q[1..], y)
  {
  }

  /** The server takes the messages about x for what it has, and passes y on. */
  lemma {:induction false} NewsArrives(start: System, n: nat, p: nat, other: Client, x: Copy, y: Copy, q: seq<Copy>)
    returns (n': nat)
    requires p < 2 && Reaches(start, n, Pair(p, x, Client(y, [], [], [], q), other))
    requires IndexOf(x) != IndexOf(y) && InOrder(q, x, y) && LastIs(q, y)
    ensures Reaches(start, n', Pair(p, y, Idle(y), Enqueue(other, y.Some?)))
    decreases |q|
  {
    FirstHandled(start, n, p, x, Client(y, [], [], [], q), other);
    RestInOrder(q, x, y);
    if q[0] == y {
      n' := OldNews(start, n + 1, p, Enqueue(other, y.Some?), y, q[1..]);
    } else {
      n' := NewsArrives(start, n + 1, p, other, x, y, q[1..]);
    }
  }

  /** The server knows y, which is on its way to the other session, and that one's echo of x is
   *  on its way to the server. */
  function Chased(p: nat, x: Copy, y: Copy): System {
    Pair(p, y, Idle(y), Enqueue(Sent(x, [], []), y.Some?))
  }

  lemma DisturbedStarts(s: System, a: nat, before: Copy, x: Copy, y: Copy, twice: bool)
    returns (n: nat, c: Client, other: Client)
    requires OneChange(s, a, before, x) && !Calm(s, a) && x != y
    ensures Rewrote(c, x, y) && Busy(other, before, x)
    ensures Reaches(Changed(s, a, y, twice), n, Pair(a, x, c, other))
  {
    var t := Changed(s, a, y, twice);
    NotCalm(s, a, before, x);
    AuthorRewrote(s.clients[a], x, y, twice);
    AsPair(t, a);
    ReachStart(t);
    n, c, other := 0, t.clients[a], t.clients[1 - a];
    if Unnoticed(s, a, before, x) {
      if c.outbox == [] {
        assert !c.watch[0];
        RewroteWatches(c, x, y);
        PairMoves(a, before, c, other);
        ReachStep(t, 0, Pair(a, before, c, other), Watch(a), Pair(a, before, Watched(c), other));
        n, c := 1, Watched(c);
      }
      RewroteHandles(c, x, y);
      FirstHandled(t, n, a, before, c, other);
      n, c, other := n + 1, c.(outbox := c.outbox[1..]), Enqueue(other, x.Some?);
    }
  }

  lemma AsPair(s: System, a: nat)
    requires a < 2 && |s.clients| == 2 && s.crc == IndexOf(s.file)
    ensures s == Pair(a, s.file, s.clients[a], s.clients[1 - a])
  {
  }

  lemma Chases(start: System, n: nat, p: nat, c: Client, other: Client, before: Copy, x: Copy, y: Copy)
    returns (n': nat)
    requires p < 2 && IndexOf(before) != IndexOf(x) && IndexOf(x) != IndexOf(y)
    requires Rewrote(c, x, y) && Busy(other, before, x) && Reaches(start, n, Pair(p, x, c, other))
    ensures Reaches(start, n', Chased(p, x, y))
  {
    var c';
    PairFlip(p, x, c, other);
    n' := BusyReports(start, n, 1 - p, other, c, before, x);
    PairFlip(p, x, c, Sent(x, [], []));
    n', c' := AuthorReports(start, n', p, x, c, Sent(x, [], []), x, y);
    assert c' == Client(y, [], [], [], c'.outbox);
    n' := NewsArrives(start, n', p, Sent(x, [], []), x, y, c'.outbox);
  }

  // ------------------------------------------------------------------ the echo can win

  /** With x back at the server, a pending SEND brings nothing but x. */
  lemma SendBringsX(x: Copy, y: Copy)
    requires y.Some?
    ensures Delivered(Client(x, [y.Some?], [], [], []), x) == Rests(x, if x.Some? then [x] else [], [])
    ensures About(Rests(x, if x.Some? then [x] else [], []), x) && About(Enqueue(Idle(y), x.Some?), x)
  {
    assert [y.Some?][1..] == [];
  }

  /** As if the other session had just written x. */
  lemma AsIfWritten(p: nat, x: Copy, y: Copy)
    requires p < 2 && IndexOf(x) != IndexOf(y) && y.Some?
    ensures Inv(Pair(1 - p, x, Rests(x, if x.Some? then [x] else [], []), Enqueue(Idle(y), x.Some?)), 1 - p, y, x)
  {
    var c, other := Rests(x, if x.Some? then [x] else [], []), Enqueue(Idle(y), x.Some?);
    var s := Pair(1 - p, x, c, other);
    SendBringsX(x, y);
    assert s.clients[1 - p] == c && s.clients[p] == other;
    assert Reached(s, y, x);
  }

  /** The echo overtakes a second write. */
  lemma EchoOvertakes(start: System, n: nat, p: nat, x: Copy, y: Copy)
    requires p < 2 && IndexOf(x) != IndexOf(y) && y.Some? && Reaches(start, n, Chased(p, x, y))
    ensures CanEndWith(start, x)
  {
    var told, back := Enqueue(Sent(x, [], []), y.Some?), Enqueue(Idle(y), x.Some?);
    var spoken, c := Client(x, [y.Some?], [], [], []), Rests(x, if x.Some? then [x] else [], []);
    PairFlip(p, y, Idle(y), told);
    assert told.(outbox := told.outbox[1..]) == spoken;
    FirstHandled(start, n, 1 - p, y, told, Idle(y));
    PairMoves(1 - p, x, spoken, back);
    SendBringsX(x, y);
    ReachStep(start, n + 1, Pair(1 - p, x, spoken, back), Deliver(1 - p), Pair(1 - p, x, c, back));
    AsIfWritten(p, x, y);
    var m, end := CanComeToRest(start, n + 2, Pair(1 - p, x, c, back), 1 - p, y, x, x);
    WayOutcome(end, 1 - p, y, x, x);
    EndsSomewhere(start, m, end, x, x);
  }

  // ------------------------------------------------------------------ the echoes can go on

  /** When the other session takes y before its echo arrives, the two have crossed. */
  lemma EchoCrosses(start: System, n: nat, p: nat, x: Copy, y: Copy)
    requires p < 2 && IndexOf(x) != IndexOf(y) && Reaches(start, n, Chased(p, x, y))
    ensures Reaches(start, n + 3, Crossed(1 - p, y, x))
  {
    var told, back := Enqueue(Sent(x, [], []), y.Some?), Enqueue(Idle(y), x.Some?);
    var q := 1 - p;
    PairFlip(p, y, Idle(y), told);
    PairMoves(q, y, told, Idle(y));
    EntryDelivers(Sent(x, [], []), y);
    SentHears(x, y);
    ReachStep(start, n, Pair(q, y, told, Idle(y)), Deliver(q), Pair(q, y, Sent(x, [y], []), Idle(y)));
    FirstHandled(start, n + 1, q, y, Sent(x, [y], []), Idle(y));
    PairFlip(q, x, Rests(x, [y], []), back);
    PairMoves(p, x, back, Rests(x, [y], []));
    EntryDelivers(Idle(y), x);
    RestsHears(y, x);
    PairFlip(p, x, Rests(y, [x], []), Rests(x, [y], []));
    ReachStep(start, n + 2, Pair(q, x, Rests(x, [y], []), back), Deliver(p), Crossed(q, y, x));
  }

  lemma SentHears(x: Copy, y: Copy)
    ensures var c := Sent(x, [], []); c.(inbox := c.inbox + [y]) == Sent(x, [y], [])
    ensures Sent(x, [y], []).(outbox := Sent(x, [y], []).outbox[1..]) == Rests(x, [y], [])
    ensures Idle(y) == Rests(y, [], [])
  {
  }

  lemma ChasedGoesOn(start: System, n: nat, p: nat, x: Copy, y: Copy)
    requires p < 2 && IndexOf(x) != IndexOf(y) && Reaches(start, n, Chased(p, x, y))
    ensures GoesOnForEver(start)
  {
    EchoCrosses(start, n, p, x, y);
    forall laps: nat ensures LongRun(start, laps) {
      var n', p' := Laps(start, n + 3, 1 - p, y, x, laps);
      var run :| |run| == n' && IsRun(start, run) && Exec(start, run) == Crossed(p', y, x);
    }
  }

  // ------------------------------------------------------------------ a second change of the same index

  /** Session b keeps x, for all that is under way has the index that the server knows. */
  predicate Fixed(s: System, b: nat, x: Copy) {
    && b < |s.clients| && s.clients[b].copy == x && s.clients[b].queue == [] && s.clients[b].inbox == []
    && s.crc == IndexOf(x)
  }

  lemma FixedStep(s: System, t: Step, b: nat, x: Copy)
    requires Fixed(s, b, x) && AllAlike(s, IndexOf(x)) && Enabled(s, t)
    ensures Fixed(Apply(s, t), b, x)
  {
    AlikeHandled(s.clients[t.i], IndexOf(x));
  }

  lemma {:induction false} FixedRests(start: System, n: nat, s: System, b: nat, x: Copy) returns (n': nat, end: System)
    requires Reaches(start, n, s) && Fixed(s, b, x) && AllAlike(s, IndexOf(x))
    ensures Reaches(start, n', end) && Fixed(end, b, x) && Quiet(end)
    decreases Measure(s, IndexOf(x))
  {
    if t :| Enabled(s, t) {
      AlikeHandled(s.clients[t.i], IndexOf(x));
      StepDescends(s, t, IndexOf(x));
      StepKeepsAlike(s, t, IndexOf(x));
      FixedStep(s, t, b, x);
      ReachStep(start, n, s, t, Apply(s, t));
      n', end := FixedRests(start, n + 1, Apply(s, t), b, x);
    } else {
      n', end := n, s;
    }
  }

  lemma {:induction false} RunKeepsAlike(s: System, run: seq<Step>, index: Option<nat>)
    requires AllAlike(s, index) && IsRun(s, run)
    ensures AllAlike(Exec(s, run), index)
    decreases |run|
  {
    if run != [] {
      StepKeepsAlike(s, run[0], index);
      RunKeepsAlike(Apply(s, run[0]), run[1..], index);
    }
  }

  lemma OtherAlike(c: Client, before: Copy, x: Copy)
    requires Hears(c, before, x) || Has(c, x) || c == Idle(before)
    ensures Alike(c, IndexOf(x))
  {
  }

  lemma AuthorAlike(c: Client, x: Copy, y: Copy, twice: bool)
    requires Has(c, x) && IndexOf(x) == IndexOf(y)
    ensures Alike(c.(copy := y, watch := c.watch + if y.Some? && twice then [true, true] else [y.Some?]), IndexOf(x))
  {
  }

  lemma SameIndexAlike(s: System, a: nat, before: Copy, x: Copy, y: Copy, twice: bool)
    requires OneChange(s, a, before, x) && IndexOf(x) == IndexOf(y)
    ensures AllAlike(Changed(s, a, y, twice), IndexOf(x))
  {
    var t := Changed(s, a, y, twice);
    AuthorAlike(s.clients[a], x, y, twice);
    OtherAlike(s.clients[1 - a], before, x);
    assert t.clients[1 - a] == s.clients[1 - a];
    assert forall k :: 0 <= k < 2 ==> Alike(t.clients[k], IndexOf(x));
    assert Unnoticed(s, a, before, x) ==> forall k :: 0 <= k < 2 ==> t.clients[k].queue == [];
  }

  /** The other session can be left behind with x. */
  lemma SameIndexIsLost(s: System, a: nat, before: Copy, x: Copy, y: Copy, twice: bool)
    requires OneChange(s, a, before, x) && !Calm(s, a) && IndexOf(x) == IndexOf(y) && x != y
    ensures !Survives(Changed(s, a, y, twice), y)
    ensures Bounded(Changed(s, a, y, twice), Measure(Changed(s, a, y, twice), IndexOf(y)))
  {
    var t := Changed(s, a, y, twice);
    SameIndexAlike(s, a, before, x, y, twice);
    forall run | IsRun(t, run) ensures |run| <= Measure(t, IndexOf(y)) { AlikeRunEnds(t, run, IndexOf(y)); }
    var n, c, other := DisturbedStarts(s, a, before, x, y, twice);
    NotCalm(s, a, before, x);
    PairFlip(a, x, c, other);
    n := BusyReports(t, n, 1 - a, other, c, before, x);
    var mid := Pair(1 - a, x, Sent(x, [], []), c);
    var run :| |run| == n && IsRun(t, run) && Exec(t, run) == mid;
    RunKeepsAlike(t, run, IndexOf(x));
    assert mid.clients[1 - a] == Sent(x, [], []);
    var end;
    n, end := FixedRests(t, n, mid, 1 - a, x);
    EndsSomewhere(t, n, end, x, y);
  }

  // ------------------------------------------------------------------ a removal

  lemma RemovalStarts(s: System, a: nat, before: Copy, x: Copy)
    requires OneChange(s, a, before, x) && IndexOf(before) != IndexOf(x) && x.Some?
    ensures EchoRemoval.Removing(Changed(s, a, None, false), a, before, x)
  {
    var t := Changed(s, a, None, false);
    assert EchoRemoval.Removed(t.clients[a], x);
    assert t.clients[1 - a] == s.clients[1 - a];
    if Noticed(s, a, before, x) {
      assert EchoRemoval.Plain(t.clients[1 - a], x);
      assert EchoRemoval.Undone(t, a, x);
    }
  }

  lemma RemovalSurvives(s: System, a: nat, before: Copy, x: Copy)
    requires OneChange(s, a, before, x) && IndexOf(before) != IndexOf(x) && x.Some?
    ensures Survives(Changed(s, a, None, false), None)
  {
    var t := Changed(s, a, None, false);
    RemovalStarts(s, a, before, x);
    forall run | IsRun(t, run) && Quiet(Exec(t, run)) ensures Exec(t, run).file == None && AllEqual(Exec(t, run)) {
      EchoRemoval.RunKeepsRemoving(t, run, a, before, x);
      EchoRemoval.RemovalWins(Exec(t, run), a, before, x);
    }
  }

  // ------------------------------------------------------------------ the exact conditions

  /** What decides, at the moment of the second change, whether it survives. */
  predicate Safe(s: System, a: nat, x: Copy, y: Copy)
    requires a < |s.clients| == 2
  {
    if Calm(s, a) then IndexOf(s.clients[1 - a].copy) != IndexOf(y) || s.clients[1 - a].copy == y
    else y == x || y.None?
  }

  lemma CalmChange(s: System, a: nat, before: Copy, x: Copy, y: Copy, twice: bool)
    requires OneChange(s, a, before, x) && Calm(s, a)
    ensures Survives(Changed(s, a, y, twice), y) <==> Safe(s, a, x, y)
    ensures !GoesOnForEver(Changed(s, a, y, twice))
  {
    var t := Changed(s, a, y, twice);
    CalmStarts(s, a, before, x, y, twice);
    WaySurvivesIff(t, a, s.clients[1 - a].copy, x, y);
    BoundedEnds(t, Measure(t, IndexOf(y)));
  }

  lemma SameChange(s: System, a: nat, before: Copy, x: Copy, twice: bool)
    requires OneChange(s, a, before, x) && !Calm(s, a)
    ensures Survives(Changed(s, a, x, twice), x) && !GoesOnForEver(Changed(s, a, x, twice))
  {
    var t := Changed(s, a, x, twice);
    NotCalm(s, a, before, x);
    SameAgain(s, a, before, x, twice);
    WaySurvivesIff(t, a, before, x, x);
    BoundedEnds(t, Measure(t, IndexOf(x)));
  }

  lemma DisturbedChange(s: System, a: nat, before: Copy, x: Copy, y: Copy, twice: bool)
    requires OneChange(s, a, before, x) && !Calm(s, a) && IndexOf(x) != IndexOf(y)
    ensures GoesOnForEver(Changed(s, a, y, twice))
    ensures y.Some? ==> CanEndWith(Changed(s, a, y, twice), x) && !Survives(Changed(s, a, y, twice), y)
  {
    var t := Changed(s, a, y, twice);
    NotCalm(s, a, before, x);
    var n, c, other := DisturbedStarts(s, a, before, x, y, twice);
    n := Chases(t, n, a, c, other, before, x, y);
    ChasedGoesOn(t, n, a, x, y);
    if y.Some? {
      EchoOvertakes(t, n, a, x, y);
      NotBoth(t, x, y);
    }
  }

  /** The two outcomes exclude each other. */
  lemma NotBoth(s: System, x: Copy, y: Copy)
    requires CanEndWith(s, x) && x != y
    ensures !Survives(s, y)
  {
    var run :| IsRun(s, run) && Quiet(Exec(s, run)) && Exec(s, run).file == x && AllEqual(Exec(s, run));
  }

  lemma SecondChange(s: System, a: nat, before: Copy, x: Copy, y: Copy, twice: bool)
    requires OneChange(s, a, before, x) && (y.None? ==> !twice)
    ensures var again := Changed(s, a, y, twice);
            && (Survives(again, y) <==> Safe(s, a, x, y))
            && (GoesOnForEver(again) <==> !Calm(s, a) && IndexOf(x) != IndexOf(y))
            && (!Calm(s, a) && IndexOf(x) != IndexOf(y) && y.Some? ==> CanEndWith(again, x))
  {
    if Calm(s, a) {
      CalmChange(s, a, before, x, y, twice);
    } else if x == y {
      SameChange(s, a, before, x, twice);
    } else if IndexOf(x) == IndexOf(y) {
      SameIndexIsLost(s, a, before, x, y, twice);
      BoundedEnds(Changed(s, a, y, twice), Measure(Changed(s, a, y, twice), IndexOf(y)));
    } else {
      DisturbedChange(s, a, before, x, y, twice);
      if y.None? {
        NotCalm(s, a, before, x);
        RemovalSurvives(s, a, before, x);
      }
    }
  }

  /** A session changes the file to x, the system goes on for a while, and the session changes it
   *  to y; each may be a write or a removal, of whatever content.  In the end y is everywhere,
   *  however it goes on, if and only if
   *  - at that moment nothing the session has yet to tell the server is news, the other session
   *    is at rest with the version the server knows, and that version is y or has another index;
   *  - or that is not so, and y is the same change again or a removal. */
  lemma SecondChangeSurvivesIff(s: System, a: nat, before: Copy, x: Copy, y: Copy, xTwice: bool, yTwice: bool,
                                run: seq<Step>)
    requires Settled(s, before) && a < |s.clients| == 2 && IsRun(Changed(s, a, x, xTwice), run)
    ensures var mid := Exec(Changed(s, a, x, xTwice), run);
            |mid.clients| == 2 &&
            var again := Changed(mid, a, y, yTwice);
            && (Survives(again, y) <==> Safe(mid, a, x, y))
            && (!Calm(mid, a) && IndexOf(x) != IndexOf(y) && y.Some? ==> CanEndWith(again, x))
  {
    var mid := Exec(Changed(s, a, x, xTwice), run);
    FirstChange(s, a, before, x, xTwice, run);
    SecondChange(mid, a, before, x, y, y.Some? && yTwice);
  }

  /** And the echoes can go round for ever if and only if that is not so and the index tells the
   *  two changes apart. */
  lemma SecondChangeGoesOnIff(s: System, a: nat, before: Copy, x: Copy, y: Copy, xTwice: bool, yTwice: bool,
                              run: seq<Step>)
    requires Settled(s, before) && a < |s.clients| == 2 && IsRun(Changed(s, a, x, xTwice), run)
    ensures var mid := Exec(Changed(s, a, x, xTwice), run);
            && |mid.clients| == 2
            && (GoesOnForEver(Changed(mid, a, y, yTwice)) <==> !Calm(mid, a) && IndexOf(x) != IndexOf(y))
  {
    var mid := Exec(Changed(s, a, x, xTwice), run);
    FirstChange(s, a, before, x, xTwice, run);
    SecondChange(mid, a, before, x, y, y.Some? && yTwice);
  }

}
