/** A session writes a file and then deletes it: once everything has come to rest, the file is
 *  gone, however the echoes of the write and of the removal have crossed. */
module EchoRemoval {
  import opened Seqs
  import opened Echo

  /** Some `rest`, and `last` at the end. */
  predicate EndsWith<T(==)>(q: seq<T>, rest: T, last: T) {
    q != [] && q[|q| - 1] == last && forall k :: 0 <= k < |q| - 1 ==> q[k] == rest
  }

  /** Whatever a client has to report is x, which it holds. */
  predicate Reports(c: Client, x: Copy) {
    && All(c.watch, true) && All(c.outbox, x)
    && (c.watch != [] || c.outbox != [] ==> c.copy == x)
  }

  /** Nothing but x is on its way to and from a client. */
  predicate Plain(c: Client, x: Copy) {
    Reports(c, x) && All(c.queue, true) && All(c.inbox, x)
  }

  /** The removal is on its way to a client, behind everything else. */
  predicate Announced(c: Client, x: Copy) {
    && Reports(c, x)
    && ((EndsWith(c.queue, true, false) && All(c.inbox, x)) || (c.queue == [] && EndsWith(c.inbox, x, None)))
  }

  /** The client has removed its copy and has yet to say so, behind everything else. */
  predicate Removed(c: Client, x: Copy) {
    && c.copy == None && c.queue == [] && c.inbox == []
    && ((EndsWith(c.watch, true, false) && All(c.outbox, x)) || (c.watch == [] && EndsWith(c.outbox, x, None)))
  }

  /** The removal will find a copy to remove, so that the client will report it. */
  predicate WillReport(c: Client) {
    c.copy.Some? || true in c.queue || exists k :: 0 <= k < |c.inbox| && c.inbox[k].Some?
  }

  /** The server has x; client h bears the removal, and the other one knows of none. */
  predicate Undone(s: System, h: nat, x: Copy) {
    && h < 2 && |s.clients| == 2 && s.file == x && s.crc == IndexOf(x)
    && (Removed(s.clients[h], x) || (Announced(s.clients[h], x) && WillReport(s.clients[h])))
    && Plain(s.clients[1 - h], x)
  }

  /** The server has no file; client h may still bear the removal. */
  predicate Done(s: System, h: nat, x: Copy) {
    && h < 2 && |s.clients| == 2 && s.file == None && s.crc == None
    && (Removed(s.clients[h], x) || Announced(s.clients[h], x) || s.clients[h] == Idle(None))
    && s.clients[1 - h] == Idle(None)
  }

  /** The server has heard neither of x nor of its removal by a. */
  predicate Unheard(s: System, a: nat, before: Copy, x: Copy) {
    && a < 2 && |s.clients| == 2 && s.file == before && s.crc == IndexOf(before) != IndexOf(x)
    && Removed(s.clients[a], x) && s.clients[1 - a] == Idle(before)
  }

  predicate Removing(s: System, a: nat, before: Copy, x: Copy) {
    Unheard(s, a, before, x) || Undone(s, 0, x) || Undone(s, 1, x) || Done(s, 0, x) || Done(s, 1, x)
  }

  // ------------------------------------------------------------------ one client

  lemma PlainMoves(c: Client, x: Copy)
    requires Plain(c, x) && x.Some?
    ensures c.queue != [] ==> Plain(Delivered(c, x), x)
    ensures c.inbox != [] ==> Plain(Received(c), x)
    ensures c.watch != [] ==> Plain(Watched(c), x)
    ensures c.outbox != [] ==> c.outbox[0] == x && Plain(c.(outbox := c.outbox[1..]), x)
    ensures Plain(Enqueue(c, true), x)
    ensures Announced(Enqueue(c, false), x)
  {
  }

  lemma RemovedMoves(c: Client, x: Copy)
    requires Removed(c, x) && x.Some?
    ensures c.watch != [] ==> Removed(Watched(c), x)
    ensures c.outbox != [] && c.outbox[0] == x ==> Removed(c.(outbox := c.outbox[1..]), x)
    ensures c.outbox != [] && c.outbox[0] != x ==> c.outbox[0] == None && c.(outbox := c.outbox[1..]) == Idle(None)
  {
  }

  lemma AnnouncedDelivers(c: Client, file: Copy, x: Copy)
    requires Announced(c, x) && x.Some? && c.queue != [] && (file == x || file == None)
    ensures Announced(Delivered(c, file), x)
    ensures file == x && WillReport(c) ==> WillReport(Delivered(c, file))
  {
    var d := Delivered(c, file);
    if file == x && WillReport(c) && c.copy.None? {
      if c.queue[0] {
        assert d.inbox[|c.inbox|] == x;
      } else {
        assert |c.queue| == 1;
        assert true !in c.queue;
        var k :| 0 <= k < |c.inbox| && c.inbox[k].Some?;
        assert d.inbox[k].Some?;
      }
    }
  }

  lemma AnnouncedReceives(c: Client, x: Copy)
    requires Announced(c, x) && x.Some? && c.inbox != []
    ensures var d := Received(c);
            || (Announced(d, x) && WillReport(d))
            || (WillReport(c) && Removed(d, x))
            || (!WillReport(c) && d == Idle(None))
  {
    if c.inbox[0] == x {
      assert Announced(Received(c), x);
    } else {
      assert c.queue == [] && |c.inbox| == 1;
    }
  }

  lemma AnnouncedReports(c: Client, x: Copy)
    requires Announced(c, x) && x.Some?
    ensures c.watch != [] ==> Announced(Watched(c), x) && (WillReport(c) ==> WillReport(Watched(c)))
    ensures c.outbox != [] ==> c.outbox[0] == x && Announced(c.(outbox := c.outbox[1..]), x)
    ensures c.outbox != [] ==> WillReport(c.(outbox := c.outbox[1..]))
  {
  }

  // ------------------------------------------------------------------ the system

  lemma UndoneStep(s: System, t: Step, h: nat, x: Copy)
    requires Undone(s, h, x) && x.Some? && Enabled(s, t)
    ensures Undone(Apply(s, t), h, x) || Done(Apply(s, t), 1 - h, x)
  {
    var c := s.clients[t.i];
    if t.i != h {
      PlainMoves(c, x);
    } else if Removed(c, x) {
      RemovedMoves(c, x);
      PlainMoves(s.clients[1 - h], x);
    } else {
      match t
      case Deliver(_) => AnnouncedDelivers(c, s.file, x);
      case Receive(_) => AnnouncedReceives(c, x);
      case _ => AnnouncedReports(c, x);
    }
  }

  lemma DoneStep(s: System, t: Step, h: nat, x: Copy)
    requires Done(s, h, x) && x.Some? && Enabled(s, t)
    ensures Undone(Apply(s, t), h, x) || Done(Apply(s, t), h, x)
  {
    var c := s.clients[t.i];
    assert t.i == h;
    PlainMoves(Idle(None), x);
    if Removed(c, x) {
      RemovedMoves(c, x);
    } else {
      match t
      case Deliver(_) => AnnouncedDelivers(c, s.file, x);
      case Receive(_) => AnnouncedReceives(c, x);
      case _ => AnnouncedReports(c, x);
    }
  }

  lemma UnheardStep(s: System, t: Step, a: nat, before: Copy, x: Copy)
    requires Unheard(s, a, before, x) && x.Some? && Enabled(s, t)
    ensures var s' := Apply(s, t);
            Unheard(s', a, before, x) || Undone(s', a, x) || Done(s', 0, x) || Done(s', 1, x)
  {
    assert t.i == a;
    RemovedMoves(s.clients[a], x);
    PlainMoves(Idle(before), x);
  }

  lemma {:induction false} RunKeepsRemoving(s: System, run: seq<Step>, a: nat, before: Copy, x: Copy)
    requires Removing(s, a, before, x) && x.Some? && IsRun(s, run)
    ensures Removing(Exec(s, run), a, before, x)
    decreases |run|
  {
    if run != [] {
      var t := run[0];
      if Unheard(s, a, before, x) {
        UnheardStep(s, t, a, before, x);
      } else if Undone(s, 0, x) {
        UndoneStep(s, t, 0, x);
      } else if Undone(s, 1, x) {
        UndoneStep(s, t, 1, x);
      } else if Done(s, 0, x) {
        DoneStep(s, t, 0, x);
      } else {
        DoneStep(s, t, 1, x);
      }
      RunKeepsRemoving(Apply(s, t), run[1..], a, before, x);
    }
  }

  /** At rest the removal has won. */
  lemma RemovalWins(s: System, a: nat, before: Copy, x: Copy)
    requires Removing(s, a, before, x) && Quiet(s)
    ensures s.file == None && AllEqual(s)
  {
    QuietMeans(s);
    assert forall h :: 0 <= h < |s.clients| ==> NothingLeft(s.clients[h]);
  }
}
