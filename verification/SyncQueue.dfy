/** The bounded buffer between the handlers and the send thread of a session
 *  (src/util/fileSync.c).  Waiting on a condition is an outcome that changes nothing;
 *  the caller tries again when signalled. */
module SyncQueue {
  import opened Bytes

  const FILE_SYNC_BUFFER_SIZE := 10

  datatype EntryType = FileEntrySend | FileEntryDelete
  datatype FileEntry = FileEntry(kind: EntryType, username: CString, toSession: int, filename: CString)

  /** The fields of a `FileSyncBuffer`. */
  datatype Ring = Ring(slots: seq<FileEntry>, start: nat, end: nat, count: nat)

  predicate WellFormed(r: Ring) {
    && |r.slots| == FILE_SYNC_BUFFER_SIZE
    && r.start < FILE_SYNC_BUFFER_SIZE && r.count <= FILE_SYNC_BUFFER_SIZE
    && r.end == (r.start + r.count) % FILE_SYNC_BUFFER_SIZE
  }

  /** The undelivered entries, oldest first. */
  function Contents(r: Ring): (q: seq<FileEntry>)
    requires WellFormed(r)
    ensures |q| == r.count
  {
    seq(r.count, i requires 0 <= i < r.count => r.slots[(r.start + i) % FILE_SYNC_BUFFER_SIZE])
  }

  function Put(r: Ring, e: FileEntry): Ring
    requires WellFormed(r) && r.count < FILE_SYNC_BUFFER_SIZE
  {
    Ring(r.slots[r.end := e], r.start, (r.end + 1) % FILE_SYNC_BUFFER_SIZE, r.count + 1)
  }

  function Take(r: Ring): Ring
    requires WellFormed(r) && r.count > 0
  {
    Ring(r.slots, (r.start + 1) % FILE_SYNC_BUFFER_SIZE, r.end, r.count - 1)
  }

  /** The slot i places after `start`. */
  lemma Around(start: nat, i: nat)
    requires start < FILE_SYNC_BUFFER_SIZE && i <= FILE_SYNC_BUFFER_SIZE
    ensures (start + i) % FILE_SYNC_BUFFER_SIZE
            == if start + i < FILE_SYNC_BUFFER_SIZE then start + i else start + i - FILE_SYNC_BUFFER_SIZE
  {
  }

  /** Putting appends, and overwrites nothing that is still to be delivered. */
  lemma PutAppends(r: Ring, e: FileEntry)
    requires WellFormed(r) && r.count < FILE_SYNC_BUFFER_SIZE
    ensures WellFormed(Put(r, e)) && Contents(Put(r, e)) == Contents(r) + [e]
  {
    var s := Put(r, e);
    Around(r.start, r.count);
    Around(r.start, r.count + 1);
    forall i | 0 <= i < s.count ensures Contents(s)[i] == (Contents(r) + [e])[i] {
      if i < r.count {
        Around(r.start, i);
      }
    }
  }

  lemma TakeRemovesFirst(r: Ring)
    requires WellFormed(r) && r.count > 0
    ensures WellFormed(Take(r)) && Contents(r) == [r.slots[r.start]] + Contents(Take(r))
  {
    var s := Take(r);
    Around(r.start, 1);
    forall i | 0 <= i < s.count ensures Contents(r)[i + 1] == Contents(s)[i] {
      Around(r.start, i + 1);
      Around(s.start, i);
    }
  }

  // ------------------------------------------------------------------ the monitor

  datatype GetResult = MustWait | Invalid | Entry(entry: FileEntry)

  class FileSyncBuffer {
    const buffer: array<FileEntry>
    var start: nat
    var end: nat
    var count: nat

    ghost predicate Valid()
      reads this, buffer
    {
      buffer.Length == FILE_SYNC_BUFFER_SIZE && WellFormed(Abs())
    }

    ghost function Abs(): Ring
      reads this, buffer
    {
      Ring(buffer[..], start, end, count)
    }

    /** `init_file_sync_buffer`; the slots need no initial value. */
    constructor (anything: FileEntry)
      ensures Valid() && fresh(buffer) && Contents(Abs()) == []
    {
      buffer := new FileEntry[FILE_SYNC_BUFFER_SIZE](_ => anything);
      start, end, count := 0, 0, 0;
    }

    /** `add_file_to_sync_buffer`, once around its wait loop. */
    method Add(e: FileEntry) returns (added: bool)
      requires Valid()
      modifies this, buffer
      ensures Valid()
      ensures added <==> |old(Contents(Abs()))| < 10
      ensures Abs() == if added then Put(old(Abs()), e) else old(Abs())
      ensures Contents(Abs()) == old(Contents(Abs())) + if added then [e] else []
    {
      if count == FILE_SYNC_BUFFER_SIZE {
        return false;
      }
      PutAppends(Abs(), e);
      buffer[end] := e;
      end := (end + 1) % FILE_SYNC_BUFFER_SIZE;
      count := count + 1;
      return true;
    }

    /** `get_next_file_to_sync`, once around its wait loop. */
    method Get(active: bool) returns (r: GetResult)
      requires Valid()
      modifies this
      ensures Valid()
      ensures r == if !active then Invalid else if old(count) == 0 then MustWait else Entry(old(Contents(Abs()))[0])
      ensures Abs() == if r.Entry? then Take(old(Abs())) else old(Abs())
      ensures Contents(Abs()) == if r.Entry? then old(Contents(Abs()))[1..] else old(Contents(Abs()))
    {
      if count == 0 && active {
        return MustWait;
      }
      if !active {
        return Invalid;
      }
      TakeRemovesFirst(Abs());
      r := Entry(buffer[start]);
      start := (start + 1) % FILE_SYNC_BUFFER_SIZE;
      count := count - 1;
    }
  }

  // ------------------------------------------------------------------ all interleavings

  /** A session's buffer with the history of what went in and what came out. */
  datatype Queue = Queue(ring: Ring, active: bool, added: seq<FileEntry>, delivered: seq<FileEntry>)

  datatype Op = Produce(e: FileEntry) | Consume | Deactivate

  function Apply(q: Queue, op: Op): Queue
    requires WellFormed(q.ring)
  {
    match op
    case Produce(e) =>
      if q.ring.count == FILE_SYNC_BUFFER_SIZE then q
      else q.(ring := Put(q.ring, e), added := q.added + [e])
    case Consume =>
      if !q.active || q.ring.count == 0 then q
      else q.(ring := Take(q.ring), delivered := q.delivered + [q.ring.slots[q.ring.start]])
    case Deactivate => q.(active := false)
  }

  ghost predicate Balanced(q: Queue) {
    WellFormed(q.ring) && q.added == q.delivered + Contents(q.ring)
  }

  lemma ApplyKeepsBalance(q: Queue, op: Op)
    requires Balanced(q)
    ensures Balanced(Apply(q, op))
  {
    match op
    case Produce(e) =>
      if q.ring.count < FILE_SYNC_BUFFER_SIZE { PutAppends(q.ring, e); }
    case Consume =>
      if q.active && q.ring.count > 0 { TakeRemovesFirst(q.ring); }
    case Deactivate =>
  }

  /** Running needs well-formed rings on the way, which balance provides. */
  function Exec(q: Queue, ops: seq<Op>): (r: Queue)
    requires Balanced(q)
    ensures Balanced(r)
    decreases |ops|
  {
    if ops == [] then q
    else
      ApplyKeepsBalance(q, ops[0]);
      Exec(Apply(q, ops[0]), ops[1..])
  }

  /** First in, first out, under every interleaving of producers, the consumer and the exit:
   *  what has been delivered is a prefix of what was added, and nothing in between is lost. */
  lemma Fifo(slots: seq<FileEntry>, ops: seq<Op>)
    requires |slots| == FILE_SYNC_BUFFER_SIZE
    ensures var q := Exec(Queue(Ring(slots, 0, 0, 0), true, [], []), ops);
            && q.delivered <= q.added
            && q.added[|q.delivered|..] == Contents(q.ring)
            && q.ring.count <= FILE_SYNC_BUFFER_SIZE
            && q.ring.end == (q.ring.start + q.ring.count) % FILE_SYNC_BUFFER_SIZE
  {
    var q := Exec(Queue(Ring(slots, 0, 0, 0), true, [], []), ops);
    assert Balanced(q);
  }

  // ------------------------------------------------------------------ after the exit

  /** After the exit nothing is delivered any more, so a full buffer stays full: the wait loop
   *  of a producer does not look at `active`. */
  lemma {:induction false} StuckAfterExit(q: Queue, ops: seq<Op>)
    requires Balanced(q) && !q.active
    ensures Exec(q, ops).delivered == q.delivered && !Exec(q, ops).active
    ensures |Exec(q, ops).added| - |q.added| <= FILE_SYNC_BUFFER_SIZE - q.ring.count
    ensures q.ring.count == FILE_SYNC_BUFFER_SIZE ==> Exec(q, ops) == q
    decreases |ops|
  {
    if ops != [] {
      ApplyKeepsBalance(q, ops[0]);
      StuckAfterExit(Apply(q, ops[0]), ops[1..]);
    }
  }

  /** Some producer gets an entry in, sooner or later. */
  ghost predicate CanAdd(q: Queue)
    requires Balanced(q)
  {
    exists ops :: |Exec(q, ops).added| > |q.added|
  }

  lemma OneOp(q: Queue, op: Op)
    requires Balanced(q)
    ensures Exec(q, [op]) == Apply(q, op)
  {
    ApplyKeepsBalance(q, op);
    assert [op][1..] == [];
  }

  lemma TwoOps(q: Queue, op: Op, next: Op)
    requires Balanced(q)
    ensures Balanced(Apply(q, op)) && Exec(q, [op, next]) == Apply(Apply(q, op), next)
  {
    ApplyKeepsBalance(q, op);
    OneOp(Apply(q, op), next);
    assert [op, next][1..] == [next];
  }

  /** A waiting producer can still get through if and only if the session is active or the
   *  buffer has room. */
  lemma ProducerGetsThroughIff(q: Queue, e: FileEntry)
    requires Balanced(q)
    ensures CanAdd(q) <==> q.active || q.ring.count < FILE_SYNC_BUFFER_SIZE
  {
    if q.ring.count < FILE_SYNC_BUFFER_SIZE {
      OneOp(q, Produce(e));
      assert |Exec(q, [Produce(e)]).added| > |q.added|;
    } else if q.active {
      TwoOps(q, Consume, Produce(e));
      assert |Exec(q, [Consume, Produce(e)]).added| > |q.added|;
    } else {
      forall ops ensures |Exec(q, ops).added| == |q.added| {
        StuckAfterExit(q, ops);
      }
    }
  }

  function Producing(es: seq<FileEntry>): (ops: seq<Op>)
    ensures |ops| == |es|
  {
    if es == [] then [] else [Produce(es[0])] + Producing(es[1..])
  }

  lemma ProduceOne(q: Queue, e: FileEntry, later: seq<Op>)
    requires Balanced(q) && q.ring.count < FILE_SYNC_BUFFER_SIZE
    ensures var next := Apply(q, Produce(e));
            && Balanced(next) && next.ring.count == q.ring.count + 1 && next.added == q.added + [e]
            && Exec(q, [Produce(e)] + later) == Exec(next, later)
  {
    ApplyKeepsBalance(q, Produce(e));
    assert ([Produce(e)] + later)[1..] == later;
  }

  /** Entries put in while there is room, and what comes after them. */
  lemma {:induction false} Filled(q: Queue, es: seq<FileEntry>, later: seq<Op>) returns (end: Queue)
    requires Balanced(q) && q.ring.count + |es| <= FILE_SYNC_BUFFER_SIZE
    ensures Balanced(end) && end.ring.count == q.ring.count + |es| && end.added == q.added + es
    ensures Exec(q, Producing(es) + later) == Exec(end, later)
    decreases |es|
  {
    end := q;
    if es == [] {
      assert Producing(es) + later == later;
    } else {
      assert Producing(es) + later == [Produce(es[0])] + (Producing(es[1..]) + later);
      ProduceOne(q, es[0], Producing(es[1..]) + later);
      end := Filled(Apply(q, Produce(es[0])), es[1..], later);
      assert q.added + es == q.added + [es[0]] + es[1..];
    }
  }

  lemma FilledIsStuck(q: Queue, es: seq<FileEntry>)
    requires Balanced(q) && es != [] && q.ring.count + |es| == FILE_SYNC_BUFFER_SIZE
    ensures var end := Exec(q, Producing(es) + [Deactivate]);
            !end.active && end.ring.count == FILE_SYNC_BUFFER_SIZE && end.added == q.added + es && !CanAdd(end)
  {
    var full := Filled(q, es, [Deactivate]);
    OneOp(full, Deactivate);
    ProducerGetsThroughIff(Exec(q, Producing(es) + [Deactivate]), es[0]);
  }

  /** The run to such a buffer: ten entries and the exit; no further producer gets through. */
  lemma FullBufferOfExitedSession(slots: seq<FileEntry>, es: seq<FileEntry>)
    requires |slots| == FILE_SYNC_BUFFER_SIZE && |es| == FILE_SYNC_BUFFER_SIZE
    ensures var end := Exec(Queue(Ring(slots, 0, 0, 0), true, [], []), Producing(es) + [Deactivate]);
            !end.active && end.ring.count == FILE_SYNC_BUFFER_SIZE && end.added == es && !CanAdd(end)
  {
    FilledIsStuck(Queue(Ring(slots, 0, 0, 0), true, [], []), es);
    assert [] + es == es;
  }
}
