/** Election cascades end: with no new heartbeat timeout every run is finite. */
module ElectionTermination {
  import opened Seqs
  import opened Election

  /** An ELECTION to an id `depth` below the highest one: it may cause an answer, a sleep and
   *  up to `width` ELECTIONs to higher ids. */
  function Worth(depth: nat, width: nat): (w: nat)
    ensures w >= 3
  {
    if depth == 0 then 3 else 3 + width * Worth(depth - 1, width)
  }

  function Weight(e: Event, top: int, width: nat): (w: nat)
    ensures w >= 1
  {
    if e.Election? && e.to <= top then Worth(top - e.to, width) else 1
  }

  function Load(net: seq<Event>, top: int, width: nat): nat {
    if net == [] then 0 else Weight(net[0], top, width) + Load(net[1..], top, width)
  }

  lemma {:induction false} LoadConcat(a: seq<Event>, b: seq<Event>, top: int, width: nat)
    ensures Load(a + b, top, width) == Load(a, top, width) + Load(b, top, width)
  {
    if a == [] {
      assert a + b == b;
    } else {
      assert (a + b)[1..] == a[1..] + b;
      LoadConcat(a[1..], b, top, width);
    }
  }

  lemma LoadRemoveAt(q: seq<Event>, i: nat, top: int, width: nat)
    requires i < |q|
    ensures Load(q, top, width) == Load(RemoveAt(q, i), top, width) + Weight(q[i], top, width)
  {
    assert q == q[..i] + ([q[i]] + q[i + 1..]);
    LoadConcat(q[..i], [q[i]] + q[i + 1..], top, width);
    LoadConcat([q[i]], q[i + 1..], top, width);
    LoadConcat(q[..i], q[i + 1..], top, width);
  }

  lemma {:induction false} WorthGrows(a: nat, b: nat, width: nat)
    requires a <= b && width >= 1
    ensures Worth(a, width) <= Worth(b, width)
  {
    if a < b {
      WorthGrows(a, b - 1, width);
      assert width * Worth(b - 1, width) >= Worth(b - 1, width);
    }
  }

  lemma OneMore(n: nat, w: nat)
    ensures (n + 1) * w == w + n * w
  {
  }

  /** ELECTIONs to ids in (id, top], however often a list names them. */
  lemma {:induction false} CascadeLoad(from: int, q: seq<int>, id: int, top: int, width: nat)
    requires id < top && width >= 1 && forall k :: 0 <= k < |q| ==> id < q[k] <= top
    ensures Load(Elections(from, q), top, width) <= |q| * Worth(top - id - 1, width)
  {
    if q != [] {
      CascadeLoad(from, q[1..], id, top, width);
      assert Elections(from, q)[1..] == Elections(from, q[1..]);
      WorthGrows(top - q[0], top - id - 1, width);
      OneMore(|q[1..]|, Worth(top - id - 1, width));
    }
  }

  lemma {:induction false} HigherIsPart(id: int, peers: seq<int>)
    ensures |Higher(id, peers)| <= |peers|
  {
    if peers != [] { HigherIsPart(id, peers[1..]); }
  }

  /** No id is above `top` and no peer list is longer than `width`. */
  ghost predicate Bounded(c: Cluster, top: int, width: nat) {
    width >= 1 && forall s :: s in c.nodes ==>
      s <= top && |c.nodes[s].peers| <= width && forall t :: t in c.nodes[s].peers ==> t <= top
  }

  function Measure(c: Cluster, top: int, width: nat): nat {
    Load(c.net, top, width) + |c.live|
  }

  lemma Product(a: nat, b: nat, w: nat)
    requires a <= b
    ensures a * w <= b * w
  {
  }

  lemma OpenLoad(id: int, n: Node, top: int, width: nat)
    requires id <= top && 1 <= width && |n.peers| <= width && forall t :: t in n.peers ==> t <= top
    ensures Load(BeginRound(id, n).1, top, width) <= Worth(top - id, width) - 2
  {
    var targets := Higher(id, n.peers);
    if targets != [] {
      assert targets[0] in targets;
      HigherIsPart(id, n.peers);
      forall k | 0 <= k < |targets| ensures id < targets[k] <= top { assert targets[k] in targets; }
      CascadeLoad(id, targets, id, top, width);
      Product(|targets|, width, Worth(top - id - 1, width));
      LoadConcat(Elections(id, targets), [Timer(id)], top, width);
    }
  }

  lemma AnswerDescends(c: Cluster, i: nat, top: int, width: nat)
    requires Enabled(c, Deliver(i)) && c.net[i].Election? && Bounded(c, top, width)
    ensures Load(Apply(c, Deliver(i)).net, top, width) < Load(c.net, top, width)
  {
    var to, rest, answer := c.net[i].to, RemoveAt(c.net, i), [Answer(c.net[i].to, c.net[i].from)];
    LoadRemoveAt(c.net, i, top, width);
    LoadConcat(rest, answer, top, width);
    OpenLoad(to, c.nodes[to], top, width);
    LoadConcat(rest + answer, BeginRound(to, c.nodes[to]).1, top, width);
  }

  lemma StepDescends(c: Cluster, step: Step, top: int, width: nat)
    requires Enabled(c, step) && !step.HeartbeatTimeout? && Bounded(c, top, width)
    ensures Bounded(Apply(c, step), top, width)
    ensures Measure(Apply(c, step), top, width) < Measure(c, top, width)
  {
    match step
    case Crash(s) => assert c.live == (c.live - {s}) + {s};
    case RoundTimeout(i) => LoadRemoveAt(c.net, i, top, width);
    case Lose(i) => LoadRemoveAt(c.net, i, top, width);
    case Deliver(i) =>
      LoadRemoveAt(c.net, i, top, width);
      if c.net[i].Election? { AnswerDescends(c, i, top, width); }
  }

  predicate NoTimeouts(steps: seq<Step>) {
    forall k :: 0 <= k < |steps| ==> !steps[k].HeartbeatTimeout?
  }

  lemma {:induction false} RunDescends(c: Cluster, steps: seq<Step>, top: int, width: nat)
    requires Bounded(c, top, width) && IsRun(c, steps) && NoTimeouts(steps)
    ensures |steps| <= Measure(c, top, width)
    decreases |steps|
  {
    if steps != [] {
      StepDescends(c, steps[0], top, width);
      RunDescends(Apply(c, steps[0]), steps[1..], top, width);
    }
  }

  // ------------------------------------------------------------------ every cluster is bounded

  lemma {:induction false} ListBound(q: seq<int>) returns (top: int)
    ensures forall t :: t in q ==> t <= top
  {
    if q == [] {
      top := 0;
    } else {
      var rest := ListBound(q[1..]);
      top := if q[0] > rest then q[0] else rest;
      assert q == [q[0]] + q[1..];
    }
  }

  /** The bounds of the servers in `some`. */
  lemma {:induction false} BoundsOf(nodes: map<int, Node>, some: set<int>) returns (top: int, width: nat)
    requires some <= nodes.Keys
    ensures width >= 1 && forall s :: s in some ==>
              s <= top && |nodes[s].peers| <= width && forall t :: t in nodes[s].peers ==> t <= top
  {
    top, width := 0, 1;
    if s :| s in some {
      top, width := BoundsOf(nodes, some - {s});
      var own := ListBound(nodes[s].peers);
      top := if own > top then own else top;
      top := if s > top then s else top;
      width := if |nodes[s].peers| > width then |nodes[s].peers| else width;
    }
  }

  /** Termination: from any state, whatever its lists, flags, rounds and messages, the runs
   *  with no new heartbeat timeout have a common bound. */
  lemma CascadeTerminates(c: Cluster) returns (bound: nat)
    ensures forall steps :: IsRun(c, steps) && NoTimeouts(steps) ==> |steps| <= bound
  {
    var top, width := BoundsOf(c.nodes, c.nodes.Keys);
    bound := Measure(c, top, width);
    forall steps | IsRun(c, steps) && NoTimeouts(steps) ensures |steps| <= bound {
      RunDescends(c, steps, top, width);
    }
  }
}
