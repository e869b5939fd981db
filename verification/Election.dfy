/** The bully election of src/server/election.c as a step system.
 *
 *  A server is named by its id.  What travels between servers, and the sleeping
 *  half of a round, are events waiting in `net`; they may be taken in any order.
 *  One election phase is modelled: peer lists are fixed, the old manager is among
 *  the dead servers, and no COORDINATOR message has been handled yet.
 */
module Election {
  import opened Seqs

  datatype Mode = Backup | BackupManager

  /** The election state of one server: `global_server_mode`, `is_election_running`,
   *  `election_answer_received`, `new_leader_decided` and the ids of its replica list. */
  datatype Node = Node(mode: Mode, running: bool, answered: bool, decided: bool, peers: seq<int>)

  /** ELECTION and ANSWER messages, and the timer of a round that is asleep. */
  datatype Event =
    | Election(from: int, to: int)
    | Answer(from: int, to: int)
    | Timer(owner: int)

  /** `ended` is a history variable: the owners of the rounds that have finished, in order. */
  datatype Cluster = Cluster(nodes: map<int, Node>, live: set<int>, net: seq<Event>, ended: seq<int>)

  datatype Step =
    | HeartbeatTimeout(s: int)   // the monitor of server s misses the manager
    | Deliver(i: nat)            // message net[i] reaches its live addressee
    | RoundTimeout(i: nat)       // the sleep of the round with timer net[i] ends
    | Crash(s: int)
    | Lose(i: nat)               // net[i] has a dead endpoint and vanishes

  // ------------------------------------------------------------------ one server

  /** The ids of `peers` above `id`, in list order: the addressees of ELECTION. */
  function Higher(id: int, peers: seq<int>): (r: seq<int>)
    ensures forall t :: t in r <==> t in peers && t > id
  {
    if peers == [] then []
    else if peers[0] > id then [peers[0]] + Higher(id, peers[1..])
    else Higher(id, peers[1..])
  }

  function Elections(id: int, targets: seq<int>): (r: seq<Event>)
    ensures |r| == |targets|
    ensures forall k :: 0 <= k < |r| ==> r[k] == Election(id, targets[k])
  {
    seq(|targets|, k requires 0 <= k < |targets| => Election(id, targets[k]))
  }

  /** `run_election` up to its sleep: win at once, or send ELECTION and go to sleep. */
  function BeginRound(id: int, n: Node): (Node, seq<Event>) {
    var targets := Higher(id, n.peers);
    if targets == [] then
      (n.(mode := BackupManager, running := false, decided := true), [])
    else
      (n.(running := true), Elections(id, targets) + [Timer(id)])
  }

  /** `run_election` after its sleep: the answer flag decides and is cleared. */
  function FinishRound(n: Node): Node {
    if n.answered then n.(answered := false, running := false)
    else n.(mode := BackupManager, decided := true, running := false)
  }

  // ------------------------------------------------------------------ the cluster

  function Endpoints(e: Event): set<int> {
    match e
    case Election(from, to) => {from, to}
    case Answer(from, to) => {from, to}
    case Timer(owner) => {owner}
  }

  /** No message between s and a live higher server is still under way. */
  predicate AnswersHandled(c: Cluster, s: int) {
    forall e :: e in c.net ==>
      && !(e.Election? && e.from == s && e.to > s && e.to in c.live)
      && !(e.Answer? && e.to == s && e.from > s && e.from in c.live)
  }

  /** When a step may be taken.  A monitor opens a round whether or not one is already
   *  running.  The three-second sleep is taken to be long enough: a round ends only
   *  once the answers of the live higher servers have been handled. */
  predicate Enabled(c: Cluster, step: Step) {
    match step
    case HeartbeatTimeout(s) => s in c.live && s in c.nodes && c.nodes[s].mode == Backup
    case Deliver(i) => i < |c.net| && !c.net[i].Timer? && c.net[i].to in c.live && c.net[i].to in c.nodes
    case RoundTimeout(i) =>
      && i < |c.net| && c.net[i].Timer?
      && c.net[i].owner in c.live && c.net[i].owner in c.nodes
      && AnswersHandled(c, c.net[i].owner)
    case Crash(s) => s in c.live
    case Lose(i) => i < |c.net| && !(Endpoints(c.net[i]) <= c.live)
  }

  /** Server s opens a round: its new events join those of `net`. */
  function Open(c: Cluster, s: int, net: seq<Event>): Cluster
    requires s in c.nodes
  {
    var (n, out) := BeginRound(s, c.nodes[s]);
    c.(nodes := c.nodes[s := n], net := net + out, ended := if out == [] then c.ended + [s] else c.ended)
  }

  function Apply(c: Cluster, step: Step): Cluster
    requires Enabled(c, step)
  {
    match step
    case HeartbeatTimeout(s) => Open(c, s, c.net)
    case Deliver(i) =>
      var rest := RemoveAt(c.net, i);
      (match c.net[i]
       case Election(from, to) =>
         var net := rest + [Answer(to, from)];
         if c.nodes[to].running then c.(net := net) else Open(c, to, net)
       case Answer(from, to) =>
         c.(nodes := c.nodes[to := c.nodes[to].(answered := true)], net := rest)
       case Timer(_) => c)
    case RoundTimeout(i) =>
      var s := c.net[i].owner;
      c.(nodes := c.nodes[s := FinishRound(c.nodes[s])], net := RemoveAt(c.net, i), ended := c.ended + [s])
    case Crash(s) => c.(live := c.live - {s})
    case Lose(i) => c.(net := RemoveAt(c.net, i))
  }

  /** The steps can be taken one after the other. */
  predicate IsRun(c: Cluster, steps: seq<Step>)
    decreases |steps|
  {
    steps == [] || (Enabled(c, steps[0]) && IsRun(Apply(c, steps[0]), steps[1..]))
  }

  function Exec(c: Cluster, steps: seq<Step>): Cluster
    requires IsRun(c, steps)
    decreases |steps|
  {
    if steps == [] then c else Exec(Apply(c, steps[0]), steps[1..])
  }

  ghost predicate HasSuperior(c: Cluster, s: int) {
    exists t :: t in c.live && t > s
  }

  /** The step opens a second round beside a running one, below a live server. */
  ghost predicate Overlaps(c: Cluster, step: Step) {
    step.HeartbeatTimeout? && step.s in c.nodes && c.nodes[step.s].running && HasSuperior(c, step.s)
  }

  /** No server below a live one has two rounds at a time. */
  ghost predicate NoOverlapBelow(c: Cluster, steps: seq<Step>)
    requires IsRun(c, steps)
    decreases |steps|
  {
    steps != [] ==> !Overlaps(c, steps[0]) && NoOverlapBelow(Apply(c, steps[0]), steps[1..])
  }

  /** The start of a phase: every live server knows every other live one, nobody has
   *  won, nothing is under way.  Answer flags may be left over from before. */
  ghost predicate PhaseStart(c: Cluster) {
    && Covered(c)
    && (forall s :: s in c.nodes ==> c.nodes[s].mode == Backup && !c.nodes[s].running)
    && c.net == [] && c.ended == []
  }

  ghost predicate Covered(c: Cluster) {
    && c.live <= c.nodes.Keys
    && forall s, t :: s in c.live && t in c.live && s != t ==> t in c.nodes[s].peers
  }

  // ------------------------------------------------------------------ agreement

  /** The manager, if any, is above every live server. */
  ghost predicate ManagersAreHighest(c: Cluster)
    requires c.live <= c.nodes.Keys
  {
    forall s, t :: s in c.live && t in c.live && c.nodes[s].mode == BackupManager ==> t <= s
  }

  /** While s sleeps, each live higher server has yet to get the ELECTION, or its ANSWER
   *  is on the way, or the flag is up. */
  ghost predicate Waiting(c: Cluster, s: int)
    requires s in c.nodes
  {
    forall t :: t in c.live && t > s ==>
      Election(s, t) in c.net || Answer(t, s) in c.net || c.nodes[s].answered
  }

  /** How many rounds of s are asleep. */
  function Timers(net: seq<Event>, s: int): nat {
    if net == [] then 0 else (if net[0] == Timer(s) then 1 else 0) + Timers(net[1..], s)
  }

  /** `is_election_running` counts the sleeping rounds of a server below a live one. */
  ghost predicate TimersMatch(c: Cluster)
    requires c.live <= c.nodes.Keys
  {
    forall s :: s in c.live && HasSuperior(c, s) ==> Timers(c.net, s) == if c.nodes[s].running then 1 else 0
  }

  ghost predicate SleepersWait(c: Cluster)
    requires c.live <= c.nodes.Keys
  {
    forall s :: s in c.live && c.nodes[s].running ==> Waiting(c, s)
  }

  ghost predicate Inv(c: Cluster) {
    Covered(c) && ManagersAreHighest(c) && TimersMatch(c) && SleepersWait(c)
  }

  lemma {:induction false} TimersConcat(a: seq<Event>, b: seq<Event>, s: int)
    ensures Timers(a + b, s) == Timers(a, s) + Timers(b, s)
  {
    if a == [] {
      assert a + b == b;
    } else {
      assert (a + b)[1..] == a[1..] + b;
      TimersConcat(a[1..], b, s);
    }
  }

  lemma TimersRemoveAt(q: seq<Event>, i: nat, s: int)
    requires i < |q|
    ensures Timers(q, s) == Timers(RemoveAt(q, i), s) + if q[i] == Timer(s) then 1 else 0
  {
    assert q == q[..i] + ([q[i]] + q[i + 1..]);
    TimersConcat(q[..i], [q[i]] + q[i + 1..], s);
    TimersConcat([q[i]], q[i + 1..], s);
    TimersConcat(q[..i], q[i + 1..], s);
  }

  lemma {:induction false} ElectionsHaveNoTimer(id: int, targets: seq<int>, s: int)
    ensures Timers(Elections(id, targets), s) == 0
  {
    if targets != [] {
      ElectionsHaveNoTimer(id, targets[1..], s);
      assert Elections(id, targets)[1..] == Elections(id, targets[1..]);
    }
  }

  /** What a server that opens a round sends, and when it wins at once. */
  lemma NewEvents(id: int, n: Node)
    ensures var out := BeginRound(id, n).1;
            && (out == [] <==> forall t :: t in n.peers ==> t <= id)
            && (out != [] ==> forall t :: t in n.peers && t > id ==> Election(id, t) in out)
            && (forall e :: e in out ==>
                  e == Timer(id) || (e.Election? && e.from == id && e.to > id && e.to in n.peers))
    ensures forall s :: Timers(BeginRound(id, n).1, s) == if BeginRound(id, n).1 != [] && s == id then 1 else 0
  {
    var targets := Higher(id, n.peers);
    var es := Elections(id, targets);
    forall t | t in targets ensures Election(id, t) in es {
      var k :| 0 <= k < |targets| && targets[k] == t;
      assert es[k] == Election(id, t);
    }
    forall s ensures Timers(es + [Timer(id)], s) == if s == id then 1 else 0 {
      ElectionsHaveNoTimer(id, targets, s);
      TimersConcat(es, [Timer(id)], s);
    }
    forall e | e in es ensures e.Election? && e.from == id && e.to in targets {
      var k :| 0 <= k < |es| && es[k] == e;
    }
    if targets != [] {
      assert targets[0] in targets;
    }
  }

  lemma OpenKeepsInv(c: Cluster, s: int, net: seq<Event>)
    requires Inv(c.(net := net)) && s in c.live
    requires c.nodes[s].running ==> !HasSuperior(c, s)
    ensures Inv(Open(c, s, net))
  {
    NewEvents(s, c.nodes[s]);
    var out := BeginRound(s, c.nodes[s]).1;
    var c' := Open(c, s, net);
    forall u | u in c'.live && HasSuperior(c', u)
      ensures Timers(c'.net, u) == if c'.nodes[u].running then 1 else 0
    {
      TimersConcat(net, out, u);
    }
    forall u | u in c'.live && c'.nodes[u].running ensures Waiting(c', u) {
      if u != s { assert Waiting(c.(net := net), u); }
    }
  }

  lemma FinishKeepsInv(c: Cluster, i: nat)
    requires Inv(c) && Enabled(c, RoundTimeout(i))
    ensures Inv(Apply(c, RoundTimeout(i)))
  {
    var s := c.net[i].owner;
    var c' := Apply(c, RoundTimeout(i));
    RemoveAtMembers(c.net, i);
    forall u | u in c'.live && HasSuperior(c', u)
      ensures Timers(c'.net, u) == if c'.nodes[u].running then 1 else 0
    {
      TimersRemoveAt(c.net, i, u);
    }
    TimersRemoveAt(c.net, i, s);
    assert Waiting(c, s);
    assert c.nodes[s].answered || forall t :: t in c.live ==> t <= s;
    forall u | u in c'.live && c'.nodes[u].running ensures Waiting(c', u) {
      assert Waiting(c, u);
    }
  }

  /** Taking the ELECTION net[i] and answering it, before the receiver opens a round. */
  lemma AnswerKeepsInv(c: Cluster, i: nat)
    requires Inv(c) && i < |c.net| && c.net[i].Election? && c.net[i].to in c.live
    ensures Inv(c.(net := RemoveAt(c.net, i) + [Answer(c.net[i].to, c.net[i].from)]))
  {
    var answer := Answer(c.net[i].to, c.net[i].from);
    var c' := c.(net := RemoveAt(c.net, i) + [answer]);
    RemoveAtMembers(c.net, i);
    assert answer in c'.net;
    forall u | u in c'.live && HasSuperior(c', u)
      ensures Timers(c'.net, u) == if c'.nodes[u].running then 1 else 0
    {
      TimersRemoveAt(c.net, i, u);
      TimersConcat(RemoveAt(c.net, i), [answer], u);
    }
    forall u | u in c'.live && c'.nodes[u].running ensures Waiting(c', u) {
      assert Waiting(c, u);
    }
  }

  lemma OtherKeepsInv(c: Cluster, step: Step)
    requires Inv(c) && Enabled(c, step)
    requires step.Crash? || step.Lose? || (step.Deliver? && c.net[step.i].Answer?)
    ensures Inv(Apply(c, step))
  {
    var c' := Apply(c, step);
    if !step.Crash? {
      RemoveAtMembers(c.net, step.i);
    }
    forall u | u in c'.live && HasSuperior(c', u)
      ensures Timers(c'.net, u) == if c'.nodes[u].running then 1 else 0
    {
      if !step.Crash? { TimersRemoveAt(c.net, step.i, u); }
    }
    forall u | u in c'.live && c'.nodes[u].running ensures Waiting(c', u) {
      assert Waiting(c, u);
    }
  }

  lemma StepKeepsInv(c: Cluster, step: Step)
    requires Inv(c) && Enabled(c, step)
    requires !Overlaps(c, step)
    ensures Inv(Apply(c, step))
  {
    match step
    case HeartbeatTimeout(s) => OpenKeepsInv(c, s, c.net);
    case Deliver(i) =>
      if c.net[i].Election? {
        AnswerKeepsInv(c, i);
        var to := c.net[i].to;
        if !c.nodes[to].running {
          OpenKeepsInv(c, to, RemoveAt(c.net, i) + [Answer(to, c.net[i].from)]);
        }
      } else {
        OtherKeepsInv(c, step);
      }
    case RoundTimeout(i) => FinishKeepsInv(c, i);
    case Crash(_) => OtherKeepsInv(c, step);
    case Lose(_) => OtherKeepsInv(c, step);
  }

  /** Which step can put a manager below a live server: only the end of a sleep that reads
   *  a clear flag while a higher server lives. */
  lemma AgreementBrokenExactlyBy(c: Cluster, step: Step)
    requires Covered(c) && ManagersAreHighest(c) && Enabled(c, step)
    ensures ManagersAreHighest(Apply(c, step)) <==>
            (step.RoundTimeout? ==>
              var s := c.net[step.i].owner;
              c.nodes[s].answered || forall t :: t in c.live ==> t <= s)
  {
    if step.HeartbeatTimeout? {
      NewEvents(step.s, c.nodes[step.s]);
    } else if step.Deliver? {
      NewEvents(c.net[step.i].to, c.nodes[c.net[step.i].to]);
    }
  }

  lemma {:induction false} RunKeepsInv(c: Cluster, steps: seq<Step>)
    requires Inv(c) && IsRun(c, steps) && NoOverlapBelow(c, steps)
    ensures Inv(Exec(c, steps))
    decreases |steps|
  {
    if steps != [] {
      StepKeepsInv(c, steps[0]);
      RunKeepsInv(Apply(c, steps[0]), steps[1..]);
    }
  }

  /** Agreement: however rounds, deliveries, crashes and losses interleave, a live manager
   *  has the highest id of all live servers, so there is at most one. */
  lemma Agreement(c: Cluster, steps: seq<Step>, s: int, t: int)
    requires PhaseStart(c) && IsRun(c, steps) && NoOverlapBelow(c, steps)
    requires s in Exec(c, steps).live && t in Exec(c, steps).live
    requires s in Exec(c, steps).nodes && Exec(c, steps).nodes[s].mode == BackupManager
    ensures t <= s
    ensures t in Exec(c, steps).nodes && Exec(c, steps).nodes[t].mode == BackupManager ==> s == t
  {
    RunKeepsInv(c, steps);
  }
}
