/** One server's part of the election (src/server/election.c), working on its flags and on
 *  its linked list of replicas.  Each method is one half of a step of module Election. */
module ElectionServer {
  import opened Seqs
  import opened ReplicaList
  import opened Election
  import opened ElectionProgress

  function Ids(q: seq<Replica>): (r: seq<int>)
    ensures |r| == |q| && forall i :: 0 <= i < |r| ==> r[i] == q[i].id
  {
    seq(|q|, i requires 0 <= i < |q| => q[i].id)
  }

  lemma {:induction false} HigherSnoc(id: int, q: seq<int>, t: int)
    ensures Higher(id, q + [t]) == Higher(id, q) + if t > id then [t] else []
  {
    if q == [] {
      assert [t][1..] == [];
    } else {
      assert (q + [t])[1..] == q[1..] + [t];
      HigherSnoc(id, q[1..], t);
    }
  }

  /** What handling COORDINATOR from `leader` leaves behind. */
  function AfterCoordinator(n: Node, leader: int): Node {
    n.(answered := true, decided := true, peers := WithoutFirst(n.peers, leader))
  }

  function WithoutFirst(q: seq<int>, id: int): seq<int> {
    if q == [] then [] else if q[0] == id then q[1..] else [q[0]] + WithoutFirst(q[1..], id)
  }

  lemma {:induction false} IdsWithoutId(q: seq<Replica>, id: int)
    ensures Ids(WithoutId(q, id)) == WithoutFirst(Ids(q), id)
  {
    if q != [] {
      IdsWithoutId(q[1..], id);
      assert Ids(q)[1..] == Ids(q[1..]);
    }
  }

  class ElectionServer {
    const id: int
    const replicas: ReplicaList
    var mode: Mode
    var isElectionRunning: bool
    var electionAnswerReceived: bool
    var newLeaderDecided: bool

    ghost predicate Valid()
      reads this, replicas, replicas.Repr
    {
      replicas.Valid()
    }

    ghost function Abs(): Node
      reads this, replicas
    {
      Node(mode, isElectionRunning, electionAnswerReceived, newLeaderDecided, Ids(replicas.Contents()))
    }

    constructor (id: int, replicas: ReplicaList)
      requires replicas.Valid()
      ensures Valid() && this.id == id && this.replicas == replicas
      ensures Abs() == Node(Backup, false, false, false, Ids(replicas.Contents()))
    {
      this.id, this.replicas, mode := id, replicas, Backup;
      isElectionRunning, electionAnswerReceived, newLeaderDecided := false, false, false;
    }

    /** `send_election_msg`: walk the list and send ELECTION to every higher id. */
    method SendElectionMsg() returns (sentToHigherId: bool, sent: seq<Event>)
      requires Valid()
      ensures sent == Elections(id, Higher(id, Abs().peers))
      ensures sentToHigherId <==> sent != []
    {
      sent, sentToHigherId := [], false;
      var current := replicas.head;
      ghost var i, ids := 0, Ids(replicas.Contents());
      while current != null
        invariant 0 <= i <= |replicas.spine| == |ids| && current == At(replicas.spine, i)
        invariant sent == Elections(id, Higher(id, ids[..i]))
        invariant sentToHigherId <==> sent != []
        decreases |replicas.spine| - i
      {
        assert ids[..i + 1] == ids[..i] + [ids[i]];
        HigherSnoc(id, ids[..i], ids[i]);
        if current.replica.id > id {
          sent := sent + [Election(id, current.replica.id)];
          sentToHigherId := true;
        }
        current := current.next;
        i := i + 1;
      }
      assert ids[..i] == ids;
    }

    /** Opening a round: the caller raises `is_election_running` and starts `run_election`,
     *  which wins at once when nobody above is known. */
    method StartElection() returns (sent: seq<Event>)
      requires Valid()
      modifies this
      ensures Valid() && (Abs(), sent) == BeginRound(id, old(Abs()))
      ensures var alone := forall t :: t in Abs().peers ==> t <= id;
              if alone then mode == BackupManager && newLeaderDecided && !isElectionRunning && sent == []
              else mode == old(mode) && newLeaderDecided == old(newLeaderDecided) && isElectionRunning && sent != []
      ensures electionAnswerReceived == old(electionAnswerReceived)
    {
      NewEvents(id, Abs());
      isElectionRunning := true;
      var sentToHigherId;
      sentToHigherId, sent := SendElectionMsg();
      if !sentToHigherId {
        mode := BackupManager;
        isElectionRunning := false;
        newLeaderDecided := true;
        return;
      }
      sent := sent + [Timer(id)];
    }

    /** `run_election` after its sleep. */
    method FinishElection()
      requires Valid()
      modifies this
      ensures Valid() && Abs() == FinishRound(old(Abs()))
      ensures !isElectionRunning && !electionAnswerReceived
      ensures mode == if old(electionAnswerReceived) then old(mode) else BackupManager
      ensures newLeaderDecided <==> old(newLeaderDecided) || !old(electionAnswerReceived)
    {
      var status := electionAnswerReceived;
      electionAnswerReceived := false;
      if !status {
        mode := BackupManager;
        newLeaderDecided := true;
      }
      isElectionRunning := false;
    }

    /** The listener takes an ELECTION: answer it, and open a round unless one is running. */
    method ReceiveElection(sender: int) returns (sent: seq<Event>)
      requires Valid()
      modifies this
      ensures Valid()
      ensures old(Abs()).running ==> Abs() == old(Abs()) && sent == [Answer(id, sender)]
      ensures !old(Abs()).running ==>
        (Abs(), sent) == (BeginRound(id, old(Abs())).0, [Answer(id, sender)] + BeginRound(id, old(Abs())).1)
    {
      sent := [Answer(id, sender)];
      if !isElectionRunning {
        var round := StartElection();
        sent := sent + round;
      }
    }

    method ReceiveAnswer()
      requires Valid()
      modifies this
      ensures Valid() && Abs() == old(Abs()).(answered := true)
      ensures electionAnswerReceived
    {
      electionAnswerReceived := true;
    }

    /** The listener takes a COORDINATOR: the new leader leaves the list.  The answer flag
     *  it raises is cleared by no one before the next round. */
    method ReceiveCoordinator(leader: int)
      requires Valid()
      modifies this, replicas, replicas.Repr
      ensures Valid() && Abs() == AfterCoordinator(old(Abs()), leader)
      ensures newLeaderDecided && electionAnswerReceived
      ensures mode == old(mode) && isElectionRunning == old(isElectionRunning)
    {
      electionAnswerReceived := true;
      IdsWithoutId(replicas.Contents(), leader);
      var _ := replicas.RemoveReplicaById(leader);
      newLeaderDecided := true;
    }
  }

  // ------------------------------------------------------------------ the next phase

  lemma {:induction false} WithoutFirstMembers(q: seq<int>, id: int)
    ensures forall t :: t in q && t != id ==> t in WithoutFirst(q, id)
    ensures forall t :: t in WithoutFirst(q, id) ==> t in q
    ensures Distinct(q) ==> id !in WithoutFirst(q, id)
  {
    if q != [] {
      WithoutFirstMembers(q[1..], id);
      assert q == [q[0]] + q[1..];
      assert Distinct(q) ==> q[0] !in q[1..];
    }
  }

  /** The followers once each has handled the COORDINATOR of h and h has died. */
  function Followers(d: Cluster, h: int): Cluster {
    Cluster(map s | s in d.live && s in d.nodes && s != h :: AfterCoordinator(d.nodes[s], h), d.live - {h}, [], [])
  }

  ghost predicate ManagersDecided(c: Cluster) {
    forall s :: s in c.nodes && c.nodes[s].mode == BackupManager ==> c.nodes[s].decided
  }

  lemma StepDecides(c: Cluster, step: Step)
    requires ManagersDecided(c) && Enabled(c, step)
    ensures ManagersDecided(Apply(c, step))
  {
  }

  /** Whoever makes itself manager in a run has decided the election for itself, so that its
   *  role loop ends (src/server/serverRoles.c:526-530). */
  lemma {:induction false} ManagersAreDecided(c: Cluster, steps: seq<Step>)
    requires ManagersDecided(c) && IsRun(c, steps)
    ensures ManagersDecided(Exec(c, steps))
    decreases |steps|
  {
    if steps != [] {
      StepDecides(c, steps[0]);
      ManagersAreDecided(Apply(c, steps[0]), steps[1..]);
    }
  }

  /** Failover after failover: when an election has ended with manager h and nothing is under
   *  way, and the followers have handled its COORDINATOR, the death of h starts a phase like
   *  the one before, so that agreement and progress hold again. */
  lemma NextPhase(c: Cluster, steps: seq<Step>, h: int)
    requires PhaseStart(c) && IsRun(c, steps) && NoOverlapBelow(c, steps)
    requires var d := Exec(c, steps); h in d.live && h in d.nodes && d.nodes[h].mode == BackupManager && d.net == []
    ensures PhaseStart(Followers(Exec(c, steps), h))
    ensures forall s :: s in Followers(Exec(c, steps), h).nodes ==> Followers(Exec(c, steps), h).nodes[s].decided
    ensures Exec(c, steps).nodes[h].decided
  {
    ManagersAreDecided(c, steps);
    var d := Exec(c, steps);
    var next := Followers(d, h);
    RunKeepsInv(c, steps);
    forall s | s in next.nodes ensures next.nodes[s].mode == Backup && !next.nodes[s].running {
      Agreement(c, steps, h, s);
      assert Timers(d.net, s) == 0;
    }
    forall s, t | s in next.live && t in next.live && s != t ensures t in next.nodes[s].peers {
      WithoutFirstMembers(d.nodes[s].peers, h);
    }
  }

  /** In that phase every follower's answer flag is up, for the COORDINATOR raised it; so one
   *  meets a leftover flag if and only if its list still names someone above it, and when the
   *  lists named only live servers the highest follower does not. */
  lemma NextPhaseFlags(d: Cluster, h: int, s: int)
    requires s in d.live && s in d.nodes && s != h && Distinct(d.nodes[s].peers)
    ensures StaleFlag(Followers(d, h), s) <==> exists t :: t in d.nodes[s].peers && t > s && t != h
    ensures Highest(Followers(d, h), s) && (forall t :: t in d.nodes[s].peers ==> t in d.live) ==>
              !StaleFlag(Followers(d, h), s)
  {
    WithoutFirstMembers(d.nodes[s].peers, h);
    var higher := Higher(s, WithoutFirst(d.nodes[s].peers, h));
    if higher != [] {
      assert higher[0] in higher && higher[0] in d.nodes[s].peers;
      assert higher[0] != h && (higher[0] in d.live ==> higher[0] in Followers(d, h).live);
    } else {
      forall t | t in d.nodes[s].peers && t > s ensures t == h {
        assert t != h ==> t in higher;
      }
    }
  }
}
