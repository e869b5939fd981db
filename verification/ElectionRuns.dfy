/** Runs in which the election goes wrong. */
module ElectionRuns {
  import opened Seqs
  import opened Election
  import opened ElectionProgress
  import opened ElectionTermination

  ghost predicate NoOverlap(c: Cluster, step: Step) {
    step.HeartbeatTimeout? ==> step.s in c.nodes && !c.nodes[step.s].running
  }

  /** No server whatever has two rounds at a time. */
  ghost predicate OneRoundAtATime(c: Cluster, steps: seq<Step>)
    requires IsRun(c, steps)
    decreases |steps|
  {
    steps != [] ==> NoOverlap(c, steps[0]) && OneRoundAtATime(Apply(c, steps[0]), steps[1..])
  }

  lemma {:induction false} TraceIsRun(cs: seq<Cluster>, ss: seq<Step>)
    requires Trace(cs, ss)
    ensures IsRun(cs[0], ss) && Exec(cs[0], ss) == cs[|ss|]
    ensures (forall i :: 0 <= i < |ss| ==> NoOverlap(cs[i], ss[i])) ==> OneRoundAtATime(cs[0], ss)
    decreases |ss|
  {
    if ss != [] {
      assert Moves(cs[0], ss[0], cs[1]);
      forall i | 0 <= i < |ss| - 1 ensures Moves(cs[1..][i], ss[1..][i], cs[1..][i + 1]) {
        assert Moves(cs[i + 1], ss[i + 1], cs[i + 2]);
      }
      TraceIsRun(cs[1..], ss[1..]);
      if forall i :: 0 <= i < |ss| ==> NoOverlap(cs[i], ss[i]) {
        assert NoOverlap(cs[0], ss[0]);
        forall i | 0 <= i < |ss| - 1 ensures NoOverlap(cs[1..][i], ss[1..][i]) {
          assert NoOverlap(cs[i + 1], ss[i + 1]);
        }
      }
    }
  }

  lemma TraceSnoc(cs: seq<Cluster>, ss: seq<Step>, step: Step, d: Cluster)
    requires Trace(cs, ss) && Moves(cs[|ss|], step, d)
    ensures Trace(cs + [d], ss + [step])
  {
  }

  // ------------------------------------------------------------------ overlapping rounds

  predicate TwoManagers(c: Cluster) {
    && {1, 2} <= c.live && {1, 2} <= c.nodes.Keys
    && c.nodes[1].mode == BackupManager && c.nodes[2].mode == BackupManager
  }

  /** Servers 0, 1 and 2 are live and know each other. */
  function Three(running0: bool, n1: Node, n2: Node, net: seq<Event>, ended: seq<int>): Cluster {
    Cluster(map[0 := Node(Backup, running0, false, false, [1, 2]), 1 := n1, 2 := n2], {0, 1, 2}, net, ended)
  }

  /** Server 0 sleeps, and its ELECTION to server 2 is never taken. */
  function Asked(n1: Node, n2: Node, net: seq<Event>, ended: seq<int>): Cluster {
    Three(true, n1, n2, [Election(0, 2), Timer(0), Answer(1, 0)] + net, ended)
  }

  const IDLE_1 := Node(Backup, false, false, false, [0, 2])
  const IDLE_2 := Node(Backup, false, false, false, [0, 1])
  const ASLEEP_1 := IDLE_1.(running := true)
  const ANSWERED_1 := ASLEEP_1.(answered := true)
  const WINNER_1 := IDLE_1.(mode := BackupManager, decided := true)
  const WINNER_2 := IDLE_2.(mode := BackupManager, decided := true)

  const C0 := Three(false, IDLE_1, IDLE_2, [], [])
  const C1 := Three(true, IDLE_1, IDLE_2, [Election(0, 1), Election(0, 2), Timer(0)], [])
  const C2 := Asked(ASLEEP_1, IDLE_2, [Election(1, 2), Timer(1)], [])
  const C3 := Asked(ASLEEP_1, IDLE_2, [Election(1, 2), Timer(1), Election(1, 2), Timer(1)], [])
  const C4 := Asked(ASLEEP_1, WINNER_2, [Timer(1), Election(1, 2), Timer(1), Answer(2, 1)], [2])
  const C5 := Asked(ASLEEP_1, WINNER_2, [Timer(1), Timer(1), Answer(2, 1), Answer(2, 1)], [2, 2])
  const C6 := Asked(ANSWERED_1, WINNER_2, [Timer(1), Timer(1), Answer(2, 1)], [2, 2])
  const C7 := Asked(ANSWERED_1, WINNER_2, [Timer(1), Timer(1)], [2, 2])
  const C8 := Asked(IDLE_1, WINNER_2, [Timer(1)], [2, 2, 1])
  const C9 := Asked(WINNER_1, WINNER_2, [], [2, 2, 1, 1])

  lemma HigherOfThree()
    ensures Higher(0, [1, 2]) == [1, 2] && Higher(1, [0, 2]) == [2] && Higher(2, [0, 1]) == []
    ensures Elections(0, [1, 2]) == [Election(0, 1), Election(0, 2)] && Elections(1, [2]) == [Election(1, 2)]
  {
    assert [1, 2][1..] == [2] && [0, 2][1..] == [2] && [0, 1][1..] == [1];
    assert Higher(0, [2]) == [2] && Higher(1, [2]) == [2] && Higher(2, [1]) == [];
  }

  lemma ServerZeroStarts()
    ensures Moves(C0, HeartbeatTimeout(0), C1)
  {
    HigherOfThree();
  }

  lemma ServerOneIsAsked()
    ensures Moves(C1, Deliver(0), C2)
  {
    HigherOfThree();
  }

  /** The monitor of server 1 starts a second round beside the running one. */
  lemma MonitorStartsAnother()
    ensures Moves(C2, HeartbeatTimeout(1), C3)
  {
    HigherOfThree();
  }

  lemma ServerTwoAnswersFirst()
    ensures Moves(C3, Deliver(3), C4)
  {
    HigherOfThree();
  }

  lemma ServerTwoAnswersSecond()
    ensures Moves(C4, Deliver(4), C5)
  {
    HigherOfThree();
  }

  lemma AnswersArrive()
    ensures Moves(C5, Deliver(5), C6) && Moves(C6, Deliver(5), C7)
  {
  }

  /** The first sleep reads the flag and clears it; the second finds it clear. */
  lemma BothSleepsEnd()
    ensures Moves(C7, RoundTimeout(3), C8) && Moves(C8, RoundTimeout(3), C9)
  {
  }

  lemma TraceThree(cs: seq<Cluster>, ss: seq<Step>, s1: Step, d1: Cluster, s2: Step, d2: Cluster, s3: Step, d3: Cluster)
    returns (cs': seq<Cluster>, ss': seq<Step>)
    requires Trace(cs, ss) && Moves(cs[|ss|], s1, d1) && Moves(d1, s2, d2) && Moves(d2, s3, d3)
    ensures Trace(cs', ss') && cs'[0] == cs[0] && cs'[|ss'|] == d3
  {
    TraceSnoc(cs, ss, s1, d1);
    cs', ss' := cs + [d1], ss + [s1];
    TraceSnoc(cs', ss', s2, d2);
    cs', ss' := cs' + [d2], ss' + [s2];
    TraceSnoc(cs', ss', s3, d3);
    cs', ss' := cs' + [d3], ss' + [s3];
  }

  lemma OverlapTrace() returns (cs: seq<Cluster>, ss: seq<Step>)
    ensures Trace(cs, ss) && cs[0] == C0 && cs[|ss|] == C9
  {
    cs, ss := [C0], [];
    ServerZeroStarts();
    ServerOneIsAsked();
    MonitorStartsAnother();
    cs, ss := TraceThree(cs, ss, HeartbeatTimeout(0), C1, Deliver(0), C2, HeartbeatTimeout(1), C3);
    ServerTwoAnswersFirst();
    ServerTwoAnswersSecond();
    AnswersArrive();
    BothSleepsEnd();
    cs, ss := TraceThree(cs, ss, Deliver(3), C4, Deliver(4), C5, Deliver(5), C6);
    cs, ss := TraceThree(cs, ss, Deliver(5), C7, RoundTimeout(3), C8, RoundTimeout(3), C9);
  }

  /** The monitor as written starts a second round beside a running one.  The first round
   *  to end clears the flag both share, so the second one wins below a live manager. */
  lemma OverlappingRoundsBreakAgreement() returns (c: Cluster, steps: seq<Step>)
    ensures PhaseStart(c) && IsRun(c, steps) && TwoManagers(Exec(c, steps))
  {
    var cs;
    cs, steps := OverlapTrace();
    TraceIsRun(cs, steps);
    c := C0;
  }

  // ------------------------------------------------------------------ every second round

  /** Delivering what s and its live superiors have to say to each other keeps its sleeps. */
  lemma DeliverKeepsTimers(c: Cluster, i: nat, s: int)
    requires Enabled(c, Deliver(i))
    ensures Timers(Apply(c, Deliver(i)).net, s) >= Timers(c.net, s)
    ensures Apply(c, Deliver(i)).live == c.live && Apply(c, Deliver(i)).nodes.Keys == c.nodes.Keys
  {
    TimersRemoveAt(c.net, i, s);
    if c.net[i].Election? {
      var rest, to := RemoveAt(c.net, i), c.net[i].to;
      TimersConcat(rest, [Answer(to, c.net[i].from)], s);
      TimersConcat(rest + [Answer(to, c.net[i].from)], BeginRound(to, c.nodes[to]).1, s);
    }
  }

  lemma {:induction false} AnswersCanBeHandled(c: Cluster, s: int, top: int, width: nat) returns (steps: seq<Step>)
    requires Bounded(c, top, width) && c.live <= c.nodes.Keys && s in c.live
    ensures IsRun(c, steps) && NoTimeouts(steps)
    ensures var d := Exec(c, steps); AnswersHandled(d, s) && d.live == c.live && d.nodes.Keys == c.nodes.Keys
    ensures Timers(Exec(c, steps).net, s) >= Timers(c.net, s)
    decreases Measure(c, top, width)
  {
    steps := [];
    if !AnswersHandled(c, s) {
      var e :| e in c.net && ((e.Election? && e.from == s && e.to > s && e.to in c.live)
                              || (e.Answer? && e.to == s && e.from > s && e.from in c.live));
      var i: nat :| i < |c.net| && c.net[i] == e;
      StepDescends(c, Deliver(i), top, width);
      DeliverKeepsTimers(c, i, s);
      var rest := AnswersCanBeHandled(Apply(c, Deliver(i)), s, top, width);
      steps := [Deliver(i)] + rest;
      assert steps[1..] == rest;
    }
  }

  /** One sleep of s ends; the flag is down afterwards. */
  lemma OneSleepEnds(c: Cluster, s: int) returns (i: nat)
    requires s in c.live && s in c.nodes && AnswersHandled(c, s) && Timers(c.net, s) >= 1
    ensures Enabled(c, RoundTimeout(i))
    ensures var d := Apply(c, RoundTimeout(i));
            && s in d.nodes && !d.nodes[s].answered && d.live == c.live && AnswersHandled(d, s)
            && Timers(d.net, s) == Timers(c.net, s) - 1
            && (!c.nodes[s].answered ==> d.nodes[s].mode == BackupManager)
  {
    TimerIsPending(c.net, s);
    i :| i < |c.net| && c.net[i] == Timer(s);
    TimersRemoveAt(c.net, i, s);
    RemoveAtMembers(c.net, i);
  }

  lemma BothEnd(c: Cluster, s: int) returns (steps: seq<Step>)
    requires s in c.live && s in c.nodes && AnswersHandled(c, s) && Timers(c.net, s) >= 2
    ensures IsRun(c, steps) && NoTimeouts(steps)
    ensures var d := Exec(c, steps); d.live == c.live && s in d.nodes && d.nodes[s].mode == BackupManager
  {
    var i := OneSleepEnds(c, s);
    var next := Apply(c, RoundTimeout(i));
    var j := OneSleepEnds(next, s);
    steps := [RoundTimeout(i), RoundTimeout(j)];
    assert steps[1..] == [RoundTimeout(j)] && steps[1..][1..] == [];
    assert IsRun(next, [RoundTimeout(j)]) && Exec(next, [RoundTimeout(j)]) == Apply(next, RoundTimeout(j));
  }

  lemma {:induction false} RunConcat(c: Cluster, a: seq<Step>, b: seq<Step>)
    requires IsRun(c, a) && IsRun(Exec(c, a), b)
    ensures IsRun(c, a + b) && Exec(c, a + b) == Exec(Exec(c, a), b)
    decreases |a|
  {
    if a == [] {
      assert a + b == b;
    } else {
      assert (a + b)[1..] == a[1..] + b;
      RunConcat(Apply(c, a[0]), a[1..], b);
    }
  }

  /** Two sleeping rounds of one server are always one too many: from any state in which a
   *  live server with a live superior has two, the cluster can go on to make it a manager
   *  below that superior. */
  lemma SecondRoundBreaksAgreement(c: Cluster, s: int, t: int) returns (steps: seq<Step>)
    requires c.live <= c.nodes.Keys && s in c.live && t in c.live && s < t && Timers(c.net, s) >= 2
    ensures IsRun(c, steps) && NoTimeouts(steps)
    ensures var d := Exec(c, steps);
            s in d.live && t in d.live && s in d.nodes && d.nodes[s].mode == BackupManager
  {
    var top, width := BoundsOf(c.nodes, c.nodes.Keys);
    var first := AnswersCanBeHandled(c, s, top, width);
    var second := BothEnd(Exec(c, first), s);
    RunConcat(c, first, second);
    steps := first + second;
  }

  lemma {:induction false} NoTimeoutNoOverlap(c: Cluster, steps: seq<Step>)
    requires IsRun(c, steps) && NoTimeouts(steps)
    ensures NoOverlapBelow(c, steps)
    decreases |steps|
  {
    if steps != [] { NoTimeoutNoOverlap(Apply(c, steps[0]), steps[1..]); }
  }

  ghost predicate Agreed(c: Cluster) {
    c.live <= c.nodes.Keys && ManagersAreHighest(c)
  }

  /** Without another overlap, the managers stay above all live servers whatever happens. */
  ghost predicate StaysAgreed(c: Cluster) {
    forall steps :: IsRun(c, steps) && NoOverlapBelow(c, steps) ==> Agreed(Exec(c, steps))
  }

  /** A round opened by the monitor is safe if and only if it is the only one of its server, or
   *  no live server is above it. */
  lemma SafeIffNoOverlap(c: Cluster, s: int)
    requires Inv(c) && Enabled(c, HeartbeatTimeout(s))
    ensures StaysAgreed(Apply(c, HeartbeatTimeout(s))) <==> !c.nodes[s].running || !HasSuperior(c, s)
  {
    var d := Apply(c, HeartbeatTimeout(s));
    if Overlaps(c, HeartbeatTimeout(s)) {
      var t :| t in c.live && t > s;
      NewEvents(s, c.nodes[s]);
      TimersConcat(c.net, BeginRound(s, c.nodes[s]).1, s);
      var steps := SecondRoundBreaksAgreement(d, s, t);
      NoTimeoutNoOverlap(d, steps);
      assert !Agreed(Exec(d, steps));
    } else {
      StepKeepsInv(c, HeartbeatTimeout(s));
      forall steps | IsRun(d, steps) && NoOverlapBelow(d, steps) ensures Agreed(Exec(d, steps)) {
        RunKeepsInv(d, steps);
      }
    }
  }

  // ------------------------------------------------------------------ flags and late answers

  /** All is over, and server 1, the highest live one, has had a round and is no manager. */
  ghost predicate LostRound(d: Cluster) {
    1 in d.nodes && Highest(d, 1) && Opened(d, 1) && Drained(d) && d.nodes[1].mode == Backup
  }

  /** Server 1 on its own, with a dead server 2 in its list. */
  function Lone(n: Node, net: seq<Event>, ended: seq<int>): Cluster {
    Cluster(map[1 := n], {1}, net, ended)
  }

  lemma LoneStarts(n: Node)
    requires n.mode == Backup && n.peers == [2]
    ensures Moves(Lone(n, [], []), HeartbeatTimeout(1), Lone(n.(running := true), [Election(1, 2), Timer(1)], []))
  {
    assert Higher(1, [2]) == [2];
    assert Elections(1, [2]) == [Election(1, 2)];
  }

  lemma LoneLoses(n: Node)
    ensures Moves(Lone(n, [Election(1, 2), Timer(1)], []), Lose(0), Lone(n, [Timer(1)], []))
  {
    assert 2 in Endpoints(Election(1, 2));
  }

  lemma LoneWakes(n: Node)
    requires n.answered
    ensures Moves(Lone(n, [Timer(1)], []), RoundTimeout(0), Lone(n.(answered := false, running := false), [], [1]))
  {
  }

  lemma StaleTrace() returns (cs: seq<Cluster>, ss: seq<Step>)
    ensures Trace(cs, ss) && PhaseStart(cs[0]) && Highest(cs[0], 1)
    ensures forall i :: 0 <= i < |ss| ==> NoOverlap(cs[i], ss[i])
    ensures LostRound(cs[|ss|])
  {
    var n := Node(Backup, false, true, false, [2]);
    LoneStarts(n);
    LoneLoses(n.(running := true));
    LoneWakes(n.(running := true));
    cs := [Lone(n, [], []),
           Lone(n.(running := true), [Election(1, 2), Timer(1)], []),
           Lone(n.(running := true), [Timer(1)], []),
           Lone(n.(running := true, answered := false).(running := false), [], [1])];
    ss := [HeartbeatTimeout(1), Lose(0), RoundTimeout(0)];
  }

  /** A flag left over from an earlier phase makes the only live server lose to nobody. */
  lemma StaleFlagLosesARound() returns (c: Cluster, steps: seq<Step>)
    ensures PhaseStart(c) && Highest(c, 1) && IsRun(c, steps) && OneRoundAtATime(c, steps)
    ensures LostRound(Exec(c, steps))
  {
    var cs;
    cs, steps := StaleTrace();
    TraceIsRun(cs, steps);
    c := cs[0];
  }

  /** Servers 1 and 2 know each other and a dead server 3. */
  function Two(n1: Node, n2: Node, live: set<int>, net: seq<Event>, ended: seq<int>): Cluster {
    Cluster(map[1 := n1, 2 := n2], live, net, ended)
  }

  const LOW := Node(Backup, false, false, false, [2, 3])
  const HIGH := Node(Backup, false, false, false, [1, 3])
  const LOW_ASLEEP := LOW.(running := true)
  const HIGH_ASLEEP := HIGH.(running := true)

  const D0 := Two(LOW, HIGH, {1, 2}, [], [])
  const D1 := Two(LOW_ASLEEP, HIGH, {1, 2}, [Election(1, 2), Election(1, 3), Timer(1)], [])
  const D2 := Two(LOW_ASLEEP, HIGH_ASLEEP, {1, 2},
                  [Election(1, 3), Timer(1), Answer(2, 1), Election(2, 3), Timer(2)], [])
  const D3 := D2.(live := {1})
  const D4 := Two(LOW_ASLEEP.(answered := true), HIGH_ASLEEP, {1},
                  [Election(1, 3), Timer(1), Election(2, 3), Timer(2)], [])
  const D5 := Two(LOW, HIGH_ASLEEP, {1}, [Election(1, 3), Election(2, 3), Timer(2)], [1])

  lemma HigherOfTwo()
    ensures Higher(1, [2, 3]) == [2, 3] && Higher(2, [1, 3]) == [3]
    ensures Elections(1, [2, 3]) == [Election(1, 2), Election(1, 3)] && Elections(2, [3]) == [Election(2, 3)]
  {
    assert [2, 3][1..] == [3] && [1, 3][1..] == [3];
    assert Higher(1, [3]) == [3] && Higher(2, [3]) == [3];
  }

  lemma HighAnswersAndCrashes()
    ensures Moves(D0, HeartbeatTimeout(1), D1) && Moves(D1, Deliver(0), D2) && Moves(D2, Crash(2), D3)
  {
    HigherOfTwo();
  }

  lemma LowIsAnswered()
    ensures Moves(D3, Deliver(2), D4) && Moves(D4, RoundTimeout(1), D5)
  {
  }

  lemma LowLost()
    ensures PhaseStart(D0) && 1 in D0.nodes && !StaleFlag(D0, 1) && LostRound(D5)
  {
  }

  lemma LateAnswerTrace() returns (cs: seq<Cluster>, ss: seq<Step>)
    ensures Trace(cs, ss) && cs[0] == D0 && cs[|ss|] == D5
    ensures forall i :: 0 <= i < |ss| ==> NoOverlap(cs[i], ss[i])
  {
    HighAnswersAndCrashes();
    LowIsAnswered();
    cs := [D0, D1, D2, D3, D4, D5];
    ss := [HeartbeatTimeout(1), Deliver(0), Crash(2), Deliver(2), RoundTimeout(1)];
  }

  /** An ANSWER outlives its sender: the highest survivor loses its round to a server that has
   *  crashed since, with no flag left over. */
  lemma LateAnswerLosesARound() returns (c: Cluster, steps: seq<Step>)
    ensures PhaseStart(c) && IsRun(c, steps) && OneRoundAtATime(c, steps)
    ensures 1 in c.nodes && !StaleFlag(c, 1) && LostRound(Exec(c, steps))
  {
    var cs;
    cs, steps := LateAnswerTrace();
    TraceIsRun(cs, steps);
    LowLost();
    c := D0;
  }
}
