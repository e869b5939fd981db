/** What an election comes to: which server is the manager when the cascade has drained. */
module ElectionProgress {
  import opened Seqs
  import opened Election

  ghost predicate Highest(c: Cluster, h: int) {
    h in c.live && forall t :: t in c.live ==> t <= h
  }

  /** A leftover answer flag that the first round of h will read: `run_election` clears
   *  the flag when a round ends, not when it begins. */
  predicate StaleFlag(c: Cluster, h: int)
    requires h in c.nodes
  {
    c.nodes[h].answered && Higher(h, c.nodes[h].peers) != []
  }

  /** Server s has opened a round in this phase. */
  predicate Opened(c: Cluster, s: int)
    requires s in c.nodes
  {
    c.nodes[s].running || s in c.ended
  }

  /** The cascade has drained: nothing can be delivered and no sleep can end. */
  ghost predicate Drained(c: Cluster) {
    forall i: nat :: i < |c.net| ==> !Enabled(c, Deliver(i)) && !Enabled(c, RoundTimeout(i))
  }

  // ------------------------------------------------------------------ rounds asleep and over

  /** A running round of a live server is asleep, and what sleeps has been opened.  Rounds may
   *  overlap: the first to end lowers `running` while the other still sleeps. */
  ghost predicate SleepersOpened(c: Cluster)
    requires c.live <= c.nodes.Keys
  {
    forall s :: s in c.live ==>
      && (c.nodes[s].running ==> Timers(c.net, s) >= 1)
      && (Timers(c.net, s) >= 1 ==> Opened(c, s))
  }

  ghost predicate Sound(c: Cluster) {
    Covered(c) && SleepersOpened(c)
  }

  lemma OpenKeepsSound(c: Cluster, s: int, net: seq<Event>)
    requires Sound(c.(net := net)) && s in c.live
    ensures Sound(Open(c, s, net))
  {
    NewEvents(s, c.nodes[s]);
    var d, d' := c.(net := net), Open(c, s, net);
    forall u | u in d'.live
      ensures d'.nodes[u].running ==> Timers(d'.net, u) >= 1
      ensures Timers(d'.net, u) >= 1 ==> Opened(d', u)
    {
      TimersConcat(net, BeginRound(s, c.nodes[s]).1, u);
      assert Timers(d.net, u) >= 1 ==> Opened(d, u);
    }
  }

  lemma AnswerKeepsSound(c: Cluster, i: nat)
    requires Sound(c) && i < |c.net| && c.net[i].Election? && c.net[i].to in c.live
    ensures Sound(c.(net := RemoveAt(c.net, i) + [Answer(c.net[i].to, c.net[i].from)]))
  {
    var answer := Answer(c.net[i].to, c.net[i].from);
    var c' := c.(net := RemoveAt(c.net, i) + [answer]);
    forall u | u in c'.live ensures Timers(c'.net, u) == Timers(c.net, u) {
      TimersRemoveAt(c.net, i, u);
      TimersConcat(RemoveAt(c.net, i), [answer], u);
    }
    assert forall u :: u in c.live ==> (Opened(c', u) <==> Opened(c, u));
  }

  /** Every step keeps this, overlapping rounds included. */
  lemma StepKeepsSound(c: Cluster, step: Step)
    requires Sound(c) && Enabled(c, step)
    ensures Sound(Apply(c, step))
  {
    if step.HeartbeatTimeout? {
      assert c.(net := c.net) == c;
      OpenKeepsSound(c, step.s, c.net);
    } else if step.Deliver? && c.net[step.i].Election? {
      AnswerKeepsSound(c, step.i);
      var to := c.net[step.i].to;
      if !c.nodes[to].running {
        OpenKeepsSound(c, to, RemoveAt(c.net, step.i) + [Answer(to, c.net[step.i].from)]);
      }
    } else {
      var c' := Apply(c, step);
      forall u | u in c'.live
        ensures c'.nodes[u].running ==> Timers(c'.net, u) >= 1
        ensures Timers(c'.net, u) >= 1 ==> Opened(c', u)
      {
        if !step.Crash? { TimersRemoveAt(c.net, step.i, u); }
        assert Timers(c.net, u) >= 1 ==> Opened(c, u);
      }
    }
  }

  // ------------------------------------------------------------------ a round of h is reached

  /** The round of h is over, or asleep, or about to be opened by an ELECTION from s. */
  ghost predicate Reached(c: Cluster, h: int, s: int)
    requires h in c.nodes
  {
    h in c.ended || c.nodes[h].running || Election(s, h) in c.net
  }

  /** Every live server up to h that has opened a round reaches h. */
  ghost predicate AllReached(c: Cluster, h: int) {
    Sound(c) && h in c.live && forall s :: s in c.live && s <= h && Opened(c, s) ==> Reached(c, h, s)
  }

  /** Opening a round at s reaches h above it; other servers need what they had before. */
  lemma OpenReaches(c: Cluster, s: int, net: seq<Event>, h: int)
    requires Covered(c) && h in c.live && s in c.live
    ensures s <= h ==> Reached(Open(c, s, net), h, s)
    ensures forall u :: Reached(c.(net := net), h, u) ==> Reached(Open(c, s, net), h, u)
    ensures s == h ==> forall u :: Reached(Open(c, s, net), h, u)
  {
    NewEvents(s, c.nodes[s]);
    if s < h { assert h in c.nodes[s].peers; }
  }

  lemma OpenOpens(c: Cluster, s: int, net: seq<Event>, u: int)
    requires s in c.nodes && u in c.nodes && u != s
    ensures Opened(Open(c, s, net), u) <==> Opened(c, u)
  {
  }

  lemma AnswerKeepsReached(c: Cluster, i: nat, h: int)
    requires AllReached(c, h) && Enabled(c, Deliver(i)) && c.net[i].Election?
    ensures AllReached(Apply(c, Deliver(i)), h)
  {
    var to := c.net[i].to;
    var net := RemoveAt(c.net, i) + [Answer(to, c.net[i].from)];
    var c' := Apply(c, Deliver(i));
    StepKeepsSound(c, Deliver(i));
    RemoveAtMembers(c.net, i);
    if !c.nodes[to].running { OpenReaches(c, to, net, h); }
    forall u | u in c'.live && u <= h && Opened(c', u) ensures Reached(c', h, u) {
      if Opened(c, u) {
        assert Reached(c, h, u);
        assert to == h || Reached(c.(net := net), h, u);
      }
    }
  }

  lemma FinishKeepsReached(c: Cluster, i: nat, h: int)
    requires AllReached(c, h) && Enabled(c, RoundTimeout(i))
    ensures AllReached(Apply(c, RoundTimeout(i)), h)
  {
    var s, c' := c.net[i].owner, Apply(c, RoundTimeout(i));
    StepKeepsSound(c, RoundTimeout(i));
    RemoveAtMembers(c.net, i);
    TimersRemoveAt(c.net, i, s);
    forall u | u in c'.live && u <= h && Opened(c', u) ensures Reached(c', h, u) {
      assert Opened(c, u);
      assert Reached(c, h, u);
    }
  }

  lemma StepKeepsReached(c: Cluster, step: Step, h: int)
    requires AllReached(c, h) && Enabled(c, step) && step != Crash(h)
    ensures AllReached(Apply(c, step), h)
  {
    var c' := Apply(c, step);
    StepKeepsSound(c, step);
    if step.HeartbeatTimeout? {
      OpenReaches(c, step.s, c.net, h);
      forall u | u in c'.live && u <= h && Opened(c', u) ensures Reached(c', h, u) {
        if u != step.s {
          OpenOpens(c, step.s, c.net, u);
          assert Reached(c, h, u);
          assert c.(net := c.net) == c;
        }
      }
    } else if step.Deliver? && c.net[step.i].Election? {
      AnswerKeepsReached(c, step.i, h);
    } else if step.RoundTimeout? {
      FinishKeepsReached(c, step.i, h);
    } else {
      if !step.Crash? { RemoveAtMembers(c.net, step.i); }
      forall u | u in c'.live && u <= h && Opened(c', u) ensures Reached(c', h, u) {
        assert Reached(c, h, u);
      }
    }
  }

  lemma {:induction false} LiveShrinks(c: Cluster, steps: seq<Step>)
    requires IsRun(c, steps)
    ensures Exec(c, steps).live <= c.live
    decreases |steps|
  {
    if steps != [] { LiveShrinks(Apply(c, steps[0]), steps[1..]); }
  }

  lemma {:induction false} RunKeepsReached(c: Cluster, steps: seq<Step>, h: int)
    requires AllReached(c, h) && IsRun(c, steps)
    requires h in Exec(c, steps).live
    ensures AllReached(Exec(c, steps), h)
    decreases |steps|
  {
    if steps != [] {
      LiveShrinks(Apply(c, steps[0]), steps[1..]);
      StepKeepsReached(c, steps[0], h);
      RunKeepsReached(Apply(c, steps[0]), steps[1..], h);
    }
  }

  lemma {:induction false} TimerIsPending(net: seq<Event>, s: int)
    requires Timers(net, s) > 0
    ensures Timer(s) in net
  {
    if net[0] != Timer(s) { TimerIsPending(net[1..], s); }
  }

  /** The highest live server never waits for an answer, so its sleep can always end. */
  lemma HighestCanWake(c: Cluster, h: int) returns (i: nat)
    requires Sound(c) && Highest(c, h) && c.nodes[h].running
    ensures Enabled(c, RoundTimeout(i))
  {
    TimerIsPending(c.net, h);
    i :| i < |c.net| && c.net[i] == Timer(h);
  }

  /** When a cascade that some still live server opened has drained, a round of the highest
   *  live server has ended, whoever crashed on the way. */
  lemma HighestHadARound(c: Cluster, steps: seq<Step>, h: int, s: int)
    requires PhaseStart(c) && IsRun(c, steps)
    requires var d := Exec(c, steps); Highest(d, h) && s in d.live && s in d.nodes && Opened(d, s) && Drained(d)
    ensures h in Exec(c, steps).ended
  {
    var d := Exec(c, steps);
    LiveShrinks(c, steps);
    RunKeepsReached(c, steps, h);
    assert Reached(d, h, s);
    if d.nodes[h].running {
      var i := HighestCanWake(d, h);
      assert false;
    }
    if h !in d.ended {
      var i: nat :| i < |d.net| && d.net[i] == Election(s, h);
      assert Enabled(d, Deliver(i));
      assert false;
    }
  }

  // ------------------------------------------------------------------ what happened when

  ghost predicate Moves(c: Cluster, step: Step, d: Cluster) {
    Enabled(c, step) && Apply(c, step) == d
  }

  /** `cs` are the states passed through by the steps `ss`. */
  ghost predicate Trace(cs: seq<Cluster>, ss: seq<Step>) {
    |cs| == |ss| + 1 && forall i :: 0 <= i < |ss| ==> Moves(cs[i], ss[i], cs[i + 1])
  }

  /** The states a run passes through. */
  function States(c: Cluster, steps: seq<Step>): (cs: seq<Cluster>)
    requires IsRun(c, steps)
    ensures |cs| == |steps| + 1 && cs[0] == c
    decreases |steps|
  {
    if steps == [] then [c] else [c] + States(Apply(c, steps[0]), steps[1..])
  }

  lemma {:induction false} StatesTrace(c: Cluster, steps: seq<Step>)
    requires IsRun(c, steps)
    ensures Trace(States(c, steps), steps) && States(c, steps)[|steps|] == Exec(c, steps)
    decreases |steps|
  {
    if steps != [] {
      var later := States(Apply(c, steps[0]), steps[1..]);
      StatesTrace(Apply(c, steps[0]), steps[1..]);
      forall i | 0 <= i < |steps| ensures Moves(States(c, steps)[i], steps[i], States(c, steps)[i + 1]) {
        if i > 0 { assert Moves(later[i - 1], steps[1..][i - 1], later[i]); }
      }
    }
  }

  /** Step k ends a round of h. */
  predicate Ends(cs: seq<Cluster>, h: int, k: nat) {
    k + 1 < |cs| && cs[k + 1].ended == cs[k].ended + [h]
  }

  /** Step k delivers an ANSWER to h. */
  predicate Hears(cs: seq<Cluster>, ss: seq<Step>, h: int, k: nat) {
    && k < |ss| && k < |cs| && ss[k].Deliver? && ss[k].i < |cs[k].net|
    && cs[k].net[ss[k].i].Answer? && cs[k].net[ss[k].i].to == h
  }

  predicate HearsNothing(cs: seq<Cluster>, ss: seq<Step>, h: int, from: nat, to: nat) {
    forall l :: from <= l < to ==> !Hears(cs, ss, h, l)
  }

  /** Before step j the answer flag of h has just been cleared, or the phase begins with a
   *  flag that is clear or that no round will read. */
  predicate Clear(cs: seq<Cluster>, h: int, j: nat)
    requires cs != [] && h in cs[0].nodes
  {
    if j == 0 then !StaleFlag(cs[0], h) else Ends(cs, h, j - 1)
  }

  ghost predicate ClearUntil(cs: seq<Cluster>, ss: seq<Step>, h: int, k: nat)
    requires cs != [] && h in cs[0].nodes
  {
    exists j :: 0 <= j <= k && Clear(cs, h, j) && HearsNothing(cs, ss, h, j, k)
  }

  /** Step k ends a round of h that nobody answered: no ANSWER has reached h since its
   *  previous round ended or, for its first round, in the phase or from before it. */
  ghost predicate Unanswered(cs: seq<Cluster>, ss: seq<Step>, h: int, k: nat)
    requires cs != [] && h in cs[0].nodes
  {
    Ends(cs, h, k) && ClearUntil(cs, ss, h, k)
  }

  /** What one step does to the fields of h. */
  lemma StepFields(c: Cluster, step: Step, h: int)
    requires Enabled(c, step) && h in c.nodes && Higher(h, c.nodes[h].peers) != []
    ensures var d, ends := Apply(c, step), step.RoundTimeout? && c.net[step.i].owner == h;
            var hears := step.Deliver? && c.net[step.i].Answer? && c.net[step.i].to == h;
            && h in d.nodes && d.nodes[h].peers == c.nodes[h].peers
            && (ends <==> d.ended == c.ended + [h])
            && d.nodes[h].answered == (if ends then false else hears || c.nodes[h].answered)
            && (d.nodes[h].mode == BackupManager <==>
                  c.nodes[h].mode == BackupManager || (ends && !c.nodes[h].answered))
  {
    if step.HeartbeatTimeout? {
      NewEvents(step.s, c.nodes[step.s]);
    } else if step.Deliver? && c.net[step.i].Election? {
      NewEvents(c.net[step.i].to, c.nodes[c.net[step.i].to]);
    }
    assert forall s :: c.ended + [s] == c.ended + [h] ==> (c.ended + [s])[|c.ended|] == h;
  }

  /** The flag of h is down exactly when nothing has been heard since it was last cleared. */
  lemma {:induction false} FlagAt(cs: seq<Cluster>, ss: seq<Step>, h: int, k: nat)
    requires Trace(cs, ss) && k <= |ss| && h in cs[0].nodes && Higher(h, cs[0].nodes[h].peers) != []
    ensures h in cs[k].nodes && cs[k].nodes[h].peers == cs[0].nodes[h].peers
    ensures !cs[k].nodes[h].answered <==> ClearUntil(cs, ss, h, k)
  {
    if k == 0 {
      assert HearsNothing(cs, ss, h, 0, 0);
    } else {
      FlagAt(cs, ss, h, k - 1);
      assert Moves(cs[k - 1], ss[k - 1], cs[k]);
      StepFields(cs[k - 1], ss[k - 1], h);
      if Ends(cs, h, k - 1) {
        assert Clear(cs, h, k) && HearsNothing(cs, ss, h, k, k);
      } else if Hears(cs, ss, h, k - 1) {
        assert forall j :: 0 <= j <= k && Clear(cs, h, j) ==> j < k;
        assert forall j :: 0 <= j < k ==> !HearsNothing(cs, ss, h, j, k);
      } else {
        assert !Clear(cs, h, k);
        forall j | 0 <= j < k ensures HearsNothing(cs, ss, h, j, k) <==> HearsNothing(cs, ss, h, j, k - 1) {
        }
      }
    }
  }

  /** Managers are made by rounds that nobody answered, for a server with someone above it
   *  in its list. */
  lemma {:induction false} ModeAt(cs: seq<Cluster>, ss: seq<Step>, h: int, k: nat)
    requires Trace(cs, ss) && k <= |ss| && h in cs[0].nodes && Higher(h, cs[0].nodes[h].peers) != []
    requires cs[0].nodes[h].mode == Backup
    ensures h in cs[k].nodes
    ensures cs[k].nodes[h].mode == BackupManager <==> exists i :: 0 <= i < k && Unanswered(cs, ss, h, i)
  {
    if k > 0 {
      ModeAt(cs, ss, h, k - 1);
      FlagAt(cs, ss, h, k - 1);
      assert Moves(cs[k - 1], ss[k - 1], cs[k]);
      StepFields(cs[k - 1], ss[k - 1], h);
      assert Unanswered(cs, ss, h, k - 1) <==> Ends(cs, h, k - 1) && !cs[k - 1].nodes[h].answered;
    }
  }

  /** Nothing of h's is under way, and nobody answers it. */
  ghost predicate NoMail(net: seq<Event>, h: int) {
    forall e :: e in net ==> e != Timer(h) && (e.Answer? ==> e.to != h) && (e.Election? ==> e.from != h)
  }

  lemma OpenOnTop(c: Cluster, s: int, net: seq<Event>, h: int)
    requires s in c.nodes && h in c.nodes && Higher(h, c.nodes[h].peers) == [] && NoMail(net, h)
    ensures NoMail(Open(c, s, net).net, h)
  {
    NewEvents(s, c.nodes[s]);
    if s == h {
      assert forall t :: t in c.nodes[h].peers && t > h ==> t in Higher(h, c.nodes[h].peers);
    }
  }

  /** What one step does to a server that knows nobody above it. */
  lemma StepMail(c: Cluster, step: Step, h: int)
    requires Enabled(c, step) && h in c.nodes && Higher(h, c.nodes[h].peers) == [] && NoMail(c.net, h)
    ensures NoMail(Apply(c, step).net, h)
  {
    if step.HeartbeatTimeout? {
      OpenOnTop(c, step.s, c.net, h);
    } else if !step.Crash? {
      assert c.net[step.i] in c.net;
      RemoveAtMembers(c.net, step.i);
      if step.Deliver? && c.net[step.i].Election? {
        OpenOnTop(c, c.net[step.i].to, RemoveAt(c.net, step.i) + [Answer(c.net[step.i].to, c.net[step.i].from)], h);
      }
    }
  }

  lemma StepFieldsOnTop(c: Cluster, step: Step, h: int)
    requires Enabled(c, step) && h in c.nodes && Higher(h, c.nodes[h].peers) == [] && NoMail(c.net, h)
    ensures var d := Apply(c, step);
            && h in d.nodes && d.nodes[h].peers == c.nodes[h].peers
            && (d.nodes[h].mode == BackupManager <==> c.nodes[h].mode == BackupManager || d.ended == c.ended + [h])
  {
    if step.RoundTimeout? {
      assert c.net[step.i] in c.net;
    }
    assert forall s :: c.ended + [s] == c.ended + [h] ==> (c.ended + [s])[|c.ended|] == h;
  }

  lemma {:induction false} ModeOnTop(cs: seq<Cluster>, ss: seq<Step>, h: int, k: nat)
    requires Trace(cs, ss) && k <= |ss| && h in cs[0].nodes && Higher(h, cs[0].nodes[h].peers) == []
    requires cs[0].nodes[h].mode == Backup && cs[0].net == []
    ensures h in cs[k].nodes && cs[k].nodes[h].peers == cs[0].nodes[h].peers
    ensures NoMail(cs[k].net, h)
    ensures HearsNothing(cs, ss, h, 0, k)
    ensures cs[k].nodes[h].mode == BackupManager <==> exists i :: 0 <= i < k && Unanswered(cs, ss, h, i)
  {
    if k > 0 {
      ModeOnTop(cs, ss, h, k - 1);
      assert Moves(cs[k - 1], ss[k - 1], cs[k]);
      StepMail(cs[k - 1], ss[k - 1], h);
      StepFieldsOnTop(cs[k - 1], ss[k - 1], h);
      assert Clear(cs, h, 0) && HearsNothing(cs, ss, h, 0, k - 1);
      assert Unanswered(cs, ss, h, k - 1) <==> Ends(cs, h, k - 1);
      assert !Hears(cs, ss, h, k - 1);
    }
  }

  /** A server has become manager exactly if one of its rounds ended unanswered. */
  lemma ManagerIffUnanswered(c: Cluster, steps: seq<Step>, h: int)
    requires PhaseStart(c) && IsRun(c, steps) && h in c.nodes
    ensures var d, cs := Exec(c, steps), States(c, steps);
            && h in d.nodes
            && (d.nodes[h].mode == BackupManager <==> exists k :: 0 <= k < |steps| && Unanswered(cs, steps, h, k))
  {
    StatesTrace(c, steps);
    if Higher(h, c.nodes[h].peers) == [] {
      ModeOnTop(States(c, steps), steps, h, |steps|);
    } else {
      ModeAt(States(c, steps), steps, h, |steps|);
    }
  }

  /** The rounds of h that have ended are those its steps have ended. */
  lemma {:induction false} EndedAt(cs: seq<Cluster>, ss: seq<Step>, h: int, k: nat)
    requires Trace(cs, ss) && k <= |ss| && cs[0].ended == []
    ensures h in cs[k].ended ==> exists i: nat :: i < k && Ends(cs, h, i)
  {
    if k > 0 {
      EndedAt(cs, ss, h, k - 1);
      var c, d := cs[k - 1], cs[k];
      assert Moves(c, ss[k - 1], d);
      assert d.ended == c.ended || exists s :: d.ended == c.ended + [s];
      if h in d.ended && h !in c.ended { assert Ends(cs, h, k - 1); }
    }
  }

  // ------------------------------------------------------------------ who answers

  /** ELECTION goes upwards, and an ANSWER comes from above, from a server of `start`. */
  ghost predicate FromAbove(net: seq<Event>, start: set<int>) {
    forall e :: e in net ==> (e.Election? ==> e.from < e.to) && (e.Answer? ==> e.to < e.from && e.from in start)
  }

  lemma StepFromAbove(c: Cluster, step: Step, start: set<int>)
    requires Enabled(c, step) && FromAbove(c.net, start) && c.live <= start
    ensures FromAbove(Apply(c, step).net, start) && Apply(c, step).live <= start
  {
    if step.HeartbeatTimeout? {
      NewEvents(step.s, c.nodes[step.s]);
    } else if step.Deliver? && c.net[step.i].Election? {
      RemoveAtMembers(c.net, step.i);
      assert c.net[step.i] in c.net;
      NewEvents(c.net[step.i].to, c.nodes[c.net[step.i].to]);
    } else if !step.Crash? {
      RemoveAtMembers(c.net, step.i);
    }
  }

  /** Only a higher server that was live when the phase began answers. */
  lemma {:induction false} AnswersFromAbove(cs: seq<Cluster>, ss: seq<Step>, k: nat)
    requires Trace(cs, ss) && k <= |ss| && cs[0].net == []
    ensures FromAbove(cs[k].net, cs[0].live) && cs[k].live <= cs[0].live
  {
    if k > 0 {
      AnswersFromAbove(cs, ss, k - 1);
      assert Moves(cs[k - 1], ss[k - 1], cs[k]);
      StepFromAbove(cs[k - 1], ss[k - 1], cs[0].live);
    }
  }

  lemma HeardFromAbove(cs: seq<Cluster>, ss: seq<Step>, h: int, k: nat)
    requires Trace(cs, ss) && cs[0].net == [] && Hears(cs, ss, h, k)
    ensures var from := cs[k].net[ss[k].i].from; from > h && from in cs[0].live
  {
    AnswersFromAbove(cs, ss, k);
    assert cs[k].net[ss[k].i] in cs[k].net;
  }

  // ------------------------------------------------------------------ progress

  /** Everything h has heard came from above, from servers of the beginning. */
  ghost predicate HeardOnlyFromAbove(cs: seq<Cluster>, ss: seq<Step>, h: int)
    requires cs != []
  {
    forall k: nat :: Hears(cs, ss, h, k) ==>
      var from := cs[k].net[ss[k].i].from; from > h && from in cs[0].live
  }

  lemma AllHeardFromAbove(c: Cluster, steps: seq<Step>, h: int)
    requires PhaseStart(c) && IsRun(c, steps)
    ensures HeardOnlyFromAbove(States(c, steps), steps, h)
  {
    var cs := States(c, steps);
    StatesTrace(c, steps);
    forall k: nat | Hears(cs, steps, h, k)
      ensures var from := cs[k].net[steps[k].i].from; from > h && from in cs[0].live
    {
      HeardFromAbove(cs, steps, h, k);
    }
  }

  lemma EndedUnheard(c: Cluster, steps: seq<Step>, h: int)
    requires PhaseStart(c) && IsRun(c, steps) && h in c.nodes && h in Exec(c, steps).ended
    requires !StaleFlag(c, h) && HearsNothing(States(c, steps), steps, h, 0, |steps|)
    ensures exists k :: 0 <= k < |steps| && Unanswered(States(c, steps), steps, h, k)
  {
    var cs := States(c, steps);
    StatesTrace(c, steps);
    EndedAt(cs, steps, h, |steps|);
    var k: nat :| k < |steps| && Ends(cs, h, k);
    assert Clear(cs, h, 0) && HearsNothing(cs, steps, h, 0, k);
    assert Unanswered(cs, steps, h, k);
  }

  /** Progress, exactly: once the cascade that some still live server opened has drained, the
   *  highest live server h has ended a round, and it is the manager if and only if one of its
   *  rounds ended unanswered.  Whoever answered it was above it, so has crashed since.  With
   *  no leftover flag and no answer h is the manager. */
  lemma Progress(c: Cluster, steps: seq<Step>, h: int, s: int)
    requires PhaseStart(c) && IsRun(c, steps)
    requires var d := Exec(c, steps); Highest(d, h) && s in d.live && s in d.nodes && Opened(d, s) && Drained(d)
    ensures var d, cs := Exec(c, steps), States(c, steps);
            && h in c.nodes && h in d.nodes && h in d.ended && HeardOnlyFromAbove(cs, steps, h)
            && (d.nodes[h].mode == BackupManager <==> exists k :: 0 <= k < |steps| && Unanswered(cs, steps, h, k))
            && (!StaleFlag(c, h) && HearsNothing(cs, steps, h, 0, |steps|) ==> d.nodes[h].mode == BackupManager)
  {
    LiveShrinks(c, steps);
    HighestHadARound(c, steps, h, s);
    ManagerIffUnanswered(c, steps, h);
    AllHeardFromAbove(c, steps, h);
    if !StaleFlag(c, h) && HearsNothing(States(c, steps), steps, h, 0, |steps|) {
      EndedUnheard(c, steps, h);
    }
  }

  lemma TopHearsNothing(cs: seq<Cluster>, ss: seq<Step>, h: int, from: nat, to: nat)
    requires cs != [] && Highest(cs[0], h) && HeardOnlyFromAbove(cs, ss, h)
    ensures HearsNothing(cs, ss, h, from, to)
  {
  }

  lemma TwoRounds(cs: seq<Cluster>, ss: seq<Step>, h: int, n: nat)
    requires cs != [] && h in cs[0].nodes && Highest(cs[0], h) && HeardOnlyFromAbove(cs, ss, h) && StaleFlag(cs[0], h)
    ensures (exists k :: 0 <= k < n && Unanswered(cs, ss, h, k))
            <==> exists j: nat, k: nat :: j < k < n && Ends(cs, h, j) && Ends(cs, h, k)
  {
    if k :| 0 <= k < n && Unanswered(cs, ss, h, k) {
      var j :| 0 <= j <= k && Clear(cs, h, j) && HearsNothing(cs, ss, h, j, k);
      assert Ends(cs, h, j - 1) && Ends(cs, h, k);
    }
    if j: nat, k: nat :| j < k < n && Ends(cs, h, j) && Ends(cs, h, k) {
      TopHearsNothing(cs, ss, h, j + 1, k);
      assert Clear(cs, h, j + 1) && HearsNothing(cs, ss, h, j + 1, k);
      assert Unanswered(cs, ss, h, k);
    }
  }

  /** A server that is highest from the start is answered by nobody; it is the manager if and
   *  only if it met no leftover flag or has had two rounds.  Its list may still hold dead
   *  higher ids. */
  lemma ProgressFromTheTop(c: Cluster, steps: seq<Step>, h: int, s: int)
    requires PhaseStart(c) && Highest(c, h) && IsRun(c, steps)
    requires var d := Exec(c, steps); h in d.live && s in d.live && s in d.nodes && Opened(d, s) && Drained(d)
    ensures var d, cs := Exec(c, steps), States(c, steps);
            h in c.nodes && h in d.nodes &&
            (d.nodes[h].mode == BackupManager <==>
              !StaleFlag(c, h) || exists j: nat, k: nat :: j < k < |steps| && Ends(cs, h, j) && Ends(cs, h, k))
  {
    var cs := States(c, steps);
    LiveShrinks(c, steps);
    Progress(c, steps, h, s);
    TopHearsNothing(cs, steps, h, 0, |steps|);
    if StaleFlag(c, h) {
      TwoRounds(cs, steps, h, |steps|);
    }
  }
}
