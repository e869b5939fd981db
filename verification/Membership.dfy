/** How the manager's join announcements build the mesh of replica lists
 *  (src/server/serverRoles.c, src/server/replica.c), and what an election gets from it. */
module Membership {
  import opened ServerCommon
  import Election

  /** What EVENT_REPLICA_ADDED announces. */
  datatype Peer = Peer(id: int, listenerPort: int, address: Address)

  /** `registered` is the manager's list.  For every registered backup there are the
   *  announcements still in its channel and the list it has built so far. */
  datatype Mesh = Mesh(registered: seq<Peer>, channels: map<int, seq<Peer>>, lists: map<int, seq<Peer>>)

  datatype Step =
    | Join(p: Peer)      // the manager accepts a replica
    | Deliver(b: int)    // backup b takes the next announcement and connects

  const EMPTY := Mesh([], map[], map[])

  predicate Registered(m: Mesh, id: int) {
    exists i :: 0 <= i < |m.registered| && m.registered[i].id == id
  }

  predicate Enabled(m: Mesh, step: Step) {
    match step
    case Join(p) => !Registered(m, p.id)
    case Deliver(b) => b in m.channels && b in m.lists && m.channels[b] != []
  }

  /** `replica_listener_thread` puts the newcomer at the head of the list, announces it to
   *  the whole list, and then sends it the whole list: it hears of itself twice. */
  function AcceptReplica(m: Mesh, p: Peer): Mesh {
    var list := [p] + m.registered;
    Mesh(list,
         (map b | b in m.channels :: m.channels[b] + [p])[p.id := [p] + list],
         m.lists[p.id := []])
  }

  /** The REPLICA_ADDED case of `connect_to_server_thread`: a backup skips its own id. */
  function TakeAnnouncement(m: Mesh, b: int): Mesh
    requires Enabled(m, Deliver(b))
  {
    var p := m.channels[b][0];
    m.(channels := m.channels[b := m.channels[b][1..]],
       lists := if p.id != b then m.lists[b := [p] + m.lists[b]] else m.lists)
  }

  function Apply(m: Mesh, step: Step): Mesh
    requires Enabled(m, step)
  {
    match step
    case Join(p) => AcceptReplica(m, p)
    case Deliver(b) => TakeAnnouncement(m, b)
  }

  predicate IsRun(m: Mesh, steps: seq<Step>)
    decreases |steps|
  {
    steps == [] || (Enabled(m, steps[0]) && IsRun(Apply(m, steps[0]), steps[1..]))
  }

  function Exec(m: Mesh, steps: seq<Step>): Mesh
    requires IsRun(m, steps)
    decreases |steps|
  {
    if steps == [] then m else Exec(Apply(m, steps[0]), steps[1..])
  }

  /** The peers of q other than b. */
  function Others(q: seq<Peer>, b: int): seq<Peer> {
    if q == [] then [] else (if q[0].id == b then [] else [q[0]]) + Others(q[1..], b)
  }

  lemma {:induction false} OthersConcat(a: seq<Peer>, q: seq<Peer>, b: int)
    ensures Others(a + q, b) == Others(a, b) + Others(q, b)
  {
    if a == [] {
      assert a + q == q;
    } else {
      assert (a + q)[1..] == a[1..] + q;
      OthersConcat(a[1..], q, b);
    }
  }

  lemma {:induction false} OthersOfStranger(q: seq<Peer>, b: int)
    requires forall i :: 0 <= i < |q| ==> q[i].id != b
    ensures Others(q, b) == q
  {
    if q != [] { OthersOfStranger(q[1..], b); }
  }

  lemma {:induction false} OthersMembers(q: seq<Peer>, b: int)
    ensures forall p :: p in Others(q, b) <==> p in q && p.id != b
  {
    if q != [] { OthersMembers(q[1..], b); }
  }

  ghost predicate DistinctIds(q: seq<Peer>) {
    forall i, j :: 0 <= i < j < |q| ==> q[i].id != q[j].id
  }

  /** What b has built and what is still under way are together the others of the list. */
  ghost predicate Covers(m: Mesh, b: int)
    requires b in m.channels && b in m.lists
  {
    multiset(m.lists[b]) + multiset(Others(m.channels[b], b)) == multiset(Others(m.registered, b))
  }

  ghost predicate Inv(m: Mesh) {
    && DistinctIds(m.registered)
    && m.channels.Keys == m.lists.Keys
    && (forall b :: b in m.channels <==> Registered(m, b))
    && (forall b :: b in m.channels ==> Covers(m, b))
  }

  lemma JoinRegisters(m: Mesh, p: Peer, b: int)
    ensures Registered(AcceptReplica(m, p), b) <==> b == p.id || Registered(m, b)
  {
    var list := AcceptReplica(m, p).registered;
    assert list[0].id == p.id && list[1..] == m.registered;
    if Registered(m, b) {
      var i :| 0 <= i < |m.registered| && m.registered[i].id == b;
      assert list[i + 1].id == b;
    }
  }

  lemma JoinCovers(m: Mesh, p: Peer, b: int)
    requires Inv(m) && Enabled(m, Join(p)) && (b == p.id || b in m.channels)
    ensures Covers(AcceptReplica(m, p), b)
  {
    var list := [p] + m.registered;
    assert list[1..] == m.registered;
    if b == p.id {
      assert ([p] + list)[1..] == list;
      OthersOfStranger(m.registered, b);
    } else {
      assert Covers(m, b);
      OthersConcat(m.channels[b], [p], b);
      assert [p][1..] == [];
    }
  }

  lemma JoinKeepsInv(m: Mesh, p: Peer)
    requires Inv(m) && Enabled(m, Join(p))
    ensures Inv(AcceptReplica(m, p))
  {
    var m' := AcceptReplica(m, p);
    forall b ensures b in m'.channels <==> Registered(m', b) { JoinRegisters(m, p, b); }
    forall b | b in m'.channels ensures Covers(m', b) { JoinCovers(m, p, b); }
  }

  /** Moving the head of the channel to the list changes nothing in the sum. */
  lemma DeliveryBalances(channel: seq<Peer>, list: seq<Peer>, b: int)
    requires channel != []
    ensures multiset(if channel[0].id == b then list else [channel[0]] + list) + multiset(Others(channel[1..], b))
            == multiset(list) + multiset(Others(channel, b))
  {
    var rest := Others(channel[1..], b);
    assert multiset([channel[0]] + list) == multiset{channel[0]} + multiset(list);
    assert multiset([channel[0]] + rest) == multiset{channel[0]} + multiset(rest);
  }

  lemma DeliveryCovers(m: Mesh, b: int)
    requires Enabled(m, Deliver(b)) && Covers(m, b)
    ensures Covers(TakeAnnouncement(m, b), b)
  {
    DeliveryBalances(m.channels[b], m.lists[b], b);
  }

  lemma DeliverKeepsInv(m: Mesh, b: int)
    requires Inv(m) && Enabled(m, Deliver(b))
    ensures Inv(TakeAnnouncement(m, b))
  {
    var m' := TakeAnnouncement(m, b);
    forall u | u in m'.channels ensures Covers(m', u) {
      assert Covers(m, u);
      if u == b { DeliveryCovers(m, b); }
    }
    forall u ensures u in m'.channels <==> Registered(m', u) {
      assert Registered(m', u) <==> Registered(m, u);
    }
  }

  lemma {:induction false} RunKeepsInv(m: Mesh, steps: seq<Step>)
    requires Inv(m) && IsRun(m, steps)
    ensures Inv(Exec(m, steps))
    decreases |steps|
  {
    if steps != [] {
      match steps[0] {
        case Join(p) => JoinKeepsInv(m, p);
        case Deliver(b) => DeliverKeepsInv(m, b);
      }
      RunKeepsInv(Apply(m, steps[0]), steps[1..]);
    }
  }

  /** Coverage: after any interleaving of joins and deliveries, delivered plus pending
   *  announcements of each backup are exactly the other registered replicas. */
  lemma MeshCovers(steps: seq<Step>, b: int)
    requires IsRun(EMPTY, steps) && Registered(Exec(EMPTY, steps), b)
    ensures b in Exec(EMPTY, steps).channels && b in Exec(EMPTY, steps).lists && Covers(Exec(EMPTY, steps), b)
  {
    RunKeepsInv(EMPTY, steps);
  }

  // ------------------------------------------------------------------ order

  function Reversed(q: seq<Peer>): seq<Peer> {
    if q == [] then [] else Reversed(q[1..]) + [q[0]]
  }

  /** The others of a list that is newest first, as b puts them: those that joined after b newest
   *  first, and then those that were there before it oldest first. */
  function AsSeenBy(q: seq<Peer>, b: int): seq<Peer> {
    if q == [] then [] else if q[0].id == b then Reversed(q[1..]) else [q[0]] + AsSeenBy(q[1..], b)
  }

  lemma {:induction false} ReversedConcat(a: seq<Peer>, q: seq<Peer>)
    ensures Reversed(a + q) == Reversed(q) + Reversed(a)
  {
    if a == [] {
      assert a + q == q;
    } else {
      assert (a + q)[1..] == a[1..] + q;
      ReversedConcat(a[1..], q);
    }
  }

  /** The list of b, once what is under way has arrived. */
  function Arrived(m: Mesh, b: int): seq<Peer>
    requires b in m.channels && b in m.lists
  {
    Reversed(Others(m.channels[b], b)) + m.lists[b]
  }

  ghost predicate InOrder(m: Mesh) {
    Inv(m) && forall b :: b in m.channels ==> Arrived(m, b) == AsSeenBy(m.registered, b)
  }

  /** An announcement behind a channel arrives in front of everything. */
  lemma TailArrives(channel: seq<Peer>, list: seq<Peer>, p: Peer, b: int)
    requires p.id != b
    ensures Reversed(Others(channel + [p], b)) + list == [p] + (Reversed(Others(channel, b)) + list)
  {
    var pending := Others(channel, b);
    OthersConcat(channel, [p], b);
    OnePeer(p, b);
    ReversedConcat(pending, [p]);
  }

  lemma OnePeer(p: Peer, b: int)
    requires p.id != b
    ensures Others([p], b) == [p] && Reversed([p]) == [p]
  {
    assert [p][1..] == [];
    assert Others([], b) == [] && Reversed([]) == [];
    assert Others([p], b) == [p] + [] && Reversed([p]) == [] + [p];
  }

  lemma NewcomerHears(m: Mesh, p: Peer)
    requires forall i :: 0 <= i < |m.registered| ==> m.registered[i].id != p.id
    ensures Arrived(AcceptReplica(m, p), p.id) == Reversed(m.registered)
  {
    var list := [p] + m.registered;
    assert list[1..] == m.registered && ([p] + list)[1..] == list;
    OthersOfStranger(m.registered, p.id);
    assert Others(list, p.id) == [] + m.registered;
    assert Others([p] + list, p.id) == [] + Others(list, p.id);
    assert Others([p] + list, p.id) == m.registered;
    assert Reversed(m.registered) + [] == Reversed(m.registered);
  }

  lemma JoinKeepsOrder(m: Mesh, p: Peer, b: int)
    requires InOrder(m) && Enabled(m, Join(p)) && (b == p.id || b in m.channels)
    ensures Arrived(AcceptReplica(m, p), b) == AsSeenBy([p] + m.registered, b)
  {
    assert ([p] + m.registered)[1..] == m.registered;
    if b == p.id {
      NewcomerHears(m, p);
    } else {
      TailArrives(m.channels[b], m.lists[b], p, b);
      assert Arrived(m, b) == AsSeenBy(m.registered, b);
    }
  }

  /** The head of a channel goes to the front of the list. */
  lemma HeadArrives(channel: seq<Peer>, list: seq<Peer>, b: int)
    requires channel != []
    ensures Reversed(Others(channel, b)) + list
            == Reversed(Others(channel[1..], b)) + if channel[0].id == b then list else [channel[0]] + list
  {
    var p, rest := channel[0], Others(channel[1..], b);
    if p.id == b {
      assert [] + rest == rest;
    } else {
      assert ([p] + rest)[1..] == rest;
      assert (Reversed(rest) + [p]) + list == Reversed(rest) + ([p] + list);
    }
  }

  lemma DeliverKeepsOrder(m: Mesh, b: int, u: int)
    requires InOrder(m) && Enabled(m, Deliver(b)) && u in m.channels
    ensures Arrived(TakeAnnouncement(m, b), u) == Arrived(m, u)
  {
    if u == b { HeadArrives(m.channels[b], m.lists[b], b); }
  }

  lemma {:induction false} RunKeepsOrder(m: Mesh, steps: seq<Step>)
    requires InOrder(m) && IsRun(m, steps)
    ensures InOrder(Exec(m, steps))
    decreases |steps|
  {
    if steps != [] {
      match steps[0] {
        case Join(p) =>
          JoinKeepsInv(m, p);
          forall b | b in AcceptReplica(m, p).channels
            ensures Arrived(AcceptReplica(m, p), b) == AsSeenBy(AcceptReplica(m, p).registered, b)
          {
            JoinKeepsOrder(m, p, b);
          }
        case Deliver(b) =>
          DeliverKeepsInv(m, b);
          forall u | u in m.channels ensures Arrived(TakeAnnouncement(m, b), u) == AsSeenBy(m.registered, u) {
            DeliverKeepsOrder(m, b, u);
          }
      }
      RunKeepsOrder(Apply(m, steps[0]), steps[1..]);
    }
  }

  /** The peers of the joins, in order. */
  function Joined(steps: seq<Step>): seq<Peer> {
    if steps == [] then [] else (if steps[0].Join? then [steps[0].p] else []) + Joined(steps[1..])
  }

  lemma {:induction false} RegisteredAfter(m: Mesh, steps: seq<Step>)
    requires IsRun(m, steps)
    ensures Exec(m, steps).registered == Reversed(Joined(steps)) + m.registered
    decreases |steps|
  {
    if steps != [] {
      var later := Joined(steps[1..]);
      RegisteredAfter(Apply(m, steps[0]), steps[1..]);
      if steps[0].Join? {
        var p := steps[0].p;
        assert ([p] + later)[1..] == later;
        assert (Reversed(later) + [p]) + m.registered == Reversed(later) + ([p] + m.registered);
      } else {
        assert [] + later == later;
      }
    }
  }

  /** Order: the manager lists the replicas newest first, and a backup whose announcements have
   *  all arrived lists the later ones newest first and behind them the earlier ones oldest first. */
  lemma MeshOrder(steps: seq<Step>, b: int)
    requires IsRun(EMPTY, steps)
    requires var m := Exec(EMPTY, steps); b in m.channels && m.channels[b] == []
    ensures var m := Exec(EMPTY, steps);
            && m.registered == Reversed(Joined(steps))
            && b in m.lists && m.lists[b] == AsSeenBy(m.registered, b)
  {
    RegisteredAfter(EMPTY, steps);
    RunKeepsOrder(EMPTY, steps);
    assert Arrived(Exec(EMPTY, steps), b) == AsSeenBy(Exec(EMPTY, steps).registered, b);
  }

  lemma OthersDistinct(q: seq<Peer>, b: int)
    requires DistinctIds(q)
    ensures DistinctIds(Others(q, b))
  {
    if q != [] {
      OthersDistinct(q[1..], b);
      OthersMembers(q[1..], b);
    }
  }

  /** Two permutations of peers agree on distinct ids. */
  lemma PermutationDistinct(q: seq<Peer>, r: seq<Peer>)
    requires multiset(q) == multiset(r) && DistinctIds(r)
    ensures DistinctIds(q)
  {
    forall i, j | 0 <= i < j < |q| ensures q[i].id != q[j].id {
      assert multiset(q)[q[i]] >= 1 && multiset(q)[q[j]] >= 1;
      assert q[i] in multiset(r) && q[j] in multiset(r);
      if q[i] == q[j] {
        Twice(q, i, j);
        DistinctOnce(r, q[i]);
        assert false;
      }
    }
  }

  lemma Twice(q: seq<Peer>, i: nat, j: nat)
    requires i < j < |q| && q[i] == q[j]
    ensures multiset(q)[q[i]] >= 2
  {
    assert q == q[..j] + q[j..];
    assert q[i] in q[..j] && q[i] in q[j..];
  }

  lemma {:induction false} DistinctOnce(r: seq<Peer>, p: Peer)
    requires DistinctIds(r)
    ensures multiset(r)[p] <= 1
  {
    if r != [] {
      DistinctOnce(r[1..], p);
      assert r == [r[0]] + r[1..];
      assert r[0] !in r[1..];
    }
  }

  /** Drained mesh: the list of a backup holds every other registered replica exactly once
   *  and nobody else, so never itself. */
  lemma DrainedMesh(steps: seq<Step>, b: int)
    requires IsRun(EMPTY, steps)
    requires var m := Exec(EMPTY, steps); Registered(m, b) && b in m.channels && m.channels[b] == []
    ensures var m := Exec(EMPTY, steps);
            && b in m.lists && DistinctIds(m.lists[b])
            && forall p :: p in m.lists[b] <==> p in m.registered && p.id != b
  {
    var m := Exec(EMPTY, steps);
    RunKeepsInv(EMPTY, steps);
    assert Covers(m, b);
    assert multiset(m.lists[b]) == multiset(Others(m.registered, b));
    OthersMembers(m.registered, b);
    OthersDistinct(m.registered, b);
    PermutationDistinct(m.lists[b], Others(m.registered, b));
    forall p ensures p in m.lists[b] <==> p in m.registered && p.id != b {
      assert p in m.lists[b] <==> p in multiset(m.lists[b]);
      assert p in Others(m.registered, b) <==> p in multiset(Others(m.registered, b));
    }
  }

  // ------------------------------------------------------------------ failover

  function Ids(q: seq<Peer>): (r: seq<int>)
    ensures |r| == |q| && forall i :: 0 <= i < |r| ==> r[i] == q[i].id
  {
    seq(|q|, i requires 0 <= i < |q| => q[i].id)
  }

  /** The backups of a mesh when the manager has died: some are live, and the answer flags
   *  may be anything. */
  ghost function Orphaned(m: Mesh, live: set<int>, flags: map<int, bool>): Election.Cluster
    requires m.lists.Keys == flags.Keys
  {
    Election.Cluster(
      map b | b in m.lists :: Election.Node(Election.Backup, false, flags[b], false, Ids(m.lists[b])),
      live, [], [])
  }

  ghost predicate Quiet(m: Mesh) {
    forall b :: b in m.channels ==> m.channels[b] == []
  }

  lemma MeshStartsPhase(steps: seq<Step>, live: set<int>, flags: map<int, bool>)
    requires IsRun(EMPTY, steps) && Quiet(Exec(EMPTY, steps))
    requires live <= Exec(EMPTY, steps).lists.Keys == flags.Keys
    ensures Election.PhaseStart(Orphaned(Exec(EMPTY, steps), live, flags))
  {
    var m := Exec(EMPTY, steps);
    var c := Orphaned(m, live, flags);
    RunKeepsInv(EMPTY, steps);
    forall s, t | s in c.live && t in c.live && s != t ensures t in c.nodes[s].peers {
      assert Registered(m, s) && Registered(m, t);
      DrainedMesh(steps, s);
      var i :| 0 <= i < |m.registered| && m.registered[i].id == t;
      assert m.registered[i] in m.lists[s];
      var k :| 0 <= k < |m.lists[s]| && m.lists[s][k] == m.registered[i];
      assert Ids(m.lists[s])[k] == t;
    }
  }

  /** Failover: replicas join in any order, their announcements drain, the manager dies and
   *  any subset of the backups survives.  Whatever election steps follow, at most one of
   *  the survivors makes itself manager, and it is the one with the highest id. */
  lemma FailoverElectsTheHighest(steps: seq<Step>, live: set<int>, flags: map<int, bool>,
                                 moves: seq<Election.Step>, s: int, t: int)
    requires IsRun(EMPTY, steps) && Quiet(Exec(EMPTY, steps))
    requires live <= Exec(EMPTY, steps).lists.Keys == flags.Keys
    requires var c := Orphaned(Exec(EMPTY, steps), live, flags);
             && Election.IsRun(c, moves) && Election.NoOverlapBelow(c, moves)
             && s in Election.Exec(c, moves).live && t in Election.Exec(c, moves).live
             && s in Election.Exec(c, moves).nodes && Election.Exec(c, moves).nodes[s].mode == Election.BackupManager
    ensures t <= s
  {
    MeshStartsPhase(steps, live, flags);
    Election.Agreement(Orphaned(Exec(EMPTY, steps), live, flags), moves, s, t);
  }
}
