/** The linked list of replicas (src/server/replica.c), pruned while it is traversed. */
module ReplicaList {
  import opened Seqs
  import opened ServerCommon

  /** The value of a list node. */
  datatype Replica = Replica(id: int, socketfd: int, listenerPort: int, address: Address)

  /** What `send_packet` reports; any other failure leaves the replica in the list. */
  datatype SendResult = SocketClosed | Ok | Failed

  class ReplicaNode {
    const replica: Replica
    var next: ReplicaNode?

    constructor (replica: Replica, next: ReplicaNode?)
      ensures this.replica == replica && this.next == next
    {
      this.replica := replica;
      this.next := next;
    }
  }

  function Values(nodes: seq<ReplicaNode>): (r: seq<Replica>)
    ensures |r| == |nodes|
    ensures forall i :: 0 <= i < |r| ==> r[i] == nodes[i].replica
  {
    seq(|nodes|, i requires 0 <= i < |nodes| => nodes[i].replica)
  }

  /** The node at position i, or null past either end: what the pointers hold. */
  ghost function At(nodes: seq<ReplicaNode>, i: int): ReplicaNode? {
    if 0 <= i < |nodes| then nodes[i] else null
  }

  lemma ValuesRemoveAt(nodes: seq<ReplicaNode>, i: nat)
    requires i < |nodes|
    ensures Values(RemoveAt(nodes, i)) == RemoveAt(Values(nodes), i)
    ensures DistinctSockets(Values(nodes)) ==> DistinctSockets(RemoveAt(Values(nodes), i))
    ensures forall n :: n in RemoveAt(nodes, i) ==> n in nodes
  {
  }

  ghost predicate DistinctSockets(q: seq<Replica>) {
    forall i, j :: 0 <= i < j < |q| ==> q[i].socketfd != q[j].socketfd
  }

  /** The replicas a broadcast keeps: all but those whose send found the socket closed. */
  function Prune(q: seq<Replica>, outcome: int -> SendResult): seq<Replica> {
    if q == [] then []
    else if outcome(q[0].socketfd) == SocketClosed then Prune(q[1..], outcome)
    else [q[0]] + Prune(q[1..], outcome)
  }

  function CountOf(q: seq<Replica>, outcome: int -> SendResult, what: SendResult): nat {
    if q == [] then 0
    else (if outcome(q[0].socketfd) == what then 1 else 0) + CountOf(q[1..], outcome, what)
  }

  /** Exactly the replicas with a closed socket are gone. */
  lemma {:induction false} PruneMembers(q: seq<Replica>, outcome: int -> SendResult)
    ensures forall x :: x in Prune(q, outcome) <==> x in q && outcome(x.socketfd) != SocketClosed
    ensures |Prune(q, outcome)| == |q| - CountOf(q, outcome, SocketClosed)
  {
    if q != [] {
      PruneMembers(q[1..], outcome);
    }
  }

  lemma {:induction false} PruneConcat(a: seq<Replica>, b: seq<Replica>, outcome: int -> SendResult)
    ensures Prune(a + b, outcome) == Prune(a, outcome) + Prune(b, outcome)
    ensures forall w :: CountOf(a + b, outcome, w) == CountOf(a, outcome, w) + CountOf(b, outcome, w)
  {
    if a == [] {
      assert a + b == b;
    } else {
      assert (a + b)[1..] == a[1..] + b;
      PruneConcat(a[1..], b, outcome);
    }
  }

  /** The positions whose send had that outcome. */
  function Positions(q: seq<Replica>, outcome: int -> SendResult, what: SendResult): set<nat> {
    set i: nat | i < |q| && outcome(q[i].socketfd) == what
  }

  lemma PositionsSnoc(q: seq<Replica>, x: Replica, outcome: int -> SendResult, what: SendResult)
    ensures Positions(q + [x], outcome, what)
            == Positions(q, outcome, what) + if outcome(x.socketfd) == what then {|q|} else {}
  {
  }

  lemma CountOfOne(x: Replica, outcome: int -> SendResult, what: SendResult)
    ensures CountOf([x], outcome, what) == if outcome(x.socketfd) == what then 1 else 0
  {
    assert [x][1..] == [];
    assert CountOf([], outcome, what) == 0;
  }

  lemma {:induction false} CountOfIsSize(q: seq<Replica>, outcome: int -> SendResult, what: SendResult)
    ensures CountOf(q, outcome, what) == |Positions(q, outcome, what)|
  {
    if q == [] {
      assert Positions(q, outcome, what) == {};
    } else {
      var front, x := q[..|q| - 1], q[|q| - 1];
      assert q == front + [x];
      PruneConcat(front, [x], outcome);
      CountOfOne(x, outcome, what);
      CountOfIsSize(front, outcome, what);
      PositionsSnoc(front, x, outcome, what);
    }
  }

  /** The positions of the survivors from position `from` on. */
  function Kept(q: seq<Replica>, outcome: int -> SendResult, from: nat): seq<nat>
    requires from <= |q|
    decreases |q| - from
  {
    if from == |q| then []
    else (if outcome(q[from].socketfd) == SocketClosed then [] else [from]) + Kept(q, outcome, from + 1)
  }

  /** r consists of the elements of q at the positions `at`, which rise from `from` on. */
  ghost predicate Selected(q: seq<Replica>, from: nat, at: seq<nat>, r: seq<Replica>) {
    && |at| == |r|
    && (forall k :: 0 <= k < |at| ==> from <= at[k] < |q| && q[at[k]] == r[k])
    && (forall k, l :: 0 <= k < l < |at| ==> at[k] < at[l])
  }

  lemma SelectFirst(q: seq<Replica>, from: nat, at: seq<nat>, r: seq<Replica>)
    requires from < |q| && Selected(q, from + 1, at, r)
    ensures Selected(q, from, at, r) && Selected(q, from, [from] + at, [q[from]] + r)
  {
  }

  /** Pruning keeps the order: the survivors sit at rising positions of the old list. */
  lemma {:induction false} PruneKeepsOrder(q: seq<Replica>, outcome: int -> SendResult, from: nat)
    requires from <= |q|
    ensures Selected(q, from, Kept(q, outcome, from), Prune(q[from..], outcome))
    decreases |q| - from
  {
    if from < |q| {
      PruneKeepsOrder(q, outcome, from + 1);
      assert q[from..][1..] == q[from + 1..];
      SelectFirst(q, from, Kept(q, outcome, from + 1), Prune(q[from + 1..], outcome));
    }
  }

  lemma {:induction false} PruneKeepsSockets(q: seq<Replica>, outcome: int -> SendResult)
    requires DistinctSockets(q)
    ensures DistinctSockets(Prune(q, outcome))
  {
    if q != [] {
      PruneKeepsSockets(q[1..], outcome);
      PruneMembers(q[1..], outcome);
    }
  }

  /** The list when the pass has handled the first k replicas. */
  function Partly(all: seq<Replica>, k: nat, outcome: int -> SendResult): seq<Replica>
    requires k <= |all|
  {
    Prune(all[..k], outcome) + all[k..]
  }

  lemma PassDone(all: seq<Replica>, k: nat, outcome: int -> SendResult)
    requires k <= |all| && |Partly(all, k, outcome)| == |Prune(all[..k], outcome)|
    ensures all[..k] == all && Partly(all, k, outcome) == Prune(all, outcome)
  {
  }

  /** One more replica handled by the pass. */
  lemma PruneNext(all: seq<Replica>, k: nat, outcome: int -> SendResult)
    requires k < |all|
    ensures var code := outcome(all[k].socketfd);
            && Prune(all[..k + 1], outcome)
               == Prune(all[..k], outcome) + (if code == SocketClosed then [] else [all[k]])
            && CountOf(all[..k + 1], outcome, Ok) == CountOf(all[..k], outcome, Ok) + if code == Ok then 1 else 0
  {
    assert all[..k + 1] == all[..k] + [all[k]];
    PruneConcat(all[..k], [all[k]], outcome);
    assert [all[k]][1..] == [];
    assert CountOf([all[k]], outcome, Ok) == if outcome(all[k].socketfd) == Ok then 1 else 0;
  }

  /** n sends of the first k have succeeded. */
  ghost predicate Counted(all: seq<Replica>, k: nat, outcome: int -> SendResult, n: nat) {
    k <= |all| && n == CountOf(all[..k], outcome, Ok)
  }

  lemma CountStep(all: seq<Replica>, k: nat, outcome: int -> SendResult, n: nat, sent: bool)
    requires k < |all| && Counted(all, k, outcome, n) && (sent <==> outcome(all[k].socketfd) == Ok)
    ensures Counted(all, k + 1, outcome, if sent then n + 1 else n)
  {
    PruneNext(all, k, outcome);
  }

  lemma PassStep(all: seq<Replica>, k: nat, outcome: int -> SendResult)
    requires k < |all|
    ensures var i, code := |Prune(all[..k], outcome)|, outcome(all[k].socketfd);
            && Partly(all, k, outcome)[i] == all[k]
            && |Prune(all[..k + 1], outcome)| == (if code == SocketClosed then i else i + 1)
            && Partly(all, k + 1, outcome)
               == if code == SocketClosed then RemoveAt(Partly(all, k, outcome), i) else Partly(all, k, outcome)
  {
    PruneNext(all, k, outcome);
    assert all[k..] == [all[k]] + all[k + 1..];
  }

  /** The list without the first replica of that id. */
  function WithoutId(q: seq<Replica>, id: int): seq<Replica> {
    if q == [] then [] else if q[0].id == id then q[1..] else [q[0]] + WithoutId(q[1..], id)
  }

  predicate HasId(q: seq<Replica>, id: int) {
    exists i :: 0 <= i < |q| && q[i].id == id
  }

  lemma {:induction false} WithoutIdAt(q: seq<Replica>, id: int, i: nat)
    requires i < |q| && q[i].id == id && forall k :: 0 <= k < i ==> q[k].id != id
    ensures WithoutId(q, id) == RemoveAt(q, i)
  {
    if i > 0 { WithoutIdAt(q[1..], id, i - 1); }
  }

  lemma {:induction false} WithoutIdAbsent(q: seq<Replica>, id: int)
    requires !HasId(q, id)
    ensures WithoutId(q, id) == q
  {
    if q != [] {
      forall i | 0 <= i < |q| - 1 ensures q[1..][i].id != id { assert q[i + 1].id != id; }
      WithoutIdAbsent(q[1..], id);
    }
  }

  class ReplicaList {
    var head: ReplicaNode?
    var replicaCount: int
    ghost var spine: seq<ReplicaNode>
    ghost var Repr: set<ReplicaNode>

    ghost predicate Linked()
      reads this, Repr
    {
      && Distinct(spine)
      && (forall i {:trigger spine[i]} :: 0 <= i < |spine| ==> spine[i] in Repr)
      && head == At(spine, 0)
      && forall i {:trigger spine[i].next} :: 0 <= i < |spine| ==> spine[i].next == At(spine, i + 1)
    }

    ghost predicate Valid()
      reads this, Repr
    {
      Linked() && replicaCount == |spine| && DistinctSockets(Contents())
    }

    ghost function Contents(): seq<Replica>
      reads this
    {
      Values(spine)
    }

    constructor ()
      ensures Valid() && Contents() == [] && Repr == {}
    {
      head, replicaCount, spine, Repr := null, 0, [], {};
    }

    /** `find_node`: some node of the list has that socket. */
    method FindNode(socketfd: int) returns (found: bool)
      requires Valid()
      ensures found <==> exists r :: r in Contents() && r.socketfd == socketfd
    {
      var current := head;
      ghost var i := 0;
      while current != null
        invariant 0 <= i <= |spine| && current == At(spine, i)
        invariant forall k :: 0 <= k < i ==> spine[k].replica.socketfd != socketfd
        decreases |spine| - i
      {
        if current.replica.socketfd == socketfd {
          assert Contents()[i].socketfd == socketfd;
          return true;
        }
        current := current.next;
        i := i + 1;
      }
      return false;
    }

    /** `add_replica`: a new replica goes to the front, a known socket is refused. */
    method AddReplica(r: Replica) returns (added: bool)
      requires Valid()
      modifies this
      ensures Valid()
      ensures added <==> forall x :: x in old(Contents()) ==> x.socketfd != r.socketfd
      ensures Contents() == if added then [r] + old(Contents()) else old(Contents())
      ensures fresh(Repr - old(Repr))
    {
      var found := FindNode(r.socketfd);
      if found {
        return false;
      }
      var node := new ReplicaNode(r, head);
      assert node !in Repr;
      head := node;
      Repr := Repr + {node};
      spine := [node] + spine;
      replicaCount := replicaCount + 1;
      Prepended(node);
      return true;
    }

    twostate lemma Prepended(new node: ReplicaNode)
      requires old(Valid()) && node !in old(Repr) && unchanged(old(Repr))
      requires spine == [node] + old(spine) && Repr == old(Repr) + {node} && head == node
      requires node.next == old(head) && replicaCount == old(replicaCount) + 1
      requires forall x :: x in old(Contents()) ==> x.socketfd != node.replica.socketfd
      ensures Valid() && Contents() == [node.replica] + old(Contents())
    {
      forall i | 1 <= i < |spine| ensures spine[i].next == At(spine, i + 1) {
        assert spine[i] == old(spine)[i - 1] && At(spine, i + 1) == At(old(spine), i);
      }
      assert Contents() == [node.replica] + old(Contents());
    }

    /** `replica_list_remove_node`: unlink the node after `prev` and return its successor. */
    method RemoveNode(prev: ReplicaNode?, node: ReplicaNode, ghost i: nat) returns (next: ReplicaNode?)
      requires Valid() && i < |spine| && spine[i] == node
      requires prev == At(spine, i - 1)
      modifies this, Repr
      ensures Repr == old(Repr)
      ensures Valid() && spine == RemoveAt(old(spine), i)
      ensures Contents() == RemoveAt(old(Contents()), i)
      ensures next == At(spine, i) && prev == At(spine, i - 1)
    {
      if prev == null {
        head := node.next;
      } else {
        prev.next := node.next;
      }
      replicaCount := replicaCount - 1;
      spine := RemoveAt(spine, i);
      ValuesRemoveAt(old(spine), i);
      Relinked(i);
      next := if prev == null then head else prev.next;
    }

    /** Skipping node i keeps the rest of the chain linked. */
    twostate lemma Relinked(i: nat)
      requires Repr == old(Repr)
      requires old(Linked()) && i < |old(spine)| && spine == RemoveAt(old(spine), i)
      requires head == if i == 0 then At(old(spine), 1) else old(head)
      requires forall j :: 0 <= j < |old(spine)| && j != i - 1 ==> old(spine)[j].next == old(spine[j].next)
      requires i > 0 ==> old(spine)[i - 1].next == At(old(spine), i + 1)
      ensures Linked()
    {
      forall j | 0 <= j < |spine| ensures spine[j].next == At(spine, j + 1) {
        var j' := if j < i then j else j + 1;
        assert spine[j] == old(spine)[j'];
        assert old(spine[j'].next) == At(old(spine), j' + 1);
      }
    }

    /** `remove_replica_by_id`: the first replica of that id leaves the list. */
    method RemoveReplicaById(id: int) returns (removed: bool)
      requires Valid()
      modifies this, Repr
      ensures Repr == old(Repr)
      ensures Valid()
      ensures removed <==> HasId(old(Contents()), id)
      ensures Contents() == WithoutId(old(Contents()), id)
      ensures !removed ==> Contents() == old(Contents())
      ensures removed ==>
                exists i :: 0 <= i < |old(Contents())| && old(Contents())[i].id == id
                            && (forall k :: 0 <= k < i ==> old(Contents())[k].id != id)
                            && Contents() == RemoveAt(old(Contents()), i)
    {
      var current, prev := head, null;
      ghost var i := 0;
      while current != null
        invariant Valid() && spine == old(spine) && Repr == old(Repr) && 0 <= i <= |spine|
        invariant current == At(spine, i)
        invariant prev == At(spine, i - 1)
        invariant forall k :: 0 <= k < i ==> Contents()[k].id != id
        decreases |spine| - i
      {
        if current.replica.id == id {
          assert Contents()[i].id == id;
          WithoutIdAt(Contents(), id, i);
          var _ := RemoveNode(prev, current, i);
          return true;
        }
        prev := current;
        current := current.next;
        i := i + 1;
      }
      WithoutIdAbsent(Contents(), id);
      return false;
    }

    /** The pass has handled k of the replicas of `all` and stands at `current`. */
    ghost predicate Standing(all: seq<Replica>, k: nat, outcome: int -> SendResult,
                             prev: ReplicaNode?, current: ReplicaNode?)
      reads this, Repr
    {
      && Valid() && k <= |all|
      && Contents() == Partly(all, k, outcome)
      && prev == At(spine, |Prune(all[..k], outcome)| - 1)
      && current == At(spine, |Prune(all[..k], outcome)|)
    }

    lemma PassStarts(outcome: int -> SendResult)
      requires Valid()
      ensures Standing(Contents(), 0, outcome, null, head) && Counted(Contents(), 0, outcome, 0)
    {
    }

    lemma PassEnds(all: seq<Replica>, k: nat, outcome: int -> SendResult, prev: ReplicaNode?, notified: nat)
      requires Standing(all, k, outcome, prev, null) && Counted(all, k, outcome, notified)
      ensures Contents() == Prune(all, outcome) && notified == CountOf(all, outcome, Ok)
      ensures replicaCount == |all| - CountOf(all, outcome, SocketClosed)
    {
      PassDone(all, k, outcome);
      PruneMembers(all, outcome);
    }

    lemma Keep(all: seq<Replica>, k: nat, outcome: int -> SendResult, prev: ReplicaNode?, current: ReplicaNode)
      requires Standing(all, k, outcome, prev, current) && outcome(current.replica.socketfd) != SocketClosed
      ensures k < |all| && current.replica == all[k]
      ensures Standing(all, k + 1, outcome, current, current.next)
    {
      PassStep(all, k, outcome);
    }

    /** The loop body of `notify_replicas`: after a send the pass moves on, except that the
     *  node of a closed socket is unlinked and `prev` stays. */
    method HandleOne(ghost all: seq<Replica>, ghost k: nat, outcome: int -> SendResult,
                     prev: ReplicaNode?, current: ReplicaNode, notified: nat)
      returns (prev': ReplicaNode?, next: ReplicaNode?, notified': nat)
      requires Standing(all, k, outcome, prev, current) && Counted(all, k, outcome, notified)
      modifies this, Repr
      ensures Repr == old(Repr) && k < |all|
      ensures Standing(all, k + 1, outcome, prev', next) && Counted(all, k + 1, outcome, notified')
    {
      PassStep(all, k, outcome);
      var code := outcome(current.replica.socketfd);
      CountStep(all, k, outcome, notified, code == Ok);
      if code == SocketClosed {
        next := RemoveNode(prev, current, |Prune(all[..k], outcome)|);
        prev' := prev;
      } else {
        Keep(all, k, outcome, prev, current);
        prev', next := current, current.next;
      }
      notified' := if code == Ok then notified + 1 else notified;
    }

    /** `notify_replicas`: one pass sends to every replica, unlinks those whose socket is
     *  closed and counts the successful sends.  `outcome` is what the network answers. */
    method NotifyReplicas(outcome: int -> SendResult) returns (notified: nat)
      requires Valid()
      modifies this, Repr
      ensures Repr == old(Repr)
      ensures Valid()
      ensures Contents() == Prune(old(Contents()), outcome)
      ensures notified == |Positions(old(Contents()), outcome, Ok)|
      ensures replicaCount == old(replicaCount) - |Positions(old(Contents()), outcome, SocketClosed)|
    {
      CountOfIsSize(Contents(), outcome, Ok);
      CountOfIsSize(Contents(), outcome, SocketClosed);
      notified := 0;
      var current, prev := head, null;
      ghost var all, k := Contents(), 0;
      PassStarts(outcome);
      while current != null
        invariant Repr == old(Repr)
        invariant Standing(all, k, outcome, prev, current)
        invariant Counted(all, k, outcome, notified)
        decreases |all| - k
      {
        prev, current, notified := HandleOne(all, k, outcome, prev, current, notified);
        k := k + 1;
      }
      PassEnds(all, k, outcome, prev, notified);
    }
  }
}
