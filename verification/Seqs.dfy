/** Sequence vocabulary shared by the other modules. */
module Seqs {

  datatype Option<+T> = None | Some(value: T)

  function RemoveAt<T>(q: seq<T>, i: nat): seq<T>
    requires i < |q|
  {
    q[..i] + q[i + 1..]
  }

  ghost predicate Distinct<T>(q: seq<T>) {
    forall i, j :: 0 <= i < j < |q| ==> q[i] != q[j]
  }

  lemma RemoveAtMembers<T>(q: seq<T>, i: nat)
    requires i < |q|
    ensures forall x :: x in q && x != q[i] ==> x in RemoveAt(q, i)
    ensures forall x :: x in RemoveAt(q, i) ==> x in q
  {
    assert q == q[..i] + [q[i]] + q[i + 1..];
  }
}
