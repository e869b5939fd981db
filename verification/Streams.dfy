/** Reading items one after the other from a stream of bytes that may stop anywhere. */
module Streams {
  import opened Bytes
  import opened Seqs

  /** Takes the next item from the front of a stream. */
  type Reader<T> = seq<byte> -> (Option<T>, seq<byte>)

  /** n rounds of a reader. */
  function ReadN<T>(read: Reader<T>, stream: seq<byte>, n: nat): (seq<Option<T>>, seq<byte>)
    decreases n
  {
    if n == 0 then ([], stream)
    else
      var (item, rest) := read(stream);
      var (more, end) := ReadN(read, rest, n - 1);
      ([item] + more, end)
  }

  /** The items among what a reader found. */
  function Decoded<T>(found: seq<Option<T>>): seq<T> {
    if found == [] then []
    else (if found[0].Some? then [found[0].value] else []) + Decoded(found[1..])
  }

  function AsSeq<T>(item: Option<T>): seq<T> {
    if item.None? then [] else [item.value]
  }

  function Concat(blocks: seq<seq<byte>>): seq<byte> {
    if blocks == [] then [] else blocks[0] + Concat(blocks[1..])
  }

  /** How many blocks lie within the first `cut` bytes. */
  function WholeBlocks(blocks: seq<seq<byte>>, cut: nat): (n: nat)
    ensures n <= |blocks|
  {
    if blocks == [] || cut < |blocks[0]| then 0 else 1 + WholeBlocks(blocks[1..], cut - |blocks[0]|)
  }

  /** And how many bytes of the next one. */
  function Leftover(blocks: seq<seq<byte>>, cut: nat): (r: nat)
    ensures WholeBlocks(blocks, cut) < |blocks| ==> r < |blocks[WholeBlocks(blocks, cut)]|
  {
    if blocks == [] || cut < |blocks[0]| then cut else Leftover(blocks[1..], cut - |blocks[0]|)
  }

  /** A reader finds an item in its block, whatever follows, and of part of the block makes
   *  what `part` says. */
  ghost predicate Finds<T>(read: Reader<T>, block: seq<byte>, item: T, part: (T, nat) -> Option<T>) {
    && (forall rest :: read(block + rest) == (Some(item), rest))
    && (forall c :: 0 <= c < |block| ==> read(block[..c]) == (part(item, c), []))
  }

  lemma FirstDecoded<T>(item: Option<T>, more: seq<Option<T>>)
    ensures Decoded([item] + more) == AsSeq(item) + Decoded(more)
  {
    assert ([item] + more)[1..] == more;
  }

  lemma {:induction false} NothingDecoded<T>(read: Reader<T>, n: nat)
    requires read([]) == (None, [])
    ensures Decoded(ReadN(read, [], n).0) == []
    decreases n
  {
    if n > 0 {
      NothingDecoded(read, n - 1);
      FirstDecoded(None, ReadN(read, [], n - 1).0);
    }
  }

  lemma OneDecoded<T>(read: Reader<T>, stream: seq<byte>, n: nat, item: Option<T>, rest: seq<byte>)
    requires read(stream) == (item, rest) && n > 0
    ensures Decoded(ReadN(read, stream, n).0) == AsSeq(item) + Decoded(ReadN(read, rest, n - 1).0)
  {
    FirstDecoded(item, ReadN(read, rest, n - 1).0);
  }

  /** What is left of the item that the cut goes through. */
  function PartLeft<T>(items: seq<T>, part: (T, nat) -> Option<T>, n: nat, r: nat): Option<T> {
    if n < |items| then part(items[n], r) else None
  }

  lemma CutInside(a: seq<byte>, b: seq<byte>, r: nat)
    requires r <= |a|
    ensures (a + b)[..r] == a[..r]
  {
  }

  lemma CutBeyond(a: seq<byte>, b: seq<byte>, r: nat)
    requires |a| <= r <= |a| + |b|
    ensures (a + b)[..r] == a + b[..r - |a|]
  {
  }

  lemma ReadCutHere<T>(read: Reader<T>, item: T, head: seq<byte>, later: seq<byte>,
                       part: (T, nat) -> Option<T>, cut: nat, n: nat)
    requires Finds(read, head, item, part) && read([]) == (None, []) && cut < |head| && n > 0
    ensures Decoded(ReadN(read, (head + later)[..cut], n).0) == AsSeq(part(item, cut))
  {
    CutInside(head, later, cut);
    OneDecoded(read, head[..cut], n, part(item, cut), []);
    NothingDecoded(read, n - 1);
  }

  lemma ReadCutLater<T>(read: Reader<T>, item: T, head: seq<byte>, later: seq<byte>,
                        part: (T, nat) -> Option<T>, cut: nat, n: nat)
    requires Finds(read, head, item, part) && |head| <= cut <= |head| + |later| && n > 0
    ensures Decoded(ReadN(read, (head + later)[..cut], n).0)
            == [item] + Decoded(ReadN(read, later[..cut - |head|], n - 1).0)
  {
    CutBeyond(head, later, cut);
    OneDecoded(read, head + later[..cut - |head|], n, Some(item), later[..cut - |head|]);
  }

  /** What the first `cut` bytes of the blocks hold. */
  function FoundIn<T>(items: seq<T>, blocks: seq<seq<byte>>, part: (T, nat) -> Option<T>, cut: nat): seq<T>
    requires |items| == |blocks|
  {
    var whole := WholeBlocks(blocks, cut);
    items[..whole] + AsSeq(PartLeft(items, part, whole, Leftover(blocks, cut)))
  }

  lemma FoundInFirst<T>(items: seq<T>, blocks: seq<seq<byte>>, part: (T, nat) -> Option<T>, cut: nat)
    requires |items| == |blocks| && items != []
    ensures cut < |blocks[0]| ==> FoundIn(items, blocks, part, cut) == AsSeq(part(items[0], cut))
    ensures cut >= |blocks[0]| ==>
              FoundIn(items, blocks, part, cut)
              == [items[0]] + FoundIn(items[1..], blocks[1..], part, cut - |blocks[0]|)
  {
    if cut >= |blocks[0]| {
      var whole, r := WholeBlocks(blocks[1..], cut - |blocks[0]|), Leftover(blocks, cut);
      assert items[..whole + 1] == [items[0]] + items[1..][..whole];
      assert PartLeft(items, part, whole + 1, r) == PartLeft(items[1..], part, whole, r);
    }
  }

  /** The first `cut` bytes of a stream give the items whose blocks lie within them, and what
   *  is left of the one the cut goes through. */
  lemma {:induction false} ReadCut<T>(read: Reader<T>, items: seq<T>, blocks: seq<seq<byte>>,
                                      part: (T, nat) -> Option<T>, cut: nat, n: nat)
    requires |items| == |blocks| && n >= |items| && cut <= |Concat(blocks)| && read([]) == (None, [])
    requires forall k :: 0 <= k < |items| ==> Finds(read, blocks[k], items[k], part)
    ensures Decoded(ReadN(read, Concat(blocks)[..cut], n).0) == FoundIn(items, blocks, part, cut)
    decreases |items|
  {
    if items == [] {
      NothingDecoded(read, n);
    } else {
      assert Finds(read, blocks[0], items[0], part);
      FoundInFirst(items, blocks, part, cut);
      if cut < |blocks[0]| {
        ReadCutHere(read, items[0], blocks[0], Concat(blocks[1..]), part, cut, n);
      } else {
        ReadCutLater(read, items[0], blocks[0], Concat(blocks[1..]), part, cut, n);
        ReadCut(read, items[1..], blocks[1..], part, cut - |blocks[0]|, n - 1);
      }
    }
  }
}
