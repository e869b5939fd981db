/** The chained hash table from user names to contexts (src/util/contextHashTable.c), with
 *  the walk along a chain ending at its end, as it is meant to. */
module ContextTable {
  import opened Bytes
  import opened UserContext
  import opened UserState

  // ------------------------------------------------------------------ the hash

  const PRIME_HASH := 131
  /** One more than the largest `size_t`. */
  const SIZE_LIMIT := 0x1_0000_0000_0000_0000
  const TABLE_SIZE := 30

  /** A `char` is signed. */
  function Char(b: byte): int {
    if b < 128 then b else b - 256
  }

  /** One round of the loop: the sum is formed in a `size_t`, a negative character wraps. */
  function HashStep(hash: nat, b: byte, modulo: nat): nat
    requires modulo > 0
  {
    (PRIME_HASH * hash + Char(b)) % SIZE_LIMIT % modulo
  }

  function HashFrom(hash: nat, key: seq<byte>, modulo: nat): nat
    requires modulo > 0
    decreases |key|
  {
    if key == [] then hash else HashFrom(HashStep(hash, key[0], modulo), key[1..], modulo)
  }

  function Hash(key: seq<byte>, modulo: nat): (h: nat)
    requires modulo > 0
    ensures h < modulo
  {
    HashBound(0, key, modulo);
    HashFrom(0, key, modulo)
  }

  lemma {:induction false} HashBound(hash: nat, key: seq<byte>, modulo: nat)
    requires modulo > 0 && hash < modulo
    ensures HashFrom(hash, key, modulo) < modulo
    decreases |key|
  {
    if key != [] { HashBound(HashStep(hash, key[0], modulo), key[1..], modulo); }
  }

  lemma {:induction false} HashSnoc(hash: nat, key: seq<byte>, b: byte, modulo: nat)
    requires modulo > 0
    ensures HashFrom(hash, key + [b], modulo) == HashStep(HashFrom(hash, key, modulo), b, modulo)
    decreases |key|
  {
    if key == [] {
      assert [b][1..] == [];
    } else {
      assert (key + [b])[1..] == key[1..] + [b];
      HashSnoc(HashStep(hash, key[0], modulo), key[1..], b, modulo);
    }
  }

  /** `keyHash`. */
  method KeyHash(key: CString, modulo: nat) returns (hash: nat)
    requires modulo > 0
    ensures hash == Hash(key, modulo)
  {
    hash := 0;
    for i := 0 to |key|
      invariant hash == HashFrom(0, key[..i], modulo)
    {
      HashSnoc(0, key[..i], key[i], modulo);
      assert key[..i + 1] == key[..i] + [key[i]];
      hash := (PRIME_HASH * hash + Char(key[i])) % SIZE_LIMIT % modulo;
    }
    assert key[..|key|] == key;
  }

  function Pow131(n: nat): nat {
    if n == 0 then 1 else PRIME_HASH * Pow131(n - 1)
  }

  /** The key as a number in base 131, most significant character first. */
  function Polynomial(key: seq<byte>): int {
    if key == [] then 0 else Char(key[0]) * Pow131(|key| - 1) + Polynomial(key[1..])
  }

  /** Whether a round of the loop goes below zero and wraps. */
  function Wrap(hash: nat, b: byte): nat {
    if PRIME_HASH * hash + Char(b) < 0 then 1 else 0
  }

  /** The wraps of a run of the loop, each weighted by what follows it. */
  function Wraps(hash: nat, key: seq<byte>, modulo: nat): nat
    requires modulo > 0
    decreases |key|
  {
    if key == [] then 0
    else
      Wrap(hash, key[0]) * Pow131(|key| - 1)
      + Wraps(HashStep(hash, key[0], modulo), key[1..], modulo)
  }

  lemma Multiple(d: int, m: nat)
    ensures d >= 1 ==> d * m >= m
    ensures d <= -1 ==> d * m + m <= 0
  {
  }

  lemma ModUnique(x: int, m: nat, q: int, r: nat)
    requires r < m && x == q * m + r
    ensures x % m == r
  {
    assert (x / m - q) * m == r - x % m;
    Multiple(x / m - q, m);
  }

  lemma ModShift(a: int, k: int, m: nat)
    requires m > 0
    ensures (a + k * m) % m == a % m
  {
    assert a + k * m == (a / m + k) * m + a % m;
    ModUnique(a + k * m, m, a / m + k, a % m);
  }

  /** What fits the table size: no round of the loop exceeds a `size_t`. */
  predicate Moderate(modulo: nat) {
    modulo > 0 && PRIME_HASH * modulo <= SIZE_LIMIT
  }

  /** One round, with its wrap written out. */
  lemma StepWraps(hash: nat, b: byte, modulo: nat)
    requires Moderate(modulo) && hash < modulo
    ensures var sum := PRIME_HASH * hash + Char(b);
            HashStep(hash, b, modulo) == (sum + SIZE_LIMIT * Wrap(hash, b)) % modulo
  {
  }

  /** The remaining p-fold places of a round, when the register is reduced by q moduli. */
  lemma Reduced(p: int, sum: int, step: int, q: int, m: nat, rest: int)
    requires m > 0 && sum == step + q * m
    ensures (p * sum + rest) % m == (step * p + rest) % m
  {
    assert p * sum + rest == step * p + rest + q * p * m by {
      assert p * sum == p * step + p * (q * m);
    }
    ModShift(step * p + rest, q * p, m);
  }

  lemma Gather(hash: int, c: int, w: int, p: int, polynomial: int, wraps: int)
    ensures hash * (PRIME_HASH * p) + (c * p + polynomial) + SIZE_LIMIT * (w * p + wraps)
            == p * (PRIME_HASH * hash + c + SIZE_LIMIT * w) + (polynomial + SIZE_LIMIT * wraps)
  {
    assert hash * (PRIME_HASH * p) == p * (PRIME_HASH * hash);
    assert SIZE_LIMIT * (w * p) == p * (SIZE_LIMIT * w);
  }

  /** Horner hashing with a modulo in every round, against the polynomial: for every key they
   *  differ by the wraps of negative characters and by nothing else. */
  lemma {:induction false} HashIsPolynomialWithWraps(hash: nat, key: seq<byte>, modulo: nat)
    requires Moderate(modulo) && hash < modulo
    ensures HashFrom(hash, key, modulo)
            == (hash * Pow131(|key|) + Polynomial(key) + SIZE_LIMIT * Wraps(hash, key, modulo)) % modulo
    decreases |key|
  {
    if key == [] {
      ModUnique(hash, modulo, 0, hash);
    } else {
      var step, p, w := HashStep(hash, key[0], modulo), Pow131(|key| - 1), Wrap(hash, key[0]);
      StepWraps(hash, key[0], modulo);
      HashIsPolynomialWithWraps(step, key[1..], modulo);
      OneRound(hash, Char(key[0]), w, p, Polynomial(key[1..]), Wraps(step, key[1..], modulo), step, modulo);
      FirstRound(hash, key, modulo);
    }
  }

  lemma FirstRound(hash: nat, key: seq<byte>, modulo: nat)
    requires modulo > 0 && key != []
    ensures var step, p := HashStep(hash, key[0], modulo), Pow131(|key| - 1);
            && HashFrom(hash, key, modulo) == HashFrom(step, key[1..], modulo)
            && Pow131(|key|) == PRIME_HASH * p
            && Polynomial(key) == Char(key[0]) * p + Polynomial(key[1..])
            && Wraps(hash, key, modulo) == Wrap(hash, key[0]) * p + Wraps(step, key[1..], modulo)
  {
  }

  lemma OneRound(hash: int, c: int, w: int, p: int, polynomial: int, wraps: int, step: int, m: nat)
    requires m > 0 && step == (PRIME_HASH * hash + c + SIZE_LIMIT * w) % m
    ensures (step * p + polynomial + SIZE_LIMIT * wraps) % m
            == (hash * (PRIME_HASH * p) + (c * p + polynomial) + SIZE_LIMIT * (w * p + wraps)) % m
  {
    var sum := PRIME_HASH * hash + c + SIZE_LIMIT * w;
    Reduced(p, sum, step, sum / m, m, polynomial + SIZE_LIMIT * wraps);
    Gather(hash, c, w, p, polynomial, wraps);
  }

  predicate Ascii(key: seq<byte>) {
    forall i :: 0 <= i < |key| ==> key[i] < 128
  }

  lemma {:induction false} NoWraps(hash: nat, key: seq<byte>, modulo: nat)
    requires modulo > 0 && Ascii(key)
    ensures Wraps(hash, key, modulo) == 0
    decreases |key|
  {
    if key != [] { NoWraps(HashStep(hash, key[0], modulo), key[1..], modulo); }
  }

  lemma SameRemainder(a: int, b: int, m: nat)
    requires m > 0
    ensures (a + b) % m == a % m <==> b % m == 0
  {
    var q := (a + b) / m - a / m;
    if (a + b) % m == a % m {
      assert b == q * m;
      ModUnique(b, m, q, 0);
    }
    if b % m == 0 {
      assert b == b / m * m;
      ModShift(a, b / m, m);
    }
  }

  /** `keyHash`, exactly: it is the base-131 polynomial modulo the size if and only if the size
   *  divides the wraps; for ASCII keys there are none. */
  lemma HashIsPolynomial(key: seq<byte>, modulo: nat)
    requires Moderate(modulo)
    ensures Hash(key, modulo) == Polynomial(key) % modulo <==> SIZE_LIMIT * Wraps(0, key, modulo) % modulo == 0
    ensures Ascii(key) ==> Wraps(0, key, modulo) == 0 && Hash(key, modulo) == Polynomial(key) % modulo
  {
    HashIsPolynomialWithWraps(0, key, modulo);
    SameRemainder(Polynomial(key), SIZE_LIMIT * Wraps(0, key, modulo), modulo);
    if Ascii(key) {
      NoWraps(0, key, modulo);
    }
  }

  /** The polynomial begins with the first character and has base 131; characters are signed. */
  lemma PolynomialMeans(a: byte, b: byte, c: byte)
    requires a < 128 && b < 128 && 128 <= c
    ensures Polynomial([a, b]) == 131 * a + b && Polynomial([c, a]) == 131 * (c - 256) + a && Polynomial([]) == 0
  {
    assert [a, b][1..] == [b] && [b][1..] == [] && [c, a][1..] == [a] && [a][1..] == [];
    assert Pow131(0) == 1 && Pow131(1) == 131;
    assert Polynomial([b]) == b && Polynomial([a]) == a;
  }

  /** A key that starts with a character above 127 goes to another bucket. */
  lemma WrapMatters()
    ensures Hash([255], TABLE_SIZE) == 15 && Polynomial([255]) % TABLE_SIZE == 29
  {
    assert [255][1..] == [];
    assert HashStep(0, 255, TABLE_SIZE) == 15;
  }

  // ------------------------------------------------------------------ the table

  class Node {
    const key: CString
    const value: Context
    const next: Node?

    constructor (key: CString, value: Context, next: Node?)
      ensures this.key == key && this.value == value && this.next == next
    {
      this.key, this.value, this.next := key, value, next;
    }
  }

  ghost function NodeAt(chain: seq<Node>, i: nat): Node? {
    if i < |chain| then chain[i] else null
  }

  ghost predicate Linked(chain: seq<Node>) {
    forall j {:trigger chain[j].next} :: 0 <= j < |chain| ==> chain[j].next == NodeAt(chain, j + 1)
  }

  /** The value of the first node with that key. */
  ghost function Find(chain: seq<Node>, key: CString): Context? {
    if chain == [] then null else if chain[0].key == key then chain[0].value else Find(chain[1..], key)
  }

  lemma {:induction false} FindAt(chain: seq<Node>, key: CString, j: nat)
    requires j <= |chain| && (j < |chain| ==> chain[j].key == key)
    requires forall k :: 0 <= k < j ==> chain[k].key != key
    ensures Find(chain, key) == if j < |chain| then chain[j].value else null
  {
    if j > 0 { FindAt(chain[1..], key, j - 1); }
  }

  /** `LinkedList_push`. */
  method Push(list: Node?, key: CString, value: Context, ghost chain: seq<Node>) returns (head: Node)
    requires Linked(chain) && list == NodeAt(chain, 0)
    ensures Linked([head] + chain) && head.key == key && head.value == value
  {
    head := new Node(key, value, list);
  }

  /** `LinkedList_get`. */
  method Get(list: Node?, key: CString, ghost chain: seq<Node>) returns (value: Context?)
    requires Linked(chain) && list == NodeAt(chain, 0)
    ensures value == Find(chain, key)
  {
    var node := list;
    ghost var j := 0;
    while node != null
      invariant j <= |chain| && node == NodeAt(chain, j)
      invariant forall k :: 0 <= k < j ==> chain[k].key != key
      decreases |chain| - j
    {
      if node.key == key {
        FindAt(chain, key, j);
        return node.value;
      }
      node := node.next;
      j := j + 1;
    }
    FindAt(chain, key, j);
    return null;
  }

  ghost function Value(contents: map<CString, Context>, key: CString): Context? {
    if key in contents then contents[key] else null
  }

  /** Every key sits in the bucket of its hash. */
  ghost predicate Bucketed(chains: seq<seq<Node>>, size: nat)
    requires size > 0 && |chains| == size
  {
    forall i, j :: 0 <= i < size && 0 <= j < |chains[i]| ==> Hash(chains[i][j].key, size) == i
  }

  /** What the chains hold, as a map: the first node of a key decides. */
  ghost predicate Mapped(chains: seq<seq<Node>>, contents: map<CString, Context>, size: nat)
    requires size > 0 && |chains| == size
  {
    forall key: CString :: Find(chains[Hash(key, size)], key) == Value(contents, key)
  }

  /** A node pushed on the chain of its bucket updates the map at its key. */
  lemma PushMaps(chains: seq<seq<Node>>, contents: map<CString, Context>, size: nat, head: Node)
    requires size > 0 && |chains| == size && Bucketed(chains, size) && Mapped(chains, contents, size)
    ensures var i := Hash(head.key, size);
            var pushed := chains[i := [head] + chains[i]];
            Bucketed(pushed, size) && Mapped(pushed, contents[head.key := head.value], size)
  {
    var i := Hash(head.key, size);
    var pushed := chains[i := [head] + chains[i]];
    forall key: CString ensures Find(pushed[Hash(key, size)], key) == Value(contents[head.key := head.value], key) {
      assert Find(chains[Hash(key, size)], key) == Value(contents, key);
      assert ([head] + chains[i])[1..] == chains[i];
    }
  }

  class HashTable {
    const size: nat
    const buckets: array<Node?>
    ghost var chains: seq<seq<Node>>
    ghost var contents: map<CString, Context>

    /** The chains hang off their buckets and hold the map. */
    ghost predicate Valid()
      reads this, buckets
    {
      && size > 0 && buckets.Length == size && |chains| == size
      && (forall i :: 0 <= i < size ==> Linked(chains[i]) && buckets[i] == NodeAt(chains[i], 0))
      && Bucketed(chains, size) && Mapped(chains, contents, size)
    }

    /** `HashTable_create`. */
    constructor (size: nat)
      requires size > 0
      ensures Valid() && contents == map[] && this.size == size && fresh(buckets)
    {
      this.size := size;
      buckets := new Node?[size](_ => null);
      chains := seq(size, _ => []);
      contents := map[];
    }

    /** `HashTable_search`. */
    method Search(key: CString) returns (value: Context?)
      requires Valid()
      ensures value == Value(contents, key)
    {
      var index := KeyHash(key, size);
      value := Get(buckets[index], key, chains[index]);
    }

    /** `HashTable_insert`. */
    method Insert(key: CString, value: Context) returns (result: Context)
      requires Valid()
      modifies this, buckets
      ensures Valid() && result == value
      ensures contents == old(contents)[key := value]
    {
      var index := KeyHash(key, size);
      var head := Push(buckets[index], key, value, chains[index]);
      PushMaps(chains, contents, size, head);
      buckets[index] := head;
      chains := chains[index := [head] + chains[index]];
      contents := contents[key := value];
      result := head.value;
    }

    /** Different names have different contexts. */
    ghost predicate Separate()
      reads this
    {
      forall a, b :: a in contents && b in contents && a != b ==> contents[a] != contents[b]
    }

    /** `get_or_create_context`: a name keeps its context for good, a new name gets a new one,
     *  and no other name is disturbed. */
    method GetOrCreateContext(username: CString) returns (context: Context)
      requires Valid() && Separate()
      modifies this, buckets
      ensures Valid() && Separate()
      ensures username in contents && contents[username] == context
      ensures username in old(contents) ==> contents == old(contents)
      ensures username !in old(contents) ==>
                && contents == old(contents)[username := context] && fresh(context)
                && context.username == username && context.Valid() && context.View() == NEW_USER
    {
      var found := Search(username);
      if found != null {
        return found;
      }
      var created := new Context(username);
      context := Insert(username, created);
    }
  }
}
