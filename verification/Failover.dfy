/** What a backup has when the manager dies, at any byte of what it sends
 *  (src/server/serverRoles.c). */
module Failover {
  import opened Bytes
  import opened Seqs
  import opened UserState
  import opened Streams
  import opened EventStream
  import opened Replication

  // ------------------------------------------------------------------ between two items

  /** A backup that loses the manager after any number of items mirrors what the manager was
   *  after some number of its operations; only later ones are lost. */
  lemma BackupIsAnEarlierManager(ops: seq<Op>, n: nat) returns (j: nat)
    requires IsRun(map[], ops) && n <= |Stream(map[], ops)|
    ensures j <= |ops| && IsRun(map[], ops[..j]) && Stream(map[], ops[..j]) == Stream(map[], ops)[..n]
    ensures var b := ReplayAll(map[], Stream(map[], ops)[..n]);
            b.Some? && Replicates(Exec(map[], ops[..j]), b.value) && AllSound(b.value)
  {
    j := ItemsOfPrefix(map[], ops, n);
    BackupMirrorsManager(ops[..j]);
  }

  // ------------------------------------------------------------------ inside an item

  /** A file is replaced by part of what was sent for it. */
  lemma PartReplayed(b: Users, whole: Item, part: Item)
    requires ShortOf(part, whole) && ReplayAll(b, [whole]).Some?
    ensures ReplayAll(b, [part]).Some?
    ensures forall name: CString :: var u, u' := Get(b, name), Get(ReplayAll(b, [part]).value, name);
              && u'.slots == u.slots
              && u'.folder == if name == whole.user then u.folder[whole.file := part.content] else u.folder
  {
    assert [whole][1..] == [] && [part][1..] == [];
  }

  /** What a cut leaves unchanged in the folder of the manager's last state. */
  predicate Harmless(m: Users, part: Option<Item>) {
    part.Some? && part.value.Uploaded? ==>
      FileIn(Get(m, part.value.user).folder, part.value.file) == Some(part.value.content)
  }

  lemma PartMirrors(m: Users, b: Users, whole: Item, part: Item)
    requires Replicates(m, b) && ShortOf(part, whole) && ReplayAll(b, [whole]).Some?
    ensures ReplayAll(b, [part]).Some?
    ensures Replicates(m, ReplayAll(b, [part]).value) <==> Harmless(m, Some(part))
  {
    PartReplayed(b, whole, part);
    var b' := ReplayAll(b, [part]).value;
    assert Mirrors(Get(m, whole.user), Get(b, whole.user));
    if Harmless(m, Some(part)) {
      forall name: CString ensures Mirrors(Get(m, name), Get(b', name)) {
        assert Mirrors(Get(m, name), Get(b, name));
      }
    } else {
      assert Get(b', whole.user).folder[whole.file] == part.content;
      assert !Mirrors(Get(m, whole.user), Get(b', whole.user));
    }
  }

  lemma ReplayThen(a: seq<Item>, rest: seq<Item>)
    requires ReplayAll(map[], a).Some?
    ensures ReplayAll(map[], a + rest) == ReplayAll(ReplayAll(map[], a).value, rest)
  {
    ReplayAllConcat(map[], a, rest);
  }

  /** The backup could have replayed the whole of the next item. */
  lemma NextItemReplays(ops: seq<Op>, n: nat)
    requires IsRun(map[], ops) && n < |Stream(map[], ops)| && ReplayAll(map[], Stream(map[], ops)[..n]).Some?
    ensures ReplayAll(ReplayAll(map[], Stream(map[], ops)[..n]).value, [Stream(map[], ops)[n]]).Some?
  {
    var items := Stream(map[], ops);
    var _ := BackupIsAnEarlierManager(ops, n + 1);
    assert items[..n + 1] == items[..n] + [items[n]];
    ReplayThen(items[..n], [items[n]]);
  }

  lemma PartAfterWhole(m: Users, a: seq<Item>, whole: Item, part: Option<Item>)
    requires ReplayAll(map[], a).Some? && Replicates(m, ReplayAll(map[], a).value)
    requires part.Some? ==> ShortOf(part.value, whole) && ReplayAll(ReplayAll(map[], a).value, [whole]).Some?
    ensures var b := ReplayAll(map[], a + AsSeq(part));
            b.Some? && AllSound(b.value) && (Replicates(m, b.value) <==> Harmless(m, part))
  {
    ReplayThen(a, AsSeq(part));
    if part.Some? {
      PartMirrors(m, ReplayAll(map[], a).value, whole, part.value);
    }
    FreshStart();
    BackupStaysSound(map[], a + AsSeq(part));
  }

  /** A shortened file can also be what some older write left: the backup then shows a state
   *  the manager was in before, but not the one after its last whole item. */
  lemma PartMayShowAnOlderFile(u: User, name: CString, x: Content, y: Content)
    requires Mirrors(u, u) && x != y
    ensures var older := AfterSend(u, true, name, x);
            var last := AfterSend(older, true, name, y);
            var cut := AfterSend(last, true, name, x);
            Mirrors(older, cut) && !Mirrors(last, cut)
  {
    assert u.folder[name := x][name := y][name := x] == u.folder[name := x];
    assert u.folder[name := x][name := y][name] != u.folder[name := x][name];
  }

  /** Some whole items of the manager and then part of an upload. */
  lemma WholeAndPart(ops: seq<Op>, n: nat, part: Option<Item>) returns (j: nat)
    requires IsRun(map[], ops) && n <= |Stream(map[], ops)|
    requires part.Some? ==> n < |Stream(map[], ops)| && ShortOf(part.value, Stream(map[], ops)[n])
    ensures j <= |ops| && IsRun(map[], ops[..j]) && Stream(map[], ops[..j]) == Stream(map[], ops)[..n]
    ensures var b := ReplayAll(map[], Stream(map[], ops)[..n] + AsSeq(part));
            && b.Some? && AllSound(b.value)
            && (Replicates(Exec(map[], ops[..j]), b.value) <==> Harmless(Exec(map[], ops[..j]), part))
  {
    j := BackupIsAnEarlierManager(ops, n);
    var whole := Beat;
    if part.Some? {
      NextItemReplays(ops, n);
      whole := Stream(map[], ops)[n];
    }
    PartAfterWhole(Exec(map[], ops[..j]), Stream(map[], ops)[..n], whole, part);
  }

  /** Failover at any byte: whatever the manager has done and wherever in its stream it stops,
   *  the backup that reads what was written never follows a null session, and its index agrees
   *  with its folder.  It mirrors the manager after the operations whose items went out whole
   *  if and only if the cut is not inside the data of an upload or what arrived of that file
   *  is what it held before. */
  lemma BackupAtAnyByte(ops: seq<Op>, cut: nat) returns (j: nat)
    requires IsRun(map[], ops) && cut <= |StreamBytes(Stream(map[], ops))|
    requires forall i :: 0 <= i < |Stream(map[], ops)| ==> Carried(Stream(map[], ops)[i])
    ensures var items := Stream(map[], ops);
            j <= |ops| && IsRun(map[], ops[..j]) && Stream(map[], ops[..j]) == items[..WholeItems(items, cut)]
    ensures var items := Stream(map[], ops);
            var b := ReplayAll(map[], Decoded(TakeItems(StreamBytes(items)[..cut], |items|).0));
            && b.Some? && AllSound(b.value)
            && (Replicates(Exec(map[], ops[..j]), b.value) <==> Harmless(Exec(map[], ops[..j]), LastPart(items, cut)))
  {
    var items := Stream(map[], ops);
    var n, part := WholeItems(items, cut), LastPart(items, cut);
    CutStream(items, cut, |items|);
    if part.Some? { LastPartOf(items, cut); }
    j := WholeAndPart(ops, n, part);
  }
}
