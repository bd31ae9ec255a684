/** What a client does with iterators: remove the entry it searched for, and purge while walking. */
module Walks {
  import opened Words
  import opened Sequences
  import opened Primes
  import opened Chains
  import opened Rehash
  import opened TableModel
  import opened HashTables
  import opened HashIterators
  import opened Runs

  /** Searching with an iterator and removing there is `pet_htable_remove`. */
  method RemoveFound(iter: Iterator, table: HashTable, key: Word) returns (found: int)
    requires table.Valid()
    modifies iter, table, table.table, NodesOf(table.items)`next
    ensures table.Valid()
    ensures table.State() == CondRemove(table.cfg, old(table.State()), key, None).0
    ensures found == if Found(table.cfg, old(table.State()), key) then 1 else 0
    ensures found == 0 ==> unchanged(iter)
    ensures found == 1 ==> var s := old(table.State());
      var b, p := Bucket(table.cfg, s, key), Place(table.cfg, s, key);
      iter.htable == table && b < |table.items| && iter.At(Following(table.items, b, p))
  {
    hide Sound, Prime, LoadLimit, First, IndexFor, FirstFrom, Linked;
    ghost var s := table.State();
    found := iter.Search(table, key);
    if found == 1 {
      var _ := iter.Remove(Bucket(table.cfg, s, key), Place(table.cfg, s, key));
    }
  }

  // ---------- The purging walk ----------

  function Doomed(doomed: (Word, Word) -> bool): Item -> bool {
    (x: Item) => doomed(x.key, x.value)
  }

  function Kept(doomed: (Word, Word) -> bool): Item -> bool {
    (x: Item) => !doomed(x.key, x.value)
  }

  function FilterEach(cs: Buckets, keep: Item -> bool): (ds: Buckets) {
    seq(|cs|, i requires 0 <= i < |cs| => Filter(cs[i], keep))
  }

  /** The walk has dealt with the buckets before `b` and with `k` entries of bucket `b`. */
  ghost predicate Progress(orig: Buckets, cur: Buckets, keep: Item -> bool, b: nat, k: nat, visited: seq<Item>) {
    && |cur| == |orig| && b <= |orig|
    && (forall i :: 0 <= i < b ==> cur[i] == Filter(orig[i], keep))
    && (forall i :: b < i < |orig| ==> cur[i] == orig[i])
    && (b < |orig| ==>
          && k <= |orig[b]| && cur[b] == Filter(orig[b][..k], keep) + orig[b][k..]
          && visited == Flatten(orig[..b]) + orig[b][..k])
    && (b == |orig| ==> k == 0 && visited == Flatten(orig))
  }

  /** The place of the iterator that goes with it. */
  function PlaceAfter(orig: Buckets, keep: Item -> bool, b: nat, k: nat): nat
    requires b < |orig| && k <= |orig[b]|
  {
    |Filter(orig[b][..k], keep)|
  }

  lemma TakeOne(c: seq<Item>, k: nat, keep: Item -> bool)
    requires k < |c|
    ensures Filter(c[..k + 1], keep) == Filter(c[..k], keep) + if keep(c[k]) then [c[k]] else []
  {
    assert c[..k + 1] == c[..k] + [c[k]];
    FilterSnoc(c[..k], c[k], keep);
  }

  /** Going past entry `k`, removed or not. */
  lemma Advanced(orig: Buckets, cur: Buckets, next: Buckets, keep: Item -> bool, b: nat, k: nat, visited: seq<Item>)
    requires Progress(orig, cur, keep, b, k, visited) && b < |orig| && k < |orig[b]|
    ensures PlaceAfter(orig, keep, b, k) < |cur[b]|
    ensures cur[b][PlaceAfter(orig, keep, b, k)] == orig[b][k]
    ensures PlaceAfter(orig, keep, b, k + 1) == PlaceAfter(orig, keep, b, k) + if keep(orig[b][k]) then 1 else 0
    ensures next == (if keep(orig[b][k]) then cur else Unlink(cur, b, PlaceAfter(orig, keep, b, k))) ==>
      && Progress(orig, next, keep, b, k + 1, visited + [orig[b][k]])
      && |next[b]| == PlaceAfter(orig, keep, b, k + 1) + |orig[b]| - (k + 1)
  {
    hide Filter, Flatten;
    var c, x, done := orig[b], orig[b][k], Filter(orig[b][..k], keep);
    var rest, p := c[k + 1..], |done|;
    TakeOne(c, k, keep);
    assert c[k..] == [x] + rest;
    assert cur[b] == done + ([x] + rest);
    assert c[..k + 1] == c[..k] + [x];
    assert visited + [x] == Flatten(orig[..b]) + c[..k + 1];
    if keep(x) {
      assert cur[b] == (done + [x]) + rest;
    } else {
      assert cur[b][..p] + cur[b][p + 1..] == done + rest;
    }
  }

  /** Going on to the bucket after `b`. */
  lemma Turned(orig: Buckets, cur: Buckets, keep: Item -> bool, b: nat, visited: seq<Item>)
    requires b < |orig| && Progress(orig, cur, keep, b, |orig[b]|, visited)
    ensures Progress(orig, cur, keep, b + 1, 0, visited)
  {
    var c := orig[b];
    assert c[..|c|] == c && c[|c|..] == [];
    assert cur[b] == Filter(c, keep);
    assert orig[..b + 1] == orig[..b] + [c];
    FlattenAppend(orig[..b], [c]);
    assert Flatten([c]) == c;
    if b + 1 < |orig| {
      assert cur[b + 1] == [] + orig[b + 1][0..];
      assert orig[b + 1][..0] == [];
    } else {
      assert orig[..b + 1] == orig;
    }
  }

  /** Skipping the empty buckets from `b` on, as the iterator does. */
  lemma {:induction false} Skipped(orig: Buckets, cur: Buckets, keep: Item -> bool, b: nat, visited: seq<Item>)
    returns (j: nat)
    requires b <= |orig| && Progress(orig, cur, keep, b, 0, visited)
    ensures b <= j <= |orig| && Progress(orig, cur, keep, j, 0, visited)
    ensures FirstFrom(cur, b) == if j < |orig| then On(j, 0) else End
    ensures j < |orig| ==> orig[j] != []
    decreases |orig| - b
  {
    j := b;
    if b < |orig| {
      assert orig[b][..0] == [] && orig[b][0..] == orig[b];
      if orig[b] == [] {
        Turned(orig, cur, keep, b, visited);
        j := Skipped(orig, cur, keep, b + 1, visited);
      }
    }
  }

  lemma {:induction false} FlattenFilterEach(cs: Buckets, keep: Item -> bool)
    ensures Flatten(FilterEach(cs, keep)) == Filter(Flatten(cs), keep)
  {
    if cs != [] {
      FilterAppend(cs[0], Flatten(cs[1..]), keep);
      FlattenFilterEach(cs[1..], keep);
      assert FilterEach(cs, keep)[1..] == FilterEach(cs[1..], keep);
    }
  }

  lemma Finished(orig: Buckets, cur: Buckets, doomed: (Word, Word) -> bool, b: nat, k: nat, visited: seq<Item>)
    requires Progress(orig, cur, Kept(doomed), b, k, visited) && b >= |orig|
    ensures visited == Flatten(orig) && cur == FilterEach(orig, Kept(doomed))
    ensures |Flatten(cur)| == |visited| - |Filter(visited, Doomed(doomed))|
  {
    FlattenFilterEach(orig, Kept(doomed));
    FilterSplit(Flatten(orig), Kept(doomed), Doomed(doomed));
  }

  /** What a run of removals leaves of the log, in order; nothing else changes but chains and count. */
  ghost predicate Removed(cfg: Config, before: Table, after: Table, gone: seq<Item>) {
    && after.primeIndex == before.primeIndex && after.relinked == before.relinked
    && after.valuesFreed == before.valuesFreed
    && after.keysFreed == before.keysFreed + (if cfg.freesKeys then Keys(gone) else [])
    && after.nodesFreed == before.nodesFreed + Nodes(gone)
  }

  lemma RemovedNone(cfg: Config, s: Table, doomed: (Word, Word) -> bool)
    ensures Removed(cfg, s, s, Filter([], Doomed(doomed))) && Filter([], Doomed(doomed)) == []
  {
  }

  lemma RemovedOne(cfg: Config, before: Table, s: Table, gone: seq<Item>, b: nat, p: nat)
    requires b < |s.chains| && p < |s.chains[b]| && Removed(cfg, before, s, gone)
    ensures Removed(cfg, before, RemoveAt(cfg, s, b, p), gone + [s.chains[b][p]])
  {
    ListsAppend(gone, [s.chains[b][p]]);
  }

  /** The run `ops` removes exactly the entries `gone`, in order, and leads to `s`. */
  ghost predicate Undertaken(cfg: Config, before: Table, s: Table, gone: seq<Item>, ops: seq<Op>) {
    && Runnable(cfg, before, ops) && s == Run(cfg, before, ops)
    && |ops| == |gone| && forall i :: 0 <= i < |ops| ==> ops[i].IterRemoveOp? && ops[i].key == gone[i].key
  }

  lemma UndertakenNone(cfg: Config, s: Table)
    ensures Undertaken(cfg, s, s, [], [])
  {
  }

  lemma UndertakenOne(cfg: Config, before: Table, s: Table, gone: seq<Item>, ops: seq<Op>, b: nat, p: nat)
    requires Sized(s) && b < |s.chains| && p < |s.chains[b]| && Undertaken(cfg, before, s, gone, ops)
    ensures var x := s.chains[b][p];
      Undertaken(cfg, before, RemoveAt(cfg, s, b, p), gone + [x], ops + [IterRemoveOp(x.key, b, p)])
  {
    hide Sized, RemoveAt, Runnable, Run;
    var op := IterRemoveOp(s.chains[b][p].key, b, p);
    assert Enabled(s, op) && Step(cfg, s, op) == RemoveAt(cfg, s, b, p);
    RunSnoc(cfg, before, ops, op);
  }

  /** Where the iterator stands when the walk has got to entry `k` of bucket `b`. */
  function Standing(orig: Buckets, keep: Item -> bool, b: nat, k: nat): Position
    requires b < |orig| ==> k <= |orig[b]|
  {
    if b < |orig| then On(b, PlaceAfter(orig, keep, b, k)) else End
  }

  lemma Started(orig: Buckets, keep: Item -> bool) returns (b: nat)
    ensures Progress(orig, orig, keep, b, 0, []) && FirstFrom(orig, 0) == Standing(orig, keep, b, 0)
    ensures b < |orig| ==> orig[b] != []
  {
    if orig != [] {
      assert orig[0][..0] == [] && orig[0][0..] == orig[0];
    }
    b := Skipped(orig, orig, keep, 0, []);
    if b < |orig| {
      assert orig[b][..0] == [];
    }
  }

  /** Standing past the first `k` entries of bucket `b` is standing on the next entry of the table. */
  lemma Landed(orig: Buckets, cur: Buckets, keep: Item -> bool, b: nat, k: nat, visited: seq<Item>)
    returns (b2: nat, k2: nat)
    requires Progress(orig, cur, keep, b, k, visited) && b < |orig|
    requires |cur[b]| == PlaceAfter(orig, keep, b, k) + |orig[b]| - k
    ensures Progress(orig, cur, keep, b2, k2, visited)
    ensures (b2 == b && k2 == k) || b < b2
    ensures b2 < |orig| ==> k2 < |orig[b2]|
    ensures Following(cur, b, PlaceAfter(orig, keep, b, k)) == Standing(orig, keep, b2, k2)
  {
    if k < |orig[b]| {
      b2, k2 := b, k;
    } else {
      Turned(orig, cur, keep, b, visited);
      b2 := Skipped(orig, cur, keep, b + 1, visited);
      k2 := 0;
      if b2 < |orig| {
        assert orig[b2][..0] == [];
      }
    }
  }

  /** The client's choice at the entry that the iterator stands on. */
  method RemoveOrAdvance(iter: Iterator, doomed: (Word, Word) -> bool, ghost b: nat, ghost p: nat) returns (more: int)
    requires iter.htable.Valid() && iter.At(On(b, p))
    modifies iter`entry, iter`parent, iter`index
    modifies iter.htable`items, iter.htable`entryCount, iter.htable`keysFreed, iter.htable`nodesFreed
    modifies iter.htable.table, NodesOf(iter.htable.items)`next
    ensures iter.htable.Valid() && NodesOf(iter.htable.items) <= old(NodesOf(iter.htable.items))
    ensures var gone := Doomed(doomed)(old(iter.htable.items)[b][p]);
      && iter.htable.State() ==
         (if gone then RemoveAt(iter.htable.cfg, old(iter.htable.State()), b, p) else old(iter.htable.State()))
      && b < |iter.htable.items| && iter.At(Following(iter.htable.items, b, if gone then p else p + 1))
      && more == if iter.entry != null then 1 else 0
  {
    hide Sound, Prime, LoadLimit, Linked, FirstFrom, Unlink;
    LinkedHolds(iter.htable.table[..], iter.htable.items, b, p);
    if doomed(iter.entry.key, iter.entry.value) {
      more := iter.Remove(b, p);
    } else {
      more := iter.AdvanceFrom(On(b, p));
    }
  }

  /** One turn of the walk. */
  method PurgeStep(iter: Iterator, doomed: (Word, Word) -> bool, ghost orig: Buckets, ghost before: Table,
                   ghost b: nat, ghost k: nat, ghost visited: seq<Item>, ghost gone: seq<Item>, ghost ops: seq<Op>)
    returns (more: int, ghost b2: nat, ghost k2: nat, ghost visited2: seq<Item>, ghost gone2: seq<Item>,
             ghost ops2: seq<Op>)
    requires iter.htable.Valid() && b < |orig| && k < |orig[b]|
    requires Progress(orig, iter.htable.items, Kept(doomed), b, k, visited)
    requires iter.At(On(b, PlaceAfter(orig, Kept(doomed), b, k)))
    requires Removed(iter.htable.cfg, before, iter.htable.State(), gone)
    requires Undertaken(iter.htable.cfg, before, iter.htable.State(), gone, ops)
    modifies iter`entry, iter`parent, iter`index
    modifies iter.htable`items, iter.htable`entryCount, iter.htable`keysFreed, iter.htable`nodesFreed
    modifies iter.htable.table, NodesOf(iter.htable.items)`next
    ensures iter.htable.Valid() && NodesOf(iter.htable.items) <= old(NodesOf(iter.htable.items))
    ensures Progress(orig, iter.htable.items, Kept(doomed), b2, k2, visited2)
    ensures b2 < |orig| ==> k2 < |orig[b2]|
    ensures (b2 == b && k2 == k + 1) || b < b2
    ensures iter.At(Standing(orig, Kept(doomed), b2, k2)) && more == if b2 < |orig| then 1 else 0
    ensures visited2 == visited + [orig[b][k]]
    ensures gone2 == gone + if Doomed(doomed)(orig[b][k]) then [orig[b][k]] else []
    ensures Removed(iter.htable.cfg, before, iter.htable.State(), gone2)
    ensures Undertaken(iter.htable.cfg, before, iter.htable.State(), gone2, ops2)
  {
    hide Sound, Prime, LoadLimit, Linked, FirstFrom, Progress, Filter, Flatten, Removed, PlaceAfter, Unlink, Following;
    hide Undertaken;
    var h := iter.htable;
    ghost var x, keep, cur, p := orig[b][k], Kept(doomed), h.items, PlaceAfter(orig, Kept(doomed), b, k);
    ghost var next := if keep(x) then cur else Unlink(cur, b, p);
    Advanced(orig, cur, next, keep, b, k, visited);
    visited2, gone2 := visited + [x], gone + if Doomed(doomed)(x) then [x] else [];
    RemovedOne(h.cfg, before, h.State(), gone, b, p);
    UndertakenOne(h.cfg, before, h.State(), gone, ops, b, p);
    ops2 := if Doomed(doomed)(x) then ops + [IterRemoveOp(x.key, b, p)] else ops;
    assert gone + [] == gone;
    more := RemoveOrAdvance(iter, doomed, b, p);
    b2, k2 := Landed(orig, next, keep, b, k + 1, visited2);
  }

  /**
   * A walk that removes the doomed entries and advances past the others. It visits every original
   * entry once, in traversal order, and leaves each chain with the others in their order. The table goes
   * through a run of one removal for each doomed entry.
   */
  method Purge(iter: Iterator, doomed: (Word, Word) -> bool) returns (ghost visited: seq<Item>, ghost ops: seq<Op>)
    requires iter.htable.Valid() && iter.At(End)
    modifies iter`entry, iter`parent, iter`index, iter.htable, iter.htable.table, NodesOf(iter.htable.items)`next
    ensures iter.htable.Valid() && iter.At(End)
    ensures visited == Flatten(old(iter.htable.items))
    ensures iter.htable.items == FilterEach(old(iter.htable.items), Kept(doomed))
    ensures forall x :: x in Flatten(iter.htable.items) <==> x in visited && !doomed(x.key, x.value)
    ensures forall x :: x in Filter(visited, Doomed(doomed)) <==> x in visited && doomed(x.key, x.value)
    ensures Removed(iter.htable.cfg, old(iter.htable.State()), iter.htable.State(), Filter(visited, Doomed(doomed)))
    ensures Undertaken(iter.htable.cfg, old(iter.htable.State()), iter.htable.State(), Filter(visited, Doomed(doomed)), ops)
    ensures iter.htable.entryCount == (|visited| - |Filter(visited, Doomed(doomed))|) % TWO_TO_32
  {
    hide Sound, Prime, LoadLimit, Linked, FirstFrom, Progress, Filter, Flatten, Removed, PlaceAfter, Unlink, FilterEach;
    hide Doomed, Kept, Sized, Undertaken;
    var h := iter.htable;
    ghost var orig, before, keep := h.items, h.State(), Kept(doomed);
    ghost var b: nat := Started(orig, keep);
    ghost var k: nat, gone := 0, [];
    RemovedNone(h.cfg, before, doomed);
    UndertakenNone(h.cfg, before);
    visited, ops := [], [];
    var more := iter.AdvanceFrom(End);
    while more == 1
      invariant iter.htable == h && h.Valid() && h.table == old(iter.htable.table)
      invariant NodesOf(h.items) <= old(NodesOf(h.items))
      invariant Progress(orig, h.items, keep, b, k, visited) && (b < |orig| ==> k < |orig[b]|)
      invariant iter.At(Standing(orig, keep, b, k)) && more == if b < |orig| then 1 else 0
      invariant Removed(h.cfg, before, h.State(), gone) && gone == Filter(visited, Doomed(doomed))
      invariant Undertaken(h.cfg, before, h.State(), gone, ops)
      decreases |orig| - b, if b < |orig| then |orig[b]| - k else 0
    {
      FilterSnoc(visited, orig[b][k], Doomed(doomed));
      more, b, k, visited, gone, ops := PurgeStep(iter, doomed, orig, before, b, k, visited, gone, ops);
    }
    Finished(orig, h.items, doomed, b, k, visited);
    LeftExactly(orig, doomed);
  }

  /** The entries that are left are those that the client did not want to remove. */
  lemma LeftExactly(cs: Buckets, doomed: (Word, Word) -> bool)
    ensures forall x :: x in Flatten(FilterEach(cs, Kept(doomed))) <==> x in Flatten(cs) && !doomed(x.key, x.value)
    ensures forall x :: x in Filter(Flatten(cs), Doomed(doomed)) <==> x in Flatten(cs) && doomed(x.key, x.value)
  {
    FlattenFilterEach(cs, Kept(doomed));
    forall x: Item
      ensures x in Filter(Flatten(cs), Kept(doomed)) <==> x in Flatten(cs) && !doomed(x.key, x.value)
      ensures x in Filter(Flatten(cs), Doomed(doomed)) <==> x in Flatten(cs) && doomed(x.key, x.value)
    {
      FilterIn(Flatten(cs), Kept(doomed), x);
      FilterIn(Flatten(cs), Doomed(doomed), x);
    }
  }
}
