/** The two transfer loops of `hashtable_expand`, on the heap. */
module Expansion {
  import opened Words
  import opened Sequences
  import opened Chains
  import opened Rehash
  import opened TableModel

  /** Between the two arrays of plan A: old chains `src` and new chains `dst` share out `nodes`. */
  ghost predicate Between(oldHeads: seq<Entry?>, newHeads: seq<Entry?>, src: Buckets, dst: Buckets, nodes: set<Entry>)
    reads NodesOf(src), NodesOf(dst)
  {
    && Linked(oldHeads, src) && Distinct(src) && Linked(newHeads, dst) && Distinct(dst)
    && NodesOf(src) !! NodesOf(dst) && NodesOf(src) + NodesOf(dst) == nodes
  }

  /** One turn of the inner loop of plan A: the head of old chain `i` becomes the head of its new chain. */
  method MoveHead(oldTable: array<Entry?>, newTable: array<Entry?>, i: nat, e: Entry,
                  ghost home: U32 -> nat, ghost src0: Buckets, ghost dst0: Buckets, ghost nodes: set<Entry>)
    returns (ghost src: Buckets, ghost dst: Buckets)
    requires oldTable != newTable && newTable.Length > 0 && home == IndexFor(newTable.Length)
    requires Between(oldTable[..], newTable[..], src0, dst0, nodes) && Into(home, |dst0|)
    requires i < |src0| && src0[i] != [] && src0[i][0].node == e
    modifies oldTable, newTable, e`next
    ensures Between(oldTable[..], newTable[..], src, dst, nodes)
    ensures |src| == |src0| && |dst| == |dst0| && src[i] == src0[i][1..]
    ensures forall k :: 0 <= k < |src| && k != i ==> src[k] == src0[k]
    ensures Drain(home, src, i, dst) == Drain(home, src0, i, dst0)
  {
    hide Drain, IndexFor;
    ghost var x := src0[i][0];
    src, dst := Unlink(src0, i, 0), Push(dst0, home(x.hash), x);
    DrainStep(home, src0, i, dst0);
    UnlinkDistinct(src0, i, 0);
    assert e in NodesOf(src0) && Holds(x);
    DetachHead(oldTable, i, e, src0);
    var index := IndexFor(newTable.Length)(e.hash);
    Prepend(newTable, index, e, dst0, x);
  }

  /** The inner loop of plan A. */
  method DrainBucket(oldTable: array<Entry?>, newTable: array<Entry?>, i: nat, ghost home: U32 -> nat,
                     ghost src0: Buckets, ghost dst0: Buckets, ghost nodes: set<Entry>)
    returns (ghost src: Buckets, ghost dst: Buckets, ghost moved: nat)
    requires oldTable != newTable && newTable.Length > 0 && home == IndexFor(newTable.Length)
    requires Between(oldTable[..], newTable[..], src0, dst0, nodes) && Into(home, |dst0|) && i < |src0|
    modifies oldTable, newTable, nodes`next
    ensures Between(oldTable[..], newTable[..], src, dst, nodes)
    ensures |dst| == |dst0| && src == src0[i := []] && moved == |src0[i]|
    ensures Drain(home, src, i + 1, dst) == Drain(home, src0, i, dst0)
  {
    hide Drain, IndexFor;
    src, dst, moved := src0, dst0, 0;
    var tmp := oldTable[i];
    while tmp != null
      invariant Between(oldTable[..], newTable[..], src, dst, nodes)
      invariant |src| == |src0| && |dst| == |dst0| && forall k :: 0 <= k < |src| && k != i ==> src[k] == src0[k]
      invariant tmp == NodeAt(src[i], 0) && moved + |src[i]| == |src0[i]|
      invariant Drain(home, src, i, dst) == Drain(home, src0, i, dst0)
      decreases |src[i]|
    {
      src, dst := MoveHead(oldTable, newTable, i, tmp, home, src, dst, nodes);
      moved := moved + 1;
      tmp := oldTable[i];
    }
    DrainStep(home, src, i, dst);
  }

  /** Plan A. */
  method DrainTable(oldTable: array<Entry?>, newTable: array<Entry?>, ghost cs: Buckets)
    returns (ghost ds: Buckets, ghost moved: nat)
    requires oldTable != newTable && newTable.Length > 0
    requires Linked(oldTable[..], cs) && Distinct(cs)
    requires Linked(newTable[..], Empties(newTable.Length))
    modifies oldTable, newTable, NodesOf(cs)`next
    ensures Linked(newTable[..], ds)
    ensures ds == FreshRehash(cs, newTable.Length, IndexFor(newTable.Length)) && moved == |Flatten(cs)|
  {
    ghost var home := IndexFor(newTable.Length);
    IndexInto(newTable.Length);
    ghost var src := cs;
    ds, moved := Empties(newTable.Length), 0;
    var i := 0;
    while i < oldTable.Length
      invariant i <= oldTable.Length == |cs| == |src| && |ds| == newTable.Length
      invariant Between(oldTable[..], newTable[..], src, ds, NodesOf(cs))
      invariant Drain(home, src, i, ds) == Drain(home, cs, 0, Empties(newTable.Length))
      invariant moved + |Flatten(src)| == |Flatten(cs)| && forall k :: 0 <= k < i ==> src[k] == []
    {
      FlattenUpdate(src, i, []);
      ghost var m;
      src, ds, m := DrainBucket(oldTable, newTable, i, home, src, ds, NodesOf(cs));
      i, moved := i + 1, moved + m;
    }
    FlattenEmpty(src);
    DrainIsFresh(home, cs, newTable.Length);
  }

  /** The `else` branch of plan B's inner loop: entry `p` of chain `i` moves to the head of its home. */
  method Relocate(t: array<Entry?>, cell: Cell, e: Entry, index: nat,
                  ghost home: U32 -> nat, ghost cs: Buckets, ghost m: nat, ghost i: nat, ghost p: nat)
    returns (ghost ds: Buckets)
    requires Linked(t[..], cs) && Distinct(cs) && Into(home, |cs|)
    requires i < m <= |cs| && p < |cs[i]| && cs[i][p].node == e && cell == CellAt(cs, i, p)
    requires home(cs[i][p].hash) == index != i
    modifies t, NodesOf(cs)`next
    ensures Linked(t[..], ds) && Distinct(ds) && NodesOf(ds) == NodesOf(cs) && |ds| == |cs|
    ensures p <= |ds[i]| && |ds[i]| == |cs[i]| - 1 && cell == CellAt(ds, i, p)
    ensures Settle(home, ds, m, i, p) == Settle(home, cs, m, i, p)
    ensures Misplaced(home, cs, m, i, p) == 1 + Misplaced(home, ds, m, i, p)
  {
    ghost var x := cs[i][p];
    ds := Push(Unlink(cs, i, p), index, x);
    MoveSettlesOne(home, cs, m, i, p);
    assert Holds(x);
    Detach(t, cell, e, cs, i, p);
    Prepend(t, index, e, Unlink(cs, i, p), x);
  }

  lemma LoadAt(t: array<Entry?>, cell: Cell, cs: Buckets, i: nat, p: nat)
    requires Linked(t[..], cs) && i < |cs| && p <= |cs[i]| && cell == CellAt(cs, i, p)
    ensures cell.BucketHead? ==> cell.index < t.Length
    ensures Load(t, cell) == NodeAt(cs[i], p)
  {
    if p > 0 {
      LinkedHolds(t[..], cs, i, p - 1);
    }
  }

  /** The inner loop of plan B at entry `p` of chain `i`, `moved` entries having been relinked. */
  ghost predicate Settling(t: array<Entry?>, home: U32 -> nat, cs0: Buckets, cs: Buckets, m: nat, i: nat, p: nat,
                           cell: Cell, tmp: Entry?, moved: nat)
    requires Into(home, |cs|) && |cs| == |cs0| && i < m <= |cs|
    reads t, NodesOf(cs)
  {
    && Linked(t[..], cs) && Distinct(cs) && NodesOf(cs) == NodesOf(cs0)
    && p <= |cs[i]| && tmp == NodeAt(cs[i], p) && cell == CellAt(cs, i, p)
    && Settle(home, cs, m, i, p) == Settle(home, cs0, m, i, 0)
    && moved + Misplaced(home, cs, m, i, p) == Misplaced(home, cs0, m, i, 0)
  }

  /** The body of that loop: pass an entry that is at home, move any other. */
  method SettleNext(t: array<Entry?>, i: nat, cell: Cell, tmp: Entry, ghost home: U32 -> nat, ghost cs0: Buckets,
                    ghost cs: Buckets, ghost m: nat, ghost p: nat, ghost moved: nat)
    returns (cell2: Cell, tmp2: Entry?, ghost cs2: Buckets, ghost p2: nat, ghost moved2: nat)
    requires t.Length > 0 && home == IndexFor(t.Length) && Into(home, |cs|) && |cs| == |cs0| && i < m <= |cs|
    requires Settling(t, home, cs0, cs, m, i, p, cell, tmp, moved)
    modifies t, NodesOf(cs0)`next
    ensures |cs2| == |cs| && Settling(t, home, cs0, cs2, m, i, p2, cell2, tmp2, moved2)
    ensures |cs2[i]| - p2 < |cs[i]| - p
  {
    hide Settle, Misplaced, IndexFor, Linked, Distinct, NodesOf;
    LinkedHolds(t[..], cs, i, p);
    var index := IndexFor(t.Length)(tmp.hash);
    if i == index {
      SettleStep(home, cs, m, i, p);
      cell2, cs2, p2, moved2 := NextOf(tmp), cs, p + 1, moved;
    } else {
      cs2 := Relocate(t, cell, tmp, index, home, cs, m, i, p);
      cell2, p2, moved2 := cell, p, moved + 1;
    }
    LoadAt(t, cell2, cs2, i, p2);
    tmp2 := Load(t, cell2);
  }

  /** The inner loop of plan B. `moved` counts the entries relinked. */
  method SettleBucket(t: array<Entry?>, i: nat, ghost home: U32 -> nat, ghost cs0: Buckets, ghost m: nat)
    returns (ghost cs: Buckets, ghost moved: nat)
    requires t.Length > 0 && home == IndexFor(t.Length) && Into(home, t.Length)
    requires Linked(t[..], cs0) && Distinct(cs0) && i < m <= |cs0|
    modifies t, NodesOf(cs0)`next
    ensures Linked(t[..], cs) && Distinct(cs) && NodesOf(cs) == NodesOf(cs0)
    ensures Settle(home, cs, m, i + 1, 0) == Settle(home, cs0, m, i, 0)
    ensures moved + Misplaced(home, cs, m, i + 1, 0) == Misplaced(home, cs0, m, i, 0)
  {
    LoadAt(t, BucketHead(i), cs0, i, 0);
    assert |cs0| == t.Length;
    hide Settle, Misplaced, IndexFor, Linked, Distinct, NodesOf;
    cs, moved := cs0, 0;
    var cell, tmp := BucketHead(i), t[i];
    ghost var p := 0;
    while tmp != null
      invariant |cs| == |cs0| && Settling(t, home, cs0, cs, m, i, p, cell, tmp, moved)
      decreases |cs[i]| - p
    {
      cell, tmp, cs, p, moved := SettleNext(t, i, cell, tmp, home, cs0, cs, m, p, moved);
    }
    SettleStep(home, cs, m, i, p);
  }

  /** Plan B, on the lengthened array `t` whose first `oldLength` buckets hold the old chains. */
  method SettleTable(t: array<Entry?>, oldLength: nat, ghost cs: Buckets) returns (ghost ds: Buckets, ghost moved: nat)
    requires 0 < |cs| == oldLength <= t.Length && Distinct(cs)
    requires Linked(t[..], Lengthen(cs, t.Length))
    modifies t, NodesOf(cs)`next
    ensures Linked(t[..], ds)
    ensures ds == InPlaceRehash(cs, t.Length, IndexFor(t.Length))
    ensures moved == Misplaced(IndexFor(t.Length), Lengthen(cs, t.Length), oldLength, 0, 0)
  {
    ghost var home, start := IndexFor(t.Length), Lengthen(cs, t.Length);
    IndexInto(t.Length);
    Lengthened(cs, start);
    ds, moved := start, 0;
    var i := 0;
    while i < oldLength
      invariant i <= oldLength && |ds| == t.Length
      invariant Linked(t[..], ds) && Distinct(ds) && NodesOf(ds) == NodesOf(cs)
      invariant Settle(home, ds, oldLength, i, 0) == Settle(home, start, oldLength, 0, 0)
      invariant moved + Misplaced(home, ds, oldLength, i, 0) == Misplaced(home, start, oldLength, 0, 0)
    {
      ghost var k;
      ds, k := SettleBucket(t, i, home, ds, oldLength);
      i, moved := i + 1, moved + k;
    }
    SettleIsInPlace(home, cs, start);
  }

  /** `realloc` followed by the intended clearing of the new slots. */
  method Regrow(t: array<Entry?>, n: nat) returns (r: array<Entry?>)
    requires t.Length <= n
    ensures fresh(r) && r.Length == n
    ensures forall i :: 0 <= i < n ==> r[i] == if i < t.Length then t[i] else null
  {
    r := new Entry?[n];
    forall i | 0 <= i < t.Length {
      r[i] := t[i];
    }
    forall i | t.Length <= i < n {
      r[i] := null;
    }
  }
}
