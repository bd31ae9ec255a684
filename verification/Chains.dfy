/** Hash chains: the entries on the heap, and the sequences of items they spell out. */
module Chains {
  import opened Words
  import opened Sequences

  /** `struct hash_entry`. */
  class Entry {
    var key: Word
    var value: Word
    var hash: U32
    var next: Entry?

    /** A zeroed entry, as `calloc` returns it. */
    constructor Calloc()
      ensures key == 0 && value == 0 && hash == 0 && next == null
    {
      key, value, hash, next := 0, 0, 0, null;
    }
  }

  /** What one linked entry holds, together with its address. */
  datatype Item = Item(node: Entry, key: Word, hash: U32, value: Word)

  /** The contents of a table, bucket by bucket, each from its head. */
  type Buckets = seq<seq<Item>>

  // ---------- Chains as values ----------

  function Push(cs: Buckets, b: nat, x: Item): (ds: Buckets)
    requires b < |cs|
  {
    cs[b := [x] + cs[b]]
  }

  function Unlink(cs: Buckets, a: nat, p: nat): (ds: Buckets)
    requires a < |cs| && p < |cs[a]|
  {
    cs[a := cs[a][..p] + cs[a][p + 1..]]
  }

  /** Entry `p` of chain `b` gets a new value. */
  function Overwrite(cs: Buckets, b: nat, p: nat, value: Word): (ds: Buckets)
    requires b < |cs| && p < |cs[b]|
  {
    cs[b := cs[b][p := cs[b][p].(value := value)]]
  }

  ghost predicate Alone(cs: Buckets, a: nat, p: nat)
    requires a < |cs| && p < |cs[a]|
  {
    forall i, k :: 0 <= i < |cs| && 0 <= k < |cs[i]| && cs[i][k].node == cs[a][p].node ==> i == a && k == p
  }

  /** No entry is linked twice: chains are acyclic and disjoint. */
  ghost predicate Distinct(cs: Buckets) {
    forall a, p {:trigger Alone(cs, a, p)} :: 0 <= a < |cs| && 0 <= p < |cs[a]| ==> Alone(cs, a, p)
  }

  ghost function NodesOf(cs: Buckets): set<Entry> {
    set i, k | 0 <= i < |cs| && 0 <= k < |cs[i]| :: cs[i][k].node
  }

  lemma PushDistinct(cs: Buckets, b: nat, x: Item)
    requires b < |cs| && Distinct(cs) && x.node !in NodesOf(cs)
    ensures Distinct(Push(cs, b, x))
    ensures NodesOf(Push(cs, b, x)) == NodesOf(cs) + {x.node}
  {
    var ds: Buckets := Push(cs, b, x);
    forall i, k | 0 <= i < |ds| && 0 <= k < |ds[i]|
      ensures if i == b && k == 0 then ds[i][k] == x else ds[i][k].node in NodesOf(cs)
    {
      assert ds[i][k] == if i != b then cs[i][k] else if k == 0 then x else cs[b][k - 1];
    }
    forall i, k | 0 <= i < |cs| && 0 <= k < |cs[i]|
      ensures cs[i][k].node in NodesOf(ds)
    {
      assert ds[i][if i == b then k + 1 else k] == cs[i][k];
    }
    assert ds[b][0] == x;
    forall a, p | 0 <= a < |ds| && 0 <= p < |ds[a]|
      ensures Alone(ds, a, p)
    {
      if !(a == b && p == 0) {
        var q := if a == b then p - 1 else p;
        assert ds[a][p] == cs[a][q] && Alone(cs, a, q);
        forall i, k | 0 <= i < |ds| && 0 <= k < |ds[i]| && ds[i][k].node == ds[a][p].node
          ensures i == a && k == p
        {
          assert i != b ==> ds[i][k] == cs[i][k];
          assert i == b && k > 0 ==> ds[i][k] == cs[i][k - 1];
        }
      }
    }
  }

  lemma UnlinkDistinct(cs: Buckets, a: nat, p: nat)
    requires a < |cs| && p < |cs[a]| && Distinct(cs)
    ensures Distinct(Unlink(cs, a, p))
    ensures cs[a][p].node !in NodesOf(Unlink(cs, a, p))
    ensures NodesOf(cs) == NodesOf(Unlink(cs, a, p)) + {cs[a][p].node}
  {
    var ds: Buckets := Unlink(cs, a, p);
    assert Alone(cs, a, p);
    forall i, k | 0 <= i < |ds| && 0 <= k < |ds[i]|
      ensures Alone(ds, i, k)
      ensures ds[i][k].node in NodesOf(cs) && ds[i][k].node != cs[a][p].node
    {
      var k' := if i == a && k >= p then k + 1 else k;
      assert ds[i][k] == cs[i][k'] && Alone(cs, i, k');
      forall j, l | 0 <= j < |ds| && 0 <= l < |ds[j]| && ds[j][l].node == ds[i][k].node
        ensures j == i && l == k
      {
        assert ds[j][l] == cs[j][if j == a && l >= p then l + 1 else l];
      }
    }
    forall i, k | 0 <= i < |cs| && 0 <= k < |cs[i]| && !(i == a && k == p)
      ensures cs[i][k].node in NodesOf(ds)
    {
      assert ds[i][if i == a && k > p then k - 1 else k] == cs[i][k];
    }
  }

  /** Taking entry `p` of chain `a` out and putting it at the head of chain `b` keeps the contents. */
  lemma MoveKeeps(cs: Buckets, a: nat, p: nat, b: nat)
    requires a < |cs| && p < |cs[a]| && b < |cs|
    ensures multiset(Flatten(Push(Unlink(cs, a, p), b, cs[a][p]))) == multiset(Flatten(cs))
  {
    UnlinkContents(cs, a, p);
    PushContents(Unlink(cs, a, p), b, cs[a][p]);
  }

  lemma PushContents(cs: Buckets, b: nat, x: Item)
    requires b < |cs|
    ensures multiset(Flatten(Push(cs, b, x))) == multiset(Flatten(cs)) + multiset{x}
    ensures |Flatten(Push(cs, b, x))| == |Flatten(cs)| + 1
  {
    FlattenUpdate(cs, b, [x] + cs[b]);
    var ds: Buckets := Push(cs, b, x);
    var before, after := multiset(Flatten(cs)), multiset(Flatten(ds));
    assert after + multiset(cs[b]) == before + multiset([x] + cs[b]);
    assert before + multiset([x] + cs[b]) == (before + multiset{x}) + multiset(cs[b]);
    Cancel(after, multiset(cs[b]), before + multiset{x});
  }

  lemma UnlinkContents(cs: Buckets, a: nat, p: nat)
    requires a < |cs| && p < |cs[a]|
    ensures multiset(Flatten(Unlink(cs, a, p))) + multiset{cs[a][p]} == multiset(Flatten(cs))
    ensures |Flatten(Unlink(cs, a, p))| + 1 == |Flatten(cs)|
  {
    var ds: Buckets, c := Unlink(cs, a, p), cs[a][..p] + cs[a][p + 1..];
    FlattenUpdate(cs, a, c);
    var before, after := multiset(Flatten(cs)), multiset(Flatten(ds));
    assert multiset(cs[a]) == multiset(c) + multiset{cs[a][p]} by {
      assert cs[a] == cs[a][..p] + [cs[a][p]] + cs[a][p + 1..];
    }
    assert (after + multiset{cs[a][p]}) + multiset(c) == before + multiset(c);
    Cancel(after + multiset{cs[a][p]}, multiset(c), before);
  }

  // ---------- Chains on the heap ----------

  /** The entry at place `k` of a chain; null past its end. */
  function NodeAt(c: seq<Item>, k: nat): Entry? {
    if k < |c| then c[k].node else null
  }

  ghost predicate Holds(x: Item)
    reads x.node
  {
    x.node.key == x.key && x.node.hash == x.hash && x.node.value == x.value
  }

  /** The pointers of the heap spell out exactly `cs`, starting from the bucket heads. */
  ghost predicate Linked(heads: seq<Entry?>, cs: Buckets)
    reads NodesOf(cs)
  {
    && |heads| == |cs|
    && (forall i :: 0 <= i < |cs| ==> heads[i] == NodeAt(cs[i], 0))
    && (forall i, k :: 0 <= i < |cs| && 0 <= k < |cs[i]| ==> Holds(cs[i][k]))
    && (forall i, k {:trigger cs[i][k].node.next} :: 0 <= i < |cs| && 0 <= k < |cs[i]| ==>
          cs[i][k].node.next == NodeAt(cs[i], k + 1))
  }

  lemma LinkedHolds(heads: seq<Entry?>, cs: Buckets, i: nat, k: nat)
    requires Linked(heads, cs) && i < |cs| && k < |cs[i]|
    ensures Holds(cs[i][k]) && cs[i][k].node in NodesOf(cs)
    ensures cs[i][k].node.next == NodeAt(cs[i], k + 1)
  {
  }

  /** A pointer cell that holds a chain link: a bucket head, or the `next` field of an entry. */
  datatype Cell = BucketHead(index: nat) | NextOf(entry: Entry)

  function CellAt(cs: Buckets, i: nat, p: nat): Cell
    requires i < |cs| && p <= |cs[i]|
  {
    if p == 0 then BucketHead(i) else NextOf(cs[i][p - 1].node)
  }

  /** `*cell`. */
  function Load(t: array<Entry?>, cell: Cell): Entry?
    requires cell.BucketHead? ==> cell.index < t.Length
    reads t, if cell.NextOf? then {cell.entry} else {}
  {
    match cell
    case BucketHead(i) => t[i]
    case NextOf(e) => e.next
  }

  /** `*entry_ptr = cursor->next` for the cell that leads to entry `p` of chain `a`. */
  method Detach(t: array<Entry?>, cell: Cell, cursor: Entry, ghost cs: Buckets, ghost a: nat, ghost p: nat)
    requires Linked(t[..], cs) && Distinct(cs)
    requires a < |cs| && p < |cs[a]| && cs[a][p].node == cursor && cell == CellAt(cs, a, p)
    modifies t, NodesOf(cs)`next
    ensures Linked(t[..], Unlink(cs, a, p)) && Distinct(Unlink(cs, a, p))
    ensures NodesOf(cs) == NodesOf(Unlink(cs, a, p)) + {cursor} && cursor !in NodesOf(Unlink(cs, a, p))
    ensures cursor.next == old(cursor.next)
  {
    UnlinkDistinct(cs, a, p);
    match cell {
      case BucketHead(i) => DetachHead(t, i, cursor, cs);
      case NextOf(e) => DetachAfter(e, cursor, t[..], cs, a, p);
    }
  }

  method DetachHead(t: array<Entry?>, a: nat, cursor: Entry, ghost cs: Buckets)
    requires Linked(t[..], cs)
    requires a < |cs| && 0 < |cs[a]| && cs[a][0].node == cursor
    modifies t
    ensures Linked(t[..], Unlink(cs, a, 0))
  {
    ghost var ds: Buckets := Unlink(cs, a, 0);
    t[a] := cursor.next;
    forall i, k | 0 <= i < |ds| && 0 <= k < |ds[i]|
      ensures Holds(ds[i][k]) && ds[i][k].node.next == NodeAt(ds[i], k + 1)
    {
      assert ds[i][k] == cs[i][if i == a then k + 1 else k];
    }
  }

  method DetachAfter(e: Entry, cursor: Entry, ghost heads: seq<Entry?>, ghost cs: Buckets, ghost a: nat, ghost p: nat)
    requires Linked(heads, cs) && Distinct(cs)
    requires a < |cs| && 0 < p < |cs[a]| && cs[a][p - 1].node == e && cs[a][p].node == cursor
    modifies e`next
    ensures Linked(heads, Unlink(cs, a, p))
    ensures cursor.next == old(cursor.next)
  {
    ghost var ds: Buckets := Unlink(cs, a, p);
    assert Alone(cs, a, p - 1) && Alone(cs, a, p);
    e.next := cursor.next;
    forall i, k | 0 <= i < |ds| && 0 <= k < |ds[i]|
      ensures Holds(ds[i][k]) && ds[i][k].node.next == NodeAt(ds[i], k + 1)
    {
      var k' := if i == a && k >= p then k + 1 else k;
      assert ds[i][k] == cs[i][k'] && Holds(cs[i][k']);
    }
  }

  /** `x->next = t[b]; t[b] = x` for an entry that is in no chain. */
  method Prepend(t: array<Entry?>, b: nat, e: Entry, ghost cs: Buckets, ghost x: Item)
    requires Linked(t[..], cs) && Distinct(cs)
    requires b < |cs| && x.node == e && Holds(x) && e !in NodesOf(cs)
    modifies t, e`next
    ensures Linked(t[..], Push(cs, b, x)) && Distinct(Push(cs, b, x))
    ensures NodesOf(Push(cs, b, x)) == NodesOf(cs) + {e}
    ensures t[..] == old(t[..])[b := e]
  {
    PushDistinct(cs, b, x);
    ghost var ds: Buckets := Push(cs, b, x);
    e.next := t[b];
    t[b] := e;
    forall i, k | 0 <= i < |ds| && 0 <= k < |ds[i]|
      ensures Holds(ds[i][k]) && ds[i][k].node.next == NodeAt(ds[i], k + 1)
    {
      assert i != b ==> ds[i][k] == cs[i][k];
      assert i == b && k > 0 ==> ds[i][k] == cs[i][k - 1];
    }
  }

  /** `e->value = value` for entry `p` of chain `b`. */
  method Store(e: Entry, value: Word, ghost heads: seq<Entry?>, ghost cs: Buckets, ghost b: nat, ghost p: nat)
    requires Linked(heads, cs) && b < |cs| && p < |cs[b]| && cs[b][p].node == e && Alone(cs, b, p)
    modifies e`value
    ensures Linked(heads, Overwrite(cs, b, p, value))
  {
    ghost var ds: Buckets := Overwrite(cs, b, p, value);
    e.value := value;
    forall i, k | 0 <= i < |ds| && 0 <= k < |ds[i]|
      ensures Holds(ds[i][k]) && ds[i][k].node.next == NodeAt(ds[i], k + 1)
    {
      assert ds[i][k] == if i == b && k == p then cs[b][p].(value := value) else cs[i][k];
      assert ds[i][k].node == cs[i][k].node;
    }
  }
}
