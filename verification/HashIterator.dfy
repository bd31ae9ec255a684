/** Iterators that survive the removal of the entry they stand on. */
module HashIterators {
  import opened Words
  import opened Sequences
  import opened Primes
  import opened Chains
  import opened Rehash
  import opened TableModel
  import opened HashTables

  /** Where an iterator stands: on entry `p` of bucket `b`, or nowhere. */
  datatype Position = End | On(b: nat, p: nat)

  ghost predicate Inside(cs: Buckets, pos: Position) {
    pos.On? ==> pos.b < |cs| && pos.p < |cs[pos.b]|
  }

  /** The first entry in bucket `b` or a later one. */
  function FirstFrom(cs: Buckets, b: nat): (pos: Position)
    ensures Inside(cs, pos) && (pos.On? ==> pos.p == 0)
    decreases |cs| - b
  {
    if b >= |cs| then End else if cs[b] != [] then On(b, 0) else FirstFrom(cs, b + 1)
  }

  /** The place after the first `p` entries of bucket `b`. */
  function Following(cs: Buckets, b: nat, p: nat): (pos: Position)
    requires b < |cs|
    ensures Inside(cs, pos)
  {
    if p < |cs[b]| then On(b, p) else FirstFrom(cs, b + 1)
  }

  /** An iterator that stands nowhere starts over. */
  function Next(cs: Buckets, pos: Position): (next: Position)
    requires Inside(cs, pos)
    ensures Inside(cs, next)
  {
    match pos
    case End => FirstFrom(cs, 0)
    case On(b, p) => Following(cs, b, p + 1)
  }

  /** `struct pet_hashtable_iter`. */
  class Iterator {
    var htable: HashTable
    var entry: Entry?
    var parent: Entry?
    var index: nat

    /** The fields describe position `pos`; `parent` is the true predecessor in the chain. */
    ghost predicate At(pos: Position)
      reads this, htable
    {
      match pos
      case End => entry == null && parent == null
      case On(b, p) =>
        && b < |htable.items| && p < |htable.items[b]|
        && index == b && entry == htable.items[b][p].node
        && parent == if p == 0 then null else htable.items[b][p - 1].node
    }

    /** `pet_htable_create_iter`. */
    constructor (htable: HashTable)
      ensures this.htable == htable && At(End)
    {
      this.htable := htable;
      entry, parent, index := null, null, htable.tableLength;
    }

    /** The scan for the next bucket that is not empty, from bucket `b` on. */
    method Scan(b: nat) returns (j: nat)
      requires htable.Valid() && b <= |htable.items|
      ensures b <= j <= |htable.items|
      ensures FirstFrom(htable.items, b) == if j < |htable.items| then On(j, 0) else End
      ensures j < |htable.items| ==> htable.table[j] != null && htable.items[j] != [] && htable.table[j] == htable.items[j][0].node
    {
      hide Sound, Prime, LoadLimit;
      j := b;
      while j < htable.tableLength && htable.table[j] == null
        invariant b <= j <= |htable.items| && FirstFrom(htable.items, b) == FirstFrom(htable.items, j)
      {
        j := j + 1;
      }
    }

    /**
     * `pet_htable_iter_advance`. The entry may just have been unlinked: all that matters is that
     * its `next` leads to place `q` of the chain that `index` names.
     */
    method Advance(ghost q: nat) returns (more: int)
      requires htable.Valid()
      requires entry == null ==> parent == null
      requires entry != null ==>
        index < |htable.items| && q <= |htable.items[index]| && entry.next == NodeAt(htable.items[index], q)
      modifies this`entry, this`parent, this`index
      ensures more == if entry != null then 1 else 0
      ensures old(entry) == null ==> At(FirstFrom(htable.items, 0))
      ensures old(entry) != null && q == |htable.items[old(index)]| ==> At(FirstFrom(htable.items, old(index) + 1))
      ensures old(entry) != null && q < |htable.items[old(index)]| ==>
        index == old(index) && entry == htable.items[index][q].node && parent == old(entry)
    {
      hide Sound, Prime, LoadLimit, FirstFrom;
      if entry == null {
        var i := Scan(0);
        if i < htable.tableLength {
          entry, index := htable.table[i], i;
        }
        return if entry != null then 1 else 0;
      }
      var next := entry.next;
      if next != null {
        parent := entry;
        entry := next;
        return 1;
      }
      parent := null;
      index := index + 1;
      var j := Scan(index);
      if j >= htable.tableLength {
        index, entry := htable.tableLength, null;
        return 0;
      }
      index, entry := j, htable.table[j];
      return 1;
    }

    /** Advancing from a place in the table. */
    method AdvanceFrom(ghost pos: Position) returns (more: int)
      requires htable.Valid() && Inside(htable.items, pos) && At(pos)
      modifies this`entry, this`parent, this`index
      ensures At(Next(htable.items, pos)) && more == if entry != null then 1 else 0
    {
      hide Sound, Prime, LoadLimit, Linked, FirstFrom;
      if entry != null {
        LinkedHolds(htable.table[..], htable.items, pos.b, pos.p);
      }
      more := Advance(if pos.On? then pos.p + 1 else 0);
    }

    /** `pet_htable_iter_remove`, standing on entry `p` of bucket `b`. */
    method Remove(ghost b: nat, ghost p: nat) returns (more: int)
      requires htable.Valid() && At(On(b, p))
      modifies this`entry, this`parent, this`index
      modifies htable`items, htable`entryCount, htable`keysFreed, htable`nodesFreed
      modifies htable.table, NodesOf(htable.items)`next
      ensures htable.Valid() && htable.State() == RemoveAt(htable.cfg, old(htable.State()), b, p)
      ensures At(Following(htable.items, b, p)) && more == if entry != null then 1 else 0
      ensures NodesOf(htable.items) <= old(NodesOf(htable.items))
    {
      hide Sound, Prime, LoadLimit, Linked, FirstFrom;
      ghost var c := htable.items[b];
      LinkedHolds(htable.table[..], htable.items, b, p);
      var rememberEntry, rememberParent := entry, parent;
      htable.Drop(if parent == null then BucketHead(index) else NextOf(parent), entry, b, p);
      assert htable.items[b] == c[..p] + c[p + 1..];
      more := Advance(p);
      if parent == rememberEntry {
        parent := rememberParent;
      }
      htable.LogFreedNode(rememberEntry);
    }

    /** `pet_htable_iter_search`. */
    method Search(table: HashTable, key: Word) returns (found: int)
      requires table.Valid()
      modifies this
      ensures found == if Found(table.cfg, table.State(), key) then 1 else 0
      ensures found == 1 ==>
        htable == table && At(On(Bucket(table.cfg, table.State(), key), Place(table.cfg, table.State(), key)))
      ensures found == 0 ==> unchanged(this)
    {
      hide Sound, Prime, LoadLimit, First, IndexFor;
      var i, cell, e := table.Locate(key);
      if e == null {
        return 0;
      }
      htable, index, entry := table, i, e;
      parent := match cell case BucketHead(_) => null case NextOf(p) => p;
      return 1;
    }
  }
}
