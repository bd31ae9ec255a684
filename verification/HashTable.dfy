/** The chained hash table on the heap, proved to do what TableModel says. */
module HashTables {
  import opened Words
  import opened Sequences
  import opened Primes
  import opened HashFunctions
  import opened Chains
  import opened Rehash
  import opened TableModel
  import opened Expansion

  /** `struct pet_hashtable`. `items` and the logs are ghost: what the pointers spell, and what was freed. */
  class HashTable {
    const cfg: Config
    var table: array<Entry?>
    var tableLength: nat
    var entryCount: U32
    var loadLimit: nat
    var primeIndex: nat

    ghost var items: Buckets
    ghost var keysFreed: seq<Word>
    ghost var valuesFreed: seq<Word>
    ghost var nodesFreed: seq<Entry>
    ghost var relinked: nat

    ghost function State(): Table
      reads this
    {
      Table(items, primeIndex, entryCount, keysFreed, valuesFreed, nodesFreed, relinked)
    }

    /** The second half of `pet_create_htable`: a zeroed table of `size` buckets. */
    constructor (cfg: Config, primeIndex: nat, size: nat)
      requires primeIndex <= LAST_PRIME && size == Prime(primeIndex)
      ensures this.cfg == cfg && Valid() && fresh(table) && State() == Created(primeIndex)
    {
      hide Prime, LoadLimit, Sound;
      this.cfg := cfg;
      table := new Entry?[size](_ => null);
      tableLength, this.primeIndex, entryCount, loadLimit := size, primeIndex, 0, LoadLimit(primeIndex);
      items, keysFreed, valuesFreed, nodesFreed, relinked := Empties(size), [], [], [], 0;
      new;
      CreatedWellFormed(cfg, primeIndex);
    }

    /** Everything but the entry count, which is one ahead while an insertion expands the table. */
    ghost predicate Intact()
      reads this, table, NodesOf(items)
    {
      && Linked(table[..], items) && Shaped(cfg, State())
      && 0 < tableLength == table.Length == |items| && loadLimit == LoadLimit(primeIndex)
    }

    ghost predicate Valid()
      reads this, table, NodesOf(items)
    {
      Intact() && WellFormed(cfg, State())
    }

    /** `htable->table = new_table`. */
    method Install(newTable: array<Entry?>, ghost newItems: Buckets, ghost moved: nat)
      requires Linked(newTable[..], newItems)
      modifies this`table, this`items, this`relinked
      ensures Linked(table[..], items)
      ensures table == newTable && items == newItems && relinked == old(relinked) + moved
    {
      table, items, relinked := newTable, newItems, relinked + moved;
    }

    method TransferToFresh(newSize: nat)
      requires Linked(table[..], items) && Distinct(items) && newSize > 0
      modifies this`table, this`items, this`relinked, table, NodesOf(items)`next
      ensures Linked(table[..], items) && fresh(table)
      ensures items == FreshRehash(old(items), newSize, IndexFor(newSize))
      ensures relinked == old(relinked) + |Flatten(old(items))|
    {
      var newTable := new Entry?[newSize](_ => null);
      ghost var ds, moved := DrainTable(table, newTable, items);
      Install(newTable, ds, moved);
    }

    method TransferInPlace(newSize: nat)
      requires Linked(table[..], items) && Distinct(items) && 0 < |items| <= newSize
      modifies this`table, this`items, this`relinked, NodesOf(items)`next
      ensures Linked(table[..], items) && fresh(table)
      ensures items == InPlaceRehash(old(items), newSize, IndexFor(newSize))
      ensures relinked == old(relinked) + Misplaced(IndexFor(newSize), Lengthen(old(items), newSize), |old(items)|, 0, 0)
    {
      var newTable := Regrow(table, newSize);
      ghost var ds, moved := SettleTable(newTable, table.Length, items);
      Install(newTable, ds, moved);
    }

    /** The last two assignments of `hashtable_expand`. */
    method Adopt(newSize: nat, ghost growth: Growth, ghost before: Table) returns (ret: int)
      requires Linked(table[..], items) && Shaped(cfg, before) && !growth.NoMemory?
      requires before.primeIndex < LAST_PRIME && newSize == Prime(before.primeIndex + 1)
      requires State() == TableModel.Expand(before, growth)
      modifies this`tableLength, this`loadLimit
      ensures Intact() && ret == 0 && NodesOf(items) == NodesOf(before.chains)
    {
      hide Prime, LoadLimit, IndexFor, FreshRehash, InPlaceRehash, Misplaced, Sound;
      ExpandShaped(cfg, before, growth);
      SameContentsSameNodes(before.chains, items);
      tableLength := newSize;
      loadLimit := LoadLimit(primeIndex);
      ret := 0;
    }

    /** `hashtable_expand`; `growth` is what the allocator grants. */
    method Expand(growth: Growth) returns (ret: int)
      requires Intact()
      modifies this`table, this`tableLength, this`loadLimit, this`primeIndex, this`items, this`relinked
      modifies table, NodesOf(items)`next
      ensures Intact()
      ensures State() == TableModel.Expand(old(State()), growth)
      ensures ret == (if old(primeIndex) == LAST_PRIME || growth.NoMemory? then -1 else 0)
      ensures NodesOf(items) == old(NodesOf(items)) && (table == old(table) || fresh(table))
      ensures ret == -1 ==> table == old(table) && table[..] == old(table[..])
    {
      hide Prime, LoadLimit, IndexFor, FreshRehash, InPlaceRehash, Misplaced;
      ghost var before := State();
      if primeIndex == LAST_PRIME {
        return -1;
      }
      primeIndex := primeIndex + 1;
      var newSize := Prime(primeIndex);
      match growth {
        case FreshArray => TransferToFresh(newSize);
        case Reallocated => TransferInPlace(newSize);
        case NoMemory =>
          primeIndex := primeIndex - 1;
          return -1;
      }
      ret := Adopt(newSize, growth, before);
    }

    /** Fill in the entry that `calloc` returned and put it at the head of its bucket. */
    method Link(e: Entry, key: Word, value: Word) returns (ghost x: Item)
      requires Linked(table[..], items) && Distinct(items) && e !in NodesOf(items)
      requires tableLength == table.Length > 0
      modifies table, e, this`items
      ensures x == Item(e, key, cfg.hash(key), value)
      ensures Bucket(cfg, old(State()), key) < |old(items)|
      ensures items == Push(old(items), Bucket(cfg, old(State()), key), x)
      ensures Linked(table[..], items) && NodesOf(items) == old(NodesOf(items)) + {e}
    {
      hide IndexFor;
      IndexInto(tableLength);
      e.hash := cfg.hash(key);
      var index := IndexFor(tableLength)(e.hash);
      e.key := key;
      e.value := value;
      x := Item(e, key, cfg.hash(key), value);
      Prepend(table, index, e, items, x);
      items := Push(items, index, x);
    }

    method Uncount()
      requires Linked(table[..], items)
      modifies this`entryCount
      ensures entryCount == CountDown(old(entryCount)) && Linked(table[..], items)
    {
      entryCount := (entryCount - 1) % TWO_TO_32;
    }

    /** `++(htable->entry_count)`. */
    method CountNext()
      requires Intact()
      modifies this`entryCount
      ensures Intact() && State() == old(State()).(count := CountUp(old(entryCount)))
    {
      hide Prime, LoadLimit, Sound;
      entryCount := (entryCount + 1) % TWO_TO_32;
    }

    /** Count the new entry; expand if that exceeds the load limit, ignoring a failure to. */
    method MakeRoom(growth: Growth)
      requires Valid()
      modifies this, table, NodesOf(items)`next
      ensures Intact()
      ensures State() == Grown(old(State()), growth).(count := CountUp(old(entryCount)))
      ensures NodesOf(items) == old(NodesOf(items)) && (table == old(table) || fresh(table))
    {
      hide Prime, LoadLimit, TableModel.Expand, Sound, Linked;
      ghost var before := State();
      CountNext();
      ExpandIgnoresCount(before, growth, entryCount);
      if entryCount > loadLimit {
        var _ := Expand(growth);
      }
    }

    /** `pet_htable_insert`; `granted` says whether `calloc` returns a node. */
    method Insert(key: Word, value: Word, growth: Growth, granted: bool) returns (ret: int, ghost node: Option<Entry>)
      requires Valid()
      modifies this, table, NodesOf(items)`next
      ensures Valid()
      ensures node.Some? == granted && (granted ==> fresh(node.value))
      ensures (State(), ret) == TableModel.Insert(cfg, old(State()), key, value, growth, node)
      ensures fresh(NodesOf(items) - old(NodesOf(items))) && (table == old(table) || fresh(table))
    {
      hide Prime, LoadLimit, Grown, Bucketed, Hashed, Linked, Distinct, IndexFor, Push, Bucket, TableModel.Insert;
      ghost var before := State();
      MakeRoom(growth);
      GrownShaped(cfg, before, growth);
      ghost var room := State();
      if granted {
        var newEntry := new Entry.Calloc();
        node := Some(newEntry);
        ghost var x := Link(newEntry, key, value);
        ret := 0;
      } else {
        node := None;
        Uncount();
        ret := -1;
      }
      InsertAssembled(cfg, before, room, State(), key, value, growth, node);
      InsertWellFormed(cfg, before, key, value, growth, node);
    }

    /** The search loop that change, inc, dec, search, remove and iter_search share. */
    method Locate(key: Word) returns (index: nat, cell: Cell, cursor: Entry?)
      requires Valid()
      ensures index == Bucket(cfg, State(), key)
      ensures cursor == NodeAt(items[index], Place(cfg, State(), key))
      ensures cell == CellAt(items, index, Place(cfg, State(), key))
    {
      hide IndexFor, Sound, Prime, LoadLimit;
      var hashValue := cfg.hash(key);
      IndexInto(tableLength);
      index := IndexFor(tableLength)(hashValue);
      cell, cursor := BucketHead(index), table[index];
      ghost var c, p := items[index], 0;
      while cursor != null && !(hashValue == cursor.hash && cfg.eq(key, cursor.key))
        invariant p <= |c| && cursor == NodeAt(c, p) && cell == CellAt(items, index, p)
        invariant forall j :: 0 <= j < p ==> !Matching(cfg, key)(c[j])
        decreases |c| - p
      {
        assert Holds(items[index][p]);
        cell, cursor := NextOf(cursor), cursor.next;
        p := p + 1;
      }
      if p < |c| {
        assert Holds(items[index][p]);
      }
      FirstIs(c, Matching(cfg, key), p);
    }

    /** `pet_htable_search`. */
    method Search(key: Word) returns (value: Word)
      requires Valid()
      ensures value == TableModel.Search(cfg, State(), key)
    {
      hide Prime, LoadLimit, Bucketed, Hashed, Distinct;
      var index, cell, cursor := Locate(key);
      if cursor == null {
        return 0;
      }
      assert Holds(items[index][Place(cfg, State(), key)]);
      value := cursor.value;
    }

    /** `tmp_entry->value = value` for the entry that the search found. */
    method StoreValue(e: Entry, value: Word, ghost key: Word)
      requires Valid() && Found(cfg, State(), key) && e == Hit(cfg, State(), key).node
      modifies this`items, e`value
      ensures Valid() && State() == SetHit(cfg, old(State()), key, value)
      ensures NodesOf(items) == old(NodesOf(items))
    {
      hide Prime, LoadLimit, Bucketed, Hashed, First, IndexFor, Linked;
      ghost var b, p := Bucket(cfg, State(), key), Place(cfg, State(), key);
      SetHitWellFormed(cfg, State(), key, value);
      assert Alone(items, b, p);
      Store(e, value, table[..], items, b, p);
      SetItems(Overwrite(items, b, p, value));
    }

    ghost method SetItems(newItems: Buckets)
      requires Linked(table[..], newItems)
      modifies this`items
      ensures Linked(table[..], items) && items == newItems
    {
      items := newItems;
    }

    /** `pet_htable_change`. */
    method Change(key: Word, value: Word) returns (ret: int)
      requires Valid()
      modifies this`items, this`valuesFreed, NodesOf(items)`value
      ensures Valid() && NodesOf(items) == old(NodesOf(items))
      ensures (State(), ret) == TableModel.Change(cfg, old(State()), key, value)
    {
      hide Prime, LoadLimit, Bucketed, Hashed, Distinct, First, IndexFor;
      var index, cell, cursor := Locate(key);
      if cursor == null {
        return -1;
      }
      assert Holds(items[index][Place(cfg, State(), key)]);
      if cfg.freesValues {
        LogFreedValue(cursor.value);
      }
      StoreValue(cursor, value, key);
      assert old(valuesFreed) + [] == old(valuesFreed);
      ret := 0;
    }

    /** `val_free_fn(value)`. */
    ghost method LogFreedValue(value: Word)
      requires Valid()
      modifies this`valuesFreed
      ensures Valid() && valuesFreed == old(valuesFreed) + [value]
    {
      hide Prime, LoadLimit, Sound;
      valuesFreed := valuesFreed + [value];
    }

    /** `pet_htable_inc`. */
    method Inc(key: Word, value: Word) returns (ret: int)
      requires Valid()
      modifies this`items, NodesOf(items)`value
      ensures Valid() && NodesOf(items) == old(NodesOf(items))
      ensures (State(), ret) == TableModel.Inc(cfg, old(State()), key, value)
    {
      hide Prime, LoadLimit, Bucketed, Hashed, Distinct, First, IndexFor;
      var index, cell, cursor := Locate(key);
      if cursor == null {
        return -1;
      }
      assert Holds(items[index][Place(cfg, State(), key)]);
      StoreValue(cursor, (cursor.value + value) % TWO_TO_64, key);
      ret := 0;
    }

    /** `pet_htable_dec`. */
    method Dec(key: Word, value: Word) returns (ret: int)
      requires Valid()
      modifies this`items, NodesOf(items)`value
      ensures Valid() && NodesOf(items) == old(NodesOf(items))
      ensures (State(), ret) == TableModel.Dec(cfg, old(State()), key, value)
    {
      hide Prime, LoadLimit, Bucketed, Hashed, Distinct, First, IndexFor;
      var index, cell, cursor := Locate(key);
      if cursor == null {
        return -1;
      }
      assert Holds(items[index][Place(cfg, State(), key)]);
      StoreValue(cursor, (cursor.value - value) % TWO_TO_64, key);
      ret := 0;
    }

    /** Unlink an entry through the cell that leads to it, count it out, and free its key. */
    method Drop(cell: Cell, cursor: Entry, ghost b: nat, ghost p: nat)
      requires Valid()
      requires b < |items| && p < |items[b]| && items[b][p].node == cursor && cell == CellAt(items, b, p)
      modifies this`items, this`entryCount, this`keysFreed, table, NodesOf(items)`next
      ensures Valid() && State() == Unhook(cfg, old(State()), b, p)
      ensures cursor.next == old(cursor.next) && NodesOf(items) <= old(NodesOf(items))
    {
      hide Prime, LoadLimit, Bucketed, Hashed, Linked, IndexFor, Unlink;
      ghost var before, x := State(), items[b][p];
      RemoveAtWellFormed(cfg, before, b, p);
      LinkedHolds(table[..], items, b, p);
      Detach(table, cell, cursor, items, b, p);
      SetItems(Unlink(items, b, p));
      Release(cursor);
    }

    /** `entry_count -= 1; key_free_fn(cursor->key)`. */
    method Release(cursor: Entry)
      requires Linked(table[..], items)
      modifies this`entryCount, this`keysFreed
      ensures Linked(table[..], items) && entryCount == CountDown(old(entryCount))
      ensures keysFreed == old(keysFreed) + (if cfg.freesKeys then [cursor.key] else [])
    {
      entryCount := (entryCount - 1) % TWO_TO_32;
      if cfg.freesKeys {
        keysFreed := keysFreed + [cursor.key];
      }
    }

    /** `free(e)`. */
    ghost method LogFreedNode(e: Entry)
      requires Valid()
      modifies this`nodesFreed
      ensures Valid() && nodesFreed == old(nodesFreed) + [e]
    {
      hide Prime, LoadLimit, Sound;
      nodesFreed := nodesFreed + [e];
    }

    /** `pet_htable_cond_remove`; `pet_htable_remove` passes no condition. */
    method CondRemove(key: Word, cond: Option<Word -> bool>) returns (value: Word)
      requires Valid()
      modifies this`items, this`entryCount, this`keysFreed, this`nodesFreed, table, NodesOf(items)`next
      ensures Valid() && NodesOf(items) <= old(NodesOf(items))
      ensures (State(), value) == TableModel.CondRemove(cfg, old(State()), key, cond)
    {
      hide Prime, LoadLimit, Bucketed, Hashed, Distinct, First, IndexFor, Unlink;
      var index, cell, cursor := Locate(key);
      if cursor == null {
        return 0;
      }
      assert Holds(items[index][Place(cfg, State(), key)]);
      if cond.Some? && !cond.value(cursor.value) {
        return 0;
      }
      value := cursor.value;
      Drop(cell, cursor, index, Place(cfg, State(), key));
      LogFreedNode(cursor);
    }

    /** `pet_htable_count`. */
    method Count() returns (count: U32)
      requires Valid()
      ensures count == |Flatten(items)| % TWO_TO_32
    {
      count := entryCount;
    }

    /** The calls that `pet_free_htable` makes for one entry. */
    method FreeEntry(tmp: Entry, ghost x: Item, ghost before: Table, ghost done: seq<Item>)
      requires Linked(table[..], items) && tmp == x.node && Holds(x) && Freed(before, done)
      modifies this`keysFreed, this`valuesFreed, this`nodesFreed
      ensures Linked(table[..], items) && Freed(before, done + [x])
    {
      ListsAppend(done, [x]);
      if cfg.freesKeys {
        keysFreed := keysFreed + [tmp.key];
      }
      if cfg.freesValues {
        valuesFreed := valuesFreed + [tmp.value];
      }
      nodesFreed := nodesFreed + [tmp];
    }

    /** The log says that exactly `done` was freed since `before`, in that order. */
    ghost predicate Freed(before: Table, done: seq<Item>)
      reads this
    {
      && keysFreed == before.keysFreed + (if cfg.freesKeys then Keys(done) else [])
      && valuesFreed == before.valuesFreed + (if cfg.freesValues then Values(done) else [])
      && nodesFreed == before.nodesFreed + Nodes(done)
    }

    /** The inner loop of `pet_free_htable`. */
    method FreeChain(i: nat, ghost before: Table, ghost done: seq<Item>)
      requires Linked(table[..], items) && i < |items| && Freed(before, done)
      modifies this`keysFreed, this`valuesFreed, this`nodesFreed
      ensures Linked(table[..], items) && Freed(before, done + items[i])
    {
      hide Freed;
      var cursor := table[i];
      ghost var p := 0;
      assert done + items[i][..0] == done;
      while cursor != null
        invariant Linked(table[..], items)
        invariant p <= |items[i]| && cursor == NodeAt(items[i], p)
        invariant Freed(before, done + items[i][..p])
        decreases |items[i]| - p
      {
        var tmp := cursor;
        LinkedHolds(table[..], items, i, p);
        cursor := cursor.next;
        assert done + items[i][..p + 1] == (done + items[i][..p]) + [items[i][p]];
        FreeEntry(tmp, items[i][p], before, done + items[i][..p]);
        p := p + 1;
      }
      assert items[i][..p] == items[i];
    }

    /** `pet_free_htable`. */
    method Destroy()
      requires Valid()
      modifies this`keysFreed, this`valuesFreed, this`nodesFreed
      ensures State() == TableModel.Destroy(cfg, old(State()))
    {
      hide Linked, Sound, Prime, LoadLimit;
      ghost var before := State();
      assert Freed(before, Flatten(items[..0]));
      var i := 0;
      while i < tableLength
        invariant i <= tableLength == |items|
        invariant Linked(table[..], items)
        invariant Freed(before, Flatten(items[..i]))
      {
        FreeChain(i, before, Flatten(items[..i]));
        FlattenAppend(items[..i], [items[i]]);
        assert items[..i] + [items[i]] == items[..i + 1];
        assert Flatten([items[i]]) == items[i];
        i := i + 1;
      }
      assert items[..i] == items;
    }
  }

  /**
   * `pet_create_htable`. The two flags say whether `calloc` grants the header and the array. The
   * length is the smallest listed prime above `minSize`.
   */
  method Create(minSize: U32, hashFn: Word -> U32, eq: (Word, Word) -> bool, freesKeys: bool, freesValues: bool,
                headerGranted: bool, arrayGranted: bool)
    returns (t: HashTable?)
    ensures t == null <==> minSize > 0x4000_0000 || !headerGranted || !arrayGranted
    ensures t != null ==>
      && (forall a: Word, b: Word :: t.cfg.eq(a, b) <==> eq(a, b))
      && (forall key: Word :: t.cfg.hash(key) == DoHash(hashFn(key)))
      && t.cfg.freesKeys == freesKeys && t.cfg.freesValues == freesValues
    ensures t != null ==>
      && fresh(t) && fresh(t.table) && t.Valid() && t.cfg == Configure(hashFn, eq, freesKeys, freesValues)
      && t.State() == Created(t.primeIndex) && |t.items| > minSize
      && forall i :: 0 <= i <= LAST_PRIME && Prime(i) > minSize ==> |t.items| <= Prime(i)
  {
    hide DoHash;
    var primeIndex, size := 0, Prime(0);
    if minSize > 0x4000_0000 {
      return null;
    }
    while primeIndex <= LAST_PRIME
      invariant primeIndex <= LAST_PRIME + 1
      invariant forall i :: 0 <= i < primeIndex ==> Prime(i) <= minSize
    {
      if Prime(primeIndex) > minSize {
        size := Prime(primeIndex);
        break;
      }
      primeIndex := primeIndex + 1;
    }
    assert primeIndex <= LAST_PRIME by {
      assert Prime(LAST_PRIME) > minSize;
    }
    if !headerGranted || !arrayGranted {
      return null;
    }
    forall i | primeIndex < i <= LAST_PRIME
      ensures Prime(primeIndex) < Prime(i)
    {
      PrimesIncrease(primeIndex, i);
    }
    t := new HashTable(Configure(hashFn, eq, freesKeys, freesValues), primeIndex, size);
  }
}
