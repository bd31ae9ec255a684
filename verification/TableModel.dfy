/** The hash table as a state machine on values: what each public operation does. */
module TableModel {
  import opened Words
  import opened Sequences
  import opened Primes
  import opened HashFunctions
  import opened Chains
  import opened Rehash

  /**
   * What the creator of a table supplies. `hash` is the caller's hash function followed by the
   * bit mixing of `do_hash`; the two flags say whether the free callbacks are non-null.
   */
  datatype Config = Config(
    hash: Word -> U32, eq: (Word, Word) -> bool, freesKeys: bool, freesValues: bool)

  /** The table, and the log of everything it handed to a free function. */
  datatype Table = Table(
    chains: Buckets, primeIndex: nat, count: U32,
    keysFreed: seq<Word>, valuesFreed: seq<Word>, nodesFreed: seq<Entry>, relinked: nat)

  /** The allocator's answer to a request for a longer bucket array. */
  datatype Growth = FreshArray | Reallocated | NoMemory

  ghost predicate Hashed(cfg: Config, cs: Buckets) {
    forall i, k :: 0 <= i < |cs| && 0 <= k < |cs[i]| ==> cs[i][k].hash == cfg.hash(cs[i][k].key)
  }

  /** Chains are acyclic and disjoint, and every entry is in the bucket of its key's hash. */
  ghost predicate Sound(cfg: Config, cs: Buckets) {
    |cs| > 0 && Bucketed(cs, IndexFor(|cs|)) && Distinct(cs) && Hashed(cfg, cs)
  }

  /** The number of buckets is the listed prime, and the next one is longer. */
  predicate Sized(s: Table) {
    && s.primeIndex <= LAST_PRIME && 0 < |s.chains| == Prime(s.primeIndex)
    && (s.primeIndex < LAST_PRIME ==> |s.chains| < Prime(s.primeIndex + 1))
  }

  ghost predicate Shaped(cfg: Config, s: Table) {
    Sized(s) && Sound(cfg, s.chains)
  }

  function Total(s: Table): nat { |Flatten(s.chains)| }

  /** The count field is 32 bits wide and wraps. */
  ghost predicate WellFormed(cfg: Config, s: Table) {
    Shaped(cfg, s) && s.count == Total(s) % TWO_TO_32
  }

  /** So it is the number of linked entries exactly as long as there are fewer than two to the 32. */
  lemma CountIsTotal(cfg: Config, s: Table)
    requires WellFormed(cfg, s)
    ensures s.count == Total(s) <==> Total(s) < TWO_TO_32
  {
    hide Sized, Sound, Flatten;
  }

  function Bucket(cfg: Config, s: Table, key: Word): (b: nat)
    requires |s.chains| > 0
    ensures b < |s.chains|
  {
    IndexInto(|s.chains|);
    IndexFor(|s.chains|)(cfg.hash(key))
  }

  function Matching(cfg: Config, key: Word): Item -> bool {
    (x: Item) => x.hash == cfg.hash(key) && cfg.eq(key, x.key)
  }

  /** Where the search for `key` stops in its bucket; the chain length when it fails. */
  function Place(cfg: Config, s: Table, key: Word): (p: nat)
    requires |s.chains| > 0
    ensures p <= |s.chains[Bucket(cfg, s, key)]|
  {
    First(s.chains[Bucket(cfg, s, key)], Matching(cfg, key))
  }

  predicate Found(cfg: Config, s: Table, key: Word)
    requires |s.chains| > 0
  {
    Place(cfg, s, key) < |s.chains[Bucket(cfg, s, key)]|
  }

  function Hit(cfg: Config, s: Table, key: Word): (x: Item)
    requires |s.chains| > 0 && Found(cfg, s, key)
    ensures x.hash == cfg.hash(key) && cfg.eq(key, x.key)
  {
    s.chains[Bucket(cfg, s, key)][Place(cfg, s, key)]
  }

  // ---------- Operations ----------

  function Expand(s: Table, growth: Growth): Table
    requires Sized(s)
  {
    if s.primeIndex == LAST_PRIME then s else
    var n := Prime(s.primeIndex + 1);
    match growth
    case FreshArray =>
      s.(chains := FreshRehash(s.chains, n, IndexFor(n)), primeIndex := s.primeIndex + 1,
         relinked := s.relinked + Total(s))
    case Reallocated =>
      s.(chains := InPlaceRehash(s.chains, n, IndexFor(n)), primeIndex := s.primeIndex + 1,
         relinked := s.relinked + Misplaced(IndexFor(n), Lengthen(s.chains, n), |s.chains|, 0, 0))
    case NoMemory => s
  }

  function CountUp(c: U32): U32 { (c + 1) % TWO_TO_32 }

  function CountDown(c: U32): U32 { (c - 1) % TWO_TO_32 }

  predicate Overloaded(s: Table)
    requires Sized(s)
  {
    CountUp(s.count) > LoadLimit(s.primeIndex)
  }

  function Grown(s: Table, growth: Growth): Table
    requires Sized(s)
  {
    if Overloaded(s) then Expand(s, growth) else s
  }

  /** `node` is the entry `calloc` returned, if it did. */
  function Insert(cfg: Config, s: Table, key: Word, value: Word, growth: Growth, node: Option<Entry>): (Table, int)
    requires Sized(s)
  {
    var g := Grown(s, growth);
    match node
    case None => (g, -1)
    case Some(e) =>
      var x := Item(e, key, cfg.hash(key), value);
      (g.(chains := Push(g.chains, Bucket(cfg, g, key), x), count := CountUp(s.count)), 0)
  }

  /** The value of the entry that a search for `key` finds becomes `value`. */
  function SetHit(cfg: Config, s: Table, key: Word, value: Word): Table
    requires |s.chains| > 0 && Found(cfg, s, key)
  {
    var b, p := Bucket(cfg, s, key), Place(cfg, s, key);
    s.(chains := Overwrite(s.chains, b, p, value))
  }

  function Change(cfg: Config, s: Table, key: Word, value: Word): (Table, int)
    requires |s.chains| > 0
  {
    if !Found(cfg, s, key) then (s, -1) else
    var freed := if cfg.freesValues then [Hit(cfg, s, key).value] else [];
    (SetHit(cfg, s, key, value).(valuesFreed := s.valuesFreed + freed), 0)
  }

  function Inc(cfg: Config, s: Table, key: Word, value: Word): (Table, int)
    requires |s.chains| > 0
  {
    if !Found(cfg, s, key) then (s, -1) else
    (SetHit(cfg, s, key, (Hit(cfg, s, key).value + value) % TWO_TO_64), 0)
  }

  function Dec(cfg: Config, s: Table, key: Word, value: Word): (Table, int)
    requires |s.chains| > 0
  {
    if !Found(cfg, s, key) then (s, -1) else
    (SetHit(cfg, s, key, (Hit(cfg, s, key).value - value) % TWO_TO_64), 0)
  }

  /** The C code answers NULL, that is 0, for an absent key. */
  function Search(cfg: Config, s: Table, key: Word): Word
    requires |s.chains| > 0
  {
    if Found(cfg, s, key) then Hit(cfg, s, key).value else 0
  }

  /** Entry `p` of bucket `b` leaves the table and its key is freed. */
  function Unhook(cfg: Config, s: Table, b: nat, p: nat): Table
    requires b < |s.chains| && p < |s.chains[b]|
  {
    s.(chains := Unlink(s.chains, b, p), count := CountDown(s.count),
       keysFreed := s.keysFreed + (if cfg.freesKeys then [s.chains[b][p].key] else []))
  }

  /** So is, in the end, its node. */
  function RemoveAt(cfg: Config, s: Table, b: nat, p: nat): Table
    requires b < |s.chains| && p < |s.chains[b]|
  {
    Unhook(cfg, s, b, p).(nodesFreed := s.nodesFreed + [s.chains[b][p].node])
  }

  /** `cond` is None for a null condition function. */
  predicate Allows(cond: Option<Word -> bool>, value: Word) {
    cond.None? || cond.value(value)
  }

  /** A refused removal changes nothing; one that the condition lets through takes out one entry. */
  lemma ConditionDecides(cfg: Config, s: Table, key: Word, f: Word -> bool)
    requires |s.chains| > 0 && Found(cfg, s, key)
    ensures !f(Hit(cfg, s, key).value) ==> CondRemove(cfg, s, key, Some(f)) == (s, 0)
    ensures f(Hit(cfg, s, key).value) ==> CondRemove(cfg, s, key, Some(f)) == CondRemove(cfg, s, key, None)
    ensures CondRemove(cfg, s, key, None).1 == Hit(cfg, s, key).value
    ensures Total(CondRemove(cfg, s, key, None).0) == Total(s) - 1
    ensures multiset(Flatten(CondRemove(cfg, s, key, None).0.chains)) + multiset{Hit(cfg, s, key)} ==
            multiset(Flatten(s.chains))
  {
    UnlinkContents(s.chains, Bucket(cfg, s, key), Place(cfg, s, key));
  }

  function CondRemove(cfg: Config, s: Table, key: Word, cond: Option<Word -> bool>): (Table, Word)
    requires |s.chains| > 0
  {
    if !Found(cfg, s, key) || !Allows(cond, Hit(cfg, s, key).value) then (s, 0) else
    (RemoveAt(cfg, s, Bucket(cfg, s, key), Place(cfg, s, key)), Hit(cfg, s, key).value)
  }

  function Keys(items: seq<Item>): seq<Word> { Map(items, (x: Item) => x.key) }

  function Values(items: seq<Item>): seq<Word> { Map(items, (x: Item) => x.value) }

  function Nodes(items: seq<Item>): seq<Entry> { Map(items, (x: Item) => x.node) }

  lemma ListsAppend(s: seq<Item>, t: seq<Item>)
    ensures Keys(s + t) == Keys(s) + Keys(t)
    ensures Values(s + t) == Values(s) + Values(t)
    ensures Nodes(s + t) == Nodes(s) + Nodes(t)
  {
    MapAppend(s, t, (x: Item) => x.key);
    MapAppend(s, t, (x: Item) => x.value);
    MapAppend(s, t, (x: Item) => x.node);
  }

  /** The log after the table is destroyed. */
  function Destroy(cfg: Config, s: Table): Table {
    var all := Flatten(s.chains);
    s.(keysFreed := s.keysFreed + (if cfg.freesKeys then Keys(all) else []),
       valuesFreed := s.valuesFreed + (if cfg.freesValues then Values(all) else []),
       nodesFreed := s.nodesFreed + Nodes(all))
  }

  /** A new table. */
  function Created(primeIndex: nat): Table
    requires primeIndex <= LAST_PRIME
  {
    Table(Empties(Prime(primeIndex)), primeIndex, 0, [], [], [], 0)
  }

  /** What the creator passes in: the caller's hash function is followed by the mixing of `do_hash`. */
  function Configure(hashFn: Word -> U32, eq: (Word, Word) -> bool, freesKeys: bool, freesValues: bool): Config {
    Config((key: Word) => DoHash(hashFn(key)), eq, freesKeys, freesValues)
  }

  // ---------- Every operation keeps the table well formed ----------

  lemma CreatedWellFormed(cfg: Config, primeIndex: nat)
    requires primeIndex <= LAST_PRIME
    ensures WellFormed(cfg, Created(primeIndex)) && Total(Created(primeIndex)) == 0
  {
    hide Prime;
    FlattenEmpty(Created(primeIndex).chains);
    if primeIndex < LAST_PRIME {
      ScheduleGrows(primeIndex);
    } else {
      ScheduleGrows(primeIndex - 1);
    }
  }

  lemma ContentsKeepHashed(cfg: Config, cs: Buckets, ds: Buckets)
    requires Hashed(cfg, cs) && multiset(Flatten(ds)) == multiset(Flatten(cs))
    ensures Hashed(cfg, ds)
  {
    forall i, k | 0 <= i < |ds| && 0 <= k < |ds[i]|
      ensures ds[i][k].hash == cfg.hash(ds[i][k].key)
    {
      InFlatten(ds, i, k);
      assert ds[i][k] in multiset(Flatten(cs));
      var a, p := FlattenIn(cs, ds[i][k]);
    }
  }

  lemma FreshBucketed(cs: Buckets, n: nat, home: U32 -> nat)
    ensures Bucketed(FreshRehash(cs, n, home), home)
  {
    var ds: Buckets := FreshRehash(cs, n, home);
    forall j, k | 0 <= j < n && 0 <= k < |ds[j]|
      ensures home(ds[j][k].hash) == j
    {
      ReversedFilterIn(Flatten(cs), AtHome(home, j), ds[j][k]);
    }
  }

  lemma ReversedFilterIn(s: seq<Item>, keep: Item -> bool, x: Item)
    requires x in Reverse(Filter(s, keep))
    ensures x in s && keep(x)
  {
    ReverseMultiset(Filter(s, keep));
    assert x in multiset(Filter(s, keep));
    FilterIn(s, keep, x);
  }

  lemma InPlaceBucketed(cs: Buckets, n: nat, home: U32 -> nat)
    requires |cs| <= n
    ensures Bucketed(InPlaceRehash(cs, n, home), home)
  {
    var ds: Buckets := InPlaceRehash(cs, n, home);
    forall j, k | 0 <= j < n && 0 <= k < |ds[j]|
      ensures home(ds[j][k].hash) == j
    {
      if k < |Newcomers(cs, home, j)| {
        ReversedFilterIn(Flatten(if j < |cs| then cs[j := []] else cs), AtHome(home, j), ds[j][k]);
      } else {
        FilterIn(cs[j], AtHome(home, j), ds[j][k]);
      }
    }
  }

  /** The fresh-table plan neither loses, duplicates nor alters an entry. */
  lemma FreshKeeps(cs: Buckets, n: nat, home: U32 -> nat)
    requires Into(home, n) && Distinct(cs)
    ensures multiset(Flatten(FreshRehash(cs, n, home))) == multiset(Flatten(cs))
    ensures Distinct(FreshRehash(cs, n, home))
  {
    DrainKeeps(home, cs, 0, Empties(n));
    DrainIsFresh(home, cs, n);
    FlattenEmpty(Empties(n));
  }

  /** Nor does the in-place plan. */
  lemma InPlaceKeeps(cs: Buckets, n: nat, home: U32 -> nat)
    requires 0 < |cs| <= n && Into(home, n) && Distinct(cs)
    ensures multiset(Flatten(InPlaceRehash(cs, n, home))) == multiset(Flatten(cs))
    ensures Distinct(InPlaceRehash(cs, n, home))
  {
    var ds := Lengthen(cs, n);
    Lengthened(cs, ds);
    SettleKeeps(home, ds, |cs|, 0, 0);
    SettleIsInPlace(home, cs, ds);
  }

  /** Adding empty buckets at the end. */
  lemma Lengthened(cs: Buckets, ds: Buckets)
    requires |cs| <= |ds| && ds == Lengthen(cs, |ds|) && Distinct(cs)
    ensures Distinct(ds) && NodesOf(ds) == NodesOf(cs) && Flatten(ds) == Flatten(cs)
  {
    assert ds == cs + ds[|cs|..];
    FlattenAppend(cs, ds[|cs|..]);
    FlattenEmpty(ds[|cs|..]);
    forall a, p | 0 <= a < |ds| && 0 <= p < |ds[a]|
      ensures Alone(ds, a, p) && ds[a][p].node in NodesOf(cs)
    {
      assert Alone(cs, a, p);
    }
    forall a, p | 0 <= a < |cs| && 0 <= p < |cs[a]|
      ensures cs[a][p].node in NodesOf(ds)
    {
      assert ds[a][p] == cs[a][p];
    }
  }

  lemma FreshSound(cfg: Config, cs: Buckets, n: nat)
    requires n > 0 && Sound(cfg, cs)
    ensures Sound(cfg, FreshRehash(cs, n, IndexFor(n)))
    ensures multiset(Flatten(FreshRehash(cs, n, IndexFor(n)))) == multiset(Flatten(cs))
  {
    IndexInto(n);
    FreshBucketed(cs, n, IndexFor(n));
    FreshKeeps(cs, n, IndexFor(n));
    ContentsKeepHashed(cfg, cs, FreshRehash(cs, n, IndexFor(n)));
  }

  lemma InPlaceSound(cfg: Config, cs: Buckets, n: nat)
    requires |cs| <= n && Sound(cfg, cs)
    ensures Sound(cfg, InPlaceRehash(cs, n, IndexFor(n)))
    ensures multiset(Flatten(InPlaceRehash(cs, n, IndexFor(n)))) == multiset(Flatten(cs))
  {
    IndexInto(n);
    InPlaceBucketed(cs, n, IndexFor(n));
    InPlaceKeeps(cs, n, IndexFor(n));
    ContentsKeepHashed(cfg, cs, InPlaceRehash(cs, n, IndexFor(n)));
  }

  lemma ExpandShaped(cfg: Config, s: Table, growth: Growth)
    requires Shaped(cfg, s)
    ensures var t := Expand(s, growth);
      Shaped(cfg, t) && multiset(Flatten(t.chains)) == multiset(Flatten(s.chains)) && Total(t) == Total(s)
  {
    hide Prime, LoadLimit, IndexFor, FreshRehash, InPlaceRehash, Misplaced, Sound;
    ExpandSized(s, growth);
    if s.primeIndex < LAST_PRIME {
      if growth.FreshArray? {
        FreshSound(cfg, s.chains, Prime(s.primeIndex + 1));
      } else if growth.Reallocated? {
        InPlaceSound(cfg, s.chains, Prime(s.primeIndex + 1));
      }
    }
    var t := Expand(s, growth);
    assert Total(t) == |multiset(Flatten(t.chains))| && Total(s) == |multiset(Flatten(s.chains))|;
  }

  lemma ExpandIgnoresCount(s: Table, growth: Growth, count: U32)
    requires Sized(s)
    ensures Expand(s.(count := count), growth) == Expand(s, growth).(count := count)
  {
  }

  lemma ExpandSized(s: Table, growth: Growth)
    requires Sized(s)
    ensures Sized(Expand(s, growth))
  {
    hide Prime, LoadLimit, IndexFor, FreshRehash, InPlaceRehash, Misplaced, Sound;
    if s.primeIndex + 1 < LAST_PRIME {
      ScheduleGrows(s.primeIndex + 1);
    }
  }

  lemma InsertWellFormed(cfg: Config, s: Table, key: Word, value: Word, growth: Growth, node: Option<Entry>)
    requires WellFormed(cfg, s)
    requires node.Some? ==> node.value !in NodesOf(s.chains)
    ensures WellFormed(cfg, Insert(cfg, s, key, value, growth, node).0)
    ensures Total(Insert(cfg, s, key, value, growth, node).0) == Total(s) + if node.Some? then 1 else 0
  {
    GrownShaped(cfg, s, growth);
    if node.Some? {
      var g, x := Grown(s, growth), Item(node.value, key, cfg.hash(key), value);
      var b := Bucket(cfg, g, key);
      PushSound(cfg, g.chains, b, x);
      Reassembled(cfg, g, Push(g.chains, b, x), Total(s), s.count);
    }
  }

  /** Insertion put together from making room (`room`) and linking the node, or giving up. */
  lemma InsertAssembled(cfg: Config, s: Table, room: Table, t: Table,
                        key: Word, value: Word, growth: Growth, node: Option<Entry>)
    requires Shaped(cfg, s) && |Grown(s, growth).chains| > 0
    requires room == Grown(s, growth).(count := CountUp(s.count)) && Grown(s, growth).count == s.count
    requires node.None? ==> t == room.(count := CountDown(room.count))
    requires node.Some? ==> t == room.(chains :=
      Push(room.chains, Bucket(cfg, room, key), Item(node.value, key, cfg.hash(key), value)))
    ensures Insert(cfg, s, key, value, growth, node) == (t, if node.Some? then 0 else -1)
  {
    hide Grown, Sound, Prime;
  }

  /** The new state after the number of entries changed by one. */
  lemma Reassembled(cfg: Config, s: Table, cs: Buckets, total: nat, count: U32)
    requires Shaped(cfg, s) && |cs| == |s.chains| && Sound(cfg, cs) && count == total % TWO_TO_32
    ensures |Flatten(cs)| == total + 1 ==> WellFormed(cfg, s.(chains := cs, count := CountUp(count)))
    ensures |Flatten(cs)| + 1 == total ==>
      forall ks, ns :: WellFormed(cfg, s.(chains := cs, count := CountDown(count), keysFreed := ks, nodesFreed := ns))
  {
    CountsFollow(total, count);
  }

  lemma CountsFollow(total: nat, count: U32)
    requires count == total % TWO_TO_32
    ensures CountUp(count) == (total + 1) % TWO_TO_32
    ensures total > 0 ==> CountDown(count) == (total - 1) % TWO_TO_32
  {
  }

  lemma GrownShaped(cfg: Config, s: Table, growth: Growth)
    requires Shaped(cfg, s)
    ensures var g := Grown(s, growth);
      && Shaped(cfg, g) && g.count == s.count && Total(g) == Total(s)
      && multiset(Flatten(g.chains)) == multiset(Flatten(s.chains)) && NodesOf(g.chains) == NodesOf(s.chains)
  {
    ExpandShaped(cfg, s, growth);
    SameContentsSameNodes(s.chains, Grown(s, growth).chains);
  }

  lemma SameContentsSameNodes(cs: Buckets, ds: Buckets)
    requires multiset(Flatten(ds)) == multiset(Flatten(cs))
    ensures NodesOf(ds) == NodesOf(cs)
  {
    NodesIncluded(cs, ds);
    NodesIncluded(ds, cs);
  }

  lemma NodesIncluded(cs: Buckets, ds: Buckets)
    requires multiset(Flatten(cs)) <= multiset(Flatten(ds))
    ensures NodesOf(cs) <= NodesOf(ds)
  {
    forall i, k | 0 <= i < |cs| && 0 <= k < |cs[i]|
      ensures cs[i][k].node in NodesOf(ds)
    {
      InFlatten(cs, i, k);
      assert cs[i][k] in multiset(Flatten(ds));
      var a, p := FlattenIn(ds, cs[i][k]);
    }
  }

  lemma PushSound(cfg: Config, cs: Buckets, b: nat, x: Item)
    requires Sound(cfg, cs) && x.hash == cfg.hash(x.key) && x.node !in NodesOf(cs)
    requires b < |cs| && b == IndexFor(|cs|)(x.hash)
    ensures Sound(cfg, Push(cs, b, x))
    ensures |Flatten(Push(cs, b, x))| == |Flatten(cs)| + 1
  {
    PushDistinct(cs, b, x);
    PushContents(cs, b, x);
    var ds: Buckets := Push(cs, b, x);
    forall i, k | 0 <= i < |ds| && 0 <= k < |ds[i]|
      ensures IndexFor(|ds|)(ds[i][k].hash) == i && ds[i][k].hash == cfg.hash(ds[i][k].key)
    {
      assert ds[i][k] == if i != b then cs[i][k] else if k == 0 then x else cs[b][k - 1];
    }
  }

  lemma RemoveAtWellFormed(cfg: Config, s: Table, b: nat, p: nat)
    requires WellFormed(cfg, s) && b < |s.chains| && p < |s.chains[b]|
    ensures WellFormed(cfg, RemoveAt(cfg, s, b, p)) && WellFormed(cfg, Unhook(cfg, s, b, p))
    ensures Total(RemoveAt(cfg, s, b, p)) == Total(s) - 1
  {
    UnlinkSound(cfg, s.chains, b, p);
    Reassembled(cfg, s, Unlink(s.chains, b, p), Total(s), s.count);
  }

  lemma UnlinkSound(cfg: Config, cs: Buckets, b: nat, p: nat)
    requires Sound(cfg, cs) && b < |cs| && p < |cs[b]|
    ensures Sound(cfg, Unlink(cs, b, p))
    ensures |Flatten(Unlink(cs, b, p))| + 1 == |Flatten(cs)|
  {
    UnlinkDistinct(cs, b, p);
    UnlinkContents(cs, b, p);
    var ds: Buckets := Unlink(cs, b, p);
    forall i, k | 0 <= i < |ds| && 0 <= k < |ds[i]|
      ensures IndexFor(|ds|)(ds[i][k].hash) == i && ds[i][k].hash == cfg.hash(ds[i][k].key)
    {
      assert ds[i][k] == cs[i][if i == b && k >= p then k + 1 else k];
    }
  }

  lemma SetHitWellFormed(cfg: Config, s: Table, key: Word, value: Word)
    requires WellFormed(cfg, s) && Found(cfg, s, key)
    ensures WellFormed(cfg, SetHit(cfg, s, key, value))
    ensures NodesOf(SetHit(cfg, s, key, value).chains) == NodesOf(s.chains)
  {
    OverwriteSound(cfg, s.chains, Bucket(cfg, s, key), Place(cfg, s, key), value);
  }

  lemma OverwriteSound(cfg: Config, cs: Buckets, b: nat, p: nat, value: Word)
    requires Sound(cfg, cs) && b < |cs| && p < |cs[b]|
    ensures Sound(cfg, Overwrite(cs, b, p, value))
    ensures NodesOf(Overwrite(cs, b, p, value)) == NodesOf(cs)
    ensures |Flatten(Overwrite(cs, b, p, value))| == |Flatten(cs)|
  {
    var ds: Buckets := Overwrite(cs, b, p, value);
    FlattenUpdate(cs, b, ds[b]);
    forall i, k | 0 <= i < |cs| && 0 <= k < |cs[i]|
      ensures ds[i][k] == cs[i][k].(value := ds[i][k].value)
    {
    }
    SameButValuesShaped(cs, ds);
    forall i, k | 0 <= i < |ds| && 0 <= k < |ds[i]|
      ensures IndexFor(|ds|)(ds[i][k].hash) == i && ds[i][k].hash == cfg.hash(ds[i][k].key)
    {
      assert ds[i][k] == cs[i][k].(value := ds[i][k].value);
    }
  }

  lemma SameButValuesShaped(cs: Buckets, ds: Buckets)
    requires |ds| == |cs| && Distinct(cs)
    requires forall i :: 0 <= i < |cs| ==> |ds[i]| == |cs[i]|
    requires forall i, k :: 0 <= i < |cs| && 0 <= k < |cs[i]| ==> ds[i][k].node == cs[i][k].node
    ensures Distinct(ds) && NodesOf(ds) == NodesOf(cs)
  {
    forall i, k | 0 <= i < |ds| && 0 <= k < |ds[i]|
      ensures Alone(ds, i, k) && ds[i][k].node in NodesOf(cs) && cs[i][k].node in NodesOf(ds)
    {
      assert Alone(cs, i, k);
      assert cs[i][k].node == ds[i][k].node;
    }
  }
}
