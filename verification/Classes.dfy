/** The entries whose keys the caller takes for equal: what each operation does to every such class. */
module Classes {
  import opened Words
  import opened Sequences
  import opened Primes
  import opened Chains
  import opened Rehash
  import opened TableModel
  import opened Order
  import opened HashFunctions

  /** What the table needs of the caller's two functions. */
  ghost predicate Congruent(cfg: Config) {
    && (forall a: Word :: cfg.eq(a, a))
    && (forall a: Word, b: Word :: cfg.eq(a, b) ==> cfg.eq(b, a) && cfg.hash(a) == cfg.hash(b))
    && (forall a: Word, b: Word, c: Word :: cfg.eq(a, b) && cfg.eq(b, c) ==> cfg.eq(a, c))
  }

  /** The same, asked of the functions that the caller passes in. */
  ghost predicate Agreeing(hashFn: Word -> U32, eq: (Word, Word) -> bool) {
    && (forall a: Word :: eq(a, a))
    && (forall a: Word, b: Word :: eq(a, b) ==> eq(b, a) && hashFn(a) == hashFn(b))
    && (forall a: Word, b: Word, c: Word :: eq(a, b) && eq(b, c) ==> eq(a, c))
  }

  lemma ConfiguredCongruent(hashFn: Word -> U32, eq: (Word, Word) -> bool, freesKeys: bool, freesValues: bool)
    requires Agreeing(hashFn, eq)
    ensures Congruent(Configure(hashFn, eq, freesKeys, freesValues))
  {
    hide DoHash;
  }

  /** The example table, `pet_hash_u32` with a comparison of the low 32 bits, meets it. */
  lemma ExampleCongruent(freesKeys: bool, freesValues: bool)
    ensures Agreeing(HashU32, EqU32) && Congruent(Configure(HashU32, EqU32, freesKeys, freesValues))
  {
    hide DoHash, HashU32;
    forall a: Word, b: Word | EqU32(a, b)
      ensures HashU32(a) == HashU32(b)
    {
      HashU32Congruent(a, b);
    }
    ConfiguredCongruent(HashU32, EqU32, freesKeys, freesValues);
  }

  function SameKey(cfg: Config, q: Word): Item -> bool {
    (x: Item) => cfg.eq(q, x.key)
  }

  /** A linear scan of the whole table, by key equality alone, in traversal order. */
  function ClassOf(cfg: Config, cs: Buckets, q: Word): seq<Item> {
    Filter(Flatten(cs), SameKey(cfg, q))
  }

  lemma InTable(cfg: Config, cs: Buckets, x: Item)
    requires Sound(cfg, cs) && x in Flatten(cs)
    ensures x.hash == cfg.hash(x.key)
  {
    var i, k := FlattenIn(cs, x);
  }

  lemma ClassOnHash(cfg: Config, cs: Buckets, q: Word)
    requires Sound(cfg, cs) && Congruent(cfg)
    ensures OnHash(cs, SameKey(cfg, q), cfg.hash(q)) && OnHash(cs, Matching(cfg, q), cfg.hash(q))
  {
    forall x | x in Flatten(cs) && SameKey(cfg, q)(x)
      ensures x.hash == cfg.hash(q)
    {
      InTable(cfg, cs, x);
    }
  }

  /** The class of `q` is what its bucket holds, tested the way the search loops test. */
  lemma ClassInBucket(cfg: Config, cs: Buckets, q: Word)
    requires Sound(cfg, cs) && Congruent(cfg)
    ensures IndexFor(|cs|)(cfg.hash(q)) < |cs|
    ensures ClassOf(cfg, cs, q) == Filter(cs[IndexFor(|cs|)(cfg.hash(q))], Matching(cfg, q))
  {
    hide Filter, Flatten, Bucketed, OnHash, IndexFor;
    IndexInto(|cs|);
    ClassOnHash(cfg, cs, q);
    OneChain(cs, IndexFor(|cs|), SameKey(cfg, q), cfg.hash(q));
    var c := cs[IndexFor(|cs|)(cfg.hash(q))];
    forall x | x in c
      ensures SameKey(cfg, q)(x) == Matching(cfg, q)(x)
    {
      var k :| 0 <= k < |c| && c[k] == x;
    }
    FilterAgree(c, SameKey(cfg, q), Matching(cfg, q));
  }

  /** A search agrees with a linear scan of all entries that uses the equality function alone. */
  lemma SearchIsScan(cfg: Config, s: Table, q: Word)
    requires Shaped(cfg, s) && Congruent(cfg)
    ensures Found(cfg, s, q) <==> ClassOf(cfg, s.chains, q) != []
    ensures Found(cfg, s, q) ==> Hit(cfg, s, q) == ClassOf(cfg, s.chains, q)[0]
  {
    hide Filter, Flatten, Sound, First, Prime, IndexFor;
    ClassInBucket(cfg, s.chains, q);
    FilterFirst(s.chains[Bucket(cfg, s, q)], Matching(cfg, q));
  }

  /** As long as no value is zero, the answer NULL means that there is no entry with such a key. */
  lemma NullMeansAbsent(cfg: Config, s: Table, q: Word)
    requires Shaped(cfg, s) && Congruent(cfg)
    requires forall x :: x in Flatten(s.chains) ==> x.value != 0
    ensures Search(cfg, s, q) == 0 <==> forall x :: x in Flatten(s.chains) ==> !cfg.eq(q, x.key)
  {
    hide Filter, Flatten, Sound, First, Prime, IndexFor;
    var all := Flatten(s.chains);
    SearchIsScan(cfg, s, q);
    if Found(cfg, s, q) {
      assert Hit(cfg, s, q) in ClassOf(cfg, s.chains, q);
      FilterIn(all, SameKey(cfg, q), Hit(cfg, s, q));
    } else {
      forall x | x in all
        ensures !cfg.eq(q, x.key)
      {
        FilterIn(all, SameKey(cfg, q), x);
        assert x !in ClassOf(cfg, s.chains, q);
      }
    }
  }

  /** Equal keys have the same entries. */
  lemma SameEntries(cfg: Config, cs: Buckets, q: Word, key: Word)
    requires Congruent(cfg) && cfg.eq(q, key)
    ensures ClassOf(cfg, cs, q) == ClassOf(cfg, cs, key)
  {
    assert cfg.eq(key, q);
    forall x | x in Flatten(cs)
      ensures SameKey(cfg, q)(x) == SameKey(cfg, key)(x)
    {
      assert cfg.eq(q, x.key) == cfg.eq(key, x.key);
    }
    FilterAgree(Flatten(cs), SameKey(cfg, q), SameKey(cfg, key));
  }

  // ---------- Expansion ----------

  /** Whether an expansion reverses the class of `q`. */
  predicate Flips(cfg: Config, s: Table, growth: Growth, q: Word)
    requires Sized(s)
  {
    && s.primeIndex < LAST_PRIME
    && match growth
       case FreshArray => true
       case Reallocated =>
         IndexFor(Prime(s.primeIndex + 1))(cfg.hash(q)) != IndexFor(|s.chains|)(cfg.hash(q))
       case NoMemory => false
  }

  /** A fresh table reverses the retrieval order of every class; in place, of the classes that move. */
  lemma ExpandClass(cfg: Config, s: Table, growth: Growth, q: Word)
    requires Shaped(cfg, s) && Congruent(cfg)
    ensures var c := ClassOf(cfg, s.chains, q);
      ClassOf(cfg, Expand(s, growth).chains, q) == if Flips(cfg, s, growth, q) then Reverse(c) else c
  {
    hide Filter, Flatten, Bucketed, Hashed, Distinct, OnHash, Prime, IndexFor, FreshRehash, InPlaceRehash, Misplaced;
    var m, h, cs := SameKey(cfg, q), cfg.hash(q), s.chains;
    ExpandShaped(cfg, s, growth);
    if s.primeIndex < LAST_PRIME && !growth.NoMemory? {
      var ds := Expand(s, growth).chains;
      IndexInto(|cs|);
      IndexInto(|ds|);
      ClassOnHash(cfg, cs, q);
      ClassOnHash(cfg, ds, q);
      OneChain(ds, IndexFor(|ds|), m, h);
      if growth.FreshArray? {
        FreshReverses(cs, |ds|, IndexFor(|ds|), m, h);
      } else {
        InPlaceReversesMovers(cs, |ds|, IndexFor(|cs|), IndexFor(|ds|), m, h);
      }
    }
  }

  // ---------- One entry ----------

  /** A change inside bucket `b` only concerns the classes of that bucket. */
  lemma ClassElsewhere(cfg: Config, cs: Buckets, ds: Buckets, b: nat, q: Word)
    requires Sound(cfg, cs) && Sound(cfg, ds) && Congruent(cfg)
    requires |ds| == |cs| && b < |cs| && ds == cs[b := ds[b]] && b != IndexFor(|cs|)(cfg.hash(q))
    ensures ClassOf(cfg, ds, q) == ClassOf(cfg, cs, q)
  {
    hide Filter, Flatten, Sound, IndexFor, ClassOf, Congruent;
    ClassInBucket(cfg, cs, q);
    ClassInBucket(cfg, ds, q);
  }

  lemma PushClass(cfg: Config, cs: Buckets, b: nat, x: Item, q: Word)
    requires Sound(cfg, cs) && Congruent(cfg) && b < |cs| && Sound(cfg, Push(cs, b, x))
    requires x.hash == cfg.hash(x.key) && b == IndexFor(|cs|)(x.hash)
    ensures ClassOf(cfg, Push(cs, b, x), q) == (if cfg.eq(q, x.key) then [x] else []) + ClassOf(cfg, cs, q)
  {
    hide Filter, Flatten, Sound, IndexFor, ClassOf;
    var ds: Buckets := Push(cs, b, x);
    if b == IndexFor(|cs|)(cfg.hash(q)) {
      ClassInBucket(cfg, cs, q);
      ClassInBucket(cfg, ds, q);
      FilterCons(x, cs[b], Matching(cfg, q));
    } else {
      ClassElsewhere(cfg, cs, ds, b, q);
    }
  }

  /** How many entries of the class of `q` come before place `p` of bucket `b`. */
  function Rank(cfg: Config, cs: Buckets, b: nat, p: nat, q: Word): nat
    requires b < |cs| && p <= |cs[b]|
  {
    |Filter(cs[b][..p], Matching(cfg, q))|
  }

  /** Entry `p` of bucket `b` replaced by `t`: by nothing, or by itself with another value. */
  lemma ReplaceClass(cfg: Config, cs: Buckets, ds: Buckets, b: nat, p: nat, t: seq<Item>, q: Word)
    requires Sound(cfg, cs) && Sound(cfg, ds) && Congruent(cfg)
    requires b < |cs| && p < |cs[b]| && ds == cs[b := cs[b][..p] + t + cs[b][p + 1..]]
    requires t == [] || exists v: Word :: t == [cs[b][p].(value := v)]
    ensures var c, j := ClassOf(cfg, cs, q), Rank(cfg, cs, b, p, q);
      if cfg.eq(q, cs[b][p].key)
      then j < |c| && c[j] == cs[b][p] && ClassOf(cfg, ds, q) == c[..j] + t + c[j + 1..]
      else ClassOf(cfg, ds, q) == c
  {
    hide Filter, Flatten, IndexFor, ClassOf, Sound;
    var x, m := cs[b][p], Matching(cfg, q);
    assert x.hash == cfg.hash(x.key) && b == IndexFor(|cs|)(x.hash) by {
      AtItsPlace(cfg, cs, b, p);
    }
    if b == IndexFor(|cs|)(cfg.hash(q)) {
      ClassInBucket(cfg, cs, q);
      ClassInBucket(cfg, ds, q);
      assert cs[b] == cs[b][..p] + [x] + cs[b][p + 1..];
      FilterAround(cs[b], p, [x], m);
      FilterAround(cs[b], p, t, m);
      OneOrNone(t, m);
      OneOrNone([x], m);
    } else {
      ClassElsewhere(cfg, cs, ds, b, q);
    }
  }

  lemma OneOrNone(t: seq<Item>, m: Item -> bool)
    ensures t == [] ==> Filter(t, m) == []
    ensures |t| == 1 ==> Filter(t, m) == if m(t[0]) then t else []
  {
  }

  lemma AtItsPlace(cfg: Config, cs: Buckets, b: nat, p: nat)
    requires Sound(cfg, cs) && b < |cs| && p < |cs[b]|
    ensures cs[b][p].hash == cfg.hash(cs[b][p].key) && b == IndexFor(|cs|)(cs[b][p].hash)
  {
  }

  /** The entry that a search for `key` finds is the first of its class. */
  lemma HitIsFirst(cfg: Config, s: Table, key: Word, q: Word)
    requires Shaped(cfg, s) && Congruent(cfg) && Found(cfg, s, key) && cfg.eq(q, key)
    ensures Rank(cfg, s.chains, Bucket(cfg, s, key), Place(cfg, s, key), q) == 0
  {
    hide Filter, Flatten, First, IndexFor, Sound;
    var b, p := Bucket(cfg, s, key), Place(cfg, s, key);
    FilterFirst(s.chains[b], Matching(cfg, key));
    assert cfg.eq(key, q);
    forall x | x in s.chains[b][..p]
      ensures Matching(cfg, key)(x) == Matching(cfg, q)(x)
    {
      assert cfg.eq(key, x.key) == cfg.eq(q, x.key);
    }
    FilterAgree(s.chains[b][..p], Matching(cfg, key), Matching(cfg, q));
  }

  lemma SameRank(cfg: Config, cs: Buckets, b: nat, p: nat, q: Word, key: Word)
    requires Congruent(cfg) && cfg.eq(q, key) && b < |cs| && p <= |cs[b]|
    ensures Rank(cfg, cs, b, p, q) == Rank(cfg, cs, b, p, key)
  {
    assert cfg.eq(key, q);
    forall x | x in cs[b][..p]
      ensures Matching(cfg, q)(x) == Matching(cfg, key)(x)
    {
      assert cfg.eq(q, x.key) == cfg.eq(key, x.key);
    }
    FilterAgree(cs[b][..p], Matching(cfg, q), Matching(cfg, key));
  }
}
