/** What the operations do to the entries with equal keys, in the order of their retrieval. */
module Retrieval {
  import opened Words
  import opened Sequences
  import opened Primes
  import opened Chains
  import opened Rehash
  import opened TableModel
  import opened Classes
  import opened Runs

  /** The operations that give the found entry a new value. */
  function NewValue(op: Op, oldValue: Word): Word
    requires op.ChangeOp? || op.IncOp? || op.DecOp?
  {
    match op
    case ChangeOp(_, v) => v
    case IncOp(_, v) => (oldValue + v) % TWO_TO_64
    case DecOp(_, v) => (oldValue - v) % TWO_TO_64
  }

  /**
   * The class `c` of `q` after one operation, duplicates and all: insertion puts the new entry in
   * front, removal takes the first away, and only an expansion can change the order of the rest.
   */
  ghost function ClassAfter(cfg: Config, s: Table, op: Op, q: Word, c: seq<Item>): seq<Item>
    requires Enabled(s, op)
  {
    match op
    case InsertOp(key, value, growth, node) =>
      (if node.Some? && cfg.eq(q, key) then [Item(node.value, key, cfg.hash(key), value)] else []) +
      (if Overloaded(s) && Flips(cfg, s, growth, q) then Reverse(c) else c)
    case ChangeOp(key, _) =>
      if cfg.eq(q, key) && c != [] then [c[0].(value := NewValue(op, c[0].value))] + c[1..] else c
    case IncOp(key, _) =>
      if cfg.eq(q, key) && c != [] then [c[0].(value := NewValue(op, c[0].value))] + c[1..] else c
    case DecOp(key, _) =>
      if cfg.eq(q, key) && c != [] then [c[0].(value := NewValue(op, c[0].value))] + c[1..] else c
    case SearchOp(_) => c
    case RemoveOp(key, cond) =>
      if cfg.eq(q, key) && c != [] && Allows(cond, c[0].value) then c[1..] else c
    case IterRemoveOp(key, b, p) =>
      var j := Rank(cfg, s.chains, b, p, q);
      if cfg.eq(q, key) && j < |c| then c[..j] + c[j + 1..] else c
  }

  lemma InsertClass(cfg: Config, s: Table, key: Word, value: Word, growth: Growth, node: Option<Entry>, q: Word)
    requires WellFormed(cfg, s) && Congruent(cfg)
    requires node.Some? ==> node.value !in NodesOf(s.chains)
    ensures var c := ClassOf(cfg, s.chains, q);
      ClassOf(cfg, Insert(cfg, s, key, value, growth, node).0.chains, q) ==
      (if node.Some? && cfg.eq(q, key) then [Item(node.value, key, cfg.hash(key), value)] else []) +
      (if Overloaded(s) && Flips(cfg, s, growth, q) then Reverse(c) else c)
  {
    hide ClassOf, Sound, IndexFor, Expand, Flips, Congruent, Prime, LoadLimit;
    ExpandClass(cfg, s, growth, q);
    GrownShaped(cfg, s, growth);
    var g := Grown(s, growth);
    if node.Some? {
      var x, b := Item(node.value, key, cfg.hash(key), value), Bucket(cfg, g, key);
      PushSound(cfg, g.chains, b, x);
      PushClass(cfg, g.chains, b, x, q);
    }
  }

  lemma SetHitClass(cfg: Config, s: Table, key: Word, value: Word, q: Word)
    requires WellFormed(cfg, s) && Congruent(cfg) && Found(cfg, s, key)
    ensures ClassOf(cfg, s.chains, key) != [] && ClassOf(cfg, s.chains, key)[0] == Hit(cfg, s, key)
    ensures var c := ClassOf(cfg, s.chains, q);
      ClassOf(cfg, SetHit(cfg, s, key, value).chains, q) ==
      if cfg.eq(q, key) && c != [] then [c[0].(value := value)] + c[1..] else c
    ensures cfg.eq(q, key) ==> ClassOf(cfg, s.chains, q) != [] && ClassOf(cfg, s.chains, q)[0] == Hit(cfg, s, key)
  {
    hide ClassOf, Sound, IndexFor, First, Prime;
    var b, p := Bucket(cfg, s, key), Place(cfg, s, key);
    var cs: Buckets := s.chains;
    var x := cs[b][p];
    SearchIsScan(cfg, s, key);
    OverwriteSound(cfg, cs, b, p, value);
    var ds: Buckets := Overwrite(cs, b, p, value);
    assert ds[b] == cs[b][..p] + [x.(value := value)] + cs[b][p + 1..];
    ReplaceClass(cfg, cs, ds, b, p, [x.(value := value)], q);
    SameClass(cfg, q, key, x.key);
    if cfg.eq(q, key) {
      HitIsFirst(cfg, s, key, q);
    }
  }

  lemma SameClass(cfg: Config, q: Word, key: Word, found: Word)
    requires Congruent(cfg) && cfg.eq(key, found)
    ensures cfg.eq(q, key) <==> cfg.eq(q, found)
  {
    assert cfg.eq(found, key);
  }

  lemma RemoveAtClass(cfg: Config, s: Table, b: nat, p: nat, q: Word)
    requires WellFormed(cfg, s) && Congruent(cfg) && b < |s.chains| && p < |s.chains[b]|
    ensures var c, j := ClassOf(cfg, s.chains, q), Rank(cfg, s.chains, b, p, q);
      && (cfg.eq(q, s.chains[b][p].key) ==> j < |c| && c[j] == s.chains[b][p])
      && ClassOf(cfg, RemoveAt(cfg, s, b, p).chains, q) ==
         if cfg.eq(q, s.chains[b][p].key) then c[..j] + c[j + 1..] else c
  {
    hide ClassOf, Sound, IndexFor, Rank, Congruent;
    var cs := s.chains;
    UnlinkSound(cfg, cs, b, p);
    assert cs[b][..p] + [] + cs[b][p + 1..] == cs[b][..p] + cs[b][p + 1..];
    ReplaceClass(cfg, cs, Unlink(cs, b, p), b, p, [], q);
    var c, j := ClassOf(cfg, cs, q), Rank(cfg, cs, b, p, q);
    assert j <= |c| ==> c[..j] + [] == c[..j];
  }

  /** Change, inc and dec. */
  lemma UpdateClass(cfg: Config, s: Table, op: Op, q: Word)
    requires WellFormed(cfg, s) && Congruent(cfg) && Enabled(s, op) && Found(cfg, s, op.key)
    requires op.ChangeOp? || op.IncOp? || op.DecOp?
    ensures ClassOf(cfg, Step(cfg, s, op).chains, q) == ClassAfter(cfg, s, op, q, ClassOf(cfg, s.chains, q))
  {
    hide ClassOf, WellFormed, Congruent, IndexFor, First, Prime, Overwrite;
    var v := Hit(cfg, s, op.key).value;
    SetHitClass(cfg, s, op.key, NewValue(op, v), q);
    match op {
      case ChangeOp(_, _) =>
      case IncOp(_, _) =>
      case DecOp(_, _) =>
    }
  }

  /** An operation on a key that is absent. */
  lemma AbsentClass(cfg: Config, s: Table, op: Op, q: Word)
    requires WellFormed(cfg, s) && Congruent(cfg) && Enabled(s, op) && !Found(cfg, s, op.key)
    requires op.ChangeOp? || op.IncOp? || op.DecOp? || op.RemoveOp?
    ensures Step(cfg, s, op) == s
    ensures ClassAfter(cfg, s, op, q, ClassOf(cfg, s.chains, q)) == ClassOf(cfg, s.chains, q)
  {
    hide ClassOf, Sound, Congruent, IndexFor, First, Prime;
    SearchIsScan(cfg, s, op.key);
    EmptyClass(cfg, s, op.key, q);
  }

  /** What one operation does to every class, with or without duplicates. */
  lemma StepClass(cfg: Config, s: Table, op: Op, q: Word)
    requires WellFormed(cfg, s) && Congruent(cfg) && Enabled(s, op)
    ensures ClassOf(cfg, Step(cfg, s, op).chains, q) == ClassAfter(cfg, s, op, q, ClassOf(cfg, s.chains, q))
  {
    hide ClassOf, WellFormed, Congruent, IndexFor, First, Prime, LoadLimit, Overloaded, Flips, Grown, Rank, Unlink;
    match op {
      case InsertOp(key, value, growth, node) =>
        InsertClass(cfg, s, key, value, growth, node, q);
      case SearchOp(key) =>
      case RemoveOp(key, cond) =>
        if Found(cfg, s, key) {
          RemoveHitClass(cfg, s, key, q);
        } else {
          AbsentClass(cfg, s, op, q);
        }
      case IterRemoveOp(key, b, p) =>
        RemoveAtClass(cfg, s, b, p, q);
      case _ =>
        if Found(cfg, s, op.key) {
          UpdateClass(cfg, s, op, q);
        } else {
          AbsentClass(cfg, s, op, q);
        }
    }
  }

  lemma EmptyClass(cfg: Config, s: Table, key: Word, q: Word)
    requires WellFormed(cfg, s) && Congruent(cfg) && ClassOf(cfg, s.chains, key) == []
    ensures cfg.eq(q, key) ==> ClassOf(cfg, s.chains, q) == []
  {
    hide Flatten, Filter;
    if cfg.eq(q, key) {
      forall x | x in Flatten(s.chains)
        ensures !SameKey(cfg, q)(x)
      {
        FilterIn(Flatten(s.chains), SameKey(cfg, key), x);
        assert x !in ClassOf(cfg, s.chains, key);
        assert cfg.eq(key, q) && !cfg.eq(key, x.key);
      }
      FilterNone(Flatten(s.chains), SameKey(cfg, q));
    }
  }

  lemma RemoveHitClass(cfg: Config, s: Table, key: Word, q: Word)
    requires WellFormed(cfg, s) && Congruent(cfg) && Found(cfg, s, key)
    ensures var c := ClassOf(cfg, s.chains, q);
      && (cfg.eq(q, key) ==> c != [] && c[0] == Hit(cfg, s, key))
      && ClassOf(cfg, RemoveAt(cfg, s, Bucket(cfg, s, key), Place(cfg, s, key)).chains, q) ==
         if cfg.eq(q, key) then c[1..] else c
  {
    hide ClassOf, Sound, IndexFor, First, Prime, Rank, Unlink;
    var b, p, c := Bucket(cfg, s, key), Place(cfg, s, key), ClassOf(cfg, s.chains, q);
    RemoveAtClass(cfg, s, b, p, q);
    SameClass(cfg, q, key, s.chains[b][p].key);
    if cfg.eq(q, key) {
      HitIsFirst(cfg, s, key, q);
      assert c[..0] + c[1..] == c[1..];
    }
  }

  /**
   * Retrieval is last in, first out, duplicates or not: a search right after an insertion finds the
   * new value, and removing the key gives every class back as it was, in the order to which an
   * expansion during the insertion brought it.
   */
  lemma RemoveUndoesInsert(cfg: Config, s: Table, key: Word, value: Word, growth: Growth, e: Entry, q: Word)
    requires WellFormed(cfg, s) && Congruent(cfg) && e !in NodesOf(s.chains)
    ensures var t := Insert(cfg, s, key, value, growth, Some(e)).0;
      && Sized(t) && Search(cfg, t, key) == value
      && var (u, answer) := CondRemove(cfg, t, key, None);
         var c := ClassOf(cfg, s.chains, q);
         && answer == value && u.count == s.count
         && ClassOf(cfg, u.chains, q) == if Overloaded(s) && Flips(cfg, s, growth, q) then Reverse(c) else c
  {
    assert Sized(s);
    hide ClassOf, WellFormed, Congruent, IndexFor, First, Prime, LoadLimit, Overloaded, Flips, Grown, Unlink, Flatten;
    var t := Insert(cfg, s, key, value, growth, Some(e)).0;
    InsertFound(cfg, s, key, value, growth, e);
    InsertClass(cfg, s, key, value, growth, Some(e), q);
    RemoveHitClass(cfg, t, key, q);
    RemoveHit(cfg, t, key);
    InsertCount(cfg, s, key, value, growth, e);
    hide Search, CondRemove, RemoveAt, Insert, Found, Hit;
    var x, c := Item(e, key, cfg.hash(key), value), ClassOf(cfg, s.chains, q);
    var rest := if Overloaded(s) && Flips(cfg, s, growth, q) then Reverse(c) else c;
    assert ([x] + rest)[1..] == rest && [] + rest == rest;
  }

  lemma RemoveHit(cfg: Config, s: Table, key: Word)
    requires |s.chains| > 0 && Found(cfg, s, key)
    ensures Search(cfg, s, key) == Hit(cfg, s, key).value
    ensures CondRemove(cfg, s, key, None) ==
      (RemoveAt(cfg, s, Bucket(cfg, s, key), Place(cfg, s, key)), Hit(cfg, s, key).value)
    ensures CondRemove(cfg, s, key, None).0.count == CountDown(s.count)
  {
    hide IndexFor, First, Unlink;
  }

  /** A search finds what was just inserted. */
  lemma InsertFound(cfg: Config, s: Table, key: Word, value: Word, growth: Growth, e: Entry)
    requires WellFormed(cfg, s) && Congruent(cfg) && e !in NodesOf(s.chains)
    ensures var t := Insert(cfg, s, key, value, growth, Some(e)).0;
      WellFormed(cfg, t) && Sized(t) && Found(cfg, t, key) && Hit(cfg, t, key).value == value
  {
    hide ClassOf, Sound, IndexFor, First, Prime, LoadLimit, Overloaded, Flips, Grown, Flatten;
    InsertWellFormed(cfg, s, key, value, growth, Some(e));
    InsertClass(cfg, s, key, value, growth, Some(e), key);
    SearchIsScan(cfg, Insert(cfg, s, key, value, growth, Some(e)).0, key);
  }

  lemma InsertCount(cfg: Config, s: Table, key: Word, value: Word, growth: Growth, e: Entry)
    requires WellFormed(cfg, s)
    ensures CountDown(Insert(cfg, s, key, value, growth, Some(e)).0.count) == s.count
  {
    hide Sound, Prime, LoadLimit, Grown;
  }
}
