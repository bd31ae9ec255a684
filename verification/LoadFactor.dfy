/** Load limits over whole runs, and the amortised cost of growing. */
module LoadFactor {
  import opened Words
  import opened Sequences
  import opened Primes
  import opened Chains
  import opened Rehash
  import opened TableModel
  import opened Runs

  /** The table allocations of an operation are granted. */
  predicate Granted(op: Op) {
    op.InsertOp? ==> !op.growth.NoMemory?
  }

  predicate AllGranted(ops: seq<Op>) {
    forall i :: 0 <= i < |ops| ==> Granted(ops[i])
  }

  function Inserts(ops: seq<Op>): nat
    decreases |ops|
  {
    if ops == [] then 0 else Inserts(Front(ops)) + if Last(ops).InsertOp? then 1 else 0
  }

  /** The load limits from index `i` up to but not including `j`: what growing from `i` to `j` relinks. */
  function LimitSum(i: nat, j: nat): nat
    requires j <= LAST_PRIME
    decreases j
  {
    if j <= i then 0 else LimitSum(i, j - 1) + LoadLimit(j - 1)
  }

  /** The limits grow fast enough that the last one is at least a third of the sum. */
  lemma {:induction false} LimitSumBound(i: nat, j: nat)
    requires i < j <= LAST_PRIME
    ensures LimitSum(i, j) <= 3 * LoadLimit(j - 1)
    decreases j
  {
    hide LoadLimit, Prime;
    if i < j - 1 {
      LimitSumBound(i, j - 1);
      ScheduleGrows(j - 2);
    } else {
      assert LimitSum(i, j) == LimitSum(i, i) + LoadLimit(j - 1);
    }
  }

  /** The invariant of runs that start with an empty table at index `start`. */
  ghost predicate WithinLoad(s: Table, start: nat, inserts: nat) {
    && start <= s.primeIndex <= LAST_PRIME
    && Total(s) <= inserts
    && (s.primeIndex == LAST_PRIME || Total(s) <= LoadLimit(s.primeIndex))
    && s.relinked <= LimitSum(start, s.primeIndex)
    && (start < s.primeIndex ==> LoadLimit(s.primeIndex - 1) < inserts)
  }

  /** Relinking costs at most one step per linked entry, in either plan. */
  lemma ExpansionCost(s: Table, growth: Growth)
    requires Sized(s) && s.primeIndex < LAST_PRIME && !growth.NoMemory?
    ensures Expand(s, growth).primeIndex == s.primeIndex + 1
    ensures s.relinked <= Expand(s, growth).relinked <= s.relinked + Total(s)
  {
    hide Prime, LoadLimit, FreshRehash, InPlaceRehash, Flatten, IndexFor, Filter;
    var n := Prime(s.primeIndex + 1);
    var home, cs := IndexFor(n), s.chains;
    var ds := Lengthen(cs, n);
    MisplacedBound(home, ds, |cs|, 0);
    assert cs[0..] == cs;
    SameStartBound(cs, ds);
    assert Misplaced(home, ds, |cs|, 0, 0) <= MisplacedLater(home, ds, |cs|, 0) by {
      assert ds[0][0..] == ds[0];
    }
  }

  /** An entry whose bucket in a table of `n` buckets is another one than in a table of `m`. */
  function Changes(m: nat, n: nat): Item -> bool
    requires m > 0 && n > 0
  {
    (x: Item) => x.hash % m != x.hash % n
  }

  /** It relinks every entry into a fresh table, and in place exactly those whose bucket changes. */
  lemma RelinkedExactly(cfg: Config, s: Table, growth: Growth)
    requires Shaped(cfg, s) && s.primeIndex < LAST_PRIME
    ensures var n := Prime(s.primeIndex + 1);
      Expand(s, growth).relinked == s.relinked +
        match growth
        case FreshArray => |Flatten(s.chains)|
        case Reallocated => |Filter(Flatten(s.chains), Changes(|s.chains|, n))|
        case NoMemory => 0
  {
    hide Flatten, Filter, Distinct, Hashed, FreshRehash, InPlaceRehash, Prime, LoadLimit;
    var n, cs := Prime(s.primeIndex + 1), s.chains;
    var home, ds := IndexFor(n), Lengthen(cs, n);
    MisplacedSum(cs, ds, n, 0);
    assert cs[0..] == cs && ds[0][0..] == ds[0];
  }

  lemma {:induction false} MisplacedSum(cs: Buckets, ds: Buckets, n: nat, i: nat)
    requires 0 < |cs| <= n == |ds| && ds == Lengthen(cs, n) && i <= |cs|
    requires Bucketed(cs, IndexFor(|cs|))
    ensures MisplacedLater(IndexFor(n), ds, |cs|, i) == |Filter(Flatten(cs[i..]), Changes(|cs|, n))|
    decreases |cs| - i
  {
    if i < |cs| {
      hide Filter;
      MisplacedSum(cs, ds, n, i + 1);
      assert cs[i..][1..] == cs[i + 1..];
      FilterAppend(cs[i], Flatten(cs[i + 1..]), Changes(|cs|, n));
      forall x | x in cs[i]
        ensures AwayFrom(IndexFor(n), i)(x) == Changes(|cs|, n)(x)
      {
        var k :| 0 <= k < |cs[i]| && cs[i][k] == x;
      }
      FilterAgree(cs[i], AwayFrom(IndexFor(n), i), Changes(|cs|, n));
    } else {
      assert cs[i..] == [];
    }
  }

  lemma SameStartBound(cs: Buckets, ds: Buckets)
    requires |cs| <= |ds| && ds == Lengthen(cs, |ds|)
    ensures |Flatten(ds[0..])| == |Flatten(cs)|
  {
    hide Filter;
    assert ds[0..] == ds;
    assert ds == cs + ds[|cs|..];
    FlattenAppend(cs, ds[|cs|..]);
    FlattenEmpty(ds[|cs|..]);
  }

  /** An insertion that expands does so with exactly `load_limit` linked entries. */
  lemma ExpandsWhenFull(cfg: Config, s: Table, start: nat, inserts: nat)
    requires WellFormed(cfg, s) && WithinLoad(s, start, inserts) && s.primeIndex < LAST_PRIME
    ensures s.count == Total(s)
    ensures Overloaded(s) <==> Total(s) == LoadLimit(s.primeIndex)
  {
    hide Sound, Flatten, Prime;
    LimitFits(s.primeIndex);
  }

  lemma LimitFits(i: nat)
    requires i <= LAST_PRIME
    ensures 0 < LoadLimit(i) < TWO_TO_32 - 1
  {
  }

  lemma InsertWithinLoad(cfg: Config, s: Table, start: nat, inserts: nat, op: Op)
    requires WellFormed(cfg, s) && WithinLoad(s, start, inserts) && Enabled(s, op) && op.InsertOp? && Granted(op)
    ensures WithinLoad(Step(cfg, s, op), start, inserts + 1)
  {
    hide Sound, Flatten, Prime, LoadLimit, Expand, IndexFor;
    InsertWellFormed(cfg, s, op.key, op.value, op.growth, op.node);
    if s.primeIndex < LAST_PRIME {
      ExpandsWhenFull(cfg, s, start, inserts);
      ExpansionCost(s, op.growth);
      ScheduleGrows(s.primeIndex);
      LimitFits(s.primeIndex);
      LimitFits(s.primeIndex + 1);
      assert LimitSum(start, s.primeIndex + 1) == LimitSum(start, s.primeIndex) + LoadLimit(s.primeIndex);
    } else {
      assert Grown(s, op.growth) == s by { AtTheLast(s, op.growth); }
    }
  }

  lemma AtTheLast(s: Table, growth: Growth)
    requires Sized(s) && s.primeIndex == LAST_PRIME
    ensures Grown(s, growth) == s
  {
  }

  /** Only an insertion adds an entry, grows the table or relinks anything. */
  lemma OtherTotal(cfg: Config, s: Table, op: Op)
    requires WellFormed(cfg, s) && Enabled(s, op) && !op.InsertOp?
    ensures var t := Step(cfg, s, op);
      Total(t) <= Total(s) && t.primeIndex == s.primeIndex && t.relinked == s.relinked
  {
    hide Sound, Flatten, Prime, LoadLimit, First, IndexFor, Unlink;
    match op {
      case ChangeOp(key, value) =>
        if Found(cfg, s, key) {
          OverwriteSound(cfg, s.chains, Bucket(cfg, s, key), Place(cfg, s, key), value);
        }
      case IncOp(key, value) =>
        if Found(cfg, s, key) {
          var v := (Hit(cfg, s, key).value + value) % TWO_TO_64;
          OverwriteSound(cfg, s.chains, Bucket(cfg, s, key), Place(cfg, s, key), v);
        }
      case DecOp(key, value) =>
        if Found(cfg, s, key) {
          var v := (Hit(cfg, s, key).value - value) % TWO_TO_64;
          OverwriteSound(cfg, s.chains, Bucket(cfg, s, key), Place(cfg, s, key), v);
        }
      case SearchOp(key) =>
      case RemoveOp(key, cond) =>
        if Found(cfg, s, key) {
          UnlinkSound(cfg, s.chains, Bucket(cfg, s, key), Place(cfg, s, key));
        }
      case IterRemoveOp(key, b, p) =>
        UnlinkSound(cfg, s.chains, b, p);
    }
  }

  lemma OtherWithinLoad(cfg: Config, s: Table, start: nat, inserts: nat, op: Op)
    requires WellFormed(cfg, s) && WithinLoad(s, start, inserts) && Enabled(s, op) && !op.InsertOp?
    ensures WithinLoad(Step(cfg, s, op), start, inserts)
  {
    hide WellFormed, LoadLimit, Step, Enabled;
    OtherTotal(cfg, s, op);
  }

  /** A step leaves the index of the table's length or raises it by one; only an insertion raises it. */
  lemma IndexStep(cfg: Config, s: Table, op: Op)
    requires WellFormed(cfg, s) && Enabled(s, op)
    ensures s.primeIndex <= Step(cfg, s, op).primeIndex <= s.primeIndex + 1
    ensures !op.InsertOp? ==> Step(cfg, s, op).primeIndex == s.primeIndex
  {
    hide WellFormed, Prime, LoadLimit, IndexFor, FreshRehash, InPlaceRehash, Misplaced;
    if !op.InsertOp? {
      OtherTotal(cfg, s, op);
    }
  }

  /** The index never falls, so each one is left at most once; it grows at most by the number of insertions. */
  lemma {:induction false} IndexGrows(cfg: Config, s: Table, ops: seq<Op>, i: nat)
    requires WellFormed(cfg, s) && Runnable(cfg, s, ops) && i <= |ops|
    ensures Runnable(cfg, s, ops[..i]) && Run(cfg, s, ops[..i]).primeIndex <= Run(cfg, s, ops).primeIndex
    ensures Run(cfg, s, ops).primeIndex <= s.primeIndex + Inserts(ops)
    decreases |ops|
  {
    hide WellFormed, Enabled, Step;
    if ops != [] {
      var t := Run(cfg, s, Front(ops));
      RunWellFormed(cfg, s, Front(ops));
      IndexStep(cfg, t, Last(ops));
      IndexGrows(cfg, s, Front(ops), if i < |ops| then i else 0);
    }
    if i < |ops| {
      assert Front(ops)[..i] == ops[..i];
    } else {
      assert ops[..i] == ops;
    }
  }

  lemma {:induction false} RunTotal(cfg: Config, start: nat, ops: seq<Op>)
    requires start <= LAST_PRIME && Runnable(cfg, Created(start), ops)
    ensures WellFormed(cfg, Run(cfg, Created(start), ops))
    ensures Total(Run(cfg, Created(start), ops)) <= Inserts(ops)
    decreases |ops|
  {
    hide WellFormed, Created, Enabled, Step, Total;
    if ops == [] {
      CreatedWellFormed(cfg, start);
    } else {
      RunTotal(cfg, start, Front(ops));
      var s, op := Run(cfg, Created(start), Front(ops)), Last(ops);
      StepWellFormed(cfg, s, op);
      if op.InsertOp? {
        InsertTotal(cfg, s, op);
      } else {
        OtherTotal(cfg, s, op);
      }
    }
  }

  lemma InsertTotal(cfg: Config, s: Table, op: Op)
    requires WellFormed(cfg, s) && Enabled(s, op) && op.InsertOp?
    ensures Total(Step(cfg, s, op)) <= Total(s) + 1
  {
    InsertWellFormed(cfg, s, op.key, op.value, op.growth, op.node);
  }

  /**
   * The 32-bit count of every reachable table: the number of linked entries exactly below two to the
   * 32, so certainly in runs with fewer insertions than that.
   */
  lemma CountExact(cfg: Config, start: nat, ops: seq<Op>)
    requires start <= LAST_PRIME && Runnable(cfg, Created(start), ops)
    ensures var s := Run(cfg, Created(start), ops);
      && (s.count == Total(s) <==> Total(s) < TWO_TO_32)
      && (Inserts(ops) < TWO_TO_32 ==> s.count == Total(s))
  {
    hide Created, Runnable, WellFormed, Total;
    RunTotal(cfg, start, ops);
    CountIsTotal(cfg, Run(cfg, Created(start), ops));
  }

  lemma {:induction false} RunWithinLoad(cfg: Config, start: nat, ops: seq<Op>)
    requires start <= LAST_PRIME && Runnable(cfg, Created(start), ops) && AllGranted(ops)
    ensures WellFormed(cfg, Run(cfg, Created(start), ops))
    ensures WithinLoad(Run(cfg, Created(start), ops), start, Inserts(ops))
    decreases |ops|
  {
    hide WellFormed, Created, Enabled, Step, WithinLoad;
    var s0 := Created(start);
    if ops == [] {
      CreatedWellFormed(cfg, start);
      EmptyWithinLoad(start);
    } else {
      assert AllGranted(Front(ops)) && Granted(Last(ops));
      RunWithinLoad(cfg, start, Front(ops));
      var s := Run(cfg, s0, Front(ops));
      StepWellFormed(cfg, s, Last(ops));
      if Last(ops).InsertOp? {
        InsertWithinLoad(cfg, s, start, Inserts(Front(ops)), Last(ops));
      } else {
        OtherWithinLoad(cfg, s, start, Inserts(Front(ops)), Last(ops));
      }
    }
  }

  lemma EmptyWithinLoad(start: nat)
    requires start <= LAST_PRIME
    ensures WithinLoad(Created(start), start, 0)
  {
    hide Prime;
    FlattenEmpty(Created(start).chains);
  }

  /**
   * If every table allocation succeeds: one expansion per insertion is enough to stay within the load
   * limit until the last prime is reached, and all expansions of a run together relink at most
   * three entries per call of insert.
   */
  lemma AmortisedGrowth(cfg: Config, start: nat, ops: seq<Op>)
    requires start <= LAST_PRIME && Runnable(cfg, Created(start), ops) && AllGranted(ops)
    ensures var s := Run(cfg, Created(start), ops);
      && s.relinked <= 3 * Inserts(ops)
      && (s.primeIndex < LAST_PRIME ==> s.count == Total(s) <= LoadLimit(s.primeIndex))
  {
    hide Created, Runnable, LoadLimit, Prime, Sound, Flatten;
    RunWithinLoad(cfg, start, ops);
    var s := Run(cfg, Created(start), ops);
    if start < s.primeIndex {
      LimitSumBound(start, s.primeIndex);
    }
    if s.primeIndex < LAST_PRIME {
      ExpandsWhenFull(cfg, s, start, Inserts(ops));
    }
  }
}
