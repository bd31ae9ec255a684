/** Whole runs of the table's operations. */
module Runs {
  import opened Words
  import opened Sequences
  import opened Primes
  import opened Chains
  import opened Rehash
  import opened TableModel

  /**
   * A call, with the allocator's answers. `IterRemove` is a removal through an iterator that stands
   * on entry `p` of bucket `b`, whose key is `key`.
   */
  datatype Op =
    | InsertOp(key: Word, value: Word, growth: Growth, node: Option<Entry>)
    | ChangeOp(key: Word, value: Word)
    | IncOp(key: Word, value: Word)
    | DecOp(key: Word, value: Word)
    | SearchOp(key: Word)
    | RemoveOp(key: Word, cond: Option<Word -> bool>)
    | IterRemoveOp(key: Word, b: nat, p: nat)

  /** `calloc` returns an entry that was never used; an iterator stands inside the table. */
  ghost predicate Enabled(s: Table, op: Op) {
    && Sized(s)
    && (op.InsertOp? && op.node.Some? ==> op.node.value !in NodesOf(s.chains) && op.node.value !in s.nodesFreed)
    && (op.IterRemoveOp? ==>
          op.b < |s.chains| && op.p < |s.chains[op.b]| && s.chains[op.b][op.p].key == op.key)
  }

  ghost function Step(cfg: Config, s: Table, op: Op): Table
    requires Enabled(s, op)
  {
    match op
    case InsertOp(key, value, growth, node) => Insert(cfg, s, key, value, growth, node).0
    case ChangeOp(key, value) => Change(cfg, s, key, value).0
    case IncOp(key, value) => Inc(cfg, s, key, value).0
    case DecOp(key, value) => Dec(cfg, s, key, value).0
    case SearchOp(key) => s
    case RemoveOp(key, cond) => CondRemove(cfg, s, key, cond).0
    case IterRemoveOp(key, b, p) => RemoveAt(cfg, s, b, p)
  }

  /** What the caller gets; before an iterator removal, the value it reads. */
  ghost function Answer(cfg: Config, s: Table, op: Op): int
    requires Enabled(s, op)
  {
    match op
    case InsertOp(key, value, growth, node) => Insert(cfg, s, key, value, growth, node).1
    case ChangeOp(key, value) => Change(cfg, s, key, value).1
    case IncOp(key, value) => Inc(cfg, s, key, value).1
    case DecOp(key, value) => Dec(cfg, s, key, value).1
    case SearchOp(key) => Search(cfg, s, key)
    case RemoveOp(key, cond) => CondRemove(cfg, s, key, cond).1
    case IterRemoveOp(key, b, p) => s.chains[b][p].value
  }

  function Front<T>(s: seq<T>): seq<T>
    requires s != []
  {
    s[..|s| - 1]
  }

  function Last<T>(s: seq<T>): T
    requires s != []
  {
    s[|s| - 1]
  }

  ghost predicate Runnable(cfg: Config, s: Table, ops: seq<Op>)
    decreases |ops|, 0
  {
    ops == [] || (Runnable(cfg, s, Front(ops)) && Enabled(Run(cfg, s, Front(ops)), Last(ops)))
  }

  ghost function Run(cfg: Config, s: Table, ops: seq<Op>): Table
    requires Runnable(cfg, s, ops)
    decreases |ops|, 1
  {
    if ops == [] then s else Step(cfg, Run(cfg, s, Front(ops)), Last(ops))
  }

  /** Every operation keeps the table well formed, whatever the allocator answers. */
  lemma StepWellFormed(cfg: Config, s: Table, op: Op)
    requires WellFormed(cfg, s) && Enabled(s, op)
    ensures WellFormed(cfg, Step(cfg, s, op))
  {
    hide Prime, LoadLimit, Sound, Flatten, First, IndexFor, Unlink, Grown;
    match op {
      case InsertOp(key, value, growth, node) =>
        InsertWellFormed(cfg, s, key, value, growth, node);
      case ChangeOp(key, value) =>
        if Found(cfg, s, key) {
          SetHitWellFormed(cfg, s, key, value);
        }
      case IncOp(key, value) =>
        if Found(cfg, s, key) {
          SetHitWellFormed(cfg, s, key, (Hit(cfg, s, key).value + value) % TWO_TO_64);
        }
      case DecOp(key, value) =>
        if Found(cfg, s, key) {
          SetHitWellFormed(cfg, s, key, (Hit(cfg, s, key).value - value) % TWO_TO_64);
        }
      case SearchOp(key) =>
      case RemoveOp(key, cond) =>
        if Found(cfg, s, key) {
          RemoveAtWellFormed(cfg, s, Bucket(cfg, s, key), Place(cfg, s, key));
        }
      case IterRemoveOp(key, b, p) =>
        RemoveAtWellFormed(cfg, s, b, p);
    }
  }

  /**
   * Every reachable table: the length is the listed prime, chains are acyclic, disjoint and correctly
   * bucketed, and the count is the number of linked entries (in 32 bits).
   */
  lemma {:induction false} RunWellFormed(cfg: Config, s: Table, ops: seq<Op>)
    requires WellFormed(cfg, s) && Runnable(cfg, s, ops)
    ensures WellFormed(cfg, Run(cfg, s, ops))
    decreases |ops|
  {
    if ops != [] {
      RunWellFormed(cfg, s, Front(ops));
      StepWellFormed(cfg, Run(cfg, s, Front(ops)), Last(ops));
    }
  }

  lemma {:induction false} PrefixRunnable(cfg: Config, s: Table, ops: seq<Op>, i: nat)
    requires Runnable(cfg, s, ops) && i <= |ops|
    ensures Runnable(cfg, s, ops[..i])
    decreases |ops|
  {
    if i < |ops| {
      PrefixRunnable(cfg, s, Front(ops), i);
      assert Front(ops)[..i] == ops[..i];
    } else {
      assert ops[..i] == ops;
    }
  }

  lemma RunSnoc(cfg: Config, s: Table, ops: seq<Op>, op: Op)
    requires Runnable(cfg, s, ops) && Enabled(Run(cfg, s, ops), op)
    ensures Runnable(cfg, s, ops + [op]) && Run(cfg, s, ops + [op]) == Step(cfg, Run(cfg, s, ops), op)
  {
    hide Enabled, Step;
    assert Front(ops + [op]) == ops && Last(ops + [op]) == op;
  }

  /** A run continued by another one, such as a script by a walk, is a run. */
  lemma {:induction false} RunsJoin(cfg: Config, s: Table, first: seq<Op>, second: seq<Op>)
    requires Runnable(cfg, s, first) && Runnable(cfg, Run(cfg, s, first), second)
    ensures Runnable(cfg, s, first + second)
    ensures Run(cfg, s, first + second) == Run(cfg, Run(cfg, s, first), second)
    decreases |second|
  {
    hide Enabled, Step;
    if second == [] {
      assert first + second == first;
    } else {
      RunsJoin(cfg, s, first, Front(second));
      assert Front(first + second) == first + Front(second) && Last(first + second) == Last(second);
    }
  }
}
