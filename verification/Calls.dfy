/** The calls of a client, and the steps of the state machine that carry them out. */
module Calls {
  import opened Words
  import opened Sequences
  import opened Primes
  import opened Chains
  import opened Rehash
  import opened TableModel
  import opened Classes
  import opened Runs

  /**
   * A call as the client writes it, with what the allocator will answer. `IterRemove` is a removal
   * through an iterator that stands on entry `nth`, from zero, of those with a key equal to `key`.
   */
  datatype Call =
    | Insert(key: Word, value: Word, growth: Growth, granted: bool)
    | Change(key: Word, value: Word)
    | Inc(key: Word, value: Word)
    | Dec(key: Word, value: Word)
    | Search(key: Word)
    | Remove(key: Word, cond: Option<Word -> bool>)
    | IterRemove(key: Word, nth: nat)

  /** How many entries the search loops take for `key`. */
  function Matches(cfg: Config, s: Table, key: Word): nat
    requires |s.chains| > 0
  {
    |Filter(s.chains[Bucket(cfg, s, key)], Matching(cfg, key))|
  }

  /** Step `op` is what `call` comes to in state `s`. An iterator that finds no entry has only searched. */
  ghost predicate Fits(cfg: Config, s: Table, call: Call, op: Op)
    requires Enabled(s, op)
  {
    match call
    case Insert(key, value, growth, granted) =>
      op.InsertOp? && op == InsertOp(key, value, growth, op.node) && op.node.Some? == granted
    case Change(key, value) => op == ChangeOp(key, value)
    case Inc(key, value) => op == IncOp(key, value)
    case Dec(key, value) => op == DecOp(key, value)
    case Search(key) => op == SearchOp(key)
    case Remove(key, cond) => op == RemoveOp(key, cond)
    case IterRemove(key, nth) =>
      if nth < Matches(cfg, s, key) then
        && op.IterRemoveOp? && op.b == Bucket(cfg, s, key)
        && Matching(cfg, key)(s.chains[op.b][op.p]) && Rank(cfg, s.chains, op.b, op.p, key) == nth
      else
        nth == 0 && op == SearchOp(key)
  }

  /** The run `ops` from `s` carries out `calls`, call by call. */
  ghost predicate Told(cfg: Config, s: Table, ops: seq<Op>, calls: seq<Call>)
    requires Runnable(cfg, s, ops)
    decreases |ops|
  {
    && |calls| == |ops|
    && (ops == [] ||
         (Told(cfg, s, Front(ops), Front(calls)) && Fits(cfg, Run(cfg, s, Front(ops)), Last(calls), Last(ops))))
  }

  /** These are the answers that it gives. */
  ghost predicate Answered(cfg: Config, s: Table, ops: seq<Op>, answers: seq<int>)
    requires Runnable(cfg, s, ops)
    decreases |ops|
  {
    && |answers| == |ops|
    && (ops == [] ||
         (Answered(cfg, s, Front(ops), Front(answers)) && Last(answers) == Answer(cfg, Run(cfg, s, Front(ops)), Last(ops))))
  }

  /** An iterator that searched for `key` stands where a search finds it. */
  lemma FirstMatch(cfg: Config, s: Table, key: Word, op: Op)
    requires Enabled(s, op) && op.IterRemoveOp? && op.b == Bucket(cfg, s, key)
    ensures Found(cfg, s, key) <==> Matches(cfg, s, key) > 0
    ensures Found(cfg, s, key) ==>
      (op.p == Place(cfg, s, key) <==>
        Matching(cfg, key)(s.chains[op.b][op.p]) && Rank(cfg, s.chains, op.b, op.p, key) == 0)
  {
    hide Prime, IndexFor, First;
    var c, m := s.chains[op.b], Matching(cfg, key);
    FilterFirst(c, m);
    if m(c[op.p]) && Rank(cfg, s.chains, op.b, op.p, key) == 0 {
      FirstIsHere(c, m, op.p);
    }
    if Found(cfg, s, key) && op.p == Place(cfg, s, key) {
      FilterNone(c[..op.p], m);
    }
  }

  lemma FirstIsHere(c: seq<Item>, m: Item -> bool, p: nat)
    requires p < |c| && m(c[p]) && Filter(c[..p], m) == []
    ensures First(c, m) == p
  {
    forall j | 0 <= j < p
      ensures !m(c[j])
    {
      assert c[..p][j] == c[j];
      FilterIn(c[..p], m, c[j]);
    }
    FirstIs(c, m, p);
  }

  // ---------- Every run carries out some calls ----------

  ghost function CallOf(cfg: Config, s: Table, op: Op): Call
    requires Enabled(s, op)
  {
    match op
    case InsertOp(key, value, growth, node) => Insert(key, value, growth, node.Some?)
    case ChangeOp(key, value) => Change(key, value)
    case IncOp(key, value) => Inc(key, value)
    case DecOp(key, value) => Dec(key, value)
    case SearchOp(key) => Search(key)
    case RemoveOp(key, cond) => Remove(key, cond)
    case IterRemoveOp(key, b, p) => IterRemove(key, Rank(cfg, s.chains, b, p, key))
  }

  lemma CallOfFits(cfg: Config, s: Table, op: Op)
    requires WellFormed(cfg, s) && Congruent(cfg) && Enabled(s, op)
    ensures Fits(cfg, s, CallOf(cfg, s, op), op)
  {
    hide Prime, LoadLimit, Filter, IndexFor;
    if op.IterRemoveOp? {
      var c, m, p := s.chains[op.b], Matching(cfg, op.key), op.p;
      AtItsPlace(cfg, s.chains, op.b, p);
      assert m(c[p]) && op.b == Bucket(cfg, s, op.key);
      assert c == c[..p] + [c[p]] + c[p + 1..];
      FilterAround(c, p, [c[p]], m);
      OneOrNone([c[p]], m);
    }
  }

  lemma {:induction false} EveryRunIsTold(cfg: Config, s: Table, ops: seq<Op>) returns (calls: seq<Call>)
    requires WellFormed(cfg, s) && Congruent(cfg) && Runnable(cfg, s, ops)
    ensures Told(cfg, s, ops, calls)
    decreases |ops|
  {
    hide WellFormed, Congruent, Enabled, Step, Fits, CallOf;
    calls := [];
    if ops != [] {
      var before := EveryRunIsTold(cfg, s, Front(ops));
      var t := Run(cfg, s, Front(ops));
      RunWellFormed(cfg, s, Front(ops));
      CallOfFits(cfg, t, Last(ops));
      calls := before + [CallOf(cfg, t, Last(ops))];
      assert Front(calls) == before;
    }
  }

  /** The same, step by step from the front. */
  lemma {:induction false} ToldAt(cfg: Config, s: Table, ops: seq<Op>, calls: seq<Call>, answers: seq<int>, i: nat)
    requires Runnable(cfg, s, ops) && Told(cfg, s, ops, calls) && Answered(cfg, s, ops, answers) && i < |ops|
    ensures Runnable(cfg, s, ops[..i]) && Enabled(Run(cfg, s, ops[..i]), ops[i])
    ensures Fits(cfg, Run(cfg, s, ops[..i]), calls[i], ops[i])
    ensures answers[i] == Answer(cfg, Run(cfg, s, ops[..i]), ops[i])
    decreases |ops|
  {
    hide Enabled, Step, Fits, Answer;
    if i < |ops| - 1 {
      ToldAt(cfg, s, Front(ops), Front(calls), Front(answers), i);
      assert Front(ops)[..i] == ops[..i];
    } else {
      assert ops[..i] == Front(ops);
    }
  }
}
