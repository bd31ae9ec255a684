/**
 * A table with duplicates as a multimap: for every key a list of pairs, the last one inserted in front,
 * and the two numbers that decide when the lists are reversed. No buckets, no chains, no entries.
 */
module Multimaps {
  import opened Words
  import opened Sequences
  import opened Primes
  import opened Chains
  import opened Rehash
  import opened TableModel
  import opened Classes
  import opened Runs
  import opened Calls
  import opened Retrieval

  datatype Pair = Pair(key: Word, value: Word)

  datatype Multimap = Multimap(primeIndex: nat, count: U32, lists: Word -> seq<Pair>)

  function ToPair(): Item -> Pair {
    (x: Item) => Pair(x.key, x.value)
  }

  function Pairs(c: seq<Item>): (r: seq<Pair>)
    ensures |r| == |c|
  {
    Map(c, ToPair())
  }

  // ---------- The calls on a multimap ----------

  /** One more pair would exceed the load limit. */
  predicate Full(m: Multimap)
    requires m.primeIndex <= LAST_PRIME
  {
    CountUp(m.count) > LoadLimit(m.primeIndex)
  }

  predicate Grows(m: Multimap, growth: Growth)
    requires m.primeIndex <= LAST_PRIME
  {
    Full(m) && m.primeIndex < LAST_PRIME && !growth.NoMemory?
  }

  /** An insertion reverses the list of `q`: always with a fresh table, in place if `q` changes its bucket. */
  predicate Reverses(cfg: Config, m: Multimap, growth: Growth, q: Word)
    requires m.primeIndex <= LAST_PRIME
  {
    && Grows(m, growth)
    && (growth.FreshArray? || cfg.hash(q) % Prime(m.primeIndex + 1) != cfg.hash(q) % Prime(m.primeIndex))
  }

  function Renew(c: seq<Pair>, value: Word): seq<Pair> {
    if c == [] then c else [c[0].(value := value)] + c[1..]
  }

  function ListAfter(cfg: Config, m: Multimap, call: Call, q: Word): seq<Pair>
    requires m.primeIndex <= LAST_PRIME
  {
    var c := m.lists(q);
    if call.Insert? then
      (if call.granted && cfg.eq(q, call.key) then [Pair(call.key, call.value)] else []) +
      (if Reverses(cfg, m, call.growth, q) then Reverse(c) else c)
    else if !cfg.eq(q, call.key) || c == [] then c else
    match call
    case Change(_, value) => Renew(c, value)
    case Inc(_, value) => Renew(c, (c[0].value + value) % TWO_TO_64)
    case Dec(_, value) => Renew(c, (c[0].value - value) % TWO_TO_64)
    case Search(_) => c
    case Remove(_, cond) => if cond.None? || cond.value(c[0].value) then c[1..] else c
    case IterRemove(_, nth) => if nth < |c| then DeleteAt(c, nth) else c
  }

  function CountAfter(m: Multimap, call: Call): U32 {
    var c := m.lists(call.key);
    match call
    case Insert(_, _, _, granted) => if granted then CountUp(m.count) else m.count
    case Remove(_, cond) => if c != [] && (cond.None? || cond.value(c[0].value)) then CountDown(m.count) else m.count
    case IterRemove(_, nth) => if nth < |c| then CountDown(m.count) else m.count
    case _ => m.count
  }

  function MultiStep(cfg: Config, m: Multimap, call: Call): (r: Multimap)
    requires m.primeIndex <= LAST_PRIME
    ensures r.primeIndex <= LAST_PRIME
  {
    Multimap(
      if call.Insert? && Grows(m, call.growth) then m.primeIndex + 1 else m.primeIndex,
      CountAfter(m, call),
      (q: Word) => ListAfter(cfg, m, call, q))
  }

  function MultiAnswer(m: Multimap, call: Call): int {
    var c := m.lists(call.key);
    match call
    case Insert(_, _, _, granted) => if granted then 0 else -1
    case Search(_) => if c == [] then 0 else c[0].value
    case Remove(_, cond) => if c != [] && (cond.None? || cond.value(c[0].value)) then c[0].value else 0
    case IterRemove(_, nth) => if nth < |c| then c[nth].value else 0
    case _ => if c == [] then -1 else 0
  }

  function EmptyMultimap(primeIndex: nat): Multimap {
    Multimap(primeIndex, 0, (q: Word) => [])
  }

  /** The multimap that a history of calls leaves. */
  function After(cfg: Config, start: nat, calls: seq<Call>): (m: Multimap)
    requires start <= LAST_PRIME
    ensures m.primeIndex <= LAST_PRIME
    decreases |calls|
  {
    if calls == [] then EmptyMultimap(start) else MultiStep(cfg, After(cfg, start, Front(calls)), Last(calls))
  }

  // ---------- The table is one ----------

  /** Multimap `m` shows what table `s` holds. */
  ghost predicate Shows(cfg: Config, m: Multimap, s: Table) {
    && m.primeIndex == s.primeIndex && m.count == s.count
    && forall q: Word :: m.lists(q) == Pairs(ClassOf(cfg, s.chains, q))
  }

  lemma {:induction false} PairsReverse(c: seq<Item>)
    ensures Pairs(Reverse(c)) == Reverse(Pairs(c))
  {
    if c != [] {
      PairsReverse(c[1..]);
      assert Pairs(c)[1..] == Pairs(c[1..]);
      PairsJoin(Reverse(c[1..]), [c[0]]);
      assert Pairs([c[0]]) == [Pairs(c)[0]];
    }
  }

  lemma PairsJoin(c: seq<Item>, d: seq<Item>)
    ensures Pairs(c + d) == Pairs(c) + Pairs(d)
  {
  }

  lemma PairsRenewed(c: seq<Item>, value: Word)
    requires c != []
    ensures Pairs([c[0].(value := value)] + c[1..]) == Renew(Pairs(c), value)
  {
  }

  lemma PairsWithout(c: seq<Item>, j: nat)
    requires j < |c|
    ensures Pairs(c[..j] + c[j + 1..]) == DeleteAt(Pairs(c), j)
    ensures j == 0 ==> Pairs(c[1..]) == Pairs(c)[1..]
  {
  }

  /** Whether and where an insertion expands. */
  lemma GrowthShown(cfg: Config, m: Multimap, s: Table, growth: Growth, q: Word)
    requires WellFormed(cfg, s) && m.primeIndex == s.primeIndex && m.count == s.count
    ensures Full(m) <==> Overloaded(s)
    ensures Reverses(cfg, m, growth, q) <==> Overloaded(s) && Flips(cfg, s, growth, q)
    ensures Grown(s, growth).primeIndex == if Grows(m, growth) then s.primeIndex + 1 else s.primeIndex
  {
    hide Prime, LoadLimit, Sound, FreshRehash, InPlaceRehash, Misplaced;
  }

  lemma InsertShown(cfg: Config, m: Multimap, s: Table, op: Op, call: Call, q: Word)
    requires WellFormed(cfg, s) && Congruent(cfg) && Enabled(s, op) && Shows(cfg, m, s)
    requires op.InsertOp? && Fits(cfg, s, call, op)
    ensures Pairs(ClassAfter(cfg, s, op, q, ClassOf(cfg, s.chains, q))) == ListAfter(cfg, m, call, q)
  {
    hide WellFormed, Congruent, ClassOf, Overloaded, Flips, Pairs, Reverses, Full;
    GrowthShown(cfg, m, s, op.growth, q);
    var c := ClassOf(cfg, s.chains, q);
    PairsReverse(c);
    var head := if op.node.Some? && cfg.eq(q, op.key) then [Item(op.node.value, op.key, cfg.hash(op.key), op.value)] else [];
    PairsJoin(head, if Overloaded(s) && Flips(cfg, s, op.growth, q) then Reverse(c) else c);
    assert Pairs(head) == if op.node.Some? && cfg.eq(q, op.key) then [Pair(op.key, op.value)] else [] by {
      PairsOfOne(head);
    }
  }

  lemma PairsOfOne(c: seq<Item>)
    ensures c == [] ==> Pairs(c) == []
    ensures |c| == 1 ==> Pairs(c) == [Pair(c[0].key, c[0].value)]
  {
  }

  /** How many entries an iterator finds, and which one it stands on, in terms of the list. */
  lemma IteratorShown(cfg: Config, s: Table, op: Op, call: Call, q: Word)
    requires WellFormed(cfg, s) && Congruent(cfg) && Enabled(s, op)
    requires call.IterRemove? && Fits(cfg, s, call, op) && cfg.eq(q, call.key)
    ensures var c := ClassOf(cfg, s.chains, q);
      && c == ClassOf(cfg, s.chains, call.key)
      && (op.IterRemoveOp? <==> call.nth < |c|)
      && (op.IterRemoveOp? ==>
            && cfg.eq(q, op.key) && Rank(cfg, s.chains, op.b, op.p, q) == call.nth
            && c[call.nth] == s.chains[op.b][op.p])
  {
    hide Prime, LoadLimit, Sound, Filter, IndexFor, ClassOf, Congruent;
    SameEntries(cfg, s.chains, q, call.key);
    ClassInBucket(cfg, s.chains, call.key);
    if op.IterRemoveOp? {
      SameRank(cfg, s.chains, op.b, op.p, q, call.key);
      Through(cfg, q, call.key, op.key);
      RemoveAtClass(cfg, s, op.b, op.p, q);
    }
  }

  lemma Through(cfg: Config, q: Word, key: Word, found: Word)
    requires Congruent(cfg) && cfg.eq(q, key)
    ensures cfg.eq(key, found) <==> cfg.eq(q, found)
  {
    assert cfg.eq(key, q);
  }

  lemma OtherShown(cfg: Config, m: Multimap, s: Table, op: Op, call: Call, q: Word)
    requires WellFormed(cfg, s) && Congruent(cfg) && Enabled(s, op) && Shows(cfg, m, s)
    requires !call.Insert? && Fits(cfg, s, call, op)
    ensures Pairs(ClassAfter(cfg, s, op, q, ClassOf(cfg, s.chains, q))) == ListAfter(cfg, m, call, q)
  {
    hide WellFormed, Congruent, ClassOf, Pairs, Matches, Rank, Overloaded, Flips, Reverses, Renew, DeleteAt;
    var c := ClassOf(cfg, s.chains, q);
    if call.IterRemove? {
      IterShown(cfg, m, s, op, call, q);
    } else if cfg.eq(q, call.key) && c != [] {
      PairsRenewed(c, if call.Change? || call.Inc? || call.Dec? then NewValue(op, c[0].value) else 0);
      PairsWithout(c, 0);
      FirstPair(c);
    } else {
      FirstPair(c);
    }
  }

  lemma FirstPair(c: seq<Item>)
    ensures c == [] <==> Pairs(c) == []
    ensures c != [] ==> Pairs(c)[0] == Pair(c[0].key, c[0].value)
  {
  }

  lemma IterShown(cfg: Config, m: Multimap, s: Table, op: Op, call: Call, q: Word)
    requires WellFormed(cfg, s) && Congruent(cfg) && Enabled(s, op) && Shows(cfg, m, s)
    requires call.IterRemove? && Fits(cfg, s, call, op)
    ensures Pairs(ClassAfter(cfg, s, op, q, ClassOf(cfg, s.chains, q))) == ListAfter(cfg, m, call, q)
  {
    hide WellFormed, Congruent, ClassOf, Pairs, Matches, Rank, DeleteAt;
    var c := ClassOf(cfg, s.chains, q);
    if cfg.eq(q, call.key) {
      IteratorShown(cfg, s, op, call, q);
      if call.nth < |c| {
        PairsWithout(c, call.nth);
      }
    } else if op.IterRemoveOp? {
      NotThrough(cfg, q, call.key, op.key);
    }
  }

  lemma NotThrough(cfg: Config, q: Word, key: Word, found: Word)
    requires Congruent(cfg) && !cfg.eq(q, key) && cfg.eq(key, found)
    ensures !cfg.eq(q, found)
  {
    assert cfg.eq(found, key);
  }

  /** The answer, the count and the length of the table. */
  lemma AnswerShown(cfg: Config, m: Multimap, s: Table, op: Op, call: Call)
    requires WellFormed(cfg, s) && Congruent(cfg) && Enabled(s, op) && Shows(cfg, m, s) && Fits(cfg, s, call, op)
    ensures Answer(cfg, s, op) == MultiAnswer(m, call)
    ensures Step(cfg, s, op).count == CountAfter(m, call)
    ensures Step(cfg, s, op).primeIndex == MultiStep(cfg, m, call).primeIndex
  {
    hide Prime, LoadLimit, Sound, Filter, Flatten, IndexFor, First, ClassOf, Pairs, Rank, Matches, Grown, Grows, Congruent;
    var c := ClassOf(cfg, s.chains, call.key);
    Pointwise(c);
    SearchIsScan(cfg, s, call.key);
    if call.Insert? {
      GrowthShown(cfg, m, s, call.growth, call.key);
      GrownShaped(cfg, s, call.growth);
    } else if call.IterRemove? {
      assert cfg.eq(call.key, call.key) by { ItsOwn(cfg, call.key); }
      IteratorShown(cfg, s, op, call, call.key);
    }
  }

  lemma ItsOwn(cfg: Config, key: Word)
    requires Congruent(cfg)
    ensures cfg.eq(key, key)
  {
  }

  lemma Pointwise(c: seq<Item>)
    ensures forall i :: 0 <= i < |c| ==> Pairs(c)[i] == Pair(c[i].key, c[i].value)
  {
  }

  /** Each step of the table is the call's step of the multimap, with the same answer. */
  lemma StepShown(cfg: Config, m: Multimap, s: Table, op: Op, call: Call)
    requires WellFormed(cfg, s) && Congruent(cfg) && Enabled(s, op) && Shows(cfg, m, s) && Fits(cfg, s, call, op)
    ensures Shows(cfg, MultiStep(cfg, m, call), Step(cfg, s, op)) && Answer(cfg, s, op) == MultiAnswer(m, call)
  {
    hide WellFormed, Congruent, ClassOf, ClassAfter, ListAfter, Step, Answer, MultiAnswer, CountAfter, Pairs, Fits, Grows;
    AnswerShown(cfg, m, s, op, call);
    FitKind(cfg, s, call, op);
    forall q: Word
      ensures MultiStep(cfg, m, call).lists(q) == Pairs(ClassOf(cfg, Step(cfg, s, op).chains, q))
    {
      StepClass(cfg, s, op, q);
      if call.Insert? {
        InsertShown(cfg, m, s, op, call, q);
      } else {
        OtherShown(cfg, m, s, op, call, q);
      }
    }
  }

  lemma FitKind(cfg: Config, s: Table, call: Call, op: Op)
    requires Enabled(s, op) && Fits(cfg, s, call, op)
    ensures op.InsertOp? <==> call.Insert?
  {
  }

  /**
   * Every run from creation, duplicates, expansions and allocation failures and all, is a run of a
   * multimap: the same pairs for every key in the same order, and the same last answer (hence
   * every answer, see `AnswersShown`).
   */
  lemma {:induction false} RunShown(cfg: Config, start: nat, ops: seq<Op>, calls: seq<Call>)
    requires start <= LAST_PRIME && Congruent(cfg)
    requires Runnable(cfg, Created(start), ops) && Told(cfg, Created(start), ops, calls)
    ensures WellFormed(cfg, Run(cfg, Created(start), ops))
    ensures Shows(cfg, After(cfg, start, calls), Run(cfg, Created(start), ops))
    ensures ops != [] ==>
      Answer(cfg, Run(cfg, Created(start), Front(ops)), Last(ops)) == MultiAnswer(After(cfg, start, Front(calls)), Last(calls))
    decreases |ops|
  {
    hide WellFormed, Congruent, Step, Answer, MultiAnswer, MultiStep, Shows, Created, Enabled, Fits;
    if ops == [] {
      CreatedWellFormed(cfg, start);
      CreatedShown(cfg, start);
    } else {
      RunShown(cfg, start, Front(ops), Front(calls));
      var s := Run(cfg, Created(start), Front(ops));
      StepShown(cfg, After(cfg, start, Front(calls)), s, Last(ops), Last(calls));
      StepWellFormed(cfg, s, Last(ops));
    }
  }

  lemma CreatedShown(cfg: Config, start: nat)
    requires start <= LAST_PRIME
    ensures Shows(cfg, EmptyMultimap(start), Created(start))
  {
    hide Prime;
    FlattenEmpty(Created(start).chains);
  }

  /** The answers that a multimap gives to `calls`. */
  ghost predicate AnswersOf(cfg: Config, start: nat, calls: seq<Call>, answers: seq<int>)
    requires start <= LAST_PRIME
    decreases |calls|
  {
    && |answers| == |calls|
    && (calls == [] ||
         (AnswersOf(cfg, start, Front(calls), Front(answers)) &&
          Last(answers) == MultiAnswer(After(cfg, start, Front(calls)), Last(calls))))
  }

  lemma {:induction false} AnswersShown(cfg: Config, start: nat, ops: seq<Op>, calls: seq<Call>, answers: seq<int>)
    requires start <= LAST_PRIME && Congruent(cfg)
    requires Runnable(cfg, Created(start), ops) && Told(cfg, Created(start), ops, calls)
    requires Answered(cfg, Created(start), ops, answers)
    ensures AnswersOf(cfg, start, calls, answers)
    decreases |ops|
  {
    hide Congruent, Step, Answer, MultiAnswer, MultiStep, Shows, Created, Enabled, Fits, After, WellFormed;
    if ops != [] {
      AnswersShown(cfg, start, Front(ops), Front(calls), Front(answers));
      RunShown(cfg, start, ops, calls);
    }
  }
}
