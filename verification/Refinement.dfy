/** The table as a finite map from classes of equal keys to values, for clients that remove before they insert. */
module Refinement {
  import opened Words
  import opened Sequences
  import opened Primes
  import opened TableModel
  import opened Classes
  import opened Runs
  import opened Calls
  import opened Multimaps

  // ---------- A finite map ----------

  /** A call on a finite map, as seen at the class of `q`. No buckets, no order, no allocator. */
  function MapEffect(eq: (Word, Word) -> bool, call: Call, q: Word, held: Option<Word>): Option<Word> {
    if !eq(q, call.key) then held else
    match call
    case Insert(_, value, _, granted) => if granted then Some(value) else held
    case Change(_, value) => if held.Some? then Some(value) else None
    case Inc(_, value) => if held.Some? then Some((held.value + value) % TWO_TO_64) else None
    case Dec(_, value) => if held.Some? then Some((held.value - value) % TWO_TO_64) else None
    case Search(_) => held
    case Remove(_, cond) => if held.Some? && (cond.None? || cond.value(held.value)) then None else held
    case IterRemove(_, nth) => if nth == 0 then None else held
  }

  /** What a finite map that holds `held` for the key answers. */
  function MapAnswer(call: Call, held: Option<Word>): int {
    match call
    case Insert(_, _, _, granted) => if granted then 0 else -1
    case Search(_) => if held.Some? then held.value else 0
    case Remove(_, cond) => if held.Some? && (cond.None? || cond.value(held.value)) then held.value else 0
    case IterRemove(_, nth) => if nth == 0 && held.Some? then held.value else 0
    case _ => if held.Some? then 0 else -1
  }

  /** The value that a history of calls leaves with the class of `q`. */
  function Contents(eq: (Word, Word) -> bool, calls: seq<Call>, q: Word): Option<Word>
    decreases |calls|
  {
    if calls == [] then None else MapEffect(eq, Last(calls), q, Contents(eq, Front(calls), q))
  }

  /** "If in doubt, remove before insert": no insertion finds its key present. */
  predicate RemoveBeforeInsert(eq: (Word, Word) -> bool, calls: seq<Call>)
    decreases |calls|
  {
    calls == [] || (RemoveBeforeInsert(eq, Front(calls)) &&
      (Last(calls).Insert? ==> Contents(eq, Front(calls), Last(calls).key) == None))
  }

  // ---------- A multimap with at most one pair for every key ----------

  function Held(m: Multimap, q: Word): Option<Word> {
    if m.lists(q) == [] then None else Some(m.lists(q)[0].value)
  }

  ghost predicate Functional(m: Multimap) {
    forall q: Word :: |m.lists(q)| <= 1
  }

  /** Equal keys have the same pairs. */
  ghost predicate Coherent(cfg: Config, m: Multimap) {
    forall q: Word, k: Word :: cfg.eq(q, k) ==> m.lists(q) == m.lists(k)
  }

  lemma ListRefines(cfg: Config, m: Multimap, call: Call, q: Word)
    requires m.primeIndex <= LAST_PRIME && |m.lists(q)| <= 1
    requires call.Insert? && cfg.eq(q, call.key) ==> m.lists(q) == []
    ensures |ListAfter(cfg, m, call, q)| <= 1
    ensures var after := ListAfter(cfg, m, call, q);
      (if after == [] then None else Some(after[0].value)) == MapEffect(cfg.eq, call, q, Held(m, q))
  {
    hide Reverses;
    var c := m.lists(q);
    assert |c| == 1 ==> c == [c[0]];
    assert |c| == 1 ==> Reverse(c) == c;
  }

  lemma MultiRefines(cfg: Config, m: Multimap, call: Call)
    requires m.primeIndex <= LAST_PRIME && Functional(m) && Coherent(cfg, m)
    requires call.Insert? ==> Held(m, call.key) == None
    ensures Functional(MultiStep(cfg, m, call)) && MultiAnswer(m, call) == MapAnswer(call, Held(m, call.key))
    ensures forall q: Word :: Held(MultiStep(cfg, m, call), q) == MapEffect(cfg.eq, call, q, Held(m, q))
  {
    hide ListAfter, MapEffect;
    var t := MultiStep(cfg, m, call);
    forall q: Word
      ensures |t.lists(q)| <= 1 && Held(t, q) == MapEffect(cfg.eq, call, q, Held(m, q))
    {
      ListRefines(cfg, m, call, q);
    }
  }

  // ---------- The table ----------

  /** What the table holds for the class of `q`. */
  function Lookup(cfg: Config, s: Table, q: Word): Option<Word> {
    var c := ClassOf(cfg, s.chains, q);
    if c == [] then None else Some(c[0].value)
  }

  ghost predicate Unique(cfg: Config, s: Table) {
    forall q: Word :: |ClassOf(cfg, s.chains, q)| <= 1
  }

  lemma LookupShown(cfg: Config, m: Multimap, s: Table)
    requires Shows(cfg, m, s) && Congruent(cfg)
    ensures Functional(m) <==> Unique(cfg, s)
    ensures Coherent(cfg, m) && forall q: Word :: Held(m, q) == Lookup(cfg, s, q)
  {
    hide ClassOf, Congruent;
    forall q: Word, k: Word | cfg.eq(q, k)
      ensures m.lists(q) == m.lists(k)
    {
      SameEntries(cfg, s.chains, q, k);
    }
    forall q: Word
      ensures |m.lists(q)| == |ClassOf(cfg, s.chains, q)| && Held(m, q) == Lookup(cfg, s, q)
    {
      FirstPair(ClassOf(cfg, s.chains, q));
    }
  }

  /** One operation refines the call on a finite map, unless it inserts a key that is there. */
  lemma StepRefines(cfg: Config, s: Table, op: Op, call: Call)
    requires WellFormed(cfg, s) && Congruent(cfg) && Enabled(s, op) && Fits(cfg, s, call, op) && Unique(cfg, s)
    requires call.Insert? ==> Lookup(cfg, s, call.key) == None
    ensures Unique(cfg, Step(cfg, s, op))
    ensures forall q: Word :: Lookup(cfg, Step(cfg, s, op), q) == MapEffect(cfg.eq, call, q, Lookup(cfg, s, q))
    ensures Answer(cfg, s, op) == MapAnswer(call, Lookup(cfg, s, call.key))
  {
    hide ClassOf, WellFormed, Congruent, MapEffect, Step, Answer, MapAnswer, Fits, Unique, Functional, Coherent, Lookup;
    hide Held, MultiStep, MultiAnswer, Pairs;
    var m := Multimap(s.primeIndex, s.count, (q: Word) => Pairs(ClassOf(cfg, s.chains, q)));
    InRange(cfg, s);
    StepShown(cfg, m, s, op, call);
    LookupShown(cfg, m, s);
    LookupShown(cfg, MultiStep(cfg, m, call), Step(cfg, s, op));
    MultiRefines(cfg, m, call);
  }

  lemma InRange(cfg: Config, s: Table)
    requires WellFormed(cfg, s)
    ensures s.primeIndex <= LAST_PRIME
  {
  }

  /**
   * Every run from creation, with expansions and allocation failures anywhere, that carries out calls
   * which remove before they insert, is a run of a finite map: the contents agree for every key, and so
   * does the last answer (hence every answer, see `AnswersRefine`).
   */
  lemma {:induction false} RunRefines(cfg: Config, start: nat, ops: seq<Op>, calls: seq<Call>)
    requires start <= LAST_PRIME && Congruent(cfg) && Runnable(cfg, Created(start), ops)
    requires Told(cfg, Created(start), ops, calls) && RemoveBeforeInsert(cfg.eq, calls)
    ensures var s := Run(cfg, Created(start), ops);
      WellFormed(cfg, s) && Unique(cfg, s) && forall q: Word :: Lookup(cfg, s, q) == Contents(cfg.eq, calls, q)
    ensures ops != [] ==>
      Answer(cfg, Run(cfg, Created(start), Front(ops)), Last(ops)) ==
      MapAnswer(Last(calls), Contents(cfg.eq, Front(calls), Last(calls).key))
    decreases |ops|
  {
    hide WellFormed, Congruent, Step, Answer, MapEffect, MapAnswer, Created, ClassOf, Enabled, Fits;
    if ops == [] {
      CreatedWellFormed(cfg, start);
      CreatedEmpty(cfg, start);
    } else {
      RunRefines(cfg, start, Front(ops), Front(calls));
      StepRefines(cfg, Run(cfg, Created(start), Front(ops)), Last(ops), Last(calls));
      StepWellFormed(cfg, Run(cfg, Created(start), Front(ops)), Last(ops));
    }
  }

  lemma CreatedEmpty(cfg: Config, primeIndex: nat)
    requires primeIndex <= LAST_PRIME
    ensures forall q: Word :: ClassOf(cfg, Created(primeIndex).chains, q) == []
  {
    hide Prime;
    FlattenEmpty(Created(primeIndex).chains);
  }

  /** Every answer of such a run is the one that the finite map gives after the calls before it. */
  lemma {:induction false} AnswersRefine(cfg: Config, start: nat, ops: seq<Op>, calls: seq<Call>)
    requires start <= LAST_PRIME && Congruent(cfg) && Runnable(cfg, Created(start), ops)
    requires Told(cfg, Created(start), ops, calls) && RemoveBeforeInsert(cfg.eq, calls)
    ensures forall i :: 0 <= i < |ops| ==>
      && Runnable(cfg, Created(start), ops[..i]) && Enabled(Run(cfg, Created(start), ops[..i]), ops[i])
      && Answer(cfg, Run(cfg, Created(start), ops[..i]), ops[i]) ==
         MapAnswer(calls[i], Contents(cfg.eq, calls[..i], calls[i].key))
    decreases |ops|
  {
    hide WellFormed, Congruent, Step, Answer, MapAnswer, Created, Enabled, Fits, Contents, Unique, Lookup;
    if ops != [] {
      AnswersRefine(cfg, start, Front(ops), Front(calls));
      RunRefines(cfg, start, ops, calls);
      forall i | 0 <= i < |ops|
        ensures Runnable(cfg, Created(start), ops[..i]) && Enabled(Run(cfg, Created(start), ops[..i]), ops[i])
        ensures Answer(cfg, Run(cfg, Created(start), ops[..i]), ops[i]) ==
                MapAnswer(calls[i], Contents(cfg.eq, calls[..i], calls[i].key))
      {
        if i < |ops| - 1 {
          assert Front(ops)[..i] == ops[..i] && Front(calls)[..i] == calls[..i];
          assert Front(ops)[i] == ops[i] && Front(calls)[i] == calls[i];
        } else {
          assert ops[..i] == Front(ops) && calls[..i] == Front(calls);
        }
      }
    }
  }
}
