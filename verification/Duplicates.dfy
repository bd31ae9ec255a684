/**
 * Two growing tables full of duplicates. The documentation of insertion says that a change of size
 * reverses their order of retrieval; it does with a fresh table, and need not in place.
 */
module Duplicates {
  import opened Words
  import opened Sequences
  import opened Primes
  import opened Chains
  import opened TableModel
  import opened HashFunctions
  import opened HashTables
  import opened Classes
  import opened Runs
  import opened Calls
  import opened Multimaps
  import opened Scripts

  /** Insert the values `0 ..< n` with key 0. */
  function Fill(n: nat, growth: Growth): (calls: seq<Call>)
    requires n <= TWO_TO_32
    ensures |calls| == n && forall i :: 0 <= i < n ==> calls[i].Insert?
  {
    if n == 0 then [] else Fill(n - 1, growth) + [Call.Insert(0, n - 1, growth, true)]
  }

  /** Last in, first out. */
  function Descending(n: nat): (c: seq<Pair>)
    requires n <= TWO_TO_32
    ensures |c| == n && forall i :: 0 <= i < n ==> c[i] == Pair(0, n - 1 - i)
  {
    if n == 0 then [] else [Pair(0, n - 1)] + Descending(n - 1)
  }

  lemma FillFront(n: nat, growth: Growth)
    requires 0 < n <= TWO_TO_32
    ensures Front(Fill(n, growth)) == Fill(n - 1, growth)
    ensures Last(Fill(n, growth)) == Call.Insert(0, n - 1, growth, true)
  {
  }

  lemma FirstLimit()
    ensures LoadLimit(0) == 35
  {
  }

  lemma DescendingStep(n: nat)
    requires 0 < n <= TWO_TO_32
    ensures Descending(n) == [Pair(0, n - 1)] + Descending(n - 1)
  {
  }

  /** One more insertion with key 0. */
  lemma FillStep(cfg: Config, m: Multimap, value: Word, growth: Growth)
    requires m.primeIndex == 0 && m.count <= LoadLimit(0) && cfg.eq(0, 0)
    ensures var t := MultiStep(cfg, m, Call.Insert(0, value, growth, true));
      && t.count == m.count + 1
      && t.primeIndex == (if m.count == LoadLimit(0) && !growth.NoMemory? then 1 else 0)
      && t.lists(0) == [Pair(0, value)] +
           if m.count == LoadLimit(0) && Reverses(cfg, m, growth, 0) then Reverse(m.lists(0)) else m.lists(0)
  {
    FirstLimit();
    hide LoadLimit, Prime, Reverse;
  }

  /** As long as the limit is not exceeded nothing is reversed. */
  lemma {:induction false} Filled(cfg: Config, n: nat, growth: Growth)
    requires n <= LoadLimit(0) && cfg.eq(0, 0)
    ensures var m := After(cfg, 0, Fill(n, growth));
      m.primeIndex == 0 && m.count == n && m.lists(0) == Descending(n)
  {
    FirstLimit();
    if n == 0 {
      assert Fill(0, growth) == [] && Descending(0) == [];
    } else {
      hide Fill, Descending, LoadLimit, MultiStep, Reverses;
      Filled(cfg, n - 1, growth);
      FillFront(n, growth);
      DescendingStep(n);
      FillStep(cfg, After(cfg, 0, Fill(n - 1, growth)), n - 1, growth);
    }
  }

  /** The insertion that exceeds the limit expands; only a fresh table reverses the list. */
  lemma Overfilled(cfg: Config, growth: Growth)
    requires cfg.eq(0, 0) && cfg.hash(0) == 0 && !growth.NoMemory?
    ensures var n := LoadLimit(0);
      var before, after := After(cfg, 0, Fill(n, growth)), After(cfg, 0, Fill(n + 1, growth));
      && before.primeIndex == 0 && after.primeIndex == 1
      && after.lists(0) == [Pair(0, n)] + (if growth.FreshArray? then Reverse(before.lists(0)) else before.lists(0))
      && before.lists(0) == Descending(n) != Reverse(before.lists(0))
  {
    FirstLimit();
    hide Fill, Descending, LoadLimit, MultiStep, Prime, Reverse;
    var n := LoadLimit(0);
    Filled(cfg, n, growth);
    FillFront(n + 1, growth);
    var m := After(cfg, 0, Fill(n, growth));
    FillStep(cfg, m, n, growth);
    ZeroStays(cfg, m, growth);
    var c := Descending(n);
    ReverseEnds(c);
    assert Reverse(c)[0] != c[0];
  }

  /** Hash 0 selects bucket 0 in every table. */
  lemma ZeroStays(cfg: Config, m: Multimap, growth: Growth)
    requires m.primeIndex == 0 && m.count == LoadLimit(0) && cfg.hash(0) == 0 && !growth.NoMemory?
    ensures Reverses(cfg, m, growth, 0) <==> growth.FreshArray?
  {
    FirstLimit();
    hide LoadLimit;
  }

  lemma ReverseEnds<T>(s: seq<T>)
    requires s != []
    ensures Reverse(s)[0] == s[|s| - 1]
  {
    hide Reverse;
    assert s == s[..|s| - 1] + [s[|s| - 1]];
    ReverseAppend(s[..|s| - 1], [s[|s| - 1]]);
    ReverseOne(s[|s| - 1]);
  }

  /** A hash function and an equality that make all keys duplicates of each other. */
  lemma AllEqual(cfg: Config)
    requires cfg == Configure((k: Word) => 0, (a: Word, b: Word) => true, false, false)
    ensures Congruent(cfg) && cfg.eq(0, 0) && cfg.hash(0) == 0
  {
    hide DoHash;
    DoHashCollides();
  }

  /**
   * A table of duplicates that has grown once since its creation at the first length, and how it retrieves them: behind the newest one, the
   * others are reversed if the table is fresh, and in the order from before if it grew in place.
   */
  method Grow(growth: Growth) returns (t: HashTable, ghost ops: seq<Op>)
    requires !growth.NoMemory?
    ensures t.Valid() && fresh(t) && t.primeIndex == 1
    ensures Runnable(t.cfg, Created(0), ops) && t.State() == Run(t.cfg, Created(0), ops)
    ensures Told(t.cfg, Created(0), ops, Fill(LoadLimit(0) + 1, growth))
    ensures var n := LoadLimit(0);
      && Pairs(ClassOf(t.cfg, t.items, 0)) ==
         [Pair(0, n)] + (if growth.FreshArray? then Reverse(Descending(n)) else Descending(n))
      && Descending(n) != Reverse(Descending(n))
  {
    FirstLimit();
    hide WellFormed, Linked, Shaped, Told, Answered, Runnable, Run, ClassOf, After, Fill, Descending, Pairs, Congruent;
    hide DoHash, Reverse, LoadLimit, Prime;
    var cfg := Configure((k: Word) => 0, (a: Word, b: Word) => true, false, false);
    AllEqual(cfg);
    t := new HashTable(cfg, 0, Prime(0));
    var answers;
    answers, ops := Execute(t, Fill(LoadLimit(0) + 1, growth));
    RunShown(cfg, 0, ops, Fill(LoadLimit(0) + 1, growth));
    Overfilled(cfg, growth);
  }
}
