/** What a client sees of a table from its creation to its destruction, in terms of the calls it makes. */
module Sessions {
  import opened Words
  import opened Sequences
  import opened Primes
  import opened Chains
  import opened TableModel
  import opened HashFunctions
  import opened HashTables
  import opened HashIterators
  import opened Classes
  import opened Runs
  import opened Calls
  import opened Multimaps
  import opened Refinement
  import opened LoadFactor
  import opened Ownership
  import opened Scripts
  import opened Walks

  // ---------- The measures of a run, counted in calls ----------

  function InsertCalls(calls: seq<Call>): nat
    decreases |calls|
  {
    if calls == [] then 0 else InsertCalls(Front(calls)) + if Last(calls).Insert? then 1 else 0
  }

  /** No insertion finds the allocator without memory for a longer table. */
  predicate TablesGranted(calls: seq<Call>) {
    forall i :: 0 <= i < |calls| && calls[i].Insert? ==> !calls[i].growth.NoMemory?
  }

  lemma {:induction false} InsertsTold(cfg: Config, s: Table, ops: seq<Op>, calls: seq<Call>)
    requires Runnable(cfg, s, ops) && Told(cfg, s, ops, calls)
    ensures Inserts(ops) == InsertCalls(calls) && (AllGranted(ops) <==> TablesGranted(calls))
    decreases |ops|
  {
    hide Enabled, Step, Matches, Rank;
    if ops != [] {
      InsertsTold(cfg, s, Front(ops), Front(calls));
      assert AllGranted(ops) <==> AllGranted(Front(ops)) && Granted(Last(ops));
      assert TablesGranted(calls) <==>
        TablesGranted(Front(calls)) && (Last(calls).Insert? ==> !Last(calls).growth.NoMemory?);
    }
  }

  /** The keys that were inserted. */
  function InsertedKeys(calls: seq<Call>): multiset<Word>
    decreases |calls|
  {
    if calls == [] then multiset{} else
    InsertedKeys(Front(calls)) + if Last(calls).Insert? && Last(calls).granted then multiset{Last(calls).key} else multiset{}
  }

  lemma BookTold(cfg: Config, s: Table, op: Op, call: Call, l: Ledger)
    requires Enabled(s, op) && Fits(cfg, s, call, op)
    ensures var m, put := Book(cfg, s, op, l), call.Insert? && call.granted;
      && m.keysIn == l.keysIn + (if put then multiset{call.key} else multiset{})
      && |m.nodesIn| == |l.nodesIn| + if put then 1 else 0
  {
    hide Enabled, Matches, Rank, Book;
    BookInserts(cfg, s, op, l);
  }

  /** Only an insertion that gets its entry puts a key in. */
  lemma BookInserts(cfg: Config, s: Table, op: Op, l: Ledger)
    requires Enabled(s, op)
    ensures var m := Book(cfg, s, op, l);
      if op.InsertOp? && op.node.Some?
      then m.keysIn == l.keysIn + multiset{op.key} && |m.nodesIn| == |l.nodesIn| + 1
      else m.keysIn == l.keysIn && m.nodesIn == l.nodesIn
  {
    hide Found, Hit, Allows, Sized, NodesOf;
  }

  lemma {:induction false} BooksTold(cfg: Config, s: Table, ops: seq<Op>, calls: seq<Call>)
    requires Runnable(cfg, s, ops) && Told(cfg, s, ops, calls)
    ensures Books(cfg, s, ops).keysIn == InsertedKeys(calls)
    ensures |Books(cfg, s, ops).nodesIn| == |InsertedKeys(calls)|
    decreases |ops|
  {
    hide Enabled, Step, Fits, Book;
    if ops != [] {
      BooksTold(cfg, s, Front(ops), Front(calls));
      BookTold(cfg, Run(cfg, s, Front(ops)), Last(ops), Last(calls), Books(cfg, s, Front(ops)));
    }
  }

  // ---------- Sessions ----------

  /**
   * A table is created and used. Whatever the allocator answers, with duplicates and all, the table
   * is the multimap that the calls describe and gives its answers; if the client removes before it
   * inserts, it is a finite map. If the longer tables are granted, growing relinks at most three
   * entries for each insertion.
   */
  method Session(minSize: U32, hashFn: Word -> U32, eq: (Word, Word) -> bool, freesKeys: bool, freesValues: bool,
                 headerGranted: bool, arrayGranted: bool, calls: seq<Call>)
    returns (t: HashTable?, answers: seq<int>, ghost start: nat, ghost ops: seq<Op>)
    requires OnFirst(calls)
    ensures t == null <==> minSize > 0x4000_0000 || !headerGranted || !arrayGranted
    ensures t != null ==>
      && fresh(t) && fresh(t.table) && fresh(NodesOf(t.items)) && t.Valid() && t.cfg == Configure(hashFn, eq, freesKeys, freesValues)
      && start <= LAST_PRIME && Prime(start) > minSize
      && Runnable(t.cfg, Created(start), ops) && t.State() == Run(t.cfg, Created(start), ops)
      && Told(t.cfg, Created(start), ops, calls) && Answered(t.cfg, Created(start), ops, answers)
      && (InsertCalls(calls) < TWO_TO_32 ==> t.entryCount == |Flatten(t.items)|)
      && (TablesGranted(calls) ==> t.relinked <= 3 * InsertCalls(calls))
    ensures t != null ==>
      && (forall a: Word, b: Word :: t.cfg.eq(a, b) <==> eq(a, b))
      && (forall key: Word :: t.cfg.hash(key) == DoHash(hashFn(key)))
      && (Agreeing(hashFn, eq) ==> Congruent(t.cfg))
    ensures t != null && Congruent(t.cfg) ==>
      Shows(t.cfg, After(t.cfg, start, calls), t.State()) && AnswersOf(t.cfg, start, calls, answers)
    ensures t != null && Congruent(t.cfg) && RemoveBeforeInsert(eq, calls) ==>
      && |answers| == |calls|
      && (forall i :: 0 <= i < |calls| ==> answers[i] == MapAnswer(calls[i], Contents(eq, calls[..i], calls[i].key)))
      && forall q: Word :: Lookup(t.cfg, t.State(), q) == Contents(eq, calls, q)
  {
    hide WellFormed, Linked, Shaped, Prime, LoadLimit, Told, Answered, Runnable, Run, Congruent, Shows, MultiAnswer, AnswersOf;
    hide Agreeing, DoHash, Contents, MapAnswer, Lookup, RemoveBeforeInsert, Flatten, InsertCalls, AllGranted, TablesGranted;
    t := Create(minSize, hashFn, eq, freesKeys, freesValues, headerGranted, arrayGranted);
    start, answers, ops := 0, [], [];
    if t == null {
      return;
    }
    if Agreeing(hashFn, eq) {
      ConfiguredCongruent(hashFn, eq, freesKeys, freesValues);
    }
    start := t.primeIndex;
    InRange(t.cfg, t.State());
    answers, ops := Execute(t, calls);
    Measures(t.cfg, start, ops, calls);
    if Congruent(t.cfg) {
      RunShown(t.cfg, start, ops, calls);
      AnswersShown(t.cfg, start, ops, calls, answers);
      if RemoveBeforeInsert(eq, calls) {
        RunRefines(t.cfg, start, ops, calls);
        AnswersRefine(t.cfg, start, ops, calls);
        forall i | 0 <= i < |calls|
          ensures answers[i] == MapAnswer(calls[i], Contents(eq, calls[..i], calls[i].key))
        {
          ToldAt(t.cfg, Created(start), ops, calls, answers, i);
        }
      }
    }
  }

  lemma Measures(cfg: Config, start: nat, ops: seq<Op>, calls: seq<Call>)
    requires start <= LAST_PRIME && Runnable(cfg, Created(start), ops) && Told(cfg, Created(start), ops, calls)
    ensures var s := Run(cfg, Created(start), ops);
      && (InsertCalls(calls) < TWO_TO_32 ==> s.count == |Flatten(s.chains)|)
      && (TablesGranted(calls) ==> s.relinked <= 3 * InsertCalls(calls))
  {
    hide Runnable, Run, Told, Created, LoadLimit;
    InsertsTold(cfg, Created(start), ops, calls);
    CountExact(cfg, start, ops);
    if TablesGranted(calls) {
      AmortisedGrowth(cfg, start, ops);
    }
  }

  /**
   * And then destroyed: every key that was inserted is freed exactly once, every value is freed unless it
   * was altered, returned or dropped, and every entry is freed exactly once.
   */
  method Lifetime(minSize: U32, hashFn: Word -> U32, eq: (Word, Word) -> bool, freesKeys: bool, freesValues: bool,
                  headerGranted: bool, arrayGranted: bool, calls: seq<Call>)
    returns (t: HashTable?, answers: seq<int>, ghost start: nat, ghost ops: seq<Op>)
    requires OnFirst(calls)
    ensures t == null <==> minSize > 0x4000_0000 || !headerGranted || !arrayGranted
    ensures t != null ==>
      && fresh(t) && t.cfg == Configure(hashFn, eq, freesKeys, freesValues) && start <= LAST_PRIME && Prime(start) > minSize
      && Runnable(t.cfg, Created(start), ops) && t.State() == Destroy(t.cfg, Run(t.cfg, Created(start), ops))
      && Told(t.cfg, Created(start), ops, calls) && Answered(t.cfg, Created(start), ops, answers)
      && multiset(t.keysFreed) == (if freesKeys then InsertedKeys(calls) else multiset{})
      && (freesValues ==> var l := Books(t.cfg, Created(start), ops);
            multiset(t.valuesFreed) + (l.altered + l.returned + l.dropped) == l.valuesIn)
      && (!freesValues ==> t.valuesFreed == [])
      && |t.nodesFreed| == |InsertedKeys(calls)| && forall e :: e in t.nodesFreed ==> multiset(t.nodesFreed)[e] == 1
    ensures t != null && Congruent(t.cfg) ==> AnswersOf(t.cfg, start, calls, answers)
  {
    hide WellFormed, Linked, Shaped, Prime, LoadLimit, Told, Answered, Runnable, Run, Congruent, Shows, AnswersOf, Books;
    hide InsertedKeys, Flatten, Keys, Values, Nodes, RemoveBeforeInsert, TablesGranted, InsertCalls;
    t, answers, start, ops := Session(minSize, hashFn, eq, freesKeys, freesValues, headerGranted, arrayGranted, calls);
    if t != null {
      AllFreedOnce(t.cfg, start, ops);
      BooksTold(t.cfg, Created(start), ops, calls);
      t.Destroy();
      assert |multiset(t.nodesFreed)| == |t.nodesFreed|;
    }
  }

  /**
   * Or swept by a walk that removes the doomed entries: the script and the walk together are one run from
   * creation, so all that is proved of runs holds of the table; such as that its books balance.
   */
  method Swept(minSize: U32, hashFn: Word -> U32, eq: (Word, Word) -> bool, freesKeys: bool, freesValues: bool,
               headerGranted: bool, arrayGranted: bool, calls: seq<Call>, doomed: (Word, Word) -> bool)
    returns (t: HashTable?, answers: seq<int>, ghost start: nat, ghost ops: seq<Op>, ghost removals: seq<Op>)
    requires OnFirst(calls)
    ensures t == null <==> minSize > 0x4000_0000 || !headerGranted || !arrayGranted
    ensures t != null ==>
      && fresh(t) && t.Valid() && t.cfg == Configure(hashFn, eq, freesKeys, freesValues)
      && start <= LAST_PRIME && Prime(start) > minSize
      && Runnable(t.cfg, Created(start), ops) && Told(t.cfg, Created(start), ops, calls)
      && Answered(t.cfg, Created(start), ops, answers)
      && t.items == FilterEach(Run(t.cfg, Created(start), ops).chains, Kept(doomed))
      && Runnable(t.cfg, Created(start), ops + removals) && t.State() == Run(t.cfg, Created(start), ops + removals)
      && Balanced(t.cfg, t.State(), Books(t.cfg, Created(start), ops + removals))
  {
    hide WellFormed, Linked, Shaped, Prime, LoadLimit, Told, Answered, Runnable, Run, Congruent, Shows, AnswersOf, Books;
    hide InsertedKeys, Flatten, Balanced, RemoveBeforeInsert, TablesGranted, InsertCalls, FilterEach, Filter, Removed;
    t, answers, start, ops := Session(minSize, hashFn, eq, freesKeys, freesValues, headerGranted, arrayGranted, calls);
    removals := [];
    if t != null {
      var iter := new Iterator(t);
      ghost var visited;
      visited, removals := Purge(iter, doomed);
      RunsJoin(t.cfg, Created(start), ops, removals);
      RunBalanced(t.cfg, start, ops + removals);
    }
  }
}
