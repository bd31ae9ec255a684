/** Scripts of calls carried out on the heap: the table goes through the run that carries out the calls. */
module Scripts {
  import opened Sequences
  import opened Primes
  import opened Chains
  import opened Rehash
  import opened TableModel
  import opened HashTables
  import opened HashIterators
  import opened Classes
  import opened Runs
  import opened Calls

  /** Step `op` takes `before` to `after`; it is what `call` comes to, and `answer` is its answer. */
  ghost predicate Carried(cfg: Config, before: Table, after: Table, call: Call, op: Op, answer: int) {
    && Enabled(before, op) && after == Step(cfg, before, op)
    && Fits(cfg, before, call, op) && answer == Answer(cfg, before, op)
  }

  method PerformInsert(t: HashTable, call: Call) returns (answer: int, ghost op: Op)
    requires t.Valid() && call.Insert?
    modifies t, t.table, NodesOf(t.items)
    ensures t.Valid() && (t.table == old(t.table) || fresh(t.table))
    ensures fresh(NodesOf(t.items) - old(NodesOf(t.items)))
    ensures Carried(t.cfg, old(t.State()), t.State(), call, op, answer)
  {
    hide Sound, Prime, LoadLimit, Linked, Grown;
    ghost var node;
    answer, node := t.Insert(call.key, call.value, call.growth, call.granted);
    op := InsertOp(call.key, call.value, call.growth, node);
  }

  method PerformUpdate(t: HashTable, call: Call) returns (answer: int, ghost op: Op)
    requires t.Valid() && (call.Change? || call.Inc? || call.Dec?)
    modifies t, t.table, NodesOf(t.items)
    ensures t.Valid() && (t.table == old(t.table) || fresh(t.table))
    ensures fresh(NodesOf(t.items) - old(NodesOf(t.items)))
    ensures Carried(t.cfg, old(t.State()), t.State(), call, op, answer)
  {
    hide Sound, Prime, LoadLimit, Linked, TableModel.Change, TableModel.Inc, TableModel.Dec;
    match call {
      case Change(key, value) =>
        answer := t.Change(key, value);
        op := ChangeOp(key, value);
      case Inc(key, value) =>
        answer := t.Inc(key, value);
        op := IncOp(key, value);
      case Dec(key, value) =>
        answer := t.Dec(key, value);
        op := DecOp(key, value);
    }
  }

  /** Search with an iterator, read the value and remove the entry there; nothing happens for an absent key. */
  method PerformIterRemove(t: HashTable, call: Call) returns (answer: int, ghost op: Op)
    requires t.Valid() && call.IterRemove? && call.nth == 0
    modifies t, t.table, NodesOf(t.items)
    ensures t.Valid() && (t.table == old(t.table) || fresh(t.table))
    ensures fresh(NodesOf(t.items) - old(NodesOf(t.items)))
    ensures Carried(t.cfg, old(t.State()), t.State(), call, op, answer)
  {
    hide Sound, Prime, LoadLimit, Linked, IndexFor, First, Unlink, Fits, Following;
    ghost var before, b, p := t.State(), Bucket(t.cfg, t.State(), call.key), Place(t.cfg, t.State(), call.key);
    var iter := new Iterator(t);
    var found := iter.Search(t, call.key);
    IterRemoveFits(t.cfg, before, call);
    if found == 1 {
      LinkedHolds(t.table[..], t.items, b, p);
      answer := iter.entry.value;
      op := IterRemoveOp(Hit(t.cfg, before, call.key).key, b, p);
      var _ := iter.Remove(b, p);
    } else {
      answer := 0;
      op := SearchOp(call.key);
    }
  }

  lemma IterRemoveFits(cfg: Config, s: Table, call: Call)
    requires Sized(s) && call.IterRemove? && call.nth == 0
    ensures Found(cfg, s, call.key) ==>
      var op := IterRemoveOp(Hit(cfg, s, call.key).key, Bucket(cfg, s, call.key), Place(cfg, s, call.key));
      Enabled(s, op) && Fits(cfg, s, call, op)
    ensures !Found(cfg, s, call.key) ==> Fits(cfg, s, call, SearchOp(call.key))
  {
    hide Prime, First, IndexFor, Rank;
    if Found(cfg, s, call.key) {
      var op := IterRemoveOp(Hit(cfg, s, call.key).key, Bucket(cfg, s, call.key), Place(cfg, s, call.key));
      FirstMatch(cfg, s, call.key, op);
    } else {
      FilterFirst(s.chains[Bucket(cfg, s, call.key)], Matching(cfg, call.key));
    }
  }

  /** One call. An iterator that searched for a key stands on the first entry with such a key. */
  method Perform(t: HashTable, call: Call) returns (answer: int, ghost op: Op)
    requires t.Valid() && (call.IterRemove? ==> call.nth == 0)
    modifies t, t.table, NodesOf(t.items)
    ensures t.Valid() && (t.table == old(t.table) || fresh(t.table))
    ensures fresh(NodesOf(t.items) - old(NodesOf(t.items)))
    ensures Carried(t.cfg, old(t.State()), t.State(), call, op, answer)
  {
    hide Sound, Prime, LoadLimit, Linked, TableModel.CondRemove, TableModel.Search;
    match call {
      case Insert(_, _, _, _) =>
        answer, op := PerformInsert(t, call);
      case Search(key) =>
        answer := t.Search(key);
        op := SearchOp(key);
      case Remove(key, cond) =>
        answer := t.CondRemove(key, cond);
        op := RemoveOp(key, cond);
      case IterRemove(_, _) =>
        answer, op := PerformIterRemove(t, call);
      case _ =>
        answer, op := PerformUpdate(t, call);
    }
  }

  predicate OnFirst(calls: seq<Call>) {
    forall i :: 0 <= i < |calls| && calls[i].IterRemove? ==> calls[i].nth == 0
  }

  /** A script: the table goes through a run that carries out exactly these calls, and they get its answers. */
  method Execute(t: HashTable, calls: seq<Call>) returns (answers: seq<int>, ghost ops: seq<Op>)
    requires t.Valid() && OnFirst(calls)
    modifies t, t.table, NodesOf(t.items)
    ensures t.Valid() && Runnable(t.cfg, old(t.State()), ops) && t.State() == Run(t.cfg, old(t.State()), ops)
    ensures Told(t.cfg, old(t.State()), ops, calls) && Answered(t.cfg, old(t.State()), ops, answers)
    ensures |answers| == |ops| == |calls|
    ensures fresh(NodesOf(t.items) - old(NodesOf(t.items))) && (t.table == old(t.table) || fresh(t.table))
  {
    hide Linked, Enabled, Step, Sized, Sound, Fits, Answer;
    ops, answers := [], [];
    var i := 0;
    assert calls[..0] == [];
    while i < |calls|
      invariant i <= |calls| && |ops| == |answers| == i && t.Valid()
      invariant t.table == old(t.table) || fresh(t.table)
      invariant fresh(NodesOf(t.items) - old(NodesOf(t.items)))
      invariant Runnable(t.cfg, old(t.State()), ops) && t.State() == Run(t.cfg, old(t.State()), ops)
      invariant Told(t.cfg, old(t.State()), ops, calls[..i]) && Answered(t.cfg, old(t.State()), ops, answers)
    {
      var answer; ghost var op;
      answer, op := Perform(t, calls[i]);
      assert Front(ops + [op]) == ops && Front(answers + [answer]) == answers;
      assert Front(calls[..i + 1]) == calls[..i];
      ops, answers := ops + [op], answers + [answer];
      i := i + 1;
    }
    assert calls[..i] == calls;
  }
}
