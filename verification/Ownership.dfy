/** Who owns keys, values and entries: nothing is lost, and nothing is freed twice. */
module Ownership {
  import opened Words
  import opened Sequences
  import opened Primes
  import opened Chains
  import opened Rehash
  import opened TableModel
  import opened Runs

  /** What went into the table, and what left it and how. */
  datatype Ledger = Ledger(
    keysIn: multiset<Word>, valuesIn: multiset<Word>, nodesIn: multiset<Entry>,
    keysOut: multiset<Word>, replaced: multiset<Word>, altered: multiset<Word>, returned: multiset<Word>,
    dropped: multiset<Word>)

  /** All values that went in and are linked no more. */
  ghost function ValuesOut(l: Ledger): multiset<Word> {
    (l.replaced + l.altered) + (l.returned + l.dropped)
  }

  const NOTHING: Ledger := Ledger(
    multiset{}, multiset{}, multiset{}, multiset{}, multiset{}, multiset{}, multiset{}, multiset{})

  /** The entry of one operation in the ledger. Inc and dec put another number in the place of a value. */
  ghost function Book(cfg: Config, s: Table, op: Op, l: Ledger): Ledger
    requires Enabled(s, op)
  {
    match op
    case InsertOp(key, value, _, node) =>
      if node.None? then l else
      l.(keysIn := l.keysIn + multiset{key}, valuesIn := l.valuesIn + multiset{value},
         nodesIn := l.nodesIn + multiset{node.value})
    case ChangeOp(key, value) =>
      if !Found(cfg, s, key) then l else
      l.(valuesIn := l.valuesIn + multiset{value}, replaced := l.replaced + multiset{Hit(cfg, s, key).value})
    case IncOp(key, value) =>
      if !Found(cfg, s, key) then l else Altered(l, Hit(cfg, s, key).value, (Hit(cfg, s, key).value + value) % TWO_TO_64)
    case DecOp(key, value) =>
      if !Found(cfg, s, key) then l else Altered(l, Hit(cfg, s, key).value, (Hit(cfg, s, key).value - value) % TWO_TO_64)
    case RemoveOp(key, cond) =>
      if !Found(cfg, s, key) || !Allows(cond, Hit(cfg, s, key).value) then l else
      l.(keysOut := l.keysOut + multiset{Hit(cfg, s, key).key},
         returned := l.returned + multiset{Hit(cfg, s, key).value})
    case IterRemoveOp(key, b, p) =>
      l.(keysOut := l.keysOut + multiset{key}, dropped := l.dropped + multiset{s.chains[b][p].value})
    case _ => l
  }

  ghost function Altered(l: Ledger, x: Word, y: Word): Ledger {
    l.(valuesIn := l.valuesIn + multiset{y}, altered := l.altered + multiset{x})
  }

  /** Everything that went in is still linked or left in one of the known ways; the log agrees. */
  ghost predicate Balanced(cfg: Config, s: Table, l: Ledger) {
    KeysBalanced(cfg, s, l) && ValuesBalanced(cfg, s, l) && NodesBalanced(s, l)
  }

  ghost predicate KeysBalanced(cfg: Config, s: Table, l: Ledger) {
    && multiset(Keys(Flatten(s.chains))) + l.keysOut == l.keysIn
    && multiset(s.keysFreed) == (if cfg.freesKeys then l.keysOut else multiset{})
  }

  ghost predicate ValuesBalanced(cfg: Config, s: Table, l: Ledger) {
    && multiset(Values(Flatten(s.chains))) + ValuesOut(l) == l.valuesIn
    && multiset(s.valuesFreed) == (if cfg.freesValues then l.replaced else multiset{})
  }

  /** No entry is freed twice, or freed while it is linked. */
  ghost predicate NodesBalanced(s: Table, l: Ledger) {
    && multiset(Nodes(Flatten(s.chains))) + multiset(s.nodesFreed) == l.nodesIn
    && forall e :: e in l.nodesIn ==> l.nodesIn[e] == 1
  }

  lemma AddIn<T>(linked: multiset<T>, out: multiset<T>, total: multiset<T>, x: T)
    requires linked + out == total
    ensures (linked + multiset{x}) + out == total + multiset{x}
  {
  }

  lemma MoveOut<T>(linked: multiset<T>, out: multiset<T>, total: multiset<T>, x: T)
    requires (linked + multiset{x}) + out == total
    ensures linked + (out + multiset{x}) == total
  {
  }

  // ---------- Operations ----------

  /** Keys, values and nodes of the contents after an item joined. */
  lemma Joined(s: seq<Item>, t: seq<Item>, x: Item)
    requires multiset(t) == multiset(s) + multiset{x}
    ensures multiset(Keys(t)) == multiset(Keys(s)) + multiset{x.key}
    ensures multiset(Values(t)) == multiset(Values(s)) + multiset{x.value}
    ensures multiset(Nodes(t)) == multiset(Nodes(s)) + multiset{x.node}
  {
    MapJoined(s, t, x, (x: Item) => x.key);
    MapJoined(s, t, x, (x: Item) => x.value);
    MapJoined(s, t, x, (x: Item) => x.node);
  }

  lemma BalancedAfterJoin(cfg: Config, s: Table, t: Table, x: Item, l: Ledger)
    requires Balanced(cfg, s, l) && x.node !in l.nodesIn
    requires multiset(Flatten(t.chains)) == multiset(Flatten(s.chains)) + multiset{x}
    requires t.keysFreed == s.keysFreed && t.valuesFreed == s.valuesFreed && t.nodesFreed == s.nodesFreed
    ensures Balanced(cfg, t,
      l.(keysIn := l.keysIn + multiset{x.key}, valuesIn := l.valuesIn + multiset{x.value},
         nodesIn := l.nodesIn + multiset{x.node}))
  {
    hide Flatten, Keys, Values, Nodes;
    var before := Flatten(s.chains);
    Joined(before, Flatten(t.chains), x);
    AddIn(multiset(Keys(before)), l.keysOut, l.keysIn, x.key);
    AddIn(multiset(Values(before)), ValuesOut(l), l.valuesIn, x.value);
    AddIn(multiset(Nodes(before)), multiset(s.nodesFreed), l.nodesIn, x.node);
  }

  /** Permuting the contents does not change the balance. */
  lemma BalancedAfterMove(cfg: Config, s: Table, t: Table, l: Ledger)
    requires Balanced(cfg, s, l) && multiset(Flatten(t.chains)) == multiset(Flatten(s.chains))
    requires t.keysFreed == s.keysFreed && t.valuesFreed == s.valuesFreed && t.nodesFreed == s.nodesFreed
    ensures Balanced(cfg, t, l)
  {
    MapPermuted(Flatten(s.chains), Flatten(t.chains), (x: Item) => x.key);
    MapPermuted(Flatten(s.chains), Flatten(t.chains), (x: Item) => x.value);
    MapPermuted(Flatten(s.chains), Flatten(t.chains), (x: Item) => x.node);
  }

  lemma InsertBalanced(cfg: Config, s: Table, op: Op, l: Ledger)
    requires WellFormed(cfg, s) && Enabled(s, op) && Balanced(cfg, s, l) && op.InsertOp?
    ensures Balanced(cfg, Step(cfg, s, op), Book(cfg, s, op, l))
  {
    hide Flatten, Sound, Prime, LoadLimit, Grown, IndexFor, Push, Balanced;
    GrownShaped(cfg, s, op.growth);
    GrownLogs(s, op.growth);
    var g := Grown(s, op.growth);
    BalancedAfterMove(cfg, s, g, l);
    if op.node.Some? {
      var x := Item(op.node.value, op.key, cfg.hash(op.key), op.value);
      PushContents(g.chains, Bucket(cfg, g, op.key), x);
      FreshNode(cfg, s, op.node.value, l);
      BalancedAfterJoin(cfg, g, Step(cfg, s, op), x, l);
    }
  }

  lemma GrownLogs(s: Table, growth: Growth)
    requires Sized(s)
    ensures var g := Grown(s, growth);
      g.keysFreed == s.keysFreed && g.valuesFreed == s.valuesFreed && g.nodesFreed == s.nodesFreed
  {
    hide Prime, LoadLimit, FreshRehash, InPlaceRehash, Misplaced, IndexFor;
  }

  /** A node that is neither linked nor freed was never in the table. */
  lemma FreshNode(cfg: Config, s: Table, e: Entry, l: Ledger)
    requires Balanced(cfg, s, l) && e !in NodesOf(s.chains) && e !in s.nodesFreed
    ensures e !in l.nodesIn
  {
    var all := Flatten(s.chains);
    forall k | 0 <= k < |all|
      ensures Nodes(all)[k] != e
    {
      var i, j := FlattenIn(s.chains, all[k]);
      assert s.chains[i][j].node in NodesOf(s.chains);
    }
    assert e !in multiset(Nodes(all)) && e !in multiset(s.nodesFreed);
  }

  /** Change, inc and dec. */
  lemma UpdateBalanced(cfg: Config, s: Table, op: Op, l: Ledger)
    requires WellFormed(cfg, s) && Enabled(s, op) && Balanced(cfg, s, l) && Found(cfg, s, op.key)
    requires op.ChangeOp? || op.IncOp? || op.DecOp?
    ensures Balanced(cfg, Step(cfg, s, op), Book(cfg, s, op, l))
  {
    hide Flatten, Sound, Prime, LoadLimit, Keys, Values, Nodes, IndexFor, First, Overwrite, Balanced;
    var b, p := Bucket(cfg, s, op.key), Place(cfg, s, op.key);
    var x := s.chains[b][p].value;
    var y := if op.ChangeOp? then op.value else if op.IncOp? then (x + op.value) % TWO_TO_64 else (x - op.value) % TWO_TO_64;
    OverwriteLists(s.chains, b, p, y);
    BalancedAfterOverwrite(cfg, s, Step(cfg, s, op), x, y, l, op.ChangeOp?);
  }

  lemma BalancedAfterOverwrite(cfg: Config, s: Table, t: Table, x: Word, y: Word, l: Ledger, freed: bool)
    requires Balanced(cfg, s, l)
    requires multiset(Keys(Flatten(t.chains))) == multiset(Keys(Flatten(s.chains)))
    requires multiset(Nodes(Flatten(t.chains))) == multiset(Nodes(Flatten(s.chains)))
    requires multiset(Values(Flatten(t.chains))) + multiset{x} == multiset(Values(Flatten(s.chains))) + multiset{y}
    requires t.keysFreed == s.keysFreed && t.nodesFreed == s.nodesFreed
    requires t.valuesFreed == s.valuesFreed + if freed && cfg.freesValues then [x] else []
    ensures Balanced(cfg, t,
      if freed then l.(valuesIn := l.valuesIn + multiset{y}, replaced := l.replaced + multiset{x}) else Altered(l, x, y))
  {
    hide Flatten, Keys, Values, Nodes, ValuesOut;
    var vs, vt := multiset(Values(Flatten(s.chains))), multiset(Values(Flatten(t.chains)));
    var m := if freed then l.(valuesIn := l.valuesIn + multiset{y}, replaced := l.replaced + multiset{x}) else Altered(l, x, y);
    assert ValuesBalanced(cfg, t, m) by {
      AddIn(vs, ValuesOut(l), l.valuesIn, y);
      MoveOut(vt, ValuesOut(l), l.valuesIn + multiset{y}, x);
      OneMoreOut(l, m, x);
    }
    assert KeysBalanced(cfg, t, m) && NodesBalanced(t, m);
  }

  lemma OneMoreOut(l: Ledger, m: Ledger, x: Word)
    requires m.returned + m.dropped == l.returned + l.dropped
    requires (m.replaced == l.replaced + multiset{x} && m.altered == l.altered) ||
             (m.altered == l.altered + multiset{x} && m.replaced == l.replaced)
    ensures ValuesOut(m) == ValuesOut(l) + multiset{x}
  {
  }

  lemma OverwriteLists(cs: Buckets, b: nat, p: nat, v: Word)
    requires b < |cs| && p < |cs[b]|
    ensures var before, after := Flatten(cs), Flatten(Overwrite(cs, b, p, v));
      && multiset(Keys(after)) == multiset(Keys(before)) && multiset(Nodes(after)) == multiset(Nodes(before))
      && multiset(Values(after)) + multiset{cs[b][p].value} == multiset(Values(before)) + multiset{v}
  {
    hide Flatten, Keys, Values, Nodes, Overwrite;
    var x, y := cs[b][p], cs[b][p].(value := v);
    var before, after := Flatten(cs), Flatten(Overwrite(cs, b, p, v));
    OverwriteContents(cs, b, p, v);
    var both := after + [x];
    Joined(after, both, x);
    Joined(before, both, y);
    Cancel(multiset(Keys(after)), multiset{x.key}, multiset(Keys(before)));
    Cancel(multiset(Nodes(after)), multiset{x.node}, multiset(Nodes(before)));
  }

  lemma OverwriteContents(cs: Buckets, b: nat, p: nat, v: Word)
    requires b < |cs| && p < |cs[b]|
    ensures multiset(Flatten(Overwrite(cs, b, p, v))) + multiset{cs[b][p]} ==
            multiset(Flatten(cs)) + multiset{cs[b][p].(value := v)}
  {
    hide Flatten;
    var x, y := cs[b][p], cs[b][p].(value := v);
    var c, d := cs[b], cs[b][p := y];
    var before, after := multiset(Flatten(cs)), multiset(Flatten(Overwrite(cs, b, p, v)));
    FlattenUpdate(cs, b, d);
    var rest := multiset(c[..p] + c[p + 1..]);
    Without(c, p);
    Without(d, p);
    assert multiset(d) == rest + multiset{y} by {
      assert d[..p] + d[p + 1..] == c[..p] + c[p + 1..];
    }
    Exchange(after, before, rest, multiset{x}, multiset{y});
  }

  lemma Exchange<T>(after: multiset<T>, before: multiset<T>, rest: multiset<T>, x: multiset<T>, y: multiset<T>)
    requires after + (rest + x) == before + (rest + y)
    ensures after + x == before + y
  {
    assert (after + x) + rest == after + (rest + x);
    assert (before + y) + rest == before + (rest + y);
    Cancel(after + x, rest, before + y);
  }

  lemma RemoveAtBalanced(cfg: Config, s: Table, b: nat, p: nat, l: Ledger, m: Ledger)
    requires WellFormed(cfg, s) && Balanced(cfg, s, l) && b < |s.chains| && p < |s.chains[b]|
    requires m.keysIn == l.keysIn && m.valuesIn == l.valuesIn && m.nodesIn == l.nodesIn
    requires m.replaced == l.replaced && m.altered == l.altered
    requires m.keysOut == l.keysOut + multiset{s.chains[b][p].key}
    requires m.returned + m.dropped == l.returned + l.dropped + multiset{s.chains[b][p].value}
    ensures Balanced(cfg, RemoveAt(cfg, s, b, p), m)
  {
    hide Flatten, Sound, Prime, LoadLimit, IndexFor, Unlink, Balanced;
    UnlinkContents(s.chains, b, p);
    BalancedAfterLeave(cfg, s, RemoveAt(cfg, s, b, p), s.chains[b][p], l, m);
  }

  lemma BalancedAfterLeave(cfg: Config, s: Table, t: Table, x: Item, l: Ledger, m: Ledger)
    requires Balanced(cfg, s, l)
    requires multiset(Flatten(s.chains)) == multiset(Flatten(t.chains)) + multiset{x}
    requires m.keysIn == l.keysIn && m.valuesIn == l.valuesIn && m.nodesIn == l.nodesIn
    requires m.replaced == l.replaced && m.altered == l.altered
    requires m.keysOut == l.keysOut + multiset{x.key}
    requires m.returned + m.dropped == l.returned + l.dropped + multiset{x.value}
    requires t.keysFreed == s.keysFreed + (if cfg.freesKeys then [x.key] else [])
    requires t.valuesFreed == s.valuesFreed && t.nodesFreed == s.nodesFreed + [x.node]
    ensures Balanced(cfg, t, m)
  {
    hide Flatten, Keys, Values, Nodes;
    var after := Flatten(t.chains);
    Joined(after, Flatten(s.chains), x);
    assert KeysBalanced(cfg, t, m) by {
      MoveOut(multiset(Keys(after)), l.keysOut, l.keysIn, x.key);
    }
    assert ValuesBalanced(cfg, t, m) by {
      MoveOut(multiset(Values(after)), ValuesOut(l), l.valuesIn, x.value);
      assert ValuesOut(l) + multiset{x.value} == ValuesOut(m);
    }
    assert NodesBalanced(t, m) by {
      MoveOut(multiset(Nodes(after)), multiset(s.nodesFreed), l.nodesIn, x.node);
      assert multiset(t.nodesFreed) == multiset(s.nodesFreed) + multiset{x.node};
    }
  }

  lemma StepBalanced(cfg: Config, s: Table, op: Op, l: Ledger)
    requires WellFormed(cfg, s) && Enabled(s, op) && Balanced(cfg, s, l)
    ensures Balanced(cfg, Step(cfg, s, op), Book(cfg, s, op, l))
  {
    hide Balanced, WellFormed, Prime, LoadLimit, First, IndexFor, Grown, RemoveAt;
    match op {
      case InsertOp(_, _, _, _) =>
        InsertBalanced(cfg, s, op, l);
      case ChangeOp(key, value) =>
        if Found(cfg, s, key) {
          UpdateBalanced(cfg, s, op, l);
        }
      case IncOp(key, value) =>
        if Found(cfg, s, key) {
          UpdateBalanced(cfg, s, op, l);
        }
      case DecOp(key, value) =>
        if Found(cfg, s, key) {
          UpdateBalanced(cfg, s, op, l);
        }
      case SearchOp(key) =>
      case RemoveOp(key, cond) =>
        if Found(cfg, s, key) && Allows(cond, Hit(cfg, s, key).value) {
          RemoveAtBalanced(cfg, s, Bucket(cfg, s, key), Place(cfg, s, key), l, Book(cfg, s, op, l));
        }
      case IterRemoveOp(key, b, p) =>
        RemoveAtBalanced(cfg, s, b, p, l, Book(cfg, s, op, l));
    }
  }

  /**
   * What the columns mean, in terms of what the caller sees: a removal that takes an entry out returns its
   * value, one through an iterator drops it, and change, inc and dec put a new value in the place of
   * the one that a search would have found.
   */
  lemma BooksMean(cfg: Config, s: Table, op: Op, l: Ledger)
    requires Enabled(s, op)
    ensures var m, t, answer := Book(cfg, s, op, l), Step(cfg, s, op), Answer(cfg, s, op);
      && (if op.RemoveOp? && Total(t) < Total(s) then m.returned == l.returned + multiset{answer}
          else m.returned == l.returned)
      && (if op.IterRemoveOp? then m.dropped == l.dropped + multiset{answer} else m.dropped == l.dropped)
      && (if op.ChangeOp? && answer == 0 then m.replaced == l.replaced + multiset{Search(cfg, s, op.key)}
          else m.replaced == l.replaced)
      && (if (op.IncOp? || op.DecOp?) && answer == 0 then m.altered == l.altered + multiset{Search(cfg, s, op.key)}
          else m.altered == l.altered)
  {
    hide Prime, LoadLimit, Bucket, Place, Found, Hit, Grown, Total, RemoveAt, SetHit, Sized, NodesOf;
    match op {
      case RemoveOp(key, cond) => RemovalShows(cfg, s, op);
      case ChangeOp(_, _) => UpdateShows(cfg, s, op);
      case IncOp(_, _) => UpdateShows(cfg, s, op);
      case DecOp(_, _) => UpdateShows(cfg, s, op);
      case _ =>
    }
  }

  /** Change, inc and dec answer 0 exactly if they find the key, whose value a search would give. */
  lemma UpdateShows(cfg: Config, s: Table, op: Op)
    requires Enabled(s, op) && (op.ChangeOp? || op.IncOp? || op.DecOp?)
    ensures Answer(cfg, s, op) == (if Found(cfg, s, op.key) then 0 else -1)
    ensures Found(cfg, s, op.key) ==> Search(cfg, s, op.key) == Hit(cfg, s, op.key).value
  {
    hide Prime, LoadLimit, Bucket, Place, SetHit, NodesOf;
  }

  /** A removal makes the table smaller exactly if it finds the key and the condition allows it. */
  lemma RemovalShows(cfg: Config, s: Table, op: Op)
    requires Enabled(s, op) && op.RemoveOp?
    ensures Total(Step(cfg, s, op)) < Total(s) <==>
      Found(cfg, s, op.key) && (op.cond.None? || op.cond.value(Hit(cfg, s, op.key).value))
    ensures Total(Step(cfg, s, op)) < Total(s) ==> Answer(cfg, s, op) == Hit(cfg, s, op.key).value
  {
    hide Prime, LoadLimit, IndexFor, First, Flatten, Matching;
    if Found(cfg, s, op.key) {
      UnlinkContents(s.chains, Bucket(cfg, s, op.key), Place(cfg, s, op.key));
    }
  }

  /** The ledger of a whole run. */
  ghost function Books(cfg: Config, s: Table, ops: seq<Op>): Ledger
    requires Runnable(cfg, s, ops)
    decreases |ops|
  {
    if ops == [] then NOTHING
    else Book(cfg, Run(cfg, s, Front(ops)), Last(ops), Books(cfg, s, Front(ops)))
  }

  /** Conservation over every run from creation. */
  lemma {:induction false} RunBalanced(cfg: Config, start: nat, ops: seq<Op>)
    requires start <= LAST_PRIME && Runnable(cfg, Created(start), ops)
    ensures WellFormed(cfg, Run(cfg, Created(start), ops))
    ensures Balanced(cfg, Run(cfg, Created(start), ops), Books(cfg, Created(start), ops))
    decreases |ops|
  {
    hide WellFormed, Created, Enabled, Step, Book, Balanced;
    if ops == [] {
      CreatedWellFormed(cfg, start);
      CreatedBalanced(cfg, start);
    } else {
      RunBalanced(cfg, start, Front(ops));
      var s := Run(cfg, Created(start), Front(ops));
      StepWellFormed(cfg, s, Last(ops));
      StepBalanced(cfg, s, Last(ops), Books(cfg, Created(start), Front(ops)));
    }
  }

  lemma CreatedBalanced(cfg: Config, start: nat)
    requires start <= LAST_PRIME
    ensures Balanced(cfg, Created(start), NOTHING)
  {
    hide Prime;
    FlattenEmpty(Created(start).chains);
  }

  predicate NoArithmetic(ops: seq<Op>) {
    forall i :: 0 <= i < |ops| ==> !ops[i].IncOp? && !ops[i].DecOp?
  }

  lemma OnlyArithmeticAlters(cfg: Config, s: Table, op: Op, l: Ledger)
    requires Enabled(s, op) && !op.IncOp? && !op.DecOp?
    ensures Book(cfg, s, op, l).altered == l.altered
  {
    hide Found, Hit, Allows, Sized, NodesOf;
  }

  /** Without inc and dec no value is altered: the values are exactly those that the caller passed in. */
  lemma {:induction false} NothingAltered(cfg: Config, s: Table, ops: seq<Op>)
    requires Runnable(cfg, s, ops) && NoArithmetic(ops)
    ensures Books(cfg, s, ops).altered == multiset{}
    decreases |ops|
  {
    hide Enabled, Step, Book;
    if ops != [] {
      assert NoArithmetic(Front(ops)) && !Last(ops).IncOp? && !Last(ops).DecOp?;
      NothingAltered(cfg, s, Front(ops));
      OnlyArithmeticAlters(cfg, Run(cfg, s, Front(ops)), Last(ops), Books(cfg, s, Front(ops)));
    }
  }

  lemma ValuesRest(linked: multiset<Word>, l: Ledger)
    requires linked + ValuesOut(l) == l.valuesIn
    ensures (l.replaced + linked) + (l.altered + l.returned + l.dropped) == l.valuesIn
  {
  }

  lemma DestroyFreesRest(cfg: Config, s: Table, l: Ledger)
    requires Balanced(cfg, s, l)
    ensures var t := Destroy(cfg, s);
      && multiset(t.keysFreed) == (if cfg.freesKeys then l.keysIn else multiset{})
      && (cfg.freesValues ==> multiset(t.valuesFreed) + (l.altered + l.returned + l.dropped) == l.valuesIn)
      && (!cfg.freesValues ==> t.valuesFreed == [])
      && multiset(t.nodesFreed) == l.nodesIn && forall e :: e in t.nodesFreed ==> multiset(t.nodesFreed)[e] == 1
  {
    hide Flatten, Keys, Values, Nodes, ValuesOut;
    var all, t := Flatten(s.chains), Destroy(cfg, s);
    assert multiset(t.nodesFreed) == multiset(s.nodesFreed) + multiset(Nodes(all));
    assert forall e :: e in t.nodesFreed ==> e in multiset(t.nodesFreed);
    ValuesRest(multiset(Values(all)), l);
  }

  /**
   * Destroying the table after any run: with a key callback every key that was inserted has been freed
   * exactly once, and with a value callback every value that was not altered, returned or dropped; every
   * entry ever allocated has been freed exactly once. Without inc and dec no value is altered.
   */
  lemma AllFreedOnce(cfg: Config, start: nat, ops: seq<Op>)
    requires start <= LAST_PRIME && Runnable(cfg, Created(start), ops)
    ensures var l, t := Books(cfg, Created(start), ops), Destroy(cfg, Run(cfg, Created(start), ops));
      && multiset(t.keysFreed) == (if cfg.freesKeys then l.keysIn else multiset{})
      && (cfg.freesValues ==> multiset(t.valuesFreed) + (l.altered + l.returned + l.dropped) == l.valuesIn)
      && (!cfg.freesValues ==> t.valuesFreed == [])
      && (NoArithmetic(ops) ==> l.altered == multiset{})
      && multiset(t.nodesFreed) == l.nodesIn && forall e :: e in t.nodesFreed ==> multiset(t.nodesFreed)[e] == 1
  {
    hide Flatten, Keys, Values, Nodes, Runnable, Created, WellFormed, Books, Run;
    RunBalanced(cfg, start, ops);
    DestroyFreesRest(cfg, Run(cfg, Created(start), ops), Books(cfg, Created(start), ops));
    if NoArithmetic(ops) {
      NothingAltered(cfg, Created(start), ops);
    }
  }
}
