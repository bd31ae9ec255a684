/** What the two rehashing plans do to the order of entries with the same hash. */
module Order {
  import opened Words
  import opened Sequences
  import opened Chains
  import opened Rehash

  /** `m` only holds of entries with hash `h`. */
  ghost predicate OnHash(cs: Buckets, m: Item -> bool, h: U32) {
    forall x :: x in Flatten(cs) && m(x) ==> x.hash == h
  }

  lemma Elsewhere(cs: Buckets, home: U32 -> nat, m: Item -> bool, h: U32, part: seq<Item>)
    requires OnHash(cs, m, h)
    requires forall x :: x in part ==> x in Flatten(cs) && home(x.hash) != home(h)
    ensures Filter(part, m) == []
  {
    FilterNone(part, m);
  }

  /** The entries of buckets `lo ..< hi` belong there. */
  lemma InSlice(cs: Buckets, home: U32 -> nat, lo: nat, hi: nat, x: Item)
    requires Bucketed(cs, home) && lo <= hi <= |cs| && x in Flatten(cs[lo..hi])
    ensures x in Flatten(cs) && lo <= home(x.hash) < hi
  {
    var i, k := FlattenIn(cs[lo..hi], x);
    InFlatten(cs, lo + i, k);
    assert cs[lo..hi][i] == cs[lo + i];
  }

  lemma SliceElsewhere(cs: Buckets, home: U32 -> nat, m: Item -> bool, h: U32, lo: nat, hi: nat)
    requires Bucketed(cs, home) && OnHash(cs, m, h) && lo <= hi <= |cs| && !(lo <= home(h) < hi)
    ensures Filter(Flatten(cs[lo..hi]), m) == []
  {
    hide Filter, Flatten, Bucketed;
    forall x | x in Flatten(cs[lo..hi])
      ensures x in Flatten(cs) && home(x.hash) != home(h)
    {
      InSlice(cs, home, lo, hi, x);
    }
    Elsewhere(cs, home, m, h, Flatten(cs[lo..hi]));
  }

  /** All of them are in one chain. */
  lemma OneChain(cs: Buckets, home: U32 -> nat, m: Item -> bool, h: U32)
    requires Bucketed(cs, home) && OnHash(cs, m, h) && home(h) < |cs|
    ensures Filter(Flatten(cs), m) == Filter(cs[home(h)], m)
  {
    hide Filter, Flatten, Bucketed, OnHash;
    var b := home(h);
    FlattenAt(cs, b);
    var before, after := Flatten(cs[..b]), Flatten(cs[b + 1..]);
    SliceElsewhere(cs, home, m, h, 0, b);
    SliceElsewhere(cs, home, m, h, b + 1, |cs|);
    assert cs[0..b] == cs[..b] && cs[b + 1..|cs|] == cs[b + 1..];
    FilterAppend(before + cs[b], after, m);
    FilterAppend(before, cs[b], m);
  }

  /** The fresh-table plan reverses the order. */
  lemma FreshReverses(cs: Buckets, n: nat, home: U32 -> nat, m: Item -> bool, h: U32)
    requires OnHash(cs, m, h) && home(h) < n
    ensures Filter(FreshRehash(cs, n, home)[home(h)], m) == Reverse(Filter(Flatten(cs), m))
  {
    var all, there := Flatten(cs), AtHome(home, home(h));
    calc {
      Filter(FreshRehash(cs, n, home)[home(h)], m);
      Filter(Reverse(Filter(all, there)), m);
      { FilterReverse(Filter(all, there), m); }
      Reverse(Filter(Filter(all, there), m));
      { FilterFilter(all, there, m); }
      Reverse(Filter(all, m));
    }
  }

  /** The in-place plan reverses it exactly when the bucket changes. */
  lemma InPlaceReversesMovers(cs: Buckets, n: nat, was: U32 -> nat, home: U32 -> nat, m: Item -> bool, h: U32)
    requires Bucketed(cs, was) && OnHash(cs, m, h) && was(h) < |cs| <= n && home(h) < n
    ensures Filter(InPlaceRehash(cs, n, home)[home(h)], m) ==
            if home(h) == was(h) then Filter(Flatten(cs), m) else Reverse(Filter(Flatten(cs), m))
  {
    hide Filter, Flatten, Bucketed, OnHash, Newcomers;
    var b := home(h);
    var newcomers := Newcomers(cs, home, b);
    var stayers := if b < |cs| then Filter(cs[b], AtHome(home, b)) else [];
    FilterAppend(Reverse(newcomers), stayers, m);
    FilterReverse(newcomers, m);
    NewcomersOfHash(cs, n, was, home, m, h);
    StayersOfHash(cs, n, was, home, m, h);
  }

  lemma StayersOfHash(cs: Buckets, n: nat, was: U32 -> nat, home: U32 -> nat, m: Item -> bool, h: U32)
    requires Bucketed(cs, was) && OnHash(cs, m, h) && was(h) < |cs| <= n && home(h) < n
    ensures var b := home(h);
            Filter(if b < |cs| then Filter(cs[b], AtHome(home, b)) else [], m) ==
            if b == was(h) then Filter(Flatten(cs), m) else []
  {
    var b := home(h);
    if b < |cs| {
      forall k | 0 <= k < |cs[b]|
        ensures cs[b][k] in Flatten(cs) && was(cs[b][k].hash) == b
      {
        InFlatten(cs, b, k);
      }
      FilterFilter(cs[b], AtHome(home, b), m);
      if b == was(h) {
        OneChain(cs, was, m, h);
      } else {
        Elsewhere(cs, was, m, h, cs[b]);
      }
    }
  }

  lemma NewcomersOfHash(cs: Buckets, n: nat, was: U32 -> nat, home: U32 -> nat, m: Item -> bool, h: U32)
    requires Bucketed(cs, was) && OnHash(cs, m, h) && was(h) < |cs| <= n && home(h) < n
    ensures Filter(Newcomers(cs, home, home(h)), m) ==
            if home(h) == was(h) then [] else Filter(Flatten(cs), m)
  {
    var b := home(h);
    var others: Buckets := if b < |cs| then cs[b := []] else cs;
    forall x | x in Flatten(others)
      ensures x in Flatten(cs) && (b < |cs| ==> was(x.hash) != b)
    {
      var i, k := FlattenIn(others, x);
      InFlatten(cs, i, k);
    }
    FilterFilter(Flatten(others), AtHome(home, b), m);
    if b == was(h) {
      Elsewhere(cs, was, m, h, Flatten(others));
    } else {
      OneChain(others, was, m, h);
      OneChain(cs, was, m, h);
    }
  }
}
