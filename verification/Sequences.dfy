/** Facts about sequences that the table, list and server models share. */
module Sequences {
  function Reverse<T>(s: seq<T>): (r: seq<T>)
    ensures |r| == |s|
  {
    if s == [] then [] else Reverse(s[1..]) + [s[0]]
  }

  function Filter<T>(s: seq<T>, keep: T -> bool): (r: seq<T>)
    ensures |r| <= |s|
  {
    if s == [] then [] else (if keep(s[0]) then [s[0]] else []) + Filter(s[1..], keep)
  }

  /** The first place where `hit` holds; the length when there is none. */
  function First<T>(s: seq<T>, hit: T -> bool): (r: nat)
    ensures r <= |s|
    ensures r < |s| ==> hit(s[r])
    ensures forall j :: 0 <= j < r ==> !hit(s[j])
  {
    if s == [] || hit(s[0]) then 0 else
    var r := First(s[1..], hit);
    assert forall j :: 0 < j < r + 1 ==> s[j] == s[1..][j - 1];
    r + 1
  }

  lemma FirstIs<T>(s: seq<T>, hit: T -> bool, p: nat)
    requires p <= |s| && (p < |s| ==> hit(s[p]))
    requires forall j :: 0 <= j < p ==> !hit(s[j])
    ensures First(s, hit) == p
  {
  }

  /** All chains of a table, one after the other. */
  function Flatten<T>(cs: seq<seq<T>>): seq<T> {
    if cs == [] then [] else cs[0] + Flatten(cs[1..])
  }

  lemma ReverseOne<T>(x: T)
    ensures Reverse([x]) == [x]
  {
  }

  lemma NothingReversed<T>()
    ensures Reverse<T>([]) == []
  {
  }

  lemma {:induction false} ReverseAppend<T>(s: seq<T>, t: seq<T>)
    ensures Reverse(s + t) == Reverse(t) + Reverse(s)
  {
    if s == [] {
      assert s + t == t;
    } else {
      assert (s + t)[1..] == s[1..] + t;
      ReverseAppend(s[1..], t);
    }
  }

  lemma {:induction false} ReverseTwice<T>(s: seq<T>)
    ensures Reverse(Reverse(s)) == s
  {
    if s != [] {
      ReverseAppend(Reverse(s[1..]), [s[0]]);
      ReverseTwice(s[1..]);
    }
  }

  lemma {:induction false} ReverseMultiset<T>(s: seq<T>)
    ensures multiset(Reverse(s)) == multiset(s)
  {
    if s != [] {
      ReverseMultiset(s[1..]);
      assert s == [s[0]] + s[1..];
    }
  }

  lemma {:induction false} FilterAppend<T>(s: seq<T>, t: seq<T>, keep: T -> bool)
    ensures Filter(s + t, keep) == Filter(s, keep) + Filter(t, keep)
  {
    if s == [] {
      assert s + t == t;
    } else {
      var head := if keep(s[0]) then [s[0]] else [];
      calc {
        Filter(s + t, keep);
        { assert (s + t)[0] == s[0] && (s + t)[1..] == s[1..] + t; }
        head + Filter(s[1..] + t, keep);
        { FilterAppend(s[1..], t, keep); }
        head + (Filter(s[1..], keep) + Filter(t, keep));
        (head + Filter(s[1..], keep)) + Filter(t, keep);
        Filter(s, keep) + Filter(t, keep);
      }
    }
  }

  lemma FilterSnoc<T>(s: seq<T>, x: T, keep: T -> bool)
    ensures Filter(s + [x], keep) == Filter(s, keep) + if keep(x) then [x] else []
  {
    FilterAppend(s, [x], keep);
  }

  lemma FilterHead<T>(s: seq<T>, p: nat, keep: T -> bool)
    requires p < |s|
    ensures Filter(s[p..], keep) == (if keep(s[p]) then [s[p]] else []) + Filter(s[p + 1..], keep)
  {
    assert s[p..][1..] == s[p + 1..];
  }

  lemma FilterCons<T>(x: T, s: seq<T>, keep: T -> bool)
    ensures Filter([x] + s, keep) == (if keep(x) then [x] else []) + Filter(s, keep)
  {
    assert ([x] + s)[1..] == s;
  }

  lemma FilterAround<T>(s: seq<T>, p: nat, t: seq<T>, keep: T -> bool)
    requires p < |s|
    ensures Filter(s[..p] + t + s[p + 1..], keep) == Filter(s[..p], keep) + Filter(t, keep) + Filter(s[p + 1..], keep)
  {
    FilterAppend(s[..p] + t, s[p + 1..], keep);
    FilterAppend(s[..p], t, keep);
  }

  /** The first hit is the first element that the filter keeps. */
  lemma FilterFirst<T>(s: seq<T>, hit: T -> bool)
    ensures First(s, hit) < |s| <==> Filter(s, hit) != []
    ensures First(s, hit) < |s| ==> Filter(s, hit)[0] == s[First(s, hit)]
    ensures Filter(s[..First(s, hit)], hit) == []
  {
    hide Filter, First;
    var p := First(s, hit);
    FilterNone(s[..p], hit);
    if p < |s| {
      FilterHead(s, p, hit);
      assert s == s[..p] + s[p..];
      FilterAppend(s[..p], s[p..], hit);
    } else {
      assert s[..p] == s;
    }
  }

  lemma {:induction false} FilterReverse<T>(s: seq<T>, keep: T -> bool)
    ensures Filter(Reverse(s), keep) == Reverse(Filter(s, keep))
  {
    if s != [] {
      FilterAppend(Reverse(s[1..]), [s[0]], keep);
      FilterReverse(s[1..], keep);
      ReverseAppend(Filter([s[0]], keep), Filter(s[1..], keep));
    }
  }

  /** What a filter lets through is exactly what was there and is kept. */
  lemma {:induction false} FilterIn<T>(s: seq<T>, keep: T -> bool, x: T)
    ensures x in Filter(s, keep) <==> x in s && keep(x)
  {
    if s != [] {
      FilterIn(s[1..], keep, x);
    }
  }

  /** Two filters that agree on the elements of `s` give the same result. */
  lemma {:induction false} FilterAgree<T>(s: seq<T>, p: T -> bool, q: T -> bool)
    requires forall x :: x in s ==> p(x) == q(x)
    ensures Filter(s, p) == Filter(s, q)
  {
    if s != [] {
      assert s[0] in s;
      assert forall x :: x in s[1..] ==> x in s;
      FilterAgree(s[1..], p, q);
    }
  }

  lemma {:induction false} FilterNone<T>(s: seq<T>, keep: T -> bool)
    requires forall x :: x in s ==> !keep(x)
    ensures Filter(s, keep) == []
  {
    if s != [] {
      assert s[0] in s;
      assert forall x :: x in s[1..] ==> x in s;
      FilterNone(s[1..], keep);
    }
  }

  lemma {:induction false} FilterAll<T>(s: seq<T>, keep: T -> bool)
    requires forall x :: x in s ==> keep(x)
    ensures Filter(s, keep) == s
  {
    if s != [] {
      assert s[0] in s;
      assert forall x :: x in s[1..] ==> x in s;
      FilterAll(s[1..], keep);
      assert s == [s[0]] + s[1..];
    }
  }

  /** Filtering twice, when the second filter only keeps what the first one keeps. */
  lemma {:induction false} FilterFilter<T>(s: seq<T>, p: T -> bool, q: T -> bool)
    requires forall x :: x in s && q(x) ==> p(x)
    ensures Filter(Filter(s, p), q) == Filter(s, q)
  {
    if s != [] {
      assert s[0] in s;
      assert forall x :: x in s[1..] ==> x in s;
      FilterFilter(s[1..], p, q);
      FilterAppend(Filter([s[0]], p), Filter(s[1..], p), q);
    }
  }

  /** The parts kept and dropped by a filter make up the whole. */
  lemma {:induction false} FilterSplit<T>(s: seq<T>, p: T -> bool, q: T -> bool)
    requires forall x :: x in s ==> p(x) == !q(x)
    ensures |Filter(s, p)| + |Filter(s, q)| == |s|
  {
    if s != [] {
      assert s[0] in s;
      assert forall x :: x in s[1..] ==> x in s;
      FilterSplit(s[1..], p, q);
    }
  }

  lemma {:induction false} FlattenAppend<T>(cs: seq<seq<T>>, ds: seq<seq<T>>)
    ensures Flatten(cs + ds) == Flatten(cs) + Flatten(ds)
  {
    if cs == [] {
      assert cs + ds == ds;
    } else {
      assert (cs + ds)[1..] == cs[1..] + ds;
      FlattenAppend(cs[1..], ds);
    }
  }

  /** Chain `b` singled out of the traversal. */
  lemma {:induction false} FlattenAt<T>(cs: seq<seq<T>>, b: nat)
    requires b < |cs|
    ensures Flatten(cs) == Flatten(cs[..b]) + cs[b] + Flatten(cs[b + 1..])
  {
    assert cs == cs[..b] + cs[b..];
    FlattenAppend(cs[..b], cs[b..]);
    assert cs[b..][1..] == cs[b + 1..];
  }

  lemma {:induction false} InFlatten<T>(cs: seq<seq<T>>, i: nat, k: nat)
    requires i < |cs| && k < |cs[i]|
    ensures cs[i][k] in Flatten(cs)
  {
    FlattenAt(cs, i);
  }

  lemma {:induction false} FlattenIn<T>(cs: seq<seq<T>>, x: T) returns (i: nat, k: nat)
    requires x in Flatten(cs)
    ensures i < |cs| && k < |cs[i]| && cs[i][k] == x
  {
    if x in cs[0] {
      i := 0;
      k :| k < |cs[0]| && cs[0][k] == x;
    } else {
      i, k := FlattenIn(cs[1..], x);
      i := i + 1;
    }
  }

  lemma {:induction false} FlattenEmpty<T>(cs: seq<seq<T>>)
    requires forall i :: 0 <= i < |cs| ==> cs[i] == []
    ensures Flatten(cs) == []
  {
    if cs != [] {
      FlattenEmpty(cs[1..]);
    }
  }

  /** Replacing chain `b` changes the contents by what chain `b` gained and lost. */
  lemma {:induction false} FlattenUpdate<T>(cs: seq<seq<T>>, b: nat, c: seq<T>)
    requires b < |cs|
    ensures multiset(Flatten(cs[b := c])) + multiset(cs[b]) == multiset(Flatten(cs)) + multiset(c)
    ensures |Flatten(cs[b := c])| + |cs[b]| == |Flatten(cs)| + |c|
  {
    var ds := cs[b := c];
    FlattenAt(cs, b);
    FlattenAt(ds, b);
    assert ds[..b] == cs[..b] && ds[b + 1..] == cs[b + 1..];
  }

  lemma Cancel<T>(a: multiset<T>, b: multiset<T>, c: multiset<T>)
    requires a + b == c + b
    ensures a == c
  {
    forall x
      ensures a[x] == c[x]
    {
      assert (a + b)[x] == (c + b)[x];
    }
  }

  function Map<T, U>(s: seq<T>, f: T -> U): (r: seq<U>)
    ensures |r| == |s|
  {
    seq(|s|, i requires 0 <= i < |s| => f(s[i]))
  }

  lemma MapAppend<T, U>(s: seq<T>, t: seq<T>, f: T -> U)
    ensures Map(s + t, f) == Map(s, f) + Map(t, f)
  {
  }

  lemma Without<T>(t: seq<T>, k: nat)
    requires k < |t|
    ensures multiset(t) == multiset(t[..k] + t[k + 1..]) + multiset{t[k]}
  {
    assert t == t[..k] + [t[k]] + t[k + 1..];
  }

  lemma MapWithout<T, U>(t: seq<T>, k: nat, f: T -> U)
    requires k < |t|
    ensures multiset(Map(t, f)) == multiset(Map(t[..k] + t[k + 1..], f)) + multiset{f(t[k])}
  {
    Without(Map(t, f), k);
    assert Map(t, f)[..k] + Map(t, f)[k + 1..] == Map(t[..k] + t[k + 1..], f);
  }

  /** The images of two permutations of each other are permutations of each other. */
  lemma {:induction false} MapPermuted<T, U>(s: seq<T>, t: seq<T>, f: T -> U)
    requires multiset(s) == multiset(t)
    ensures multiset(Map(s, f)) == multiset(Map(t, f))
    decreases |s|
  {
    assert |s| == |multiset(s)| == |multiset(t)| == |t|;
    if s != [] {
      hide Map;
      assert s[0] in multiset(t);
      var k :| 0 <= k < |t| && t[k] == s[0];
      var s', t' := s[..0] + s[1..], t[..k] + t[k + 1..];
      Without(s, 0);
      Without(t, k);
      Cancel(multiset(s'), multiset{s[0]}, multiset(t'));
      MapPermuted(s', t', f);
      MapWithout(s, 0, f);
      MapWithout(t, k, f);
    }
  }

  /** The image after an element joined. */
  lemma MapJoined<T, U>(s: seq<T>, t: seq<T>, x: T, f: T -> U)
    requires multiset(t) == multiset(s) + multiset{x}
    ensures multiset(Map(t, f)) == multiset(Map(s, f)) + multiset{f(x)}
  {
    assert multiset(s + [x]) == multiset(t);
    MapPermuted(t, s + [x], f);
    MapAppend(s, [x], f);
    assert Map([x], f) == [f(x)];
  }

  // ---------- Sequences without repetitions ----------

  ghost predicate AllDifferent<T>(s: seq<T>) {
    forall i, j :: 0 <= i < |s| && 0 <= j < |s| && s[i] == s[j] ==> i == j
  }

  function InsertAt<T>(s: seq<T>, i: nat, x: T): seq<T>
    requires i <= |s|
  {
    s[..i] + [x] + s[i..]
  }

  function DeleteAt<T>(s: seq<T>, k: nat): seq<T>
    requires k < |s|
  {
    s[..k] + s[k + 1..]
  }

  /** The element comes to stand at its place, with all others in their order around it. */
  lemma InsertedAt<T>(s: seq<T>, i: nat, x: T)
    requires i <= |s|
    ensures var t := InsertAt(s, i, x);
      && |t| == |s| + 1 && t[i] == x && DeleteAt(t, i) == s
      && (forall j :: 0 <= j < i ==> t[j] == s[j]) && forall j :: i <= j < |s| ==> t[j + 1] == s[j]
  {
  }

  lemma OtherPlaces<T>(s: seq<T>, i: nat)
    requires AllDifferent(s) && i < |s|
    ensures forall j :: 0 <= j < |s| && j != i ==> s[j] != s[i]
  {
  }

  lemma InsertDifferent<T>(s: seq<T>, i: nat, x: T)
    requires AllDifferent(s) && i <= |s| && x !in s
    ensures AllDifferent(InsertAt(s, i, x))
  {
    var t := InsertAt(s, i, x);
    forall j, k | 0 <= j < |t| && 0 <= k < |t| && t[j] == t[k]
      ensures j == k
    {
      assert j != i ==> t[j] == s[if j < i then j else j - 1];
      assert k != i ==> t[k] == s[if k < i then k else k - 1];
    }
  }

  lemma DeleteDifferent<T>(s: seq<T>, k: nat)
    requires AllDifferent(s) && k < |s|
    ensures AllDifferent(DeleteAt(s, k)) && s[k] !in DeleteAt(s, k)
  {
    var t := DeleteAt(s, k);
    assert forall j :: 0 <= j < |t| ==> t[j] == s[if j < k then j else j + 1];
  }
}
