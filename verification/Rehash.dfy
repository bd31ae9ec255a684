/** The two ways the table moves its entries into more buckets, as functions on chains. */
module Rehash {
  import opened Words
  import opened Sequences
  import opened Chains

  /** `indexFor`: the bucket that a hash selects in a table of `n` buckets. */
  function IndexFor(n: nat): U32 -> nat
    requires n > 0
  {
    (h: U32) => h % n
  }

  /** A choice of bucket that stays inside a table of `n` buckets. */
  ghost predicate Into(home: U32 -> nat, n: nat) {
    forall h: U32 :: home(h) < n
  }

  lemma IndexInto(n: nat)
    requires n > 0
    ensures Into(IndexFor(n), n)
  {
  }

  function AtHome(home: U32 -> nat, j: nat): Item -> bool {
    (x: Item) => home(x.hash) == j
  }

  function AwayFrom(home: U32 -> nat, j: nat): Item -> bool {
    (x: Item) => home(x.hash) != j
  }

  /** Every entry sits in the bucket its hash selects. */
  ghost predicate Bucketed(cs: Buckets, home: U32 -> nat) {
    forall i, k :: 0 <= i < |cs| && 0 <= k < |cs[i]| ==> home(cs[i][k].hash) == i
  }

  function Empties(n: nat): (cs: Buckets)
    ensures |cs| == n && forall i :: 0 <= i < n ==> cs[i] == []
  {
    seq(n, _ => [])
  }

  /** The old chains followed by empty ones, `n` in all. */
  function Lengthen(cs: Buckets, n: nat): (ds: Buckets)
    requires |cs| <= n
    ensures |ds| == n
    ensures forall i :: 0 <= i < n ==> ds[i] == if i < |cs| then cs[i] else []
  {
    seq(n, i requires 0 <= i < n => if i < |cs| then cs[i] else [])
  }

  // ---------- What the two plans amount to ----------

  /** Fresh table: each new chain is the old traversal, restricted to the chain and reversed. */
  function FreshRehash(cs: Buckets, n: nat, home: U32 -> nat): (ds: Buckets)
    ensures |ds| == n
  {
    seq(n, j requires 0 <= j < n => Reverse(Filter(Flatten(cs), AtHome(home, j))))
  }

  /** In place: a chain keeps its own entries in order, behind the reversed newcomers. */
  function InPlaceRehash(cs: Buckets, n: nat, home: U32 -> nat): (ds: Buckets)
    requires |cs| <= n
    ensures |ds| == n
  {
    seq(n, j requires 0 <= j < n =>
      Reverse(Newcomers(cs, home, j)) + if j < |cs| then Filter(cs[j], AtHome(home, j)) else [])
  }

  /** The entries of the other chains whose new home is `j`, in traversal order. */
  function Newcomers(cs: Buckets, home: U32 -> nat, j: nat): seq<Item>
  {
    Filter(Flatten(if j < |cs| then cs[j := []] else cs), AtHome(home, j))
  }

  // ---------- Plan A, step by step ----------

  /** Drain the old chains from bucket `i` on, pushing each head onto its new chain. */
  function Drain(home: U32 -> nat, src: Buckets, i: nat, dst: Buckets): (ds: Buckets)
    requires Into(home, |dst|)
    ensures |ds| == |dst|
    decreases |src| - i, if i < |src| then |src[i]| else 0
  {
    if i >= |src| then dst
    else if src[i] == [] then Drain(home, src, i + 1, dst)
    else Drain(home, Unlink(src, i, 0), i, Push(dst, home(src[i][0].hash), src[i][0]))
  }

  lemma DrainStep(home: U32 -> nat, src: Buckets, i: nat, dst: Buckets)
    requires Into(home, |dst|) && i < |src|
    ensures src[i] == [] ==> Drain(home, src, i, dst) == Drain(home, src, i + 1, dst)
    ensures src[i] != [] ==>
      Drain(home, src, i, dst) == Drain(home, Unlink(src, i, 0), i, Push(dst, home(src[i][0].hash), src[i][0]))
  {
  }

  lemma {:induction false} DrainAt(home: U32 -> nat, src: Buckets, i: nat, dst: Buckets, j: nat)
    requires Into(home, |dst|)
    requires j < |dst| && i <= |src|
    ensures Drain(home, src, i, dst)[j] == Reverse(Filter(Flatten(src[i..]), AtHome(home, j))) + dst[j]
    decreases |src| - i, if i < |src| then |src[i]| else 0
  {
    if i < |src| {
      hide Filter, Reverse, Flatten;
      FlattenFrom(src, i);
      if src[i] == [] {
        DrainAt(home, src, i + 1, dst, j);
      } else {
        var x, src' := src[i][0], Unlink(src, i, 0);
        DrainAt(home, src', i, Push(dst, home(x.hash), x), j);
        HeadReversed(x, Flatten(src'[i..]), home, j);
      }
    } else {
      assert src[i..] == [];
    }
  }

  lemma FlattenFrom(src: Buckets, i: nat)
    requires i < |src|
    ensures src[i] == [] ==> Flatten(src[i..]) == Flatten(src[i + 1..])
    ensures src[i] != [] ==> Flatten(src[i..]) == [src[i][0]] + Flatten(Unlink(src, i, 0)[i..])
  {
    assert src[i..][1..] == src[i + 1..];
    if src[i] != [] {
      var src' := Unlink(src, i, 0);
      assert src'[i..][1..] == src'[i + 1..] == src[i + 1..];
    }
  }

  lemma HeadReversed(x: Item, rest: seq<Item>, home: U32 -> nat, j: nat)
    ensures Reverse(Filter([x] + rest, AtHome(home, j))) ==
            Reverse(Filter(rest, AtHome(home, j))) + if home(x.hash) == j then [x] else []
  {
    hide Filter, Reverse;
    FilterCons(x, rest, AtHome(home, j));
    ReverseAppend(if home(x.hash) == j then [x] else [], Filter(rest, AtHome(home, j)));
    ReverseOne(x);
    NothingReversed<Item>();
  }

  lemma DrainIsFresh(home: U32 -> nat, cs: Buckets, n: nat)
    requires Into(home, n)
    ensures Drain(home, cs, 0, Empties(n)) == FreshRehash(cs, n, home)
  {
    assert cs[0..] == cs;
    forall j | 0 <= j < n
      ensures Drain(home, cs, 0, Empties(n))[j] == FreshRehash(cs, n, home)[j]
    {
      DrainAt(home, cs, 0, Empties(n), j);
    }
  }

  lemma {:induction false} DrainKeeps(home: U32 -> nat, src: Buckets, i: nat, dst: Buckets)
    requires Into(home, |dst|)
    requires i <= |src|
    requires Distinct(src) && Distinct(dst) && NodesOf(src) !! NodesOf(dst)
    requires forall k :: 0 <= k < i ==> src[k] == []
    ensures Distinct(Drain(home, src, i, dst))
    ensures multiset(Flatten(Drain(home, src, i, dst))) == multiset(Flatten(src)) + multiset(Flatten(dst))
    decreases |src| - i, if i < |src| then |src[i]| else 0
  {
    if i == |src| {
      FlattenEmpty(src);
    } else if src[i] == [] {
      DrainKeeps(home, src, i + 1, dst);
    } else {
      var x := src[i][0];
      var src', dst' := Unlink(src, i, 0), Push(dst, home(x.hash), x);
      UnlinkDistinct(src, i, 0);
      assert x.node in NodesOf(src);
      PushDistinct(dst, home(x.hash), x);
      DrainKeeps(home, src', i, dst');
      UnlinkContents(src, i, 0);
      PushContents(dst, home(x.hash), x);
    }
  }

  // ---------- Plan B, step by step ----------

  /**
   * Settle the old buckets `i ..< m`, having passed the first `p` entries of chain `i`. An entry
   * whose home is another bucket moves to the head of that bucket, visited or not.
   */
  function Settle(home: U32 -> nat, cs: Buckets, m: nat, i: nat, p: nat): (ds: Buckets)
    requires Into(home, |cs|)
    requires m <= |cs| && (i < m ==> p <= |cs[i]|)
    ensures |ds| == |cs|
    decreases m - i, if i < m then |cs[i]| - p else 0
  {
    if i >= m then cs
    else if p == |cs[i]| then Settle(home, cs, m, i + 1, 0)
    else if home(cs[i][p].hash) == i then Settle(home, cs, m, i, p + 1)
    else Settle(home, Push(Unlink(cs, i, p), home(cs[i][p].hash), cs[i][p]), m, i, p)
  }

  /** Entries still ahead of the settling loop that will be moved to bucket `j`. */
  function Movers(home: U32 -> nat, cs: Buckets, m: nat, i: nat, p: nat, j: nat): seq<Item>
    requires m <= |cs| && (i < m ==> p <= |cs[i]|)
  {
    if i >= m then [] else Leavers(home, cs[i][p..], i, j) + Later(home, cs, m, i + 1, j)
  }

  /** The entries of chain `i`, or of a part of it, that move to bucket `j`. */
  function Leavers(home: U32 -> nat, c: seq<Item>, i: nat, j: nat): seq<Item> {
    if i == j then [] else Filter(c, AtHome(home, j))
  }

  function Later(home: U32 -> nat, cs: Buckets, m: nat, i: nat, j: nat): seq<Item>
    requires m <= |cs|
    decreases m - i
  {
    if i >= m then [] else Leavers(home, cs[i], i, j) + Later(home, cs, m, i + 1, j)
  }

  /** What is in bucket `j` already and stays there. */
  function Stayers(home: U32 -> nat, cs: Buckets, m: nat, i: nat, p: nat, j: nat): seq<Item>
    requires m <= |cs| && (i < m ==> p <= |cs[i]|) && j < |cs|
  {
    if j < i || m <= j then cs[j]
    else if j == i then cs[i][..p] + Filter(cs[i][p..], AtHome(home, j))
    else Filter(cs[j], AtHome(home, j))
  }

  /** A push onto bucket `b` does not change what will be moved out of the buckets from `i` on. */
  lemma {:induction false} LaterAfterPush(home: U32 -> nat, cs: Buckets, ds: Buckets, m: nat, i: nat, b: nat, x: Item, j: nat)
    requires m <= |cs| == |ds| && b < |cs| && home(x.hash) == b
    requires forall k :: i <= k < m && k != b ==> ds[k] == cs[k]
    requires ds[b] == [x] + cs[b]
    ensures Later(home, ds, m, i, j) == Later(home, cs, m, i, j)
    decreases m - i
  {
    hide Leavers;
    if i < m {
      calc {
        Later(home, ds, m, i, j);
        Leavers(home, ds[i], i, j) + Later(home, ds, m, i + 1, j);
        { LaterAfterPush(home, cs, ds, m, i + 1, b, x, j); }
        Leavers(home, ds[i], i, j) + Later(home, cs, m, i + 1, j);
        { if i == b { LeaversAfterPush(home, cs[b], b, x, j); } }
        Leavers(home, cs[i], i, j) + Later(home, cs, m, i + 1, j);
        Later(home, cs, m, i, j);
      }
    }
  }

  /** An entry that is at home is no leaver. */
  lemma LeaversAfterPush(home: U32 -> nat, c: seq<Item>, b: nat, x: Item, j: nat)
    requires home(x.hash) == b
    ensures Leavers(home, [x] + c, b, j) == Leavers(home, c, b, j)
  {
    FilterCons(x, c, AtHome(home, j));
  }

  /** Bucket `j` as the loop will leave it, told from any point of the loop. */
  function Outlook(home: U32 -> nat, cs: Buckets, m: nat, i: nat, p: nat, j: nat): seq<Item>
    requires m <= |cs| && (i < m ==> p <= |cs[i]|) && j < |cs|
  {
    Reverse(Movers(home, cs, m, i, p, j)) + Stayers(home, cs, m, i, p, j)
  }

  lemma {:induction false} SettleAt(home: U32 -> nat, cs: Buckets, m: nat, i: nat, p: nat, j: nat)
    requires Into(home, |cs|)
    requires m <= |cs| && (i < m ==> p <= |cs[i]|) && j < |cs|
    ensures Settle(home, cs, m, i, p)[j] == Outlook(home, cs, m, i, p, j)
    decreases m - i, if i < m then |cs[i]| - p else 0
  {
    if i >= m {
      assert Reverse(Movers(home, cs, m, i, p, j)) == [];
    } else if p == |cs[i]| {
      SettleAt(home, cs, m, i + 1, 0, j);
      SettleTurn(home, cs, m, i, p, j);
    } else if home(cs[i][p].hash) == i {
      SettleAt(home, cs, m, i, p + 1, j);
      SettlePass(home, cs, m, i, p, j);
    } else {
      var ds := Push(Unlink(cs, i, p), home(cs[i][p].hash), cs[i][p]);
      SettleAt(home, ds, m, i, p, j);
      SettleMove(home, cs, ds, m, i, p, j);
      assert Settle(home, cs, m, i, p) == Settle(home, ds, m, i, p);
    }
  }

  /** Going on to the next bucket. */
  lemma SettleTurn(home: U32 -> nat, cs: Buckets, m: nat, i: nat, p: nat, j: nat)
    requires i < m <= |cs| && j < |cs| && p == |cs[i]|
    ensures Outlook(home, cs, m, i, p, j) == Outlook(home, cs, m, i + 1, 0, j)
  {
    var c := cs[j];
    TurnMovers(home, cs, m, i, p, j);
    assert Stayers(home, cs, m, i, p, j) == Stayers(home, cs, m, i + 1, 0, j) by {
      if j == i {
        assert c[..p] + [] == c;
      } else if j == i + 1 {
        assert c[0..] == c;
        assert c[..0] + Filter(c, AtHome(home, j)) == Filter(c, AtHome(home, j));
      }
    }
  }

  lemma TurnMovers(home: U32 -> nat, cs: Buckets, m: nat, i: nat, p: nat, j: nat)
    requires i < m <= |cs| && p == |cs[i]|
    ensures Movers(home, cs, m, i, p, j) == Movers(home, cs, m, i + 1, 0, j)
  {
    assert cs[i][p..] == [];
    assert Movers(home, cs, m, i, p, j) == Later(home, cs, m, i + 1, j);
    if i + 1 < m {
      assert cs[i + 1][0..] == cs[i + 1];
    }
  }

  /** Passing an entry that is at home. */
  lemma SettlePass(home: U32 -> nat, cs: Buckets, m: nat, i: nat, p: nat, j: nat)
    requires i < m <= |cs| && p < |cs[i]| && j < |cs| && home(cs[i][p].hash) == i
    ensures Outlook(home, cs, m, i, p, j) == Outlook(home, cs, m, i, p + 1, j)
  {
    var c := cs[i];
    var own := Filter(c[p + 1..], AtHome(home, j));
    PassMovers(home, cs, m, i, p, j);
    if j == i {
      FilterHead(c, p, AtHome(home, j));
      assert c[..p] + ([c[p]] + own) == (c[..p] + [c[p]]) + own;
      assert c[..p + 1] == c[..p] + [c[p]];
    }
  }

  lemma PassMovers(home: U32 -> nat, cs: Buckets, m: nat, i: nat, p: nat, j: nat)
    requires i < m <= |cs| && p < |cs[i]| && home(cs[i][p].hash) == i
    ensures Movers(home, cs, m, i, p, j) == Movers(home, cs, m, i, p + 1, j)
  {
    assert cs[i][p..] == [cs[i][p]] + cs[i][p + 1..];
    LeaversAfterPush(home, cs[i][p + 1..], i, cs[i][p], j);
  }

  /** Moving an entry that is not. */
  lemma SettleMove(home: U32 -> nat, cs: Buckets, ds: Buckets, m: nat, i: nat, p: nat, j: nat)
    requires Into(home, |cs|)
    requires i < m <= |cs| && j < |cs| && Moved(home, cs, ds, i, p)
    ensures |ds| == |cs| && p <= |ds[i]|
    ensures Outlook(home, ds, m, i, p, j) == Outlook(home, cs, m, i, p, j)
  {
    var x := cs[i][p];
    var b := home(x.hash);
    MovedChains(home, cs, ds, i, p);
    var head := if j == b then [x] else [];
    MoveMovers(home, cs, ds, m, i, p, j);
    MoveStayers(home, cs, ds, m, i, p, j);
    var movers, stayers := Movers(home, ds, m, i, p, j), Stayers(home, cs, m, i, p, j);
    calc {
      Outlook(home, ds, m, i, p, j);
      Reverse(movers) + (head + stayers);
      (Reverse(movers) + head) + stayers;
      { ReverseAppend(head, movers); }
      Reverse(head + movers) + stayers;
      Outlook(home, cs, m, i, p, j);
    }
  }

  /** `ds` is `cs` after entry `p` of chain `i` moved to the head of its home. */
  ghost predicate Moved(home: U32 -> nat, cs: Buckets, ds: Buckets, i: nat, p: nat)
    requires Into(home, |cs|)
  {
    && i < |cs| && p < |cs[i]| && home(cs[i][p].hash) != i
    && ds == Push(Unlink(cs, i, p), home(cs[i][p].hash), cs[i][p])
  }

  lemma MovedChains(home: U32 -> nat, cs: Buckets, ds: Buckets, i: nat, p: nat)
    requires Into(home, |cs|)
    requires Moved(home, cs, ds, i, p)
    ensures var b := home(cs[i][p].hash);
      && |ds| == |cs| && b != i && ds[b] == [cs[i][p]] + cs[b]
      && p <= |ds[i]| && ds[i][p..] == cs[i][p + 1..] && ds[i][..p] == cs[i][..p]
      && forall k :: 0 <= k < |cs| && k != i && k != b ==> ds[k] == cs[k]
  {
    assert ds[i] == cs[i][..p] + cs[i][p + 1..];
  }

  lemma LeaversHead(home: U32 -> nat, x: Item, rest: seq<Item>, i: nat, j: nat)
    requires home(x.hash) != i
    ensures Leavers(home, [x] + rest, i, j) == (if j == home(x.hash) then [x] else []) + Leavers(home, rest, i, j)
  {
    hide Filter;
    FilterCons(x, rest, AtHome(home, j));
  }

  lemma MoveMovers(home: U32 -> nat, cs: Buckets, ds: Buckets, m: nat, i: nat, p: nat, j: nat)
    requires Into(home, |cs|)
    requires i < m <= |cs| && j < |cs| && Moved(home, cs, ds, i, p)
    ensures |ds| == |cs| && p <= |ds[i]|
    ensures Movers(home, cs, m, i, p, j) ==
            (if j == home(cs[i][p].hash) then [cs[i][p]] else []) + Movers(home, ds, m, i, p, j)
  {
    hide Filter, Leavers, Later;
    var x, rest := cs[i][p], cs[i][p + 1..];
    var b := home(x.hash);
    MovedChains(home, cs, ds, i, p);
    var head := if j == b then [x] else [];
    var later := Later(home, cs, m, i + 1, j);
    calc {
      Movers(home, cs, m, i, p, j);
      { assert cs[i][p..] == [x] + rest; }
      Leavers(home, [x] + rest, i, j) + later;
      { LeaversHead(home, x, rest, i, j); }
      (head + Leavers(home, rest, i, j)) + later;
      head + (Leavers(home, rest, i, j) + later);
      { LaterAfterPush(home, cs, ds, m, i + 1, b, x, j); }
      head + Movers(home, ds, m, i, p, j);
    }
  }

  lemma MoveStayers(home: U32 -> nat, cs: Buckets, ds: Buckets, m: nat, i: nat, p: nat, j: nat)
    requires Into(home, |cs|)
    requires i < m <= |cs| && j < |cs| && Moved(home, cs, ds, i, p)
    ensures |ds| == |cs| && p <= |ds[i]|
    ensures Stayers(home, ds, m, i, p, j) ==
            (if j == home(cs[i][p].hash) then [cs[i][p]] else []) + Stayers(home, cs, m, i, p, j)
  {
    var x := cs[i][p];
    MovedChains(home, cs, ds, i, p);
    FilterHead(cs[i], p, AtHome(home, j));
    if j == home(x.hash) {
      FilterCons(x, cs[j], AtHome(home, j));
    }
  }

  lemma {:induction false} LaterAreNewcomers(home: U32 -> nat, cs: Buckets, ds: Buckets, i: nat, j: nat)
    requires |cs| <= |ds| && forall k :: 0 <= k < |cs| ==> ds[k] == cs[k]
    requires i <= |cs|
    ensures Later(home, ds, |cs|, i, j) ==
            Filter(Flatten((if j < |cs| then cs[j := []] else cs)[i..]), AtHome(home, j))
    decreases |cs| - i
  {
    if i < |cs| {
      LaterAreNewcomers(home, cs, ds, i + 1, j);
      var others := if j < |cs| then cs[j := []] else cs;
      assert others[i..][1..] == others[i + 1..];
      FilterAppend(others[i], Flatten(others[i + 1..]), AtHome(home, j));
    }
  }

  lemma SettleIsInPlace(home: U32 -> nat, cs: Buckets, ds: Buckets)
    requires Into(home, |ds|)
    requires 0 < |cs| <= |ds| && ds == Lengthen(cs, |ds|)
    ensures Settle(home, ds, |cs|, 0, 0) == InPlaceRehash(cs, |ds|, home)
  {
    SettleOutlooks(home, ds, |cs|);
    OutlooksAreInPlace(home, cs, ds, Settle(home, ds, |cs|, 0, 0));
  }

  lemma SettleOutlooks(home: U32 -> nat, ds: Buckets, m: nat)
    requires Into(home, |ds|)
    requires 0 < m <= |ds|
    ensures forall j :: 0 <= j < |ds| ==> Settle(home, ds, m, 0, 0)[j] == Outlook(home, ds, m, 0, 0, j)
  {
    forall j | 0 <= j < |ds|
      ensures Settle(home, ds, m, 0, 0)[j] == Outlook(home, ds, m, 0, 0, j)
    {
      SettleAt(home, ds, m, 0, 0, j);
    }
  }

  lemma OutlooksAreInPlace(home: U32 -> nat, cs: Buckets, ds: Buckets, result: Buckets)
    requires 0 < |cs| <= |ds| == |result| && ds == Lengthen(cs, |ds|)
    requires forall j :: 0 <= j < |ds| ==> result[j] == Outlook(home, ds, |cs|, 0, 0, j)
    ensures result == InPlaceRehash(cs, |ds|, home)
  {
    var expected := InPlaceRehash(cs, |ds|, home);
    forall j | 0 <= j < |ds|
      ensures result[j] == expected[j]
    {
      InPlaceOutlook(home, cs, ds, j);
    }
  }

  lemma InPlaceOutlook(home: U32 -> nat, cs: Buckets, ds: Buckets, j: nat)
    requires 0 < |cs| <= |ds| && j < |ds| && ds == Lengthen(cs, |ds|)
    ensures Outlook(home, ds, |cs|, 0, 0, j) == InPlaceRehash(cs, |ds|, home)[j]
  {
    assert Movers(home, ds, |cs|, 0, 0, j) == Newcomers(cs, home, j) by {
      LaterAreNewcomers(home, cs, ds, 0, j);
      var others := if j < |cs| then cs[j := []] else cs;
      assert others[0..] == others && ds[0][0..] == ds[0];
    }
    assert Stayers(home, ds, |cs|, 0, 0, j) == if j < |cs| then Filter(cs[j], AtHome(home, j)) else [] by {
      if j == 0 {
        assert ds[0][0..] == ds[0] && ds[0][..0] == [];
      }
    }
  }

  lemma {:induction false} SettleKeeps(home: U32 -> nat, cs: Buckets, m: nat, i: nat, p: nat)
    requires Into(home, |cs|)
    requires m <= |cs| && (i < m ==> p <= |cs[i]|) && Distinct(cs)
    ensures Distinct(Settle(home, cs, m, i, p))
    ensures multiset(Flatten(Settle(home, cs, m, i, p))) == multiset(Flatten(cs))
    decreases m - i, if i < m then |cs[i]| - p else 0
  {
    if i < m {
      if p == |cs[i]| {
        SettleKeeps(home, cs, m, i + 1, 0);
      } else if home(cs[i][p].hash) == i {
        SettleKeeps(home, cs, m, i, p + 1);
      } else {
        UnlinkDistinct(cs, i, p);
        PushDistinct(Unlink(cs, i, p), home(cs[i][p].hash), cs[i][p]);
        MoveKeeps(cs, i, p, home(cs[i][p].hash));
        SettleKeeps(home, Push(Unlink(cs, i, p), home(cs[i][p].hash), cs[i][p]), m, i, p);
      }
    }
  }

  /** How many entries the settling loop still has to move. */
  function Misplaced(home: U32 -> nat, cs: Buckets, m: nat, i: nat, p: nat): nat
    requires m <= |cs| && (i < m ==> p <= |cs[i]|)
  {
    if i >= m then 0 else |Filter(cs[i][p..], AwayFrom(home, i))| + MisplacedLater(home, cs, m, i + 1)
  }

  function MisplacedLater(home: U32 -> nat, cs: Buckets, m: nat, i: nat): nat
    requires m <= |cs|
    decreases m - i
  {
    if i >= m then 0 else |Filter(cs[i], AwayFrom(home, i))| + MisplacedLater(home, cs, m, i + 1)
  }

  lemma {:induction false} MisplacedAfterPush(home: U32 -> nat, cs: Buckets, ds: Buckets, m: nat, i: nat, b: nat, x: Item)
    requires m <= |cs| == |ds| && b < |cs| && home(x.hash) == b
    requires forall k :: i <= k < m && k != b ==> ds[k] == cs[k]
    requires ds[b] == [x] + cs[b]
    ensures MisplacedLater(home, ds, m, i) == MisplacedLater(home, cs, m, i)
    decreases m - i
  {
    if i < m {
      MisplacedAfterPush(home, cs, ds, m, i + 1, b, x);
      if i == b {
        FilterCons(x, cs[b], AwayFrom(home, b));
      }
    }
  }

  /** Each move takes one entry off the list of those to be moved: none is moved twice. */
  lemma MoveSettlesOne(home: U32 -> nat, cs: Buckets, m: nat, i: nat, p: nat)
    requires Into(home, |cs|)
    requires i < m <= |cs| && p < |cs[i]| && home(cs[i][p].hash) != i
    ensures Misplaced(home, cs, m, i, p) ==
            1 + Misplaced(home, Push(Unlink(cs, i, p), home(cs[i][p].hash), cs[i][p]), m, i, p)
  {
    var x := cs[i][p];
    var ds := Push(Unlink(cs, i, p), home(x.hash), x);
    MovedChains(home, cs, ds, i, p);
    FilterHead(cs[i], p, AwayFrom(home, i));
    MisplacedAfterPush(home, cs, ds, m, i + 1, home(x.hash), x);
  }

  lemma {:induction false} MisplacedBound(home: U32 -> nat, cs: Buckets, m: nat, i: nat)
    requires i <= m <= |cs|
    ensures MisplacedLater(home, cs, m, i) <= |Flatten(cs[i..])|
    decreases m - i
  {
    if i < m {
      MisplacedBound(home, cs, m, i + 1);
      assert cs[i..][1..] == cs[i + 1..];
    }
  }

  /** The settling loop at an entry that stays, and at the end of a chain. */
  lemma SettleStep(home: U32 -> nat, cs: Buckets, m: nat, i: nat, p: nat)
    requires Into(home, |cs|)
    requires i < m <= |cs| && p <= |cs[i]|
    ensures p == |cs[i]| ==>
      && Settle(home, cs, m, i, p) == Settle(home, cs, m, i + 1, 0)
      && Misplaced(home, cs, m, i, p) == Misplaced(home, cs, m, i + 1, 0)
    ensures p < |cs[i]| && home(cs[i][p].hash) == i ==>
      && Settle(home, cs, m, i, p) == Settle(home, cs, m, i, p + 1)
      && Misplaced(home, cs, m, i, p) == Misplaced(home, cs, m, i, p + 1)
  {
    if p < |cs[i]| {
      FilterHead(cs[i], p, AwayFrom(home, i));
    } else if i + 1 < m {
      assert cs[i + 1][0..] == cs[i + 1];
    }
  }
}
