/** The circular doubly linked lists of `pet_list.h`, as rings of nodes that start at the list head. */
module Rings {
  import opened Sequences

  /** `struct list_head`. Null stands for the poison values of a deleted entry. */
  class ListHead {
    var next: ListHead?
    var prev: ListHead?

    /** `INIT_LIST_HEAD` on new memory. */
    constructor ()
      ensures IsRing([this])
    {
      next, prev := this, this;
    }
  }

  function After(r: seq<ListHead>, i: nat): nat { if i + 1 < |r| then i + 1 else 0 }

  function Before(r: seq<ListHead>, i: nat): int { if i == 0 then |r| - 1 else i - 1 }

  /** Following `next` from `r[0]` goes through `r` and back to the start; `prev` goes the other way. */
  ghost predicate IsRing(r: seq<ListHead>)
    reads r
  {
    && r != [] && AllDifferent(r)
    && (forall i {:trigger r[i].next} :: 0 <= i < |r| ==> r[i].next == r[After(r, i)])
    && (forall i {:trigger r[i].prev} :: 0 <= i < |r| ==> r[i].prev == r[Before(r, i)])
  }

  ghost predicate Apart(r: seq<ListHead>, t: seq<ListHead>) {
    forall n :: n in r ==> n !in t
  }

  /** In a ring every node is its successor's predecessor and its predecessor's successor. */
  lemma NeighboursAgree(r: seq<ListHead>, i: nat)
    requires IsRing(r) && i < |r|
    ensures r[i].next == r[After(r, i)] && r[i].next in r && r[i].next.prev == r[i]
    ensures r[i].prev == r[Before(r, i)] && r[i].prev in r && r[i].prev.next == r[i]
  {
  }

  /** A ring none of whose nodes changed is still one. */
  twostate lemma Untouched(r: seq<ListHead>)
    requires old(IsRing(r)) && forall i :: 0 <= i < |r| ==> unchanged(r[i])
    ensures IsRing(r)
  {
    forall i | 0 <= i < |r|
      ensures r[i].next == r[After(r, i)] && r[i].prev == r[Before(r, i)]
    {
      assert old(r[i].next) == r[After(r, i)] && old(r[i].prev) == r[Before(r, i)];
    }
  }

  // ---------- The operations ----------

  /** `INIT_LIST_HEAD`. */
  method Init(list: ListHead)
    modifies list
    ensures IsRing([list])
  {
    list.next := list;
    list.prev := list;
  }

  /** `__list_add` between places `i - 1` and `i` of a ring. */
  method AddBetween(newNode: ListHead, prev: ListHead, next: ListHead, ghost r: seq<ListHead>, ghost i: nat)
    requires IsRing(r) && newNode !in r && 0 < i <= |r|
    requires prev == r[i - 1] && next == r[After(r, i - 1)]
    modifies newNode, prev`next, next`prev
    ensures IsRing(InsertAt(r, i, newNode))
  {
    ghost var t := InsertAt(r, i, newNode);
    InsertDifferent(r, i, newNode);
    OtherPlaces(r, i - 1);
    OtherPlaces(r, After(r, i - 1));
    hide AllDifferent;
    next.prev := newNode;
    newNode.next := next;
    newNode.prev := prev;
    prev.next := newNode;
    forall k | 0 <= k < |t|
      ensures t[k].next == t[After(t, k)] && t[k].prev == t[Before(t, k)]
    {
      if k != i {
        var j := if k < i then k else k - 1;
        assert t[k] == r[j];
        assert old(r[j].next) == r[After(r, j)] && old(r[j].prev) == r[Before(r, j)];
      }
    }
  }

  /** `list_add`. */
  method ListAdd(newNode: ListHead, head: ListHead, ghost r: seq<ListHead>)
    requires IsRing(r) && head == r[0] && newNode !in r
    modifies newNode, head`next, head.next`prev
    ensures IsRing(InsertAt(r, 1, newNode))
  {
    NeighboursAgree(r, 0);
    AddBetween(newNode, head, head.next, r, 1);
  }

  /** `list_add_tail`. */
  method ListAddTail(newNode: ListHead, head: ListHead, ghost r: seq<ListHead>)
    requires IsRing(r) && head == r[0] && newNode !in r
    modifies newNode, head`prev, head.prev`next
    ensures IsRing(r + [newNode])
  {
    NeighboursAgree(r, 0);
    AddBetween(newNode, head.prev, head, r, |r|);
    assert InsertAt(r, |r|, newNode) == r + [newNode];
  }

  /** Entry `i` of the shorter ring and its neighbours, in the longer one. */
  lemma DeletedAt(r: seq<ListHead>, k: nat, i: nat)
    requires k < |r| && i < |DeleteAt(r, k)|
    ensures var t, j := DeleteAt(r, k), if i < k then i else i + 1;
      && t[i] == r[j] && j != k
      && t[After(t, i)] == r[if After(r, j) == k then After(r, k) else After(r, j)]
      && t[Before(t, i)] == r[if Before(r, j) == k then Before(r, k) else Before(r, j)]
  {
  }

  /** `__list_del`: the neighbours of place `k` come to point at each other. A node that is alone stays so. */
  method Unlink(prev: ListHead, next: ListHead, ghost r: seq<ListHead>, ghost k: nat)
    requires IsRing(r) && k < |r| && prev == r[Before(r, k)] && next == r[After(r, k)]
    modifies prev`next, next`prev
    ensures r[k] !in DeleteAt(r, k) && if |r| > 1 then IsRing(DeleteAt(r, k)) else IsRing(r)
  {
    ghost var t := DeleteAt(r, k);
    DeleteDifferent(r, k);
    OtherPlaces(r, Before(r, k));
    OtherPlaces(r, After(r, k));
    hide AllDifferent, DeleteAt;
    next.prev := prev;
    prev.next := next;
    forall i | 0 <= i < |t|
      ensures t[i].next == t[After(t, i)] && t[i].prev == t[Before(t, i)]
    {
      DeletedAt(r, k, i);
      var j := if i < k then i else i + 1;
      assert old(r[j].next) == r[After(r, j)] && old(r[j].prev) == r[Before(r, j)];
    }
  }

  /** `list_del`. */
  method ListDel(entry: ListHead, ghost r: seq<ListHead>, ghost k: nat)
    requires IsRing(r) && k < |r| && entry == r[k]
    modifies entry, entry.prev`next, entry.next`prev
    ensures |r| > 1 ==> IsRing(DeleteAt(r, k))
    ensures entry.next == null && entry.prev == null
  {
    NeighboursAgree(r, k);
    Unlink(entry.prev, entry.next, r, k);
    entry.next := null;
    entry.prev := null;
  }

  /** `list_del_init`, also of an entry that is in no list. */
  method ListDelInit(entry: ListHead, ghost r: seq<ListHead>, ghost k: nat)
    requires IsRing(r) && k < |r| && entry == r[k]
    modifies entry, entry.prev`next, entry.next`prev
    ensures |r| > 1 ==> IsRing(DeleteAt(r, k))
    ensures IsRing([entry])
  {
    NeighboursAgree(r, k);
    Unlink(entry.prev, entry.next, r, k);
    hide IsRing, DeleteAt, AllDifferent;
    label Out:
    Init(entry);
    if |r| > 1 {
      assert forall i :: 0 <= i < |DeleteAt(r, k)| ==> DeleteAt(r, k)[i] in DeleteAt(r, k);
      Untouched@Out(DeleteAt(r, k));
    }
  }

  /** The ring that receives an entry moved out of `r`: `r` without it, or another ring. */
  function Receiver(r: seq<ListHead>, k: nat, t: seq<ListHead>): seq<ListHead>
    requires k < |r|
  {
    if r == t then DeleteAt(r, k) else t
  }

  /** The first half of a move: the entry is out, and the receiving ring is a ring without it. */
  method TakeOut(list: ListHead, ghost r: seq<ListHead>, ghost k: nat, ghost t: seq<ListHead>)
    requires IsRing(r) && k < |r| && list == r[k]
    requires IsRing(t) && (if r == t then k > 0 else Apart(r, t))
    modifies list.prev`next, list.next`prev
    ensures |r| > 1 ==> IsRing(DeleteAt(r, k))
    ensures IsRing(Receiver(r, k, t)) && list !in Receiver(r, k, t)
    ensures Receiver(r, k, t)[0] == t[0] && forall n :: n in Receiver(r, k, t) ==> n in t
    ensures r != t ==> Apart(DeleteAt(r, k), t) && list !in DeleteAt(r, k)
  {
    NeighboursAgree(r, k);
    Unlink(list.prev, list.next, r, k);
  }

  /**
   * `list_move`, within one ring (whatever the place of the entry) or from one to another. The entry
   * may be alone, that is in no list, but it is not the head itself.
   */
  method ListMove(list: ListHead, head: ListHead, ghost r: seq<ListHead>, ghost k: nat, ghost t: seq<ListHead>)
    requires IsRing(r) && k < |r| && list == r[k]
    requires IsRing(t) && head == t[0] && (if r == t then k > 0 else Apart(r, t))
    modifies r, t
    ensures IsRing(InsertAt(Receiver(r, k, t), 1, list))
    ensures r != t && |r| > 1 ==> IsRing(DeleteAt(r, k))
  {
    hide DeleteAt, InsertAt, AllDifferent, IsRing, Receiver;
    NeighboursAgree(r, k);
    TakeOut(list, r, k, t);
    NeighboursAgree(Receiver(r, k, t), 0);
    assert head in t && head.next in t;
    label Out:
    ListAdd(list, head, Receiver(r, k, t));
    if r != t && |r| > 1 {
      assert forall i :: 0 <= i < |DeleteAt(r, k)| ==> DeleteAt(r, k)[i] in DeleteAt(r, k);
      Untouched@Out(DeleteAt(r, k));
    }
  }

  /** `list_move_tail`. */
  method ListMoveTail(list: ListHead, head: ListHead, ghost r: seq<ListHead>, ghost k: nat, ghost t: seq<ListHead>)
    requires IsRing(r) && k < |r| && list == r[k]
    requires IsRing(t) && head == t[0] && (if r == t then k > 0 else Apart(r, t))
    modifies r, t
    ensures IsRing(Receiver(r, k, t) + [list])
    ensures r != t && |r| > 1 ==> IsRing(DeleteAt(r, k))
  {
    hide DeleteAt, InsertAt, AllDifferent, IsRing, Receiver;
    NeighboursAgree(r, k);
    TakeOut(list, r, k, t);
    NeighboursAgree(Receiver(r, k, t), 0);
    assert head in t && head.prev in t;
    label Out:
    ListAddTail(list, head, Receiver(r, k, t));
    if r != t && |r| > 1 {
      assert forall i :: 0 <= i < |DeleteAt(r, k)| ==> DeleteAt(r, k)[i] in DeleteAt(r, k);
      Untouched@Out(DeleteAt(r, k));
    }
  }

  /** `list_empty`. */
  method ListEmpty(head: ListHead, ghost r: seq<ListHead>) returns (empty: bool)
    requires IsRing(r) && head == r[0]
    ensures empty <==> r == [head]
  {
    NeighboursAgree(r, 0);
    empty := head.next == head;
  }

  /** Deleting what was added gives the ring back. */
  method AddThenDelete(newNode: ListHead, head: ListHead, ghost r: seq<ListHead>)
    requires IsRing(r) && head == r[0] && newNode !in r
    modifies newNode, head`next, head.next`prev
    ensures IsRing(r) && newNode.next == null && newNode.prev == null
  {
    NeighboursAgree(r, 0);
    ListAdd(newNode, head, r);
    NeighboursAgree(InsertAt(r, 1, newNode), 1);
    ListDel(newNode, InsertAt(r, 1, newNode), 1);
    assert DeleteAt(InsertAt(r, 1, newNode), 1) == r;
  }

  /** What splicing ring `s` into ring `t` after its head gives. */
  function Spliced(s: seq<ListHead>, t: seq<ListHead>): seq<ListHead>
    requires s != [] && t != []
  {
    [t[0]] + s[1..] + t[1..]
  }

  lemma SplicedAt(s: seq<ListHead>, t: seq<ListHead>, k: nat)
    requires s != [] && t != [] && k < |s| + |t| - 1
    ensures |Spliced(s, t)| == |s| + |t| - 1
    ensures Spliced(s, t)[k] == if k == 0 then t[0] else if k < |s| then s[k] else t[k - |s| + 1]
  {
  }

  lemma SplicedDifferent(s: seq<ListHead>, t: seq<ListHead>)
    requires s != [] && t != [] && AllDifferent(s) && AllDifferent(t) && Apart(s, t)
    ensures AllDifferent(Spliced(s, t))
  {
    var r := Spliced(s, t);
    forall j, k | 0 <= j < |r| && 0 <= k < |r| && r[j] == r[k]
      ensures j == k
    {
      SplicedAt(s, t, j);
      SplicedAt(s, t, k);
      assert 0 < j < |s| ==> s[j] in s && r[j] !in t;
      assert 0 < k < |s| ==> s[k] in s && r[k] !in t;
    }
  }

  /** `__list_splice` of a list that is not empty. */
  method Splice(list: ListHead, head: ListHead, ghost s: seq<ListHead>, ghost t: seq<ListHead>)
    requires IsRing(s) && |s| > 1 && list == s[0] && IsRing(t) && head == t[0] && Apart(s, t)
    modifies list.next`prev, list.prev`next, head`next, head.next`prev
    ensures IsRing(Spliced(s, t))
  {
    ghost var r := Spliced(s, t);
    SplicedDifferent(s, t);
    NeighboursAgree(s, 0);
    NeighboursAgree(t, 0);
    OtherPlaces(s, 1);
    OtherPlaces(s, |s| - 1);
    OtherPlaces(t, 0);
    OtherPlaces(t, After(t, 0));
    hide AllDifferent;
    var first, last, at := list.next, list.prev, head.next;
    first.prev := head;
    head.next := first;
    last.next := at;
    at.prev := last;
    forall k | 0 <= k < |r|
      ensures r[k].next == r[After(r, k)] && r[k].prev == r[Before(r, k)]
    {
      SplicedAt(s, t, k);
      SplicedAt(s, t, After(r, k));
      SplicedAt(s, t, Before(r, k));
      if 0 < k < |s| {
        assert old(s[k].next) == s[After(s, k)] && old(s[k].prev) == s[Before(s, k)];
      } else {
        var j := if k == 0 then 0 else k - |s| + 1;
        assert old(t[j].next) == t[After(t, j)] && old(t[j].prev) == t[Before(t, j)];
      }
    }
  }

  /** `list_splice`: the contents of `list` go in front of those of `head`. */
  method ListSplice(list: ListHead, head: ListHead, ghost s: seq<ListHead>, ghost t: seq<ListHead>)
    requires IsRing(s) && list == s[0] && IsRing(t) && head == t[0] && Apart(s, t)
    modifies s, t
    ensures IsRing(Spliced(s, t))
  {
    NeighboursAgree(s, 0);
    NeighboursAgree(t, 0);
    var empty := ListEmpty(list, s);
    if !empty {
      Splice(list, head, s, t);
    } else {
      assert Spliced(s, t) == t;
    }
  }

  /** `list_splice_init`. */
  method ListSpliceInit(list: ListHead, head: ListHead, ghost s: seq<ListHead>, ghost t: seq<ListHead>)
    requires IsRing(s) && list == s[0] && IsRing(t) && head == t[0] && Apart(s, t)
    modifies s, t
    ensures IsRing(Spliced(s, t)) && IsRing([list])
  {
    NeighboursAgree(s, 0);
    NeighboursAgree(t, 0);
    var empty := ListEmpty(list, s);
    if !empty {
      Splice(list, head, s, t);
      ghost var r := Spliced(s, t);
      assert list !in r by {
        forall k | 0 <= k < |r|
          ensures r[k] != list
        {
          SplicedAt(s, t, k);
        }
      }
      Init(list);
    } else {
      assert Spliced(s, t) == t && s == [list];
    }
  }

  // ---------- Iteration that survives deletion ----------

  function Spared(doomed: ListHead -> bool): ListHead -> bool {
    (n: ListHead) => !doomed(n)
  }

  /** The ring during the loop: the head, the entries kept so far, and the entries still ahead. */
  function Halfway(r: seq<ListHead>, kept: seq<ListHead>, k: nat): seq<ListHead>
    requires 0 < k <= |r|
  {
    [r[0]] + kept + r[k..]
  }

  /** The loop at entry `k`: its place in the ring, the entry after it, and the ring after either branch. */
  lemma HalfwayStep(r: seq<ListHead>, kept: seq<ListHead>, k: nat)
    requires 0 < k < |r|
    ensures var ring, p := Halfway(r, kept, k), |kept| + 1;
      && 0 < p < |ring| && ring[p] == r[k]
      && ring[After(ring, p)] == (if k + 1 < |r| then r[k + 1] else r[0])
      && DeleteAt(ring, p) == Halfway(r, kept, k + 1)
      && ring == Halfway(r, kept + [r[k]], k + 1)
  {
  }

  lemma HalfwayInside(r: seq<ListHead>, kept: seq<ListHead>, k: nat)
    requires 0 < k <= |r| && forall m :: m in kept ==> m in r
    ensures forall m :: m in Halfway(r, kept, k) ==> m in r
  {
  }

  lemma TakeMore(r: seq<ListHead>, k: nat)
    requires 0 < k < |r|
    ensures r[1..k + 1] == r[1..k] + [r[k]]
  {
  }

  /** The body of the loop, at entry `k`; `n` was read before the entry may be deleted. */
  method VisitSafe(pos: ListHead, n: ListHead?, doomed: ListHead -> bool,
                   ghost r: seq<ListHead>, ghost kept: seq<ListHead>, ghost k: nat)
    returns (ghost kept2: seq<ListHead>)
    requires 0 < k < |r| && forall m :: m in kept ==> m in r
    requires IsRing(Halfway(r, kept, k)) && pos == r[k] && n == pos.next
    modifies r
    ensures kept2 == kept + if doomed(pos) then [] else [pos]
    ensures IsRing(Halfway(r, kept2, k + 1)) && n == if k + 1 < |r| then r[k + 1] else r[0]
  {
    hide Halfway, AllDifferent, IsRing, DeleteAt;
    ghost var ring, p := Halfway(r, kept, k), |kept| + 1;
    HalfwayStep(r, kept, k);
    NeighboursAgree(ring, p);
    assert pos.next in r && pos.prev in r by {
      HalfwayInside(r, kept, k);
    }
    if doomed(pos) {
      ListDel(pos, ring, p);
      kept2 := kept;
    } else {
      kept2 := kept + [pos];
    }
  }

  /** A `list_for_each_safe` loop that deletes the current entry where `doomed` holds. */
  method DeleteWhere(head: ListHead, doomed: ListHead -> bool, ghost r: seq<ListHead>) returns (ghost visited: seq<ListHead>)
    requires IsRing(r) && head == r[0]
    modifies r
    ensures visited == r[1..]
    ensures IsRing([head] + Filter(r[1..], Spared(doomed)))
    ensures forall n :: n in Filter(r[1..], Spared(doomed)) <==> n in r[1..] && !doomed(n)
  {
    ghost var k, kept := 1, [];
    visited := [];
    NeighboursAgree(r, 0);
    assert Halfway(r, kept, 1) == r;
    OtherPlaces(r, 0);
    hide Halfway, AllDifferent, Filter, IsRing, DeleteAt;
    var pos: ListHead? := head.next;
    var n := pos.next;
    while pos != head
      invariant 1 <= k <= |r| && visited == r[1..k] && kept == Filter(visited, Spared(doomed))
      invariant IsRing(Halfway(r, kept, k)) && forall m :: m in kept ==> m in r
      invariant pos == (if k < |r| then r[k] else head) && n == pos.next
      decreases |r| - k
    {
      FilterSnoc(visited, r[k], Spared(doomed));
      TakeMore(r, k);
      visited := visited + [r[k]];
      kept := VisitSafe(pos, n, doomed, r, kept, k);
      k := k + 1;
      pos := n;
      n := pos.next;
    }
    Finished(r, kept, k);
    SparedExactly(r[1..], doomed);
  }

  lemma SparedExactly(s: seq<ListHead>, doomed: ListHead -> bool)
    ensures forall n :: n in Filter(s, Spared(doomed)) <==> n in s && !doomed(n)
  {
    forall n: ListHead
      ensures n in Filter(s, Spared(doomed)) <==> n in s && !doomed(n)
    {
      FilterIn(s, Spared(doomed), n);
    }
  }

  lemma Finished(r: seq<ListHead>, kept: seq<ListHead>, k: nat)
    requires k == |r| && 0 < k
    ensures Halfway(r, kept, k) == [r[0]] + kept && r[1..k] == r[1..]
  {
  }

  // ---------- Facts about rings ----------

  /** The pointers determine the sequence: two readings from the same head agree. */
  lemma {:induction false} SameUpTo(r: seq<ListHead>, q: seq<ListHead>, k: nat)
    requires IsRing(r) && IsRing(q) && r[0] == q[0] && 0 < k <= |r|
    ensures k <= |q| && r[..k] == q[..k]
  {
    if k > 1 {
      SameUpTo(r, q, k - 1);
      assert r[k - 2].next == r[k - 1];
      assert q[k - 2] == r[k - 2];
      assert r[..k] == r[..k - 1] + [r[k - 1]];
      assert q[k - 2].next == r[k - 1] != r[0];
    }
  }

  lemma RingIsDetermined(r: seq<ListHead>, q: seq<ListHead>)
    requires IsRing(r) && IsRing(q) && r[0] == q[0]
    ensures r == q
  {
    SameUpTo(r, q, |r|);
    SameUpTo(q, r, |q|);
  }
}
