/** The `hlist` of `pet_list.h`: one head pointer, and entries that know the cell leading to them. */
module HLists {
  import opened Sequences

  /** `struct hlist_head`. */
  class Head {
    var first: Node?

    /** `INIT_HLIST_HEAD` on new memory. */
    constructor ()
      ensures IsList(this, [])
    {
      first := null;
    }
  }

  /**
   * The pointer cell that `pprev` names: the `first` field of a head or the `next` field of an entry.
   * `NoCell` is NULL; `PoisonCell` is what `hlist_del` leaves behind.
   */
  datatype Cell = HeadCell(head: Head) | NextCell(node: Node) | NoCell | PoisonCell

  /** `struct hlist_node`. A deleted entry's poisoned `next` is null here. */
  class Node {
    var next: Node?
    var pprev: Cell

    /** `INIT_HLIST_NODE` on new memory. */
    constructor ()
      ensures next == null && pprev == NoCell
    {
      next, pprev := null, NoCell;
    }
  }

  function NodeAt(s: seq<Node>, k: nat): Node? { if k < |s| then s[k] else null }

  function CellOf(h: Head, s: seq<Node>, k: nat): Cell
    requires k <= |s|
  {
    if k == 0 then HeadCell(h) else NextCell(s[k - 1])
  }

  /** The list spells `s`: each entry's `pprev` names the cell that holds the entry. */
  ghost predicate IsList(h: Head, s: seq<Node>)
    reads h, s
  {
    && AllDifferent(s) && h.first == NodeAt(s, 0)
    && (forall k {:trigger s[k].next} :: 0 <= k < |s| ==> s[k].next == NodeAt(s, k + 1))
    && (forall k {:trigger s[k].pprev} :: 0 <= k < |s| ==> s[k].pprev == CellOf(h, s, k))
  }

  /** A list whose head and entries did not change is still one. */
  twostate lemma Untouched(h: Head, s: seq<Node>)
    requires old(IsList(h, s)) && unchanged(h) && forall i :: 0 <= i < |s| ==> unchanged(s[i])
    ensures IsList(h, s)
  {
    forall k | 0 <= k < |s|
      ensures s[k].next == NodeAt(s, k + 1) && s[k].pprev == CellOf(h, s, k)
    {
      assert old(s[k].next) == NodeAt(s, k + 1) && old(s[k].pprev) == CellOf(h, s, k);
    }
  }

  // ---------- The operations ----------

  /** `*cell = n`. */
  method Write(cell: Cell, n: Node?)
    requires cell.HeadCell? || cell.NextCell?
    modifies if cell.HeadCell? then {cell.head} else {}
    modifies (if cell.NextCell? then {cell.node} else {})`next
    ensures cell.HeadCell? ==> cell.head.first == n
    ensures cell.NextCell? ==> cell.node.next == n
  {
    match cell
    case HeadCell(h) => h.first := n;
    case NextCell(m) => m.next := n;
  }

  /** The objects that hold the cell named by an entry's `pprev`. */
  function HeadsOf(cell: Cell): set<Head> { if cell.HeadCell? then {cell.head} else {} }

  function NodesOf(cell: Cell): set<Node> { if cell.NextCell? then {cell.node} else {} }

  /** `__hlist_del`: no access to the head is needed. */
  method Unlink(n: Node, ghost h: Head, ghost s: seq<Node>, ghost k: nat)
    requires IsList(h, s) && k < |s| && n == s[k]
    modifies HeadsOf(n.pprev), NodesOf(n.pprev)`next
    modifies (if n.next != null then {n.next} else {})`pprev
    ensures IsList(h, DeleteAt(s, k)) && n !in DeleteAt(s, k)
  {
    ghost var t := DeleteAt(s, k);
    DeleteDifferent(s, k);
    OtherPlaces(s, k);
    if k > 0 { OtherPlaces(s, k - 1); }
    if k + 1 < |s| { OtherPlaces(s, k + 1); }
    hide AllDifferent;
    var next, pprev := n.next, n.pprev;
    Write(pprev, next);
    if next != null {
      next.pprev := pprev;
    }
    forall j | 0 <= j < |t|
      ensures t[j].next == NodeAt(t, j + 1) && t[j].pprev == CellOf(h, t, j)
    {
      var i := if j < k then j else j + 1;
      assert t[j] == s[i];
      assert old(s[i].next) == NodeAt(s, i + 1) && old(s[i].pprev) == CellOf(h, s, i);
    }
  }

  /** `hlist_del`. */
  method Del(n: Node, ghost h: Head, ghost s: seq<Node>, ghost k: nat)
    requires IsList(h, s) && k < |s| && n == s[k]
    modifies h, s
    ensures IsList(h, DeleteAt(s, k)) && n.next == null && n.pprev == PoisonCell
  {
    InList(h, s, k);
    Unlink(n, h, s, k);
    n.next := null;
    n.pprev := PoisonCell;
  }

  lemma InList(h: Head, s: seq<Node>, k: nat)
    requires IsList(h, s) && k < |s|
    ensures HeadsOf(s[k].pprev) <= {h} && forall m :: m in NodesOf(s[k].pprev) ==> m in s
    ensures s[k].next != null ==> s[k].next in s
  {
  }

  /** `hlist_del_init` on an entry that is in a list; on an unhashed one it does nothing. */
  method DelInit(n: Node, ghost h: Head, ghost s: seq<Node>, ghost k: nat)
    requires n.pprev != NoCell ==> IsList(h, s) && k < |s| && n == s[k]
    modifies h, s, n
    ensures n.pprev == NoCell
    ensures old(n.pprev) != NoCell ==> IsList(h, DeleteAt(s, k)) && n.next == null
    ensures old(n.pprev) == NoCell ==> unchanged(h) && unchanged(n) && forall m :: m in s ==> unchanged(m)
  {
    if n.pprev != NoCell {
      InList(h, s, k);
      Unlink(n, h, s, k);
      n.next := null;
      n.pprev := NoCell;
    }
  }

  /** `hlist_add_head`. */
  method AddHead(n: Node, h: Head, ghost s: seq<Node>)
    requires IsList(h, s) && n !in s
    modifies h, n, (if h.first != null then {h.first} else {})`pprev
    ensures IsList(h, InsertAt(s, 0, n))
  {
    ghost var t := InsertAt(s, 0, n);
    InsertDifferent(s, 0, n);
    if s != [] { OtherPlaces(s, 0); }
    hide AllDifferent;
    var first := h.first;
    n.next := first;
    if first != null {
      first.pprev := NextCell(n);
    }
    h.first := n;
    n.pprev := HeadCell(h);
    forall j | 0 <= j < |t|
      ensures t[j].next == NodeAt(t, j + 1) && t[j].pprev == CellOf(h, t, j)
    {
      if j > 0 {
        assert t[j] == s[j - 1];
        assert old(s[j - 1].next) == NodeAt(s, j) && old(s[j - 1].pprev) == CellOf(h, s, j - 1);
      }
    }
  }

  /** `hlist_add_before`. */
  method AddBefore(n: Node, next: Node, ghost h: Head, ghost s: seq<Node>, ghost k: nat)
    requires IsList(h, s) && n !in s && k < |s| && next == s[k]
    modifies n, next`pprev, HeadsOf(next.pprev), NodesOf(next.pprev)`next
    ensures IsList(h, InsertAt(s, k, n))
  {
    ghost var t := InsertAt(s, k, n);
    InsertDifferent(s, k, n);
    OtherPlaces(s, k);
    if k > 0 { OtherPlaces(s, k - 1); }
    hide AllDifferent;
    n.pprev := next.pprev;
    n.next := next;
    next.pprev := NextCell(n);
    Write(n.pprev, n);
    forall j | 0 <= j < |t|
      ensures t[j].next == NodeAt(t, j + 1) && t[j].pprev == CellOf(h, t, j)
    {
      if j != k {
        var i := if j < k then j else j - 1;
        assert t[j] == s[i];
        assert old(s[i].next) == NodeAt(s, i + 1) && old(s[i].pprev) == CellOf(h, s, i);
      }
    }
  }

  /** `hlist_add_after`: the second argument is the new entry. */
  method AddAfter(n: Node, next: Node, ghost h: Head, ghost s: seq<Node>, ghost k: nat)
    requires IsList(h, s) && next !in s && k < |s| && n == s[k]
    modifies next, n`next, (if n.next != null then {n.next} else {})`pprev
    ensures IsList(h, InsertAt(s, k + 1, next))
  {
    ghost var t := InsertAt(s, k + 1, next);
    InsertDifferent(s, k + 1, next);
    OtherPlaces(s, k);
    if k + 1 < |s| { OtherPlaces(s, k + 1); }
    hide AllDifferent;
    next.next := n.next;
    n.next := next;
    next.pprev := NextCell(n);
    if next.next != null {
      next.next.pprev := NextCell(next);
    }
    forall j | 0 <= j < |t|
      ensures t[j].next == NodeAt(t, j + 1) && t[j].pprev == CellOf(h, t, j)
    {
      if j != k + 1 {
        var i := if j <= k then j else j - 1;
        assert t[j] == s[i];
        assert old(s[i].next) == NodeAt(s, i + 1) && old(s[i].pprev) == CellOf(h, s, i);
      }
    }
  }

  // ---------- Facts about lists ----------

  /** The pointers determine the sequence. */
  lemma {:induction false} SameUpTo(h: Head, s: seq<Node>, t: seq<Node>, k: nat)
    requires IsList(h, s) && IsList(h, t) && k <= |s|
    ensures k <= |t| && s[..k] == t[..k] && NodeAt(s, k) == NodeAt(t, k)
  {
    if k > 0 {
      SameUpTo(h, s, t, k - 1);
      assert s[k - 1].next == NodeAt(s, k) && t[k - 1].next == NodeAt(t, k);
      assert s[..k] == s[..k - 1] + [s[k - 1]] && t[..k] == t[..k - 1] + [t[k - 1]];
    }
  }

  lemma ListIsDetermined(h: Head, s: seq<Node>, t: seq<Node>)
    requires IsList(h, s) && IsList(h, t)
    ensures s == t
  {
    SameUpTo(h, s, t, |s|);
    SameUpTo(h, t, s, |t|);
  }

  /** An entry belongs to one place of one list: its `pprev` chain leads to a single head. */
  lemma {:induction false} OneHome(h: Head, s: seq<Node>, i: nat, g: Head, t: seq<Node>, j: nat)
    requires IsList(h, s) && IsList(g, t) && i < |s| && j < |t| && s[i] == t[j]
    ensures h == g && i == j && s == t
  {
    assert s[i].pprev == CellOf(h, s, i) && t[j].pprev == CellOf(g, t, j);
    if i > 0 {
      OneHome(h, s, i - 1, g, t, j - 1);
    } else {
      ListIsDetermined(h, s, t);
    }
  }
}
