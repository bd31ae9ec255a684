/** The select loop of `http_server2.c`: its connection table against the process's open descriptors. */
module Server {
  import opened Sequences

  const FD_SETSIZE: nat := 1024
  const FREE: int := -1

  /**
   * The loop's variables, the descriptors open in the process, and a log of what was done with
   * descriptors. `fd_set` is a set of descriptors of any size.
   */
  datatype ServerState = ServerState(
    sock: int, slots: seq<int>, allFds: set<int>, maxFd: int,
    open: set<int>, accepted: seq<int>, rejected: seq<int>, served: seq<int>)

  /** What the system calls of one turn return: select's status and readable set, and accept's result. */
  datatype Reply = Reply(selectFails: bool, ready: set<int>, accept: int)

  function Occupied(slots: seq<int>): seq<int> {
    Filter(slots, (fd: int) => fd != FREE)
  }

  /** The turn gets a new connection from accept. */
  predicate Accepts(s: ServerState, reply: Reply) {
    !reply.selectFails && s.sock in reply.ready && reply.accept >= 0
  }

  /** Select reports members of the set it was given, all below `max_fd + 1`; accept returns a descriptor that is not open. */
  predicate Possible(s: ServerState, reply: Reply) {
    && (forall fd :: fd in reply.ready ==> fd in s.allFds && fd < s.maxFd + 1)
    && (Accepts(s, reply) ==> reply.accept !in s.open)
  }

  function FirstFree(slots: seq<int>): (i: nat)
    ensures i <= |slots|
  {
    First(slots, (fd: int) => fd == FREE)
  }

  /** A new connection takes the first free slot, or is closed at once. */
  function Admit(s: ServerState, fd: int): ServerState {
    var i := FirstFree(s.slots);
    if i < |s.slots| then
      s.(slots := s.slots[i := fd], allFds := s.allFds + {fd}, maxFd := if fd > s.maxFd then fd else s.maxFd,
         open := s.open + {fd}, accepted := s.accepted + [fd])
    else
      s.(accepted := s.accepted + [fd], rejected := s.rejected + [fd])
  }

  /** Handle, close and forget the connection in slot `i` if it is readable. */
  function ServeSlot(s: ServerState, ready: set<int>, i: nat): ServerState
    requires i < |s.slots|
  {
    var conn := s.slots[i];
    if conn == FREE || conn !in ready then s else
    s.(slots := s.slots[i := FREE], allFds := s.allFds - {conn}, open := s.open - {conn}, served := s.served + [conn])
  }

  function ServeFrom(s: ServerState, ready: set<int>, i: nat): ServerState
    decreases |s.slots| - i
  {
    if i >= |s.slots| then s else ServeFrom(ServeSlot(s, ready, i), ready, i + 1)
  }

  /** One turn of the loop. A failed select or accept skips the rest of the turn. */
  function Turn(s: ServerState, reply: Reply): ServerState {
    if reply.selectFails then s
    else if s.sock !in reply.ready then ServeFrom(s, reply.ready, 0)
    else if reply.accept < 0 then s
    else ServeFrom(Admit(s, reply.accept), reply.ready, 0)
  }

  function Started(sock: int, open: set<int>): ServerState {
    ServerState(sock, seq(FD_SETSIZE, _ => FREE), {sock}, sock, open, [], [], [])
  }

  // ---------- The loop itself ----------

  class Loop {
    const sock: int
    const connections: array<int>
    var allFds: set<int>
    var readFds: set<int>
    var maxFd: int
    ghost var open: set<int>
    ghost var accepted: seq<int>
    ghost var rejected: seq<int>
    ghost var served: seq<int>

    ghost function State(): ServerState
      reads this, connections
    {
      ServerState(sock, connections[..], allFds, maxFd, open, accepted, rejected, served)
    }

    constructor (sock: int, ghost open: set<int>)
      ensures fresh(connections) && State() == Started(sock, open)
    {
      this.sock := sock;
      connections := new int[FD_SETSIZE](_ => FREE);
      allFds, readFds, maxFd := {sock}, {}, sock;
      this.open, accepted, rejected, served := open, [], [], [];
    }

    /** The search for an empty slot, and what happens with or without one. */
    method Place(newConn: int)
      modifies this, connections
      ensures State() == Admit(old(State()), newConn) && readFds == old(readFds)
    {
      accepted := accepted + [newConn];
      var i := 0;
      while i < connections.Length && connections[i] != FREE
        invariant i <= connections.Length && forall j :: 0 <= j < i ==> connections[j] != FREE
      {
        i := i + 1;
      }
      FirstIs(connections[..], (fd: int) => fd == FREE, i);
      if i < connections.Length {
        open := open + {newConn};
        connections[i] := newConn;
        allFds := allFds + {newConn};
        if newConn > maxFd {
          maxFd := newConn;
        }
      } else {
        rejected := rejected + [newConn];
      }
    }

    /** `handle_connection`, `close` and the bookkeeping, for every readable connection. */
    method Serve()
      modifies this, connections
      ensures State() == ServeFrom(old(State()), old(readFds), 0)
    {
      var i := 0;
      while i < connections.Length
        invariant i <= connections.Length && readFds == old(readFds)
        invariant ServeFrom(State(), readFds, i) == ServeFrom(old(State()), readFds, 0)
      {
        ghost var before := State();
        var conn := connections[i];
        if conn != FREE && conn in readFds {
          served, open := served + [conn], open - {conn};
          allFds := allFds - {conn};
          connections[i] := FREE;
        }
        assert State() == ServeSlot(before, readFds, i);
        i := i + 1;
      }
    }

    /** The body of the endless loop. */
    method Once(reply: Reply)
      modifies this, connections
      ensures State() == Turn(old(State()), reply)
    {
      readFds := allFds;
      if reply.selectFails {
        return;
      }
      readFds := reply.ready;
      if sock in readFds {
        if reply.accept < 0 {
          return;
        }
        Place(reply.accept);
      }
      Serve();
    }

    /** Any number of turns. */
    method Turns(replies: seq<Reply>)
      modifies this, connections
      ensures State() == Run(old(State()), replies)
    {
      var i := 0;
      assert replies[..0] == [];
      while i < |replies|
        invariant i <= |replies| && State() == Run(old(State()), replies[..i])
      {
        Once(replies[i]);
        assert replies[..i + 1][..i] == replies[..i];
        i := i + 1;
      }
      assert replies[..i] == replies;
    }
  }

  // ---------- What every run keeps ----------

  /** `base` is what the process has open besides the listener and its connections. */
  ghost predicate Good(s: ServerState, base: set<int>) {
    && |s.slots| == FD_SETSIZE && s.sock >= 0 && s.sock !in base
    && (forall i :: 0 <= i < |s.slots| ==> s.slots[i] == FREE || (s.slots[i] >= 0 && s.slots[i] != s.sock && s.slots[i] !in base))
    && (forall i, j :: 0 <= i < |s.slots| && 0 <= j < |s.slots| && s.slots[i] == s.slots[j] != FREE ==> i == j)
    && (forall fd :: fd in s.allFds <==> fd == s.sock || (fd != FREE && fd in s.slots))
    && (forall fd :: fd in s.allFds ==> fd <= s.maxFd) && (s.maxFd == s.sock || s.maxFd in s.accepted)
    && (forall fd :: fd in s.open <==> fd in base || fd in s.allFds)
    && multiset(s.accepted) == multiset(Occupied(s.slots)) + multiset(s.served) + multiset(s.rejected)
  }

  lemma OccupiedUpdate(slots: seq<int>, i: nat, fd: int)
    requires i < |slots|
    ensures multiset(Occupied(slots[i := fd])) + multiset(Occupied([slots[i]])) ==
            multiset(Occupied(slots)) + multiset(Occupied([fd]))
  {
    hide Filter;
    var busy := (x: int) => x != FREE;
    FilterAround(slots, i, [fd], busy);
    FilterAround(slots, i, [slots[i]], busy);
    assert slots == slots[..i] + [slots[i]] + slots[i + 1..];
    assert slots[i := fd] == slots[..i] + [fd] + slots[i + 1..];
  }

  lemma AdmitGood(s: ServerState, base: set<int>, fd: int)
    requires Good(s, base) && fd >= 0 && fd !in s.open
    ensures Good(Admit(s, fd), base)
  {
    hide Filter, First, Occupied;
    AdmitAccounted(s, fd);
    if FirstFree(s.slots) < |s.slots| {
      SlotFilled(s.slots, FirstFree(s.slots), fd);
    }
  }

  lemma AdmitAccounted(s: ServerState, fd: int)
    requires fd >= 0 && multiset(s.accepted) == multiset(Occupied(s.slots)) + multiset(s.served) + multiset(s.rejected)
    ensures var t := Admit(s, fd);
      multiset(t.accepted) == multiset(Occupied(t.slots)) + multiset(t.served) + multiset(t.rejected)
  {
    hide Filter, First, Occupied;
    var i, t := FirstFree(s.slots), Admit(s, fd);
    assert multiset(t.accepted) == multiset(s.accepted) + multiset{fd};
    if i < |s.slots| {
      OccupiedUpdate(s.slots, i, fd);
      OccupiedOne(fd);
      OccupiedOne(FREE);
      assert multiset(Occupied(t.slots)) == multiset(Occupied(s.slots)) + multiset{fd};
    } else {
      assert multiset(t.rejected) == multiset(s.rejected) + multiset{fd};
    }
  }

  lemma SlotFilled(slots: seq<int>, i: nat, fd: int)
    requires i < |slots| && slots[i] == FREE != fd
    ensures forall x :: x != FREE ==> (x in slots[i := fd] <==> x in slots || x == fd)
  {
    forall x | x != FREE
      ensures x in slots[i := fd] <==> x in slots || x == fd
    {
      assert slots[i := fd][i] == fd;
      if x in slots {
        var j :| 0 <= j < |slots| && slots[j] == x;
        assert slots[i := fd][j] == x;
      }
    }
  }

  lemma OccupiedOne(fd: int)
    ensures Occupied([fd]) == if fd == FREE then [] else [fd]
  {
  }

  lemma ServeSlotGood(s: ServerState, base: set<int>, ready: set<int>, i: nat)
    requires Good(s, base) && i < |s.slots|
    ensures Good(ServeSlot(s, ready, i), base)
  {
    hide Filter;
    var conn, t := s.slots[i], ServeSlot(s, ready, i);
    if conn != FREE && conn in ready {
      OccupiedUpdate(s.slots, i, FREE);
      OccupiedOne(conn);
      OccupiedOne(FREE);
      assert multiset(Occupied(t.slots)) + multiset{conn} == multiset(Occupied(s.slots));
      assert multiset(t.served) == multiset(s.served) + multiset{conn};
      forall x | x != FREE
        ensures x in t.slots <==> x in s.slots && x != conn
      {
        if x in s.slots && x != conn {
          var j :| 0 <= j < |s.slots| && s.slots[j] == x;
          assert t.slots[j] == x;
        }
        if x in t.slots {
          var j :| 0 <= j < |t.slots| && t.slots[j] == x;
          assert j != i && s.slots[j] == x;
        }
      }
    }
  }

  lemma {:induction false} ServeGood(s: ServerState, base: set<int>, ready: set<int>, i: nat)
    requires Good(s, base)
    ensures Good(ServeFrom(s, ready, i), base)
    decreases |s.slots| - i
  {
    hide Good;
    if i < |s.slots| {
      ServeSlotGood(s, base, ready, i);
      ServeGood(ServeSlot(s, ready, i), base, ready, i + 1);
    }
  }

  lemma TurnGood(s: ServerState, base: set<int>, reply: Reply)
    requires Good(s, base) && Possible(s, reply)
    ensures Good(Turn(s, reply), base)
  {
    hide Good;
    if !reply.selectFails {
      ServeGood(s, base, reply.ready, 0);
      if Accepts(s, reply) {
        AdmitGood(s, base, reply.accept);
        ServeGood(Admit(s, reply.accept), base, reply.ready, 0);
      }
    }
  }

  // ---------- Who is served ----------

  function Readable(ready: set<int>): int -> bool {
    (fd: int) => fd != FREE && fd in ready
  }

  /** Part 2 of a turn serves exactly the readable connections, in slot order, and frees their slots. */
  lemma {:induction false} ServeExactly(s: ServerState, ready: set<int>, i: nat)
    requires i <= |s.slots|
    ensures var t := ServeFrom(s, ready, i);
      && t.served == s.served + Filter(s.slots[i..], Readable(ready))
      && |t.slots| == |s.slots|
      && (forall j :: 0 <= j < |s.slots| ==>
            t.slots[j] == if i <= j && s.slots[j] in ready then FREE else s.slots[j])
      && t.accepted == s.accepted && t.rejected == s.rejected && t.maxFd == s.maxFd && t.sock == s.sock
    decreases |s.slots| - i
  {
    if i < |s.slots| {
      var u := ServeSlot(s, ready, i);
      ServeExactly(u, ready, i + 1);
      FilterHead(s.slots, i, Readable(ready));
      assert u.slots[i + 1..] == s.slots[i + 1..];
    }
  }

  /**
   * A turn calls the handler only on connections that select reported, each held in a slot when the
   * turn began: never on the listener, and never on the connection accepted in the same turn.
   */
  lemma TurnServesReported(s: ServerState, base: set<int>, reply: Reply)
    requires Good(s, base) && Possible(s, reply)
    ensures var t := Turn(s, reply);
      && s.served <= t.served
      && forall fd :: fd in t.served[|s.served|..] ==>
           fd in reply.ready && fd in s.slots && fd != s.sock && (Accepts(s, reply) ==> fd != reply.accept)
  {
    hide Filter, First;
    if !reply.selectFails && (s.sock !in reply.ready || reply.accept >= 0) {
      var u := if s.sock in reply.ready then Admit(s, reply.accept) else s;
      ServeExactly(u, reply.ready, 0);
      var done := Filter(u.slots[0..], Readable(reply.ready));
      forall fd | fd in done
        ensures fd in reply.ready && fd in s.slots && fd != s.sock && (Accepts(s, reply) ==> fd != reply.accept)
      {
        FilterIn(u.slots[0..], Readable(reply.ready), fd);
        assert Accepts(s, reply) ==> reply.accept !in reply.ready;
        var j :| 0 <= j < |u.slots| && u.slots[j] == fd;
        assert s.slots[j] == fd;
      }
    }
  }

  /** A turn goes no further if select fails, or accept does on a listener that is ready. */
  predicate Stops(s: ServerState, reply: Reply) {
    reply.selectFails || (s.sock in reply.ready && reply.accept < 0)
  }

  lemma TurnStops(s: ServerState, reply: Reply)
    requires reply.selectFails || (s.sock in reply.ready && reply.accept < 0)
    ensures Turn(s, reply) == s
  {
  }

  /**
   * Any other turn serves exactly the connections in slots that select reported, in slot order, and frees
   * their slots. A connection that it accepts gets the slot that was the first free one when the turn
   * began, or is rejected if there was none.
   */
  lemma TurnServes(s: ServerState, base: set<int>, reply: Reply)
    requires Good(s, base) && Possible(s, reply)
    requires !reply.selectFails && (s.sock in reply.ready ==> reply.accept >= 0)
    ensures var t, accepts, i := Turn(s, reply), s.sock in reply.ready, FirstFree(s.slots);
      && t.served == s.served + Filter(s.slots, Readable(reply.ready))
      && (forall fd :: fd in Filter(s.slots, Readable(reply.ready)) <==> fd in s.slots && fd != -1 && fd in reply.ready)
      && |t.slots| == |s.slots|
      && (forall j :: 0 <= j < |s.slots| ==>
            t.slots[j] ==
            (if s.slots[j] in reply.ready then -1 else if accepts && j == i then reply.accept else s.slots[j]))
      && t.accepted == s.accepted + (if accepts then [reply.accept] else [])
      && t.rejected == s.rejected + (if accepts && i == |s.slots| then [reply.accept] else [])
      && t.maxFd == if accepts && i < |s.slots| && reply.accept > s.maxFd then reply.accept else s.maxFd
  {
    hide Filter, First;
    var accepts, i := s.sock in reply.ready, FirstFree(s.slots);
    var u := if accepts then Admit(s, reply.accept) else s;
    ServeExactly(u, reply.ready, 0);
    assert u.slots[0..] == u.slots && s.slots[0..] == s.slots;
    assert accepts ==> reply.accept !in reply.ready;
    assert -1 !in reply.ready;
    if accepts && i < |s.slots| {
      FilledFilter(s.slots, i, reply.accept, reply.ready);
    }
    forall fd
      ensures fd in Filter(s.slots, Readable(reply.ready)) <==> fd in s.slots && fd != -1 && fd in reply.ready
    {
      FilterIn(s.slots, Readable(reply.ready), fd);
    }
  }

  /** Filling a free slot with a connection that is not readable. */
  lemma FilledFilter(slots: seq<int>, i: nat, fd: int, ready: set<int>)
    requires i < |slots| && slots[i] == FREE && fd !in ready
    ensures Filter(slots[i := fd], Readable(ready)) == Filter(slots, Readable(ready))
  {
    var m := Readable(ready);
    FilterAround(slots, i, [fd], m);
    FilterAround(slots, i, [FREE], m);
    assert slots[i := fd] == slots[..i] + [fd] + slots[i + 1..];
    assert slots == slots[..i] + [FREE] + slots[i + 1..];
  }

  /** First means first: the slots in front of it are taken. */
  lemma FirstFreeIs(slots: seq<int>)
    ensures var i := FirstFree(slots);
      && (i < |slots| ==> slots[i] == -1)
      && forall j :: 0 <= j < i ==> slots[j] != -1
  {
    hide First;
  }

  // ---------- Runs ----------

  function Run(s: ServerState, replies: seq<Reply>): ServerState
    decreases |replies|
  {
    if replies == [] then s else Turn(Run(s, replies[..|replies| - 1]), replies[|replies| - 1])
  }

  predicate AllPossible(s: ServerState, replies: seq<Reply>)
    decreases |replies|
  {
    replies == [] ||
    (AllPossible(s, replies[..|replies| - 1]) && Possible(Run(s, replies[..|replies| - 1]), replies[|replies| - 1]))
  }

  lemma StartedGood(sock: int, base: set<int>)
    requires sock >= 0 && sock !in base
    ensures Good(Started(sock, base + {sock}), base)
  {
    var s := Started(sock, base + {sock});
    FilterNone(s.slots, (fd: int) => fd != FREE);
    assert multiset(Occupied(s.slots)) == multiset{};
  }

  /** For every sequence of replies of the system calls. */
  lemma {:induction false} RunGood(sock: int, base: set<int>, replies: seq<Reply>)
    requires sock >= 0 && sock !in base && AllPossible(Started(sock, base + {sock}), replies)
    ensures Good(Run(Started(sock, base + {sock}), replies), base)
    decreases |replies|
  {
    hide Good, Possible, Turn;
    if replies == [] {
      StartedGood(sock, base);
    } else {
      RunGood(sock, base, replies[..|replies| - 1]);
      TurnGood(Run(Started(sock, base + {sock}), replies[..|replies| - 1]), base, replies[|replies| - 1]);
    }
  }

  /** The connections that select reports over a run, in turns that get so far, each turn in slot order. */
  function Reported(s: ServerState, replies: seq<Reply>): seq<int>
    decreases |replies|
  {
    if replies == [] then [] else
    var before, reply := replies[..|replies| - 1], replies[|replies| - 1];
    Reported(s, before) +
      if Stops(Run(s, before), reply) then [] else Filter(Run(s, before).slots, Readable(reply.ready))
  }

  /** The connections that accept returns over a run. */
  function Admitted(s: ServerState, replies: seq<Reply>): seq<int>
    decreases |replies|
  {
    if replies == [] then [] else
    var before, reply := replies[..|replies| - 1], replies[|replies| - 1];
    Admitted(s, before) +
      if !Stops(Run(s, before), reply) && Run(s, before).sock in reply.ready then [reply.accept] else []
  }

  /** Over every run exactly the reported connections are handled and exactly the returned ones accepted. */
  lemma {:induction false} RunServes(sock: int, base: set<int>, replies: seq<Reply>)
    requires sock >= 0 && sock !in base && AllPossible(Started(sock, base + {sock}), replies)
    ensures var s := Started(sock, base + {sock});
      Run(s, replies).served == Reported(s, replies) && Run(s, replies).accepted == Admitted(s, replies)
    decreases |replies|
  {
    hide Good, Possible, Turn, Filter, First;
    if replies != [] {
      var before, reply := replies[..|replies| - 1], replies[|replies| - 1];
      var s := Run(Started(sock, base + {sock}), before);
      RunServes(sock, base, before);
      RunGood(sock, base, before);
      if Stops(s, reply) {
        TurnStops(s, reply);
      } else {
        TurnServes(s, base, reply);
      }
    }
  }

  // ---------- The table is never full ----------

  function Below(n: nat): (s: set<int>)
    ensures |s| == n && forall x :: x in s <==> 0 <= x < n
  {
    if n == 0 then {} else Below(n - 1) + {n - 1}
  }

  lemma SubsetSize(s: set<int>, t: set<int>)
    requires s <= t
    ensures |s| <= |t|
  {
    assert s + (t - s) == t;
  }

  function Members(q: seq<int>): set<int> { set x | x in q }

  /** The values of a sequence without repetitions are as many as its places. */
  lemma {:induction false} DistinctSize(q: seq<int>, n: nat)
    requires n <= |q| && forall i, j :: 0 <= i < n && 0 <= j < n && q[i] == q[j] ==> i == j
    ensures |Members(q[..n])| == n
  {
    if n > 0 {
      DistinctSize(q, n - 1);
      assert q[..n] == q[..n - 1] + [q[n - 1]];
      assert Members(q[..n]) == Members(q[..n - 1]) + {q[n - 1]};
    }
  }

  /** As long as descriptors stay below FD_SETSIZE, the listener's own number keeps a slot free. */
  lemma AlwaysRoom(s: ServerState, base: set<int>)
    requires Good(s, base) && s.sock < FD_SETSIZE
    requires forall i :: 0 <= i < |s.slots| ==> s.slots[i] < FD_SETSIZE
    ensures FirstFree(s.slots) < |s.slots|
  {
    hide First;
    FreeExists(s.slots, s.sock);
  }

  /** Different numbers below `n`, none of them `sock`, are fewer than `n`. */
  lemma Pigeonhole(fds: seq<int>, n: nat, sock: int)
    requires 0 <= sock < n && forall i :: 0 <= i < |fds| ==> 0 <= fds[i] < n && fds[i] != sock
    requires forall i, j :: 0 <= i < |fds| && 0 <= j < |fds| && fds[i] == fds[j] ==> i == j
    ensures |fds| < n
  {
    DistinctSize(fds, |fds|);
    assert fds[..|fds|] == fds;
    SubsetSize(Members(fds), Below(n) - {sock});
  }

  lemma FreeExists(slots: seq<int>, sock: int)
    requires |slots| == FD_SETSIZE && 0 <= sock < FD_SETSIZE
    requires forall i :: 0 <= i < |slots| ==> slots[i] == FREE || (0 <= slots[i] < FD_SETSIZE && slots[i] != sock)
    requires forall i, j :: 0 <= i < |slots| && 0 <= j < |slots| && slots[i] == slots[j] != FREE ==> i == j
    ensures exists i :: 0 <= i < |slots| && slots[i] == FREE
  {
    if FREE !in slots {
      Pigeonhole(slots, FD_SETSIZE, sock);
    }
  }

  /** Every descriptor that accept returns is one that fits an `fd_set`. */
  predicate Fitting(replies: seq<Reply>) {
    forall i :: 0 <= i < |replies| ==> replies[i].accept < FD_SETSIZE
  }

  lemma TurnNeverRejects(s: ServerState, base: set<int>, reply: Reply)
    requires Good(s, base) && s.sock < FD_SETSIZE && reply.accept < FD_SETSIZE
    requires forall i :: 0 <= i < |s.slots| ==> s.slots[i] < FD_SETSIZE
    ensures var t := Turn(s, reply);
      t.rejected == s.rejected && t.sock == s.sock && forall i :: 0 <= i < |t.slots| ==> t.slots[i] < FD_SETSIZE
  {
    AlwaysRoom(s, base);
    hide Good, First, Filter;
    ServeExactly(s, reply.ready, 0);
    ServeExactly(Admit(s, reply.accept), reply.ready, 0);
    SockStays(s, reply.ready, 0);
    SockStays(Admit(s, reply.accept), reply.ready, 0);
  }

  lemma {:induction false} SockStays(s: ServerState, ready: set<int>, i: nat)
    ensures ServeFrom(s, ready, i).sock == s.sock
    decreases |s.slots| - i
  {
    if i < |s.slots| {
      SockStays(ServeSlot(s, ready, i), ready, i + 1);
    }
  }

  /** The branch for too many connections is never taken. */
  lemma {:induction false} NeverTooMany(sock: int, base: set<int>, replies: seq<Reply>)
    requires 0 <= sock < FD_SETSIZE && sock !in base && Fitting(replies)
    requires AllPossible(Started(sock, base + {sock}), replies)
    ensures var s := Run(Started(sock, base + {sock}), replies);
      s.rejected == [] && s.sock == sock && forall i :: 0 <= i < |s.slots| ==> s.slots[i] < FD_SETSIZE
    decreases |replies|
  {
    hide Good, Possible, Turn;
    if replies != [] {
      var before := replies[..|replies| - 1];
      NeverTooMany(sock, base, before);
      RunGood(sock, base, before);
      TurnNeverRejects(Run(Started(sock, base + {sock}), before), base, replies[|replies| - 1]);
    }
  }

  /**
   * The server from its start on, for any number of turns: what the loop's variables and the open
   * descriptors satisfy at the end, and who was turned away.
   */
  method Session(sock: int, ghost base: set<int>, replies: seq<Reply>) returns (server: Loop)
    requires sock >= 0 && sock !in base && AllPossible(Started(sock, base + {sock}), replies)
    ensures server.State() == Run(Started(sock, base + {sock}), replies) && Good(server.State(), base)
    ensures server.served == Reported(Started(sock, base + {sock}), replies)
    ensures server.accepted == Admitted(Started(sock, base + {sock}), replies)
    ensures server.connections.Length == 1024
    ensures sock < 1024 && (forall i :: 0 <= i < |replies| ==> replies[i].accept < 1024) ==> server.rejected == []
  {
    hide Good, Possible, Turn;
    server := new Loop(sock, base + {sock});
    server.Turns(replies);
    RunGood(sock, base, replies);
    RunServes(sock, base, replies);
    if sock < FD_SETSIZE && Fitting(replies) {
      NeverTooMany(sock, base, replies);
    }
  }
}
