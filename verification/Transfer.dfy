/** The transfer loops of `handle_connection`: every schedule of short receives, reads and sends. */
module Transfer {
  import opened Http

  const BUFSIZE: nat := 1024

  /** What a call of `send` that may move at most `limit` bytes takes of `n`. */
  function Taken(limit: int, n: nat): (r: nat)
    ensures r <= n
  {
    if limit <= 0 then 0 else if limit < n then limit else n
  }

  /**
   * The other end of a connection: the bytes it sends, and how each `recv` and `send` turns out.
   * Entry k of a schedule is the most that call k moves; zero or less makes the call fail.
   */
  class Peer {
    const stream: seq<Byte>
    const receives: nat -> int
    const sends: nat -> int
    var position: nat
    var receiveCalls: nat
    var sendCalls: nat
    ghost var wire: seq<Byte>   // what was sent to the peer

    ghost predicate Valid()
      reads this
    {
      position <= |stream|
    }

    constructor (stream: seq<Byte>, receives: nat -> int, sends: nat -> int)
      ensures Valid() && this.stream == stream && position == 0 && receiveCalls == 0 && sendCalls == 0 && wire == []
      ensures this.receives == receives && this.sends == sends
    {
      this.stream, this.receives, this.sends := stream, receives, sends;
      position, receiveCalls, sendCalls, wire := 0, 0, 0, [];
    }

    /** `recv` into `buf` at `offset`, at most `max` bytes; zero at the end of the stream. */
    method Recv(buf: array<Byte>, offset: nat, max: nat) returns (len: int)
      requires Valid() && offset + max <= buf.Length
      modifies this`position, this`receiveCalls, buf
      ensures Valid() && len <= max && receiveCalls == old(receiveCalls) + 1
      ensures len <= 0 ==> position == old(position) && buf[..] == old(buf[..])
      ensures len <= 0 && max > 0 ==> receives(old(receiveCalls)) <= 0 || position == |stream|
      ensures len > 0 ==> position == old(position) + len <= |stream|
      ensures len > 0 ==> buf[..offset + len] == old(buf[..offset]) + stream[old(position)..position]
    {
      var limit := receives(receiveCalls);
      receiveCalls := receiveCalls + 1;
      if limit <= 0 {
        return limit;
      }
      len := if limit < max then limit else max;
      len := if len < |stream| - position then len else |stream| - position;
      forall i | 0 <= i < len {
        buf[offset + i] := stream[position + i];
      }
      assert buf[..offset] == old(buf[..offset]);
      assert forall i :: offset <= i < offset + len ==> buf[i] == stream[position + (i - offset)];
      assert buf[..offset + len] == buf[..offset] + buf[offset..offset + len];
      position := position + len;
    }

    /** `send` of some bytes; a positive result never exceeds their number. */
    method Send(data: seq<Byte>) returns (res: int)
      requires data != []
      modifies this`sendCalls, this`wire
      ensures sendCalls == old(sendCalls) + 1
      ensures var limit := sends(old(sendCalls)); res == if limit <= 0 then limit else Taken(limit, |data|)
      ensures wire == old(wire) + (if res > 0 then data[..res] else [])
    {
      var limit := sends(sendCalls);
      sendCalls := sendCalls + 1;
      if limit <= 0 {
        return limit;
      }
      res := if limit < |data| then limit else |data|;
      wire := wire + data[..res];
    }
  }

  /** An open file. Read k delivers `chunks(k)` bytes, kept between one and what is asked for and left. */
  class File {
    const content: seq<Byte>
    const chunks: nat -> nat
    var position: nat
    var calls: nat

    ghost predicate Valid()
      reads this
    {
      position <= |content|
    }

    constructor (content: seq<Byte>, chunks: nat -> nat)
      ensures Valid() && this.content == content && this.chunks == chunks && position == 0
    {
      this.content, this.chunks, position, calls := content, chunks, 0, 0;
    }

    /** `fread(buf, 1, BUFSIZE, file)` without errors: zero only at the end of the file. */
    method Read(buf: array<Byte>) returns (n: nat)
      requires Valid() && buf.Length == BUFSIZE
      modifies this`position, this`calls, buf
      ensures Valid() && n <= BUFSIZE && position == old(position) + n
      ensures buf[..n] == content[old(position)..position]
      ensures n == 0 ==> position == |content|
    {
      n := if chunks(calls) < 1 then 1 else if chunks(calls) < BUFSIZE then chunks(calls) else BUFSIZE;
      n := if n < |content| - position then n else |content| - position;
      calls := calls + 1;
      forall i | 0 <= i < n {
        buf[i] := content[position + i];
      }
      assert forall i :: 0 <= i < n ==> buf[..n][i] == content[position..position + n][i];
      position := position + n;
    }
  }

  // ---------- The request ----------

  /** What the scan after a receive sees once `n` bytes of the stream have arrived. */
  predicate Complete(stream: seq<Byte>, start: nat, n: nat)
    requires start + n <= |stream|
  {
    Contains(CString(stream[start..start + n]), END_OF_HEADERS)
  }

  /** Once the scan succeeds, it also does when more has arrived. */
  lemma CompleteGrows(stream: seq<Byte>, start: nat, n: nat, m: nat)
    requires n <= m && start + m <= |stream| && Complete(stream, start, n)
    ensures Complete(stream, start, m)
  {
    var s, t := stream[start..start + n], stream[start + n..start + m];
    Adjacent(stream, start, start + n, start + m);
    CStringGrows(s, t);
    var more := CString(s + t)[|CString(s)|..];
    assert CString(s) + more == CString(s + t);
    ContainsGrows(CString(s), more, END_OF_HEADERS);
  }

  lemma NothingYet(stream: seq<Byte>, start: nat)
    requires start <= |stream|
    ensures !Complete(stream, start, 0) && Unfinished(stream, start, [], 0)
  {
    assert CString(stream[start..start + 0]) == [];
  }

  lemma IncompleteBefore(stream: seq<Byte>, start: nat, m: nat)
    requires start + m <= |stream| && !Complete(stream, start, m)
    ensures forall n :: 0 <= n <= m ==> !Complete(stream, start, n)
  {
    forall n | 0 <= n <= m
      ensures !Complete(stream, start, n)
    {
      if Complete(stream, start, n) {
        CompleteGrows(stream, start, n, m);
      }
    }
  }

  /** In bytes: an empty line with no NUL in front of it. */
  lemma CompleteBytes(stream: seq<Byte>, start: nat, n: nat)
    requires start + n <= |stream|
    ensures Complete(stream, start, n) <==> EmptyLineFirst(stream[start..start + n])
  {
    ScanBytes(stream[start..start + n]);
  }

  /** The request is in: its headers are complete or the buffer is full. */
  predicate Arrived(stream: seq<Byte>, start: nat, n: nat)
    requires start + n <= |stream|
  {
    Complete(stream, start, n) || n == BUFSIZE - 1
  }

  /**
   * The receive loop. The buffer holds exactly the next `total` bytes of the stream and a NUL. It
   * succeeds exactly if the scan finds the end of the headers in them or they fill the buffer; it fails
   * only on a failed receive or at the end of the stream. `checks` are the lengths after which the
   * scan found nothing, so it would have found nothing in any shorter part either.
   */
  method ReadRequest(peer: Peer, buf: array<Byte>) returns (ret: int, total: nat, ghost checks: seq<nat>)
    requires peer.Valid() && buf.Length == BUFSIZE
    modifies peer`position, peer`receiveCalls, buf
    ensures peer.Valid() && total <= BUFSIZE - 1 && peer.position == old(peer.position) + total
    ensures ret == if Arrived(peer.stream, old(peer.position), total) then 0 else -1
    ensures ret == 0 <==> total == 1023 || EmptyLineFirst(peer.stream[old(peer.position)..peer.position])
    ensures ret == 0 ==> buf[..total] == peer.stream[old(peer.position)..peer.position] && buf[total] == NUL
    ensures ret == -1 ==>
      && peer.receiveCalls > old(peer.receiveCalls)
      && (peer.receives(peer.receiveCalls - 1) <= 0 || peer.position == |peer.stream|)
    ensures forall i, j :: 0 <= i < j < |checks| ==> checks[i] < checks[j]
    ensures peer.receiveCalls == old(peer.receiveCalls) + |checks| +
      if ret == -1 || Complete(peer.stream, old(peer.position), total) then 1 else 0
    ensures forall i :: 0 <= i < |checks| ==> checks[i] <= total
    ensures forall i, n :: 0 <= i < |checks| && 0 <= n <= checks[i] ==> !Complete(peer.stream, old(peer.position), n)
  {
    ghost var start, calls := peer.position, peer.receiveCalls;
    NothingYet(peer.stream, start);
    hide Complete, Contains, CString, EmptyLineFirst, Unfinished;
    total, checks := 0, [];
    while total < BUFSIZE - 1
      invariant Receiving(peer, buf, start, calls, checks, total)
      decreases BUFSIZE - total
    {
      var len, found := ReceiveNext(peer, buf, total, start, calls, checks);
      CompleteBytes(peer.stream, start, if len > 0 then total + len else total);
      Checked(peer.stream, start, checks, total, total);
      if len <= 0 {
        return -1, total, checks;
      }
      total := total + len;
      if found {
        return 0, total, checks;
      }
      checks := checks + [total];
    }
    Checked(peer.stream, start, checks, total, total);
    CompleteBytes(peer.stream, start, total);
    ret := 0;
  }

  /** The receive loop, before a receive: `total` bytes are in the buffer and do not complete the request. */
  ghost predicate Receiving(peer: Peer, buf: array<Byte>, start: nat, calls: nat, checks: seq<nat>, total: nat)
    reads peer, buf
  {
    && peer.Valid() && total < BUFSIZE == buf.Length && peer.position == start + total
    && buf[..total] == peer.stream[start..start + total] && (total > 0 ==> buf[total] == NUL)
    && peer.receiveCalls == calls + |checks|
    && Unfinished(peer.stream, start, checks, total) && !Complete(peer.stream, start, total)
  }

  /** The body of the receive loop; `found` is what the scan says. */
  method ReceiveNext(peer: Peer, buf: array<Byte>, total: nat, ghost start: nat, ghost calls: nat, ghost checks: seq<nat>)
    returns (len: int, found: bool)
    requires Receiving(peer, buf, start, calls, checks, total) && total < BUFSIZE - 1
    modifies peer`position, peer`receiveCalls, buf
    ensures peer.Valid() && total + len <= BUFSIZE - 1 && peer.receiveCalls == calls + |checks| + 1
    ensures len <= 0 ==>
      && peer.position == start + total
      && (peer.receives(peer.receiveCalls - 1) <= 0 || peer.position == |peer.stream|)
    ensures len > 0 ==>
      && peer.position == start + total + len && buf[total + len] == NUL
      && buf[..total + len] == peer.stream[start..start + total + len]
      && (found <==> Complete(peer.stream, start, total + len))
      && (!found ==> Receiving(peer, buf, start, calls, checks + [total + len], total + len))
  {
    hide Complete, Contains, CString, Unfinished;
    found := false;
    len := ReceiveMore(peer, buf, total, start);
    if len > 0 {
      Checked(peer.stream, start, checks, total, total + len);
      ScanSeesStream(buf[..], total + len, peer.stream, start);
      found := Contains(CString(buf[..]), END_OF_HEADERS);
    }
  }

  /** Lengths of up to `total` bytes, growing, in no part of which the scan finds anything. */
  ghost predicate Unfinished(stream: seq<Byte>, start: nat, checks: seq<nat>, total: nat)
    requires start + total <= |stream|
  {
    && (forall i, j :: 0 <= i < j < |checks| ==> checks[i] < checks[j])
    && (forall i :: 0 <= i < |checks| ==> checks[i] <= total)
    && forall i, n :: 0 <= i < |checks| && 0 <= n <= checks[i] ==> !Complete(stream, start, n)
  }

  lemma Checked(stream: seq<Byte>, start: nat, checks: seq<nat>, total: nat, more: nat)
    requires total <= more && start + more <= |stream| && Unfinished(stream, start, checks, total)
    ensures Unfinished(stream, start, checks, more)
    ensures total < more && !Complete(stream, start, more) ==> Unfinished(stream, start, checks + [more], more)
    ensures forall i, j :: 0 <= i < j < |checks| ==> checks[i] < checks[j]
    ensures forall i :: 0 <= i < |checks| ==> checks[i] <= total
    ensures forall i, n :: 0 <= i < |checks| && 0 <= n <= checks[i] ==> !Complete(stream, start, n)
  {
    hide Complete;
    if !Complete(stream, start, more) {
      IncompleteBefore(stream, start, more);
    }
  }

  /** One receive, and the NUL after what has arrived. */
  method ReceiveMore(peer: Peer, buf: array<Byte>, total: nat, ghost start: nat) returns (len: int)
    requires peer.Valid() && buf.Length == BUFSIZE && total < BUFSIZE - 1 && peer.position == start + total
    requires buf[..total] == peer.stream[start..start + total]
    modifies peer`position, peer`receiveCalls, buf
    ensures peer.Valid() && peer.receiveCalls == old(peer.receiveCalls) + 1 && len <= BUFSIZE - 1 - total
    ensures len <= 0 ==> peer.position == old(peer.position)
    ensures len <= 0 ==> peer.receives(old(peer.receiveCalls)) <= 0 || peer.position == |peer.stream|
    ensures len > 0 ==>
      && peer.position == start + total + len && buf[total + len] == NUL
      && buf[..total + len] == peer.stream[start..start + total + len]
  {
    len := peer.Recv(buf, total, BUFSIZE - 1 - total);
    if len > 0 {
      Adjacent(peer.stream, start, start + total, start + total + len);
      buf[total + len] := NUL;
    }
  }

  lemma Adjacent(s: seq<Byte>, a: nat, b: nat, c: nat)
    requires a <= b <= c <= |s|
    ensures s[a..b] + s[b..c] == s[a..c]
    ensures a == 0 ==> s[..b] + s[b..c] == s[..c]
  {
  }

  lemma ScanSeesStream(buffer: seq<Byte>, total: nat, stream: seq<Byte>, start: nat)
    requires total < |buffer| && start + total <= |stream| && buffer[total] == NUL
    requires buffer[..total] == stream[start..start + total]
    ensures Contains(CString(buffer), END_OF_HEADERS) <==> Complete(stream, start, total)
  {
    assert buffer == buffer[..total] + [NUL] + buffer[total + 1..];
    CStringStops(buffer[..total], buffer[total + 1..]);
  }

  // ---------- The response ----------

  /** None of the calls of `send` from number `from` up to but not including `to` failed. */
  ghost predicate AllTaken(peer: Peer, from: nat, to: nat) {
    forall k :: from <= k < to ==> peer.sends(k) > 0
  }

  lemma TakenOn(peer: Peer, from: nat, mid: nat, to: nat)
    requires from <= mid <= to && AllTaken(peer, from, mid)
    ensures AllTaken(peer, from, to) <==> AllTaken(peer, mid, to)
  {
  }

  /** Send bytes `0 ..< n` of the buffer, however little each call takes; give up exactly when a call fails. */
  method SendAll(peer: Peer, buf: array<Byte>, n: nat) returns (ok: bool, ghost sent: nat)
    requires n <= buf.Length
    modifies peer`sendCalls, peer`wire
    ensures sent <= n && peer.wire == old(peer.wire) + buf[..sent] && (ok ==> sent == n)
    ensures peer.sendCalls >= old(peer.sendCalls) && (ok <==> AllTaken(peer, old(peer.sendCalls), peer.sendCalls))
    ensures !ok ==> peer.sendCalls > old(peer.sendCalls) && AllTaken(peer, old(peer.sendCalls), peer.sendCalls - 1)
  {
    var done := 0;
    sent := 0;
    while done < n
      invariant sent == done <= n && peer.wire == old(peer.wire) + buf[..done]
      invariant peer.sendCalls >= old(peer.sendCalls) && AllTaken(peer, old(peer.sendCalls), peer.sendCalls)
    {
      var res := peer.Send(buf[done..n]);
      if res <= 0 {
        return false, done;
      }
      assert buf[..done] + buf[done..n][..res] == buf[..done + res];
      done := done + res;
      sent := done;
    }
    ok := true;
  }

  /** The inner loop, for a buffer that holds the bytes of the file from `start` on. */
  method SendChunk(peer: Peer, buf: array<Byte>, n: nat, ghost content: seq<Byte>, ghost start: nat)
    returns (ok: bool, ghost sent: nat)
    requires n <= buf.Length && start + n <= |content| && buf[..n] == content[start..start + n]
    modifies peer`sendCalls, peer`wire
    ensures sent <= n && peer.wire == old(peer.wire) + content[start..start + sent] && (ok ==> sent == n)
    ensures peer.sendCalls >= old(peer.sendCalls) && (ok <==> AllTaken(peer, old(peer.sendCalls), peer.sendCalls))
    ensures !ok ==> peer.sendCalls > old(peer.sendCalls) && AllTaken(peer, old(peer.sendCalls), peer.sendCalls - 1)
  {
    ok, sent := SendAll(peer, buf, n);
    assert buf[..sent] == buf[..n][..sent] == content[start..start + sent];
  }

  /** The loop over the file: `sent` bytes are out and the next `n` are in the buffer; `before` was on the wire. */
  ghost predicate Underway(peer: Peer, file: File, buf: array<Byte>, n: nat, sent: nat, before: seq<Byte>, calls: nat)
    reads peer, file, buf
  {
    && file.Valid() && n <= BUFSIZE == buf.Length && sent + n == file.position
    && (n == 0 ==> sent == |file.content|) && buf[..n] == file.content[sent..sent + n]
    && peer.wire == before + file.content[..sent]
    && calls <= peer.sendCalls && AllTaken(peer, calls, peer.sendCalls)
  }

  /** The body of that loop. */
  method SendNext(peer: Peer, file: File, buf: array<Byte>, n: nat, ghost sent: nat,
                  ghost before: seq<Byte>, ghost calls: nat)
    returns (ok: bool, m: nat, ghost out: nat)
    requires Underway(peer, file, buf, n, sent, before, calls)
    modifies peer`sendCalls, peer`wire, file`position, file`calls, buf
    ensures ok ==> out == sent + n && Underway(peer, file, buf, m, out, before, calls)
    ensures !ok ==> sent <= out <= |file.content| && peer.wire == before + file.content[..out]
    ensures !ok ==> peer.sendCalls > calls && AllTaken(peer, calls, peer.sendCalls - 1)
    ensures !ok ==> !AllTaken(peer, calls, peer.sendCalls)
  {
    hide AllTaken;
    ghost var k: nat;
    ghost var start := peer.sendCalls;
    ok, k := SendChunk(peer, buf, n, file.content, sent);
    TakenOn(peer, calls, start, if ok then peer.sendCalls else peer.sendCalls - 1);
    TakenOn(peer, calls, start, peer.sendCalls);
    Adjacent(file.content, 0, sent, sent + k);
    out, m := sent + k, 0;
    if ok {
      m := file.Read(buf);
    }
  }

  /** The loop over the file. `sent` counts the body bytes that went out. */
  method SendBody(peer: Peer, file: File, buf: array<Byte>) returns (ok: bool, ghost sent: nat)
    requires file.Valid() && file.position == 0 && buf.Length == BUFSIZE
    modifies peer`sendCalls, peer`wire, file`position, file`calls, buf
    ensures sent <= |file.content| && peer.wire == old(peer.wire) + file.content[..sent]
    ensures ok ==> sent == |file.content|
    ensures peer.sendCalls >= old(peer.sendCalls) && (ok <==> AllTaken(peer, old(peer.sendCalls), peer.sendCalls))
    ensures !ok ==> peer.sendCalls > old(peer.sendCalls) && AllTaken(peer, old(peer.sendCalls), peer.sendCalls - 1)
  {
    ghost var before, calls := peer.wire, peer.sendCalls;
    ok, sent := true, 0;
    var n: nat := file.Read(buf);
    assert before + file.content[..0] == before;
    while n > 0
      invariant Underway(peer, file, buf, n, sent, before, calls)
      decreases |file.content| - sent
    {
      ok, n, sent := SendNext(peer, file, buf, n, sent, before, calls);
      if !ok {
        return;
      }
    }
    ok := true;
  }

  /** What the server sends first: one header, offered in a single call of `send`. */
  function Head(file: File?): (r: seq<Byte>)
    ensures r != []
  {
    if file == null then NOT_FOUND else OkHeader(ToInt32(|file.content|))
  }

  /** What that says: 404 for a missing file and 200 otherwise, and an empty line at some point. */
  lemma HeadSays(file: File?)
    ensures var h := Head(file);
      |h| >= 12 && ParseDigits(h[9..12]) == (if file == null then 404 else 200) && Contains(h, [13, 10, 13, 10])
  {
    NotFoundStatus();
    if file != null {
      OkStatus(ToInt32(|file.content|));
    }
  }

  /** So it does on the wire. */
  lemma WireSays(file: File?, before: seq<Byte>, header: nat, rest: seq<Byte>)
    requires header <= |Head(file)|
    ensures var wire := before + Head(file)[..header] + rest;
      && (header >= 12 ==>
            ParseDigits(wire[|before| + 9..|before| + 12]) == if file == null then 404 else 200)
      && (header == |Head(file)| ==> Contains(wire[|before|..], [13, 10, 13, 10]))
  {
    HeadSays(file);
    hide Head, ParseDigits, Contains;
    var h, wire := Head(file), before + Head(file)[..header] + rest;
    if header >= 12 {
      assert wire[|before| + 9..|before| + 12] == h[9..12];
    }
    if header == |h| {
      ContainsGrows(h, rest, [13, 10, 13, 10]);
      assert wire[|before|..] == h + rest;
    }
  }

  /** The body of `handle_connection`: what goes out, byte by byte. */
  method Respond(peer: Peer, parsed: bool, file: File?)
    returns (ret: int, ghost header: nat, ghost body: nat)
    requires peer.Valid() && (file != null ==> file.Valid() && file.position == 0)
    modifies peer`position, peer`receiveCalls, peer`sendCalls, peer`wire
    modifies (if file != null then {file} else {})`position, (if file != null then {file} else {})`calls
    ensures peer.Valid() && old(peer.position) <= peer.position && peer.sendCalls >= old(peer.sendCalls)
    ensures var arrived := Arrived(peer.stream, old(peer.position), peer.position - old(peer.position));
      && (ret == if arrived && parsed && AllTaken(peer, old(peer.sendCalls), peer.sendCalls) then 0 else -1)
      && (!arrived ==>
            && peer.receiveCalls > old(peer.receiveCalls)
            && (peer.receives(peer.receiveCalls - 1) <= 0 || peer.position == |peer.stream|))
      && header == (if arrived && parsed then Taken(peer.sends(old(peer.sendCalls)), |Head(file)|) else 0)
    ensures header == 0 || file == null ==> body == 0
    ensures body <= (if file != null then |file.content| else 0)
    ensures peer.wire ==
      old(peer.wire) + Head(file)[..header] + (if file != null then file.content[..body] else [])
    ensures ret == 0 && file != null ==> body == |file.content|
    ensures ret == 0 ==>
      (header == |Head(file)| <==> peer.sends(old(peer.sendCalls)) >= |Head(file)|)
  {
    hide Complete, OkHeader, Contains, CString, ToInt32;
    header, body := 0, 0;
    var buf := new Byte[BUFSIZE](_ => NUL);
    var received, total; ghost var checks;
    received, total, checks := ReadRequest(peer, buf);
    assert peer.wire + [] + [] == peer.wire;
    if received != 0 || !parsed {
      return -1, 0, 0;
    }
    if file == null {
      var res := peer.Send(NOT_FOUND);
      if res <= 0 {
        return -1, 0, 0;
      }
      return 0, res, 0;
    }
    var head := OkHeader(ToInt32(|file.content|));
    assert head == Head(file);
    var res := peer.Send(head);
    if res <= 0 {
      return -1, 0, 0;
    }
    header := res;
    var ok;
    ok, body := SendBody(peer, file, buf);
    ret := if ok then 0 else -1;
  }

  /**
   * `handle_connection`. `parsed` is the outcome of `sscanf`, `file` what `fopen` returns. `header` and
   * `body` count the bytes of the header and of the file that went out. It succeeds exactly if
   * the request arrived and could be parsed and no call of `send` failed; how much of the header goes
   * out is up to the first of them alone, and the result does not depend on it.
   */
  method HandleConnection(peer: Peer, parsed: bool, file: File?)
    returns (ret: int, ghost header: nat, ghost body: nat)
    requires peer.Valid() && (file != null ==> file.Valid() && file.position == 0)
    modifies peer`position, peer`receiveCalls, peer`sendCalls, peer`wire
    modifies (if file != null then {file} else {})`position, (if file != null then {file} else {})`calls
    ensures peer.Valid() && old(peer.position) <= peer.position && peer.sendCalls >= old(peer.sendCalls)
    ensures var arrived := Arrived(peer.stream, old(peer.position), peer.position - old(peer.position));
      && (ret == if arrived && parsed && AllTaken(peer, old(peer.sendCalls), peer.sendCalls) then 0 else -1)
      && (!arrived ==>
            && peer.receiveCalls > old(peer.receiveCalls)
            && (peer.receives(peer.receiveCalls - 1) <= 0 || peer.position == |peer.stream|))
      && header == (if arrived && parsed then Taken(peer.sends(old(peer.sendCalls)), |Head(file)|) else 0)
    ensures header == 0 || file == null ==> body == 0
    ensures body <= (if file != null then |file.content| else 0)
    ensures peer.wire ==
      old(peer.wire) + Head(file)[..header] + (if file != null then file.content[..body] else [])
    ensures header >= 12 ==>
      ParseDigits(peer.wire[|old(peer.wire)| + 9..|old(peer.wire)| + 12]) == if file == null then 404 else 200
    ensures header == |Head(file)| ==> Contains(peer.wire[|old(peer.wire)|..], [13, 10, 13, 10])
    ensures ret == 0 && file != null ==> body == |file.content|
    ensures ret == 0 ==>
      (header == |Head(file)| <==> peer.sends(old(peer.sendCalls)) >= |Head(file)|)
  {
    hide Complete, OkHeader, Contains, CString, ToInt32, ParseDigits, Head;
    ghost var before := peer.wire;
    ret, header, body := Respond(peer, parsed, file);
    WireSays(file, before, header, if file != null then file.content[..body] else []);
    HeadSays(file);
  }

  /**
   * What a client gets in a successful response to an existing file, if the first call of `send` may
   * move at most `limit` bytes. It is whole exactly if that covers the header, and the
   * Content-length of a whole one is true exactly if the file is shorter than two to the 31 bytes.
   */
  lemma ResponseIsHonest(content: seq<Byte>, limit: int, wire: seq<Byte>)
    requires limit > 0
    requires var whole := OkHeader(ToInt32(|content|)); wire == whole[..Taken(limit, |whole|)] + content
    ensures var whole := OkHeader(ToInt32(|content|));
      && (wire == whole + content <==> limit >= |whole|)
      && |whole| >= |OK_BEFORE| + |OK_AFTER|
      && (ContentLength(whole) == |content| <==> |content| < 0x8000_0000)
  {
    hide OkHeader, ToInt32, ContentLength;
    var whole := OkHeader(ToInt32(|content|));
    HonestLength(|content|);
    if limit < |whole| {
      assert |wire| < |whole + content|;
    }
  }

  const REQUEST: seq<Byte> := Bytes("GET a v\r\n\r\n")

  lemma RequestIsComplete()
    ensures Complete(REQUEST, 0, |REQUEST|)
  {
    assert MatchAt(REQUEST, END_OF_HEADERS, 7);
    assert NulFree(REQUEST[..7]);
    ScanExact(REQUEST);
    assert REQUEST[0..0 + |REQUEST|] == REQUEST;
  }

  /** A connection that is served with success although the client gets one byte of the header only. */
  method SplitHeader() returns (peer: Peer, file: File, ret: int)
    ensures ret == 0 && peer.stream == REQUEST && file.content == [65]
    ensures peer.wire == OkHeader(1)[..1] + [65] != OkHeader(1) + [65]
  {
    hide Complete, OkHeader;
    peer := new Peer(REQUEST, _ => BUFSIZE, k => if k == 0 then 1 else BUFSIZE);
    file := new File([65], _ => BUFSIZE);
    RequestIsComplete();
    HonestLength(1);
    ghost var header, body;
    ret, header, body := HandleConnection(peer, true, file);
    assert file.content[..1] == [65] && Head(file) == OkHeader(1);
    assert [] + OkHeader(1)[..header] + [65] == OkHeader(1)[..header] + [65];
    ResponseIsHonest([65], 1, OkHeader(1)[..1] + [65]);
  }
}
