/** The UDP listener: a receive loop that fills one of two buffers, and hands
    the filled one over when a switch is requested. */
module Listener {
  import opened Words

  const UDP_START_INDEX: nat := 40000
  const PACKET_SIZE: nat := 100000
  const NUM_BUFFS: nat := 3200
  const LIMIT: nat := (NUM_BUFFS - 1) * PACKET_SIZE
  const CAPACITY: nat := PACKET_SIZE * NUM_BUFFS

  /** One turn of the receive loop: the bytes recv delivered, none when nothing
      was waiting, and whether a switch request was pending. */
  datatype Turn = Turn(datagram: seq<Byte>, request: bool)

  /** An answered request: the bytes handed over, and whether an O was printed. */
  datatype Reply = Reply(chunk: seq<Byte>, printedO: bool)

  /** Bytes received into the current buffer, a flush not yet reported, and the
      replies given so far. */
  datatype State = State(pending: seq<Byte>, overflow: bool, replies: seq<Reply>)

  function Next(s: State, t: Turn): State {
    var filled := s.pending + t.datagram;
    var full := t.datagram != [] && UDP_START_INDEX + |filled| >= LIMIT;
    var pending := if full then [] else filled;
    var overflow := s.overflow || full;
    if t.request then State([], false, s.replies + [Reply(pending, overflow)])
    else State(pending, overflow, s.replies)
  }

  function After(h: seq<Turn>): State {
    if h == [] then State([], false, []) else Next(After(h[..|h| - 1]), h[|h| - 1])
  }

  function Datagrams(h: seq<Turn>): seq<Byte> {
    if h == [] then [] else Datagrams(h[..|h| - 1]) + h[|h| - 1].datagram
  }

  // ---- What a run of the loop does ---------------------------------------

  /** The buffer filled up in turn j and everything in it was thrown away. */
  predicate FlushAt(h: seq<Turn>, j: nat)
    requires j < |h|
  {
    h[j].datagram != [] && UDP_START_INDEX + |After(h[..j]).pending| + |h[j].datagram| >= LIMIT
  }

  /** Turn j emptied the receive buffer: by a flush, or by handing data over. */
  predicate EmptiedAt(h: seq<Turn>, j: nat)
    requires j < |h|
  {
    FlushAt(h, j) || (h[j].request && After(h[..j]).pending + h[j].datagram != [])
  }

  /** The last time before turn n that the buffer was emptied is turn r - 1. */
  predicate LastEmptied(h: seq<Turn>, r: nat, n: nat)
    requires n <= |h|
  {
    && r <= n && (r == 0 || EmptiedAt(h, r - 1))
    && forall j | r <= j < n :: !EmptiedAt(h, j)
  }

  /** Before each recv the write index leaves room for a whole datagram. */
  lemma {:induction false} ReceiveBound(h: seq<Turn>)
    ensures UDP_START_INDEX + |After(h).pending| < LIMIT
    ensures UDP_START_INDEX + |After(h).pending| + PACKET_SIZE <= CAPACITY
  {
    if h != [] {
      ReceiveBound(h[..|h| - 1]);
    }
  }

  lemma DatagramsStep(h: seq<Turn>, r: nat, n: nat)
    requires r <= n < |h|
    ensures Datagrams(h[r..n + 1]) == Datagrams(h[r..n]) + h[n].datagram
  {
    assert h[r..n + 1][..n - r] == h[r..n];
  }

  /** What is in the receive buffer is the in-order concatenation of exactly the
      datagrams since it was last emptied. */
  lemma {:induction false} PendingSinceEmptied(h: seq<Turn>, r: nat, n: nat)
    requires n <= |h| && LastEmptied(h, r, n)
    ensures After(h[..n]).pending == Datagrams(h[r..n])
    decreases n
  {
    if n > 0 {
      AfterPrefix(h, n);
      hide After;
      if r == n {
        assert EmptiedAt(h, n - 1);
      } else {
        assert !EmptiedAt(h, n - 1);
        PendingSinceEmptied(h, r, n - 1);
        DatagramsStep(h, r, n - 1);
      }
    }
  }

  lemma AfterPrefix(h: seq<Turn>, n: nat)
    requires 0 < n <= |h|
    ensures After(h[..n]) == Next(After(h[..n - 1]), h[n - 1])
  {
    assert h[..n][..n - 1] == h[..n - 1];
  }

  /** The reply to the request served in turn i. */
  function ReplyAt(h: seq<Turn>, i: nat): Reply
    requires i < |h| && h[i].request
  {
    var s := After(h[..i + 1]);
    assert h[..i + 1][..i] == h[..i];
    s.replies[|s.replies| - 1]
  }

  /** A served request hands over exactly the datagrams received since the later
      of the last flush and the last hand-over of data; nothing if the datagram
      of that very turn filled the buffer. */
  lemma ChunkContents(h: seq<Turn>, r: nat, i: nat)
    requires i < |h| && h[i].request && LastEmptied(h, r, i)
    ensures ReplyAt(h, i).chunk == if FlushAt(h, i) then [] else Datagrams(h[r..i + 1])
  {
    assert h[..i + 1][..i] == h[..i];
    PendingSinceEmptied(h, r, i);
    DatagramsStep(h, r, i);
  }

  /** Turn p served the last request before turn n (none if p is -1). */
  predicate LastServed(h: seq<Turn>, p: int, n: nat)
    requires n <= |h|
  {
    -1 <= p < n && (p >= 0 ==> h[p].request) && forall j | p < j < n :: !h[j].request
  }

  lemma {:induction false} OverflowPending(h: seq<Turn>, p: int, n: nat)
    requires n <= |h| && LastServed(h, p, n)
    ensures After(h[..n]).overflow <==> exists j :: p < j < n && FlushAt(h, j)
    decreases n
  {
    if n > 0 {
      assert h[..n][..n - 1] == h[..n - 1];
      if p < n - 1 {
        OverflowPending(h, p, n - 1);
        assert (exists j :: p < j < n && FlushAt(h, j)) <==>
               (exists j :: p < j < n - 1 && FlushAt(h, j)) || FlushAt(h, n - 1);
      }
    }
  }

  lemma ServedReply(h: seq<Turn>, i: nat)
    requires i < |h| && h[i].request
    ensures ReplyAt(h, i).printedO <==> After(h[..i]).overflow || FlushAt(h, i)
  {
    assert h[..i + 1][..i] == h[..i];
  }

  /** An O is printed at a served request exactly when the buffer was flushed at
      least once since the request served before. */
  lemma OverflowReport(h: seq<Turn>, p: int, i: nat)
    requires i < |h| && h[i].request && LastServed(h, p, i)
    ensures ReplyAt(h, i).printedO <==> exists j :: p < j <= i && FlushAt(h, j)
  {
    assert ReplyAt(h, i).printedO <==> After(h[..i]).overflow || FlushAt(h, i) by { ServedReply(h, i); }
    hide ReplyAt, After, FlushAt;
    OverflowPending(h, p, i);
    assert (exists j :: p < j <= i && FlushAt(h, j)) <==>
           (exists j :: p < j < i && FlushAt(h, j)) || FlushAt(h, i);
  }

  function Chunks(replies: seq<Reply>): (c: seq<seq<Byte>>)
    ensures |c| == |replies|
  {
    if replies == [] then [] else Chunks(replies[..|replies| - 1]) + [replies[|replies| - 1].chunk]
  }

  /** Without a flush no byte is lost, repeated or reordered: the chunks handed
      over, followed by what is still in the buffer, are the datagrams. */
  lemma {:induction false} NothingLost(h: seq<Turn>)
    requires forall j | 0 <= j < |h| :: !FlushAt(h, j)
    ensures Flatten(Chunks(After(h).replies)) + After(h).pending == Datagrams(h)
  {
    hide Next;
    if h != [] {
      var n := |h| - 1;
      var front := h[..n];
      forall j | 0 <= j < n ensures !FlushAt(front, j) {
        assert front[..j] == h[..j];
        assert !FlushAt(h, j);
      }
      NothingLost(front);
      assert !FlushAt(h, n);
      NothingLostStep(After(front), h[n]);
    }
  }

  lemma NothingLostStep(s: State, t: Turn)
    requires t.datagram == [] || UDP_START_INDEX + |s.pending| + |t.datagram| < LIMIT
    ensures Flatten(Chunks(Next(s, t).replies)) + Next(s, t).pending ==
            Flatten(Chunks(s.replies)) + s.pending + t.datagram
  {
    var chunks := Flatten(Chunks(s.replies));
    if t.request {
      var r := Reply(s.pending + t.datagram, s.overflow);
      assert Next(s, t).replies == s.replies + [r];
      assert (s.replies + [r])[..|s.replies|] == s.replies;
      FlattenSnoc(Chunks(s.replies), r.chunk);
      assert chunks + (s.pending + t.datagram) == chunks + s.pending + t.datagram;
    } else {
      assert chunks + (s.pending + t.datagram) == chunks + s.pending + t.datagram;
    }
  }

  // ---- When a flush is necessary --------------------------------------------

  /** With this many bytes in the buffer there may not be room for another datagram. */
  predicate Crowded(bytes: nat) {
    UDP_START_INDEX + bytes + PACKET_SIZE >= CAPACITY
  }

  /** What a turn does: it flushes if and only if its datagram is not empty and
      leaves no more than one datagram's room in the allocation, and then all is
      dropped, and otherwise nothing. */
  lemma FlushesExactly(s: State, d: seq<Byte>)
    ensures Next(s, Turn(d, false)) ==
            if d != [] && Crowded(|s.pending| + |d|) then State([], true, s.replies)
            else State(s.pending + d, s.overflow, s.replies)
    ensures Next(s, Turn(d, true)) ==
            State([], false, s.replies +
                  [if d != [] && Crowded(|s.pending| + |d|) then Reply([], true) else Reply(s.pending + d, s.overflow)])
    ensures Crowded(|s.pending| + |d|) <==> |s.pending| + |d| >= 319_860_000
  {
  }

  /** The bytes received in the turns since the last answered request. */
  function SinceRequest(h: seq<Turn>): seq<Byte> {
    if h == [] then [] else
      var last := h[|h| - 1];
      if last.request then [] else SinceRequest(h[..|h| - 1]) + last.datagram
  }

  /** Nothing is ever flushed if and only if no datagram arrives that, with all
      bytes since the last answered request, crowds the buffer. */
  lemma {:induction false} NeverFlushes(h: seq<Turn>)
    ensures (forall j | 0 <= j < |h| :: !FlushAt(h, j)) <==>
            forall j | 0 <= j < |h| && h[j].datagram != [] :: !Crowded(|SinceRequest(h[..j])| + |h[j].datagram|)
  {
    hide FlushAt, SinceRequest, Crowded;
    if j: nat :| j < |h| && FlushAt(h, j) {
      var k := FirstFlush(h, j);
      FlushMeans(h, k);
    } else {
      forall j: nat | j < |h| && h[j].datagram != []
        ensures !Crowded(|SinceRequest(h[..j])| + |h[j].datagram|)
      {
        FlushMeans(h, j);
      }
    }
  }

  lemma FlushMeans(h: seq<Turn>, j: nat)
    requires j < |h| && forall i | 0 <= i < j :: !FlushAt(h, i)
    ensures FlushAt(h, j) <==> h[j].datagram != [] && Crowded(|SinceRequest(h[..j])| + |h[j].datagram|)
  {
    hide After, SinceRequest;
    PendingIsAll(h, j);
  }

  lemma {:induction false} FirstFlush(h: seq<Turn>, j: nat) returns (k: nat)
    requires j < |h| && FlushAt(h, j)
    ensures k <= j && FlushAt(h, k) && forall i | 0 <= i < k :: !FlushAt(h, i)
  {
    k := j;
    if i: nat :| i < j && FlushAt(h, i) {
      k := FirstFlush(h, i);
    }
  }

  lemma {:induction false} PendingIsAll(h: seq<Turn>, n: nat)
    requires n <= |h| && forall j | 0 <= j < n :: !FlushAt(h, j)
    ensures After(h[..n]).pending == SinceRequest(h[..n])
  {
    if n > 0 {
      PendingIsAll(h, n - 1);
      assert h[..n][..n - 1] == h[..n - 1];
      assert !FlushAt(h, n - 1);
    }
  }

  // ---- The listener object -----------------------------------------------

  class UdpListener {
    /** m_buffers[0] and m_buffers[1]. */
    const buffers: seq<array<Byte>>
    var buffPointer: nat
    var safeSide: nat
    var safeIndex: nat
    var doSwitch: bool
    /** Locals of the receive loop. */
    var curIndex: nat
    var overflow: bool
    /** What the loop has gone through so far. */
    ghost var history: seq<Turn>

    /** The object is in state s of the model. */
    ghost predicate Is(s: State)
      reads this, buffers
    {
      && |buffers| == 2 && buffers[0] != buffers[1]
      && buffers[0].Length == CAPACITY && buffers[1].Length == CAPACITY
      && buffPointer < 2 && safeSide < 2
      && UDP_START_INDEX <= curIndex < LIMIT
      && s.pending == buffers[buffPointer][UDP_START_INDEX..curIndex]
      && s.overflow == overflow
         // The last reply's bytes lie on the side the listener does not write.
      && (safeIndex > UDP_START_INDEX ==> safeSide != buffPointer)
      && (s.replies != [] ==>
            && UDP_START_INDEX <= safeIndex < LIMIT
            && buffers[safeSide][UDP_START_INDEX..safeIndex] == s.replies[|s.replies| - 1].chunk)
    }

    ghost predicate Valid()
      reads this, buffers
    {
      Is(After(history))
    }

    constructor ()
      ensures Valid() && history == [] && !doSwitch
      ensures fresh(buffers[0]) && fresh(buffers[1])
    {
      var b0 := new Byte[CAPACITY](_ => 0);
      var b1 := new Byte[CAPACITY](_ => 0);
      buffers := [b0, b1];
      buffPointer := 0;
      safeSide := 0;
      safeIndex := 0;
      doSwitch := false;
      curIndex := UDP_START_INDEX;
      overflow := false;
      history := [];
    }

    /** First half of get_buffer_list: ask for the buffers to be switched. */
    method Request()
      requires Valid()
      modifies this`doSwitch
      ensures Valid() && doSwitch
    {
      doSwitch := true;
    }

    /** recv: the datagram is written at the write index. */
    method Recv(b: array<Byte>, at: nat, datagram: seq<Byte>)
      requires UDP_START_INDEX <= at && at + |datagram| <= b.Length
      modifies b
      ensures b[..UDP_START_INDEX] == old(b[..UDP_START_INDEX])
      ensures b[UDP_START_INDEX..at + |datagram|] == old(b[UDP_START_INDEX..at]) + datagram
    {
      forall i | 0 <= i < |datagram| {
        b[at + i] := datagram[i];
      }
      assert b[UDP_START_INDEX..at + |datagram|][..at - UDP_START_INDEX] == old(b[UDP_START_INDEX..at]);
    }

    /** recv, and the check for a full buffer. */
    method Fill(datagram: seq<Byte>, ghost s: State)
      requires Is(s) && |datagram| <= PACKET_SIZE
      modifies this`curIndex, this`overflow, buffers[buffPointer]
      ensures Is(Next(s, Turn(datagram, false)))
      ensures buffers[buffPointer][..UDP_START_INDEX] == old(buffers[buffPointer][..UDP_START_INDEX])
      ensures if datagram != [] && old(curIndex) + |datagram| + PACKET_SIZE >= buffers[buffPointer].Length
              then curIndex == UDP_START_INDEX && overflow
              else curIndex == old(curIndex) + |datagram| && overflow == old(overflow)
    {
      FillNext(s, datagram, curIndex);
      hide Next;
      Recv(buffers[buffPointer], curIndex, datagram);
      if |datagram| > 0 {
        curIndex := curIndex + |datagram|;
        if curIndex >= LIMIT {
          overflow := true;
          curIndex := UDP_START_INDEX;
        }
      }
    }

    /** The part of the loop body that answers a request. */
    method Serve(ghost s: State)
      requires Is(s) && doSwitch
      modifies this`buffPointer, this`safeSide, this`safeIndex, this`doSwitch, this`curIndex, this`overflow
      ensures Is(Next(s, Turn([], true))) && !doSwitch
    {
      ServeNext(s);
      hide Next;
      if overflow {
        overflow := false;
      }
      if curIndex > UDP_START_INDEX {
        safeSide := buffPointer;
        buffPointer := 1 - buffPointer;
        safeIndex := curIndex;
        curIndex := UDP_START_INDEX;
      } else {
        safeIndex := UDP_START_INDEX;
      }
      doSwitch := false;
    }

    /** The loop body: receive, then answer a pending request. The headroom of
        the write side and the whole other side stay as they were. */
    method ReceiveAndServe(datagram: seq<Byte>, ghost s: State)
      requires Is(s) && |datagram| <= PACKET_SIZE
      modifies this`buffPointer, this`safeSide, this`safeIndex, this`doSwitch, this`curIndex,
               this`overflow, buffers[buffPointer]
      ensures Is(Next(s, Turn(datagram, old(doSwitch)))) && !doSwitch
      ensures !old(doSwitch) ==> buffPointer == old(buffPointer) && safeSide == old(safeSide)
                                 && safeIndex == old(safeIndex)
      ensures buffers[old(buffPointer)][..UDP_START_INDEX] == old(buffers[buffPointer][..UDP_START_INDEX])
      ensures buffers[1 - old(buffPointer)][..] == old(buffers[1 - buffPointer][..])
    {
      hide Next;
      Fill(datagram, s);
      ReceiveThenServe(s, datagram);
      if doSwitch {
        Serve(Next(s, Turn(datagram, false)));
      }
    }

    /** One turn of the receive loop. */
    method LoopTurn(datagram: seq<Byte>)
      requires Valid() && |datagram| <= PACKET_SIZE
      modifies this`buffPointer, this`safeSide, this`safeIndex, this`doSwitch, this`curIndex,
               this`overflow, this`history, buffers[buffPointer]
      ensures Valid() && !doSwitch
      ensures history == old(history) + [Turn(datagram, old(doSwitch))]
      ensures !old(doSwitch) ==> buffPointer == old(buffPointer) && safeSide == old(safeSide)
                                 && safeIndex == old(safeIndex)
      ensures buffers[old(buffPointer)][..UDP_START_INDEX] == old(buffers[buffPointer][..UDP_START_INDEX])
      ensures buffers[1 - old(buffPointer)][..] == old(buffers[1 - buffPointer][..])
    {
      hide After, Next;
      ghost var t := Turn(datagram, doSwitch);
      AfterStep(history, t);
      ReceiveAndServe(datagram, After(history));
      history := history + [t];
    }

    /** The receive loop over any number of datagrams, no switch being requested:
        the listener stays on its side, and never touches the other side nor the
        headroom of its own. */
    method ReceiveLoop(datagrams: seq<seq<Byte>>)
      requires Valid() && !doSwitch && forall d | d in datagrams :: |d| <= PACKET_SIZE
      modifies this`buffPointer, this`safeSide, this`safeIndex, this`doSwitch, this`curIndex,
               this`overflow, this`history, buffers[buffPointer]
      ensures Valid() && !doSwitch && |history| == old(|history|) + |datagrams|
      ensures buffPointer == old(buffPointer) && safeSide == old(safeSide) && safeIndex == old(safeIndex)
      ensures buffers[buffPointer][..UDP_START_INDEX] == old(buffers[buffPointer][..UDP_START_INDEX])
      ensures buffers[1 - buffPointer][..] == old(buffers[1 - buffPointer][..])
      ensures After(history).replies == old(After(history).replies)
    {
      hide Next;
      for i := 0 to |datagrams|
        invariant Valid() && !doSwitch && |history| == old(|history|) + i
        invariant buffPointer == old(buffPointer) && safeSide == old(safeSide) && safeIndex == old(safeIndex)
        invariant buffers[buffPointer][..UDP_START_INDEX] == old(buffers[buffPointer][..UDP_START_INDEX])
        invariant buffers[1 - buffPointer][..] == old(buffers[1 - buffPointer][..])
        invariant After(history).replies == old(After(history).replies)
      {
        AfterStep(history, Turn(datagrams[i], false));
        NoReply(After(history), datagrams[i]);
        LoopTurn(datagrams[i]);
      }
    }

    /** Second half of get_buffer_list, once the request has been served: the
        last reply's bytes, on a side the listener does not write. */
    method Collect() returns (side: nat, length: nat)
      requires Valid() && !doSwitch && After(history).replies != []
      ensures side < 2 && UDP_START_INDEX + length < LIMIT
      ensures var replies := After(history).replies;
        buffers[side][UDP_START_INDEX..UDP_START_INDEX + length] == replies[|replies| - 1].chunk
      ensures length > 0 ==> side != buffPointer
    {
      length := safeIndex - UDP_START_INDEX;
      side := safeSide;
    }
  }

  lemma FillNext(s: State, d: seq<Byte>, index: nat)
    requires index == UDP_START_INDEX + |s.pending|
    ensures Next(s, Turn(d, false)) ==
            if d != [] && index + |d| >= LIMIT then State([], true, s.replies)
            else State(s.pending + d, s.overflow, s.replies)
    ensures d == [] ==> s.pending + d == s.pending
  {
  }

  lemma ServeNext(s: State)
    ensures Next(s, Turn([], true)) == State([], false, s.replies + [Reply(s.pending, s.overflow)])
  {
    assert s.pending + [] == s.pending;
  }

  lemma NoReply(s: State, d: seq<Byte>)
    ensures Next(s, Turn(d, false)).replies == s.replies
  {
  }

  lemma ReceiveThenServe(s: State, d: seq<Byte>)
    ensures Next(s, Turn(d, true)) == Next(Next(s, Turn(d, false)), Turn([], true))
  {
    var p := Next(s, Turn(d, false)).pending;
    assert p + [] == p;
  }

  lemma AfterStep(h: seq<Turn>, t: Turn)
    ensures After(h + [t]) == Next(After(h), t)
  {
    assert (h + [t])[..|h|] == h;
  }
}
