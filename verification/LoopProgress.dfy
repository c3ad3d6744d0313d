/** The packet loop gets through all its packets, unless one has to wait for room. */
module LoopProgress {
  import opened Words
  import opened Streams
  import opened Reassembly
  import opened Pipeline
  import opened Delivery
  import opened PacketLoop
  import Progress
  import VrtPacket

  /** All chunks have been fetched and all their packets looked at. */
  predicate Finished(chunks: seq<seq<Byte>>, d: Loop) {
    d.fetched == |chunks| && d.todo == []
  }

  /** The packet next in turn is a data packet of a valid stream that lacks room, or
      one that the code looks up beyond the array of streams. */
  predicate Halted(d: Loop) {
    && WellShaped(d.p) && d.p.main.Ready? && d.todo != [] && d.todo[0].header.ptype == 1
    && d.todo[0].id <= |d.p.streams|
    && (d.todo[0].id < |d.p.streams| ==>
          var st := d.p.streams[d.todo[0].id];
          st.valid && st.outCount[st.outPointer] + Count(d.todo[0]) >= |st.buff[st.outPointer]|)
  }

  /** Moves of the pipeline's own threads. */
  predicate OwnMove(m: Move) {
    m.Skip? || (!m.a.Enter? && !m.a.SetTuners? && !m.a.Listen?)
  }

  // ---- What lies ahead -----------------------------------------------------------

  function MainLeft(s: State): nat {
    match s.main
    case Ready => |s.threads| + 2
    case Draining(k, task) =>
      (if task == Fetch then 0 else |s.threads| + 3) + if k < |s.threads| then |s.threads| - k else 0
  }

  /** The worker the main loop waits for, or would wait for. */
  function WorkAhead(s: State): nat {
    var v := if s.main.Draining? && s.main.k < |s.threads| then s.main.k else 0;
    if v < |s.threads| then Progress.WorkLeft(s.threads[v]) else 0
  }

  /** e is nearer to the end than d: fewer chunks to fetch, then fewer packets to
      look at, then less to do for the main loop, the worker and the consumer. */
  predicate Nearer(e: Loop, d: Loop) {
    || e.fetched > d.fetched
    || (e.fetched == d.fetched &&
        (|| |e.todo| < |d.todo|
         || (|e.todo| == |d.todo| &&
             (|| MainLeft(e.p) < MainLeft(d.p)
              || (MainLeft(e.p) == MainLeft(d.p) &&
                  (|| WorkAhead(e.p) < WorkAhead(d.p)
                   || (WorkAhead(e.p) == WorkAhead(d.p) &&
                       Progress.Lower(Progress.RankOf(e.p), Progress.RankOf(d.p)))))))))
  }

  ghost predicate GoesOn(chunks: seq<seq<Byte>>, d: Loop, m: Move, e: Loop) {
    OwnMove(m) && Moves(chunks, d, m, e) && |e.p.threads| == |d.p.threads| && Nearer(e, d)
  }

  lemma WorkerGoesOn(chunks: seq<seq<Byte>>, d: Loop, w: nat) returns (m: Move, e: Loop)
    requires Inv(d.p) && w < |d.p.threads| && !d.p.threads[w].phase.Idle?
    requires w == if d.p.main.Draining? && d.p.main.k < |d.p.threads| then d.p.main.k else 0
    ensures GoesOn(chunks, d, m, e)
  {
    hide Inv, Enabled, Apply, Progress.WorkLeft, Progress.RankOf;
    var a := Progress.WorkerMoves(d.p, w);
    InvShaped(d.p);
    OwnThread(d.p, a);
    m, e := Act(a), d.(p := Apply(d.p, a));
  }

  /** A step that leaves the main loop where it is needs nothing from the packets. */
  lemma OwnThread(s: State, a: Action)
    requires WellShaped(s) && Enabled(s, a) && Apply(s, a).main == s.main
    ensures !a.Drain? && !a.Perform?
  {
  }

  /** The consumer goes on when an update has to wait for it. */
  lemma ConsumerGoesOn(chunks: seq<seq<Byte>>, d: Loop) returns (m: Move, e: Loop)
    requires Inv(d.p) && !d.p.consumer.AtRest? && !d.p.consumer.Awaiting?
    ensures GoesOn(chunks, d, m, e)
  {
    hide Inv, Enabled, Apply, Progress.WorkLeft, Progress.RankOf, Progress.Lower;
    var a := Progress.ConsumerMoves(d.p);
    InvShaped(d.p);
    ConsumerAlone(d.p, a);
    m, e := Act(a), d.(p := Apply(d.p, a));
  }

  lemma ConsumerAlone(s: State, a: Action)
    requires WellShaped(s) && Enabled(s, a) && !OtherThread(a)
    ensures Apply(s, a).main == s.main && Apply(s, a).threads == s.threads
  {
    hide CopiedOut, Delivered;
  }

  /** The main loop starts to wait for its workers, finds one idle, or acts. */
  lemma MainGoesOn(chunks: seq<seq<Byte>>, d: Loop) returns (m: Move, e: Loop)
    requires WellShaped(d.p) && if d.p.main.Ready? then d.todo == [] else
      && d.p.main.k <= |d.p.threads|
      && (d.p.main.k < |d.p.threads| ==> d.p.threads[d.p.main.k].phase.Idle?)
      && (d.p.main.k == |d.p.threads| ==> d.p.main.task != Fetch)
      && (d.p.main.task == DoUpdate ==> d.p.consumer.AtRest? || d.p.consumer.Awaiting?)
    ensures GoesOn(chunks, d, m, e)
  {
    hide Progress.WorkLeft, Progress.RankOf, Progress.Lower;
    var s := d.p;
    var a := if s.main.Ready? then Drain(Fetch)
             else if s.main.k < |s.threads| then Check else Perform(s.rx, s.mine);
    var t := Apply(s, a);
    m, e := Act(a), d.(p := t, from := if Updates(s, a) then d.to else d.from);
  }

  /** The next chunk, with the tail in front of it, is taken over. */
  lemma FetchGoesOn(fs: seq<seq<Byte>>, chunks: seq<seq<Byte>>, d: Loop) returns (m: Move, e: Loop)
    requires CleanChunks(fs, chunks) && OnCourse(chunks, d) && d.fetched < |chunks|
    requires d.p.main == Draining(|d.p.threads|, Fetch)
    ensures GoesOn(chunks, d, m, e)
  {
    hide Feed, Consume, CleanChunks, Inside, Items, LoopOk, Enabled, Apply, Inv, WellShaped, Prepared, Parcels, Nearer;
    var rx := NextBuffer(fs, chunks, d);
    var tail, c := Feed([], chunks[..d.fetched]).tail, chunks[d.fetched];
    var a := Perform([rx, []], 0);
    CourseShaped(chunks, d);
    FetchEnabled(d.p, a);
    var t := Apply(d.p, a);
    e := if c == [] then d.(p := t, fetched := d.fetched + 1)
         else Loop(t, d.fetched + 1, Items(Consume(tail + c).frames, UDP_START_INDEX - |tail|), d.from, d.to);
    m := Act(a);
    MoreFetched(d, e);
  }

  lemma MoreFetched(d: Loop, e: Loop)
    requires e.fetched > d.fetched
    ensures Nearer(e, d)
  {
  }

  lemma CourseShaped(chunks: seq<seq<Byte>>, d: Loop)
    requires OnCourse(chunks, d)
    ensures WellShaped(d.p)
  {
  }

  lemma NextBuffer(fs: seq<seq<Byte>>, chunks: seq<seq<Byte>>, d: Loop) returns (rx: seq<Byte>)
    requires CleanChunks(fs, chunks) && OnCourse(chunks, d) && d.fetched < |chunks|
    ensures var c := chunks[d.fetched]; c != [] ==>
      Prepared(rx, Feed([], chunks[..d.fetched]).tail, c) && |Feed([], chunks[..d.fetched]).tail| <= UDP_START_INDEX
      && forall f | f in Consume(Feed([], chunks[..d.fetched]).tail + c).frames :: Inside(f)
  {
    hide Feed, Consume, CleanChunks, Inside, OnCourse;
    rx := [];
    if chunks[d.fetched] != [] {
      ChunkReady(fs, chunks, d.fetched);
      var tail, c := Feed([], chunks[..d.fetched]).tail, chunks[d.fetched];
      rx := Padded(tail) + (tail + c);
      BehindPad(Padded(tail), tail + c, |tail|);
    }
  }

  lemma BehindPad(pad: seq<Byte>, b: seq<Byte>, n: nat)
    requires |pad| + n == UDP_START_INDEX && n <= |b|
    ensures (pad + b)[UDP_START_INDEX - n..UDP_START_INDEX + (|b| - n)] == b
  {
  }

  function Padded(tail: seq<Byte>): (pad: seq<Byte>)
    requires |tail| <= UDP_START_INDEX
    ensures |pad| == UDP_START_INDEX - |tail|
  {
    seq(UDP_START_INDEX - |tail|, _ => 0)
  }

  lemma FetchEnabled(s: State, a: Action)
    requires WellShaped(s) && s.main == Draining(|s.threads|, Fetch) && a.Perform? && |a.buffers| == 2 && a.side < 2
    ensures Enabled(s, a) && |Apply(s, a).threads| == |s.threads|
  {
  }

  lemma SkipGoesOn(chunks: seq<seq<Byte>>, d: Loop) returns (m: Move, e: Loop)
    requires WellShaped(d.p) && d.p.main.Ready? && d.todo != [] && Skippable(d.p, d.todo[0])
    ensures GoesOn(chunks, d, m, e)
  {
    m, e := Skip, d.(todo := d.todo[1..], to := d.to + 1);
  }

  lemma DispatchGoesOn(fs: seq<seq<Byte>>, chunks: seq<seq<Byte>>, d: Loop) returns (m: Move, e: Loop)
    requires CleanChunks(fs, chunks) && OnCourse(chunks, d) && WellShaped(d.p)
    requires d.p.main.Ready? && d.todo != [] && !Skippable(d.p, d.todo[0]) && !Halted(d)
    requires |d.p.threads| > 0 && d.p.threads[0].phase.Idle?
    ensures GoesOn(chunks, d, m, e)
  {
    hide Feed, Consume, CleanChunks, Inside, OnCourse, Inv, Count, JobSamples, Enabled, Apply, Nearer;
    var item := d.todo[0];
    var a := Dispatch(item.id, 0, item.at, Count(item), item.header.count);
    CanDispatch(fs, chunks, d);
    DispatchThreads(d.p, a);
    m, e := Act(a), d.(p := Apply(d.p, a), todo := d.todo[1..], to := d.to + 1);
    assert Nearer(e, d) by { FewerLeft(d, e); }
  }

  lemma FewerLeft(d: Loop, e: Loop)
    requires e.fetched == d.fetched && |e.todo| < |d.todo|
    ensures Nearer(e, d)
  {
  }

  lemma CanDispatch(fs: seq<seq<Byte>>, chunks: seq<seq<Byte>>, d: Loop)
    requires CleanChunks(fs, chunks) && OnCourse(chunks, d) && WellShaped(d.p)
    requires d.p.main.Ready? && d.todo != [] && !Skippable(d.p, d.todo[0]) && !Halted(d)
    requires |d.p.threads| > 0 && d.p.threads[0].phase.Idle?
    ensures var item := d.todo[0];
      Enabled(d.p, Dispatch(item.id, 0, item.at, Count(item), item.header.count))
  {
    hide Feed, Consume, CleanChunks, Inside, OnCourse, Inv, Count, JobSamples, Enabled, Apply;
    NothingHeldBack(fs, chunks, d, 0);
  }

  lemma DispatchThreads(s: State, a: Action)
    requires WellShaped(s) && Enabled(s, a) && a.Dispatch?
    ensures |Apply(s, a).threads| == |s.threads|
  {
    hide JobSamples;
  }

  /** Unless all is done or the packet next in turn has to wait, one of the threads
      can move, and the loop is nearer to its end. */
  lemma NextGoesOn(fs: seq<seq<Byte>>, chunks: seq<seq<Byte>>, d: Loop) returns (m: Move, e: Loop)
    requires CleanChunks(fs, chunks) && OnCourse(chunks, d) && |d.p.threads| > 0
    requires !Finished(chunks, d) && !Halted(d)
    ensures GoesOn(chunks, d, m, e) && OnCourse(chunks, e)
  {
    hide CleanChunks, GoesOn, Halted, Feed, Parcels, Inside, Skippable, Inv, AllCarried, Accounted;
    var s := d.p;
    var k := if s.main.Draining? && s.main.k < |s.threads| then s.main.k else 0;
    MainPlace(s);
    if s.main.Ready? && d.todo != [] && Skippable(s, d.todo[0]) {
      m, e := SkipGoesOn(chunks, d);
    } else if !s.threads[k].phase.Idle? && (s.main.Draining? ==> k == s.main.k) && (s.main.Ready? ==> d.todo != []) {
      m, e := WorkerGoesOn(chunks, d, k);
    } else if s.main.Ready? && d.todo != [] {
      m, e := DispatchGoesOn(fs, chunks, d);
    } else if s.main == Draining(|s.threads|, Fetch) {
      m, e := FetchGoesOn(fs, chunks, d);
    } else if s.main.Draining? && s.main.task == DoUpdate && !s.consumer.AtRest? && !s.consumer.Awaiting? {
      m, e := ConsumerGoesOn(chunks, d);
    } else {
      m, e := MainGoesOn(chunks, d);
    }
    assert Moves(chunks, d, m, e) by { MovesOf(chunks, d, m, e); }
    MoveKeeps(fs, chunks, d, m, e);
  }

  lemma MovesOf(chunks: seq<seq<Byte>>, d: Loop, m: Move, e: Loop)
    requires GoesOn(chunks, d, m, e)
    ensures Moves(chunks, d, m, e)
  {
  }

  lemma MainPlace(s: State)
    requires Inv(s)
    ensures WellShaped(s) && (s.main.Draining? ==> s.main.k <= |s.threads|)
  {
  }

  // ---- To the end -----------------------------------------------------------------

  ghost predicate LoopPath(chunks: seq<seq<Byte>>, ds: seq<Loop>, ms: seq<Move>) {
    && |ds| == |ms| + 1
    && forall n | 0 <= n < |ms| :: OwnMove(ms[n]) && Moves(chunks, ds[n], ms[n], ds[n + 1])
  }

  lemma {:induction false} LoopEnds(fs: seq<seq<Byte>>, chunks: seq<seq<Byte>>, d: Loop)
      returns (ds: seq<Loop>, ms: seq<Move>)
    requires CleanChunks(fs, chunks) && OnCourse(chunks, d) && |d.p.threads| > 0
    ensures LoopPath(chunks, ds, ms) && ds[0] == d
    ensures Finished(chunks, ds[|ms|]) || Halted(ds[|ms|])
    decreases |chunks| - d.fetched, |d.todo|, MainLeft(d.p), WorkAhead(d.p), Progress.RankOf(d.p).tries,
              Progress.RankOf(d.p).part, Progress.RankOf(d.p).streams, Progress.RankOf(d.p).flip,
              Progress.RankOf(d.p).main, Progress.RankOf(d.p).workers, Progress.RankOf(d.p).work
  {
    hide CleanChunks, Halted, Moves, LoopOk, Inside, Feed, MainLeft, WorkAhead, Progress.RankOf, OwnMove;
    if Finished(chunks, d) || Halted(d) {
      ds, ms := [d], [];
    } else {
      var m, e := NextGoesOn(fs, chunks, d);
      ds, ms := LoopEnds(fs, chunks, e);
      ds, ms := Before(chunks, d, m, ds, ms);
    }
  }

  lemma Before(chunks: seq<seq<Byte>>, d: Loop, m: Move, ds: seq<Loop>, ms: seq<Move>)
      returns (ds': seq<Loop>, ms': seq<Move>)
    requires LoopPath(chunks, ds, ms) && OwnMove(m) && Moves(chunks, d, m, ds[0])
    ensures ds' == [d] + ds && ms' == [m] + ms && LoopPath(chunks, ds', ms')
  {
    hide Moves, OwnMove;
    ds', ms' := [d] + ds, [m] + ms;
    forall n | 0 <= n < |ms'|
      ensures OwnMove(ms'[n]) && Moves(chunks, ds'[n], ms'[n], ds'[n + 1])
    {
      if n > 0 {
        assert OwnMove(ms[n - 1]) && Moves(chunks, ds[n - 1], ms[n - 1], ds[n - 1 + 1]);
      }
    }
  }

  lemma Behind(chunks: seq<seq<Byte>>, ds: seq<Loop>, ms: seq<Move>, es: seq<Loop>, ns: seq<Move>)
    requires LoopRun(chunks, ds, ms) && LoopPath(chunks, es, ns) && es[0] == ds[|ms|]
    ensures LoopRun(chunks, ds + es[1..], ms + ns)
  {
    hide Moves, OwnMove, Initial;
    var all, both := ds + es[1..], ms + ns;
    forall n | 0 <= n < |both|
      ensures Moves(chunks, all[n], both[n], all[n + 1])
    {
      if n < |ms| {
        assert Moves(chunks, ds[n], ms[n], ds[n + 1]);
      } else {
        var k := n - |ms|;
        assert all[n] == es[k] && all[n + 1] == es[k + 1];
        assert Moves(chunks, es[k], ns[k], es[k + 1]);
      }
    }
  }

  /** With a worker at least, every run of the packet loop has a finite continuation,
      by moves of the pipeline's own threads alone, in which all chunks are fetched
      and all packets of the frames in them looked at, or that comes to a packet
      which has to wait for room in a valid stream. */
  lemma LoopGoesOn(fs: seq<seq<Byte>>, chunks: seq<seq<Byte>>, ds: seq<Loop>, ms: seq<Move>)
      returns (es: seq<Loop>, ns: seq<Move>)
    requires CleanChunks(fs, chunks) && LoopRun(chunks, ds, ms) && |ds[|ms|].p.threads| > 0
    ensures LoopPath(chunks, es, ns) && es[0] == ds[|ms|] && LoopRun(chunks, ds + es[1..], ms + ns)
    ensures var d := es[|ns|];
      || Halted(d)
      || (Finished(chunks, d) && d.to <= |Sent(fs)| &&
          var k := |Feed([], chunks).frames|; k <= |fs| && Sent(fs)[..d.to] == Sent(fs[..k]))
  {
    hide CleanChunks, Moves, OwnMove, Initial, Halted, OnCourse, Feed, Parcels, FoundAll, Inside, WellFormed;
    StaysOnCourse(fs, chunks, ds, ms, |ms|);
    es, ns := LoopEnds(fs, chunks, ds[|ms|]);
    Behind(chunks, ds, ms, es, ns);
    if Finished(chunks, es[|ns|]) {
      var all := ds + es[1..];
      assert all[|ms| + |ns|] == es[|ns|];
      StaysOnCourse(fs, chunks, all, ms + ns, |ms| + |ns|);
      LookedAt(fs, chunks, es[|ns|]);
      assert chunks[..|chunks|] == chunks;
    }
  }

  /** A packet only has to wait if it is too short for its own fields, or if with it
      a whole buffer of samples has come for its stream since the last update. */
  lemma HaltedMeans(fs: seq<seq<Byte>>, chunks: seq<seq<Byte>>, d: Loop)
    requires CleanChunks(fs, chunks) && OnCourse(chunks, d) && Halted(d)
    requires d.todo[0].id < |d.p.streams|
    ensures d.to < |Sent(fs)| && Sent(fs)[d.to].header == d.todo[0].header
    ensures VrtPacket.WellSized(d.todo[0].header) ==>
      |SamplesFor(Sent(fs)[d.from..d.to + 1], d.todo[0].id)| >= 20_000_000
  {
    hide CleanChunks, OnCourse, Inv, WellFormed, Sent, SamplesFor, VrtPacket.WellSized, Count, Carries, Accounted;
    NextParcel(fs, chunks, d);
    var i, item, parcel := d.todo[0].id, d.todo[0], Sent(fs)[d.to];
    WrittenWithin(d.p, i);
    CarriesCount(d.p.rx[d.p.mine], item, parcel);
    SamplesForMore(Sent(fs), d.from, d.to, i);
    AcceptedCount(d.p, Sent(fs)[d.from..d.to], i);
  }

  lemma NextParcel(fs: seq<seq<Byte>>, chunks: seq<seq<Byte>>, d: Loop)
    requires CleanChunks(fs, chunks) && OnCourse(chunks, d) && d.todo != []
    ensures (forall f | f in fs :: WellFormed(f)) && Inv(d.p) && WellShaped(d.p)
    ensures d.from <= d.to < |Sent(fs)| && Carries(d.p.rx[d.p.mine], d.todo[0], Sent(fs)[d.to])
    ensures Accounted(d.p, Sent(fs)[d.from..d.to])
  {
    hide Inside, Inv, WellFormed, Sent, Carries, Accounted, Feed, Parcels;
    LookedAt(fs, chunks, d);
    NextCarried(d.p.rx[d.p.mine], d.todo, ParcelsBy(chunks, d.fetched), d.to);
  }

  lemma CarriesCount(rx: seq<Byte>, item: Item, p: Parcel)
    requires Carries(rx, item, p)
    ensures item.header == p.header && item.id == p.id
    ensures VrtPacket.WellSized(p.header) ==> |p.samples| == Count(item)
  {
    hide VrtPacket.WellSized, Count;
  }

  lemma AcceptedCount(s: State, ps: seq<Parcel>, i: nat)
    requires Accounted(s, ps) && i < |s.streams| && s.streams[i].valid
    ensures |s.logs| == |s.streams| && s.logs[i].accepted == SamplesFor(ps, i)
  {
    hide SamplesFor;
  }

  lemma WrittenWithin(s: State, i: nat)
    requires Inv(s) && i < |s.streams|
    ensures WellShaped(s)
    ensures s.streams[i].outCount[s.streams[i].outPointer] <= |s.logs[i].accepted|
    ensures |s.streams[i].buff[s.streams[i].outPointer]| == NUM_COMPLEX
  {
    assert StreamOk(s.streams[i], s.logs[i]);
  }
}
