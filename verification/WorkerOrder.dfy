/** The samples do not depend on which worker gets a packet, nor on when and in
    what order the workers run. */
module WorkerOrder {
  import opened Words
  import opened Streams
  import opened Pipeline
  import opened Delivery

  predicate WorkerAction(a: Action) {
    a.Begin? || a.Write? || a.End? || a.Clear?
  }

  /** An action without the choice of a worker. */
  function Anonymous(a: Action): Action {
    if a.Dispatch? then a.(w := 0) else a
  }

  /** What a run did apart from the workers' own steps and the choice of workers. */
  function Script(acts: seq<Action>): seq<Action> {
    if acts == [] then [] else
      var last := acts[|acts| - 1];
      Script(acts[..|acts| - 1]) + if WorkerAction(last) then [] else [Anonymous(last)]
  }

  /** The same but for the samples stored. */
  predicate OneAlike(p: Stream, q: Stream) {
    Shaped(p) && Shaped(q) && q == p.(buff := q.buff)
  }

  predicate StreamsAlike(ss: seq<Stream>, tt: seq<Stream>) {
    |ss| == |tt| && forall i | 0 <= i < |ss| :: OneAlike(ss[i], tt[i])
  }

  /** The same but for the workers and the samples stored. */
  ghost predicate Alike(s: State, t: State) {
    && WellShaped(s) && WellShaped(t)
    && t == s.(streams := t.streams, threads := t.threads)
    && |t.threads| == |s.threads| && StreamsAlike(s.streams, t.streams)
  }

  lemma OneChanged(ss: seq<Stream>, tt: seq<Stream>, i: nat, p: Stream, q: Stream)
    requires StreamsAlike(ss, tt) && i < |ss| && OneAlike(p, q)
    ensures StreamsAlike(ss[i := p], tt[i := q])
  {
    hide OneAlike;
  }

  lemma WorkerAlike(s: State, a: Action)
    requires WellShaped(s) && Enabled(s, a) && WorkerAction(a)
    ensures Alike(s, Apply(s, a))
  {
    hide JobSamples, Convert, WordAt;
  }

  /** What fill_buffers copies out does not depend on the workers either. */
  lemma CopiesAlike(st: Stream, st': Stream, log: Log, n: nat)
    requires OneAlike(st, st') && StreamOk(st, log) && StreamOk(st', log) && n <= ReadCount(st)
    ensures CopiedOut(st, n) == CopiedOut(st', n)
    ensures OneAlike(CopyOut(st, n), CopyOut(st', n))
  {
    var i, r := st.readIndex[ReadSide(st)], ReadCount(st);
    SliceHalves(st.buff[ReadSide(st)], i, n, r);
    SliceHalves(st'.buff[ReadSide(st)], i, n, r);
  }

  lemma CopyAlike(s: State, t: State)
    requires DataOk(s) && DataOk(t) && Alike(s, t) && Enabled(s, Copy) && Enabled(t, Copy)
    ensures Alike(Apply(s, Copy), Apply(t, Copy))
  {
    var i, n := s.consumer.i, s.consumer.min;
    var p, q := s.streams[i], t.streams[i];
    assert OneAlike(p, q);
    if p.valid {
      CopiesAlike(p, q, s.logs[i], n);
      OneChanged(s.streams, t.streams, i, CopyOut(p, n), CopyOut(q, n));
    }
    hide DataOk, StreamOk, CopiedOut, CopyOut, StreamsAlike, OneAlike, Shaped;
  }

  lemma DispatchAlike(s: State, t: State, a: Action, b: Action)
    requires Alike(s, t) && Enabled(s, a) && Enabled(t, b) && a.Dispatch? && Anonymous(a) == Anonymous(b)
    ensures Alike(Apply(s, a), Apply(t, b))
  {
    hide JobSamples, Convert, WordAt;
  }

  lemma OtherAlike(s: State, t: State, a: Action)
    requires Alike(s, t) && Enabled(s, a) && Enabled(t, a)
    requires !WorkerAction(a) && !a.Dispatch? && !a.Copy? && !a.Perform?
    ensures Alike(Apply(s, a), Apply(t, a))
  {
    hide Apply, Enabled, Alike;
    if a.Scan? {
      ScanAlike(s, t);
    } else if a.SetTuners? {
      TunersAlike(s, t, a);
    } else {
      NoStreamAlike(s, t, a);
    }
  }

  lemma ScanAlike(s: State, t: State)
    requires Alike(s, t) && Enabled(s, Scan) && Enabled(t, Scan)
    ensures Alike(Apply(s, Scan), Apply(t, Scan))
  {
    var i, min := s.consumer.i, s.consumer.min;
    var p, q := s.streams[i], t.streams[i];
    assert OneAlike(p, q);
    OneChanged(s.streams, t.streams, i, ScanFlip(p, min), ScanFlip(q, min));
    assert ScanMin(p, min) == ScanMin(q, min);
    hide StreamsAlike, OneAlike, Shaped, ScanMin, ScanFlip;
  }

  lemma TunersAlike(s: State, t: State, a: Action)
    requires Alike(s, t) && Enabled(s, a) && Enabled(t, a) && a.SetTuners?
    ensures Alike(Apply(s, a), Apply(t, a))
  {
  }

  lemma NoStreamAlike(s: State, t: State, a: Action)
    requires Alike(s, t) && Enabled(s, a) && Enabled(t, a)
    requires !WorkerAction(a) && !a.Dispatch? && !a.Copy? && !a.Perform? && !a.Scan? && !a.SetTuners?
    ensures Alike(Apply(s, a), Apply(t, a))
  {
    hide OneAlike, Shaped;
  }

  lemma StepAlike(s: State, t: State, a: Action, b: Action)
    requires DataOk(s) && DataOk(t) && Alike(s, t) && Enabled(s, a) && Enabled(t, b)
    requires !WorkerAction(a) && Anonymous(a) == Anonymous(b)
    ensures Alike(Apply(s, a), Apply(t, b))
  {
    AlikeShaped(s, t);
    hide DataOk, Alike, Enabled, Apply;
    if a.Copy? {
      CopyAlike(s, t);
    } else if a.Perform? {
      PerformAlike(s, t, a.buffers, a.side);
    } else if a.Dispatch? {
      DispatchAlike(s, t, a, b);
    } else {
      OtherAlike(s, t, a);
    }
  }

  lemma AlikeShaped(s: State, t: State)
    requires Alike(s, t)
    ensures WellShaped(s) && WellShaped(t)
  {
  }

  lemma PerformAlike(s: State, t: State, buffers: seq<seq<Byte>>, side: nat)
    requires Alike(s, t) && Enabled(s, Perform(buffers, side)) && Enabled(t, Perform(buffers, side))
    ensures Alike(Apply(s, Perform(buffers, side)), Apply(t, Perform(buffers, side)))
  {
    MapsAlike(s.streams, t.streams);
    hide Shaped, MapStreams, Streams.Flip, Streams.Update, StreamsAlike;
  }

  lemma MapsAlike(ss: seq<Stream>, tt: seq<Stream>)
    requires StreamsAlike(ss, tt)
    ensures StreamsAlike(MapStreams(ss, Streams.Flip), MapStreams(tt, Streams.Flip))
    ensures StreamsAlike(MapStreams(ss, Streams.Update), MapStreams(tt, Streams.Update))
  {
    forall i | 0 <= i < |ss|
      ensures OneAlike(Streams.Flip(ss[i]), Streams.Flip(tt[i]))
      ensures OneAlike(Streams.Update(ss[i]), Streams.Update(tt[i]))
    {
      assert OneAlike(ss[i], tt[i]);
      BothAlike(ss[i], tt[i]);
    }
    hide OneAlike, Streams.Flip, Streams.Update;
  }

  lemma BothAlike(p: Stream, q: Stream)
    requires OneAlike(p, q)
    ensures OneAlike(Streams.Flip(p), Streams.Flip(q)) && OneAlike(Streams.Update(p), Streams.Update(q))
  {
  }

  lemma AlikeTrans(s: State, t: State, u: State)
    requires Alike(s, t)
    ensures Alike(t, s)
    ensures Alike(t, u) ==> Alike(s, u)
  {
  }

  /** Two runs from the same state with the same script stay alike. */
  lemma {:induction false} ScriptsAlike(ss: seq<State>, acts: seq<Action>, n: nat,
                                        tt: seq<State>, bcts: seq<Action>, m: nat)
    requires Run(ss, acts) && Run(tt, bcts) && ss[0] == tt[0] && n < |ss| && m < |tt|
    requires Script(acts[..n]) == Script(bcts[..m])
    ensures Alike(ss[n], tt[m])
    decreases n + m
  {
    hide Inv, Initial, Enabled, Apply, Alike, Anonymous;
    Reachable(ss, acts, 0);
    Same(ss[0]);
    if n > 0 {
      Reachable(ss, acts, n - 1);
      assert acts[..n][..n - 1] == acts[..n - 1];
      assert Steps(ss[n - 1], acts[n - 1], ss[n - 1 + 1]);
    }
    if m > 0 {
      Reachable(tt, bcts, m - 1);
      assert bcts[..m][..m - 1] == bcts[..m - 1];
      assert Steps(tt[m - 1], bcts[m - 1], tt[m - 1 + 1]);
    }
    hide Run;
    if n > 0 && WorkerAction(acts[n - 1]) {
      ScriptsAlike(ss, acts, n - 1, tt, bcts, m);
      InvShaped(ss[n - 1]);
      WorkerAlike(ss[n - 1], acts[n - 1]);
      AlikeTrans(ss[n - 1], ss[n], tt[m]);
      AlikeTrans(ss[n], ss[n - 1], tt[m]);
    } else if m > 0 && WorkerAction(bcts[m - 1]) {
      ScriptsAlike(ss, acts, n, tt, bcts, m - 1);
      InvShaped(tt[m - 1]);
      WorkerAlike(tt[m - 1], bcts[m - 1]);
      AlikeTrans(ss[n], tt[m - 1], tt[m]);
    } else if n > 0 && m > 0 {
      var x, y := Script(acts[..n - 1]), Script(bcts[..m - 1]);
      assert x + [Anonymous(acts[n - 1])] == y + [Anonymous(bcts[m - 1])];
      LastOfEqual(x, Anonymous(acts[n - 1]), y, Anonymous(bcts[m - 1]));
      ScriptsAlike(ss, acts, n - 1, tt, bcts, m - 1);
      InvShaped(ss[n - 1]);
      InvShaped(tt[m - 1]);
      StepAlike(ss[n - 1], tt[m - 1], acts[n - 1], bcts[m - 1]);
    }
  }

  lemma LastOfEqual(x: seq<Action>, a: Action, y: seq<Action>, b: Action)
    requires x + [a] == y + [b]
    ensures x == y && a == b
  {
    assert |x| == |y|;
    assert a == (x + [a])[|x|] && b == (y + [b])[|y|];
    assert x == (x + [a])[..|x|] && y == (y + [b])[..|y|];
  }

  lemma Same(s: State)
    requires Inv(s)
    ensures Alike(s, s)
  {
    hide DataOk, ConsumerOk, MarksOk, MainOk;
  }

  /** Order independence. Take two runs from the same state that do the same
      apart from the workers' steps and the choice of workers: if no worker is
      active at their ends, they have accepted and delivered the same samples,
      have the same counts, and hold the same samples on both sides. */
  lemma OrderIrrelevant(ss: seq<State>, acts: seq<Action>, tt: seq<State>, bcts: seq<Action>, i: nat)
    requires Run(ss, acts) && Run(tt, bcts) && ss[0] == tt[0] && Script(acts) == Script(bcts)
    requires forall w | 0 <= w < |ss[|acts|].threads| :: !Active(ss[|acts|].threads[w])
    requires forall w | 0 <= w < |tt[|bcts|].threads| :: !Active(tt[|bcts|].threads[w])
    requires i < |ss[|acts|].streams|
    ensures var s, t := ss[|acts|], tt[|bcts|];
      && s.logs == t.logs && |s.logs| == |s.streams| == |t.streams|
      && SameSamples(s.streams[i], t.streams[i], s.logs[i])
  {
    hide Initial, Enabled, Apply;
    var n, m := |acts|, |bcts|;
    assert acts[..n] == acts && bcts[..m] == bcts;
    ScriptsAlike(ss, acts, n, tt, bcts, m);
    Reachable(ss, acts, n);
    Reachable(tt, bcts, m);
    hide Run, Script, ConsumerOk, MarksOk, MainOk;
    QuietAlike(ss[n], tt[m], i);
  }

  /** Two streams with the same counts and, on both sides, the same samples. */
  ghost predicate SameSamples(p: Stream, q: Stream, log: Log) {
    && Shaped(p) && Shaped(q) && StreamOk(p, log) && StreamOk(q, log)
    && p.outPointer == q.outPointer && p.outCount == q.outCount && p.readIndex == q.readIndex
    && CopiedOut(p, ReadCount(p)) == CopiedOut(q, ReadCount(q))
    && p.buff[p.outPointer][..WriteCount(p)] == q.buff[q.outPointer][..WriteCount(q)]
  }

  lemma QuietAlike(s: State, t: State, i: nat)
    requires DataOk(s) && DataOk(t) && Alike(s, t) && i < |s.streams|
    requires forall w | 0 <= w < |s.threads| :: !Active(s.threads[w])
    requires forall w | 0 <= w < |t.threads| :: !Active(t.threads[w])
    ensures SameSamples(s.streams[i], t.streams[i], s.logs[i])
  {
    AllWritten(s, i);
    AllWritten(t, i);
    var p, q := s.streams[i], t.streams[i];
    assert StreamOk(p, s.logs[i]) && StreamOk(q, t.logs[i]);
  }
}
