/** What every run of the pipeline guarantees, in every interleaving of its
    threads and for any number of streams and workers. */
module Delivery {
  import opened Words
  import opened Streams
  import opened LossReports
  import opened Pipeline

  /** The state the constructor leaves. */
  ghost predicate Initial(s: State) {
    && WellShaped(s)
    && (forall i | 0 <= i < |s.streams| ::
          && s.streams[i].outCount == [0, 0] && s.streams[i].readIndex == [0, 0]
          && s.streams[i].outPointer == 0 && s.streams[i].lastCount == -1 && !s.streams[i].valid && !s.streams[i].flip
          && s.logs[i] == Log([], []))
    && (forall w | 0 <= w < |s.threads| :: s.threads[w].phase.Idle?)
    && s.consumer.AtRest? && s.main.Ready? && !s.requestFlip && !s.updating
    && s.safety == 0 && s.attempts == 0 && s.result == 0
  }

  ghost predicate Steps(s: State, a: Action, t: State) {
    WellShaped(s) && Enabled(s, a) && t == Apply(s, a)
  }

  ghost predicate Run(ss: seq<State>, acts: seq<Action>) {
    && |ss| == |acts| + 1 && Initial(ss[0])
    && forall n | 0 <= n < |acts| :: Steps(ss[n], acts[n], ss[n + 1])
  }

  lemma InitialInv(s: State)
    requires Initial(s)
    ensures Inv(s)
  {
    forall i | 0 <= i < |s.streams| ensures StreamOk(s.streams[i], s.logs[i]) {
    }
  }

  lemma {:induction false} Reachable(ss: seq<State>, acts: seq<Action>, n: nat)
    requires Run(ss, acts) && n < |ss|
    ensures Inv(ss[n])
  {
    hide Inv, Initial, Enabled, Apply;
    if n == 0 {
      InitialInv(ss[0]);
    } else {
      Reachable(ss, acts, n - 1);
      assert Steps(ss[n - 1], acts[n - 1], ss[n - 1 + 1]);
      InvStep(ss[n - 1], acts[n - 1]);
    }
  }

  ghost predicate Reached(s: State) {
    exists ss, acts :: Run(ss, acts) && ss[|acts|] == s
  }

  lemma Onward(s: State, a: Action) returns (t: State)
    requires Reached(s) && WellShaped(s) && Enabled(s, a)
    ensures t == Apply(s, a) && Reached(t)
  {
    hide Initial, Enabled, Apply, WellShaped;
    t := Apply(s, a);
    var ss, acts :| Run(ss, acts) && ss[|acts|] == s;
    forall n | 0 <= n < |acts + [a]|
      ensures Steps((ss + [t])[n], (acts + [a])[n], (ss + [t])[n + 1])
    {
      if n < |acts| {
        assert Steps(ss[n], acts[n], ss[n + 1]);
      }
    }
    assert Run(ss + [t], acts + [a]);
  }

  lemma ReachedInv(s: State)
    requires Reached(s)
    ensures Inv(s)
  {
    hide Inv, Initial, Steps;
    var ss, acts :| Run(ss, acts) && ss[|acts|] == s;
    Reachable(ss, acts, |acts|);
  }

  /** Sample conservation. In every reachable state the samples accepted for a
      stream since the last update are those delivered, then those still unread
      on the read side, then those of the write side; each slot of the write
      side holds its sample or is still owed by an active worker. */
  lemma SampleConservation(ss: seq<State>, acts: seq<Action>, n: nat, i: nat)
    requires Run(ss, acts) && n < |ss| && i < |ss[n].streams|
    ensures Inv(ss[n])
    ensures var s := ss[n]; var st, log := s.streams[i], s.logs[i];
      && st.readIndex[ReadSide(st)] + ReadCount(st) <= NUM_COMPLEX && WriteCount(st) < NUM_COMPLEX
      && |log.accepted| == |log.delivered| + ReadCount(st) + WriteCount(st)
      && log.accepted[..Base(st, log)] == log.delivered + CopiedOut(st, ReadCount(st))
      && (forall k | 0 <= k < WriteCount(st) ::
            st.buff[st.outPointer][k] == log.accepted[Base(st, log) + k] || Owed(s.threads, i, k))
      && ((forall w | 0 <= w < |s.threads| :: !Active(s.threads[w])) ==>
            log.accepted == log.delivered + CopiedOut(st, ReadCount(st)) + st.buff[st.outPointer][..WriteCount(st)])
  {
    Reachable(ss, acts, n);
    var s := ss[n];
    var st, log := s.streams[i], s.logs[i];
    assert StreamOk(st, log) && SlotsOk(st, log, s.threads, i);
    var d, b := |log.delivered|, Base(st, log);
    assert log.accepted[..b] == log.accepted[..d] + log.accepted[d..b];
    if forall w | 0 <= w < |s.threads| :: !Active(s.threads[w]) {
      AllWritten(s, i);
      assert log.accepted[b..] == st.buff[st.outPointer][..WriteCount(st)];
      assert log.accepted == log.accepted[..b] + log.accepted[b..];
    }
  }

  predicate Updates(s: State, a: Action) {
    a.Perform? && s.main.Draining? && s.main.task == DoUpdate
  }

  lemma LogsGrow(s: State, a: Action, i: nat)
    requires WellShaped(s) && Enabled(s, a) && !Updates(s, a) && i < |s.logs|
    ensures var t := Apply(s, a);
      |t.logs| == |s.logs| && s.logs[i].delivered <= t.logs[i].delivered && s.logs[i].accepted <= t.logs[i].accepted
  {
    hide JobSamples, CopiedOut, Convert, WordAt, Delivered;
  }

  /** First in, first out: between updates delivery only appends, and what has
      been delivered is always a prefix of what has been accepted, so nothing is
      lost, repeated or reordered. */
  lemma {:induction false} Fifo(ss: seq<State>, acts: seq<Action>, m: nat, n: nat, i: nat)
    requires Run(ss, acts) && m <= n < |ss| && i < |ss[m].logs|
    requires forall k | m <= k < n :: !Updates(ss[k], acts[k])
    ensures i < |ss[n].logs|
    ensures ss[m].logs[i].delivered <= ss[n].logs[i].delivered <= ss[n].logs[i].accepted
    ensures ss[m].logs[i].accepted <= ss[n].logs[i].accepted
    decreases n
  {
    hide ConsumerOk, MarksOk, MainOk, Enabled, Apply, Initial;
    Reachable(ss, acts, n);
    if m < n {
      Fifo(ss, acts, m, n - 1, i);
      Reachable(ss, acts, n - 1);
      assert Steps(ss[n - 1], acts[n - 1], ss[n - 1 + 1]);
      LogsGrow(ss[n - 1], acts[n - 1], i);
    }
    assert StreamOk(ss[n].streams[i], ss[n].logs[i]);
  }

  /** Publication safety. A flip happens with no worker active, gives up only
      sides whose samples have all been delivered, and every slot that becomes
      readable already holds the sample accepted for it. */
  lemma FlipPublishes(ss: seq<State>, acts: seq<Action>, n: nat, i: nat)
    requires Run(ss, acts) && n < |acts| && acts[n].Perform? && i < |ss[n].streams|
    requires ss[n].main.Draining? && ss[n].main.task == DoFlip
    requires ss[n].streams[i].valid && ss[n].streams[i].flip
    ensures WellShaped(ss[n]) && WellShaped(ss[n + 1]) && i < |ss[n + 1].streams|
    ensures forall w | 0 <= w < |ss[n].threads| :: !Active(ss[n].threads[w])
    ensures ReadCount(ss[n].streams[i]) == 0
    ensures var st, log := ss[n + 1].streams[i], ss[n].logs[i];
      && ReadSide(st) == ss[n].streams[i].outPointer
      && ReadCount(st) == WriteCount(ss[n].streams[i]) < NUM_COMPLEX
      && |log.delivered| <= |log.accepted|
      && st.buff[ReadSide(st)][..ReadCount(st)] == log.accepted[|log.delivered|..]
  {
    Reachable(ss, acts, n);
    var s := ss[n];
    assert Steps(s, acts[n], ss[n + 1]);
    hide ConsumerOk;
    FlippedEmpty(s, i);
    AllWritten(s, i);
    assert StreamOk(s.streams[i], s.logs[i]);
  }

  lemma FlippedEmpty(s: State, i: nat)
    requires Inv(s) && s.requestFlip && i < |s.streams| && s.streams[i].flip
    ensures ReadCount(s.streams[i]) == 0
  {
    hide DataOk;
  }

  /** What a store by worker w should do to its stream. */
  ghost predicate StoresRight(s: State, t: State, w: nat)
    requires WellShaped(s) && WellShaped(t) && w < |s.threads|
  {
    var th := s.threads[w];
    && th.job.stream < |s.streams| == |t.streams|
    && var p, q, log := s.streams[th.job.stream], t.streams[th.job.stream], s.logs[th.job.stream];
    var slot := th.job.start + th.done;
    && th.job.side == p.outPointer == q.outPointer
    && q.buff[ReadSide(q)] == p.buff[ReadSide(p)]
    && slot < WriteCount(p) < NUM_COMPLEX && Base(p, log) + slot < |log.accepted|
    && q.buff[th.job.side] == p.buff[th.job.side][slot := log.accepted[Base(p, log) + slot]]
  }

  lemma StoreStep(s: State, w: nat)
    requires Inv(s) && Enabled(s, Write(w))
    ensures StoresRight(s, Apply(s, Write(w)), w)
  {
    hide ConsumerOk, MarksOk, MainOk, StreamOk, SlotsOk, JobOk, Convert, WordAt;
    var th, rx := s.threads[w], s.rx[s.mine];
    assert ThreadOk(s, th);
    var st, log := s.streams[th.job.stream], s.logs[th.job.stream];
    hide DataOk, Inv;
    JobWithin(st, log, rx, th);
    JobWritten(st, log, rx, th, th.job.start + th.done, Convert(WordAt(rx, th.job.at + 4 * th.done)));
  }

  /** A worker never writes a side that is readable, and stores exactly the
      sample accepted for its slot. */
  lemma WritesAreUnread(ss: seq<State>, acts: seq<Action>, n: nat)
    requires Run(ss, acts) && n < |acts| && acts[n].Write?
    ensures WellShaped(ss[n]) && WellShaped(ss[n + 1]) && acts[n].w < |ss[n].threads|
    ensures StoresRight(ss[n], ss[n + 1], acts[n].w)
  {
    Reachable(ss, acts, n);
    Reachable(ss, acts, n + 1);
    assert Steps(ss[n], acts[n], ss[n + 1]);
    hide Initial, DataOk, ConsumerOk, MarksOk, MainOk, StoresRight, Apply;
    assert acts[n] == Write(acts[n].w);
    StoreStep(ss[n], acts[n].w);
  }

  /** The bounds that copying and storing need always hold: neither thread ever
      has to touch memory outside a buffer or count below zero. */
  lemma BoundsHold(ss: seq<State>, acts: seq<Action>, n: nat)
    requires Run(ss, acts) && n < |ss|
    ensures WellShaped(ss[n])
    ensures ss[n].consumer.Copying? && ss[n].consumer.i < |ss[n].streams| ==> Enabled(ss[n], Copy)
    ensures forall w | 0 <= w < |ss[n].threads| ::
      ss[n].threads[w].phase.Working? && ss[n].threads[w].done < ss[n].threads[w].job.n ==> Enabled(ss[n], Write(w))
  {
    Reachable(ss, acts, n);
    var s := ss[n];
    if s.consumer.Copying? && s.consumer.i < |s.streams| {
      assert StreamOk(s.streams[s.consumer.i], s.logs[s.consumer.i]);
    }
    hide ConsumerOk, MarksOk, StreamOk, JobOk;
    forall w | 0 <= w < |s.threads| && s.threads[w].phase.Working? && s.threads[w].done < s.threads[w].job.n
      ensures Enabled(s, Write(w))
    {
      var th := s.threads[w];
      assert ThreadOk(s, th);
      JobWithin(s.streams[th.job.stream], s.logs[th.job.stream], s.rx[s.mine], th);
    }
  }

  // ---- fill_buffers ----------------------------------------------------------

  /** When the scan is complete its minimum is the least of the asked amount and
      the valid streams' readable counts, and exactly the valid streams with
      nothing to read are marked for a flip. */
  lemma ScanResult(ss: seq<State>, acts: seq<Action>, n: nat)
    requires Run(ss, acts) && n < |acts| && acts[n] == ScanEnd
    ensures var s := ss[n];
      && WellShaped(s) && s.consumer.Scanning? && s.consumer.min <= s.consumer.count == s.asked
      && (forall j | 0 <= j < |s.streams| ::
            && (s.streams[j].valid ==> s.consumer.min <= ReadCount(s.streams[j]))
            && (s.streams[j].flip <==> s.streams[j].valid && ReadCount(s.streams[j]) == 0))
      && (s.consumer.min == s.asked ||
          exists j :: 0 <= j < |s.streams| && s.streams[j].valid && ReadCount(s.streams[j]) == s.consumer.min)
  {
    Reachable(ss, acts, n);
    hide DataOk;
    assert Steps(ss[n], acts[n], ss[n + 1]);
    var s := ss[n];
    forall j | 0 <= j < |s.streams| ensures Scanned(s.streams[j], s.consumer.min) {
    }
  }

  /** The step ends a call of fill_buffers: a call in progress, or one that comes
      back at once because an update is pending. */
  predicate Returns(s: State, a: Action, t: State) {
    t.consumer.AtRest? && (a.Enter? || !s.consumer.AtRest?)
  }

  /** Every call of fill_buffers that comes back does so with a result of at most
      the asked amount, after at most ten scans (none if it comes back
      at once, and then with 0), and during the call every valid stream has
      delivered exactly that many samples and every other stream none. */
  lemma FillBuffersResult(ss: seq<State>, acts: seq<Action>, n: nat)
    requires Run(ss, acts) && n < |acts| && Returns(ss[n], acts[n], ss[n + 1])
    ensures var t := ss[n + 1];
      && t.result <= t.asked && t.attempts <= 10
      && (acts[n].Enter? ==> t.asked == acts[n].count && t.attempts == 0 && t.result == 0)
      && (!acts[n].Enter? ==> t.asked == ss[n].asked && t.attempts >= 1)
      && |t.logs| == |t.marks| == |t.streams|
      && forall j | 0 <= j < |t.logs| ::
           |t.logs[j].delivered| == t.marks[j] + if t.streams[j].valid then t.result else 0
  {
    hide Inv, Enabled, Apply, Initial;
    Reachable(ss, acts, n);
    Reachable(ss, acts, n + 1);
    assert Steps(ss[n], acts[n], ss[n + 1]);
    ReturnStep(ss[n], acts[n]);
    InvGivesResult(ss[n + 1]);
  }

  lemma InvGivesResult(s: State)
    requires Inv(s) && s.consumer.AtRest?
    ensures WellShaped(s) && s.result <= s.asked
  {
  }

  lemma ReturnStep(s: State, a: Action)
    requires Inv(s) && Enabled(s, a) && Returns(s, a, Apply(s, a))
    ensures var t := Apply(s, a);
      && (a.Enter? ==> t.asked == a.count && t.attempts == 0 && t.result == 0)
      && (!a.Enter? ==> t.asked == s.asked && 1 <= t.attempts)
      && t.attempts <= NUM_RECURSIVE
      && |t.logs| == |t.marks| == |t.streams|
      && forall j | 0 <= j < |t.logs| ::
           |t.logs[j].delivered| == t.marks[j] + if t.streams[j].valid then t.result else 0
  {
    hide DataOk, MainOk;
    assert a.CopyEnd? || a.Resume? || a.Enter?;
  }

  /** At every entry, first or recursive, the safety count is below
      NUM_RECURSIVE, also after an early return that did not reset it. */
  lemma SafetyCount(ss: seq<State>, acts: seq<Action>, n: nat)
    requires Run(ss, acts) && n < |ss|
    ensures ss[n].safety <= NUM_RECURSIVE && ss[n].attempts <= NUM_RECURSIVE
    ensures ss[n].consumer.AtRest? ==> ss[n].safety < NUM_RECURSIVE
  {
    Reachable(ss, acts, n);
    hide DataOk;
  }

  // ---- Dispatch --------------------------------------------------------------

  datatype Range = Range(start: nat, n: nat)

  /** The ranges of stream i handed to workers in steps m to n. */
  ghost function Ranges(ss: seq<State>, acts: seq<Action>, m: nat, n: nat, i: nat): seq<Range>
    requires Run(ss, acts) && m <= n < |ss|
    decreases n
  {
    if m == n then [] else
      var before := Ranges(ss, acts, m, n - 1, i);
      if acts[n - 1].Dispatch? && acts[n - 1].i == i then
        var w := acts[n - 1].w;
        assert Steps(ss[n - 1], acts[n - 1], ss[n - 1 + 1]);
        before + [Range(ss[n].threads[w].job.start, ss[n].threads[w].job.n)]
      else before
  }

  /** Consecutive ranges from lo up to hi. */
  predicate Tile(r: seq<Range>, lo: nat, hi: nat) {
    && (r == [] ==> lo == hi)
    && (r != [] ==> r[0].start == lo && r[|r| - 1].start + r[|r| - 1].n == hi)
    && forall k | 0 < k < |r| :: r[k].start == r[k - 1].start + r[k - 1].n
  }

  lemma WriteCountKept(s: State, a: Action, i: nat)
    requires WellShaped(s) && Enabled(s, a) && i < |s.streams| && !a.Dispatch?
    requires a.Perform? ==> s.main.task == Fetch
    ensures var t := Apply(s, a);
      |t.streams| == |s.streams| && Shaped(t.streams[i]) && WriteCount(t.streams[i]) == WriteCount(s.streams[i])
  {
    hide JobSamples, CopiedOut, Convert, WordAt, Delivered;
  }

  lemma DispatchStep(s: State, a: Action, i: nat)
    requires WellShaped(s) && Enabled(s, a) && i < |s.streams|
    requires a.Perform? ==> s.main.task == Fetch
    ensures var t := Apply(s, a);
      && |t.streams| == |s.streams| && Shaped(s.streams[i]) && Shaped(t.streams[i])
      && (a.Dispatch? && a.i == i ==>
            a.w < |t.threads| && t.threads[a.w].job.start == WriteCount(s.streams[i]) &&
            WriteCount(t.streams[i]) == WriteCount(s.streams[i]) + t.threads[a.w].job.n)
      && (!(a.Dispatch? && a.i == i) ==> WriteCount(t.streams[i]) == WriteCount(s.streams[i]))
  {
    hide JobSamples, CopiedOut, Convert, WordAt, Delivered;
    if !a.Dispatch? {
      hide Apply, Enabled;
      WriteCountKept(s, a, i);
    }
  }

  /** Between flips and updates the ranges handed out are consecutive: together
      they fill exactly the gap between the two write counts, which stay below
      the buffer size. */
  lemma {:induction false} DispatchTiles(ss: seq<State>, acts: seq<Action>, m: nat, n: nat, i: nat)
    requires Run(ss, acts) && m <= n < |ss| && i < |ss[m].streams|
    requires forall k | m <= k < n :: acts[k].Perform? ==> ss[k].main.Draining? && ss[k].main.task == Fetch
    ensures i < |ss[n].streams| && WellShaped(ss[m]) && WellShaped(ss[n])
    ensures Tile(Ranges(ss, acts, m, n, i), WriteCount(ss[m].streams[i]), WriteCount(ss[n].streams[i]))
    ensures WriteCount(ss[n].streams[i]) < NUM_COMPLEX
    decreases n
  {
    hide ConsumerOk, MarksOk, MainOk, Enabled, Apply, Initial;
    Reachable(ss, acts, m);
    Reachable(ss, acts, n);
    if m < n {
      DispatchTiles(ss, acts, m, n - 1, i);
      Reachable(ss, acts, n - 1);
      assert Steps(ss[n - 1], acts[n - 1], ss[n - 1 + 1]);
      DispatchStep(ss[n - 1], acts[n - 1], i);
      var before := Ranges(ss, acts, m, n - 1, i);
      assert Tile(before, WriteCount(ss[m].streams[i]), WriteCount(ss[n - 1].streams[i]));
    }
    assert StreamOk(ss[n].streams[i], ss[n].logs[i]);
  }

  // ---- Packet loss reports -----------------------------------------------------

  /** The packet numbers accepted for stream i in steps m to n. A packet sent
      round again for lack of room is no step, and so is counted once. */
  ghost function Numbers(ss: seq<State>, acts: seq<Action>, m: nat, n: nat, i: nat): seq<int>
    requires Run(ss, acts) && m <= n < |ss|
    decreases n
  {
    if m == n then [] else
      Numbers(ss, acts, m, n - 1, i) +
      if acts[n - 1].Dispatch? && acts[n - 1].i == i then [acts[n - 1].number] else []
  }

  /** Whether each of those steps prints an L: the check the main loop makes. */
  ghost function Printed(ss: seq<State>, acts: seq<Action>, m: nat, n: nat, i: nat): seq<bool>
    requires Run(ss, acts) && m <= n < |ss|
    decreases n
  {
    if m == n then [] else
      assert Steps(ss[n - 1], acts[n - 1], ss[n - 1 + 1]);
      Printed(ss, acts, m, n - 1, i) +
      if acts[n - 1].Dispatch? && acts[n - 1].i == i
      then [Expected(ss[n - 1].streams[i].lastCount, acts[n - 1].number, MAX_PACKET_COUNT) != acts[n - 1].number]
      else []
  }

  lemma CounterStep(s: State, a: Action, i: nat)
    requires WellShaped(s) && Enabled(s, a) && i < |s.streams| && !Updates(s, a)
    ensures var t := Apply(s, a);
      && |t.streams| == |s.streams|
      && t.streams[i].lastCount == if a.Dispatch? && a.i == i then a.number else s.streams[i].lastCount
  {
    hide JobSamples, CopiedOut, Convert, WordAt, Delivered;
  }

  /** Between updates the L reports of a stream are those of its counter over
      exactly the packets accepted, whatever else happens in between. */
  lemma {:induction false} PacketLossReports(ss: seq<State>, acts: seq<Action>, m: nat, n: nat, i: nat)
    requires Run(ss, acts) && m <= n < |ss| && i < |ss[m].streams|
    requires forall k | m <= k < n :: !Updates(ss[k], acts[k])
    ensures i < |ss[n].streams|
    ensures var last := ss[m].streams[i].lastCount;
      && Printed(ss, acts, m, n, i) == Reports(last, Numbers(ss, acts, m, n, i), MAX_PACKET_COUNT)
      && ss[n].streams[i].lastCount == LastOf(last, Numbers(ss, acts, m, n, i))
    decreases n
  {
    hide Enabled, Apply, Initial, WellShaped, Reports, Expected;
    if m == n {
      NoReports(ss[m].streams[i].lastCount);
    } else {
      PacketLossReports(ss, acts, m, n - 1, i);
      assert Steps(ss[n - 1], acts[n - 1], ss[n - 1 + 1]);
      CounterStep(ss[n - 1], acts[n - 1], i);
      var before := Numbers(ss, acts, m, n - 1, i);
      if acts[n - 1].Dispatch? && acts[n - 1].i == i {
        ReportsSnoc(ss[m].streams[i].lastCount, before, acts[n - 1].number, MAX_PACKET_COUNT);
      } else {
        assert before + [] == before;
      }
    }
  }

  lemma NoReports(last: int)
    ensures Reports(last, [], MAX_PACKET_COUNT) == []
  {
  }

  /** Since the start, or since an update, an L is printed for exactly those
      packets accepted for the stream that are not the first and do not follow
      the one before modulo 16. */
  lemma PacketLossSinceUpdate(ss: seq<State>, acts: seq<Action>, m: nat, n: nat, i: nat, k: nat)
    requires Run(ss, acts) && m <= n < |ss| && i < |ss[m].streams|
    requires m == 0 || Updates(ss[m - 1], acts[m - 1])
    requires forall j | m <= j < n :: !Updates(ss[j], acts[j])
    requires Counts(Numbers(ss, acts, m, n, i), MAX_PACKET_COUNT)
    requires k < |Numbers(ss, acts, m, n, i)|
    ensures |Printed(ss, acts, m, n, i)| == |Numbers(ss, acts, m, n, i)|
    ensures var c := Numbers(ss, acts, m, n, i);
      Printed(ss, acts, m, n, i)[k] <==> k > 0 && c[k] != (c[k - 1] + 1) % 16
  {
    hide Enabled, Apply, Initial, Reports, Numbers, Printed, WellShaped;
    CounterReset(ss, acts, m, i);
    PacketLossReports(ss, acts, m, n, i);
    ReportsExactly(Numbers(ss, acts, m, n, i), MAX_PACKET_COUNT, k);
  }

  lemma CounterReset(ss: seq<State>, acts: seq<Action>, m: nat, i: nat)
    requires Run(ss, acts) && m < |ss| && i < |ss[m].streams|
    requires m == 0 || Updates(ss[m - 1], acts[m - 1])
    ensures ss[m].streams[i].lastCount == -1
  {
    if m > 0 {
      assert Steps(ss[m - 1], acts[m - 1], ss[m - 1 + 1]);
    }
  }

  // ---- update_tuners ------------------------------------------------------------

  lemma TunersPending(s: State, a: Action)
    requires WellShaped(s) && Enabled(s, a) && s.updating && !Updates(s, a)
    ensures var t := Apply(s, a);
      && t.updating && |t.streams| == |s.streams|
      && forall i | 0 <= i < |s.streams| ::
           t.streams[i].validSafe == s.streams[i].validSafe && t.streams[i].valid == s.streams[i].valid
  {
    hide JobSamples, CopiedOut, Convert, WordAt, Delivered;
  }

  /** A call of update_tuners takes effect at the next update as a whole, and
      not before: until then validity is as it was, then it is what was asked. */
  lemma {:induction false} TunersTakeEffect(ss: seq<State>, acts: seq<Action>, m: nat, n: nat)
    requires Run(ss, acts) && m < n < |ss| && acts[m].SetTuners?
    requires forall k | m < k < n :: !Updates(ss[k], acts[k])
    ensures ss[n].updating && |ss[n].streams| == |ss[m].streams| == |acts[m].valid|
    ensures forall i | 0 <= i < |ss[n].streams| ::
      ss[n].streams[i].valid == ss[m].streams[i].valid && ss[n].streams[i].validSafe == acts[m].valid[i]
    ensures n < |acts| && Updates(ss[n], acts[n]) ==>
      && |ss[n + 1].streams| == |acts[m].valid|
      && forall i | 0 <= i < |ss[n + 1].streams| :: ss[n + 1].streams[i].valid == acts[m].valid[i]
    decreases n
  {
    hide Enabled, Apply, Initial, WellShaped;
    if n == m + 1 {
      assert Steps(ss[m], acts[m], ss[m + 1]);
      TunersSet(ss[m], acts[m]);
    } else {
      TunersTakeEffect(ss, acts, m, n - 1);
      assert Steps(ss[n - 1], acts[n - 1], ss[n - 1 + 1]);
      TunersPending(ss[n - 1], acts[n - 1]);
    }
    if n < |acts| && Updates(ss[n], acts[n]) {
      assert Steps(ss[n], acts[n], ss[n + 1]);
      UpdateApplies(ss[n], acts[n]);
    }
  }

  lemma TunersSet(s: State, a: Action)
    requires WellShaped(s) && Enabled(s, a) && a.SetTuners?
    ensures var t := Apply(s, a);
      && t.updating && |t.streams| == |s.streams| == |a.valid|
      && forall i | 0 <= i < |s.streams| ::
           t.streams[i].validSafe == a.valid[i] && t.streams[i].valid == s.streams[i].valid
  {
  }

  lemma UpdateApplies(s: State, a: Action)
    requires WellShaped(s) && Enabled(s, a) && Updates(s, a)
    ensures var t := Apply(s, a);
      && |t.streams| == |s.streams|
      && forall i | 0 <= i < |s.streams| :: t.streams[i].valid == s.streams[i].validSafe
  {
  }
}
