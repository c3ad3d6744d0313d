/** The sample pipeline as a system of threads: the consumer in fill_buffers, the
    main loop that dispatches packets, any number of workers, the listener, and
    calls of update_tuners. Each action is one atomic step of one thread. */
module Pipeline {
  import opened Words
  import opened Streams
  import opened TaskWorker

  const NUM_RECURSIVE: nat := 10

  /** What a worker was given: n payload words at byte `at` of the receive
      buffer, for the slots from `start` of one side of a stream. */
  datatype Job = Job(stream: nat, side: nat, start: nat, at: nat, n: nat)

  datatype Thread = Thread(phase: Phase, job: Job, done: nat)

  /** Since the last update: samples of accepted packets, samples delivered. */
  datatype Log = Log(accepted: seq<Sample>, delivered: seq<Sample>)

  datatype Consumer = AtRest | Scanning(i: nat, min: nat, count: nat) | Awaiting(count: nat)
                    | Copying(i: nat, min: nat, count: nat)

  /** Why the main loop waits for its workers. */
  datatype Task = DoFlip | DoUpdate | Fetch

  datatype MainLoop = Ready | Draining(k: nat, task: Task)

  /** rx holds the listener's two buffers; the main loop and the workers use
      side `mine`. `attempts` counts the scans of the current fill_buffers call,
      `result` is what the last call returned, `asked` what it was asked for, and
      `marks` how many samples of each stream had been delivered before it. */
  datatype State = State(streams: seq<Stream>, logs: seq<Log>, threads: seq<Thread>,
                         rx: seq<seq<Byte>>, mine: nat,
                         consumer: Consumer, main: MainLoop,
                         requestFlip: bool, updating: bool,
                         safety: nat, attempts: nat, result: nat, asked: nat, marks: seq<nat>)

  datatype Action =
    | Enter(count: nat) | Scan | ScanEnd | Resume | Copy | CopyEnd
    | SetTuners(valid: seq<bool>)
    | Drain(task: Task) | Check | Perform(buffers: seq<seq<Byte>>, side: nat)
    | Dispatch(i: nat, w: nat, at: nat, n: nat, number: int)
    | Listen(data: seq<Byte>)
    | Begin(w: nat) | Write(w: nat) | End(w: nat) | Clear(w: nat)

  predicate WellShaped(s: State) {
    && |s.logs| == |s.streams| && |s.rx| == 2 && s.mine < 2
    && (forall i | 0 <= i < |s.streams| :: Shaped(s.streams[i]))
  }

  /** A worker between wake_up_thread and the end of its task. */
  predicate Active(t: Thread) {
    t.phase == Called || t.phase == Working
  }

  // ---- Steps --------------------------------------------------------------

  predicate Enabled(s: State, a: Action)
    requires WellShaped(s)
  {
    match a
    case Enter(_) => s.consumer.AtRest?
    case Scan => s.consumer.Scanning? && s.consumer.i < |s.streams|
    case ScanEnd => s.consumer.Scanning? && s.consumer.i == |s.streams|
    case Resume => s.consumer.Awaiting? && !s.requestFlip
    case Copy => s.consumer.Copying? && s.consumer.i < |s.streams| &&
      (s.streams[s.consumer.i].valid ==>
         var st := s.streams[s.consumer.i];
         s.consumer.min <= ReadCount(st) && st.readIndex[ReadSide(st)] + s.consumer.min <= NUM_COMPLEX)
    case CopyEnd => s.consumer.Copying? && s.consumer.i == |s.streams|
    case SetTuners(valid) => !s.updating && |valid| == |s.streams|
    case Drain(task) => s.main.Ready? && (task == DoFlip ==> s.requestFlip) && (task == DoUpdate ==> s.updating)
    case Check => s.main.Draining? && s.main.k < |s.threads| && s.threads[s.main.k].phase == Idle
    case Perform(buffers, side) => s.main.Draining? && s.main.k == |s.threads| &&
      // An update never falls between a scan and the end of its copies.
      (s.main.task == DoUpdate ==> s.consumer.AtRest? || s.consumer.Awaiting?) &&
      |buffers| == 2 && side < 2
    case Dispatch(i, w, at, n, _) =>
      && s.main.Ready? && i < |s.streams| && s.streams[i].valid && HasRoom(s.streams[i], n)
      && w < |s.threads| && s.threads[w].phase == Idle && at + 4 * n <= |s.rx[s.mine]|
    case Listen(_) => true
    case Begin(w) => w < |s.threads| && s.threads[w].phase == Called
    case Write(w) => w < |s.threads| && s.threads[w].phase == Working &&
      var t := s.threads[w];
      && t.done < t.job.n && t.job.stream < |s.streams| && t.job.side < 2
      && t.job.start + t.done < NUM_COMPLEX && t.job.at + 4 * t.job.n <= |s.rx[s.mine]|
    case End(w) => w < |s.threads| && s.threads[w].phase == Working && s.threads[w].done == s.threads[w].job.n
    case Clear(w) => w < |s.threads| && s.threads[w].phase == Done
  }

  function MapStreams(ss: seq<Stream>, f: Stream --> Stream): (r: seq<Stream>)
    requires forall s | s in ss :: f.requires(s)
    ensures |r| == |ss| && forall i | 0 <= i < |ss| :: r[i] == f(ss[i])
  {
    seq(|ss|, i requires 0 <= i < |ss| => f(ss[i]))
  }

  function Delivered(logs: seq<Log>): (r: seq<nat>)
    ensures |r| == |logs|
  {
    seq(|logs|, i requires 0 <= i < |logs| => |logs[i].delivered|)
  }

  /** The start of fill_buffers, first or recursive call. */
  function Attempt(s: State, count: nat): State {
    if s.updating then s.(consumer := AtRest, result := 0)
    else s.(safety := s.safety + 1, attempts := s.attempts + 1, consumer := Scanning(0, count, count))
  }

  function Apply(s: State, a: Action): State
    requires WellShaped(s) && Enabled(s, a)
  {
    match a
    case Enter(count) => Attempt(s.(attempts := 0, asked := count, marks := Delivered(s.logs)), count)
    case Scan =>
      var Scanning(i, min, count) := s.consumer;
      s.(streams := s.streams[i := ScanFlip(s.streams[i], min)],
         consumer := Scanning(i + 1, ScanMin(s.streams[i], min), count))
    case ScanEnd =>
      if s.consumer.min == 0 then s.(requestFlip := true, consumer := Awaiting(s.consumer.count))
      else s.(consumer := Copying(0, s.consumer.min, s.consumer.count))
    case Resume =>
      if s.safety < NUM_RECURSIVE then Attempt(s, s.consumer.count)
      else s.(safety := 0, consumer := AtRest, result := 0)
    case Copy =>
      var Copying(i, min, count) := s.consumer;
      var next := s.(consumer := Copying(i + 1, min, count));
      if s.streams[i].valid then
        next.(streams := s.streams[i := CopyOut(s.streams[i], min)],
              logs := s.logs[i := s.logs[i].(delivered := s.logs[i].delivered + CopiedOut(s.streams[i], min))])
      else next
    case CopyEnd => s.(safety := 0, consumer := AtRest, result := s.consumer.min)
    case SetTuners(valid) =>
      s.(updating := true,
         streams := seq(|s.streams|, i requires 0 <= i < |s.streams| => s.streams[i].(validSafe := valid[i])))
    case Drain(task) => s.(main := Draining(0, task))
    case Check => s.(main := s.main.(k := s.main.k + 1))
    case Perform(buffers, side) => PerformTask(s.(main := Ready), s.main.task, buffers, side)
    case Dispatch(i, w, at, n, number) =>
      var st := s.streams[i];
      s.(streams := s.streams[i := Accept(st, n, number)],
         logs := s.logs[i := s.logs[i].(accepted := s.logs[i].accepted + JobSamples(s.rx[s.mine], at, n))],
         threads := s.threads[w := Thread(Called, Job(i, st.outPointer, WriteCount(st), at, n), 0)])
    case Listen(data) => s.(rx := s.rx[1 - s.mine := data])
    case Begin(w) => s.(threads := s.threads[w := s.threads[w].(phase := Working)])
    case Write(w) =>
      var t := s.threads[w];
      var x := Convert(WordAt(s.rx[s.mine], t.job.at + 4 * t.done));
      s.(streams := s.streams[t.job.stream := Put(s.streams[t.job.stream], t.job.side, t.job.start + t.done, x)],
         threads := s.threads[w := t.(done := t.done + 1)])
    case End(w) => s.(threads := s.threads[w := s.threads[w].(phase := Done)])
    case Clear(w) => s.(threads := s.threads[w := s.threads[w].(phase := Idle)])
  }

  /** What the main loop does once no worker is active. Fetching swaps the
      receive buffers and copies the saved tail in. */
  function PerformTask(s: State, task: Task, buffers: seq<seq<Byte>>, side: nat): State
    requires WellShaped(s) && |buffers| == 2 && side < 2
  {
    match task
    case DoFlip => s.(streams := MapStreams(s.streams, Streams.Flip), requestFlip := false)
    case DoUpdate => s.(streams := MapStreams(s.streams, Streams.Update),
                        logs := seq(|s.logs|, _ => Log([], [])),
                        marks := seq(|s.logs|, _ => 0), updating := false)
    case Fetch => s.(rx := buffers, mine := side)
  }

  // ---- Invariant -----------------------------------------------------------

  /** Delivered samples are a prefix of the accepted ones, the unread part of the
      read side comes next, and the rest is assigned to the write side. */
  ghost predicate StreamOk(st: Stream, log: Log)
    requires Shaped(st)
  {
    var d := |log.delivered|;
    && |log.accepted| == d + ReadCount(st) + WriteCount(st)
    && log.delivered == log.accepted[..d]
    && st.readIndex[ReadSide(st)] + ReadCount(st) <= NUM_COMPLEX
    && WriteCount(st) < NUM_COMPLEX
    && CopiedOut(st, ReadCount(st)) == log.accepted[d..d + ReadCount(st)]
  }

  /** Position in the accepted samples of slot 0 of the write side. */
  ghost function Base(st: Stream, log: Log): nat
    requires Shaped(st)
  {
    |log.delivered| + ReadCount(st)
  }

  /** An active worker writes only the write side of its stream, within what was
      accepted, and what it will store is what was accepted for those slots. */
  ghost predicate JobOk(st: Stream, log: Log, rx: seq<Byte>, t: Thread)
    requires Shaped(st)
  {
    var j := t.job;
    && StreamOk(st, log)
    && j.side == st.outPointer && j.start + j.n <= WriteCount(st)
    && t.done <= j.n && (t.phase == Called ==> t.done == 0)
    && j.at + 4 * j.n <= |rx|
    && JobSamples(rx, j.at, j.n) == log.accepted[Base(st, log) + j.start..Base(st, log) + j.start + j.n]
  }

  ghost predicate ThreadOk(s: State, t: Thread)
    requires WellShaped(s)
  {
    Active(t) ==>
      t.job.stream < |s.streams| && JobOk(s.streams[t.job.stream], s.logs[t.job.stream], s.rx[s.mine], t)
  }

  predicate Apart(t: Thread, u: Thread) {
    Active(t) && Active(u) && t.job.stream == u.job.stream ==>
      t.job.start + t.job.n <= u.job.start || u.job.start + u.job.n <= t.job.start
  }

  /** Worker t has yet to write slot k of stream i. */
  predicate Owes(t: Thread, i: nat, k: nat) {
    Active(t) && t.job.stream == i && t.job.start + t.done <= k < t.job.start + t.job.n
  }

  ghost predicate Owed(threads: seq<Thread>, i: nat, k: nat) {
    exists w :: 0 <= w < |threads| && Owes(threads[w], i, k)
  }

  /** Every slot below the write count holds its sample or is owed by a worker. */
  ghost predicate SlotsOk(st: Stream, log: Log, threads: seq<Thread>, i: nat)
    requires Shaped(st) && StreamOk(st, log)
  {
    forall k | 0 <= k < WriteCount(st) ::
      st.buff[st.outPointer][k] == log.accepted[Base(st, log) + k] || Owed(threads, i, k)
  }

  /** The consumer's place in its scan or its copies agrees with the streams. */
  ghost predicate ConsumerOk(s: State)
    requires WellShaped(s)
  {
    && (s.requestFlip ==> s.consumer.Awaiting?)
    && match s.consumer
       case AtRest => s.safety < NUM_RECURSIVE && s.attempts <= NUM_RECURSIVE && s.result <= s.asked
       case Scanning(i, min, count) =>
         && i <= |s.streams| && min <= count && count == s.asked
         && 1 <= s.attempts <= s.safety <= NUM_RECURSIVE
         && (forall j | 0 <= j < i :: Scanned(s.streams[j], min))
         && (min < count ==> exists j :: 0 <= j < i && s.streams[j].valid && ReadCount(s.streams[j]) == min)
       case Awaiting(count) =>
         && count == s.asked && 1 <= s.attempts <= s.safety <= NUM_RECURSIVE
         && (forall j | 0 <= j < |s.streams| :: s.streams[j].flip ==> ReadCount(s.streams[j]) == 0)
       case Copying(i, min, count) =>
         && i <= |s.streams| && 0 < min <= count && count == s.asked
         && 1 <= s.attempts <= s.safety <= NUM_RECURSIVE
         && forall j | i <= j < |s.streams| :: s.streams[j].valid ==> min <= ReadCount(s.streams[j])
  }

  /** A scanned stream: not below the minimum, and marked as it should be. */
  predicate Scanned(st: Stream, min: nat)
    requires Shaped(st)
  {
    (st.valid ==> min <= ReadCount(st)) && st == Marked(st)
  }

  /** Samples taken from stream j since the current fill_buffers call began. */
  predicate MarksOk(s: State)
    requires WellShaped(s)
  {
    !s.consumer.AtRest? ==>
      && |s.marks| == |s.logs|
      && forall j | 0 <= j < |s.logs| ::
           |s.logs[j].delivered| == s.marks[j] +
             if s.consumer.Copying? && j < s.consumer.i && s.streams[j].valid then s.consumer.min else 0
  }

  ghost predicate MainOk(s: State) {
    s.main.Draining? ==>
      && s.main.k <= |s.threads|
      && (forall w | 0 <= w < s.main.k :: s.threads[w].phase == Idle)
      && (s.main.task == DoFlip ==> s.requestFlip)
      && (s.main.task == DoUpdate ==> s.updating)
  }

  /** The samples are where they should be. */
  ghost predicate DataOk(s: State) {
    && WellShaped(s)
    && (forall i | 0 <= i < |s.streams| :: StreamOk(s.streams[i], s.logs[i]))
    && (forall i | 0 <= i < |s.streams| :: SlotsOk(s.streams[i], s.logs[i], s.threads, i))
    && (forall w | 0 <= w < |s.threads| :: ThreadOk(s, s.threads[w]))
    && (forall v, w | 0 <= v < w < |s.threads| :: Apart(s.threads[v], s.threads[w]))
  }

  ghost predicate Inv(s: State) {
    WellShaped(s) && DataOk(s) && ConsumerOk(s) && MarksOk(s) && MainOk(s)
  }

  lemma InvShaped(s: State)
    requires Inv(s)
    ensures WellShaped(s) && DataOk(s)
  {
  }

  // ---- One stream at a time --------------------------------------------------

  /** Fields the samples do not depend on may change. */
  lemma StreamSame(st: Stream, log: Log, st': Stream, threads: seq<Thread>, i: nat)
    requires Shaped(st) && StreamOk(st, log) && SlotsOk(st, log, threads, i)
    requires st' == st.(flip := st'.flip, validSafe := st'.validSafe)
    ensures StreamOk(st', log) && Base(st', log) == Base(st, log) && SlotsOk(st', log, threads, i)
  {
    assert CopiedOut(st', ReadCount(st)) == CopiedOut(st, ReadCount(st));
  }

  /** Storing a sample on the write side leaves the read side alone. */
  lemma StreamPut(st: Stream, log: Log, slot: nat, x: Sample)
    requires Shaped(st) && StreamOk(st, log) && slot < NUM_COMPLEX
    ensures var st' := Put(st, st.outPointer, slot, x);
      && StreamOk(st', log) && Base(st', log) == Base(st, log)
      && CopiedOut(st', ReadCount(st)) == CopiedOut(st, ReadCount(st))
  {
    var st' := Put(st, st.outPointer, slot, x);
    assert CopiedOut(st', ReadCount(st)) == CopiedOut(st, ReadCount(st));
  }

  lemma StreamAccept(st: Stream, log: Log, xs: seq<Sample>, number: int)
    requires Shaped(st) && StreamOk(st, log) && HasRoom(st, |xs|)
    ensures var st', log' := Accept(st, |xs|, number), log.(accepted := log.accepted + xs);
      && StreamOk(st', log') && Base(st', log') == Base(st, log)
      && log'.accepted[Base(st, log) + WriteCount(st)..Base(st, log) + WriteCount(st')] == xs
      && forall i, j | 0 <= i <= j <= |log.accepted| :: log'.accepted[i..j] == log.accepted[i..j]
  {
    var st', log' := Accept(st, |xs|, number), log.(accepted := log.accepted + xs);
    GrowKeeps(log.accepted, xs);
    assert CopiedOut(st', ReadCount(st)) == CopiedOut(st, ReadCount(st));
    var d := |log.delivered|;
    assert log'.accepted[0..d] == log.accepted[0..d];
  }

  lemma GrowKeeps(a: seq<Sample>, xs: seq<Sample>)
    ensures forall i, j | 0 <= i <= j <= |a| :: (a + xs)[i..j] == a[i..j]
    ensures (a + xs)[|a|..|a| + |xs|] == xs
  {
  }

  lemma StreamCopy(st: Stream, log: Log, n: nat)
    requires Shaped(st) && StreamOk(st, log) && n <= ReadCount(st)
    ensures var st', log' := CopyOut(st, n), log.(delivered := log.delivered + CopiedOut(st, n));
      StreamOk(st', log') && Base(st', log') == Base(st, log)
  {
    var st', log' := CopyOut(st, n), log.(delivered := log.delivered + CopiedOut(st, n));
    var d, r, i := |log.delivered|, ReadCount(st), st.readIndex[ReadSide(st)];
    var buf, acc := st.buff[ReadSide(st)], log.accepted;
    assert buf[i..i + r] == acc[d..d + r];
    hide Shaped;
    TakeBoth(buf, i, acc, d, n, r);
    assert log'.delivered == acc[..d + n];
    assert CopiedOut(st', r - n) == buf[i + n..i + r];
  }

  /** Taking n from the front of two equal slices. */
  lemma TakeBoth(buf: seq<Sample>, i: nat, acc: seq<Sample>, d: nat, n: nat, r: nat)
    requires n <= r && i + r <= |buf| && d + r <= |acc| && buf[i..i + r] == acc[d..d + r]
    ensures acc[..d] + buf[i..i + n] == acc[..d + n]
    ensures buf[i + n..i + r] == acc[d + n..d + r]
  {
    SliceHalves(buf, i, n, r);
    SliceHalves(acc, d, n, r);
    JoinSlices(acc, 0, d, d + n);
  }

  /** Swapping in a fully written side: it becomes readable as a whole. */
  lemma {:induction false} StreamFlip(st: Stream, log: Log)
    requires Shaped(st) && StreamOk(st, log) && (st.flip ==> ReadCount(st) == 0)
    requires forall k | 0 <= k < WriteCount(st) ::
      st.buff[st.outPointer][k] == log.accepted[Base(st, log) + k]
    ensures StreamOk(Streams.Flip(st), log)
    ensures st.valid && st.flip ==> WriteCount(Streams.Flip(st)) == 0
  {
    if st.valid && st.flip {
      var st' := Streams.Flip(st);
      var d, c := |log.delivered|, WriteCount(st);
      assert CopiedOut(st', c) == st.buff[st.outPointer][0..c];
      assert log.accepted[d..d + c] == st.buff[st.outPointer][0..c];
    }
  }

  // ---- Every step keeps the data right -------------------------------------

  lemma DataSame(s: State, t: State)
    requires DataOk(s)
    requires t.streams == s.streams && t.logs == s.logs && t.threads == s.threads
    requires t.mine == s.mine && |t.rx| == 2 && t.rx[s.mine] == s.rx[s.mine]
    ensures DataOk(t)
  {
    hide StreamOk, SlotsOk, JobOk;
    forall w | 0 <= w < |t.threads| ensures ThreadOk(t, t.threads[w]) {
      assert ThreadOk(s, s.threads[w]);
    }
  }

  /** Streams change only in fields that the samples do not depend on. */
  lemma DataSameSides(s: State, t: State)
    requires DataOk(s) && WellShaped(t)
    requires |t.streams| == |s.streams|
    requires forall i | 0 <= i < |s.streams| ::
      t.streams[i] == s.streams[i].(flip := t.streams[i].flip, validSafe := t.streams[i].validSafe)
    requires t.logs == s.logs && t.threads == s.threads && t.rx == s.rx && t.mine == s.mine
    ensures DataOk(t)
  {
    hide SlotsOk;
    forall i | 0 <= i < |t.streams|
      ensures StreamOk(t.streams[i], t.logs[i]) && SlotsOk(t.streams[i], t.logs[i], t.threads, i)
    {
      StreamSame(s.streams[i], s.logs[i], t.streams[i], s.threads, i);
    }
    forall w | 0 <= w < |t.threads| ensures ThreadOk(t, t.threads[w]) {
      assert ThreadOk(s, s.threads[w]);
    }
  }

  /** A change of the threads that lets no owed slot drop out. */
  lemma SlotsKept(st: Stream, log: Log, before: seq<Thread>, after: seq<Thread>, i: nat)
    requires Shaped(st) && StreamOk(st, log) && SlotsOk(st, log, before, i)
    requires |after| == |before|
    requires forall w, k | 0 <= w < |before| && Owes(before[w], i, k) :: Owes(after[w], i, k)
    ensures SlotsOk(st, log, after, i)
  {
    hide StreamOk, Owes;
    forall k | 0 <= k < WriteCount(st) && Owed(before, i, k)
      ensures Owed(after, i, k)
    {
      var w :| 0 <= w < |before| && Owes(before[w], i, k);
      assert Owes(after[w], i, k);
    }
  }

  /** A worker moves on without writing, and owes the same slots or none. */
  lemma DataThread(s: State, t: State, w: nat)
    requires DataOk(s) && w < |s.threads| && |t.threads| == |s.threads|
    requires t == s.(threads := s.threads[w := t.threads[w]])
    requires Active(t.threads[w]) ==>
      Active(s.threads[w]) && t.threads[w].job == s.threads[w].job && t.threads[w].done == s.threads[w].done == 0
    requires Active(s.threads[w]) && !Active(t.threads[w]) ==> s.threads[w].done == s.threads[w].job.n
    ensures DataOk(t)
  {
    hide StreamOk, SlotsOk;
    forall i | 0 <= i < |t.streams|
      ensures SlotsOk(t.streams[i], t.logs[i], t.threads, i)
    {
      SlotsKept(s.streams[i], s.logs[i], s.threads, t.threads, i);
    }
    forall v | 0 <= v < |t.threads| ensures ThreadOk(t, t.threads[v]) {
      assert ThreadOk(s, s.threads[v]);
    }
    forall u, v | 0 <= u < v < |t.threads| ensures Apart(t.threads[u], t.threads[v]) {
      assert Apart(s.threads[u], s.threads[v]);
    }
  }

  /** The stream a worker has just stored a sample in. */
  lemma SlotsWritten(st: Stream, log: Log, before: seq<Thread>, w: nat, x: Sample)
    requires Shaped(st) && StreamOk(st, log) && w < |before|
    requires before[w].phase == Working && before[w].done < before[w].job.n
    requires SlotsOk(st, log, before, before[w].job.stream)
    requires before[w].job.start + before[w].job.n <= WriteCount(st)
    requires x == log.accepted[Base(st, log) + before[w].job.start + before[w].done]
    ensures var slot := before[w].job.start + before[w].done;
      var st' := Put(st, st.outPointer, slot, x);
      StreamOk(st', log) && Base(st', log) == Base(st, log) &&
      SlotsOk(st', log, before[w := before[w].(done := before[w].done + 1)], before[w].job.stream)
  {
    var i, slot := before[w].job.stream, before[w].job.start + before[w].done;
    var after := before[w := before[w].(done := before[w].done + 1)];
    var st' := Put(st, st.outPointer, slot, x);
    StreamPut(st, log, slot, x);
    hide StreamOk;
    forall k | 0 <= k < WriteCount(st') && k != slot && Owed(before, i, k)
      ensures Owed(after, i, k)
    {
      var v :| 0 <= v < |before| && Owes(before[v], i, k);
      assert Owes(after[v], i, k);
    }
  }

  /** The sample a worker stores next is the one accepted for its slot. */
  lemma NextSample(st: Stream, log: Log, rx: seq<Byte>, t: Thread)
    requires Shaped(st) && JobOk(st, log, rx, t) && t.done < t.job.n
    ensures t.job.at + 4 * t.job.n <= |rx| && Base(st, log) + t.job.start + t.job.n <= |log.accepted|
    ensures Convert(WordAt(rx, t.job.at + 4 * t.done)) == log.accepted[Base(st, log) + t.job.start + t.done]
  {
    hide Convert, WordAt, CopiedOut;
    var from := Base(st, log) + t.job.start;
    assert JobSamples(rx, t.job.at, t.job.n)[t.done] == log.accepted[from..from + t.job.n][t.done];
  }

  /** Storing a sample upsets no job, and the worker's own may go on. */
  lemma JobWritten(st: Stream, log: Log, rx: seq<Byte>, t: Thread, slot: nat, x: Sample)
    requires Shaped(st) && JobOk(st, log, rx, t) && slot < NUM_COMPLEX
    ensures JobOk(Put(st, st.outPointer, slot, x), log, rx, t)
    ensures t.phase.Working? && t.done < t.job.n ==>
      && JobOk(Put(st, st.outPointer, slot, x), log, rx, t.(done := t.done + 1))
      && t.job.at + 4 * t.job.n <= |rx| && Base(st, log) + t.job.start + t.job.n <= |log.accepted|
      && Convert(WordAt(rx, t.job.at + 4 * t.done)) == log.accepted[Base(st, log) + t.job.start + t.done]
  {
    hide StreamOk, JobSamples, Convert, WordAt, Base;
    StreamPut(st, log, slot, x);
    if t.done < t.job.n {
      NextSample(st, log, rx, t);
    }
  }

  /** A worker stores one sample. */
  lemma DataWrite(s: State, w: nat)
    requires DataOk(s) && Enabled(s, Write(w))
    ensures DataOk(Apply(s, Write(w)))
  {
    hide StreamOk, SlotsOk, JobOk, Convert, WordAt;
    var t := Apply(s, Write(w));
    var th := s.threads[w];
    var j, rx := th.job, s.rx[s.mine];
    assert ThreadOk(s, th);
    var st, log := s.streams[j.stream], s.logs[j.stream];
    JobWithin(st, log, rx, th);
    var slot, x := j.start + th.done, Convert(WordAt(rx, j.at + 4 * th.done));
    JobWritten(st, log, rx, th, slot, x);
    SlotsWritten(st, log, s.threads, w, x);
    forall i | 0 <= i < |t.streams|
      ensures StreamOk(t.streams[i], t.logs[i]) && SlotsOk(t.streams[i], t.logs[i], t.threads, i)
    {
      if i != j.stream {
        SlotsKept(s.streams[i], s.logs[i], s.threads, t.threads, i);
      }
    }
    forall v | 0 <= v < |t.threads| ensures ThreadOk(t, t.threads[v]) {
      assert ThreadOk(s, s.threads[v]);
      if Active(s.threads[v]) && s.threads[v].job.stream == j.stream {
        JobWritten(st, log, rx, s.threads[v], slot, x);
      }
    }
    forall u, v | 0 <= u < v < |t.threads| ensures Apart(t.threads[u], t.threads[v]) {
      assert Apart(s.threads[u], s.threads[v]);
    }
  }

  lemma JobWithin(st: Stream, log: Log, rx: seq<Byte>, t: Thread)
    requires Shaped(st) && JobOk(st, log, rx, t)
    ensures t.job.side == st.outPointer && t.job.start + t.job.n <= WriteCount(st) < NUM_COMPLEX
    ensures t.done <= t.job.n && t.job.at + 4 * t.job.n <= |rx|
    ensures |log.accepted| == Base(st, log) + WriteCount(st)
  {
  }

  /** The stream a packet has just been accepted for. */
  lemma SlotsAccepted(st: Stream, log: Log, xs: seq<Sample>, number: int,
                      before: seq<Thread>, w: nat, job: Job)
    requires Shaped(st) && StreamOk(st, log) && HasRoom(st, |xs|) && w < |before|
    requires SlotsOk(st, log, before, job.stream) && before[w].phase == Idle
    requires job.start == WriteCount(st) && job.n == |xs|
    ensures var st', log' := Accept(st, |xs|, number), log.(accepted := log.accepted + xs);
      StreamOk(st', log') && Base(st', log') == Base(st, log) &&
      SlotsOk(st', log', before[w := Thread(Called, job, 0)], job.stream)
  {
    var st', log' := Accept(st, |xs|, number), log.(accepted := log.accepted + xs);
    var after := before[w := Thread(Called, job, 0)];
    StreamAccept(st, log, xs, number);
    forall k | 0 <= k < WriteCount(st')
      ensures st'.buff[st'.outPointer][k] == log'.accepted[Base(st', log') + k] || Owed(after, job.stream, k)
    {
      if k >= WriteCount(st) {
        assert Owes(after[w], job.stream, k);
      } else if Owed(before, job.stream, k) {
        var v :| 0 <= v < |before| && Owes(before[v], job.stream, k);
        assert Owes(after[v], job.stream, k);
      }
    }
  }

  /** A job handed out earlier is not affected by a later packet. */
  lemma JobAccepted(st: Stream, log: Log, xs: seq<Sample>, number: int, rx: seq<Byte>, t: Thread)
    requires Shaped(st) && StreamOk(st, log) && HasRoom(st, |xs|) && JobOk(st, log, rx, t)
    ensures var st', log' := Accept(st, |xs|, number), log.(accepted := log.accepted + xs);
      JobOk(st', log', rx, t)
  {
    StreamAccept(st, log, xs, number);
  }

  /** A packet is accepted and handed to an idle worker. */
  lemma DataDispatch(s: State, i: nat, w: nat, at: nat, n: nat, number: int)
    requires DataOk(s) && Enabled(s, Dispatch(i, w, at, n, number))
    ensures DataOk(Apply(s, Dispatch(i, w, at, n, number)))
  {
    var t := Apply(s, Dispatch(i, w, at, n, number));
    var st, log := s.streams[i], s.logs[i];
    var xs := JobSamples(s.rx[s.mine], at, n);
    var job := t.threads[w].job;
    StreamAccept(st, log, xs, number);
    SlotsAccepted(st, log, xs, number, s.threads, w, job);
    hide StreamOk, SlotsOk;
    forall m | 0 <= m < |t.streams|
      ensures StreamOk(t.streams[m], t.logs[m]) && SlotsOk(t.streams[m], t.logs[m], t.threads, m)
    {
      if m != i {
        SlotsKept(s.streams[m], s.logs[m], s.threads, t.threads, m);
      }
    }
    forall v | 0 <= v < |t.threads| ensures ThreadOk(t, t.threads[v]) {
      assert ThreadOk(s, s.threads[v]);
      if v != w && Active(t.threads[v]) && t.threads[v].job.stream == i {
        JobAccepted(st, log, xs, number, s.rx[s.mine], s.threads[v]);
      }
    }
    forall u, v | 0 <= u < v < |t.threads| ensures Apart(t.threads[u], t.threads[v]) {
      assert Apart(s.threads[u], s.threads[v]);
      assert ThreadOk(s, s.threads[u]) && ThreadOk(s, s.threads[v]);
    }
  }

  /** fill_buffers takes samples from one stream. */
  lemma DataCopy(s: State)
    requires DataOk(s) && Enabled(s, Copy)
    ensures DataOk(Apply(s, Copy))
  {
    var t := Apply(s, Copy);
    var i, min := s.consumer.i, s.consumer.min;
    if !s.streams[i].valid {
      DataSame(s, t);
      return;
    }
    hide StreamOk, SlotsOk, JobOk;
    StreamCopy(s.streams[i], s.logs[i], min);
    SlotsCopied(s.streams[i], s.logs[i], min, s.threads, i);
    forall v | 0 <= v < |t.threads| ensures ThreadOk(t, t.threads[v]) {
      assert ThreadOk(s, s.threads[v]);
      if Active(s.threads[v]) && s.threads[v].job.stream == i {
        JobCopied(s.streams[i], s.logs[i], min, s.rx[s.mine], s.threads[v]);
      }
    }
  }

  lemma SlotsCopied(st: Stream, log: Log, n: nat, threads: seq<Thread>, i: nat)
    requires Shaped(st) && StreamOk(st, log) && n <= ReadCount(st) && SlotsOk(st, log, threads, i)
    ensures var st', log' := CopyOut(st, n), log.(delivered := log.delivered + CopiedOut(st, n));
      StreamOk(st', log') && SlotsOk(st', log', threads, i)
  {
    StreamCopy(st, log, n);
  }

  lemma JobCopied(st: Stream, log: Log, n: nat, rx: seq<Byte>, t: Thread)
    requires Shaped(st) && StreamOk(st, log) && n <= ReadCount(st) && JobOk(st, log, rx, t)
    ensures var st', log' := CopyOut(st, n), log.(delivered := log.delivered + CopiedOut(st, n));
      JobOk(st', log', rx, t)
  {
    StreamCopy(st, log, n);
  }

  /** With no worker active every slot of every write side has been written. */
  lemma AllWritten(s: State, i: nat)
    requires DataOk(s) && i < |s.streams|
    requires forall w | 0 <= w < |s.threads| :: !Active(s.threads[w])
    ensures var st, log := s.streams[i], s.logs[i];
      forall k | 0 <= k < WriteCount(st) :: st.buff[st.outPointer][k] == log.accepted[Base(st, log) + k]
  {
    assert SlotsOk(s.streams[i], s.logs[i], s.threads, i);
    assert StreamOk(s.streams[i], s.logs[i]);
  }

  /** handle_flip, once the workers are idle: a flagged stream's filled side
      becomes its read side. */
  lemma DataFlip(s: State, t: State)
    requires DataOk(s) && forall w | 0 <= w < |s.threads| :: !Active(s.threads[w])
    requires forall i | 0 <= i < |s.streams| :: s.streams[i].flip ==> ReadCount(s.streams[i]) == 0
    requires |t.streams| == |s.streams|
    requires forall i | 0 <= i < |s.streams| :: t.streams[i] == Streams.Flip(s.streams[i])
    requires t.logs == s.logs && t.threads == s.threads && t.rx == s.rx && t.mine == s.mine
    ensures DataOk(t)
  {
    hide StreamOk;
    forall i | 0 <= i < |t.streams|
      ensures StreamOk(t.streams[i], t.logs[i]) && SlotsOk(t.streams[i], t.logs[i], t.threads, i)
    {
      AllWritten(s, i);
      StreamFlip(s.streams[i], s.logs[i]);
    }
  }

  /** handle_update empties every stream. */
  lemma DataUpdate(s: State, t: State)
    requires DataOk(s) && forall w | 0 <= w < |s.threads| :: !Active(s.threads[w])
    requires |t.streams| == |s.streams|
    requires forall i | 0 <= i < |s.streams| :: t.streams[i] == Streams.Update(s.streams[i])
    requires t.logs == seq(|s.logs|, _ => Log([], []))
    requires t.threads == s.threads && t.rx == s.rx && t.mine == s.mine
    ensures DataOk(t)
  {
  }

  /** New buffer contents, once no worker reads the old ones. */
  lemma DataFetch(s: State, t: State)
    requires DataOk(s) && forall w | 0 <= w < |s.threads| :: !Active(s.threads[w])
    requires t.streams == s.streams && t.logs == s.logs && t.threads == s.threads
    requires |t.rx| == 2 && t.mine < 2
    ensures DataOk(t)
  {
    hide StreamOk, SlotsOk;
  }

  // ---- Every step keeps the threads in step --------------------------------

  predicate OtherThread(a: Action) {
    !a.Enter? && !a.Scan? && !a.ScanEnd? && !a.Resume? && !a.Copy? && !a.CopyEnd?
  }

  /** Streams as the consumer sees them. */
  predicate SameReadSide(s: State, t: State)
    requires WellShaped(s)
  {
    && WellShaped(t) && |t.streams| == |s.streams|
    && forall j | 0 <= j < |s.streams| ::
         && t.streams[j].valid == s.streams[j].valid && t.streams[j].flip == s.streams[j].flip
         && ReadCount(t.streams[j]) == ReadCount(s.streams[j])
         && |t.logs[j].delivered| == |s.logs[j].delivered|
  }

  lemma ConsumerSame(s: State, t: State)
    requires WellShaped(s) && SameReadSide(s, t) && ConsumerOk(s) && MarksOk(s)
    requires t.consumer == s.consumer && t.requestFlip == s.requestFlip && t.safety == s.safety
    requires t.attempts == s.attempts && t.result == s.result && t.asked == s.asked && t.marks == s.marks
    ensures ConsumerOk(t) && MarksOk(t)
  {
    hide ReadCount;
    if s.consumer.Scanning? {
      forall j | 0 <= j < s.consumer.i ensures Scanned(t.streams[j], s.consumer.min) {
        assert Scanned(s.streams[j], s.consumer.min);
      }
    }
  }

  /** The main loop finishes waiting and acts: only a flip or an update touches
      what the consumer sees, and then the consumer is waiting or at rest. */
  lemma ConsumerPerform(s: State, buffers: seq<seq<Byte>>, side: nat)
    requires Inv(s) && Enabled(s, Perform(buffers, side))
    ensures ConsumerOk(Apply(s, Perform(buffers, side))) && MarksOk(Apply(s, Perform(buffers, side)))
  {
    hide DataOk, StreamOk;
    var t := Apply(s, Perform(buffers, side));
    if s.main.task == Fetch {
      ConsumerSame(s, t);
    } else if s.main.task == DoFlip {
      assert forall j | 0 <= j < |t.streams| :: t.streams[j] == Streams.Flip(s.streams[j]);
    }
  }

  lemma ConsumerScan(s: State)
    requires Inv(s) && Enabled(s, Scan)
    ensures ConsumerOk(Apply(s, Scan)) && MarksOk(Apply(s, Scan))
  {
    hide DataOk;
    var t := Apply(s, Scan);
    var i, min := s.consumer.i, s.consumer.min;
    var low := t.consumer.min;
    assert low <= min;
    forall j | 0 <= j < i + 1 ensures Scanned(t.streams[j], low) {
      if j < i { assert Scanned(s.streams[j], min); }
    }
    if low < s.consumer.count {
      if low < min || (s.streams[i].valid && ReadCount(s.streams[i]) == low) {
        assert t.streams[i].valid && ReadCount(t.streams[i]) == low;
      } else {
        var j :| 0 <= j < i && s.streams[j].valid && ReadCount(s.streams[j]) == min;
        assert t.streams[j].valid && ReadCount(t.streams[j]) == low;
      }
    }
  }

  lemma ConsumerScanEnd(s: State)
    requires Inv(s) && Enabled(s, ScanEnd)
    ensures ConsumerOk(Apply(s, ScanEnd)) && MarksOk(Apply(s, ScanEnd))
  {
    hide DataOk;
    forall j | 0 <= j < |s.streams| ensures Scanned(s.streams[j], s.consumer.min) {
    }
  }

  lemma ConsumerCopy(s: State)
    requires Inv(s) && Enabled(s, Copy)
    ensures ConsumerOk(Apply(s, Copy)) && MarksOk(Apply(s, Copy))
  {
    hide DataOk;
  }

  lemma InvConsumer(s: State, a: Action)
    requires Inv(s) && Enabled(s, a) && !OtherThread(a)
    ensures Inv(Apply(s, a))
  {
    hide StreamOk, SlotsOk, ConsumerOk, MarksOk;
    var t := Apply(s, a);
    match a
    case Scan => ConsumerScan(s); DataSameSides(s, t);
    case ScanEnd => ConsumerScanEnd(s); DataSame(s, t);
    case Copy => ConsumerCopy(s); DataCopy(s);
    case Enter(_) => ConsumerTurn(s, a); DataSame(s, t);
    case Resume => ConsumerTurn(s, a); DataSame(s, t);
    case CopyEnd => ConsumerTurn(s, a); DataSame(s, t);
  }

  lemma MainStep(s: State, a: Action)
    requires Inv(s) && Enabled(s, a) && (a.SetTuners? || a.Drain? || a.Check? || a.Perform? || a.Dispatch? || a.Listen?)
    ensures MainOk(Apply(s, a))
  {
    hide DataOk, ConsumerOk, MarksOk, JobSamples;
  }

  lemma DataMain(s: State, a: Action)
    requires Inv(s) && Enabled(s, a) && (a.SetTuners? || a.Drain? || a.Check? || a.Perform? || a.Dispatch? || a.Listen?)
    ensures DataOk(Apply(s, a))
  {
    hide DataOk, ConsumerOk, MarksOk, MainOk;
    var t := Apply(s, a);
    match a
    case SetTuners(_) => DataSameSides(s, t);
    case Perform(buffers, side) => DataPerform(s, buffers, side);
    case Dispatch(i, w, at, n, number) => DataDispatch(s, i, w, at, n, number);
    case _ => DataSame(s, t);
  }

  lemma ConsumerMain(s: State, a: Action)
    requires Inv(s) && Enabled(s, a) && (a.SetTuners? || a.Drain? || a.Check? || a.Perform? || a.Dispatch? || a.Listen?)
    ensures ConsumerOk(Apply(s, a)) && MarksOk(Apply(s, a))
  {
    hide DataOk, ConsumerOk, MarksOk, MainOk, JobSamples;
    if a.Perform? {
      ConsumerPerform(s, a.buffers, a.side);
    } else {
      ConsumerSame(s, Apply(s, a));
    }
  }

  lemma InvMain(s: State, a: Action)
    requires Inv(s) && Enabled(s, a) && (a.SetTuners? || a.Drain? || a.Check? || a.Perform? || a.Dispatch? || a.Listen?)
    ensures Inv(Apply(s, a))
  {
    hide DataOk, ConsumerOk, MarksOk, MainOk, Apply, Enabled;
    DataMain(s, a);
    ConsumerMain(s, a);
    MainStep(s, a);
    DataShaped(Apply(s, a));
  }

  lemma DataShaped(s: State)
    requires DataOk(s)
    ensures WellShaped(s)
  {
  }

  lemma InvWorker(s: State, a: Action)
    requires Inv(s) && Enabled(s, a) && (a.Begin? || a.Write? || a.End? || a.Clear?)
    ensures Inv(Apply(s, a))
  {
    hide StreamOk, SlotsOk, ConsumerOk, MarksOk;
    var t := Apply(s, a);
    ConsumerSame(s, t);
    if a.Write? {
      DataWrite(s, a.w);
    } else {
      assert ThreadOk(s, s.threads[a.w]);
      assert s.threads[a.w].phase == Called ==> s.threads[a.w].done == 0;
      DataThread(s, t, a.w);
    }
  }

  /** No step of any thread breaks the invariant. */
  lemma {:induction false} InvStep(s: State, a: Action)
    requires Inv(s) && Enabled(s, a)
    ensures Inv(Apply(s, a))
  {
    hide Inv, Enabled, Apply;
    if !OtherThread(a) {
      InvConsumer(s, a);
    } else if a.Begin? || a.Write? || a.End? || a.Clear? {
      InvWorker(s, a);
    } else {
      InvMain(s, a);
    }
  }

  lemma ConsumerTurn(s: State, a: Action)
    requires Inv(s) && Enabled(s, a) && (a.Enter? || a.Resume? || a.CopyEnd?)
    ensures ConsumerOk(Apply(s, a)) && MarksOk(Apply(s, a))
  {
    hide DataOk;
  }

  lemma DataPerform(s: State, buffers: seq<seq<Byte>>, side: nat)
    requires Inv(s) && Enabled(s, Perform(buffers, side))
    ensures DataOk(Apply(s, Perform(buffers, side)))
  {
    hide DataOk;
    var t := Apply(s, Perform(buffers, side));
    match s.main.task
    case DoFlip => DataFlip(s, t);
    case DoUpdate => DataUpdate(s, t);
    case Fetch => DataFetch(s, t);
  }
}
