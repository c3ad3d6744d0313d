/** Why an update has to wait for fill_buffers, and for how long. */
module UpdateTiming {
  import opened Words
  import opened Streams
  import opened Pipeline
  import opened Delivery
  import TaskWorker

  /** handle_update carried out now, whatever fill_buffers is doing. */
  function Updated(s: State): State
    requires WellShaped(s)
  {
    PerformTask(s.(main := Ready), DoUpdate, s.rx, 0).(mine := s.mine)
  }

  /** fill_buffers is about to take more from a stream it was asked for than the
      stream has to read: its count would go below zero. */
  predicate Overdraws(s: State, asked: seq<bool>)
    requires WellShaped(s) && |asked| == |s.streams|
  {
    s.consumer.Copying? &&
    exists j :: s.consumer.i <= j < |s.streams| && asked[j] && ReadCount(s.streams[j]) < s.consumer.min
  }

  /** The streams of the call in progress: those valid when it was made. */
  function Asked(s: State): (r: seq<bool>)
    ensures |r| == |s.streams| && forall j | 0 <= j < |r| :: r[j] == s.streams[j].valid
  {
    seq(|s.streams|, j requires 0 <= j < |s.streams| => s.streams[j].valid)
  }

  lemma UpdatedStreams(s: State)
    requires WellShaped(s)
    ensures var t := Updated(s);
      && WellShaped(t) && |t.streams| == |s.streams| && t.consumer == s.consumer
      && forall j | 0 <= j < |t.streams| ::
           ReadCount(t.streams[j]) == 0 && t.streams[j].valid == s.streams[j].validSafe
  {
  }

  /** An update during the copies makes fill_buffers overdraw exactly if a stream
      asked for has not been copied yet. */
  lemma UpdateDuringCopies(s: State)
    requires Inv(s) && s.consumer.Copying?
    ensures WellShaped(Updated(s)) && |Updated(s).streams| == |s.streams|
    ensures Overdraws(Updated(s), Asked(s)) <==>
      exists j :: s.consumer.i <= j < |s.streams| && s.streams[j].valid
  {
    UpdatedStreams(s);
    assert s.consumer.min > 0 by { hide DataOk, MarksOk, MainOk; }
    hide Inv, Updated, ReadCount;
    var t := Updated(s);
    if j :| s.consumer.i <= j < |s.streams| && s.streams[j].valid {
      assert Asked(s)[j] && ReadCount(t.streams[j]) < t.consumer.min;
    }
  }

  /** The rest of a scan: steps of any threads, but no further update, up to the
      step that ends it. */
  ghost predicate RestOfScan(path: seq<State>, steps: seq<Action>) {
    && |path| == |steps| + 1
    && (forall k | 0 <= k < |steps| :: path[k].consumer.Scanning?)
    && (forall k | 0 <= k < |steps| :: Steps(path[k], steps[k], path[k + 1]) && !Updates(path[k], steps[k]))
    && !path[|steps|].consumer.Scanning?
  }

  /** A scan that was at stream i with minimum min when all streams were emptied:
      it finds 0 as soon as it comes to a valid stream. */
  predicate Emptied(s: State, valid: seq<bool>, i: nat, min: nat) {
    && WellShaped(s) && |s.streams| == |valid|
    && (forall j | 0 <= j < |valid| :: s.streams[j].valid == valid[j] && ReadCount(s.streams[j]) == 0)
    && match s.consumer
       case Scanning(k, m, _) =>
         && i <= k <= |valid| && !s.requestFlip && (s.main.Draining? ==> s.main.task != DoFlip)
         && m == if exists j :: i <= j < k && valid[j] then 0 else min
       case Copying(k, m, _) => k == 0 && m == min > 0 && forall j | i <= j < |valid| :: !valid[j]
       case Awaiting(_) => min == 0 || exists j :: i <= j < |valid| && valid[j]
       case AtRest => false
  }

  lemma EmptiedScan(s: State, valid: seq<bool>, i: nat, min: nat)
    requires Emptied(s, valid, i, min) && s.consumer.Scanning? && Enabled(s, Scan)
    ensures Emptied(Apply(s, Scan), valid, i, min)
  {
    var k := s.consumer.i;
    assert ReadCount(s.streams[k]) == 0 && s.streams[k].valid == valid[k];
    assert ScanMin(s.streams[k], s.consumer.min) == if valid[k] then 0 else s.consumer.min;
    assert (exists j :: i <= j < k + 1 && valid[j]) <==> (exists j :: i <= j < k && valid[j]) || valid[k];
  }

  lemma EmptiedScanEnd(s: State, valid: seq<bool>, i: nat, min: nat)
    requires Emptied(s, valid, i, min) && s.consumer.Scanning? && Enabled(s, ScanEnd)
    ensures Emptied(Apply(s, ScanEnd), valid, i, min)
  {
    hide Shaped, ReadCount;
  }

  lemma EmptiedConsumer(s: State, a: Action, valid: seq<bool>, i: nat, min: nat)
    requires Emptied(s, valid, i, min) && s.consumer.Scanning? && Enabled(s, a) && !OtherThread(a)
    ensures Emptied(Apply(s, a), valid, i, min)
  {
    assert a == Scan || a == ScanEnd;
    hide Emptied, Enabled, Apply;
    if a == Scan {
      EmptiedScan(s, valid, i, min);
    } else {
      EmptiedScanEnd(s, valid, i, min);
    }
  }

  lemma ReadSidesKept(s: State, a: Action)
    requires WellShaped(s) && Enabled(s, a) && OtherThread(a) && (a.Perform? ==> s.main.task == Fetch)
    ensures var t := Apply(s, a);
      && WellShaped(t) && t.consumer == s.consumer && t.requestFlip == s.requestFlip
      && (t.main.Draining? && t.main.task == DoFlip ==> (s.main.Draining? && s.main.task == DoFlip) || s.requestFlip)
      && |t.streams| == |s.streams|
      && forall j | 0 <= j < |s.streams| ::
           t.streams[j].valid == s.streams[j].valid && ReadCount(t.streams[j]) == ReadCount(s.streams[j])
  {
    hide JobSamples, Convert, WordAt, CopiedOut, Delivered;
  }

  lemma EmptiedOther(s: State, a: Action, valid: seq<bool>, i: nat, min: nat)
    requires Emptied(s, valid, i, min) && s.consumer.Scanning? && Enabled(s, a) && OtherThread(a)
    requires !Updates(s, a)
    ensures Emptied(Apply(s, a), valid, i, min)
  {
    assert a.Perform? ==> s.main.task == Fetch;
    hide Apply, Enabled, ReadCount;
    ReadSidesKept(s, a);
  }

  lemma {:induction false} EmptiedRest(path: seq<State>, steps: seq<Action>, n: nat, valid: seq<bool>, i: nat, min: nat)
    requires RestOfScan(path, steps) && n <= |steps| && Emptied(path[0], valid, i, min)
    ensures Emptied(path[n], valid, i, min)
  {
    hide Emptied, Enabled, Apply, WellShaped;
    if n > 0 {
      EmptiedRest(path, steps, n - 1, valid, i, min);
      assert Steps(path[n - 1], steps[n - 1], path[n - 1 + 1]);
      if OtherThread(steps[n - 1]) {
        EmptiedOther(path[n - 1], steps[n - 1], valid, i, min);
      } else {
        EmptiedConsumer(path[n - 1], steps[n - 1], valid, i, min);
      }
    }
  }

  /** An update during the scan makes fill_buffers overdraw, whatever the other
      threads do until the scan ends, exactly if the minimum found so far is not
      zero, no stream still to be scanned is valid after the update, and some
      stream was asked for. */
  lemma UpdateDuringScan(s: State, path: seq<State>, steps: seq<Action>)
    requires Inv(s) && s.consumer.Scanning? && WellShaped(s)
    requires RestOfScan(path, steps) && path[0] == Updated(s)
    ensures var u := path[|steps|];
      && WellShaped(u) && |u.streams| == |s.streams|
      && (Overdraws(u, Asked(s)) <==>
            && s.consumer.min > 0
            && (forall j | s.consumer.i <= j < |s.streams| :: !s.streams[j].validSafe)
            && exists j :: 0 <= j < |s.streams| && s.streams[j].valid)
  {
    UpdatedStreams(s);
    var u := path[|steps|];
    var valid := seq(|s.streams|, j requires 0 <= j < |s.streams| => s.streams[j].validSafe);
    var i, min := s.consumer.i, s.consumer.min;
    assert i <= |s.streams| && !s.requestFlip by { hide DataOk, MarksOk, MainOk; }
    hide Inv, ReadCount;
    assert Emptied(path[0], valid, i, min);
    EmptiedRest(path, steps, |steps|, valid, i, min);
    hide RestOfScan;
    EmptiedOverdraws(u, valid, i, min, Asked(s));
  }

  lemma EmptiedOverdraws(u: State, valid: seq<bool>, i: nat, min: nat, asked: seq<bool>)
    requires Emptied(u, valid, i, min) && !u.consumer.Scanning? && |asked| == |valid|
    ensures Overdraws(u, asked) <==>
      && min > 0 && (forall j | i <= j < |valid| :: !valid[j])
      && exists j :: 0 <= j < |asked| && asked[j]
  {
    hide ReadCount;
    if u.consumer.Copying? {
      if j :| 0 <= j < |asked| && asked[j] {
        assert ReadCount(u.streams[j]) < u.consumer.min;
      }
    }
  }

  // ---- Both cases occur --------------------------------------------------------

  /** One stream, one idle worker. */
  predicate Small(s: State) {
    && WellShaped(s) && |s.streams| == 1 && |s.threads| == 1 && s.mine == 0 && |s.rx[0]| == 4
  }

  predicate Quiet(s: State) {
    Small(s) && s.threads[0].phase.Idle? && s.main.Ready? && !s.requestFlip && !s.updating
  }

  /** update_tuners is called, and the main loop is about to carry it out. */
  lemma AskUpdate(s: State, valid: bool) returns (t: State)
    requires Reached(s) && Quiet(s)
    ensures Reached(t) && Small(t) && t.main == Draining(1, DoUpdate) && t.updating
    ensures t == s.(streams := t.streams, updating := true, main := t.main)
    ensures t.streams[0] == s.streams[0].(validSafe := valid)
  {
    t := Onward(s, SetTuners([valid]));
    t := Onward(t, Drain(DoUpdate));
    t := Onward(t, Check);
  }

  /** The one stream is valid, holds these counts and has nothing out of place. */
  predicate Holds(s: State, side: nat, counts: seq<nat>) {
    && Small(s) && s.streams[0].valid && s.streams[0].outPointer == side
    && s.streams[0].outCount == counts && s.streams[0].readIndex == [0, 0]
  }

  lemma Started() returns (t: State)
    ensures Reached(t) && Quiet(t) && t.consumer.AtRest? && t.safety == 0
  {
    var zero := Sample(0, 0);
    var side := seq(NUM_COMPLEX, _ => zero);
    var st := Stream([side, side], 0, [0, 0], -1, [0, 0], false, false, false);
    t := State([st], [Log([], [])], [Thread(TaskWorker.Idle, Job(0, 0, 0, 0, 0), 0)], [[0, 0, 0, 0], []], 0,
               AtRest, Ready, false, false, 0, 0, 0, 0, []);
    assert Run([t], []);
  }

  lemma MadeValid() returns (t: State)
    ensures Reached(t) && Quiet(t) && Holds(t, 0, [0, 0]) && t.consumer.AtRest? && t.safety == 0
  {
    t := Started();
    t := AskUpdate(t, true);
    hide Reached;
    t := Onward(t, Perform([[0, 0, 0, 0], []], 0));
  }

  /** A packet of one sample has been accepted. */
  lemma Accepted() returns (t: State)
    ensures Reached(t) && Holds(t, 0, [1, 0]) && t.consumer.AtRest? && t.safety == 0
    ensures t.main.Ready? && !t.requestFlip && !t.updating
    ensures t.threads == [Thread(TaskWorker.Called, Job(0, 0, 0, 0, 1), 0)]
  {
    t := MadeValid();
    hide Reached, JobSamples;
    t := Onward(t, Dispatch(0, 0, 0, 1, 0));
  }

  /** A worker with one sample does its job. */
  lemma WorkerDone(s: State) returns (t: State)
    requires Reached(s) && Holds(s, 0, [1, 0])
    requires s.threads == [Thread(TaskWorker.Called, Job(0, 0, 0, 0, 1), 0)]
    ensures Reached(t) && Holds(t, 0, [1, 0]) && t == s.(streams := t.streams, threads := t.threads)
    ensures |t.threads| == 1 && t.threads[0].phase.Idle?
  {
    hide Reached, Convert, WordAt;
    t := Onward(s, Begin(0));
    t := Onward(t, Write(0));
    t := Onward(t, End(0));
    t := Onward(t, Clear(0));
  }

  /** fill_buffers has asked for a flip. */
  lemma FlipAsked() returns (t: State)
    ensures Reached(t) && Holds(t, 0, [1, 0]) && t.streams[0].flip && t.consumer == Awaiting(1) && t.safety == 1
    ensures t.threads[0].phase.Idle? && t.main.Ready? && t.requestFlip && !t.updating
  {
    t := Accepted();
    t := WorkerDone(t);
    hide Reached, Delivered;
    t := Onward(t, Enter(1));
    t := Onward(t, Scan);
    t := Onward(t, ScanEnd);
  }

  /** It got it. */
  lemma Readable() returns (t: State)
    ensures Reached(t) && Quiet(t) && Holds(t, 1, [1, 0]) && t.consumer == Awaiting(1) && t.safety == 1
  {
    t := FlipAsked();
    hide Reached;
    t := Onward(t, Drain(DoFlip));
    t := Onward(t, Check);
    t := Onward(t, Perform(t.rx, 0));
  }

  /** A reachable state in the midst of the copies, with an update due that would
      make fill_buffers overdraw. */
  lemma CopiesCanBeHit() returns (s: State)
    ensures Reached(s) && WellShaped(s) && s.consumer.Copying?
    ensures s.updating && s.main == Draining(|s.threads|, DoUpdate)
    ensures |Updated(s).streams| == |s.streams| && WellShaped(Updated(s)) && Overdraws(Updated(s), Asked(s))
  {
    s := Readable();
    s := Onward(s, Resume);
    s := Onward(s, Scan);
    s := Onward(s, ScanEnd);
    s := AskUpdate(s, true);
    ReachedInv(s);
    UpdateDuringCopies(s);
  }

  /** The same in the midst of a scan, which goes on to its end. */
  lemma ScanCanBeHit() returns (s: State, path: seq<State>, steps: seq<Action>)
    ensures Reached(s) && WellShaped(s) && s.consumer.Scanning?
    ensures s.updating && s.main == Draining(|s.threads|, DoUpdate)
    ensures RestOfScan(path, steps) && path[0] == Updated(s)
    ensures var u := path[|steps|];
      WellShaped(u) && |u.streams| == |s.streams| && Overdraws(u, Asked(s))
  {
    s := MadeValid();
    hide Reached, Delivered;
    s := Onward(s, Enter(1));
    s := AskUpdate(s, false);
    ReachedInv(s);
    path, steps := ScanOnce(s);
    UpdateDuringScan(s, path, steps);
  }

  lemma ScanOnce(s: State) returns (path: seq<State>, steps: seq<Action>)
    requires Small(s) && s.consumer == Scanning(0, 1, 1) && !s.streams[0].validSafe
    ensures RestOfScan(path, steps) && path[0] == Updated(s)
  {
    UpdatedStreams(s);
    var t := Updated(s);
    var u := Apply(t, Scan);
    var v := Apply(u, ScanEnd);
    path, steps := [t, u, v], [Scan, ScanEnd];
  }
}
