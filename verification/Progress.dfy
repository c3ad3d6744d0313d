/** A call of fill_buffers can always be brought to its end by the threads of the
    pipeline alone. */
module Progress {
  import opened Words
  import opened Streams
  import opened Pipeline
  import opened Delivery

  /** Steps of the consumer, the main loop and the workers; not those that bring
      in new calls, new tuners, new packets or new data. */
  predicate OwnStep(a: Action) {
    !a.Enter? && !a.SetTuners? && !a.Dispatch? && !a.Listen?
  }

  /** What a call still has ahead of it, most significant part first: scans left
      to try, the part of the attempt it is in, streams left in that part, a flip
      not yet made, what the main loop has to do before making it, workers it has
      to wait for, and what the one it waits for has to do. */
  datatype Rank = Rank(tries: nat, part: nat, streams: nat, flip: nat, main: nat, workers: nat, work: nat)

  predicate Lower(p: Rank, q: Rank) {
    || p.tries < q.tries
    || (p.tries == q.tries &&
        (|| p.part < q.part
         || (p.part == q.part &&
             (|| p.streams < q.streams
              || (p.streams == q.streams &&
                  (|| p.flip < q.flip
                   || (p.flip == q.flip &&
                       (|| p.main < q.main
                        || (p.main == q.main &&
                            (p.workers < q.workers || (p.workers == q.workers && p.work < q.work)))))))))))
  }

  /** Steps a worker has ahead of it until it is idle. */
  function WorkLeft(t: Thread): nat {
    match t.phase
    case Idle => 0
    case Done => 1
    case Working => if t.done <= t.job.n then t.job.n - t.done + 2 else 2
    case Called => if t.done <= t.job.n then t.job.n - t.done + 3 else 3
  }

  function RankOf(s: State): Rank {
    var tries := if s.safety <= NUM_RECURSIVE then NUM_RECURSIVE - s.safety else 0;
    match s.consumer
    case AtRest => Rank(0, 0, 0, 0, 0, 0, 0)
    case Scanning(i, _, _) => Rank(tries, 3, if i <= |s.streams| then |s.streams| - i else 0, 0, 0, 0, 0)
    case Copying(i, _, _) => Rank(tries, 1, if i <= |s.streams| then |s.streams| - i else 0, 0, 0, 0, 0)
    case Awaiting(_) =>
      if !s.requestFlip then Rank(tries, 2, 0, 0, 0, 0, 0)
      else match s.main
        case Ready => Rank(tries, 2, 0, 1, 1, 0, 0)
        case Draining(k, task) =>
          Rank(tries, 2, 0, 1, if task == DoFlip then 0 else 2,
               if k < |s.threads| then |s.threads| - k else 0,
               if k < |s.threads| then WorkLeft(s.threads[k]) else 0)
  }

  /** A worker that is not idle can move on. */
  lemma WorkerMoves(s: State, w: nat) returns (a: Action)
    requires Inv(s) && w < |s.threads| && !s.threads[w].phase.Idle?
    ensures OwnStep(a) && Enabled(s, a)
    ensures var t := Apply(s, a);
      && t == s.(streams := t.streams, threads := t.threads)
      && |t.threads| == |s.threads| && WorkLeft(t.threads[w]) < WorkLeft(s.threads[w])
  {
    hide ConsumerOk, MarksOk, StreamOk, SlotsOk, JobOk, JobSamples, Convert, WordAt;
    var th := s.threads[w];
    assert ThreadOk(s, th);
    if th.phase.Called? {
      a := Begin(w);
    } else if th.phase.Working? {
      JobWithin(s.streams[th.job.stream], s.logs[th.job.stream], s.rx[s.mine], th);
      a := if th.done < th.job.n then Write(w) else End(w);
    } else {
      a := Clear(w);
    }
    hide DataOk, Inv;
  }

  /** The consumer's own next step, when it is not waiting for a flip. */
  lemma ConsumerMoves(s: State) returns (a: Action)
    requires Inv(s) && !s.consumer.AtRest? && !(s.consumer.Awaiting? && s.requestFlip)
    ensures !OtherThread(a) && OwnStep(a) && Enabled(s, a) && Lower(RankOf(Apply(s, a)), RankOf(s))
  {
    hide MarksOk, MainOk, SlotsOk, CopiedOut;
    match s.consumer {
      case Scanning(i, _, _) => a := if i < |s.streams| then Scan else ScanEnd;
      case Copying(i, _, _) =>
        if i < |s.streams| {
          assert StreamOk(s.streams[i], s.logs[i]);
        }
        a := if i < |s.streams| then Copy else CopyEnd;
      case Awaiting(_) => a := Resume;
    }
    hide DataOk, StreamOk;
  }

  /** The main loop's or a worker's next step towards the flip asked for. */
  lemma FlipMoves(s: State) returns (a: Action)
    requires Inv(s) && s.consumer.Awaiting? && s.requestFlip
    ensures OwnStep(a) && Enabled(s, a) && Lower(RankOf(Apply(s, a)), RankOf(s))
  {
    if s.main.Draining? && s.main.k < |s.threads| && !s.threads[s.main.k].phase.Idle? {
      hide Apply, Enabled;
      a := WorkerMoves(s, s.main.k);
    } else {
      hide DataOk, ConsumerOk, MarksOk;
      a := if s.main.Ready? then Drain(DoFlip)
           else if s.main.k == |s.threads| then Perform(s.rx, s.mine) else Check;
    }
  }

  /** In every reachable state with a call in progress some thread can take a step
      that brings the call nearer to its end, without outside help. */
  lemma NoDeadlock(ss: seq<State>, acts: seq<Action>, n: nat) returns (a: Action)
    requires Run(ss, acts) && n < |ss| && !ss[n].consumer.AtRest?
    ensures WellShaped(ss[n]) && OwnStep(a) && Enabled(ss[n], a)
    ensures Lower(RankOf(Apply(ss[n], a)), RankOf(ss[n]))
  {
    Reachable(ss, acts, n);
    a := CallMoves(ss[n]);
    hide DataOk, ConsumerOk, MarksOk, MainOk;
  }

  lemma CallMoves(s: State) returns (a: Action)
    requires Inv(s) && !s.consumer.AtRest?
    ensures OwnStep(a) && Enabled(s, a) && Lower(RankOf(Apply(s, a)), RankOf(s))
  {
    hide Enabled, Apply, RankOf, Lower;
    if s.consumer.Awaiting? && s.requestFlip {
      a := FlipMoves(s);
    } else {
      a := ConsumerMoves(s);
    }
  }

  /** A stretch of a run made of own steps only. */
  ghost predicate OwnPath(path: seq<State>, steps: seq<Action>) {
    && |path| == |steps| + 1
    && forall n | 0 <= n < |steps| :: OwnStep(steps[n]) && Steps(path[n], steps[n], path[n + 1])
  }

  lemma {:induction false} CallEnds(s: State) returns (path: seq<State>, steps: seq<Action>)
    requires Inv(s)
    ensures OwnPath(path, steps) && path[0] == s && path[|steps|].consumer.AtRest?
    decreases RankOf(s).tries, RankOf(s).part, RankOf(s).streams, RankOf(s).flip, RankOf(s).main,
              RankOf(s).workers, RankOf(s).work
  {
    hide Inv, Enabled, Apply, RankOf;
    if s.consumer.AtRest? {
      path, steps := [s], [];
    } else {
      var a := CallMoves(s);
      InvShaped(s);
      InvStep(s, a);
      var t := Apply(s, a);
      assert Steps(s, a, t);
      path, steps := CallEnds(t);
      path, steps := Longer(s, a, path, steps);
    }
  }

  lemma Longer(s: State, a: Action, path: seq<State>, steps: seq<Action>)
      returns (path': seq<State>, steps': seq<Action>)
    requires OwnPath(path, steps) && OwnStep(a) && Steps(s, a, path[0])
    ensures path' == [s] + path && steps' == [a] + steps && OwnPath(path', steps')
  {
    hide Steps;
    path', steps' := [s] + path, [a] + steps;
    forall n | 0 <= n < |steps'|
      ensures OwnStep(steps'[n]) && Steps(path'[n], steps'[n], path'[n + 1])
    {
      if n > 0 {
        assert OwnStep(steps[n - 1]) && Steps(path[n - 1], steps[n - 1], path[n - 1 + 1]);
      }
    }
  }

  lemma Spliced(ss: seq<State>, acts: seq<Action>, path: seq<State>, steps: seq<Action>, n: nat)
    requires |ss| == |acts| + 1 && |path| == |steps| + 1 && ss[|acts|] == path[0] && n < |acts| + |steps|
    ensures var all, both := ss + path[1..], acts + steps;
      if n < |acts| then all[n] == ss[n] && all[n + 1] == ss[n + 1] && both[n] == acts[n]
      else var k := n - |acts|; all[n] == path[k] && all[n + 1] == path[k + 1] && both[n] == steps[k]
  {
  }

  lemma Continued(ss: seq<State>, acts: seq<Action>, path: seq<State>, steps: seq<Action>)
    requires Run(ss, acts) && OwnPath(path, steps) && path[0] == ss[|acts|]
    ensures Run(ss + path[1..], acts + steps)
  {
    hide Initial, Steps, OwnStep;
    var all, both := ss + path[1..], acts + steps;
    forall n | 0 <= n < |both|
      ensures Steps(all[n], both[n], all[n + 1])
    {
      Spliced(ss, acts, path, steps, n);
      if n < |acts| {
        assert Steps(ss[n], acts[n], ss[n + 1]);
      } else {
        var k := n - |acts|;
        assert Steps(path[k], steps[k], path[k + 1]);
      }
    }
  }

  /** Every run has a finite continuation, of steps of the pipeline's own threads
      only, with which the call in progress, if there is one, comes back. */
  lemma CallReturns(ss: seq<State>, acts: seq<Action>) returns (path: seq<State>, steps: seq<Action>)
    requires Run(ss, acts)
    ensures OwnPath(path, steps) && path[0] == ss[|acts|]
    ensures Run(ss + path[1..], acts + steps) && path[|steps|].consumer.AtRest?
  {
    hide Initial, Inv, Steps, OwnStep;
    Reachable(ss, acts, |acts|);
    path, steps := CallEnds(ss[|acts|]);
    Continued(ss, acts, path, steps);
  }

  // ---- update_tuners returns too -----------------------------------------------

  /** What was asked for in state s is still to be taken over in t, or has been. */
  predicate TunersKept(s: State, t: State) {
    && |t.streams| == |s.streams|
    && forall i | 0 <= i < |s.streams| ::
         && t.streams[i].validSafe == s.streams[i].validSafe
         && (!t.updating ==> t.streams[i].valid == s.streams[i].validSafe)
  }

  lemma TunersStep(s: State, t: State, a: Action)
    requires Inv(t) && Enabled(t, a) && OwnStep(a) && TunersKept(s, t)
    ensures TunersKept(s, Apply(t, a))
  {
    hide DataOk, ConsumerOk, MarksOk;
    if Updates(t, a) {
      hide JobSamples;
    } else if t.updating {
      TunersPending(t, a);
    } else {
      ValidKept(t, a);
    }
  }

  lemma ValidKept(s: State, a: Action)
    requires WellShaped(s) && Enabled(s, a) && OwnStep(a) && (a.Perform? ==> s.main.task != DoUpdate)
    ensures var t := Apply(s, a);
      && |t.streams| == |s.streams| && t.updating == s.updating
      && forall i | 0 <= i < |s.streams| ::
           t.streams[i].valid == s.streams[i].valid && t.streams[i].validSafe == s.streams[i].validSafe
  {
    hide JobSamples, Convert, WordAt, CopiedOut, Delivered;
  }

  /** With no call in progress, what the main loop has ahead of it until an update
      asked for has been made. */
  function UpdateLeft(s: State): nat {
    match s.main
    case Ready => |s.threads| + 2
    case Draining(k, task) =>
      (if task == DoUpdate then 0 else |s.threads| + 3) + if k < |s.threads| then |s.threads| - k else 0
  }

  function WaitedFor(s: State): nat {
    if s.main.Draining? && s.main.k < |s.threads| then WorkLeft(s.threads[s.main.k]) else 0
  }

  lemma UpdateMoves(s: State) returns (a: Action)
    requires Inv(s) && s.updating && s.consumer.AtRest?
    ensures OwnStep(a) && Enabled(s, a) && Apply(s, a).consumer.AtRest?
    ensures var t := Apply(s, a); t.updating ==>
      UpdateLeft(t) < UpdateLeft(s) || (UpdateLeft(t) == UpdateLeft(s) && WaitedFor(t) < WaitedFor(s))
  {
    if s.main.Draining? && s.main.k < |s.threads| && !s.threads[s.main.k].phase.Idle? {
      hide Apply, Enabled;
      a := WorkerMoves(s, s.main.k);
    } else {
      hide DataOk, ConsumerOk, MarksOk;
      a := if s.main.Ready? then Drain(DoUpdate)
           else if s.main.k == |s.threads| then Perform(s.rx, s.mine) else Check;
    }
  }

  lemma {:induction false} UpdateEnds(s: State) returns (path: seq<State>, steps: seq<Action>)
    requires Inv(s) && s.consumer.AtRest?
    ensures OwnPath(path, steps) && path[0] == s && !path[|steps|].updating
    decreases s.updating, UpdateLeft(s), WaitedFor(s)
  {
    hide Inv, Enabled, Apply, UpdateLeft, WaitedFor;
    if !s.updating {
      path, steps := [s], [];
    } else {
      var a := UpdateMoves(s);
      InvShaped(s);
      InvStep(s, a);
      var t := Apply(s, a);
      assert Steps(s, a, t);
      path, steps := UpdateEnds(t);
      path, steps := Longer(s, a, path, steps);
    }
  }

  lemma {:induction false} TunersAlong(s: State, path: seq<State>, steps: seq<Action>, n: nat)
    requires OwnPath(path, steps) && Inv(path[0]) && TunersKept(s, path[0]) && n < |path|
    ensures Inv(path[n]) && TunersKept(s, path[n])
  {
    hide Inv, Enabled, Apply, TunersKept, WellShaped;
    if n > 0 {
      TunersAlong(s, path, steps, n - 1);
      assert OwnStep(steps[n - 1]) && Steps(path[n - 1], steps[n - 1], path[n - 1 + 1]);
      InvStep(path[n - 1], steps[n - 1]);
      TunersStep(s, path[n - 1], steps[n - 1]);
    }
  }

  /** update_tuners can be called, for any set of streams, whenever no update is
      pending, and the listener can always store what it receives: neither keeps
      the other threads from anything they could do. */
  lemma NeverTurnedAway(s: State, valid: seq<bool>, data: seq<Byte>)
    requires Inv(s)
    ensures !s.updating && |valid| == |s.streams| ==>
      && Enabled(s, SetTuners(valid))
      && var t := Apply(s, SetTuners(valid));
         && t.updating && t == s.(updating := true, streams := t.streams) && |t.streams| == |s.streams|
         && forall i | 0 <= i < |s.streams| :: t.streams[i] == s.streams[i].(validSafe := valid[i])
    ensures Enabled(s, Listen(data))
    ensures var t := Apply(s, Listen(data));
      && t == s.(rx := t.rx) && |t.rx| == 2 && t.rx[s.mine] == s.rx[s.mine] && t.rx[1 - s.mine] == data
  {
    hide DataOk, ConsumerOk, MarksOk, MainOk;
  }

  /** A call of update_tuners can always be brought to its end as well: every run
      with one pending has a finite continuation, of own steps only, after which
      exactly the streams asked for are valid. */
  lemma UpdateReturns(ss: seq<State>, acts: seq<Action>) returns (path: seq<State>, steps: seq<Action>)
    requires Run(ss, acts) && ss[|acts|].updating
    ensures OwnPath(path, steps) && path[0] == ss[|acts|]
    ensures Run(ss + path[1..], acts + steps)
    ensures var s, t := ss[|acts|], path[|steps|];
      && !t.updating && |t.streams| == |s.streams|
      && forall i | 0 <= i < |s.streams| :: t.streams[i].valid == s.streams[i].validSafe
  {
    hide Initial, Inv, Steps, OwnStep;
    var s := ss[|acts|];
    Reachable(ss, acts, |acts|);
    path, steps := CallEnds(s);
    TunersAlong(s, path, steps, |steps|);
    var rest, more := UpdateEnds(path[|steps|]);
    path, steps := Joined(path, steps, rest, more);
    TunersAlong(s, path, steps, |steps|);
    Continued(ss, acts, path, steps);
  }

  lemma Joined(path: seq<State>, steps: seq<Action>, rest: seq<State>, more: seq<Action>)
      returns (path': seq<State>, steps': seq<Action>)
    requires OwnPath(path, steps) && OwnPath(rest, more) && path[|steps|] == rest[0]
    ensures path' == path + rest[1..] && steps' == steps + more && OwnPath(path', steps')
    ensures path'[0] == path[0] && path'[|steps'|] == rest[|more|]
  {
    hide Steps, OwnStep;
    path', steps' := path + rest[1..], steps + more;
    forall n | 0 <= n < |steps'|
      ensures OwnStep(steps'[n]) && Steps(path'[n], steps'[n], path'[n + 1])
    {
      Spliced(path, steps, rest, more, n);
      if n < |steps| {
        assert OwnStep(steps[n]) && Steps(path[n], steps[n], path[n + 1]);
      } else {
        var k := n - |steps|;
        assert OwnStep(more[k]) && Steps(rest[k], more[k], rest[k + 1]);
      }
    }
  }
}
