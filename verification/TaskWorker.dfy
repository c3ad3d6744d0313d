/** The worker handshake of task_impl: task_loop on one thread, is_running and
    wake_up_thread on another, with a mutex and a condition variable. */
module TaskWorker {

  datatype Owner = Free | Worker | Waker

  /** Where task_loop is. It holds the mutex everywhere but at Top and Waiting;
      cv.wait gives the mutex up; it returns when notified, or for no reason. */
  datatype LoopPc = Top | Clearing | Checking | Waiting | Running | Leaving

  /** Where the other thread is in wake_up_thread. */
  datatype WakePc = Away | Locking | Setting | Unlocking

  /** `calls`, `starts` and `ends` count calls of wake_up_thread and runs of
      task_fcn; `waited` says that the loop has reached its first wait, `notified`
      that the wait it is in has been notified. */
  datatype State = State(owner: Owner, started: bool, loop: LoopPc, wake: WakePc,
                         calls: nat, starts: nat, ends: nat, waited: bool, notified: bool)

  const Init := State(Free, false, Top, Away, 0, 0, 0, false, false)

  predicate LoopStep(s: State, t: State) {
    match s.loop
    case Top => s.owner == Free && t == s.(loop := Clearing, owner := Worker)
    case Clearing => t == s.(loop := Checking, started := false)
    case Checking =>
      if s.started then t == s.(loop := Running, starts := s.starts + 1)
      else t == s.(loop := Waiting, owner := Free, waited := true)
    case Waiting => s.owner == Free && t == s.(loop := Checking, owner := Worker, notified := false)
    case Running => t == s.(loop := Leaving, ends := s.ends + 1)
    case Leaving => t == s.(loop := Top, owner := Free)
  }

  /** The caller calls only after is_running returned false. */
  predicate WakeStep(s: State, t: State) {
    match s.wake
    case Away => !s.started && t == s.(wake := Locking, calls := s.calls + 1)
    case Locking => s.owner == Free && t == s.(wake := Setting, owner := Waker)
    case Setting => t == s.(wake := Unlocking, started := true, notified := s.loop == Waiting)
    case Unlocking => t == s.(wake := Away, owner := Free)
  }

  predicate Step(s: State, t: State) {
    LoopStep(s, t) || WakeStep(s, t)
  }

  ghost predicate Run(r: seq<State>) {
    && r != [] && r[0] == Init
    && forall i | 0 <= i < |r| - 1 :: Step(r[i], r[i + 1])
  }

  /** wake_up_thread sets the flag while the loop is at the top: it is about to
      clear it. */
  predicate TooEarly(s: State, t: State) {
    s.wake == Setting && t.wake == Unlocking && s.loop == Top
  }

  /** A call is under way, or made and not yet picked up by the loop. */
  predicate Outstanding(s: State) {
    || s.wake == Locking || s.wake == Setting
    || (s.started && (s.loop == Waiting || s.loop == Checking))
  }

  /** Every call made is one run, started already or still to start. */
  predicate Accounted(s: State) {
    s.calls == s.starts + if Outstanding(s) then 1 else 0
  }

  /** The invariant; `lost` is the number of calls that will never be run. */
  ghost predicate Inv(s: State, lost: nat) {
    && (s.owner == Waker <==> s.wake == Setting || s.wake == Unlocking)
    && (s.owner == Worker <==> s.loop != Top && s.loop != Waiting)
    && (s.wake == Locking || s.wake == Setting ==> !s.started)
    && (s.wake == Unlocking ==> s.started)
    && (s.started && s.loop == Waiting ==> s.notified)
    && (s.waited && s.loop != Waiting && s.loop != Checking ==> s.started && s.wake == Away)
    && (!s.waited ==>
          && s.starts == 0 && s.ends == 0
          && match s.loop
             case Top => s.started <==> lost == 1
             case Clearing => (s.started <==> lost == 1) && (s.started ==> s.wake == Away)
             case Checking => !s.started
             case _ => false)
    && lost <= 1
    && s.calls == s.starts + lost + (if Outstanding(s) then 1 else 0)
    && s.starts == s.ends + (if s.loop == Running then 1 else 0)
  }

  lemma InvStep(s: State, t: State, lost: nat)
    requires Inv(s, lost) && Step(s, t)
    ensures Inv(t, if TooEarly(s, t) then lost + 1 else lost)
  {
  }

  /** The calls lost in the steps up to state i. */
  ghost function LostBefore(r: seq<State>, i: nat): nat
    requires i < |r|
  {
    if i == 0 then 0 else LostBefore(r, i - 1) + if TooEarly(r[i - 1], r[i]) then 1 else 0
  }

  lemma {:induction false} InvRun(r: seq<State>, i: nat)
    requires Run(r) && i < |r|
    ensures Inv(r[i], LostBefore(r, i))
  {
    if i > 0 {
      InvRun(r, i - 1);
      InvStep(r[i - 1], r[i], LostBefore(r, i - 1));
    }
  }

  lemma {:induction false} LostMonotone(r: seq<State>, i: nat, j: nat)
    requires i <= j < |r|
    ensures LostBefore(r, i) <= LostBefore(r, j)
    ensures (forall k | i <= k < j :: !TooEarly(r[k], r[k + 1])) ==> LostBefore(r, j) == LostBefore(r, i)
    decreases j
  {
    if i < j {
      LostMonotone(r, i, j - 1);
    }
  }

  /** A call that sets the flag at the top of the loop is lost for good: every
      later state is one run short, and so it is the only one in the run. */
  lemma EarlyCallIsLost(r: seq<State>, i: nat, j: nat)
    requires Run(r) && i < j < |r| && TooEarly(r[i], r[i + 1])
    ensures r[j].calls == r[j].starts + 1 + if Outstanding(r[j]) then 1 else 0
  {
    InvRun(r, j);
    LostMonotone(r, i + 1, j);
  }

  /** No call sets the flag too early. */
  ghost predicate Punctual(r: seq<State>) {
    forall i | 0 <= i < |r| - 1 :: !TooEarly(r[i], r[i + 1])
  }

  /** Every call of a run is accounted for, in every state, if and only if no
      call sets the flag while the loop is at the top. */
  lemma PunctualExactly(r: seq<State>)
    requires Run(r)
    ensures Punctual(r) <==> forall i | 0 <= i < |r| :: Accounted(r[i])
  {
    if Punctual(r) {
      forall i | 0 <= i < |r| ensures Accounted(r[i]) {
        InvRun(r, i);
        LostMonotone(r, 0, i);
      }
    } else {
      var i :| 0 <= i < |r| - 1 && TooEarly(r[i], r[i + 1]);
      EarlyCallIsLost(r, i, i + 1);
    }
  }

  /** A caller that waits for the loop's first wait before its first call is
      never too early. */
  lemma PatientIsPunctual(r: seq<State>)
    requires Run(r)
    requires forall i | 0 <= i < |r| - 1 :: r[i + 1].calls > r[i].calls ==> r[i].waited
    ensures Punctual(r)
  {
    forall i | 0 <= i < |r| - 1 ensures !TooEarly(r[i], r[i + 1]) {
      InvRun(r, i);
      PatientCalls(r, i);
    }
  }

  lemma {:induction false} PatientCalls(r: seq<State>, i: nat)
    requires Run(r) && i < |r|
    requires forall k | 0 <= k < |r| - 1 :: r[k + 1].calls > r[k].calls ==> r[k].waited
    ensures !r[i].waited ==> r[i].calls == 0
  {
    if i > 0 {
      PatientCalls(r, i - 1);
      assert r[i - 1 + 1].calls > r[i - 1].calls ==> r[i - 1].waited;
      assert Step(r[i - 1], r[i]);
    }
  }

  /** In every interleaving of a punctual run each call leads to exactly one run:
      a run starts only for an outstanding call, at most one is outstanding, and
      whenever is_running returns false to the calling thread every call made so
      far has been run to its end and none is in progress. */
  lemma ExactlyOneRunPerCall(r: seq<State>, i: nat)
    requires Run(r) && Punctual(r) && i < |r|
    ensures r[i].ends <= r[i].starts <= r[i].calls <= r[i].ends + 1
    ensures !r[i].started && r[i].wake == Away ==>
            r[i].loop != Running && r[i].starts == r[i].ends == r[i].calls
    ensures i > 0 && r[i].starts > r[i - 1].starts ==>
            r[i].starts == r[i - 1].starts + 1 && Outstanding(r[i - 1]) && !Outstanding(r[i])
  {
    InvRun(r, i);
    LostMonotone(r, 0, i);
    if i > 0 {
      InvRun(r, i - 1);
      assert Step(r[i - 1], r[i - 1 + 1]);
    }
  }

  /** While is_running returns true to the calling thread, or its call has not
      returned, exactly one call is ahead of the finished runs, or its run has
      ended and the loop has not yet come round. */
  datatype Phase = Idle | Called | Working | Done

  function PhaseOf(s: State): Phase {
    if Outstanding(s) then Called
    else if s.loop == Running then Working
    else if s.started then Done
    else Idle
  }

  predicate PhaseStep(p: Phase, q: Phase) {
    match p
    case Idle => q == Called
    case Called => q == Working
    case Working => q == Done
    case Done => q == Idle
  }

  /** The handshake refines a four-phase worker: every step of either thread is
      a step of that worker or leaves its phase alone; the caller's is_running
      is exactly "not Idle"; the task runs exactly in the phase Working. */
  lemma RefinesPhases(r: seq<State>, i: nat)
    requires Run(r) && Punctual(r) && i + 1 < |r|
    ensures PhaseOf(r[0]) == Idle
    ensures PhaseOf(r[i]) == PhaseOf(r[i + 1]) || PhaseStep(PhaseOf(r[i]), PhaseOf(r[i + 1]))
    ensures r[i].wake == Away ==> (r[i].started <==> PhaseOf(r[i]) != Idle)
    ensures r[i].loop == Running <==> PhaseOf(r[i]) == Working
    ensures PhaseOf(r[i]) == Idle && PhaseOf(r[i + 1]) == Called <==> r[i + 1].calls > r[i].calls
  {
    InvRun(r, i);
    InvRun(r, i + 1);
    LostMonotone(r, 0, i);
    LostMonotone(r, 0, i + 1);
    assert Step(r[i], r[i + 1]);
  }

  // ---- Every call is run in the end -------------------------------------------

  /** All calls have been made and run to the end, and the loop waits. */
  predicate Settled(s: State) {
    && s.wake == Away && s.loop == Waiting && !s.started
    && s.starts == s.ends == s.calls
  }

  /** The caller holds the mutex to set the flag, and the loop is at the top. */
  predicate Doomed(s: State) {
    s.wake == Setting && s.loop == Top
  }

  /** A step of the loop, which leaves its wait only when notified, or of the
      caller on its way through wake_up_thread, and not too early. */
  predicate Serves(s: State, t: State) {
    || (LoopStep(s, t) && (s.loop == Waiting ==> s.notified))
    || (s.wake != Away && WakeStep(s, t) && !TooEarly(s, t))
  }

  /** Steps of the caller still to take, and then of the loop. */
  function WakeLeft(s: State): nat {
    match s.wake
    case Away => 0
    case Locking => 3
    case Setting => 2
    case Unlocking => 1
  }

  function LoopLeft(s: State): nat {
    match s.loop
    case Waiting => if s.started then 7 else 0
    case Checking => if s.started then 6 else 1
    case Running => 5
    case Leaving => 4
    case Top => 3
    case Clearing => 2
  }

  /** Unless doomed or settled, one of the two threads has a step that brings
      them nearer to having served all calls. */
  lemma NextServes(s: State) returns (t: State)
    requires Inv(s, 0) && !Doomed(s) && !Settled(s)
    ensures Serves(s, t) && Inv(t, 0) && !Doomed(t) && t.calls == s.calls
    ensures WakeLeft(t) < WakeLeft(s) || (WakeLeft(t) == WakeLeft(s) && LoopLeft(t) < LoopLeft(s))
  {
    if s.wake == Setting {
      t := s.(wake := Unlocking, started := true, notified := s.loop == Waiting);
    } else if s.wake == Unlocking {
      t := s.(wake := Away, owner := Free);
    } else if s.wake == Locking && s.loop == Waiting {
      t := s.(wake := Setting, owner := Waker);
    } else {
      match s.loop {
        case Top => t := s.(loop := Clearing, owner := Worker);
        case Clearing => t := s.(loop := Checking, started := false);
        case Checking =>
          t := if s.started then s.(loop := Running, starts := s.starts + 1)
               else s.(loop := Waiting, owner := Free, waited := true);
        case Waiting => t := s.(loop := Checking, owner := Worker, notified := false);
        case Running => t := s.(loop := Leaving, ends := s.ends + 1);
        case Leaving => t := s.(loop := Top, owner := Free);
      }
    }
    InvStep(s, t, 0);
  }

  ghost predicate ServingPath(q: seq<State>) {
    q != [] && forall i | 0 <= i < |q| - 1 :: Serves(q[i], q[i + 1])
  }

  /** The path leads from s to where the calls made by then are all served. */
  predicate ServesAll(s: State, q: seq<State>) {
    q != [] && q[0] == s && Settled(q[|q| - 1]) && q[|q| - 1].calls == s.calls
  }

  lemma {:induction false} ServedFrom(s: State) returns (q: seq<State>)
    requires Inv(s, 0) && !Doomed(s)
    ensures ServingPath(q) && q[0] == s && Settled(q[|q| - 1]) && q[|q| - 1].calls == s.calls
    decreases WakeLeft(s), LoopLeft(s)
  {
    if Settled(s) {
      q := [s];
    } else {
      var t := NextServes(s);
      q := ServedFrom(t);
      hide Serves;
      var p := [s] + q;
      forall i | 0 <= i < |p| - 1 ensures Serves(p[i], p[i + 1]) {
        if i > 0 {
          assert Serves(q[i - 1], q[i - 1 + 1]);
        }
      }
      q := p;
    }
  }

  lemma Served(r: seq<State>, q: seq<State>)
    requires Run(r) && Punctual(r) && ServingPath(q) && q[0] == r[|r| - 1]
    ensures Run(r + q[1..]) && Punctual(r + q[1..]) && (r + q[1..])[|r| + |q| - 2] == q[|q| - 1]
  {
    var p := r + q[1..];
    forall i | 0 <= i < |p| - 1 ensures Step(p[i], p[i + 1]) && !TooEarly(p[i], p[i + 1]) {
      if i < |r| - 1 {
        assert Step(r[i], r[i + 1]) && !TooEarly(r[i], r[i + 1]);
      } else {
        var k := i - (|r| - 1);
        assert p[i] == q[k] && p[i + 1] == q[k + 1];
        assert Serves(q[k], q[k + 1]);
      }
    }
  }

  lemma DoomedStuck(s: State, t: State)
    requires Inv(s, 0) && Doomed(s)
    ensures !Serves(s, t)
  {
  }

  /** Every call made is run to its end: a punctual run has a finite continuation,
      by steps of the loop and of the call under way alone, and without a wait
      that ends for no reason, to a state in which all calls have been run and the
      loop waits for the next, if and only if the run is not doomed. */
  lemma EveryCallServed(r: seq<State>)
    requires Run(r) && Punctual(r)
    ensures !Doomed(r[|r| - 1]) <==>
            exists q :: ServingPath(q) && ServesAll(r[|r| - 1], q)
    ensures forall q | ServingPath(q) && q[0] == r[|r| - 1] :: Run(r + q[1..]) && Punctual(r + q[1..])
  {
    var s := r[|r| - 1];
    InvRun(r, |r| - 1);
    LostMonotone(r, 0, |r| - 1);
    forall q | ServingPath(q) && q[0] == s ensures Run(r + q[1..]) && Punctual(r + q[1..]) {
      Served(r, q);
    }
    if !Doomed(s) {
      var q := ServedFrom(s);
      assert ServingPath(q) && ServesAll(s, q);
    } else {
      forall q | ServingPath(q) ensures !ServesAll(s, q) {
        if q[0] == s && |q| > 1 {
          DoomedStuck(s, q[0 + 1]);
        }
      }
    }
  }

  /** And a next call can then be made, and is served in the same way. */
  lemma NextCallServed(r: seq<State>) returns (t: State, q: seq<State>)
    requires Run(r) && Punctual(r) && Settled(r[|r| - 1])
    ensures Step(r[|r| - 1], t) && ServingPath(q) && q[0] == t && Settled(q[|q| - 1])
    ensures q[|q| - 1].calls == q[|q| - 1].ends == r[|r| - 1].ends + 1
  {
    var s := r[|r| - 1];
    InvRun(r, |r| - 1);
    LostMonotone(r, 0, |r| - 1);
    t := s.(wake := Locking, calls := s.calls + 1);
    InvStep(s, t, 0);
    q := ServedFrom(t);
  }

  /** A doomed run is lost: whatever the steps, once the call has returned one call
      is never run. */
  lemma DoomedIsLost(r: seq<State>, i: nat, j: nat)
    requires Run(r) && i < j < |r| && Doomed(r[i])
    ensures r[j].starts < r[j].calls
  {
    InvRun(r, i);
    assert Step(r[i], r[i + 1]);
    assert TooEarly(r[i], r[i + 1]);
    EarlyCallIsLost(r, i, j);
  }

  /** There are runs that are too early: here the loop clears the flag of a call
      made before its first wait, and waits with the call never run. */
  lemma EarlyCallLost() returns (r: seq<State>)
    ensures Run(r) && !Punctual(r)
    ensures var s := r[|r| - 1];
      !s.started && s.wake == Away && s.loop == Waiting && s.calls == 1 && s.starts == 0
  {
    var s0 := Init;
    var s1 := s0.(wake := Locking, calls := 1);
    var s2 := s1.(wake := Setting, owner := Waker);
    var s3 := s2.(wake := Unlocking, started := true);
    var s4 := s3.(wake := Away, owner := Free);
    var s5 := s4.(loop := Clearing, owner := Worker);
    var s6 := s5.(loop := Checking, started := false);
    var s7 := s6.(loop := Waiting, owner := Free, waited := true);
    r := [s0, s1, s2, s3, s4, s5, s6, s7];
    assert Step(r[0], r[1]) && Step(r[1], r[2]) && Step(r[2], r[3]) && Step(r[3], r[4]);
    assert Step(r[4], r[5]) && Step(r[5], r[6]) && Step(r[6], r[7]);
    assert TooEarly(r[2], r[2 + 1]);
  }
}
