/** What a call of fill_buffers returns. */
module FillBuffers {
  import opened Words
  import opened Streams
  import opened Pipeline
  import opened Delivery
  import UpdateTiming

  /** What a stream has to read. */
  function ToRead(st: Stream): nat
    requires Shaped(st)
  {
    st.outCount[if st.outPointer == 0 then 1 else 0]
  }

  /** The least of the asked amount and what the valid streams have to read. */
  predicate IsLeast(m: nat, count: nat, ss: seq<Stream>) {
    && (forall j | 0 <= j < |ss| :: Shaped(ss[j]))
    && m <= count && (forall j | 0 <= j < |ss| && ss[j].valid :: m <= ToRead(ss[j]))
    && (m == count || exists j :: 0 <= j < |ss| && ss[j].valid && ToRead(ss[j]) == m)
  }

  /** A valid stream has nothing to read. */
  predicate SomeEmpty(ss: seq<Stream>) {
    exists j :: 0 <= j < |ss| && Shaped(ss[j]) && ss[j].valid && ToRead(ss[j]) == 0
  }

  lemma LeastUnique(m: nat, n: nat, count: nat, ss: seq<Stream>)
    requires IsLeast(m, count, ss) && IsLeast(n, count, ss)
    ensures m == n
  {
    hide ToRead, Shaped;
  }

  /** Steps e to n begin with the entry of a call and hold no other's. */
  predicate CallSteps(acts: seq<Action>, e: nat, n: nat) {
    e < n <= |acts| && acts[e].Enter? && forall k | e < k < n :: !acts[k].Enter?
  }

  /** Scans completed in steps e to n. */
  function Scans(acts: seq<Action>, e: nat, n: nat): nat
    requires e <= n <= |acts|
  {
    if e == n then 0 else Scans(acts, e, n - 1) + if acts[n - 1] == ScanEnd then 1 else 0
  }

  predicate LastScan(acts: seq<Action>, k: nat, n: nat)
    requires n <= |acts|
  {
    k < n && acts[k] == ScanEnd && forall j | k < j < n :: acts[j] != ScanEnd
  }

  /** The call has not come to another part. */
  predicate Onwards(s: State, t: State) {
    && t.safety == s.safety && t.attempts == s.attempts
    && (t.consumer.Scanning? <==> s.consumer.Scanning?) && (t.consumer.Awaiting? <==> s.consumer.Awaiting?)
    && (t.consumer.Copying? <==> s.consumer.Copying?)
    && (s.consumer.Copying? ==> t.consumer.min == s.consumer.min)
  }

  /** How one step moves a call on. */
  predicate Moved(s: State, a: Action, t: State) {
    && t.asked == s.asked
    && (a.ScanEnd? ==>
          && s.consumer.Scanning? && t.safety == s.safety && t.attempts == s.attempts
          && (s.consumer.min == 0 ==> t.consumer.Awaiting?)
          && (s.consumer.min > 0 ==> t.consumer.Copying? && t.consumer.min == s.consumer.min))
    && (a.Resume? ==>
          && s.consumer.Awaiting?
          && (s.safety < NUM_RECURSIVE && !s.updating ==>
                t.consumer.Scanning? && t.safety == s.safety + 1 && t.attempts == s.attempts + 1)
          && (s.safety >= NUM_RECURSIVE || s.updating ==>
                t.consumer.AtRest? && t.result == 0 && t.safety == if s.safety < NUM_RECURSIVE then s.safety else 0))
    && (a.CopyEnd? ==>
          s.consumer.Copying? && t.consumer.AtRest? && t.result == s.consumer.min && t.safety == 0)
    && (!a.ScanEnd? && !a.Resume? && !a.CopyEnd? ==> Onwards(s, t))
  }

  lemma CallStep(s: State, a: Action)
    requires WellShaped(s) && Enabled(s, a) && !a.Enter? && !s.consumer.AtRest?
    ensures Moved(s, a, Apply(s, a))
  {
    hide JobSamples, Convert, WordAt, CopiedOut, Delivered, Shaped, ReadCount;
  }

  /** The first step of a call, and of each further attempt. A call can be made
      whenever none is in progress, for any amount, and a further attempt once the
      flip has been made: with an update pending
      it returns 0, and otherwise begins a scan for the whole amount asked for. */
  lemma EntryExactly(s: State, a: Action)
    requires Inv(s) && (a.Enter? || (a.Resume? && s.safety < NUM_RECURSIVE))
    ensures Enabled(s, a) <==>
      if a.Enter? then s.consumer.AtRest? else s.consumer.Awaiting? && !s.requestFlip
    ensures Enabled(s, a) ==>
      var t := Apply(s, a); var count := if a.Enter? then a.count else s.asked;
      && t.asked == count
      && (if s.updating then t.consumer.AtRest? && t.result == 0 && t.safety == s.safety
          else t.consumer == Scanning(0, count, count) && t.safety == s.safety + 1
               && t.attempts == if a.Enter? then 1 else s.attempts + 1)
  {
    hide DataOk, MarksOk, MainOk;
  }

  /** A call in progress after steps e to n. */
  ghost predicate Underway(ss: seq<State>, acts: seq<Action>, e: nat, n: nat)
    requires e < n < |ss| == |acts| + 1 && acts[e].Enter?
  {
    var s, count := ss[n], acts[e].count;
    && !ss[e].updating && s.asked == count && s.attempts >= 1
    && s.attempts == Scans(acts, e, n) + (if s.consumer.Scanning? then 1 else 0)
    && s.safety == ss[e].safety + s.attempts
    && (s.consumer.Copying? ==> s.consumer.min > 0 && exists k :: e < k < n && LastScan(acts, k, n))
    && forall k | e < k < n && acts[k] == ScanEnd ::
         IsLeast(if s.consumer.Copying? && LastScan(acts, k, n) then s.consumer.min else 0, count, ss[k].streams)
  }

  lemma NextUnderway(ss: seq<State>, acts: seq<Action>, e: nat, n: nat)
    requires e < n < |acts| == |ss| - 1 && acts[e].Enter? && !acts[n].Enter?
    requires Underway(ss, acts, e, n) && Moved(ss[n], acts[n], ss[n + 1]) && !ss[n + 1].consumer.AtRest?
    requires acts[n] == ScanEnd ==> IsLeast(ss[n].consumer.min, ss[n].asked, ss[n].streams)
    ensures Underway(ss, acts, e, n + 1)
  {
    hide IsLeast;
    var s, t := ss[n], ss[n + 1];
    forall k | e < k < n ensures LastScan(acts, k, n + 1) <==> LastScan(acts, k, n) && acts[n] != ScanEnd {
    }
    if acts[n] == ScanEnd {
      assert LastScan(acts, n, n + 1);
    }
  }

  lemma {:induction false} ScansTo(ss: seq<State>, acts: seq<Action>, e: nat, n: nat)
    requires Run(ss, acts) && CallSteps(acts, e, n)
    ensures !ss[n].consumer.AtRest? ==> Underway(ss, acts, e, n)
    decreases n
  {
    hide Inv, Initial, Enabled, Apply, IsLeast;
    if n == e + 1 {
      Reachable(ss, acts, e);
      assert Steps(ss[e], acts[e], ss[e + 1]);
      EntryExactly(ss[e], acts[e]);
      assert Scans(acts, e, e + 1) == Scans(acts, e, e);
    } else if !ss[n - 1].consumer.AtRest? {
      ScansTo(ss, acts, e, n - 1);
      assert Steps(ss[n - 1], acts[n - 1], ss[n - 1 + 1]);
      CallStep(ss[n - 1], acts[n - 1]);
      if acts[n - 1] == ScanEnd {
        ScanFindsLeast(ss, acts, n - 1);
      }
      if !ss[n].consumer.AtRest? {
        NextUnderway(ss, acts, e, n - 1);
      }
    } else {
      assert Steps(ss[n - 1], acts[n - 1], ss[n - 1 + 1]);
      RestLasts(ss[n - 1], acts[n - 1]);
    }
  }

  lemma RestLasts(s: State, a: Action)
    requires WellShaped(s) && Enabled(s, a) && !a.Enter? && s.consumer.AtRest?
    ensures Apply(s, a).consumer.AtRest?
  {
  }

  lemma ScanFindsLeast(ss: seq<State>, acts: seq<Action>, n: nat)
    requires Run(ss, acts) && n < |acts| && acts[n] == ScanEnd
    ensures ss[n].consumer.Scanning? && IsLeast(ss[n].consumer.min, ss[n].asked, ss[n].streams)
  {
    ScanResult(ss, acts, n);
  }

  /** Steps e to n are a whole call of fill_buffers: step e enters, step n returns. */
  ghost predicate WholeCall(ss: seq<State>, acts: seq<Action>, e: nat, n: nat)
    requires |ss| == |acts| + 1
  {
    && e <= n < |acts| && CallSteps(acts, e, n + 1) && Returns(ss[n], acts[n], ss[n + 1])
  }

  /** The result of a call of fill_buffers, exactly. If it scanned at all, it is the
      least of the asked amount and what the valid streams had to read at the last
      scan, and at every scan before that a valid stream had nothing to read or
      nothing was asked for. The call returns without having copied only if an
      update was pending at an entry, or if the scans of this call and of calls
      before it that an update cut short have come to NUM_RECURSIVE. */
  lemma ResultExactly(ss: seq<State>, acts: seq<Action>, e: nat, n: nat)
    requires Run(ss, acts) && WholeCall(ss, acts, e, n)
    ensures var t, count, scans := ss[n + 1], acts[e].count, Scans(acts, e, n);
      && t.asked == count
      && (n == e <==> ss[e].updating) && (scans == 0 <==> n == e) && (scans == 0 ==> t.result == 0)
      && (forall k | e < k < n && acts[k] == ScanEnd ::
            IsLeast(if LastScan(acts, k, n) then t.result else 0, count, ss[k].streams))
      && (t.result == 0 ==> !acts[n].CopyEnd? && (ss[n].updating || ss[e].safety + scans == NUM_RECURSIVE))
      && t.safety == if acts[n].CopyEnd? || ss[e].safety + scans == NUM_RECURSIVE then 0 else ss[e].safety + scans
  {
    hide Inv, Initial, Enabled, Apply, IsLeast;
    Reachable(ss, acts, e);
    assert Steps(ss[e], acts[e], ss[e + 1]);
    EntryExactly(ss[e], acts[e]);
    Reachable(ss, acts, n);
    assert Steps(ss[n], acts[n], ss[n + 1]);
    SafetyCount(ss, acts, e);
    SafetyCount(ss, acts, n);
    if n > e {
      ScansTo(ss, acts, e, n);
      CallStep(ss[n], acts[n]);
    }
  }

  /** There is just one such least, and it is 0, for a call that asks for something,
      if and only if a valid stream has nothing to read. */
  lemma LeastIs(m: nat, n: nat, count: nat, ss: seq<Stream>)
    requires IsLeast(m, count, ss) && IsLeast(n, count, ss)
    ensures m == n && (count > 0 ==> (m == 0 <==> SomeEmpty(ss)))
  {
    LeastUnique(m, n, count, ss);
  }

  /** So a call that asks for something returns nothing only if an update was
      pending at its entry, first or recursive, or if every one of its scans found a
      valid stream with nothing to read and the scans since a call last came to its
      own end number ten. */
  lemma NothingOnlyIf(ss: seq<State>, acts: seq<Action>, e: nat, n: nat)
    requires Run(ss, acts) && WholeCall(ss, acts, e, n) && acts[e].count > 0 && ss[n + 1].result == 0
    ensures acts[n].Enter? || acts[n].Resume?
    ensures ss[n].updating || ss[e].safety + Scans(acts, e, n) == 10
    ensures forall k | e < k < n && acts[k] == ScanEnd :: SomeEmpty(ss[k].streams)
  {
    hide IsLeast, SomeEmpty, Initial, Enabled, Apply, WellShaped;
    ResultExactly(ss, acts, e, n);
    assert Steps(ss[n], acts[n], ss[n + 1]);
    ReturningStep(ss[n], acts[n]);
    forall k | e < k < n && acts[k] == ScanEnd ensures SomeEmpty(ss[k].streams) {
      LeastIs(0, 0, acts[e].count, ss[k].streams);
    }
  }

  lemma ReturningStep(s: State, a: Action)
    requires WellShaped(s) && Enabled(s, a) && Returns(s, a, Apply(s, a))
    ensures a.Enter? || a.Resume? || a.CopyEnd?
  {
  }

  // ---- A call that gives up early ------------------------------------------------

  /** A round of scanning the one stream, which has nothing, and flipping it. */
  lemma EmptyRound(s: State, side: nat) returns (t: State)
    requires Reached(s) && UpdateTiming.Quiet(s) && UpdateTiming.Holds(s, side, [0, 0]) && side < 2
    requires s.consumer == Scanning(0, 1, 1)
    ensures Reached(t) && UpdateTiming.Quiet(t) && UpdateTiming.Holds(t, 1 - side, [0, 0]) && t.consumer == Awaiting(1)
    ensures t.safety == s.safety && t.attempts == s.attempts && t.asked == s.asked
  {
    hide Reached;
    t := Onward(s, Scan);
    t := Onward(t, ScanEnd);
    t := Onward(t, Drain(DoFlip));
    t := Onward(t, Check);
    t := Onward(t, Perform(t.rx, 0));
  }

  lemma {:induction false} EmptyRounds(s: State, side: nat) returns (t: State)
    requires Reached(s) && UpdateTiming.Quiet(s) && UpdateTiming.Holds(s, side, [0, 0]) && side < 2
    requires s.consumer == Scanning(0, 1, 1) && s.safety <= NUM_RECURSIVE
    ensures Reached(t) && UpdateTiming.Quiet(t) && t.consumer == Awaiting(1) && t.safety == NUM_RECURSIVE
    ensures t.attempts - s.attempts == t.safety - s.safety && t.asked == s.asked
    decreases NUM_RECURSIVE - s.safety
  {
    hide Reached;
    t := EmptyRound(s, side);
    if t.safety < NUM_RECURSIVE {
      t := Onward(t, Resume);
      t := EmptyRounds(t, 1 - side);
    }
  }

  /** A call with one scan behind it that an update cuts short: the safety count
      keeps that scan. */
  lemma CutShort() returns (t: State)
    ensures Reached(t) && UpdateTiming.Quiet(t) && UpdateTiming.Holds(t, 0, [0, 0])
    ensures t.consumer.AtRest? && t.safety == 1
  {
    t := UpdateTiming.MadeValid();
    hide Reached, Delivered;
    t := Onward(t, Enter(1));
    t := EmptyRound(t, 0);
    t := UpdateTiming.AskUpdate(t, true);
    t := Onward(t, Resume);
    t := Onward(t, Perform(t.rx, 0));
  }

  /** The call after that gives up after nine scans, with no update pending. */
  lemma GivesUpEarly() returns (s: State)
    ensures Reached(s) && WellShaped(s) && Enabled(s, Resume) && s.asked == 1 && !s.updating
    ensures s.attempts == 9
    ensures Apply(s, Resume).consumer.AtRest? && Apply(s, Resume).result == 0
  {
    s := CutShort();
    hide Reached, Delivered;
    s := Onward(s, Enter(1));
    s := EmptyRounds(s, 0);
  }
}
