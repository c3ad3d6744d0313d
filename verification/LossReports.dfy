/** Sequence counters: when the main loop prints F (frames, modulo 4096) and L
    (packets of one stream, modulo 16). */
module LossReports {
  import opened Modular

  const MAX_FRAME_COUNT := 4095
  const MAX_PACKET_COUNT := 15

  /** The count the code expects next; `last` is -1 before the first one. */
  function Expected(last: int, got: int, max: int): int {
    if last + 1 == 0 then got else if last + 1 > max then 0 else last + 1
  }

  /** For each count in turn: is it reported as a loss? */
  function Reports(last: int, counts: seq<int>, max: int): (r: seq<bool>)
    ensures |r| == |counts|
    decreases |counts|
  {
    if counts == [] then []
    else [Expected(last, counts[0], max) != counts[0]] + Reports(counts[0], counts[1..], max)
  }

  /** The counter's value after some counts. */
  function LastOf(last: int, counts: seq<int>): int {
    if counts == [] then last else counts[|counts| - 1]
  }

  /** The check made on one more count depends only on the last one. */
  lemma {:induction false} ReportsSnoc(last: int, counts: seq<int>, c: int, max: int)
    ensures Reports(last, counts + [c], max) ==
            Reports(last, counts, max) + [Expected(LastOf(last, counts), c, max) != c]
    decreases |counts|
  {
    if counts == [] {
      assert [c][1..] == [];
    } else {
      assert (counts + [c])[1..] == counts[1..] + [c];
      ReportsSnoc(counts[0], counts[1..], c, max);
      assert LastOf(counts[0], counts[1..]) == LastOf(last, counts);
    }
  }

  ghost predicate Counts(counts: seq<int>, max: int) {
    max >= 1 && forall c | c in counts :: 0 <= c <= max
  }

  /** The count that follows c. */
  function Following(c: int, max: int): int
    requires max >= 0
  {
    (c + 1) % (max + 1)
  }

  lemma ExpectedFollows(last: int, got: int, max: int)
    requires max >= 1 && 0 <= last <= max
    ensures Expected(last, got, max) == Following(last, max)
  {
    if last < max {
      SmallMod(last + 1, max + 1);
    } else {
      UniqueMod(last + 1, 1, 0, max + 1);
    }
  }

  lemma {:induction false} ReportsFrom(last: int, counts: seq<int>, max: int, i: nat)
    requires Counts(counts, max) && i < |counts|
    requires 0 <= last <= max || last == -1
    ensures Reports(last, counts, max)[i] <==>
            if i == 0 then last >= 0 && counts[0] != Following(last, max)
            else counts[i] != Following(counts[i - 1], max)
    decreases i
  {
    hide Following;
    assert counts[0] in counts;
    if i == 0 {
      if last >= 0 { ExpectedFollows(last, counts[0], max); }
    } else {
      var tail := counts[1..];
      assert forall c | c in tail :: c in counts;
      ReportsFrom(counts[0], tail, max, i - 1);
      assert tail[i - 1] == counts[i];
      assert i > 1 ==> tail[i - 2] == counts[i - 1];
    }
  }

  /** From the initial state a loss is printed for exactly those counts that are
      not the first and do not follow the one before modulo max + 1. */
  lemma {:induction false} ReportsExactly(counts: seq<int>, max: int, i: nat)
    requires Counts(counts, max) && i < |counts|
    ensures Reports(-1, counts, max)[i] <==> i > 0 && counts[i] != (counts[i - 1] + 1) % (max + 1)
  {
    ReportsFrom(-1, counts, max, i);
  }

  /** A run without a report is consecutive from its first count on. */
  lemma {:induction false} SilentRun(counts: seq<int>, max: int, i: nat)
    requires Counts(counts, max) && i < |counts|
    requires true !in Reports(-1, counts, max)
    ensures counts[i] == (counts[0] + i) % (max + 1)
  {
    if i > 0 {
      SilentRun(counts, max, i - 1);
      ReportsExactly(counts, max, i);
      var a := counts[0] + i - 1;
      AddMod(a, 1, max + 1);
    } else {
      assert counts[0] in counts;
      SmallMod(counts[0], max + 1);
    }
  }

  /** And a consecutive run, wherever it starts, is silent. */
  lemma ConsecutiveIsSilent(counts: seq<int>, max: int, first: int)
    requires max >= 1 && forall i | 0 <= i < |counts| :: counts[i] == (first + i) % (max + 1)
    ensures true !in Reports(-1, counts, max)
  {
    hide Reports;
    forall c | c in counts ensures 0 <= c <= max {
    }
    forall i | 0 <= i < |counts|
      ensures !Reports(-1, counts, max)[i]
    {
      ReportsExactly(counts, max, i);
      if i > 0 {
        var a := first + (i - 1);
        assert counts[i - 1] == a % (max + 1);
        AddMod(a, 1, max + 1);
        assert a + 1 == first + i;
      }
    }
  }

  // ---- What the reports mean for a sender that numbers everything ---------

  /** The sender's running numbers of the items that arrived, in order. */
  ghost predicate Arrivals(sent: seq<nat>) {
    forall i | 0 < i < |sent| :: sent[i - 1] < sent[i]
  }

  function Wire(sent: seq<nat>, max: nat): (c: seq<int>)
    ensures |c| == |sent|
    ensures forall i | 0 <= i < |sent| :: c[i] == sent[i] % (max + 1)
  {
    if sent == [] then [] else [sent[0] % (max + 1)] + Wire(sent[1..], max)
  }

  /** Items lost just before arrival i. */
  function Lost(sent: seq<nat>, i: nat): int
    requires 0 < i < |sent|
  {
    var now: int, before: int := sent[i], sent[i - 1];
    now - before - 1
  }

  /** A gap is reported unless a multiple of max + 1 items went missing in it. */
  lemma {:induction false} GapReported(sent: seq<nat>, max: nat, i: nat)
    requires max >= 1 && Arrivals(sent) && 0 < i < |sent|
    ensures Reports(-1, Wire(sent, max), max)[i] <==> Lost(sent, i) % (max + 1) != 0
  {
    var c := Wire(sent, max);
    ReportsExactly(c, max, i);
    AddMod(sent[i - 1], 1, max + 1);
    SameMod(sent[i], sent[i - 1] + 1, max + 1);
  }

  function Trues(r: seq<bool>): nat {
    if r == [] then 0 else (if r[|r| - 1] then 1 else 0) + Trues(r[..|r| - 1])
  }

  function TotalLost(sent: seq<nat>): int {
    if |sent| <= 1 then 0 else Lost(sent, |sent| - 1) + TotalLost(sent[..|sent| - 1])
  }

  lemma {:induction false} ReportsPrefix(last: int, counts: seq<int>, max: int, n: nat)
    requires n <= |counts|
    ensures Reports(last, counts[..n], max) == Reports(last, counts, max)[..n]
    decreases n
  {
    if n > 0 {
      assert counts[..n][1..] == counts[1..][..n - 1];
      ReportsPrefix(counts[0], counts[1..], max, n - 1);
    }
  }

  /** There are never more reports than losses. There are exactly as many, which
      the comment on PACKET_LOSS_MSG promises, if and only if no two consecutive
      items were lost together. */
  lemma {:induction false} OneReportPerLoss(sent: seq<nat>, max: nat)
    requires max >= 1 && Arrivals(sent)
    ensures Trues(Reports(-1, Wire(sent, max), max)) <= TotalLost(sent)
    ensures Trues(Reports(-1, Wire(sent, max), max)) == TotalLost(sent) <==>
            forall i | 0 < i < |sent| :: Lost(sent, i) <= 1
    decreases |sent|
  {
    hide Reports, Lost;
    var r := Reports(-1, Wire(sent, max), max);
    if |sent| <= 1 {
      if |sent| == 1 { ReportsExactly(Wire(sent, max), max, 0); assert r[..0] == []; }
    } else {
      var n := |sent| - 1;
      var front := sent[..n];
      OneReportPerLoss(front, max);
      WirePrefix(sent, max, n);
      ReportsPrefix(-1, Wire(sent, max), max, n);
      LastGap(sent, max);
      forall i | 0 < i < n ensures Lost(front, i) == Lost(sent, i) {
        LostPrefix(sent, n, i);
      }
      assert (forall i | 0 < i < |sent| :: Lost(sent, i) <= 1) <==>
             (forall i | 0 < i < n :: Lost(front, i) <= 1) && Lost(sent, n) <= 1;
    }
  }

  lemma LostPrefix(sent: seq<nat>, n: nat, i: nat)
    requires 0 < i < n <= |sent|
    ensures Lost(sent[..n], i) == Lost(sent, i)
  {
  }

  lemma WirePrefix(sent: seq<nat>, max: nat, n: nat)
    requires n <= |sent|
    ensures Wire(sent[..n], max) == Wire(sent, max)[..n]
  {
  }

  lemma LastGap(sent: seq<nat>, max: nat)
    requires max >= 1 && Arrivals(sent) && |sent| > 1
    ensures var n := |sent| - 1; var r := if Reports(-1, Wire(sent, max), max)[n] then 1 else 0;
      0 <= r <= Lost(sent, n) && (r == Lost(sent, n) <==> Lost(sent, n) <= 1)
  {
    var n := |sent| - 1;
    GapReported(sent, max, n);
    assert sent[n - 1] < sent[n];
    if Lost(sent, n) <= 1 {
      SmallMod(Lost(sent, n), max + 1);
    }
  }

  // ---- Frames that carry the packets of several streams -------------------

  /** How many of a frame's packets belong to stream s. */
  function Held(packets: seq<nat>, s: nat): nat {
    if packets == [] then 0 else (if packets[0] == s then 1 else 0) + Held(packets[1..], s)
  }

  /** Packets of stream s in the frames before frame f; frames[f] lists the
      stream of each packet that the sender put into frame f. */
  function SentBefore(frames: seq<seq<nat>>, f: nat, s: nat): nat
    requires f <= |frames|
  {
    if f == 0 then 0 else SentBefore(frames, f - 1, s) + Held(frames[f - 1], s)
  }

  /** Packets of stream s in the frames from a up to b. */
  function SentIn(frames: seq<seq<nat>>, a: nat, b: nat, s: nat): int
    requires a <= |frames| && b <= |frames|
  {
    SentBefore(frames, b, s) - SentBefore(frames, a, s)
  }

  lemma {:induction false} SentMonotone(frames: seq<seq<nat>>, a: nat, b: nat, s: nat)
    requires a <= b <= |frames|
    ensures SentBefore(frames, a, s) <= SentBefore(frames, b, s)
    decreases b
  {
    if a < b {
      SentMonotone(frames, a, b - 1, s);
    }
  }

  /** The frames that arrived, by the sender's running number. */
  ghost predicate Received(frames: seq<seq<nat>>, got: seq<nat>) {
    Arrivals(got) && forall k | 0 <= k < |got| :: got[k] < |frames|
  }

  /** The running numbers, within stream s, of the packets that arrived. */
  function Numbers(frames: seq<seq<nat>>, got: seq<nat>, s: nat): seq<nat>
    requires forall k | 0 <= k < |got| :: got[k] < |frames|
  {
    if got == [] then [] else
      var f := got[|got| - 1];
      Numbers(frames, got[..|got| - 1], s) + InFrame(SentBefore(frames, f, s), Held(frames[f], s))
  }

  function InFrame(first: nat, n: nat): (r: seq<nat>)
    ensures |r| == n && forall k | 0 <= k < n :: r[k] == first + k
  {
    seq(n, k requires 0 <= k < n => first + k)
  }

  lemma {:induction false} NumbersArrive(frames: seq<seq<nat>>, got: seq<nat>, s: nat)
    requires Received(frames, got)
    ensures Arrivals(Numbers(frames, got, s))
    ensures got != [] ==> forall k | 0 <= k < |Numbers(frames, got, s)| ::
              Numbers(frames, got, s)[k] < SentBefore(frames, got[|got| - 1] + 1, s)
    decreases |got|
  {
    if got != [] {
      var n := |got| - 1;
      NumbersArrive(frames, got[..n], s);
      var f := got[n];
      assert SentBefore(frames, f + 1, s) == SentBefore(frames, f, s) + Held(frames[f], s);
      hide SentBefore, Held;
      if n > 0 {
        assert got[n - 1] < f;
        SentMonotone(frames, got[n - 1] + 1, f, s);
      }
      var a, b := Numbers(frames, got[..n], s), InFrame(SentBefore(frames, f, s), Held(frames[f], s));
      assert Numbers(frames, got, s) == a + b;
    }
  }

  lemma {:induction false} NumbersPrefix(frames: seq<seq<nat>>, got: seq<nat>, s: nat, i: nat)
    requires Received(frames, got) && i <= |got|
    ensures Numbers(frames, got[..i], s) <= Numbers(frames, got, s)
    decreases |got|
  {
    if i < |got| {
      NumbersPrefix(frames, got[..|got| - 1], s, i);
      assert got[..|got| - 1][..i] == got[..i];
    } else {
      assert got[..i] == got;
    }
  }

  /** Frames without packets of the stream add no numbers. */
  lemma {:induction false} NumbersSkip(frames: seq<seq<nat>>, got: seq<nat>, s: nat, q: nat, i: nat)
    requires Received(frames, got) && q <= i <= |got|
    requires forall k | q <= k < i :: Held(frames[got[k]], s) == 0
    ensures Numbers(frames, got[..i], s) == Numbers(frames, got[..q], s)
    decreases i
  {
    if q < i {
      assert got[..i][..i - 1] == got[..i - 1];
      NumbersSkip(frames, got, s, q, i - 1);
    }
  }

  /** Frame got[q] is the last one to arrive before got[i] with packets of s. */
  ghost predicate LastWith(frames: seq<seq<nat>>, got: seq<nat>, s: nat, q: nat, i: nat)
    requires Received(frames, got)
  {
    && q < i < |got| && Held(frames[got[q]], s) > 0 && Held(frames[got[i]], s) > 0
    && forall k | q < k < i :: Held(frames[got[k]], s) == 0
  }

  /** The stream's first packet in frame got[i] follows its last one in got[q],
      and what lies between is what the frames between them carried. */
  lemma StreamGap(frames: seq<seq<nat>>, got: seq<nat>, s: nat, q: nat, i: nat)
    requires Received(frames, got) && LastWith(frames, got, s, q, i)
    ensures var sent := Numbers(frames, got, s); var j := |Numbers(frames, got[..i], s)|;
      0 < j < |sent| && Lost(sent, j) == SentIn(frames, got[q] + 1, got[i], s)
  {
    hide Numbers, SentBefore;
    NumbersSkip(frames, got, s, q + 1, i);
    EndsOf(frames, got, s, q);
    EndsOf(frames, got, s, i);
    NumbersPrefix(frames, got, s, q + 1);
    NumbersPrefix(frames, got, s, i + 1);
  }

  /** A frame's packets are numbered from the count before it to the count after. */
  lemma EndsOf(frames: seq<seq<nat>>, got: seq<nat>, s: nat, i: nat)
    requires Received(frames, got) && i < |got| && Held(frames[got[i]], s) > 0
    ensures var before, after := Numbers(frames, got[..i], s), Numbers(frames, got[..i + 1], s);
      && |before| < |after| && after[|before|] == SentBefore(frames, got[i], s)
      && after[|after| - 1] == SentBefore(frames, got[i] + 1, s) - 1
  {
    assert got[..i + 1][..i] == got[..i];
  }

  /** The repository says that an F comes with at least one L. At a gap between
      two frames that arrived, where the stream's packets before and after it are
      those of got[q] and got[i], exactly this holds: an F is printed unless the
      frames lost are a multiple of 4096, an L for the stream unless its packets
      lost are a multiple of 16. So there is an F and no L if and only if the
      former are not and the latter are. */
  lemma FrameAndPacketLoss(frames: seq<seq<nat>>, got: seq<nat>, s: nat, q: nat, i: nat)
    requires Received(frames, got) && LastWith(frames, got, s, q, i)
    ensures var f := Reports(-1, Wire(got, MAX_FRAME_COUNT), MAX_FRAME_COUNT);
      var l := Reports(-1, Wire(Numbers(frames, got, s), MAX_PACKET_COUNT), MAX_PACKET_COUNT);
      var j := |Numbers(frames, got[..i], s)|;
      && j < |l| && (f[i] <==> Lost(got, i) % 4096 != 0)
      && (l[j] <==> SentIn(frames, got[q] + 1, got[i], s) % 16 != 0)
      && (f[i] && !l[j] <==> Lost(got, i) % 4096 != 0 && SentIn(frames, got[q] + 1, got[i], s) % 16 == 0)
  {
    hide Reports, Wire, Numbers, SentIn;
    var sent := Numbers(frames, got, s);
    NumbersArrive(frames, got, s);
    StreamGap(frames, got, s, q, i);
    GapReported(got, MAX_FRAME_COUNT, i);
    GapReported(sent, MAX_PACKET_COUNT, |Numbers(frames, got[..i], s)|);
  }

  function Copies(s: nat, n: nat): (r: seq<nat>)
    ensures |r| == n
  {
    if n == 0 then [] else [s] + Copies(s, n - 1)
  }

  lemma {:induction false} HeldCopies(s: nat, n: nat)
    ensures Held(Copies(s, n), s) == n
  {
    if n > 0 {
      HeldCopies(s, n - 1);
      assert Copies(s, n)[1..] == Copies(s, n - 1);
    }
  }

  /** It happens: the one frame lost carried sixteen packets of the stream. */
  lemma FrameLossWithoutPacketLoss(s: nat)
    ensures var frames, got := [Copies(s, 1), Copies(s, 16), Copies(s, 1)], [0, 2];
      && Received(frames, got) && LastWith(frames, got, s, 0, 1)
      && Lost(got, 1) % 4096 != 0 && SentIn(frames, 1, 2, s) % 16 == 0
  {
    HeldCopies(s, 1);
    HeldCopies(s, 16);
  }
}
