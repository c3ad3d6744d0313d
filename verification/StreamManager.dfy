/** The sample side of complex_manager as objects updated in place. Each method
    is one stretch of code that runs without the other threads touching what it
    touches; Pipeline says in which orders the stretches may run. */
module StreamManager {
  import opened Words
  import opened Streams
  import opened VrtPacket
  import opened LossReports

  /** struct buffer_manager. */
  class BufferManager {
    const outBuff: seq<array<Sample>>
    var outPointer: nat
    var outCount: seq<nat>
    var lastCount: int
    var readIndex: seq<nat>
    var tunerValidSafe: bool
    var tunerValid: bool
    var flip: bool

    ghost predicate Valid()
      reads this, outBuff
    {
      && |outBuff| == 2 && outBuff[0] != outBuff[1]
      && outBuff[0].Length == NUM_COMPLEX && outBuff[1].Length == NUM_COMPLEX
      && Shaped(View())
    }

    ghost function View(): Stream
      requires |outBuff| == 2
      reads this, outBuff
    {
      Stream([outBuff[0][..], outBuff[1][..]], outPointer, outCount, lastCount, readIndex,
             tunerValidSafe, tunerValid, flip)
    }

    constructor ()
      ensures Valid() && fresh(outBuff[0]) && fresh(outBuff[1])
      ensures var s := View();
        && s.outCount == [0, 0] && s.readIndex == [0, 0] && s.outPointer == 0
        && s.lastCount == -1 && !s.valid && !s.validSafe && !s.flip
    {
      var b0 := new Sample[NUM_COMPLEX](_ => Sample(0, 0));
      var b1 := new Sample[NUM_COMPLEX](_ => Sample(0, 0));
      outBuff := [b0, b1];
      outPointer := 0;
      outCount := [0, 0];
      lastCount := -1;
      readIndex := [0, 0];
      tunerValidSafe := false;
      tunerValid := false;
      flip := false;
    }

    /** get_active_buffer: where the next samples go. */
    method GetActiveBuffer() returns (target: array<Sample>, writeIndex: nat)
      requires Valid()
      ensures target == outBuff[outPointer] && writeIndex == WriteCount(View())
    {
      writeIndex := outCount[outPointer];
      target := outBuff[outPointer];
    }

    /** One turn of update_tuners' outer loop. */
    method MarkSafe(number: int, tuners: seq<int>)
      requires Valid()
      modifies this`tunerValidSafe
      ensures Valid() && View() == old(View()).(validSafe := number in tuners)
    {
      tunerValidSafe := false;
      for j := 0 to |tuners|
        invariant tunerValidSafe <==> number in tuners[..j]
      {
        if number == tuners[j] {
          tunerValidSafe := true;
        }
      }
    }

    /** One turn of the scan in fill_buffers. */
    method ScanOne(min: nat) returns (low: nat)
      requires Valid()
      modifies this`flip
      ensures Valid()
      ensures View() == ScanFlip(old(View()), min) == Marked(old(View()))
      ensures low == ScanMin(old(View()), min)
      ensures ReadCount(View()) == old(ReadCount(View())) && View().valid == old(View().valid)
    {
      low := min;
      flip := false;
      if outCount[1 - outPointer] <= min && tunerValid {
        low := outCount[1 - outPointer];
        if low == 0 {
          flip := true;
        }
      }
    }

    /** One turn of the copy in fill_buffers: memcpy, then the bookkeeping. */
    method CopyOne(target: array<Sample>, min: nat)
      requires Valid() && min <= ReadCount(View())
      requires View().readIndex[ReadSide(View())] + min <= NUM_COMPLEX && min <= target.Length
      requires target != outBuff[0] && target != outBuff[1]
      modifies this`outCount, this`readIndex, target
      ensures Valid() && View() == CopyOut(old(View()), min)
      ensures target[..min] == CopiedOut(old(View()), min) && target[min..] == old(target[min..])
    {
      var side := 1 - outPointer;
      ghost var before := View();
      forall k | 0 <= k < min {
        target[k] := outBuff[side][readIndex[side] + k];
      }
      assert target[..min] == CopiedOut(before, min);
      assert View() == before;
      readIndex := readIndex[side := readIndex[side] + min];
      outCount := outCount[side := outCount[side] - min];
    }

    /** One turn of handle_flip. */
    method FlipOne()
      requires Valid()
      modifies this`outPointer, this`outCount, this`readIndex, this`flip
      ensures Valid() && View() == Flip(old(View()))
    {
      if tunerValid && flip {
        outPointer := 1 - outPointer;
        outCount := outCount[outPointer := 0];
        readIndex := readIndex[0 := 0];
        readIndex := readIndex[1 := 0];
        flip := false;
        assert readIndex == [0, 0];
      }
    }

    /** One turn of handle_update. */
    method UpdateOne()
      requires Valid()
      modifies this`tunerValid, this`outCount, this`lastCount, this`readIndex, this`outPointer
      ensures Valid() && View() == Update(old(View()))
    {
      ghost var before := View();
      tunerValid := tunerValidSafe;
      outCount := outCount[0 := 0];
      outCount := outCount[1 := 0];
      lastCount := -1;
      readIndex := readIndex[0 := 0];
      readIndex := readIndex[1 := 0];
      outPointer := 0;
      assert outCount == [0, 0] && readIndex == [0, 0];
      assert View() == Update(before);
    }

    /** The packet counter check, and the bookkeeping for n accepted samples. The
        result says whether an L is printed. */
    method AcceptPacket(got: int, n: nat) returns (lost: bool, target: array<Sample>, start: nat)
      requires Valid() && HasRoom(View(), n)
      modifies this`lastCount, this`outCount
      ensures Valid() && View() == Accept(old(View()), n, got)
      ensures lost <==> Expected(old(lastCount), got, MAX_PACKET_COUNT) != got
      ensures target == outBuff[outPointer] && start == old(WriteCount(View()))
      ensures start + n < target.Length
    {
      var expected := lastCount;
      lastCount := got;
      expected := expected + 1;
      if expected == 0 {
        expected := got;
      } else if expected > MAX_PACKET_COUNT {
        expected := 0;
      }
      lost := expected != got;
      target, start := GetActiveBuffer();
      outCount := outCount[outPointer := outCount[outPointer] + n];
    }
  }

  /** What the main loop does with one packet of a frame. */
  datatype Outcome = NotData | BadStream | BeyondArray | NotValid | Retry
                   | Dispatched(stream: nat, worker: nat, n: nat, lost: bool, target: array<Sample>, start: nat)

  class Manager {
    const mang: seq<BufferManager>

    ghost function Buffers(): set<object> {
      set i, k | 0 <= i < |mang| && 0 <= k < |mang[i].outBuff| :: mang[i].outBuff[k]
    }

    ghost predicate Valid()
      reads mang, Buffers()
    {
      && (forall i | 0 <= i < |mang| ::
            assert forall k | 0 <= k < |mang[i].outBuff| :: mang[i].outBuff[k] in Buffers();
            mang[i].Valid())
      && (forall i, j | 0 <= i < j < |mang| :: mang[i] != mang[j])
    }

    /** The scan of fill_buffers: every stream's flip flag says whether the
        stream is valid and has nothing to read, and the result is the least of
        count and the valid streams' readable counts. */
    method ScanStreams(count: nat) returns (min: nat)
      requires Valid()
      modifies mang`flip
      ensures Valid() && min <= count
      ensures forall i | 0 <= i < |mang| :: mang[i].View() == Marked(old(mang[i].View()))
      ensures forall i | 0 <= i < |mang| && mang[i].View().valid :: min <= ReadCount(mang[i].View())
      ensures min == count || exists i :: 0 <= i < |mang| && mang[i].View().valid && ReadCount(mang[i].View()) == min
    {
      hide BufferManager.View, Shaped, ReadCount, Marked, ScanFlip;
      min := count;
      ghost var at := 0;
      var i := 0;
      while i < |mang|
        invariant i <= |mang| && Valid() && min <= count
        invariant forall k | 0 <= k < i :: mang[k].View() == Marked(old(mang[k].View()))
        invariant forall k | i <= k < |mang| :: mang[k].View() == old(mang[k].View())
        invariant forall k | 0 <= k < i && mang[k].View().valid :: min <= ReadCount(mang[k].View())
        invariant min == count || (at < i && mang[at].View().valid && ReadCount(mang[at].View()) == min)
      {
        var low := mang[i].ScanOne(min);
        if low < min {
          at := i;
        }
        min := low;
        i := i + 1;
      }
    }

    /** One stream's copy; the other streams are left alone. */
    method CopyStream(i: nat, target: array<Sample>, min: nat)
      requires Valid() && i < |mang| && target !in Buffers() && min <= target.Length
      requires min <= ReadCount(mang[i].View())
      requires mang[i].View().readIndex[ReadSide(mang[i].View())] + min <= NUM_COMPLEX
      modifies {mang[i]}`outCount, {mang[i]}`readIndex, target
      ensures Valid() && mang[i].View() == CopyOut(old(mang[i].View()), min)
      ensures target[..min] == CopiedOut(old(mang[i].View()), min)
      ensures forall k | 0 <= k < |mang| && k != i :: mang[k].View() == old(mang[k].View())
    {
      hide BufferManager.View, Shaped, ReadCount, CopyOut, CopiedOut;
      mang[i].CopyOne(target, min);
    }

    /** The copies of fill_buffers: targets[i] is null for a stream that was not
        asked for. */
    method CopyStreams(targets: seq<array?<Sample>>, min: nat)
      requires Valid() && |targets| == |mang|
      requires forall i | 0 <= i < |mang| && targets[i] != null ::
        && min <= ReadCount(mang[i].View()) && mang[i].View().readIndex[ReadSide(mang[i].View())] + min <= NUM_COMPLEX
        && min <= targets[i].Length && targets[i] !in Buffers()
      requires forall i, j | 0 <= i < j < |mang| && targets[i] != null :: targets[i] != targets[j]
      modifies mang`outCount, mang`readIndex, targets
      ensures Valid()
      ensures forall i | 0 <= i < |mang| && targets[i] != null ::
        && mang[i].View() == CopyOut(old(mang[i].View()), min)
        && targets[i][..min] == CopiedOut(old(mang[i].View()), min)
      ensures forall i | 0 <= i < |mang| && targets[i] == null :: mang[i].View() == old(mang[i].View())
    {
      hide BufferManager.View, Shaped, ReadCount, CopyOut, CopiedOut;
      var i := 0;
      while i < |mang|
        invariant i <= |mang| && Valid()
        invariant forall k | 0 <= k < i && targets[k] != null ::
          && mang[k].View() == CopyOut(old(mang[k].View()), min)
          && targets[k][..min] == CopiedOut(old(mang[k].View()), min)
        invariant forall k | 0 <= k < i && targets[k] == null :: mang[k].View() == old(mang[k].View())
        invariant forall k | i <= k < |mang| :: mang[k].View() == old(mang[k].View())
      {
        if targets[i] != null {
          CopyStream(i, targets[i], min);
        }
        i := i + 1;
      }
    }

    /** update_tuners: a stream is to become valid if its number, counted from
        one, is among the tuners. */
    method UpdateTuners(tuners: seq<int>)
      requires Valid()
      modifies mang`tunerValidSafe
      ensures Valid()
      ensures forall i | 0 <= i < |mang| ::
        mang[i].View() == old(mang[i].View()).(validSafe := i + 1 in tuners)
    {
      hide BufferManager.View, Shaped;
      var i := 0;
      while i < |mang|
        invariant i <= |mang| && Valid()
        invariant forall k | 0 <= k < i :: mang[k].View() == old(mang[k].View()).(validSafe := k + 1 in tuners)
        invariant forall k | i <= k < |mang| :: mang[k].View() == old(mang[k].View())
      {
        mang[i].MarkSafe(i + 1, tuners);
        i := i + 1;
      }
    }

    /** handle_flip, its workers idle. */
    method FlipStreams()
      requires Valid()
      modifies mang
      ensures Valid()
      ensures forall i | 0 <= i < |mang| :: mang[i].View() == Flip(old(mang[i].View()))
    {
      var i := 0;
      while i < |mang|
        invariant i <= |mang| && Valid()
        invariant forall k | 0 <= k < i :: mang[k].View() == Flip(old(mang[k].View()))
        invariant forall k | i <= k < |mang| :: mang[k].View() == old(mang[k].View())
      {
        mang[i].FlipOne();
        i := i + 1;
      }
    }

    /** handle_update, its workers idle. */
    method UpdateStreams()
      requires Valid()
      modifies mang
      ensures Valid()
      ensures forall i | 0 <= i < |mang| :: mang[i].View() == Update(old(mang[i].View()))
    {
      var i := 0;
      while i < |mang|
        invariant i <= |mang| && Valid()
        invariant forall k | 0 <= k < i :: mang[k].View() == Update(old(mang[k].View()))
        invariant forall k | i <= k < |mang| :: mang[k].View() == old(mang[k].View())
      {
        mang[i].UpdateOne();
        i := i + 1;
      }
    }

    /** The body of the packet loop, for a packet whose words start ws; running
        tells for each worker what is_running returns, and the wait for one that
        is not running has ended. A packet of a valid stream is accepted if and
        only if its samples leave at least one slot of the buffer being written
        unused; otherwise it is sent round again. */
    method DispatchPacket(h: Header, ws: seq<Word>, running: seq<bool>) returns (r: Outcome)
      requires Valid() && |ws| >= 2 && h == HeaderOf(ws[0]) && false in running
      modifies mang
      ensures Valid()
      ensures r.NotData? <==> h.ptype != 1
      ensures r.BadStream? <==> h.ptype == 1 && ws[1] % 0x100 > |mang|
      ensures r.BeyondArray? <==> h.ptype == 1 && ws[1] % 0x100 == |mang|
      ensures h.ptype == 1 && ws[1] % 0x100 < |mang| ==>
        var i, n := ws[1] % 0x100, PayloadSize(h) / 4; var before := old(mang[i].View());
        && (r.NotValid? <==> !before.valid)
        && (r.Dispatched? <==>
              old(mang[i].tunerValid &&
                  mang[i].outCount[mang[i].outPointer] + n < mang[i].outBuff[mang[i].outPointer].Length))
        && (r.Retry? <==>
              old(mang[i].tunerValid &&
                  mang[i].outCount[mang[i].outPointer] + n >= mang[i].outBuff[mang[i].outPointer].Length))
        && (before.valid && !WellSized(h) ==> r.Retry?)
        && (r.Dispatched? ==>
              && r.stream == i && r.n == n && r.start == WriteCount(before)
              && mang[i].View() == Accept(before, n, h.count)
              && r.target == mang[i].outBuff[before.outPointer]
              && (r.lost <==> Expected(before.lastCount, h.count, MAX_PACKET_COUNT) != h.count)
              && r.worker < |running| && !running[r.worker] && forall w | 0 <= w < r.worker :: running[w])
      ensures forall k | 0 <= k < |mang| && !(r.Dispatched? && k == r.stream) :: mang[k].View() == old(mang[k].View())
    {
      if h.ptype != 1 {
        return NotData;
      }
      assert GetStreamId(ws) == Got(ws[1]);
      var i := GetStreamId(ws).value % 0x100;
      if i > |mang| {
        return BadStream;
      }
      if i == |mang| {
        return BeyondArray;
      }
      assert mang[i].Valid();
      PayloadSizeExact(h);
      if !mang[i].tunerValid {
        return NotValid;
      }
      var n := PayloadSize(h) / 4;
      if mang[i].outCount[mang[i].outPointer] + n >= NUM_COMPLEX {
        return Retry;
      }
      var w := 0;
      while running[w]
        invariant w < |running| && forall v | 0 <= v < w :: running[v]
        decreases |running| - w
      {
        assert exists v | 0 <= v < |running| :: !running[v];
        w := w + 1;
      }
      var lost, target, start := mang[i].AcceptPacket(h.count, n);
      r := Dispatched(i, w, n, lost, target, start);
    }
  }

  /** The conversion loop of process_packet: n slots from `start` on get the
      samples of the payload, all others keep theirs. */
  method ProcessPacket(rx: array<Byte>, at: nat, n: nat, target: array<Sample>, start: nat)
    requires at + 4 * n <= rx.Length && start + n <= target.Length
    modifies target
    ensures target[..] == old(target[..start]) + JobSamples(rx[..], at, n) + old(target[start + n..])
  {
    var j := 0;
    while j < n
      invariant j <= n
      invariant forall k | 0 <= k < j :: target[start + k] == Convert(WordAt(rx[..], at + 4 * k))
      invariant target[..start] == old(target[..start])
      invariant target[start + n..] == old(target[start + n..])
    {
      target[start + j] := Convert(WordAt(rx[..], at + 4 * j));
      j := j + 1;
    }
    assert target[start..start + n] == JobSamples(rx[..], at, n);
    assert target[..] == target[..start] + target[start..start + n] + target[start + n..];
  }
}
