/** The byte-level state of complex_manager and one turn of its outer loop on
    one receive buffer, done in place. */
module FrameLoop {
  import opened Words
  import opened VrlFrame
  import opened LossReports
  import opened Reassembly

  function FrameCounts(frames: seq<Received>): (c: seq<int>)
    ensures |c| == |frames|
  {
    if frames == [] then [] else [frames[0].frame.count] + FrameCounts(frames[1..])
  }

  lemma {:induction false} FrameCountsSnoc(frames: seq<Received>, f: Received)
    ensures FrameCounts(frames + [f]) == FrameCounts(frames) + [f.frame.count]
    decreases |frames|
  {
    if frames == [] {
      assert [f][1..] == [];
    } else {
      assert (frames + [f])[1..] == frames[1..] + [f];
      FrameCountsSnoc(frames[1..], f);
    }
  }

  /** Where the code goes wrong on a buffer: a frame that does not move the index,
      on which it loops for ever, or a rest larger than the overflow buffer,
      which it writes past. The methods below stop there. */
  datatype Fault = NoFault | Stuck | Overrun

  class FrameReader {
    var overflowBuffer: array<Byte>
    var amntSaved: nat
    var lastFrameCount: int
    /** One entry per frame: was an F printed for it? */
    ghost var printed: seq<bool>

    ghost predicate Valid()
      reads this, overflowBuffer
    {
      overflowBuffer.Length == UDP_START_INDEX && amntSaved <= UDP_START_INDEX
    }

    ghost function Saved(): seq<Byte>
      requires Valid()
      reads this, overflowBuffer
    {
      overflowBuffer[..amntSaved]
    }

    constructor ()
      ensures Valid() && Saved() == [] && lastFrameCount == -1 && printed == []
      ensures fresh(overflowBuffer)
    {
      overflowBuffer := new Byte[UDP_START_INDEX](_ => 0);
      amntSaved := 0;
      lastFrameCount := -1;
      printed := [];
    }

    /** The frame counter check; the console is the log `printed`. */
    method CheckFrameCount(got: int)
      modifies this`lastFrameCount, this`printed
      ensures lastFrameCount == got
      ensures printed == old(printed) + [Expected(old(lastFrameCount), got, MAX_FRAME_COUNT) != got]
    {
      lastFrameCount := lastFrameCount + 1;
      if lastFrameCount == 0 {
        lastFrameCount := got;
      } else if lastFrameCount > MAX_FRAME_COUNT {
        lastFrameCount := 0;
      }
      printed := printed + [lastFrameCount != got];
      lastFrameCount := got;
    }

    /** Copies the saved bytes in front of the received ones. */
    method TakeSaved(buf: array<Byte>, totalLength: nat) returns (byteIndex: nat)
      requires Valid() && buf != overflowBuffer && UDP_START_INDEX <= totalLength <= buf.Length
      modifies this`amntSaved, buf
      ensures amntSaved == 0 && byteIndex <= UDP_START_INDEX
      ensures buf[byteIndex..totalLength] == old(Saved() + buf[UDP_START_INDEX..totalLength])
      ensures buf[UDP_START_INDEX..] == old(buf[UDP_START_INDEX..])
    {
      byteIndex := UDP_START_INDEX - amntSaved;
      forall i | 0 <= i < amntSaved {
        buf[byteIndex + i] := overflowBuffer[i];
      }
      amntSaved := 0;
    }

    /** Saves what is left of the buffer for the next one, if it fits. */
    method SaveRest(buf: array<Byte>, byteIndex: nat, totalLength: nat) returns (fault: Fault)
      requires Valid() && buf != overflowBuffer && byteIndex <= totalLength <= buf.Length
      modifies this`amntSaved, overflowBuffer
      ensures Valid()
      ensures fault == if totalLength - byteIndex > UDP_START_INDEX then Overrun else NoFault
      ensures fault.NoFault? ==> Saved() == buf[byteIndex..totalLength]
      ensures fault.Overrun? ==> amntSaved == old(amntSaved)
    {
      if totalLength - byteIndex > UDP_START_INDEX {
        return Overrun;
      }
      fault := NoFault;
      amntSaved := totalLength - byteIndex;
      forall i | 0 <= i < amntSaved {
        overflowBuffer[i] := buf[byteIndex + i];
      }
    }

    /** One call of VRLFrame::parse, on the bytes from byteIndex to totalLength. */
    method ParseNext(buf: array<Byte>, byteIndex: nat, totalLength: nat) returns (r: Outcome<Received>)
      requires byteIndex < totalLength <= buf.Length
      ensures var rest := buf[byteIndex..totalLength];
        match r
        case IndexError => Consume(rest) == Pass([], rest, false)
        case RuntimeError => Consume(rest) == Pass([], [], false)
        case Ok(one) =>
          && Advance(one.frame) <= |rest|
          && if Advance(one.frame) == 0 then Consume(rest) == Pass([], rest, true)
             else Consume(rest) == Then([one], Consume(rest[Advance(one.frame)..]))
    {
      hide Consume, Parse, ToWords;
      ConsumeOne(buf[byteIndex..totalLength]);
      var data := ToWords(buf[byteIndex..totalLength]);
      var p := ParseFrame(data, totalLength - byteIndex);
      match p {
        case Ok(frame) => r := Ok(Received(frame, data[frame.skipped..frame.skipped + frame.size]));
        case IndexError => r := IndexError;
        case RuntimeError => r := RuntimeError;
      }
    }

    /** What the loop over one buffer, whose bytes are `input`, comes to. */
    ghost predicate Result(input: seq<Byte>, found: seq<Received>, fault: Fault)
      requires Valid()
      reads this, overflowBuffer
    {
      var p := Consume(input);
      && found == p.frames
      && (fault.Stuck? <==> p.stuck)
      && (fault.Overrun? <==> !p.stuck && |p.tail| > UDP_START_INDEX)
      && (fault.NoFault? ==> Saved() == p.tail)
    }

    /** The inner loop of operator(). */
    method ParseBuffer(buf: array<Byte>, from: nat, totalLength: nat) returns (found: seq<Received>, fault: Fault)
      requires Valid() && amntSaved == 0 && buf != overflowBuffer && from <= totalLength <= buf.Length
      modifies this`amntSaved, this`lastFrameCount, this`printed, overflowBuffer
      ensures Valid() && Result(buf[from..totalLength], found, fault)
      ensures lastFrameCount == LastOf(old(lastFrameCount), FrameCounts(found))
      ensures printed == old(printed) +
              Reports(old(lastFrameCount), FrameCounts(found), MAX_FRAME_COUNT)
    {
      hide Consume, Reports, FrameCounts, Expected;
      found, fault := [], NoFault;
      var byteIndex := from;
      ghost var whole := Consume(buf[from..totalLength]);
      assert [] + whole.frames == whole.frames;
      while byteIndex < totalLength
        invariant byteIndex <= totalLength && Valid() && amntSaved == 0
        invariant whole == Then(found, Consume(buf[byteIndex..totalLength]))
        invariant lastFrameCount == LastOf(old(lastFrameCount), FrameCounts(found))
        invariant printed == old(printed) +
                  Reports(old(lastFrameCount), FrameCounts(found), MAX_FRAME_COUNT)
        decreases totalLength - byteIndex
      {
        ghost var rest := buf[byteIndex..totalLength];
        assert found + [] == found;
        var r := ParseNext(buf, byteIndex, totalLength);
        match r {
          case Ok(one) =>
            var step := one.frame.skipped * 4 + one.frame.size * 4;
            if step == 0 {
              return found, Stuck;
            }
            TakeFrame(found, one, whole, rest);
            byteIndex := byteIndex + step;
            assert rest[step..] == buf[byteIndex..totalLength];
            CheckFrameCount(one.frame.count);
            found := found + [one];
          case IndexError =>
            fault := SaveRest(buf, byteIndex, totalLength);
            return;
          case RuntimeError =>
            return;
        }
      }
      ConsumeOne([]);
      assert buf[byteIndex..totalLength] == [];
      assert found + [] == found;
    }

    /** One buffer of `length` received bytes, which start at UDP_START_INDEX.
        The frames found, the bytes saved and the loss reports are those of
        Consume on the saved bytes followed by the received ones; faults occur
        exactly when that pass is stuck or saves too much. */
    method ProcessBuffer(buf: array<Byte>, length: nat) returns (found: seq<Received>, fault: Fault)
      requires Valid() && buf != overflowBuffer
      requires UDP_START_INDEX + length <= buf.Length
      modifies this`amntSaved, this`lastFrameCount, this`printed, buf, overflowBuffer
      ensures Valid()
      ensures buf[UDP_START_INDEX..] == old(buf[UDP_START_INDEX..])
      ensures length == 0 ==> found == [] && fault.NoFault? && Saved() == old(Saved())
      ensures length > 0 ==>
              Result(old(Saved() + buf[UDP_START_INDEX..UDP_START_INDEX + length]), found, fault)
      ensures lastFrameCount == LastOf(old(lastFrameCount), FrameCounts(found))
      ensures printed == old(printed) +
              Reports(old(lastFrameCount), FrameCounts(found), MAX_FRAME_COUNT)
    {
      hide Consume, Result;
      found, fault := [], NoFault;
      if length == 0 {
        return;
      }
      var byteIndex := UDP_START_INDEX;
      var totalLength := length + UDP_START_INDEX;
      ghost var input := Saved() + buf[UDP_START_INDEX..totalLength];
      if amntSaved != 0 {
        byteIndex := TakeSaved(buf, totalLength);
      }
      assert buf[byteIndex..totalLength] == input;
      found, fault := ParseBuffer(buf, byteIndex, totalLength);
    }

    /** What finding one more frame does to the pass and to the counter. */
    lemma TakeFrame(found: seq<Received>, one: Received, whole: Pass, rest: seq<Byte>)
      requires 0 < Advance(one.frame) <= |rest|
      requires whole == Then(found, Consume(rest))
      requires Consume(rest) == Then([one], Consume(rest[Advance(one.frame)..]))
      ensures whole == Then(found + [one], Consume(rest[Advance(one.frame)..]))
      ensures forall last :: Reports(last, FrameCounts(found + [one]), MAX_FRAME_COUNT) ==
                Reports(last, FrameCounts(found), MAX_FRAME_COUNT) +
                [Expected(LastOf(last, FrameCounts(found)), one.frame.count, MAX_FRAME_COUNT) != one.frame.count]
      ensures forall last :: LastOf(last, FrameCounts(found + [one])) == one.frame.count
    {
      hide Consume, Reports, Expected;
      ThenTwice(found, [one], Consume(rest[Advance(one.frame)..]));
      FrameCountsSnoc(found, one);
      forall last
        ensures Reports(last, FrameCounts(found + [one]), MAX_FRAME_COUNT) ==
                Reports(last, FrameCounts(found), MAX_FRAME_COUNT) +
                [Expected(LastOf(last, FrameCounts(found)), one.frame.count, MAX_FRAME_COUNT) != one.frame.count]
      {
        ReportsSnoc(last, FrameCounts(found), one.frame.count, MAX_FRAME_COUNT);
      }
    }
  }

  lemma ThenTwice(a: seq<Received>, b: seq<Received>, p: Pass)
    ensures Then(a, Then(b, p)) == Then(a + b, p)
  {
    assert a + (b + p.frames) == a + b + p.frames;
  }
}
