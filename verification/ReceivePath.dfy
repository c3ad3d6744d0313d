/** Listener and frame loop together: from datagrams to frames. */
module ReceivePath {
  import opened Words
  import opened Reassembly
  import opened LossReports
  import opened FrameLoop
  import Listener
  import VrlFrame
  import VrtPacket
  import Streams

  lemma {:induction false} FeedOneMore(tail: seq<Byte>, chunks: seq<seq<Byte>>, c: seq<Byte>)
    ensures var p := Feed(tail, chunks);
      && (p.stuck ==> Feed(tail, chunks + [c]) == p)
      && (!p.stuck && c == [] ==> Feed(tail, chunks + [c]) == p)
      && (!p.stuck && c != [] ==> Feed(tail, chunks + [c]) == Then(p.frames, Consume(p.tail + c)))
    decreases |chunks|
  {
    hide Consume;
    if chunks == [] {
      var p := Consume(tail + c);
      assert [c][1..] == [];
      assert [] + p.frames == p.frames && p.frames + [] == p.frames;
    } else {
      assert (chunks + [c])[1..] == chunks[1..] + [c];
      if chunks[0] == [] {
        FeedOneMore(tail, chunks[1..], c);
      } else {
        var q := Consume(tail + chunks[0]);
        FeedOneMore(q.tail, chunks[1..], c);
        if c != [] {
          var r := Feed(q.tail, chunks[1..]);
          ThenTwice(q.frames, r.frames, Consume(r.tail + c));
        }
      }
    }
  }

  /** The datagrams so far are the start of a stream of well-formed frames, and
      none were flushed. */
  ghost predicate CleanRun(fs: seq<seq<Byte>>, h: seq<Listener.Turn>) {
    && (forall f | f in fs :: WellFormed(f))
    && (forall j | 0 <= j < |h| :: !Listener.FlushAt(h, j))
    && Listener.Datagrams(h) <= Flatten(fs)
  }

  ghost function HandedOver(h: seq<Listener.Turn>): seq<seq<Byte>> {
    Listener.Chunks(Listener.After(h).replies)
  }

  /** However the datagrams fall into turns and whenever switches are requested,
      the frames parsed are the first frames sent, in order, and every received
      byte is in a parsed frame, in the saved tail, or still in the listener. */
  lemma {:induction false} FramesReceived(fs: seq<seq<Byte>>, h: seq<Listener.Turn>)
    requires CleanRun(fs, h)
    ensures var p := Feed([], HandedOver(h)); var k := |p.frames|;
      && !p.stuck && k <= |fs| && p.frames == FoundAll(fs[..k])
      && |p.tail| < UDP_START_INDEX
      && Flatten(fs[..k]) + p.tail + Listener.After(h).pending == Listener.Datagrams(h)
  {
    hide WellFormed, Feed, FoundAll;
    Listener.NothingLost(h);
    var c, d := Flatten(HandedOver(h)), Listener.Datagrams(h);
    assert c == d[..|c|] == Flatten(fs)[..|d|][..|c|];
    ChunkIndependence(fs, HandedOver(h));
  }

  /** Frames numbered consecutively modulo 4096 cause no frame loss report. */
  lemma {:induction false} NoFalseFrameLoss(fs: seq<seq<Byte>>, h: seq<Listener.Turn>, first: nat)
    requires CleanRun(fs, h)
    requires forall i | 0 <= i < |fs| :: Found(fs[i]).frame.count == (first + i) % 4096
    ensures true !in Reports(-1, FrameCounts(Feed([], HandedOver(h)).frames), MAX_FRAME_COUNT)
  {
    hide WellFormed, Feed, Found;
    FramesReceived(fs, h);
    var frames := Feed([], HandedOver(h)).frames;
    CountsOfFound(fs, |frames|);
    ConsecutiveIsSilent(FrameCounts(frames), MAX_FRAME_COUNT, first);
  }

  lemma {:induction false} CountsOfFound(fs: seq<seq<Byte>>, k: nat)
    requires k <= |fs| && forall f | f in fs :: WellFormed(f)
    ensures forall i | 0 <= i < k :: FrameCounts(FoundAll(fs[..k]))[i] == Found(fs[i]).frame.count
    ensures forall i | 0 <= i < k :: 0 <= FrameCounts(FoundAll(fs[..k]))[i] < 4096
    decreases k
  {
    hide WellFormed, VrlFrame.Walk, ToWords;
    if k > 0 {
      CountsOfFound(fs[1..], k - 1);
      assert fs[..k][1..] == fs[1..][..k - 1];
      var a, b := FrameCounts(FoundAll(fs[..k])), FrameCounts(FoundAll(fs[1..][..k - 1]));
      assert forall i | 1 <= i < k :: a[i] == b[i - 1] && fs[i] == fs[1..][i - 1];
    }
  }

  /** The reader has processed the first n chunks handed over. */
  ghost predicate Processed(r: FrameReader, h: seq<Listener.Turn>, n: nat)
    requires r.Valid()
    reads r, r.overflowBuffer
  {
    n <= |HandedOver(h)| && r.Saved() == Feed([], HandedOver(h)[..n]).tail
  }

  /** The manager collects the last chunk and processes it in the listener's own
      buffer. On a clean run what the code relies on holds, the new frames are
      those the chunk completes, and the listener's data are left alone. */
  method CollectAndProcess(l: Listener.UdpListener, r: FrameReader, ghost fs: seq<seq<Byte>>)
      returns (found: seq<Received>, fault: Fault)
    requires l.Valid() && !l.doSwitch && r.Valid()
    requires r.overflowBuffer != l.buffers[0] && r.overflowBuffer != l.buffers[1]
    requires CleanRun(fs, l.history) && |HandedOver(l.history)| > 0
    requires Processed(r, l.history, |HandedOver(l.history)| - 1)
    modifies r`amntSaved, r`lastFrameCount, r`printed, r.overflowBuffer, l.buffers
    ensures l.Valid() && r.Valid() && fault.NoFault?
    ensures Processed(r, l.history, |HandedOver(l.history)|)
    ensures var c := HandedOver(l.history);
      Feed([], c).frames == Feed([], c[..|c| - 1]).frames + found
  {
    hide Consume, Feed, CleanRun, HandedOver, Listener.After;
    ghost var h := l.history;
    NextChunk(fs, h);
    var side, length := l.Collect();
    ghost var chunk := l.buffers[side][UDP_START_INDEX..UDP_START_INDEX + length];
    ghost var replies := Listener.After(h).replies;
    assert chunk == replies[|replies| - 1].chunk;
    found, fault := r.ProcessBuffer(l.buffers[side], length);
    DataKept(l.buffers[side][..], old(l.buffers[side][..]), l.curIndex);
    DataKept(l.buffers[side][..], old(l.buffers[side][..]), UDP_START_INDEX + length);
  }

  lemma DataKept(now: seq<Byte>, before: seq<Byte>, end: nat)
    requires UDP_START_INDEX <= end <= |now| == |before|
    requires now[UDP_START_INDEX..] == before[UDP_START_INDEX..]
    ensures now[UDP_START_INDEX..end] == before[UDP_START_INDEX..end]
  {
    assert now[UDP_START_INDEX..end] == now[UDP_START_INDEX..][..end - UDP_START_INDEX];
  }

  /** The next chunk of a clean run meets what ProcessBuffer relies on. */
  lemma NextChunk(fs: seq<seq<Byte>>, h: seq<Listener.Turn>)
    requires CleanRun(fs, h) && |HandedOver(h)| > 0
    ensures var c := HandedOver(h); var n := |c| - 1;
      var replies := Listener.After(h).replies;
      var p, q := Feed([], c[..n]), Feed([], c);
      && |replies| > 0 && replies[|replies| - 1].chunk == c[n]
      && c[..|c|] == c
      && (c[n] == [] ==> q == p && q.frames == p.frames + [])
      && (c[n] != [] ==>
            var s := Consume(p.tail + c[n]);
            !s.stuck && |s.tail| <= UDP_START_INDEX && q.tail == s.tail && q.frames == p.frames + s.frames)
  {
    hide WellFormed, Feed, Consume;
    var c := HandedOver(h);
    var n := |c| - 1;
    PrefixClean(fs, h, n);
    FramesReceived(fs, h);
    assert c == c[..n] + [c[n]];
    FeedOneMore([], c[..n], c[n]);
  }

  lemma PrefixClean(fs: seq<seq<Byte>>, h: seq<Listener.Turn>, n: nat)
    requires CleanRun(fs, h) && n <= |HandedOver(h)|
    ensures !Feed([], HandedOver(h)[..n]).stuck
  {
    hide WellFormed, Feed;
    Listener.NothingLost(h);
    var all := HandedOver(h);
    assert all == all[..n] + all[n..];
    FlattenAppend(all[..n], all[n..]);
    var c, d := Flatten(all[..n]), Listener.Datagrams(h);
    assert c == d[..|c|] == Flatten(fs)[..|d|][..|c|];
    ChunkIndependence(fs, all[..n]);
  }

  /** From frames to samples: the payload of a well-formed packet that was parsed
      out of bytes from..to of the receive buffer lies in the buffer at the
      address the code computes, and a worker sent there stores the conversion
      of exactly the words the sender put into the packet. */
  lemma {:induction false} PayloadInBuffer(b: seq<Byte>, from: nat, to: nat, r: VrlFrame.PacketRef)
    requires from <= to <= |b| && ParseAt(b[from..to]).Ok?
    requires var f := ParseAt(b[from..to]).value; f.size >= 3 && r in f.packets
    requires VrtPacket.WellSized(r.header)
    ensures var f, ws := ParseAt(b[from..to]).value, ToWords(b[from..to]);
      var first := f.skipped + r.offset;
      var at := from + 4 * (first + VrtPacket.FieldOffset(r.header, VrtPacket.PayloadField));
      var n := VrtPacket.PayloadSize(r.header) / 4;
      && first <= |ws| && VrtPacket.PacketHere(ws[first..]) && at + 4 * n <= to
      && var p := VrtPacket.Decode(ws[first..]);
         |p.payload| == n &&
         forall j | 0 <= j < n :: Streams.JobSamples(b, at, n)[j] == Streams.Convert(p.payload[j])
  {
    hide VrtPacket.HeaderOf, VrtPacket.Decode, VrtPacket.PacketHere, VrtPacket.FieldOffset, VrtPacket.PayloadSize,
         VrtPacket.WellSized, VrlFrame.Parse, VrlFrame.FirstFrameAt, VrlFrame.Chain, Streams.Convert, WordAt;
    var c := b[from..to];
    var ws := ToWords(c);
    VrlFrame.ParsedFrameFits(ws, |c|);
    var f := ParseAt(c).value;
    var d := ws[f.skipped..];
    assert VrlFrame.Chain(d, f.size, 2, f.packets);
    PacketInFrame(d, f.size, f.packets, r);
    var first := f.skipped + r.offset;
    assert ws[first..] == d[r.offset..] && ws[first] == d[r.offset];
    PayloadWords(b, from, to, first);
  }

  lemma PacketInFrame(d: seq<Word>, frameSize: nat, refs: seq<VrlFrame.PacketRef>, r: VrlFrame.PacketRef)
    requires VrlFrame.Chain(d, frameSize, 2, refs) && r in refs && VrtPacket.WellSized(r.header)
    ensures r.offset < |d| && VrtPacket.PacketHere(d[r.offset..]) && VrtPacket.HeaderOf(d[r.offset]) == r.header
  {
    hide VrtPacket.HeaderOf;
    var i :| 0 <= i < |refs| && refs[i] == r;
    VrtPacket.HeaderValid(d[r.offset]);
    assert d[r.offset..][0] == d[r.offset];
  }

  lemma PayloadWords(b: seq<Byte>, from: nat, to: nat, first: nat)
    requires from <= to <= |b|
    requires var ws := ToWords(b[from..to]); first < |ws| && VrtPacket.PacketHere(ws[first..])
    ensures var ws := ToWords(b[from..to]);
      var h := VrtPacket.HeaderOf(ws[first]);
      var at := from + 4 * (first + VrtPacket.FieldOffset(h, VrtPacket.PayloadField));
      var n := VrtPacket.PayloadSize(h) / 4;
      var p := VrtPacket.Decode(ws[first..]);
      && at + 4 * n <= to && |p.payload| == n
      && forall j | 0 <= j < n :: WordAt(b, at + 4 * j) == p.payload[j]
  {
    hide VrtPacket.HeaderOf, VrtPacket.Decode, VrtPacket.FieldOffset, VrtPacket.PayloadSize;
    var c := b[from..to];
    var ws := ToWords(c);
    assert ws[first..][0] == ws[first];
    var h := VrtPacket.HeaderOf(ws[first]);
    var o, n := VrtPacket.FieldOffset(h, VrtPacket.PayloadField), VrtPacket.PayloadSize(h) / 4;
    VrtPacket.DecodedPayload(ws[first..]);
    assert o + n <= |ws| - first;
    assert 4 * |ws| <= |c|;
    forall j | 0 <= j < n
      ensures WordAt(b, from + 4 * (first + o) + 4 * j) == ws[first..][o..o + n][j]
    {
      var k := first + o + j;
      assert ws[first..][o..o + n][j] == ws[k] == WordAt(c, 4 * k);
    }
  }
}
