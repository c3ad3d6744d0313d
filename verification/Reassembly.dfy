/** Stream reassembly: the outer part of complex_manager::operator(), which glues
    the saved tail of one chunk in front of the next and parses frames. */
module Reassembly {
  import opened Words
  import opened VrlFrame
  import VrtPacket
  import Listener

  /** Headroom in front of received data, and the size of the overflow buffer. */
  const UDP_START_INDEX: nat := Listener.UDP_START_INDEX

  /** VRLFrame::parse on the bytes from byte_index to total_length. */
  function ParseAt(b: seq<Byte>): Outcome<Frame> {
    Parse(ToWords(b), |b|)
  }

  /** A frame as found, with its words. */
  datatype Received = Received(frame: Frame, words: seq<Word>)

  function Advance(f: Frame): nat {
    4 * f.skipped + 4 * f.size
  }

  /** What the pass over one buffer yields: frames in order, the bytes saved for
      next time, and whether the index stopped moving forward. */
  datatype Pass = Pass(frames: seq<Received>, tail: seq<Byte>, stuck: bool)

  /** How one turn of the inner loop moves byte_index: forward and never past
      the end, except on a frame whose size field is zero. */
  lemma {:induction false} ParseProgress(b: seq<Byte>)
    requires ParseAt(b).Ok?
    ensures var f := ParseAt(b).value;
      && Advance(f) <= |b| && f.skipped + f.size <= |ToWords(b)|
      && (Advance(f) == 0 <==> FirstFrameAt(ToWords(b), |b|, 0) && FrameSize(ToWords(b)[1]) == 0)
  {
    ParsedFrameFits(ToWords(b), |b|);
  }

  function Consume(b: seq<Byte>): Pass
  {
    if b == [] then Pass([], [], false)
    else match ParseAt(b)
      case IndexError => Pass([], b, false)
      case RuntimeError => Pass([], [], false)
      case Ok(f) =>
        ParseProgress(b);
        if Advance(f) == 0 then Pass([], b, true)
        else Then([Received(f, ToWords(b)[f.skipped..f.skipped + f.size])], Consume(b[Advance(f)..]))
  }

  /** One turn of the inner loop, in terms of Consume. */
  lemma ConsumeOne(b: seq<Byte>)
    ensures b == [] ==> Consume(b) == Pass([], [], false)
    ensures b != [] ==> match Parse(ToWords(b), |b|)
      case IndexError => Consume(b) == Pass([], b, false)
      case RuntimeError => Consume(b) == Pass([], [], false)
      case Ok(f) =>
        && Advance(f) <= |b| && f.skipped + f.size <= |ToWords(b)|
        && if Advance(f) == 0 then Consume(b) == Pass([], b, true)
           else Consume(b) == Then([Received(f, ToWords(b)[f.skipped..f.skipped + f.size])], Consume(b[Advance(f)..]))
  {
    hide Parse, ToWords, FirstFrameAt;
    if b != [] && ParseAt(b).Ok? {
      ParseProgress(b);
    }
  }

  function Then(frames: seq<Received>, rest: Pass): Pass {
    rest.(frames := frames + rest.frames)
  }

  /** A whole run: each non-empty chunk goes behind the tail saved before. */
  function Feed(tail: seq<Byte>, chunks: seq<seq<Byte>>): Pass
    decreases |chunks|
  {
    if chunks == [] then Pass([], tail, false)
    else if chunks[0] == [] then Feed(tail, chunks[1..])
    else
      var p := Consume(tail + chunks[0]);
      if p.stuck then p else Then(p.frames, Feed(p.tail, chunks[1..]))
  }

  // ---- Well-formed streams -----------------------------------------------

  /** The bytes of one complete frame that the parser accepts, 5 words to 40000
      bytes long. */
  predicate WellFormed(f: seq<Byte>) {
    && |f| % 4 == 0 && 20 <= |f| <= UDP_START_INDEX
    && var ws := ToWords(f);
       Aligned(ws[0]) && FrameSize(ws[1]) == |ws| && Walk(ws, |ws|, 2).Ok?
  }

  function Found(f: seq<Byte>): Received
    requires WellFormed(f)
  {
    var ws := ToWords(f);
    Received(Frame(0, ws[0], FrameCount(ws[1]), |ws|, Walk(ws, |ws|, 2).value), ws)
  }

  function FoundAll(fs: seq<seq<Byte>>): (r: seq<Received>)
    requires forall f | f in fs :: WellFormed(f)
    ensures |r| == |fs|
  {
    if fs == [] then [] else [Found(fs[0])] + FoundAll(fs[1..])
  }

  /** The walk looks only at the words of its own frame. */
  lemma {:induction false} WalkLocal(d: seq<Word>, e: seq<Word>, frameSize: nat, offset: nat)
    requires 3 <= frameSize <= |d| && frameSize <= |e| && d[..frameSize] == e[..frameSize]
    requires offset < frameSize
    ensures Walk(d, frameSize, offset) == Walk(e, frameSize, offset)
    decreases frameSize - offset
  {
    hide VrtPacket.HeaderOf, Offered;
    assert d[offset] == d[..frameSize][offset] == e[offset];
    var h := VrtPacket.HeaderOf(d[offset]);
    if h.size > 0 && offset + h.size + 1 < frameSize {
      WalkLocal(d, e, frameSize, offset + h.size);
    }
  }

  lemma WordsOfPrefix(f: seq<Byte>, b: seq<Byte>)
    requires |f| % 4 == 0 && f <= b
    ensures |ToWords(f)| <= |ToWords(b)| && ToWords(b)[..|ToWords(f)|] == ToWords(f)
  {
    forall j | 0 <= j < |ToWords(f)|
      ensures ToWords(b)[j] == ToWords(f)[j]
    {
      assert WordAt(b, 4 * j) == WordAt(f, 4 * j);
    }
  }

  /** A complete frame parses the same whatever follows it. */
  lemma {:induction false} WholeFrame(f: seq<Byte>, b: seq<Byte>)
    requires WellFormed(f) && f <= b
    ensures ParseAt(b) == Ok(Found(f).frame)
    ensures ToWords(b)[..|f| / 4] == Found(f).words
  {
    hide Walk;
    var ws, n := ToWords(b), |f| / 4;
    WordsOfPrefix(f, b);
    assert ws[0] == ws[..n][0] && ws[1] == ws[..n][1];
    assert ws[0..] == ws;
    WalkLocal(ws, ToWords(f), n, 2);
  }

  /** A frame cut short is recognised as incomplete. */
  lemma {:induction false} PartialFrame(f: seq<Byte>, b: seq<Byte>)
    requires WellFormed(f) && b <= f && b != f
    ensures ParseAt(b) == IndexError
  {
    hide Walk;
    if |b| >= 20 {
      assert WordAt(b, 0) == WordAt(f, 0) && WordAt(b, 4) == WordAt(f, 4);
      assert ToWords(b)[0] == ToWords(f)[0] && ToWords(b)[1] == ToWords(f)[1];
    }
  }

  /** How many of the frames are complete in the first n bytes of the stream. */
  function Whole(fs: seq<seq<Byte>>, n: nat): (k: nat)
    ensures k <= |fs|
  {
    if fs == [] || n < |fs[0]| then 0 else 1 + Whole(fs[1..], n - |fs[0]|)
  }

  /** What has arrived (b) of a stream of frames: k whole ones, then a proper
      part of the next one. */
  predicate SplitsAt(fs: seq<seq<Byte>>, b: seq<Byte>, k: nat, tail: seq<Byte>) {
    && k <= |fs| && b == Flatten(fs[..k]) + tail
    && if k < |fs| then tail < fs[k] else tail == []
  }

  lemma {:induction false} WholeSplits(fs: seq<seq<Byte>>, b: seq<Byte>) returns (tail: seq<Byte>)
    requires b <= Flatten(fs)
    ensures SplitsAt(fs, b, Whole(fs, |b|), tail)
    decreases |fs|
  {
    if fs == [] {
      tail := [];
    } else {
      var n := |fs[0]|;
      if |b| < n {
        tail := b;
        assert forall i | 0 <= i < |b| :: b[i] == Flatten(fs)[i] == fs[0][i];
      } else {
        CutFirst(fs, b);
        tail := WholeSplits(fs[1..], b[n..]);
        var k := Whole(fs[1..], |b[n..]|);
        assert fs[..k + 1] == [fs[0]] + fs[1..][..k];
        assert b == fs[0] + b[n..];
      }
    }
  }

  lemma CutFirst(fs: seq<seq<Byte>>, b: seq<Byte>)
    requires fs != [] && b <= Flatten(fs) && |b| >= |fs[0]|
    ensures fs[0] <= b
    ensures b[|fs[0]|..] <= Flatten(fs[1..])
  {
    var n, s := |fs[0]|, Flatten(fs);
    assert b == s[..|b|];
    assert b[..n] == s[..n] == fs[0];
    assert b[n..] == s[n..][..|b| - n];
  }

  /** One buffer: whole frames gs, then nothing or a proper part of a next one. */
  lemma {:induction false} ConsumeFrames(gs: seq<seq<Byte>>, next: seq<Byte>, tail: seq<Byte>)
    requires forall f | f in gs :: WellFormed(f)
    requires tail == [] || (WellFormed(next) && tail < next)
    ensures Consume(Flatten(gs) + tail) == Pass(FoundAll(gs), tail, false)
    decreases |gs|
  {
    hide ParseAt, WellFormed, Found;
    if gs == [] {
      assert Flatten(gs) + tail == tail;
      if tail != [] {
        PartialFrame(next, tail);
      }
    } else {
      var rest := Flatten(gs[1..]) + tail;
      assert Flatten(gs) + tail == gs[0] + rest;
      ConsumeFrames(gs[1..], next, tail);
      ConsumeFirst(gs[0], rest);
    }
  }

  lemma ConsumeSplit(fs: seq<seq<Byte>>, b: seq<Byte>, k: nat, tail: seq<Byte>)
    requires forall f | f in fs :: WellFormed(f)
    requires SplitsAt(fs, b, k, tail)
    ensures forall f | f in fs[..k] :: WellFormed(f)
    ensures Consume(b) == Pass(FoundAll(fs[..k]), tail, false)
  {
    hide WellFormed, Consume, FoundAll;
    if k < |fs| { assert fs[k] in fs; }
    ConsumeFrames(fs[..k], if k < |fs| then fs[k] else [], tail);
  }

  lemma ConsumeFirst(f: seq<Byte>, rest: seq<Byte>)
    requires WellFormed(f)
    ensures Consume(f + rest) == Then([Found(f)], Consume(rest))
  {
    hide ParseAt, Walk;
    var b := f + rest;
    WholeFrame(f, b);
    ParseProgress(b);
    assert b[|f|..] == rest;
    var p := Found(f).frame;
    assert Advance(p) == |f|;
    assert ToWords(b)[p.skipped..p.skipped + p.size] == Found(f).words;
  }

  /** Resuming: the state left by a split run, fed what is still to come. */
  lemma {:induction false} FeedFrames(fs: seq<seq<Byte>>, tail: seq<Byte>, chunks: seq<seq<Byte>>)
    requires forall f | f in fs :: WellFormed(f)
    requires tail + Flatten(chunks) <= Flatten(fs)
    requires if fs == [] then tail == [] else |tail| < |fs[0]|
    ensures Feed(tail, chunks) == Consume(tail + Flatten(chunks))
    decreases |chunks|
  {
    hide WellFormed, FoundAll;
    if chunks == [] {
      assert tail + Flatten(chunks) == tail;
      var t := WholeSplits(fs, tail);
      assert Whole(fs, |tail|) == 0;
      assert Flatten(fs[..0]) + t == t;
      ConsumeSplit(fs, tail, 0, t);
    } else if chunks[0] == [] {
      assert Flatten(chunks) == Flatten(chunks[1..]);
      FeedFrames(fs, tail, chunks[1..]);
    } else {
      var b, after := tail + chunks[0], Flatten(chunks[1..]);
      assert tail + Flatten(chunks) == b + after;
      assert b <= b + after;
      var all := Flatten(fs);
      assert b == (b + after)[..|b|] == all[..|b|];
      var t := WholeSplits(fs, b);
      var k := Whole(fs, |b|);
      ConsumeSplit(fs, b, k, t);
      Remaining(fs, b, k, t, after);
      FeedFrames(fs[k..], t, chunks[1..]);
      ConsumeOn(fs[..k], t, after);
    }
  }

  lemma Remaining(fs: seq<seq<Byte>>, b: seq<Byte>, k: nat, t: seq<Byte>, after: seq<Byte>)
    requires SplitsAt(fs, b, k, t) && b + after <= Flatten(fs)
    ensures t + after <= Flatten(fs[k..])
    ensures fs[k..] != [] ==> fs[k..][0] == fs[k] && |t| < |fs[k]|
  {
    assert fs == fs[..k] + fs[k..];
    FlattenAppend(fs[..k], fs[k..]);
    var n := |Flatten(fs[..k])|;
    assert b + after == Flatten(fs[..k]) + (t + after);
    assert t + after == (b + after)[n..];
    assert Flatten(fs[k..]) == Flatten(fs)[n..];
    assert (b + after) == Flatten(fs)[..|b + after|];
    assert (b + after)[n..] == Flatten(fs)[n..][..|t + after|];
  }

  /** Consuming whole frames first and the rest afterwards changes nothing. */
  lemma {:induction false} ConsumeOn(gs: seq<seq<Byte>>, t: seq<Byte>, after: seq<Byte>)
    requires forall f | f in gs :: WellFormed(f)
    ensures Consume(Flatten(gs) + t + after) == Then(FoundAll(gs), Consume(t + after))
    decreases |gs|
  {
    hide WellFormed, Consume, Found;
    var c := Consume(t + after).frames;
    if gs == [] {
      assert Flatten(gs) + t + after == t + after;
      assert [] + c == c;
    } else {
      var rest := Flatten(gs[1..]) + t + after;
      assert Flatten(gs) + t + after == gs[0] + rest;
      ConsumeOn(gs[1..], t, after);
      ConsumeFirst(gs[0], rest);
      var a := FoundAll(gs[1..]);
      assert [Found(gs[0])] + (a + c) == [Found(gs[0])] + a + c;
    }
  }

  /** Chunk boundaries do not matter. For a stream of back-to-back well-formed
      frames, cut off anywhere and split into chunks in any way, empty ones
      included, the run finds exactly the complete frames, in order, and keeps
      exactly the bytes after them, as one pass over the unsplit bytes does. The
      saved bytes are a proper part of the next frame, so they fit. */
  lemma {:induction false} ChunkIndependence(fs: seq<seq<Byte>>, chunks: seq<seq<Byte>>)
    requires forall f | f in fs :: WellFormed(f)
    requires Flatten(chunks) <= Flatten(fs)
    ensures Feed([], chunks) == Consume(Flatten(chunks))
    ensures var p := Feed([], chunks); var k := |p.frames|;
      && !p.stuck && SplitsAt(fs, Flatten(chunks), k, p.tail)
      && p.frames == FoundAll(fs[..k]) && |p.tail| < UDP_START_INDEX
  {
    hide WellFormed, Consume, Feed, FoundAll;
    var b := Flatten(chunks);
    assert [] + b == b;
    if fs != [] {
      assert fs[0] in fs;
      AtLeast20(fs[0]);
    }
    FeedFrames(fs, [], chunks);
    var t := WholeSplits(fs, b);
    var k := Whole(fs, |b|);
    ConsumeSplit(fs, b, k, t);
    if k < |fs| {
      assert fs[k] in fs;
      AtLeast20(fs[k]);
    }
  }

  lemma AtLeast20(f: seq<Byte>)
    requires WellFormed(f)
    ensures 20 <= |f| <= UDP_START_INDEX
  {
  }

  /** The bytes of a written frame are well formed if and only if the frame has
      between 5 words and 40000 bytes. */
  lemma {:induction false} EncodedFrameWellFormed(f: Image)
    requires ValidImage(f)
    ensures WellFormed(ToBytes(EncodeFrame(f))) <==> 20 <= 4 * |EncodeFrame(f)| <= 40000
    ensures WellFormed(ToBytes(EncodeFrame(f))) ==> Found(ToBytes(EncodeFrame(f))).frame == AsParsed(f, 0)
  {
    hide VrtPacket.Encode, VrtPacket.Decode, VrtPacket.PacketHere, VrtPacket.ValidPacket, Refs, Walk, Body;
    var ws := EncodeFrame(f);
    WordsOfBytes(ws);
    if f.packets == [] {
      NoPackets(f);
    }
    if |ws| >= 5 {
      ParseEncode([], f, [], 4 * |ws|);
      assert [] + ws + [] == ws;
      ParsedFrameFits(ws, 4 * |ws|);
      assert ws[0..] == ws;
    }
  }

  lemma NoPackets(f: Image)
    requires ValidImage(f) && f.packets == []
    ensures |EncodeFrame(f)| == 3
  {
  }

  // ---- Where a pass stops ---------------------------------------------------

  /** Bytes from the start of the buffer to the end of the last frame found. */
  function Extent(frames: seq<Received>): nat {
    if frames == [] then 0 else Advance(frames[0].frame) + Extent(frames[1..])
  }

  function TotalWords(frames: seq<Received>): nat {
    if frames == [] then 0 else |frames[0].words| + TotalWords(frames[1..])
  }

  /** Pass p over b goes on to the first place where parsing fails or stands
      still; it saves everything from there on if that is for lack of data, and
      drops it otherwise. */
  predicate Stopped(b: seq<Byte>, p: Pass) {
    && 4 * TotalWords(p.frames) <= Extent(p.frames) <= |b|
    && StoppedAt(b[Extent(p.frames)..], p)
  }

  predicate StoppedAt(rest: seq<Byte>, p: Pass) {
    && (p.stuck <==> rest != [] && ParseAt(rest).Ok?)
    && (p.stuck ==> Advance(ParseAt(rest).value) == 0)
    && (!p.stuck ==> p.tail == if rest != [] && ParseAt(rest) == IndexError then rest else [])
  }

  lemma StoppedThen(b: seq<Byte>, one: Received, q: Pass)
    requires Advance(one.frame) <= |b| && |one.words| == one.frame.size
    requires Stopped(b[Advance(one.frame)..], q)
    ensures Stopped(b, Then([one], q))
  {
    hide ParseAt, Advance;
    var n := Advance(one.frame);
    var frames := [one] + q.frames;
    assert frames[1..] == q.frames;
    assert b[n..][Extent(q.frames)..] == b[Extent(frames)..];
    assert 4 * |one.words| <= n by { WordsWithin(one.frame); }
  }

  lemma WordsWithin(f: Frame)
    ensures 4 * f.size <= Advance(f)
  {
  }

  lemma {:induction false} StopsAt(b: seq<Byte>)
    ensures Stopped(b, Consume(b))
    decreases |b|
  {
    hide ParseAt, Stopped, StoppedAt;
    if b == [] || !ParseAt(b).Ok? || Advance(ParseAt(b).value) == 0 {
      StopsHere(b);
    } else {
      ParseProgress(b);
      var f := ParseAt(b).value;
      StopsAt(b[Advance(f)..]);
      StoppedThen(b, Received(f, ToWords(b)[f.skipped..f.skipped + f.size]), Consume(b[Advance(f)..]));
    }
  }

  lemma StopsHere(b: seq<Byte>)
    requires b == [] || !ParseAt(b).Ok? || Advance(ParseAt(b).value) == 0
    ensures Stopped(b, Consume(b))
  {
    hide ParseAt;
    assert b[0..] == b;
  }

  /** A frame starts in b that is not complete, or one of whose packets reaches
      past its end. */
  predicate Unfinished(b: seq<Byte>) {
    var ws := ToWords(b);
    var k := Skip(ws, |b|);
    && FirstFrameAt(ws, |b|, k)
    && var frameSize := FrameSize(ws[k + 1]);
       frameSize > |ws| - k || Walk(ws[k..], frameSize, 2) == IndexError
  }

  /** What is saved exceeds the overflow buffer if and only if more than 40000
      bytes lie behind the last frame found and start, after any words that are
      no alignment word, with an unfinished frame. */
  lemma OverflowsExactly(b: seq<Byte>)
    requires !Consume(b).stuck
    ensures var p := Consume(b);
      && Extent(p.frames) <= |b|
      && var rest := b[Extent(p.frames)..];
         |p.tail| > 40000 <==> |rest| > 40000 && Unfinished(rest)
  {
    hide Consume, Walk, ToWords;
    StopsAt(b);
    var rest := b[Extent(Consume(b).frames)..];
    var ws := ToWords(rest);
    SkipFindsFirst(ws, |rest|, Skip(ws, |rest|));
  }

  /** A frame with a packet of unknown type drops everything behind it in the
      buffer, well formed or not, and not just one word. */
  lemma DropsTheRest(gs: seq<seq<Byte>>, bad: seq<Byte>, rest: seq<Byte>)
    requires forall f | f in gs :: WellFormed(f)
    requires ParseAt(bad + rest) == RuntimeError
    ensures Consume(Flatten(gs) + bad + rest) == Pass(FoundAll(gs), [], false)
  {
    hide WellFormed, ParseAt, FoundAll;
    assert bad + rest != [] by { NeedsBytes(bad + rest); }
    assert Consume(bad + rest) == Pass([], [], false);
    hide Consume;
    ConsumeOn(gs, bad, rest);
    assert FoundAll(gs) + [] == FoundAll(gs);
  }

  lemma NeedsBytes(b: seq<Byte>)
    requires ParseAt(b) == RuntimeError
    ensures |b| >= 20
  {
  }

  /** All the bytes of a frame that the walk rejects for a packet's type. */
  predicate UnknownType(f: seq<Byte>) {
    && |f| % 4 == 0 && |f| >= 20
    && var ws := ToWords(f);
       Aligned(ws[0]) && FrameSize(ws[1]) == |ws| && Walk(ws, |ws|, 2) == RuntimeError
  }

  /** Such a frame is one that drops what follows, whatever that is. */
  lemma UnknownTypeThrows(bad: seq<Byte>, rest: seq<Byte>)
    requires UnknownType(bad)
    ensures ParseAt(bad + rest) == RuntimeError
  {
    hide Walk;
    var b := bad + rest;
    var ws, n := ToWords(b), |bad| / 4;
    WordsOfPrefix(bad, b);
    assert ws[0] == ws[..n][0] && ws[1] == ws[..n][1];
    assert ws[0..] == ws;
    WalkLocal(ws, ToWords(bad), n, 2);
  }

  // ---- A frame without packets ------------------------------------------------

  /** A written frame without packets whose trailer reads as a header with a
      size, as the standard one does. */
  predicate Stalling(f: Image) {
    ValidImage(f) && f.packets == [] && !ReadsAsNothing(f.trailer) && VrtPacket.HeaderOf(f.trailer).ptype <= 5
  }

  lemma StandardTrailerStalls(alignWord: Word, count: nat)
    requires Aligned(alignWord) && count < 4096
    ensures Stalling(Image(alignWord, count, [], VEND))
  {
    StandardTrailer();
  }

  /** The parser then never gets past it: everything from it on is saved. */
  lemma EmptyFrameStalls(f: Image, b: seq<Byte>)
    requires Stalling(f) && |b| >= 20 && ToBytes(EncodeFrame(f)) <= b
    ensures Consume(b) == Pass([], b, false)
  {
    hide VrtPacket.HeaderOf, ReadsAsNothing, Parse;
    var ws := ToWords(b);
    NoPackets(f);
    WordsOfBytes(EncodeFrame(f));
    WordsOfPrefix(ToBytes(EncodeFrame(f)), b);
    assert ws == [] + EncodeFrame(f) + ws[3..];
    ParseEncode([], f, ws[3..], |b|);
  }

  /** And it is saved again with every chunk to come, without bound. */
  lemma {:induction false} StallsForever(f: Image, tail: seq<Byte>, chunks: seq<seq<Byte>>)
    requires Stalling(f) && |tail| >= 20 && ToBytes(EncodeFrame(f)) <= tail
    ensures Feed(tail, chunks) == Pass([], tail + Flatten(chunks), false)
    decreases |chunks|
  {
    hide EncodeFrame, Consume, ReadsAsNothing, Body, VrtPacket.HeaderOf;
    if chunks == [] {
      assert tail + Flatten(chunks) == tail;
    } else if chunks[0] == [] {
      StallsForever(f, tail, chunks[1..]);
      assert Flatten(chunks) == Flatten(chunks[1..]);
    } else {
      var b := tail + chunks[0];
      PrefixGrows(ToBytes(EncodeFrame(f)), tail, chunks[0]);
      EmptyFrameStalls(f, b);
      StallsForever(f, b, chunks[1..]);
      assert b + Flatten(chunks[1..]) == tail + Flatten(chunks);
    }
  }

  lemma PrefixGrows(a: seq<Byte>, b: seq<Byte>, c: seq<Byte>)
    requires a <= b
    ensures a <= b + c
  {
    assert b == a + b[|a|..];
  }
}
