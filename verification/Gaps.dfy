/** Words between frames: which chunk boundaries they make dangerous. */
module Gaps {
  import opened Words
  import opened VrlFrame
  import opened Reassembly

  /** Whole words none of which is an alignment word; possibly none at all. */
  predicate Gap(g: seq<Byte>) {
    |g| % 4 == 0 && forall w | w in ToWords(g) :: !Aligned(w)
  }

  /** A frame found behind a gap. */
  function FoundAfter(g: seq<Byte>, f: seq<Byte>): Received
    requires WellFormed(f)
  {
    Received(Found(f).frame.(skipped := |g| / 4), Found(f).words)
  }

  /** The words of a gap and of what follows it. */
  lemma GapWords(g: seq<Byte>, c: seq<Byte>)
    requires |g| % 4 == 0
    ensures ToWords(g + c)[..|g| / 4] == ToWords(g)
    ensures ToWords(g + c)[|g| / 4..] == ToWords(c)
  {
    var b, k := g + c, |g| / 4;
    forall j | 0 <= j < k ensures ToWords(b)[j] == ToWords(g)[j] {
      assert WordAt(b, 4 * j) == WordAt(g, 4 * j);
    }
    forall j | 0 <= j < |c| / 4 ensures ToWords(b)[k + j] == ToWords(c)[j] {
      assert WordAt(b, 4 * (k + j)) == WordAt(c, 4 * j);
    }
  }

  /** A gap is stepped over: the frame right behind it parses as it does alone. */
  lemma ParseAfterGap(g: seq<Byte>, c: seq<Byte>)
    requires Gap(g) && ParseAt(c).Ok? && ParseAt(c).value.skipped == 0
    ensures ParseAt(g + c) == Ok(ParseAt(c).value.(skipped := |g| / 4))
  {
    hide Walk, ToWords, Skip;
    var b, k := g + c, |g| / 4;
    GapWords(g, c);
    var ws, v := ToWords(b), ToWords(c);
    SkipFindsFirst(v, |c|, 0);
    assert ws[k..][0] == ws[k] && ws[k..][1] == ws[k + 1];
    forall j | 0 <= j < k ensures !Aligned(ws[j]) {
      assert ws[j] == ws[..k][j] == ToWords(g)[j];
      assert ToWords(g)[j] in ToWords(g);
    }
    SkipFindsFirst(ws, |b|, k);
    assert v[0..] == v;
  }

  lemma ParseGapFrame(g: seq<Byte>, f: seq<Byte>, rest: seq<Byte>)
    requires Gap(g) && WellFormed(f)
    ensures var b := g + (f + rest);
      && ParseAt(b) == Ok(FoundAfter(g, f).frame)
      && ToWords(b)[|g| / 4..][..|f| / 4] == Found(f).words
  {
    hide ParseAt, Gap, WellFormed, ToWords, Found;
    GapLength(g);
    FoundShape(f);
    assert f <= f + rest;
    WholeFrame(f, f + rest);
    ParseAfterGap(g, f + rest);
    GapWords(g, f + rest);
  }

  lemma ConsumeGapFrame(g: seq<Byte>, f: seq<Byte>, rest: seq<Byte>)
    requires Gap(g) && WellFormed(f)
    ensures Consume(g + f + rest) == Then([FoundAfter(g, f)], Consume(rest))
  {
    hide ParseAt, Gap, WellFormed, Found, ToWords, Consume, Parse;
    var b := g + f + rest;
    assert b == g + (f + rest);
    GapLength(g);
    FoundShape(f);
    ParseGapFrame(g, f, rest);
    ParsedAlike(b);
    ConsumeOne(b);
    assert b[|g| + |f|..] == rest;
    Middle(ToWords(b), |g| / 4, |f| / 4);
  }

  lemma ParsedAlike(b: seq<Byte>)
    ensures ParseAt(b) == Parse(ToWords(b), |b|)
  {
  }

  lemma Middle(ws: seq<Word>, k: nat, n: nat)
    requires k + n <= |ws|
    ensures ws[k..k + n] == ws[k..][..n]
  {
  }

  lemma FoundShape(f: seq<Byte>)
    requires WellFormed(f)
    ensures var r := Found(f);
      20 <= |f| == 4 * r.frame.size && r.frame.skipped == 0 && |r.words| == r.frame.size
  {
  }

  lemma GapLength(g: seq<Byte>)
    requires Gap(g)
    ensures |g| % 4 == 0
  {
  }

  /** Cut the buffer off when 16 bytes of the frame behind a gap are there: no
      alignment word has 20 bytes left, and all of it is dropped. */
  lemma GapCut(g: seq<Byte>, f: seq<Byte>)
    requires Gap(g) && g != [] && WellFormed(f)
    ensures ParseAt(g + f[..16]) == RuntimeError
  {
    hide Walk, ToWords;
    var b, k := g + f[..16], |g| / 4;
    GapWords(g, f[..16]);
    var ws := ToWords(b);
    forall j: nat | 4 * j + 20 <= |b| ensures !Aligned(ws[j]) {
      assert ws[j] == ws[..k][j] == ToWords(g)[j];
      assert ToWords(g)[j] in ToWords(g);
    }
    SkipFailsExactly(ws, |b|);
  }

  /** A first chunk that leaves nothing to save, and the one after it. */
  lemma TwoChunks(a: seq<Byte>, b: seq<Byte>)
    requires a != [] && b != [] && !Consume(a).stuck && Consume(a).tail == []
    ensures Feed([], [a, b]).frames == Consume(a).frames + Consume(b).frames
  {
    hide Consume;
    var one, none: seq<seq<Byte>> := [b], [];
    assert [a, b][1..] == one && one[1..] == none;
    assert [] + a == a && [] + b == b;
    var p, q := Consume(a), Consume(b);
    assert q.frames + [] == q.frames;
    assert Feed(q.tail, none).frames == [];
    assert Feed([], one).frames == q.frames;
    assert Feed([], [a, b]) == Then(p.frames, Feed([], one));
  }

  lemma TwoFlat(a: seq<Byte>, b: seq<Byte>)
    ensures Flatten<Byte>([a, b]) == a + b
  {
    var one, none: seq<seq<Byte>> := [b], [];
    assert [a, b][1..] == one && one[1..] == none;
    assert Flatten(one) == b + Flatten(none) == b;
  }

  lemma {:induction false} NoneLonger(frames: seq<Received>, r: Received)
    requires r in frames
    ensures |r.words| <= TotalWords(frames)
    decreases |frames|
  {
    if frames[0] != r {
      NoneLonger(frames[1..], r);
    }
  }

  lemma Shorter(b: seq<Byte>)
    ensures 4 * TotalWords(Consume(b).frames) <= |b|
    ensures forall r | r in Consume(b).frames :: 4 * |r.words| <= |b|
  {
    hide Consume;
    StopsAt(b);
    forall r | r in Consume(b).frames ensures 4 * |r.words| <= |b| {
      NoneLonger(Consume(b).frames, r);
    }
  }

  /** Every non-empty gap has a boundary that loses the frame behind it: cut when
      16 bytes of the frame are there, the run finds no frame of its length,
      while the unsplit pass finds it. */
  lemma GapLosesFrame(g: seq<Byte>, f: seq<Byte>)
    requires Gap(g) && g != [] && WellFormed(f)
    ensures Flatten<Byte>([g + f[..16], f[16..]]) == g + f
    ensures Consume(g + f) == Pass([FoundAfter(g, f)], [], false)
    ensures forall r | r in Feed([], [g + f[..16], f[16..]]).frames :: |r.words| < |Found(f).words|
  {
    hide ParseAt, Gap, Consume, Feed, Flatten;
    AtLeast20(f);
    ConsumeGapFrame(g, f, []);
    assert g + f + [] == g + f;
    ConsumeNothing();
    var a, b := g + f[..16], f[16..];
    GapCut(g, f);
    ConsumeDropped(a);
    TwoFlat(a, b);
    assert a + b == g + f;
    TwoChunks(a, b);
    Shorter(b);
    assert [] + Consume(b).frames == Consume(b).frames;
  }

  lemma ConsumeNothing()
    ensures Consume([]) == Pass([], [], false)
  {
  }

  lemma ConsumeDropped(b: seq<Byte>)
    requires ParseAt(b) == RuntimeError
    ensures Consume(b) == Pass([], [], false)
  {
  }

  // ---- Streams of gaps and frames -------------------------------------------

  /** gs[i] lies in front of fs[i]. */
  function Stream(gs: seq<seq<Byte>>, fs: seq<seq<Byte>>): seq<Byte>
    requires |gs| == |fs|
  {
    if fs == [] then [] else gs[0] + fs[0] + Stream(gs[1..], fs[1..])
  }

  predicate Streamable(gs: seq<seq<Byte>>, fs: seq<seq<Byte>>) {
    |gs| == |fs| && forall i | 0 <= i < |fs| :: Gap(gs[i]) && WellFormed(fs[i])
  }

  function FoundStream(gs: seq<seq<Byte>>, fs: seq<seq<Byte>>): seq<Received>
    requires Streamable(gs, fs)
  {
    if fs == [] then [] else [FoundAfter(gs[0], fs[0])] + FoundStream(gs[1..], fs[1..])
  }

  /** Unsplit, every frame of the stream is found, and then what follows is read. */
  lemma {:induction false} ConsumeStream(gs: seq<seq<Byte>>, fs: seq<seq<Byte>>, rest: seq<Byte>)
    requires Streamable(gs, fs)
    ensures Consume(Stream(gs, fs) + rest) == Then(FoundStream(gs, fs), Consume(rest))
    decreases |fs|
  {
    hide Consume, Gap, WellFormed, FoundAfter;
    if fs == [] {
      assert [] + rest == rest && [] + Consume(rest).frames == Consume(rest).frames;
    } else {
      var tail := Stream(gs[1..], fs[1..]) + rest;
      assert Stream(gs, fs) + rest == gs[0] + fs[0] + tail;
      ConsumeGapFrame(gs[0], fs[0], tail);
      ConsumeStream(gs[1..], fs[1..], rest);
      var one, more, last := [FoundAfter(gs[0], fs[0])], FoundStream(gs[1..], fs[1..]), Consume(rest).frames;
      assert one + (more + last) == one + more + last;
    }
  }

  lemma {:induction false} StreamAppend(gs: seq<seq<Byte>>, fs: seq<seq<Byte>>, hs: seq<seq<Byte>>, es: seq<seq<Byte>>)
    requires |gs| == |fs| && |hs| == |es|
    ensures Stream(gs + hs, fs + es) == Stream(gs, fs) + Stream(hs, es)
    decreases |fs|
  {
    if fs == [] {
      assert gs + hs == hs && fs + es == es;
    } else {
      assert (gs + hs)[1..] == gs[1..] + hs && (fs + es)[1..] == fs[1..] + es;
      StreamAppend(gs[1..], fs[1..], hs, es);
    }
  }

  predicate NoGaps(gs: seq<seq<Byte>>) {
    forall g | g in gs :: g == []
  }

  lemma {:induction false} StreamWithoutGaps(gs: seq<seq<Byte>>, fs: seq<seq<Byte>>)
    requires Streamable(gs, fs) && NoGaps(gs)
    ensures Stream(gs, fs) == Flatten(fs)
    ensures 4 * TotalWords(FoundStream(gs, fs)) == |Stream(gs, fs)|
    decreases |fs|
  {
    hide WellFormed, Found, Gap;
    if fs != [] {
      assert gs[0] in gs && forall g | g in gs[1..] :: g in gs;
      StreamWithoutGaps(gs[1..], fs[1..]);
      FoundShape(fs[0]);
      OneTotal(FoundAfter(gs[0], fs[0]), FoundStream(gs[1..], fs[1..]));
      assert gs[0] + fs[0] + Stream(gs[1..], fs[1..]) == fs[0] + Flatten(fs[1..]);
    }
  }

  lemma {:induction false} TotalAppend(a: seq<Received>, b: seq<Received>)
    ensures TotalWords(a + b) == TotalWords(a) + TotalWords(b)
    decreases |a|
  {
    if a == [] {
      assert a + b == b;
    } else {
      assert (a + b)[1..] == a[1..] + b;
      TotalAppend(a[1..], b);
    }
  }

  /** The last gap that is not empty. */
  lemma {:induction false} LastGap(gs: seq<seq<Byte>>) returns (j: nat)
    requires !NoGaps(gs)
    ensures j < |gs| && gs[j] != [] && NoGaps(gs[j + 1..])
  {
    var n := |gs| - 1;
    assert gs == gs[..n] + [gs[n]];
    if gs[n] != [] {
      j := n;
    } else {
      j := LastGap(gs[..n]);
      assert gs[j + 1..] == gs[..n][j + 1..] + [gs[n]];
    }
  }

  /** With its last gap at j, the stream has a boundary that loses words. */
  lemma LosingBoundary(gs: seq<seq<Byte>>, fs: seq<seq<Byte>>, j: nat)
    requires Streamable(gs, fs) && j < |gs| && gs[j] != [] && NoGaps(gs[j + 1..])
    ensures var a := Stream(gs[..j], fs[..j]) + (gs[j] + fs[j][..16]);
      var b := fs[j][16..] + Stream(gs[j + 1..], fs[j + 1..]);
      && Flatten<Byte>([a, b]) == Stream(gs, fs)
      && TotalWords(Feed([], [a, b]).frames) < TotalWords(Consume(Stream(gs, fs)).frames)
  {
    hide Consume, Feed, Gap, Stream, FoundStream, Flatten, WellFormed;
    AtLeast20(fs[j]);
    StreamCut(gs, fs, j);
    SplitTotal(gs[..j], fs[..j], gs[j], fs[j], Stream(gs[j + 1..], fs[j + 1..]));
    UnsplitTotal(gs[..j], fs[..j], gs[j], fs[j], gs[j + 1..], fs[j + 1..]);
  }

  /** Split: the first chunk ends in a cut gap, the second is too short. */
  lemma SplitTotal(gs: seq<seq<Byte>>, fs: seq<seq<Byte>>, g: seq<Byte>, f: seq<Byte>, rest: seq<Byte>)
    requires Streamable(gs, fs) && Gap(g) && g != [] && WellFormed(f) && |f| >= 20
    ensures var a, b := Stream(gs, fs) + (g + f[..16]), f[16..] + rest;
      && Flatten<Byte>([a, b]) == Stream(gs, fs) + (g + f + rest)
      && 4 * TotalWords(Feed([], [a, b]).frames) <= 4 * TotalWords(FoundStream(gs, fs)) + |f| - 16 + |rest|
  {
    hide Consume, Feed, Gap, Stream, FoundStream, Flatten, WellFormed, ParseAt;
    var a, b := Stream(gs, fs) + (g + f[..16]), f[16..] + rest;
    TwoFlat(a, b);
    assert a + b == Stream(gs, fs) + (g + f + rest);
    GapCut(g, f);
    ConsumeDropped(g + f[..16]);
    ConsumeStream(gs, fs, g + f[..16]);
    var found := FoundStream(gs, fs);
    assert found + [] == found;
    TwoChunks(a, b);
    Shorter(b);
    TotalAppend(found, Consume(b).frames);
  }

  /** Unsplit: everything is found. */
  lemma UnsplitTotal(gs: seq<seq<Byte>>, fs: seq<seq<Byte>>, g: seq<Byte>, f: seq<Byte>,
                     hs: seq<seq<Byte>>, es: seq<seq<Byte>>)
    requires Streamable(gs, fs) && Gap(g) && WellFormed(f) && Streamable(hs, es) && NoGaps(hs)
    ensures 4 * TotalWords(Consume(Stream(gs, fs) + (g + f + Stream(hs, es))).frames) ==
            4 * TotalWords(FoundStream(gs, fs)) + |f| + |Stream(hs, es)|
  {
    hide Consume, Gap, Stream, FoundStream, WellFormed, Found;
    var rest, last := Stream(hs, es), FoundStream(hs, es);
    ConsumeStream(gs, fs, g + f + rest);
    ConsumeGapFrame(g, f, rest);
    ConsumeStream(hs, es, []);
    ConsumeNothing();
    assert rest + [] == rest && last + [] == last;
    StreamWithoutGaps(hs, es);
    OneTotal(FoundAfter(g, f), last);
    TotalAppend(FoundStream(gs, fs), [FoundAfter(g, f)] + last);
    FoundShape(f);
  }

  lemma OneTotal(r: Received, rest: seq<Received>)
    ensures TotalWords([r] + rest) == |r.words| + TotalWords(rest)
  {
    assert ([r] + rest)[1..] == rest;
  }

  lemma StreamCut(gs: seq<seq<Byte>>, fs: seq<seq<Byte>>, j: nat)
    requires |gs| == |fs| && j < |gs|
    ensures Stream(gs, fs) == Stream(gs[..j], fs[..j]) + (gs[j] + fs[j] + Stream(gs[j + 1..], fs[j + 1..]))
  {
    assert gs == gs[..j] + gs[j..] && fs == fs[..j] + fs[j..];
    StreamAppend(gs[..j], fs[..j], gs[j..], fs[j..]);
    assert gs[j..][1..] == gs[j + 1..] && fs[j..][1..] == fs[j + 1..];
  }

  /** For a stream of gaps and well-formed frames, every way of splitting it into
      chunks gives the result of the unsplit pass if and only if every gap is
      empty. */
  lemma SplitsAgreeExactly(gs: seq<seq<Byte>>, fs: seq<seq<Byte>>)
    requires Streamable(gs, fs)
    ensures (forall chunks: seq<seq<Byte>> | Flatten(chunks) == Stream(gs, fs) ::
               Feed([], chunks) == Consume(Stream(gs, fs)))
            <==> NoGaps(gs)
  {
    hide Consume, Feed, WellFormed, Gap, Stream, Flatten;
    if NoGaps(gs) {
      StreamWithoutGaps(gs, fs);
      forall chunks: seq<seq<Byte>> | Flatten(chunks) == Stream(gs, fs)
        ensures Feed([], chunks) == Consume(Stream(gs, fs))
      {
        ChunkIndependence(fs, chunks);
      }
    } else {
      var j := LastGap(gs);
      LosingBoundary(gs, fs, j);
      AtLeast20(fs[j]);
      var a := Stream(gs[..j], fs[..j]) + (gs[j] + fs[j][..16]);
      var b := fs[j][16..] + Stream(gs[j + 1..], fs[j + 1..]);
      var chunks: seq<seq<Byte>> := [a, b];
      assert Flatten(chunks) == Stream(gs, fs);
      assert Feed([], chunks) != Consume(Stream(gs, fs));
    }
  }
}
