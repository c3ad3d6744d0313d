/** VRL frames: the alignment search and packet walk of VRLFrameImpl, and a
    writer of frames that the parser inverts. */
module VrlFrame {
  import opened Words
  import opened VrtPacket

  const VRLP: Word := 0x5652_4C50
  const VS49: Word := 0x5653_3439

  predicate Aligned(w: Word) {
    w == VRLP || w == VS49
  }

  /** In memory an alignment word is the text PLRV or 94SV. */
  lemma AlignmentBytes(b: seq<Byte>, i: nat)
    requires i + 4 <= |b|
    ensures Aligned(WordAt(b, i)) <==>
            b[i..i + 4] == [0x50, 0x4C, 0x52, 0x56] || b[i..i + 4] == [0x39, 0x34, 0x53, 0x56]
  {
    WordOfFour(b, i, 0x50, 0x4C, 0x52, 0x56);
    WordOfFour(b, i, 0x39, 0x34, 0x53, 0x56);
    hide WordAt;
  }

  function FrameSize(info: Word): nat {
    info % 0x10_0000
  }

  function FrameCount(info: Word): (c: nat)
    ensures c < 4096
  {
    info / 0x10_0000
  }

  function InfoWord(size: nat, count: nat): (w: Word)
    requires size < 0x10_0000 && count < 4096
    ensures FrameSize(w) == size && FrameCount(w) == count
  {
    size + 0x10_0000 * count
  }

  /** VRLFrameInfo declares the size in 20 bits first, then the count in 12. */
  lemma InfoBitLayout(w: Word)
    ensures FrameSize(w) == Bits(w, 0, 20) && FrameCount(w) == Bits(w, 20, 12)
  {
    Pow2Values();
    Pow2Add4(4);
    Pow2Add4(8);
  }

  /** The two kinds of exception the parser throws. */
  datatype Outcome<T> = Ok(value: T) | IndexError | RuntimeError

  /** A packet found in a frame: its first word counted from the frame's start. */
  datatype PacketRef = PacketRef(offset: nat, header: Header)

  datatype Frame = Frame(skipped: nat, alignWord: Word, count: nat, size: nat, packets: seq<PacketRef>)

  // ---- Alignment search --------------------------------------------------

  /** Words stepped over; `size` counts the bytes that are left. */
  function Skip(ws: seq<Word>, size: nat): (k: nat)
    requires |ws| == size / 4
    ensures 4 * k <= size
  {
    if size >= 20 && !Aligned(ws[0]) then 1 + Skip(ws[1..], size - 4) else 0
  }

  /** Word k starts the first frame with the minimum of 20 bytes in the input. */
  predicate FirstFrameAt(ws: seq<Word>, size: nat, k: nat)
    requires |ws| == size / 4
  {
    4 * k + 20 <= size && Aligned(ws[k]) && forall j | 0 <= j < k :: !Aligned(ws[j])
  }

  lemma {:induction false} SkipFindsFirst(ws: seq<Word>, size: nat, k: nat)
    requires |ws| == size / 4
    ensures FirstFrameAt(ws, size, k) <==> Skip(ws, size) == k && size - 4 * k >= 20
  {
    if size >= 20 && !Aligned(ws[0]) {
      if k > 0 {
        SkipFindsFirst(ws[1..], size - 4, k - 1);
        assert FirstFrameAt(ws[1..], size - 4, k - 1) ==> FirstFrameAt(ws, size, k) by {
          assert forall j | 1 <= j < k && 4 * k + 20 <= size :: ws[j] == ws[1..][j - 1];
        }
        assert FirstFrameAt(ws, size, k) ==> FirstFrameAt(ws[1..], size - 4, k - 1);
      }
    } else if size >= 20 && k > 0 {
      assert Aligned(ws[0]);
    }
  }

  /** The search fails exactly when no word with 20 bytes from it on is an
      alignment word. */
  lemma {:induction false} SkipFailsExactly(ws: seq<Word>, size: nat)
    requires |ws| == size / 4
    ensures size - 4 * Skip(ws, size) < 20 <==>
            forall k: nat | 4 * k + 20 <= size :: !Aligned(ws[k])
  {
    SkipFindsFirst(ws, size, Skip(ws, size));
    if k: nat :| 4 * k + 20 <= size && Aligned(ws[k]) {
      var m := Least(ws, k);
      SkipFindsFirst(ws, size, m);
    }
  }

  lemma Least(ws: seq<Word>, k: nat) returns (m: nat)
    requires k < |ws| && Aligned(ws[k])
    ensures m <= k && Aligned(ws[m]) && forall j | 0 <= j < m :: !Aligned(ws[j])
  {
    m := k;
    if j: nat :| j < k && Aligned(ws[j]) {
      m := Least(ws, j);
    }
  }

  // ---- Packet walk -------------------------------------------------------

  /** The bytes offered to the packet at `offset`, in wrapping size_t. */
  function Offered(frameSize: nat, offset: nat): nat {
    Wrap(Wrap(frameSize - offset - 1) * 4)
  }

  /** The VRTPacketImpl constructor's checks, in their order. */
  function ParsePacket(h: Header, size: nat): Outcome<Header> {
    if h.ptype > 5 then RuntimeError
    else if h.size > size / 4 then IndexError
    else Ok(h)
  }

  /** The do-while loop over the packets of a frame, from a word offset on. */
  function Walk(d: seq<Word>, frameSize: nat, offset: nat): Outcome<seq<PacketRef>>
    requires offset < |d| && frameSize <= |d|
    decreases frameSize - offset
  {
    var h := HeaderOf(d[offset]);
    match ParsePacket(h, Offered(frameSize, offset))
    case IndexError => IndexError
    case RuntimeError => RuntimeError
    case Ok(_) =>
      if h.size == 0 then Ok([])
      else if offset + h.size + 1 < frameSize then
        match Walk(d, frameSize, offset + h.size)
        case Ok(rest) => Ok([PacketRef(offset, h)] + rest)
        case e => e
      else Ok([PacketRef(offset, h)])
  }

  /** The word after the last packet, or `from` if there is none. */
  function End(from: nat, refs: seq<PacketRef>): nat {
    if refs == [] then from else refs[|refs| - 1].offset + refs[|refs| - 1].header.size
  }

  /** refs are adjacent packets, none empty, from word `from` on, all before
      the frame's last word. */
  predicate Chain(d: seq<Word>, frameSize: nat, from: nat, refs: seq<PacketRef>) {
    && from + 1 <= frameSize <= |d|
    && (refs != [] ==> refs[0].offset == from)
    && (forall i | 0 <= i < |refs| - 1 :: refs[i + 1].offset == refs[i].offset + refs[i].header.size)
    && (forall i | 0 <= i < |refs| ::
          && refs[i].offset < frameSize - 1
          && refs[i].header == HeaderOf(d[refs[i].offset])
          && refs[i].header.size >= 1 && refs[i].header.ptype <= 5
          && refs[i].offset + refs[i].header.size <= frameSize - 1)
  }

  /** The walk is at the end of refs and examines the header there. */
  predicate Examines(d: seq<Word>, frameSize: nat, from: nat, refs: seq<PacketRef>) {
    Chain(d, frameSize, from, refs) && (refs == [] || End(from, refs) < frameSize - 1)
  }

  predicate Tiling(d: seq<Word>, frameSize: nat, from: nat, refs: seq<PacketRef>) {
    && Chain(d, frameSize, from, refs)
    && (|| (refs != [] && End(from, refs) == frameSize - 1)
        || (Examines(d, frameSize, from, refs)
            && HeaderOf(d[End(from, refs)]).size == 0 && HeaderOf(d[End(from, refs)]).ptype <= 5))
  }

  lemma OfferedWords(frameSize: nat, offset: nat)
    requires offset + 1 <= frameSize < 0x10_0000
    ensures Offered(frameSize, offset) / 4 == frameSize - offset - 1
  {
  }

  lemma ChainTail(d: seq<Word>, frameSize: nat, from: nat, refs: seq<PacketRef>)
    requires refs != [] && Chain(d, frameSize, from, refs)
    ensures Chain(d, frameSize, End(from, refs[..1]), refs[1..])
    ensures End(End(from, refs[..1]), refs[1..]) == End(from, refs)
  {
    hide HeaderOf;
    var t := refs[1..];
    assert t != [] ==> t[0] == refs[0 + 1] && t[|t| - 1] == refs[|refs| - 1];
  }

  lemma ChainCons(d: seq<Word>, frameSize: nat, p: PacketRef, t: seq<PacketRef>)
    requires Chain(d, frameSize, p.offset + p.header.size, t)
    requires Chain(d, frameSize, p.offset, [p])
    ensures Chain(d, frameSize, p.offset, [p] + t)
    ensures End(p.offset, [p] + t) == End(p.offset + p.header.size, t)
  {
    hide HeaderOf;
    var r := [p] + t;
    forall i | 0 <= i < |r| - 1
      ensures r[i + 1].offset == r[i].offset + r[i].header.size
    {
      if i > 0 {
        assert r[i] == t[i - 1] && r[i + 1] == t[i - 1 + 1];
      }
    }
  }

  /** What the walk saw: the adjacent packets it accepted, and why it stopped
      at the word after them. */
  lemma {:induction false} WalkStops(d: seq<Word>, frameSize: nat, from: nat)
      returns (refs: seq<PacketRef>)
    requires from + 1 <= frameSize <= |d| && frameSize < 0x10_0000
    ensures Chain(d, frameSize, from, refs)
    ensures match Walk(d, frameSize, from)
      case Ok(r) => r == refs && Tiling(d, frameSize, from, refs)
      case IndexError => Examines(d, frameSize, from, refs) &&
        var h := HeaderOf(d[End(from, refs)]);
        h.ptype <= 5 && End(from, refs) + h.size > frameSize - 1
      case RuntimeError => Examines(d, frameSize, from, refs) && HeaderOf(d[End(from, refs)]).ptype > 5
    decreases frameSize - from
  {
    hide HeaderOf, Offered;
    OfferedWords(frameSize, from);
    var h := HeaderOf(d[from]);
    refs := [];
    if h.ptype <= 5 && 1 <= h.size <= frameSize - from - 1 {
      var p := PacketRef(from, h);
      assert Chain(d, frameSize, from, [p]);
      refs := [p];
      if from + h.size + 1 < frameSize {
        var t := WalkStops(d, frameSize, from + h.size);
        ChainCons(d, frameSize, p, t);
        refs := [p] + t;
      }
    }
  }

  /** The walk succeeds with refs if and only if refs tile the frame: adjacent
      from the first word after the frame header up to the frame trailer, or up
      to a packet header of size zero. */
  lemma {:induction false} WalkTiles(d: seq<Word>, frameSize: nat, from: nat, refs: seq<PacketRef>)
    requires from + 1 <= frameSize <= |d| && frameSize < 0x10_0000
    ensures Walk(d, frameSize, from) == Ok(refs) <==> Tiling(d, frameSize, from, refs)
  {
    hide HeaderOf, Walk;
    var r := WalkStops(d, frameSize, from);
    if Tiling(d, frameSize, from, refs) {
      TilingWalks(d, frameSize, from, refs);
    }
  }

  lemma {:induction false} TilingWalks(d: seq<Word>, frameSize: nat, from: nat, refs: seq<PacketRef>)
    requires from + 1 <= frameSize <= |d| && frameSize < 0x10_0000 && Tiling(d, frameSize, from, refs)
    ensures Walk(d, frameSize, from) == Ok(refs)
    decreases |refs|
  {
    hide HeaderOf, Offered;
    OfferedWords(frameSize, from);
    if refs != [] {
      hide Walk;
      var next := End(from, refs[..1]);
      ChainTail(d, frameSize, from, refs);
      assert refs[0] == PacketRef(from, HeaderOf(d[from]));
      assert refs == [refs[0]] + refs[1..];
      WalkOne(d, frameSize, from);
      if next < frameSize - 1 {
        hide Chain;
        TilingWalks(d, frameSize, next, refs[1..]);
      } else {
        NothingBehind(d, frameSize, next, refs[1..]);
        assert refs == [refs[0]];
      }
    }
  }

  lemma NothingBehind(d: seq<Word>, frameSize: nat, from: nat, refs: seq<PacketRef>)
    requires Chain(d, frameSize, from, refs) && from >= frameSize - 1
    ensures refs == []
  {
    hide HeaderOf;
  }

  /** The size bound keeps packets inside the frame exactly when the frame has its
      three words: below that the subtraction wraps and checks nothing. */
  lemma PacketsInsideFrame(d: seq<Word>, frameSize: nat, refs: seq<PacketRef>)
    requires 2 < |d| && frameSize <= |d| && frameSize < 0x10_0000
    requires Walk(d, frameSize, 2) == Ok(refs)
    ensures (forall r | r in refs :: r.offset + r.header.size + 1 <= frameSize) <==> frameSize >= 3 || refs == []
    ensures frameSize < 3 ==> HeaderOf(d[2]).size == 0 || refs == [PacketRef(2, HeaderOf(d[2]))]
  {
    hide HeaderOf, Offered;
    if frameSize >= 3 {
      WalkTiles(d, frameSize, 2, refs);
    } else if refs != [] {
      assert refs[0] in refs;
    }
  }

  // ---- The frame parser --------------------------------------------------

  /** VRLFrame::parse on `size` bytes whose whole words are ws. */
  function Parse(ws: seq<Word>, size: nat): Outcome<Frame>
    requires |ws| == size / 4
  {
    if size < 20 then IndexError
    else
      var k := Skip(ws, size);
      var left := size - 4 * k;
      if left < 20 then RuntimeError
      else
        var frameSize := FrameSize(ws[k + 1]);
        if frameSize > left / 4 then IndexError
        else
          match Walk(ws[k..], frameSize, 2)
          case Ok(refs) => Ok(Frame(k, ws[k], FrameCount(ws[k + 1]), frameSize, refs))
          case IndexError => IndexError
          case RuntimeError => RuntimeError
  }

  /** The constructor's first loop: the data pointer moves on word by word. */
  method FindAlignment(data: seq<Word>, bytes: nat) returns (at: nat)
    requires |data| == bytes / 4
    ensures at == Skip(data, bytes)
  {
    var size := bytes;
    at := 0;
    while size >= 20 && !Aligned(data[at])
      invariant at <= |data| && size + 4 * at == bytes
      invariant Skip(data, bytes) == at + Skip(data[at..], size)
      decreases size
    {
      assert data[at..][1..] == data[at + 1..];
      at := at + 1;
      size := size - 4;
    }
  }

  /** The constructor's second loop: the packets are pushed one by one. */
  method ParsePackets(d: seq<Word>, frameSize: nat) returns (r: Outcome<seq<PacketRef>>)
    requires 2 < |d| && frameSize <= |d|
    ensures r == Walk(d, frameSize, 2)
  {
    hide HeaderOf, Offered;
    var packets: seq<PacketRef> := [];
    PrependNothing(Walk(d, frameSize, 2));
    var offset := 2;
    while true
      invariant offset < |d|
      invariant Walk(d, frameSize, 2) == Prepend(packets, Walk(d, frameSize, offset))
      decreases frameSize - offset
    {
      var h := HeaderOf(d[offset]);
      match ParsePacket(h, Offered(frameSize, offset)) {
        case IndexError => return IndexError;
        case RuntimeError => return RuntimeError;
        case Ok(_) =>
      }
      if h.size == 0 {
        assert packets + [] == packets;
        return Ok(packets);
      }
      ghost var rest := if offset + h.size + 1 < frameSize then Walk(d, frameSize, offset + h.size) else Ok([]);
      assert [PacketRef(offset, h)] + [] == [PacketRef(offset, h)];
      assert Walk(d, frameSize, offset) == Prepend([PacketRef(offset, h)], rest);
      PrependTwice(packets, [PacketRef(offset, h)], rest);
      packets := packets + [PacketRef(offset, h)];
      offset := offset + h.size;
      if !(offset + 1 < frameSize) {
        assert packets + [] == packets;
        return Ok(packets);
      }
    }
  }

  /** The constructor as a whole. */
  method ParseFrame(data: seq<Word>, bytes: nat) returns (r: Outcome<Frame>)
    requires |data| == bytes / 4
    ensures r == Parse(data, bytes)
  {
    hide Skip, Walk;
    if bytes < 20 {
      return IndexError;
    }
    var at := FindAlignment(data, bytes);
    var size := bytes - 4 * at;
    if size < 20 {
      return RuntimeError;
    }
    var frameSize := FrameSize(data[at + 1]);
    if frameSize > size / 4 {
      return IndexError;
    }
    var packets := ParsePackets(data[at..], frameSize);
    match packets {
      case Ok(refs) => r := Ok(Frame(at, data[at], FrameCount(data[at + 1]), frameSize, refs));
      case IndexError => r := IndexError;
      case RuntimeError => r := RuntimeError;
    }
  }

  ghost function Prepend(a: seq<PacketRef>, r: Outcome<seq<PacketRef>>): Outcome<seq<PacketRef>> {
    match r
    case Ok(b) => Ok(a + b)
    case e => e
  }

  lemma PrependNothing(r: Outcome<seq<PacketRef>>)
    ensures Prepend([], r) == r
  {
    if r.Ok? {
      assert [] + r.value == r.value;
    }
  }

  lemma PrependTwice(a: seq<PacketRef>, b: seq<PacketRef>, r: Outcome<seq<PacketRef>>)
    ensures Prepend(a, Prepend(b, r)) == Prepend(a + b, r)
  {
    if r.Ok? {
      assert a + (b + r.value) == a + b + r.value;
    }
  }

  /** A parsed frame's packets are inside it, and it is inside the input. */
  lemma ParsedFrameFits(ws: seq<Word>, size: nat)
    requires |ws| == size / 4 && Parse(ws, size).Ok?
    ensures var f := Parse(ws, size).value;
      && FirstFrameAt(ws, size, f.skipped) && Aligned(ws[f.skipped]) && f.alignWord == ws[f.skipped]
      && 4 * f.skipped + 4 * f.size <= size
      && f.size == FrameSize(ws[f.skipped + 1]) && f.count == FrameCount(ws[f.skipped + 1])
      && (f.size >= 3 ==> Tiling(ws[f.skipped..], f.size, 2, f.packets))
  {
    var f := Parse(ws, size).value;
    SkipFindsFirst(ws, size, f.skipped);
    if f.size >= 3 {
      var r := WalkStops(ws[f.skipped..], f.size, 2);
    }
  }

  // ---- Which outcome, for every input -----------------------------------------

  /** The walk comes, behind adjacent packets refs, to a header of unknown type. */
  predicate ComesToUnknown(d: seq<Word>, frameSize: nat, from: nat, refs: seq<PacketRef>) {
    Examines(d, frameSize, from, refs) && HeaderOf(d[End(from, refs)]).ptype > 5
  }

  /** The walk comes to a packet that reaches into the trailer or beyond. */
  predicate ComesToOverlong(d: seq<Word>, frameSize: nat, from: nat, refs: seq<PacketRef>) {
    && Examines(d, frameSize, from, refs)
    && var h := HeaderOf(d[End(from, refs)]);
       h.ptype <= 5 && End(from, refs) + h.size > frameSize - 1
  }

  lemma {:induction false} ExaminedFails(d: seq<Word>, frameSize: nat, from: nat, refs: seq<PacketRef>)
    requires from + 1 <= frameSize <= |d| && frameSize < 0x10_0000
    ensures ComesToUnknown(d, frameSize, from, refs) ==> Walk(d, frameSize, from) == RuntimeError
    ensures ComesToOverlong(d, frameSize, from, refs) ==> Walk(d, frameSize, from) == IndexError
    decreases |refs|
  {
    hide HeaderOf, Offered;
    OfferedWords(frameSize, from);
    if refs != [] && Examines(d, frameSize, from, refs) {
      var next := End(from, refs[..1]);
      ChainTail(d, frameSize, from, refs);
      EndsLater(d, frameSize, next, refs[1..]);
      ExaminedFails(d, frameSize, next, refs[1..]);
    }
  }

  lemma EndsLater(d: seq<Word>, frameSize: nat, from: nat, refs: seq<PacketRef>)
    requires Chain(d, frameSize, from, refs)
    ensures from <= End(from, refs)
    decreases |refs|
  {
    hide HeaderOf;
    if refs != [] {
      ChainTail(d, frameSize, from, refs);
      EndsLater(d, frameSize, End(from, refs[..1]), refs[1..]);
    }
  }

  /** The outcome of the walk over a frame of at least three words. */
  lemma WalkExactly(d: seq<Word>, frameSize: nat)
    requires 3 <= frameSize <= |d| && frameSize < 0x10_0000
    ensures forall refs :: Walk(d, frameSize, 2) == Ok(refs) <==> Tiling(d, frameSize, 2, refs)
    ensures Walk(d, frameSize, 2) == IndexError <==> exists refs :: ComesToOverlong(d, frameSize, 2, refs)
    ensures Walk(d, frameSize, 2) == RuntimeError <==> exists refs :: ComesToUnknown(d, frameSize, 2, refs)
  {
    hide HeaderOf, Walk, Chain;
    var r := WalkStops(d, frameSize, 2);
    forall refs ensures Walk(d, frameSize, 2) == Ok(refs) <==> Tiling(d, frameSize, 2, refs) {
      WalkTiles(d, frameSize, 2, refs);
    }
    forall refs
      ensures ComesToOverlong(d, frameSize, 2, refs) ==> Walk(d, frameSize, 2) == IndexError
      ensures ComesToUnknown(d, frameSize, 2, refs) ==> Walk(d, frameSize, 2) == RuntimeError
    {
      ExaminedFails(d, frameSize, 2, refs);
    }
    match Walk(d, frameSize, 2)
    case IndexError => assert ComesToOverlong(d, frameSize, 2, r);
    case RuntimeError => assert ComesToUnknown(d, frameSize, 2, r);
    case Ok(_) =>
  }

  /** The outcome of the walk over a frame with fewer words: any packet fits. */
  lemma WalkShort(d: seq<Word>, frameSize: nat)
    requires frameSize < 3 <= |d|
    ensures var h := HeaderOf(d[2]);
      Walk(d, frameSize, 2) ==
      if h.ptype > 5 then RuntimeError else if h.size == 0 then Ok([]) else Ok([PacketRef(2, h)])
  {
    HeaderValid(d[2]);
    hide HeaderOf;
  }

  /** The parser's outcome on any input. Fewer than 20 bytes, or a frame that is not
      complete or has a packet reaching too far, is lack of data; no alignment word
      with 20 bytes from it on, or a packet of unknown type, is the other error;
      anything else is a frame with the packets that tile it. */
  lemma ParseExactly(ws: seq<Word>, size: nat, k: nat)
    requires |ws| == size / 4
    ensures size < 20 ==> Parse(ws, size) == IndexError
    ensures size >= 20 && (forall j: nat | 4 * j + 20 <= size :: !Aligned(ws[j])) ==> Parse(ws, size) == RuntimeError
    ensures FirstFrameAt(ws, size, k) ==>
      var d, frameSize := ws[k..], ws[k + 1] % 0x10_0000;
      && (frameSize > |d| ==> Parse(ws, size) == IndexError)
      && (3 <= frameSize <= |d| ==>
            && (forall refs ::
                  Parse(ws, size) == Ok(Frame(k, ws[k], ws[k + 1] / 0x10_0000, frameSize, refs)) <==>
                  Tiling(d, frameSize, 2, refs))
            && (Parse(ws, size) == IndexError <==> exists refs :: ComesToOverlong(d, frameSize, 2, refs))
            && (Parse(ws, size) == RuntimeError <==> exists refs :: ComesToUnknown(d, frameSize, 2, refs)))
      && (frameSize < 3 ==>
            var h := HeaderOf(d[2]);
            Parse(ws, size) ==
            if h.ptype > 5 then RuntimeError
            else Ok(Frame(k, ws[k], ws[k + 1] / 0x10_0000, frameSize, if h.size == 0 then [] else [PacketRef(2, h)])))
  {
    hide HeaderOf, Walk, Tiling, ComesToOverlong, ComesToUnknown, Skip, Aligned;
    SkipFailsExactly(ws, size);
    SkipFindsFirst(ws, size, k);
    if FirstFrameAt(ws, size, k) {
      var d, frameSize := ws[k..], ws[k + 1] % 0x10_0000;
      if frameSize < 3 {
        WalkShort(d, frameSize);
      } else if frameSize <= |d| {
        WalkExactly(d, frameSize);
      }
    }
  }

  // ---- Writing frames ----------------------------------------------------

  datatype Image = Image(alignWord: Word, count: nat, packets: seq<Packet>, trailer: Word)

  function Body(ps: seq<Packet>): seq<Word>
    requires forall p | p in ps :: ValidPacket(p)
  {
    if ps == [] then [] else Encode(ps[0]) + Body(ps[1..])
  }

  predicate ValidImage(f: Image) {
    && Aligned(f.alignWord) && f.count < 4096
    && (forall p | p in f.packets :: ValidPacket(p))
    && 3 + |Body(f.packets)| < 0x10_0000
  }

  /** The words of a frame: alignment word, size and count, packets, trailer. */
  function EncodeFrame(f: Image): seq<Word>
    requires ValidImage(f)
  {
    [f.alignWord, InfoWord(3 + |Body(f.packets)|, f.count)] + Body(f.packets) + [f.trailer]
  }

  function Refs(ps: seq<Packet>, offset: nat): (refs: seq<PacketRef>)
    ensures |refs| == |ps|
  {
    if ps == [] then [] else [PacketRef(offset, ps[0].header)] + Refs(ps[1..], offset + ps[0].header.size)
  }

  /** Each packet of a body is found, whole, at the offset Refs gives it. */
  lemma {:induction false} RefsReadBack(d: seq<Word>, offset: nat, ps: seq<Packet>, rest: seq<Word>, i: nat)
    requires forall p | p in ps :: ValidPacket(p)
    requires offset <= |d| && d[offset..] == Body(ps) + rest
    requires i < |ps|
    ensures Refs(ps, offset)[i].offset < |d|
    ensures PacketHere(d[Refs(ps, offset)[i].offset..])
    ensures Decode(d[Refs(ps, offset)[i].offset..]) == ps[i]
    decreases i
  {
    hide HeaderOf, Encode, Decode, PacketHere, ValidPacket;
    var tail := Body(ps[1..]) + rest;
    assert d[offset..] == Encode(ps[0]) + tail;
    DecodeEncode(ps[0], tail);
    if i > 0 {
      EncodeSize(ps[0]);
      var next := offset + ps[0].header.size;
      assert d[next..] == d[offset..][ps[0].header.size..] == tail;
      RefsReadBack(d, next, ps[1..], rest, i - 1);
    }
  }

  /** The first packet of a body, as the walk meets it. */
  lemma BodyFirst(d: seq<Word>, offset: nat, ps: seq<Packet>, rest: seq<Word>)
    requires ps != [] && forall p | p in ps :: ValidPacket(p)
    requires offset <= |d| && d[offset..] == Body(ps) + rest
    ensures offset < |d| && HeaderOf(d[offset]) == ps[0].header
    ensures ps[0].header.ptype <= 5
    ensures ps[0].header.size >= 1
    ensures |Body(ps)| == ps[0].header.size + |Body(ps[1..])|
    ensures offset + ps[0].header.size <= |d|
    ensures d[offset + ps[0].header.size..] == Body(ps[1..]) + rest
  {
    hide HeaderOf, Encode, Decode, ValidPacket, PacketHere, Body;
    var p, tail := ps[0], Body(ps[1..]) + rest;
    EncodeSize(p);
    DecodeEncode(p, tail);
    BodySplit(ps, rest);
    Split(d, offset, Encode(p), tail);
  }

  lemma BodySplit(ps: seq<Packet>, rest: seq<Word>)
    requires ps != [] && forall p | p in ps :: ValidPacket(p)
    ensures |Body(ps)| == |Encode(ps[0])| + |Body(ps[1..])|
    ensures Body(ps) + rest == Encode(ps[0]) + (Body(ps[1..]) + rest)
  {
    hide Encode, ValidPacket;
  }

  lemma Split(d: seq<Word>, offset: nat, a: seq<Word>, b: seq<Word>)
    requires offset <= |d| && d[offset..] == a + b && |a| > 0
    ensures offset + |a| <= |d| && d[offset] == (a + b)[0] && d[offset + |a|..] == b
  {
    assert d[offset + |a|..] == d[offset..][|a|..];
  }

  lemma {:induction false} WalkBody(d: seq<Word>, frameSize: nat, offset: nat, ps: seq<Packet>, rest: seq<Word>)
    requires ps != [] && forall p | p in ps :: ValidPacket(p)
    requires offset <= |d| && d[offset..] == Body(ps) + rest && |rest| >= 1
    requires frameSize == offset + |Body(ps)| + 1 && frameSize < 0x10_0000
    ensures Walk(d, frameSize, offset) == Ok(Refs(ps, offset))
    decreases |ps|
  {
    hide HeaderOf, Encode, Decode, ValidPacket, Walk;
    BodyFirst(d, offset, ps, rest);
    WalkOne(d, frameSize, offset);
    var next := offset + ps[0].header.size;
    if |ps| > 1 {
      BodyFirst(d, next, ps[1..], rest);
      WalkBody(d, frameSize, next, ps[1..], rest);
    } else {
      assert ps[1..] == [];
      assert Refs(ps, offset) == [PacketRef(offset, ps[0].header)];
    }
  }

  /** One turn of the walk over a packet that fits. */
  lemma WalkOne(d: seq<Word>, frameSize: nat, offset: nat)
    requires offset + 1 <= frameSize <= |d| && frameSize < 0x10_0000
    requires var h := HeaderOf(d[offset]); h.ptype <= 5 && 1 <= h.size <= frameSize - offset - 1
    ensures var h := HeaderOf(d[offset]); var next := offset + h.size;
      && (next + 1 == frameSize ==> Walk(d, frameSize, offset) == Ok([PacketRef(offset, h)]))
      && (next + 1 < frameSize && Walk(d, frameSize, next).Ok? ==>
            Walk(d, frameSize, offset) == Ok([PacketRef(offset, h)] + Walk(d, frameSize, next).value))
  {
    hide HeaderOf, Offered;
    OfferedWords(frameSize, offset);
  }

  /** How the trailer of a frame without packets reads when the do-while loop,
      which always looks at one header, takes it for one. */
  predicate ReadsAsNothing(trailer: Word) {
    HeaderOf(trailer).size == 0 && HeaderOf(trailer).ptype <= 5
  }

  /** The frame of an image, as the parser should report it. */
  function AsParsed(f: Image, skipped: nat): Frame
    requires ValidImage(f)
  {
    Frame(skipped, f.alignWord, f.count, |EncodeFrame(f)|, Refs(f.packets, 2))
  }

  /** Parsing up to the walk, after words that hold no alignment word. */
  lemma ParseToWalk(garbage: seq<Word>, f: Image, rest: seq<Word>, size: nat)
    requires forall w | w in garbage :: !Aligned(w)
    requires ValidImage(f) && |EncodeFrame(f) + rest| >= 5
    requires size / 4 == |garbage + EncodeFrame(f) + rest|
    ensures var d := EncodeFrame(f) + rest;
      && (garbage + EncodeFrame(f) + rest)[|garbage|..] == d
      && d[2..] == Body(f.packets) + ([f.trailer] + rest)
      && Parse(garbage + EncodeFrame(f) + rest, size) ==
         match Walk(d, |EncodeFrame(f)|, 2)
         case Ok(refs) => Ok(Frame(|garbage|, f.alignWord, f.count, |EncodeFrame(f)|, refs))
         case IndexError => IndexError
         case RuntimeError => RuntimeError
  {
    hide HeaderOf, Encode, ValidPacket, Walk, Skip;
    var ws, k := garbage + EncodeFrame(f) + rest, |garbage|;
    var d := EncodeFrame(f) + rest;
    assert ws[k..] == d;
    assert ws[k] == d[0] == f.alignWord && ws[k + 1] == d[1];
    assert forall j | 0 <= j < k :: ws[j] == garbage[j];
    SkipFindsFirst(ws, size, k);
    assert d[2..] == Body(f.packets) + ([f.trailer] + rest);
  }

  /** What the walk makes of a frame without packets: it takes the trailer for a
      packet header. */
  lemma WalkEmpty(f: Image, rest: seq<Word>)
    requires ValidImage(f) && f.packets == []
    ensures |EncodeFrame(f)| == 3
    ensures Walk(EncodeFrame(f) + rest, 3, 2) ==
            if ReadsAsNothing(f.trailer) then Ok([])
            else if HeaderOf(f.trailer).ptype > 5 then RuntimeError else IndexError
  {
    hide HeaderOf, Offered;
    OfferedWords(3, 2);
    assert (EncodeFrame(f) + rest)[2] == f.trailer;
  }

  /** Parsing inverts writing. After words that hold no alignment word, and
      whatever follows, the parser finds a written frame, any list of packets,
      with its count, size and packets, if and only if there is a packet or the
      trailer reads as a header of size zero; a frame without packets and with
      another trailer is an error. */
  lemma {:induction false} ParseEncode(garbage: seq<Word>, f: Image, rest: seq<Word>, size: nat)
    requires forall w | w in garbage :: !Aligned(w)
    requires ValidImage(f) && |EncodeFrame(f) + rest| >= 5
    requires size / 4 == |garbage + EncodeFrame(f) + rest|
    ensures var r := Parse(garbage + EncodeFrame(f) + rest, size);
      && (r == Ok(AsParsed(f, |garbage|)) <==> f.packets != [] || ReadsAsNothing(f.trailer))
      && (f.packets == [] && !ReadsAsNothing(f.trailer) ==>
            r == if HeaderOf(f.trailer).ptype > 5 then RuntimeError else IndexError)
  {
    hide HeaderOf, Encode, ValidPacket, Parse, Walk, ReadsAsNothing;
    var d := EncodeFrame(f) + rest;
    ParseToWalk(garbage, f, rest, size);
    if f.packets == [] {
      WalkEmpty(f, rest);
    } else {
      WalkBody(d, |EncodeFrame(f)|, 2, f.packets, [f.trailer] + rest);
    }
  }

  /** And every packet of the frame is found whole, with all its fields. */
  lemma {:induction false} PacketsReadBack(garbage: seq<Word>, f: Image, rest: seq<Word>, i: nat)
    requires ValidImage(f) && i < |f.packets|
    ensures var d := (garbage + EncodeFrame(f) + rest)[|garbage|..];
      var at := Refs(f.packets, 2)[i].offset;
      at < |d| && PacketHere(d[at..]) && Decode(d[at..]) == f.packets[i]
  {
    hide HeaderOf, Encode, Decode, PacketHere, ValidPacket, Refs;
    var d := EncodeFrame(f) + rest;
    assert (garbage + EncodeFrame(f) + rest)[|garbage|..] == d;
    assert d[2..] == Body(f.packets) + ([f.trailer] + rest);
    RefsReadBack(d, 2, f.packets, [f.trailer] + rest, i);
  }

  /** The trailer that ANSI/VITA 49.1 prescribes, "VEND". */
  const VEND: Word := 0x5645_4E44

  /** It reads as a header of a context packet of 0x4E44 words. */
  lemma StandardTrailer()
    ensures HeaderOf(VEND).ptype == 5 && HeaderOf(VEND).size == 0x4E44 && !ReadsAsNothing(VEND)
  {
    HeaderFields(VEND);
    hide HeaderOf;
    assert HeaderOf(VEND).size == 0x4E44;
  }

  /** Every packet found by a walk is whole and well formed. */
  predicate AllHere(d: seq<Word>, refs: seq<PacketRef>) {
    forall r | r in refs :: r.offset <= |d| && PacketHere(d[r.offset..])
  }

  /** The packets found by a walk, read out as records. */
  function ReadPackets(d: seq<Word>, refs: seq<PacketRef>): (ps: seq<Packet>)
    requires AllHere(d, refs)
    ensures |ps| == |refs|
  {
    if refs == [] then [] else [Decode(d[refs[0].offset..])] + ReadPackets(d, refs[1..])
  }

  lemma RefsInPlace(d: seq<Word>, frameSize: nat, from: nat, refs: seq<PacketRef>)
    requires Chain(d, frameSize, from, refs)
    requires forall r | r in refs :: WellSized(r.header)
    ensures AllHere(d, refs)
  {
    hide HeaderOf, WellSized;
    forall r | r in refs
      ensures r.offset <= |d| && PacketHere(d[r.offset..])
    {
      assert HeaderOf(d[r.offset..][0]) == r.header;
      HeaderValid(d[r.offset]);
    }
  }

  lemma {:induction false} ReadPacketsValid(d: seq<Word>, refs: seq<PacketRef>)
    requires AllHere(d, refs)
    ensures forall p | p in ReadPackets(d, refs) :: ValidPacket(p)
    decreases |refs|
  {
    hide HeaderOf, Encode, Decode, ValidPacket, PacketHere;
    if refs != [] {
      assert refs[0] in refs;
      EncodeDecode(d[refs[0].offset..]);
      ReadPacketsValid(d, refs[1..]);
    }
  }

  /** refs are whole packets one after the other from word `from` to word `end`. */
  predicate Consecutive(d: seq<Word>, refs: seq<PacketRef>, from: nat, end: nat)
    decreases |refs|
  {
    if refs == [] then from == end <= |d|
    else
      && refs[0].offset == from <= |d| && PacketHere(d[from..])
      && HeaderOf(d[from..][0]).size == refs[0].header.size
      && Consecutive(d, refs[1..], from + refs[0].header.size, end)
  }

  lemma {:induction false} ChainConsecutive(d: seq<Word>, frameSize: nat, from: nat, refs: seq<PacketRef>)
    requires Chain(d, frameSize, from, refs) && AllHere(d, refs)
    ensures Consecutive(d, refs, from, End(from, refs))
    decreases |refs|
  {
    hide HeaderOf, PacketHere;
    if refs != [] {
      ChainTail(d, frameSize, from, refs);
      assert refs[0] in refs;
      assert d[from..][0] == d[from];
      hide Chain;
      ChainConsecutive(d, frameSize, from + refs[0].header.size, refs[1..]);
    }
  }

  lemma {:induction false} BodyOfRead(d: seq<Word>, refs: seq<PacketRef>, from: nat, end: nat)
    requires Consecutive(d, refs, from, end) && AllHere(d, refs)
    ensures forall p | p in ReadPackets(d, refs) :: ValidPacket(p)
    ensures from <= end <= |d| && Body(ReadPackets(d, refs)) == d[from..end]
    decreases |refs|
  {
    hide HeaderOf, Encode, Decode, ValidPacket, PacketHere;
    ReadPacketsValid(d, refs);
    if refs == [] {
      assert d[from..end] == [];
    } else {
      var next := from + refs[0].header.size;
      HeadWords(d, from, refs[0].header.size);
      BodyOfRead(d, refs[1..], next, end);
      BodyCons(Decode(d[from..]), ReadPackets(d, refs[1..]));
      hide Body, Consecutive, AllHere;
      JoinSlices(d, from, next, end);
      assert ReadPackets(d, refs) == [Decode(d[from..])] + ReadPackets(d, refs[1..]);
    }
  }

  lemma HeadWords(d: seq<Word>, from: nat, size: nat)
    requires from <= |d| && PacketHere(d[from..]) && HeaderOf(d[from..][0]).size == size
    ensures from + size <= |d| && ValidPacket(Decode(d[from..]))
    ensures Encode(Decode(d[from..])) == d[from..from + size]
  {
    hide HeaderOf, Encode, Decode, ValidPacket;
    EncodeDecode(d[from..]);
    assert d[from..][..size] == d[from..from + size];
  }

  lemma BodyCons(p: Packet, ps: seq<Packet>)
    requires ValidPacket(p) && forall q | q in ps :: ValidPacket(q)
    ensures forall q | q in [p] + ps :: ValidPacket(q)
    ensures Body([p] + ps) == Encode(p) + Body(ps)
  {
    hide ValidPacket, Encode;
    assert ([p] + ps)[1..] == ps;
  }

  /** What was read from a parsed frame. */
  function ReadFrame(d: seq<Word>, f: Frame): Image
    requires 1 <= f.size <= |d| && AllHere(d, f.packets)
  {
    Image(f.alignWord, f.count, ReadPackets(d, f.packets), d[f.size - 1])
  }

  /** Writing inverts parsing: a parsed frame whose packets are well formed and
      reach its trailer is the encoding of what was read from it. */
  lemma {:induction false} EncodeParse(ws: seq<Word>, size: nat)
    requires |ws| == size / 4 && Parse(ws, size).Ok?
    requires var f := Parse(ws, size).value;
      f.size >= 3 && End(2, f.packets) == f.size - 1
      && forall r | r in f.packets :: WellSized(r.header)
    ensures var f := Parse(ws, size).value;
      && f.skipped + f.size <= |ws|
      && var d := ws[f.skipped..];
      && AllHere(d, f.packets)
      && ValidImage(ReadFrame(d, f)) && EncodeFrame(ReadFrame(d, f)) == d[..f.size]
  {
    hide HeaderOf, Parse, ValidPacket, PacketHere, WellSized, FirstFrameAt, AllHere, Body, ReadPackets, Chain, End,
         Consecutive;
    ParsedFrameFits(ws, size);
    var f := Parse(ws, size).value;
    var d := ws[f.skipped..];
    RefsInPlace(d, f.size, 2, f.packets);
    ChainConsecutive(d, f.size, 2, f.packets);
    BodyOfRead(d, f.packets, 2, f.size - 1);
    Frame3(d, f.size);
    assert d[0] == f.alignWord && Aligned(d[0]);
  }

  lemma Frame3(d: seq<Word>, size: nat)
    requires 3 <= size <= |d|
    requires size == FrameSize(d[1])
    ensures d[1] == InfoWord(size, FrameCount(d[1]))
    ensures d[..size] == [d[0], d[1]] + d[2..size - 1] + [d[size - 1]]
  {
  }
}
