/** VRT packets: the header word, the optional-field layout, and the accessors
    of VRTPacketImpl. */
module VrtPacket {
  import opened Words

  /** The fields of VRTHeader, in declaration order (lowest bits first). */
  datatype Header = Header(size: nat, count: nat, tsf: nat, tsi: nat, tsm: nat,
                           rsvd: nat, t: nat, c: nat, ptype: nat)

  predicate ValidHeader(h: Header) {
    && h.size < 0x1_0000 && h.count < 16 && h.tsf < 4 && h.tsi < 4 && h.tsm < 2
    && h.rsvd < 2 && h.t < 2 && h.c < 2 && h.ptype < 16
  }

  function HeaderOf(w: Word): (h: Header)
    ensures ValidHeader(h)
  {
    var w1 := w / 0x1_0000;
    var w2 := w1 / 16;
    var w3 := w2 / 4;
    var w4 := w3 / 4;
    var w5 := w4 / 2;
    var w6 := w5 / 2;
    var w7 := w6 / 2;
    Header(w % 0x1_0000, w1 % 16, w2 % 4, w3 % 4, w4 % 2, w5 % 2, w6 % 2, w7 % 2, w7 / 2)
  }

  function HeaderWord(h: Header): Word
    requires ValidHeader(h)
  {
    var w7 := h.c + 2 * h.ptype;
    var w4 := h.tsm + 2 * (h.rsvd + 2 * (h.t + 2 * w7));
    var w2 := h.tsf + 4 * (h.tsi + 4 * w4);
    h.size + 0x1_0000 * (h.count + 16 * w2)
  }

  lemma {:induction false} HeaderRoundTrip(h: Header)
    requires ValidHeader(h)
    ensures HeaderOf(HeaderWord(h)) == h
  {
    var w7 := h.c + 2 * h.ptype;
    var w6 := h.t + 2 * w7;
    var w5 := h.rsvd + 2 * w6;
    var w4 := h.tsm + 2 * w5;
    var w3 := h.tsi + 4 * w4;
    var w2 := h.tsf + 4 * w3;
    var w1 := h.count + 16 * w2;
    var w := h.size + 0x1_0000 * w1;
    assert w / 0x1_0000 == w1 && w % 0x1_0000 == h.size;
    assert w1 / 16 == w2 && w2 / 4 == w3 && w3 / 4 == w4 && w4 / 2 == w5 && w5 / 2 == w6 && w6 / 2 == w7;
    assert w == HeaderWord(h);
  }

  lemma HeaderValid(w: Word)
    ensures ValidHeader(HeaderOf(w))
  {
  }

  lemma HeaderWordRoundTrip(w: Word)
    ensures HeaderWord(HeaderOf(w)) == w
  {
  }

  /** Declared bit widths of VRTHeader; the compiler allocates them in order
      starting at bit 0 on a little-endian target. */
  const WIDTHS: seq<nat> := [16, 4, 2, 2, 1, 1, 1, 1, 4]

  function FieldValues(h: Header): seq<nat> {
    [h.size, h.count, h.tsf, h.tsi, h.tsm, h.rsvd, h.t, h.c, h.ptype]
  }

  function Bits(w: Word, lo: nat, width: nat): nat {
    assert Pow2(lo) > 0 && Pow2(width) > 0 by { Pow2Positive(lo); Pow2Positive(width); }
    w / Pow2(lo) % Pow2(width)
  }

  lemma Pow2Positive(n: nat)
    ensures Pow2(n) > 0
  {
  }

  lemma Pow2Add4(n: nat)
    ensures Pow2(n + 4) == 16 * Pow2(n)
  {
    assert Pow2(n + 4) == 2 * Pow2(n + 3);
    assert Pow2(n + 3) == 2 * Pow2(n + 2);
    assert Pow2(n + 2) == 2 * Pow2(n + 1);
  }

  lemma Pow2Values()
    ensures Pow2(0) == 1 && Pow2(1) == 2 && Pow2(2) == 4 && Pow2(4) == 16
    ensures Pow2(16) == 0x1_0000 && Pow2(20) == 0x10_0000 && Pow2(22) == 0x40_0000
    ensures Pow2(24) == 0x100_0000 && Pow2(25) == 0x200_0000 && Pow2(26) == 0x400_0000
    ensures Pow2(27) == 0x800_0000 && Pow2(28) == 0x1000_0000
  {
    assert Pow2(1) == 2 * Pow2(0);
    assert Pow2(2) == 2 * Pow2(1);
    Pow2Add4(0); Pow2Add4(4); Pow2Add4(8); Pow2Add4(12); Pow2Add4(16); Pow2Add4(20); Pow2Add4(24);
    assert Pow2(22) == 2 * Pow2(21) && Pow2(21) == 2 * Pow2(20);
    assert Pow2(27) == 2 * Pow2(26) && Pow2(26) == 2 * Pow2(25) && Pow2(25) == 2 * Pow2(24);
  }

  function BitStart(i: nat): nat
    requires i <= |WIDTHS|
  {
    Sum(WIDTHS[..i])
  }

  lemma BitStarts()
    ensures BitStart(0) == 0 && BitStart(1) == 16 && BitStart(2) == 20 && BitStart(3) == 22
    ensures BitStart(4) == 24 && BitStart(5) == 25 && BitStart(6) == 26 && BitStart(7) == 27
    ensures BitStart(8) == 28
  {
    forall i: nat | i < |WIDTHS|
      ensures BitStart(i + 1) == BitStart(i) + WIDTHS[i]
    {
      assert WIDTHS[..i + 1] == WIDTHS[..i] + [WIDTHS[i]];
      SumAppend(WIDTHS[..i], [WIDTHS[i]]);
      assert Sum([WIDTHS[i]]) == WIDTHS[i] + Sum([]);
    }
    assert BitStart(0) == Sum([]);
  }

  /** Every header field is the run of bits that the declaration order gives it. */
  lemma HeaderBitLayout(w: Word, i: nat)
    requires i < |WIDTHS|
    ensures FieldValues(HeaderOf(w))[i] == Bits(w, BitStart(i), WIDTHS[i])
  {
    hide HeaderOf, Pow2, BitStart;
    Pow2Values();
    BitStarts();
    HeaderFields(w);
  }

  lemma HeaderFields(w: Word)
    ensures var h := HeaderOf(w);
      && h.size == w % 0x1_0000 && h.count == w / 0x1_0000 % 16
      && h.tsf == w / 0x10_0000 % 4 && h.tsi == w / 0x40_0000 % 4
      && h.tsm == w / 0x100_0000 % 2 && h.rsvd == w / 0x200_0000 % 2
      && h.t == w / 0x400_0000 % 2 && h.c == w / 0x800_0000 % 2
      && h.ptype == w / 0x1000_0000 && h.ptype < 16
  {
    Quotients(w);
  }

  lemma Quotients(w: Word)
    ensures w / 0x1_0000 / 16 == w / 0x10_0000
    ensures w / 0x10_0000 / 4 == w / 0x40_0000
    ensures w / 0x40_0000 / 4 == w / 0x100_0000
    ensures w / 0x100_0000 / 2 == w / 0x200_0000
    ensures w / 0x200_0000 / 2 == w / 0x400_0000
    ensures w / 0x400_0000 / 2 == w / 0x800_0000
    ensures w / 0x800_0000 / 2 == w / 0x1000_0000
  {
  }

  // ---- Optional fields -------------------------------------------------

  datatype Field = StreamIdField | ClassIdField | TsiField | TsfField | PayloadField | TrailerField

  predicate HasStreamId(h: Header) {
    h.ptype == 1 || h.ptype == 3 || h.ptype == 4 || h.ptype == 5
  }

  predicate HasClassId(h: Header) {
    h.c == 1
  }

  predicate HasTrailer(h: Header) {
    if h.ptype == 4 || h.ptype == 5 then false else h.t == 1
  }

  /** get_field_offset, in words; the trailer case subtracts in size_t. */
  function FieldOffset(h: Header, f: Field): nat {
    if f == TrailerField then Wrap(h.size - 1)
    else if f == StreamIdField then 1
    else
      var o1 := if HasStreamId(h) then 2 else 1;
      if f == ClassIdField then o1 else
      var o2 := if HasClassId(h) then o1 + 2 else o1;
      if f == TsiField then o2 else
      var o3 := if h.tsi != 0 then o2 + 1 else o2;
      if f == TsfField then o3 else
      if h.tsf != 0 then o3 + 2 else o3
  }

  /** get_payload_size, in bytes, with every step in size_t. */
  function PayloadSize(h: Header): nat {
    var size := Wrap(h.size - FieldOffset(h, PayloadField));
    var size' := if HasTrailer(h) then Wrap(size - 1) else size;
    Wrap(size' * 4)
  }

  function Opt(present: bool, width: nat): nat {
    if present then width else 0
  }

  /** The stored size has room for the fields that the header announces. */
  predicate WellSized(h: Header) {
    FieldOffset(h, PayloadField) + Opt(HasTrailer(h), 1) <= h.size
  }

  /** Reference layout: the widths in words of header, stream id, class id,
      integer timestamp, fractional timestamp, n payload words and trailer. */
  function Layout(h: Header, n: nat): seq<nat> {
    [1, Opt(HasStreamId(h), 1), Opt(HasClassId(h), 2), Opt(h.tsi != 0, 1),
     Opt(h.tsf != 0, 2), n, Opt(HasTrailer(h), 1)]
  }

  function Place(h: Header, n: nat, i: nat): nat
    requires i <= 7
  {
    Sum(Layout(h, n)[..i])
  }

  /** The prefix sums of the layout, written out. */
  lemma Places(h: Header, n: nat)
    ensures var l := Layout(h, n);
      && Place(h, n, 1) == l[0]
      && Place(h, n, 2) == l[0] + l[1]
      && Place(h, n, 3) == l[0] + l[1] + l[2]
      && Place(h, n, 4) == l[0] + l[1] + l[2] + l[3]
      && Place(h, n, 5) == l[0] + l[1] + l[2] + l[3] + l[4]
      && Place(h, n, 6) == l[0] + l[1] + l[2] + l[3] + l[4] + l[5]
      && Place(h, n, 7) == l[0] + l[1] + l[2] + l[3] + l[4] + l[5] + l[6]
  {
    var l := Layout(h, n);
    forall i: nat | i < 7
      ensures Place(h, n, i + 1) == Place(h, n, i) + l[i]
    {
      assert l[..i + 1] == l[..i] + [l[i]];
      SumAppend(l[..i], [l[i]]);
      assert Sum([l[i]]) == l[i] + Sum([]);
    }
    assert Place(h, n, 0) == 0;
    assert Place(h, n, 0 + 1) == Place(h, n, 0) + l[0];
    assert Place(h, n, 1 + 1) == Place(h, n, 1) + l[1];
    assert Place(h, n, 2 + 1) == Place(h, n, 2) + l[2];
    assert Place(h, n, 3 + 1) == Place(h, n, 3) + l[3];
    assert Place(h, n, 4 + 1) == Place(h, n, 4) + l[4];
    assert Place(h, n, 5 + 1) == Place(h, n, 5) + l[5];
    assert Place(h, n, 6 + 1) == Place(h, n, 6) + l[6];
  }

  /** A header whose size is that of the reference layout with n payload words
      has every field exactly where the layout puts it, and reports 4 * n
      payload bytes. */
  lemma FieldLayout(h: Header, n: nat)
    requires ValidHeader(h) && h.size == Place(h, n, 7)
    ensures WellSized(h)
    ensures FieldOffset(h, StreamIdField) == Place(h, n, 1)
    ensures FieldOffset(h, ClassIdField) == Place(h, n, 2)
    ensures FieldOffset(h, TsiField) == Place(h, n, 3)
    ensures FieldOffset(h, TsfField) == Place(h, n, 4)
    ensures FieldOffset(h, PayloadField) == Place(h, n, 5)
    ensures HasTrailer(h) ==> FieldOffset(h, TrailerField) == Place(h, n, 6)
    ensures PayloadSize(h) == 4 * n
    ensures Place(h, n, 6) == if HasTrailer(h) then h.size - 1 else h.size
  {
    Places(h, n);
    assert h.size == FieldOffset(h, PayloadField) + n + Opt(HasTrailer(h), 1);
  }

  /** The payload size lies inside the packet exactly when the header is well
      sized; otherwise the subtraction wraps and the size is astronomical. */
  lemma PayloadSizeExact(h: Header)
    requires ValidHeader(h)
    ensures PayloadSize(h) <= 4 * h.size <==> WellSized(h)
    ensures WellSized(h) ==> h.size == Place(h, PayloadSize(h) / 4, 7)
    ensures !WellSized(h) ==> PayloadSize(h) / 4 >= 0x2000_0000_0000_0000
  {
    var room := h.size - FieldOffset(h, PayloadField) - Opt(HasTrailer(h), 1);
    assert -8 <= room < 0x1_0000;
    if WellSized(h) {
      Places(h, room);
      hide Place;
      assert h.size == Place(h, room, 7);
      FieldLayout(h, room);
    } else {
      WrappedPayloadSize(h);
      hide PayloadSize;
    }
  }

  lemma WrappedPayloadSize(h: Header)
    requires ValidHeader(h) && !WellSized(h)
    ensures PayloadSize(h) ==
            SIZE_T - 4 * (FieldOffset(h, PayloadField) + Opt(HasTrailer(h), 1) - h.size)
  {
    var off, tr := FieldOffset(h, PayloadField), Opt(HasTrailer(h), 1);
    assert 1 <= off <= 7;
    hide FieldOffset, HasTrailer, Wrap;
    WrapThrice(h.size - off, tr);
    assert PayloadSize(h) == Wrap((if HasTrailer(h) then Wrap(Wrap(h.size - off) - 1) else Wrap(h.size - off)) * 4);
  }

  lemma WrapThrice(x: int, tr: nat)
    requires -8 <= x - tr < 0 && tr <= 1
    ensures tr == 1 ==> Wrap(Wrap(Wrap(x) - 1) * 4) == SIZE_T + 4 * (x - tr)
    ensures tr == 0 ==> Wrap(Wrap(x) * 4) == SIZE_T + 4 * (x - tr)
  {
    var y := x - tr;
    if tr == 1 {
      assert Wrap(Wrap(x) - 1) == SIZE_T + y;
    } else {
      assert Wrap(x) == SIZE_T + y;
    }
    assert (SIZE_T + y) * 4 == 3 * SIZE_T + (SIZE_T + 4 * y);
  }

  // ---- The layout, from the header word ------------------------------------

  /** By packet type: data, data with stream id, extension data, extension data
      with stream id, context, extension context; then the unused types. First
      the words of stream id, then those of trailer that bit 26 announces. */
  const STREAM_IDS: seq<nat> := [0, 1, 0, 1, 1, 1, 0, 0, 0, 0, 0, 0, 0, 0, 0, 0]
  const TRAILERS: seq<nat> := [1, 1, 1, 1, 0, 0, 1, 1, 1, 1, 1, 1, 1, 1, 1, 1]

  function TypeBits(w: Word): (t: nat)
    ensures t < 16
  {
    var v: int := w;
    v / 0x1000_0000
  }

  /** The widths, in words, of everything before the payload. */
  function WordsBefore(w: Word): (b: seq<nat>)
    ensures |b| == 5
  {
    [1,
     STREAM_IDS[TypeBits(w)],
     if w / 0x800_0000 % 2 == 1 then 2 else 0,
     if w / 0x40_0000 % 4 == 0 then 0 else 1,
     if w / 0x10_0000 % 4 == 0 then 0 else 2]
  }

  function WordsBehind(w: Word): nat {
    if w / 0x400_0000 % 2 == 1 then TRAILERS[TypeBits(w)] else 0
  }

  /** Where each field starts and what it takes, from the header word alone: each
      offset is the sum of the widths before it, the trailer is the last word,
      and the payload is what is left, if anything is. */
  lemma LayoutOfWord(w: Word)
    ensures var h, b := HeaderOf(w), WordsBefore(w);
      && FieldOffset(h, StreamIdField) == b[0]
      && FieldOffset(h, ClassIdField) == b[0] + b[1]
      && FieldOffset(h, TsiField) == b[0] + b[1] + b[2]
      && FieldOffset(h, TsfField) == b[0] + b[1] + b[2] + b[3]
      && FieldOffset(h, PayloadField) == b[0] + b[1] + b[2] + b[3] + b[4]
      && (w % 0x1_0000 > 0 ==> FieldOffset(h, TrailerField) == w % 0x1_0000 - 1)
      && (WellSized(h) <==> Sum(b) + WordsBehind(w) <= w % 0x1_0000)
      && (WellSized(h) ==> PayloadSize(h) == 4 * (w % 0x1_0000 - Sum(b) - WordsBehind(w)))
  {
    HeaderFields(w);
    HeaderValid(w);
    SumOfFive(WordsBefore(w));
    hide HeaderOf, Sum;
    OffsetsOfWord(w);
    WrapSmall(HeaderOf(w).size, FieldOffset(HeaderOf(w), PayloadField));
  }

  lemma SumOfFive(b: seq<nat>)
    requires |b| == 5
    ensures Sum(b) == b[0] + b[1] + b[2] + b[3] + b[4]
  {
    assert Sum(b[1..]) == b[1] + Sum(b[1..][1..]) && b[1..][1..] == b[2..];
    assert Sum(b[2..]) == b[2] + Sum(b[2..][1..]) && b[2..][1..] == b[3..];
    assert Sum(b[3..]) == b[3] + Sum(b[3..][1..]) && b[3..][1..] == b[4..];
    assert Sum(b[4..]) == b[4] + Sum(b[4..][1..]) && b[4..][1..] == [];
  }

  lemma OffsetsOfWord(w: Word)
    ensures var h, b := HeaderOf(w), WordsBefore(w);
      && FieldOffset(h, StreamIdField) == b[0]
      && FieldOffset(h, ClassIdField) == b[0] + b[1]
      && FieldOffset(h, TsiField) == b[0] + b[1] + b[2]
      && FieldOffset(h, TsfField) == b[0] + b[1] + b[2] + b[3]
      && FieldOffset(h, PayloadField) == b[0] + b[1] + b[2] + b[3] + b[4]
      && Opt(HasTrailer(h), 1) == WordsBehind(w)
  {
    hide HeaderOf;
    HeaderFields(w);
  }

  lemma WrapSmall(size: nat, offset: nat)
    requires size < 0x1_0000
    ensures offset <= size ==> Wrap(size - offset) == size - offset
    ensures offset < size ==> Wrap(size - offset - 1) == size - offset - 1
    ensures offset < size ==> Wrap(Wrap(size - offset) - 1) == size - offset - 1
    ensures forall n: nat | n < 0x1_0000 :: Wrap(n * 4) == n * 4
  {
  }

  // ---- Packets as records ------------------------------------------------

  datatype Packet = Packet(header: Header, streamId: seq<Word>, classId: seq<Word>,
                           intTime: seq<Word>, fracTime: seq<Word>,
                           payload: seq<Word>, trailer: seq<Word>)

  /** The record's parts are those its header announces, and so is its size. */
  predicate ValidPacket(p: Packet) {
    && ValidHeader(p.header) && p.header.ptype <= 5
    && Layout(p.header, |p.payload|) ==
         [1, |p.streamId|, |p.classId|, |p.intTime|, |p.fracTime|, |p.payload|, |p.trailer|]
    && p.header.size == Place(p.header, |p.payload|, 7)
  }

  /** The words a sender puts on the wire for a packet. */
  function Encode(p: Packet): seq<Word>
    requires ValidPacket(p)
  {
    [HeaderWord(p.header)] + p.streamId + p.classId + p.intTime + p.fracTime + p.payload + p.trailer
  }

  /** The words from the start of a packet hold all of it, and it is well formed. */
  predicate PacketHere(ws: seq<Word>) {
    |ws| >= 1 && Holds(HeaderOf(ws[0]), ws)
  }

  predicate Holds(h: Header, ws: seq<Word>) {
    ValidHeader(h) && h.ptype <= 5 && WellSized(h) && h.size <= |ws|
  }

  /** What the accessors read out of a packet. */
  function Decode(ws: seq<Word>): Packet
    requires PacketHere(ws)
  {
    ReadFields(HeaderOf(ws[0]), ws)
  }

  function ReadFields(h: Header, ws: seq<Word>): Packet
    requires Holds(h, ws)
  {
    var sid, cid := FieldOffset(h, StreamIdField), FieldOffset(h, ClassIdField);
    var tsi, tsf := FieldOffset(h, TsiField), FieldOffset(h, TsfField);
    var at, end := FieldOffset(h, PayloadField), FieldOffset(h, TrailerField);
    var n := PayloadSize(h) / 4;
    assert at + n + Opt(HasTrailer(h), 1) == h.size by {
      PayloadSizeExact(h);
      Places(h, n);
    }
    Packet(h,
           if HasStreamId(h) then ws[sid..sid + 1] else [],
           if HasClassId(h) then ws[cid..cid + 2] else [],
           if h.tsi != 0 then ws[tsi..tsi + 1] else [],
           if h.tsf != 0 then ws[tsf..tsf + 2] else [],
           ws[at..at + n],
           if HasTrailer(h) then ws[end..end + 1] else [])
  }

  /** Where the payload read out of a packet lies. */
  lemma DecodedPayload(ws: seq<Word>)
    requires PacketHere(ws)
    ensures var h := HeaderOf(ws[0]); var at, n := FieldOffset(h, PayloadField), PayloadSize(h) / 4;
      at + n <= h.size <= |ws| && Decode(ws).payload == ws[at..at + n]
  {
    hide HeaderOf;
    var h := HeaderOf(ws[0]);
    PayloadSizeExact(h);
    Places(h, PayloadSize(h) / 4);
  }

  lemma EncodeSize(p: Packet)
    requires ValidPacket(p)
    ensures |Encode(p)| == p.header.size >= 1 && p.header.ptype <= 5
  {
    Places(p.header, |p.payload|);
    PartSizes(p);
  }

  lemma PartSizes(p: Packet)
    requires ValidPacket(p)
    ensures |p.streamId| == Opt(HasStreamId(p.header), 1)
    ensures |p.classId| == Opt(HasClassId(p.header), 2)
    ensures |p.intTime| == Opt(p.header.tsi != 0, 1)
    ensures |p.fracTime| == Opt(p.header.tsf != 0, 2)
    ensures |p.trailer| == Opt(HasTrailer(p.header), 1)
    ensures ValidHeader(p.header) && p.header.size == Place(p.header, |p.payload|, 7)
  {
    hide Place;
    var l := Layout(p.header, |p.payload|);
    assert l[1] == |p.streamId| && l[2] == |p.classId| && l[3] == |p.intTime|;
    assert l[4] == |p.fracTime| && l[6] == |p.trailer|;
  }

  /** A piece of a prefix is found again by slicing at its place. */
  lemma Piece(ws: seq<Word>, a: seq<Word>, b: seq<Word>)
    requires a + b <= ws
    ensures a <= ws
    ensures ws[|a|..|a| + |b|] == b
  {
    assert forall i | 0 <= i < |b| :: ws[|a| + i] == (a + b)[|a| + i] == b[i];
    assert forall i | 0 <= i < |a| :: ws[i] == (a + b)[i] == a[i];
  }

  /** Each place is the one before plus a width. */
  lemma PlaceSteps(h: Header, n: nat)
    ensures Place(h, n, 1) == 1
    ensures Place(h, n, 2) == Place(h, n, 1) + Opt(HasStreamId(h), 1)
    ensures Place(h, n, 3) == Place(h, n, 2) + Opt(HasClassId(h), 2)
    ensures Place(h, n, 4) == Place(h, n, 3) + Opt(h.tsi != 0, 1)
    ensures Place(h, n, 5) == Place(h, n, 4) + Opt(h.tsf != 0, 2)
    ensures Place(h, n, 6) == Place(h, n, 5) + n
    ensures Place(h, n, 7) == Place(h, n, 6) + Opt(HasTrailer(h), 1)
  {
    hide Place, HasStreamId, HasClassId, HasTrailer;
    Places(h, n);
  }

  lemma ReadEncoded(p: Packet, rest: seq<Word>)
    requires ValidPacket(p)
    ensures Holds(p.header, Encode(p) + rest)
    ensures ReadFields(p.header, Encode(p) + rest) == p
  {
    hide Place, FieldOffset, PayloadSize, Layout, Encode, HasStreamId, HasClassId, HasTrailer;
    var h, n := p.header, |p.payload|;
    EncodeSize(p);
    FieldLayout(h, n);
    EncodedParts(p, Encode(p) + rest);
    PlaceSteps(h, n);
    PartSizes(p);
  }

  /** Each part of an encoded packet lies where the layout places it. */
  lemma EncodedParts(p: Packet, ws: seq<Word>)
    requires ValidPacket(p) && Encode(p) <= ws
    ensures var h, n := p.header, |p.payload|;
      && Place(h, n, 1) <= Place(h, n, 2) <= Place(h, n, 3) <= Place(h, n, 4)
      && Place(h, n, 4) <= Place(h, n, 5) <= Place(h, n, 6) <= h.size <= |ws|
      && ws[Place(h, n, 1)..Place(h, n, 2)] == p.streamId
      && ws[Place(h, n, 2)..Place(h, n, 3)] == p.classId
      && ws[Place(h, n, 3)..Place(h, n, 4)] == p.intTime
      && ws[Place(h, n, 4)..Place(h, n, 5)] == p.fracTime
      && ws[Place(h, n, 5)..Place(h, n, 6)] == p.payload
      && ws[Place(h, n, 6)..h.size] == p.trailer
  {
    hide Place, ValidPacket, HeaderWord, HasStreamId, HasClassId, HasTrailer;
    PartSizes(p);
    var h, n := p.header, |p.payload|;
    PlaceSteps(h, n);
    Pieces(ws, HeaderWord(h), p.streamId, p.classId, p.intTime, p.fracTime, p.payload, p.trailer,
           Place(h, n, 2), Place(h, n, 3), Place(h, n, 4), Place(h, n, 5), Place(h, n, 6));
  }

  /** The parts of a prefix, found again at the places their lengths add up to. */
  lemma Pieces(ws: seq<Word>, w: Word, a: seq<Word>, b: seq<Word>, c: seq<Word>,
               d: seq<Word>, e: seq<Word>, f: seq<Word>,
               i: nat, j: nat, k: nat, l: nat, m: nat)
    requires [w] + a + b + c + d + e + f <= ws
    requires i == 1 + |a| && j == i + |b| && k == j + |c| && l == k + |d| && m == l + |e|
    ensures m + |f| <= |ws|
    ensures ws[1..i] == a && ws[i..j] == b && ws[j..k] == c && ws[k..l] == d && ws[l..m] == e && ws[m..m + |f|] == f
  {
    Piece(ws, [w] + a + b + c + d + e, f);
    Piece(ws, [w] + a + b + c + d, e);
    Piece(ws, [w] + a + b + c, d);
    Piece(ws, [w] + a + b, c);
    Piece(ws, [w] + a, b);
    Piece(ws, [w], a);
  }

  /** Reading back an encoded packet returns every field unchanged, whatever
      words follow it. */
  lemma {:induction false} DecodeEncode(p: Packet, rest: seq<Word>)
    requires ValidPacket(p)
    ensures PacketHere(Encode(p) + rest)
    ensures HeaderOf((Encode(p) + rest)[0]) == p.header
    ensures Decode(Encode(p) + rest) == p
  {
    HeaderRoundTrip(p.header);
    ReadEncoded(p, rest);
    assert (Encode(p) + rest)[0] == HeaderWord(p.header);
  }

  lemma Join(ws: seq<Word>, i: nat, j: nat)
    requires i <= j <= |ws|
    ensures ws[..i] + ws[i..j] == ws[..j]
  {
  }

  lemma EncodeRead(h: Header, ws: seq<Word>)
    requires Holds(h, ws) && ws[0] == HeaderWord(h)
    ensures ValidPacket(ReadFields(h, ws))
    ensures Encode(ReadFields(h, ws)) == ws[..h.size]
  {
    hide HeaderOf, HeaderWord;
    var p := ReadFields(h, ws);
    var n := PayloadSize(h) / 4;
    PayloadSizeExact(h);
    assert |p.payload| == n;
    FieldLayout(h, n);
    Places(h, n);
    ReadParts(h, ws);
    var o2, o3, o4, o5, o6 := Place(h, n, 2), Place(h, n, 3), Place(h, n, 4), Place(h, n, 5), Place(h, n, 6);
    hide FieldOffset, PayloadSize, ReadFields, Place;
    assert [HeaderWord(h)] == ws[..1];
    Join(ws, 1, o2);
    Join(ws, o2, o3);
    Join(ws, o3, o4);
    Join(ws, o4, o5);
    Join(ws, o5, o6);
    Join(ws, o6, h.size);
  }

  lemma ReadParts(h: Header, ws: seq<Word>)
    requires Holds(h, ws)
    ensures var n := PayloadSize(h) / 4; var p := ReadFields(h, ws);
      && |p.payload| == n && ValidPacket(p)
      && 1 <= Place(h, n, 2) <= Place(h, n, 3) <= Place(h, n, 4)
      && Place(h, n, 4) <= Place(h, n, 5) <= Place(h, n, 6) <= h.size
      && p.streamId == ws[1..Place(h, n, 2)]
      && p.classId == ws[Place(h, n, 2)..Place(h, n, 3)]
      && p.intTime == ws[Place(h, n, 3)..Place(h, n, 4)]
      && p.fracTime == ws[Place(h, n, 4)..Place(h, n, 5)]
      && p.payload == ws[Place(h, n, 5)..Place(h, n, 6)]
      && p.trailer == ws[Place(h, n, 6)..h.size]
  {
    hide HeaderOf, HeaderWord, Place, FieldOffset, PayloadSize;
    var n := PayloadSize(h) / 4;
    PayloadSizeExact(h);
    FieldLayout(h, n);
    PlaceSteps(h, n);
  }

  /** Conversely the record read from any well-formed packet re-encodes to
      exactly its words: no field is lost, moved or read twice. */
  lemma {:induction false} EncodeDecode(ws: seq<Word>)
    requires PacketHere(ws)
    ensures ValidPacket(Decode(ws))
    ensures Encode(Decode(ws)) == ws[..HeaderOf(ws[0]).size]
  {
    HeaderWordRoundTrip(ws[0]);
    EncodeRead(HeaderOf(ws[0]), ws);
  }

  // ---- The throwing accessors ---------------------------------------------

  datatype Access<T> = Got(value: T) | Threw

  function Join64(hi: Word, lo: Word): nat {
    var h: int := hi;
    h * 0x1_0000_0000 + lo
  }

  function GetStreamId(ws: seq<Word>): Access<Word>
    requires |ws| >= 1 && (HasStreamId(HeaderOf(ws[0])) ==> |ws| >= 2)
  {
    var h := HeaderOf(ws[0]);
    if !HasStreamId(h) then Threw else Got(ws[FieldOffset(h, StreamIdField)])
  }

  function GetIntegerTimestamp(ws: seq<Word>): Access<Word>
    requires PacketHere(ws)
  {
    var h := HeaderOf(ws[0]);
    if h.tsi == 0 then Threw else Got(ws[FieldOffset(h, TsiField)])
  }

  function GetFractionalTimestamp(ws: seq<Word>): Access<nat>
    requires PacketHere(ws)
  {
    var h := HeaderOf(ws[0]);
    if h.tsf == 0 then Threw
    else Got(Join64(ws[FieldOffset(h, TsfField)], ws[FieldOffset(h, TsfField) + 1]))
  }

  function GetTrailer(ws: seq<Word>): Access<Word>
    requires PacketHere(ws)
  {
    var h := HeaderOf(ws[0]);
    if !HasTrailer(h) then Threw else Got(ws[FieldOffset(h, TrailerField)])
  }

  function FirstOf(s: seq<Word>): Access<Word> {
    if s == [] then Threw else Got(s[0])
  }

  /** On the words of an encoded packet each accessor throws exactly when the
      sender left the field out, and otherwise returns what was sent. */
  lemma {:induction false} AccessorsReadBack(p: Packet, rest: seq<Word>)
    requires ValidPacket(p)
    ensures PacketHere(Encode(p) + rest)
    ensures GetStreamId(Encode(p) + rest) == FirstOf(p.streamId)
    ensures GetIntegerTimestamp(Encode(p) + rest) == FirstOf(p.intTime)
    ensures GetTrailer(Encode(p) + rest) == FirstOf(p.trailer)
    ensures match GetFractionalTimestamp(Encode(p) + rest)
      case Threw => p.fracTime == []
      case Got(v) => p.fracTime == [v / 0x1_0000_0000, v % 0x1_0000_0000]
  {
    hide Encode, ValidPacket, FieldOffset, HasStreamId, HasTrailer, Join64, HeaderOf, ReadFields;
    var ws := Encode(p) + rest;
    DecodeEncode(p, rest);
    PartSizes(p);
    AccessorsRead(p.header, ws);
    if p.fracTime != [] {
      Halves(p.fracTime[0], p.fracTime[1]);
    }
  }

  lemma Halves(hi: Word, lo: Word)
    ensures Join64(hi, lo) / 0x1_0000_0000 == hi && Join64(hi, lo) % 0x1_0000_0000 == lo
  {
  }

  lemma AccessorsRead(h: Header, ws: seq<Word>)
    requires Holds(h, ws)
    ensures var p := ReadFields(h, ws);
      && (HasStreamId(h) ==> p.streamId == [ws[FieldOffset(h, StreamIdField)]])
      && (h.tsi != 0 ==> p.intTime == [ws[FieldOffset(h, TsiField)]])
      && (h.tsf != 0 ==> p.fracTime == [ws[FieldOffset(h, TsfField)], ws[FieldOffset(h, TsfField) + 1]])
      && (HasTrailer(h) ==> p.trailer == [ws[FieldOffset(h, TrailerField)]])
  {
    hide HeaderOf, HeaderWord;
    PayloadSizeExact(h);
    FieldLayout(h, PayloadSize(h) / 4);
    hide PayloadSize, Place;
    forall o | 0 <= o < |ws| ensures ws[o..o + 1] == [ws[o]] {
    }
    forall o | 0 <= o < |ws| - 1 ensures ws[o..o + 2] == [ws[o], ws[o + 1]] {
    }
  }

  /** What the accessors return on a packet of `size` words whose fields before the
      payload have the widths b and that ends with `behind` words of trailer. */
  predicate ReadsBy(d: seq<Word>, b: seq<nat>, behind: nat, size: nat)
    requires PacketHere(d) && |b| == 5
  {
    var i, f, p := b[0] + b[1] + b[2], b[0] + b[1] + b[2] + b[3], b[0] + b[1] + b[2] + b[3] + b[4];
    && p + behind <= size <= |d| && b[0] == 1
    && GetStreamId(d) == (if b[1] == 1 then Got(d[1]) else Threw)
    && GetIntegerTimestamp(d) == (if b[3] == 1 then Got(d[i]) else Threw)
    && (match GetFractionalTimestamp(d)
        case Threw => b[4] == 0
        case Got(v) => b[4] == 2 && v / 0x1_0000_0000 == d[f] && v % 0x1_0000_0000 == d[f + 1])
    && GetTrailer(d) == (if behind == 1 then Got(d[size - 1]) else Threw)
    && Decode(d).payload == d[p..size - behind]
  }

  /** Every accessor on every packet, from its words alone: which types have a
      stream id or may have a trailer, which bits announce the rest, and which
      words are returned. A data packet always has a stream id, its second word. */
  lemma AccessorsOfWords(d: seq<Word>)
    requires PacketHere(d)
    ensures ReadsBy(d, WordsBefore(d[0]), WordsBehind(d[0]), d[0] % 0x1_0000)
    ensures d[0] / 0x1000_0000 == 1 ==> GetStreamId(d) == Got(d[1])
  {
    hide HeaderOf, Decode, FieldOffset, PayloadSize, Sum, Join64, Layout, Place, HasStreamId, HasTrailer, WordsBefore,
         WordsBehind;
    var w := d[0];
    HeaderFields(w);
    LayoutOfWord(w);
    OffsetsOfWord(w);
    SumOfFive(WordsBefore(w));
    PresenceOfWord(w);
    DecodedPayload(d);
    forall hi: Word, lo: Word
      ensures Join64(hi, lo) / 0x1_0000_0000 == hi && Join64(hi, lo) % 0x1_0000_0000 == lo
    {
      Halves(hi, lo);
    }
  }

  lemma PresenceOfWord(w: Word)
    ensures WordsBefore(w)[0] == 1 && WordsBefore(w)[1] <= 1 && WordsBehind(w) <= 1
    ensures HeaderOf(w).tsi != 0 <==> WordsBefore(w)[3] == 1
    ensures WordsBefore(w)[4] == if HeaderOf(w).tsf != 0 then 2 else 0
    ensures HasStreamId(HeaderOf(w)) <==> WordsBefore(w)[1] == 1
    ensures HasTrailer(HeaderOf(w)) <==> WordsBehind(w) == 1
    ensures w / 0x1000_0000 == 1 ==> WordsBefore(w)[1] == 1
  {
    HeaderFields(w);
    hide HeaderOf;
  }
}
