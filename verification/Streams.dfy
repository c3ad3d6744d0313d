/** Samples and the per-stream double buffers of complex_manager. */
module Streams {
  import opened Words

  /** Samples per buffer. */
  const NUM_COMPLEX: nat := 20000000

  /** A complex sample before the division by the scale factor 32768: the two
      signed 16-bit values of a payload word. */
  datatype Sample = Sample(re: int, im: int)

  function Signed16(x: nat): int {
    if x < 0x8000 then x else x - 0x1_0000
  }

  function Convert(w: Word): Sample {
    Sample(Signed16(w / 0x1_0000), Signed16(w % 0x1_0000))
  }

  /** A sample is its word: the upper half is the real part, the lower half the
      imaginary part, both in two's complement. */
  lemma ConvertFaithful(w: Word)
    ensures -0x8000 <= Convert(w).re < 0x8000 && -0x8000 <= Convert(w).im < 0x8000
    ensures w == 0x1_0000 * (Convert(w).re % 0x1_0000) + Convert(w).im % 0x1_0000
  {
    TwosComplement(w / 0x1_0000);
    TwosComplement(w % 0x1_0000);
  }

  lemma TwosComplement(x: nat)
    requires x < 0x1_0000
    ensures Signed16(x) % 0x1_0000 == x
  {
  }

  /** The samples of n payload words at a byte address. */
  function JobSamples(rx: seq<Byte>, at: nat, n: nat): (r: seq<Sample>)
    requires at + 4 * n <= |rx|
    ensures |r| == n
    ensures forall j | 0 <= j < n :: r[j] == Convert(WordAt(rx, at + 4 * j))
  {
    seq(n, j requires 0 <= j < n => Convert(WordAt(rx, at + 4 * j)))
  }

  /** buffer_manager: two sample buffers; the side out_pointer is being written,
      the other is being read. */
  datatype Stream = Stream(buff: seq<seq<Sample>>, outPointer: nat, outCount: seq<nat>,
                           lastCount: int, readIndex: seq<nat>,
                           validSafe: bool, valid: bool, flip: bool)

  predicate Shaped(s: Stream) {
    && |s.buff| == 2 && |s.buff[0]| == NUM_COMPLEX && |s.buff[1]| == NUM_COMPLEX
    && s.outPointer < 2 && |s.outCount| == 2 && |s.readIndex| == 2
  }

  function ReadSide(s: Stream): nat
    requires Shaped(s)
  {
    1 - s.outPointer
  }

  function ReadCount(s: Stream): nat
    requires Shaped(s)
  {
    s.outCount[ReadSide(s)]
  }

  function WriteCount(s: Stream): nat
    requires Shaped(s)
  {
    s.outCount[s.outPointer]
  }

  /** One turn of the scan in fill_buffers: the lowered minimum. */
  function ScanMin(s: Stream, min: nat): nat
    requires Shaped(s)
  {
    if s.valid && ReadCount(s) <= min then ReadCount(s) else min
  }

  function ScanFlip(s: Stream, min: nat): (t: Stream)
    requires Shaped(s)
    ensures Shaped(t)
  {
    s.(flip := s.valid && ReadCount(s) <= min && ReadCount(s) == 0)
  }

  /** A stream as the scan leaves it: marked exactly if valid with nothing to read. */
  function Marked(s: Stream): (t: Stream)
    requires Shaped(s)
    ensures Shaped(t)
  {
    s.(flip := s.valid && ReadCount(s) == 0)
  }

  /** The samples fill_buffers copies out of a stream, and what it leaves. */
  function CopiedOut(s: Stream, n: nat): seq<Sample>
    requires Shaped(s) && s.readIndex[ReadSide(s)] + n <= NUM_COMPLEX
  {
    s.buff[ReadSide(s)][s.readIndex[ReadSide(s)]..s.readIndex[ReadSide(s)] + n]
  }

  function CopyOut(s: Stream, n: nat): (t: Stream)
    requires Shaped(s) && n <= ReadCount(s)
    ensures Shaped(t)
  {
    var r := ReadSide(s);
    s.(readIndex := s.readIndex[r := s.readIndex[r] + n], outCount := s.outCount[r := s.outCount[r] - n])
  }

  function Flip(s: Stream): (t: Stream)
    requires Shaped(s)
    ensures Shaped(t)
  {
    if s.valid && s.flip then
      s.(outPointer := ReadSide(s), outCount := s.outCount[ReadSide(s) := 0],
         readIndex := [0, 0], flip := false)
    else s
  }

  function Update(s: Stream): (t: Stream)
    requires Shaped(s)
    ensures Shaped(t)
  {
    s.(valid := s.validSafe, outCount := [0, 0], lastCount := -1, readIndex := [0, 0], outPointer := 0)
  }

  /** The capacity check that sends a packet round again. */
  predicate HasRoom(s: Stream, n: nat)
    requires Shaped(s)
  {
    WriteCount(s) + n < NUM_COMPLEX
  }

  function Accept(s: Stream, n: nat, count: int): (t: Stream)
    requires Shaped(s)
    ensures Shaped(t)
  {
    s.(outCount := s.outCount[s.outPointer := WriteCount(s) + n], lastCount := count)
  }

  function Put(s: Stream, side: nat, k: nat, x: Sample): (t: Stream)
    requires Shaped(s) && side < 2 && k < NUM_COMPLEX
    ensures Shaped(t)
  {
    s.(buff := s.buff[side := s.buff[side][k := x]])
  }
}
