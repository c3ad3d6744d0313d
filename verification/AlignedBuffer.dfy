/** Aligned allocation, with size_t arithmetic written out. */
module AlignedBuffer {
  import opened Words
  import opened Modular

  /** pad_buffer: every operation wraps. */
  function PadBuffer(bytes: nat, alignment: nat): nat
    requires 0 < alignment
  {
    Wrap(bytes + Wrap(alignment - bytes) % alignment)
  }

  /** r is the least multiple of alignment that is not below bytes. */
  predicate RoundsUp(bytes: nat, alignment: nat, r: nat)
    requires 0 < alignment
  {
    bytes <= r < bytes + alignment && r % alignment == 0
  }

  lemma {:induction false} RoundsUpUnique(bytes: nat, alignment: nat, r: nat, s: nat)
    requires 0 < alignment && RoundsUp(bytes, alignment, r) && s % alignment == 0 && bytes <= s
    ensures r <= s
  {
    if s < r {
      SameMod(r, s, alignment);
      SmallMod(r - s, alignment);
    }
  }

  predicate PowerOfTwo(a: nat) {
    exists k: nat :: k < 64 && a == Pow2(k)
  }

  lemma {:induction false} Pow2Divides(k: nat, n: nat)
    requires k <= n
    ensures Pow2(k) > 0 && Pow2(n) % Pow2(k) == 0
    decreases n
  {
    if k < n {
      Pow2Divides(k, n - 1);
      var q := Pow2(n - 1) / Pow2(k);
      assert Pow2(n) == (2 * q) * Pow2(k) + 0;
      UniqueMod(Pow2(n), 2 * q, 0, Pow2(k));
    } else if k > 0 {
      Pow2Divides(k - 1, k - 1);
      UniqueMod(Pow2(k), 1, 0, Pow2(k));
    }
  }

  /** Conversely a power of two has no other divisors than powers of two. */
  lemma {:induction false} DivisorOfPow2(a: nat, n: nat) returns (k: nat)
    requires a > 0 && Pow2(n) % a == 0
    ensures k <= n && a == Pow2(k)
  {
    if n == 0 {
      k := 0;
      if a > 1 { SmallMod(1, a); }
    } else {
      var q, m := Pow2(n) / a, Pow2(n - 1);
      assert 2 * m == q * a;
      if a % 2 == 0 {
        HalfEven(m, q, a / 2);
        k := DivisorOfPow2(a / 2, n - 1);
        k := k + 1;
      } else {
        HalfOdd(m, q, a);
        k := DivisorOfPow2(a, n - 1);
      }
    }
  }

  lemma HalfEven(m: nat, q: nat, c: nat)
    requires c > 0 && 2 * m == q * (2 * c)
    ensures m % c == 0
  {
    DoubleFactor(q, c);
    UniqueMod(m, q, 0, c);
  }

  lemma HalfOdd(m: nat, q: nat, a: nat)
    requires a % 2 == 1 && 2 * m == q * a
    ensures m % a == 0
  {
    OddFactor(q, a);
    var h := q / 2;
    DoubleFactor(a, h);
    UniqueMod(m, h, 0, a);
  }

  lemma DoubleFactor(x: nat, c: nat)
    ensures x * (2 * c) == 2 * (x * c) && (2 * c) * x == 2 * (c * x)
  {
  }

  /** A product with an odd factor is even only if the other factor is. */
  lemma OddFactor(q: nat, a: nat)
    requires a % 2 == 1
    ensures q * a % 2 == 0 ==> q % 2 == 0
  {
    var d := q / 2;
    DoubleFactor(a, d);
    assert q % 2 == 1 ==> q * a == (2 * d) * a + a;
  }

  lemma Pow2Of64()
    ensures Pow2(64) == SIZE_T
  {
    Pow2Add8(0); Pow2Add8(8); Pow2Add8(16); Pow2Add8(24);
    Pow2Add8(32); Pow2Add8(40); Pow2Add8(48); Pow2Add8(56);
  }

  lemma Pow2Add8(n: nat)
    ensures Pow2(n + 8) == 256 * Pow2(n)
  {
    assert Pow2(n + 8) == 2 * Pow2(n + 7) && Pow2(n + 7) == 2 * Pow2(n + 6);
    assert Pow2(n + 6) == 2 * Pow2(n + 5) && Pow2(n + 5) == 2 * Pow2(n + 4);
    assert Pow2(n + 4) == 2 * Pow2(n + 3) && Pow2(n + 3) == 2 * Pow2(n + 2);
    assert Pow2(n + 2) == 2 * Pow2(n + 1);
  }

  lemma {:induction false} Pow2Smaller(k: nat)
    requires k < 64
    ensures Pow2(k) < Pow2(64)
    decreases 64 - k
  {
    if k == 63 {
      assert Pow2(64) == 2 * Pow2(63);
      Pow2Divides(63, 63);
    } else {
      Pow2Smaller(k + 1);
      assert Pow2(k + 1) == 2 * Pow2(k);
      Pow2Divides(k, k);
    }
  }

  /** The alignments below 2^64 that divide 2^64 are the powers of two. */
  lemma {:induction false} PowersDivide(alignment: nat)
    requires 0 < alignment < SIZE_T
    ensures SIZE_T % alignment == 0 <==> PowerOfTwo(alignment)
  {
    Pow2Of64();
    if SIZE_T % alignment == 0 {
      var k := DivisorOfPow2(alignment, 64);
      assert k < 64;
    }
    if PowerOfTwo(alignment) {
      var k: nat :| k < 64 && alignment == Pow2(k);
      Pow2Divides(k, 64);
    }
  }

  lemma {:induction false} PadWrapping(bytes: nat, alignment: nat)
    requires 0 < alignment < SIZE_T && bytes + alignment <= SIZE_T
    ensures RoundsUp(bytes, alignment, PadBuffer(bytes, alignment)) <==>
            bytes <= alignment || SIZE_T % alignment == 0
  {
    var x := if bytes <= alignment then alignment - bytes else SIZE_T + alignment - bytes;
    assert Wrap(alignment - bytes) == x by {
      if bytes > alignment { UniqueMod(alignment - bytes, -1, x, SIZE_T); }
    }
    var r := bytes + x % alignment;
    assert PadBuffer(bytes, alignment) == r;
    AddMod(x, bytes, alignment);
    if bytes <= alignment {
      UniqueMod(alignment, 1, 0, alignment);
    } else {
      MultipleMod(1, SIZE_T, alignment);
    }
  }

  /** When the sum does not wrap, pad_buffer rounds up if and only if the inner
      subtraction does not wrap or the alignment is a power of two. */
  lemma {:induction false} PadExact(bytes: nat, alignment: nat)
    requires 0 < alignment < SIZE_T && bytes + alignment <= SIZE_T
    ensures RoundsUp(bytes, alignment, PadBuffer(bytes, alignment)) <==>
            bytes <= alignment || PowerOfTwo(alignment)
  {
    hide RoundsUp, PadBuffer;
    PadWrapping(bytes, alignment);
    PowersDivide(alignment);
  }

  /** For a power-of-two alignment the padding is the least multiple. */
  lemma {:induction false} PadPowerOfTwo(bytes: nat, alignment: nat)
    requires PowerOfTwo(alignment) && bytes + alignment <= SIZE_T
    ensures alignment > 0 && RoundsUp(bytes, alignment, PadBuffer(bytes, alignment))
  {
    hide RoundsUp, PadBuffer;
    var k: nat :| k < 64 && alignment == Pow2(k);
    Pow2Divides(k, k);
    Pow2Of64();
    Pow2Smaller(k);
    PadExact(bytes, alignment);
  }

  /** A multiple of three shows why the alignment must be a power of two. */
  lemma ThreeIsNotEnough()
    ensures PadBuffer(4, 3) == 4 && !RoundsUp(4, 3, PadBuffer(4, 3))
  {
  }

  /** Byte range [p, p + n) inside [q, q + m). */
  predicate Inside(p: nat, n: nat, q: nat, m: nat) {
    q <= p && p + n <= q + m
  }

  lemma {:induction false} MultipleAdd(a: nat, i: nat, p: nat, alignment: nat)
    requires 0 < alignment && a % alignment == 0 && p % alignment == 0
    ensures (a + p * i) % alignment == 0
  {
    var q := p / alignment;
    assert p * i == (q * i) * alignment by { assert p == q * alignment; }
    MultipleMod(q * i, a, alignment);
  }

  lemma Spacing(p: nat, i: nat, j: nat)
    requires i < j
    ensures 0 <= p * i && p * i + p <= p * j
  {
    assert p * (i + 1) <= p * j;
  }

  /** The buffers made: aligned, pairwise disjoint, and inside the allocation
      whose first byte is `mem`. */
  ghost predicate WellPlaced(ptrs: seq<nat>, buffSize: nat, alignment: nat, mem: nat, size: nat)
    requires 0 < alignment
  {
    && (forall i | 0 <= i < |ptrs| :: ptrs[i] % alignment == 0 && Inside(ptrs[i], buffSize, mem, size))
    && (forall i, j | 0 <= i < j < |ptrs| :: ptrs[i] + buffSize <= ptrs[j])
  }

  /** Buffer k, at distance off = padded * k from the start, of buffers that take
      `total` bytes together. */
  lemma OnePlaced(ptr: nat, off: nat, total: nat, start: nat, padded: nat, buffSize: nat, alignment: nat, mem: nat)
    requires 0 < alignment && mem <= start < mem + alignment && buffSize <= padded
    requires ptr == start + off && off + padded <= total
    ensures Inside(ptr, buffSize, mem, total + alignment - 1)
  {
  }

  lemma {:induction false} Placement(ptrs: seq<nat>, total: nat, start: nat, padded: nat,
                                     buffSize: nat, alignment: nat, mem: nat)
    requires 0 < alignment && RoundsUp(mem, alignment, start) && RoundsUp(buffSize, alignment, padded)
    requires forall k | 0 <= k < |ptrs| :: ptrs[k] == start + padded * k
    requires total == padded * |ptrs|
    ensures WellPlaced(ptrs, buffSize, alignment, mem, total + alignment - 1)
  {
    forall k | 0 <= k < |ptrs|
      ensures ptrs[k] % alignment == 0 && Inside(ptrs[k], buffSize, mem, total + alignment - 1)
    {
      MultipleAdd(start, k, padded, alignment);
      Spacing(padded, k, |ptrs|);
      OnePlaced(ptrs[k], padded * k, total, start, padded, buffSize, alignment, mem);
    }
    forall j, k | 0 <= j < k < |ptrs|
      ensures ptrs[j] + buffSize <= ptrs[k]
    {
      Spacing(padded, j, k);
    }
  }

  /** aligned_buffer::make, given the address `mem` of an allocation that does
      not reach the end of the address space. */
  method Make(numBuffs: nat, buffSize: nat, alignment: nat, mem: nat) returns (ptrs: seq<nat>, size: nat)
    requires 0 < alignment && PowerOfTwo(alignment) && buffSize + alignment <= SIZE_T
    requires mem + (PadBuffer(buffSize, alignment) * numBuffs + alignment - 1) < SIZE_T
    ensures |ptrs| == numBuffs
    ensures size == PadBuffer(buffSize, alignment) * numBuffs + alignment - 1
    ensures WellPlaced(ptrs, buffSize, alignment, mem, size)
  {
    hide PowerOfTwo, PadBuffer, RoundsUp;
    PadPowerOfTwo(buffSize, alignment);
    var padded := PadBuffer(buffSize, alignment);
    ghost var total: nat := padded * numBuffs;
    size := Wrap(Wrap(padded * numBuffs) + alignment - 1);
    PadPowerOfTwo(mem, alignment);
    var memStart := PadBuffer(mem, alignment);
    assert memStart < mem + alignment by { RoundsUpBound(mem, alignment, memStart); }
    ptrs := seq(numBuffs, _ => 0);
    var i := 0;
    while i < numBuffs
      invariant i <= numBuffs == |ptrs|
      invariant forall k | 0 <= k < i :: ptrs[k] == memStart + padded * k
    {
      assert 0 <= padded * i <= total by { Spacing(padded, i, numBuffs); }
      ptrs := ptrs[i := Wrap(memStart + Wrap(padded * i))];
      i := i + 1;
    }
    Placement(ptrs, total, memStart, padded, buffSize, alignment, mem);
  }

  lemma RoundsUpBound(bytes: nat, alignment: nat, r: nat)
    requires 0 < alignment && RoundsUp(bytes, alignment, r)
    ensures r < bytes + alignment
  {
  }
}
