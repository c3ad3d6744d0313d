/** Bytes, little-endian 32-bit words, and size_t arithmetic. */
module Words {
  type Byte = b: int | 0 <= b < 0x100
  type Word = w: int | 0 <= w < 0x1_0000_0000

  /** One past the largest size_t of the 64-bit target. */
  const SIZE_T := 0x1_0000_0000_0000_0000

  /** The size_t that holds x after wrap-around. */
  function Wrap(x: int): (r: nat)
    ensures 0 <= x < SIZE_T ==> r == x
  {
    x % SIZE_T
  }

  /** The word a little-endian machine loads from byte address i. */
  function WordAt(b: seq<Byte>, i: nat): Word
    requires i + 4 <= |b|
  {
    var b0: int, b1: int, b2: int, b3: int := b[i], b[i + 1], b[i + 2], b[i + 3];
    b0 + 0x100 * b1 + 0x1_0000 * b2 + 0x100_0000 * b3
  }

  /** A word is its four bytes, the lowest first. */
  lemma WordOfFour(b: seq<Byte>, i: nat, b0: Byte, b1: Byte, b2: Byte, b3: Byte)
    requires i + 4 <= |b|
    ensures WordAt(b, i) == b0 + 0x100 * b1 + 0x1_0000 * b2 + 0x100_0000 * b3 <==> b[i..i + 4] == [b0, b1, b2, b3]
  {
    var s := b[i..i + 4];
    assert b[i] == s[0] && b[i + 1] == s[1] && b[i + 2] == s[2] && b[i + 3] == s[3];
    if s[0] == b0 && s[1] == b1 && s[2] == b2 && s[3] == b3 {
      assert s == [b0, b1, b2, b3];
    }
  }

  /** The whole words of a byte string; one to three last bytes are left over. */
  function ToWords(b: seq<Byte>): (ws: seq<Word>)
    ensures |ws| == |b| / 4
  {
    seq(|b| / 4, j requires 0 <= j < |b| / 4 => WordAt(b, 4 * j))
  }

  function WordBytes(w: Word): (b: seq<Byte>)
    ensures |b| == 4 && WordAt(b, 0) == w
  {
    var w1 := w / 0x100;
    var w2 := w1 / 0x100;
    [w % 0x100, w1 % 0x100, w2 % 0x100, w2 / 0x100]
  }

  function ToBytes(ws: seq<Word>): (b: seq<Byte>)
    ensures |b| == 4 * |ws|
  {
    if ws == [] then [] else WordBytes(ws[0]) + ToBytes(ws[1..])
  }

  lemma {:induction false} WordsOfBytes(ws: seq<Word>)
    ensures ToWords(ToBytes(ws)) == ws
  {
    hide WordAt, WordBytes;
    if ws != [] {
      var t := ToBytes(ws[1..]);
      WordsOfBytes(ws[1..]);
      FirstWord(ws[0], t);
      forall j | 0 <= j < |ws| ensures ToWords(ToBytes(ws))[j] == ws[j] {
        if j > 0 {
          NextWord(ws[0], t, 4 * (j - 1));
          assert ws[j] == ws[1..][j - 1] == ToWords(t)[j - 1];
        }
      }
    }
  }

  lemma FirstWord(w: Word, t: seq<Byte>)
    ensures WordAt(WordBytes(w) + t, 0) == w
  {
  }

  lemma NextWord(w: Word, t: seq<Byte>, i: nat)
    requires i + 4 <= |t|
    ensures WordAt(WordBytes(w) + t, 4 + i) == WordAt(t, i)
  {
  }

  /** A slice of a slice is a slice. */
  lemma SliceHalves<T>(s: seq<T>, i: nat, n: nat, r: nat)
    requires n <= r && i + r <= |s|
    ensures s[i..i + r][..n] == s[i..i + n]
    ensures s[i..i + r][n..] == s[i + n..i + r]
  {
  }

  lemma JoinSlices<T>(s: seq<T>, i: nat, j: nat, k: nat)
    requires i <= j <= k <= |s|
    ensures s[i..j] + s[j..k] == s[i..k]
  {
  }

  function Flatten<T>(ss: seq<seq<T>>): seq<T>
  {
    if ss == [] then [] else ss[0] + Flatten(ss[1..])
  }

  lemma {:induction false} FlattenAppend<T>(a: seq<seq<T>>, b: seq<seq<T>>)
    ensures Flatten(a + b) == Flatten(a) + Flatten(b)
  {
    if a == [] {
      assert a + b == b;
    } else {
      assert (a + b)[1..] == a[1..] + b;
      FlattenAppend(a[1..], b);
    }
  }

  lemma FlattenSnoc<T>(a: seq<seq<T>>, x: seq<T>)
    ensures Flatten(a + [x]) == Flatten(a) + x
  {
    FlattenAppend(a, [x]);
    assert Flatten([x]) == x + Flatten<T>([]);
  }

  function Sum(s: seq<nat>): nat
  {
    if s == [] then 0 else s[0] + Sum(s[1..])
  }

  lemma {:induction false} SumAppend(a: seq<nat>, b: seq<nat>)
    ensures Sum(a + b) == Sum(a) + Sum(b)
  {
    if a == [] {
      assert a + b == b;
    } else {
      assert (a + b)[1..] == a[1..] + b;
      SumAppend(a[1..], b);
    }
  }

  function Pow2(n: nat): nat
  {
    if n == 0 then 1 else 2 * Pow2(n - 1)
  }
}
