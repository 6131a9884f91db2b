/** Bytes and the little-endian words that both image formats of the repository use. */
module Bytes {
  newtype byte = b: int | 0 <= b < 256

  type Blob = seq<byte>

  const U32_LIMIT: nat := 0x1_0000_0000

  type u32 = n: nat | n < 0x1_0000_0000

  /** The four bytes that writing a 32-bit word puts in a file; higher bits are lost. */
  function LE32(n: nat): (r: Blob)
    ensures |r| == 4
  {
    [(n % 256) as byte, (n / 256 % 256) as byte, (n / 65536 % 256) as byte, (n / 16777216 % 256) as byte]
  }

  function FromLE32(s: Blob): (n: nat)
    requires |s| == 4
    ensures n < U32_LIMIT
  {
    s[0] as int + 256 * s[1] as int + 65536 * s[2] as int + 16777216 * s[3] as int
  }

  /** Consecutive 32-bit words. */
  function Words(ws: seq<nat>): (r: Blob)
    ensures |r| == 4 * |ws|
  {
    if ws == [] then [] else Words(ws[..|ws| - 1]) + LE32(ws[|ws| - 1])
  }

  function WordAt(b: Blob, k: nat): (n: u32)
    requires 4 * k + 4 <= |b|
  {
    FromLE32(b[4 * k..4 * k + 4])
  }

  /** Any word of a sequence of words reads back as written, truncated to its width. */
  lemma {:induction false} WordsRoundTrip(ws: seq<nat>, k: nat)
    requires k < |ws|
    ensures WordAt(Words(ws), k) == ws[k] % U32_LIMIT
  {
    var front, last := ws[..|ws| - 1], ws[|ws| - 1];
    if k < |ws| - 1 {
      WordsRoundTrip(front, k);
      assert Words(ws)[4 * k..4 * k + 4] == Words(front)[4 * k..4 * k + 4];
    } else {
      assert Words(ws)[4 * k..4 * k + 4] == LE32(last);
      WordRoundTrip(last);
    }
  }

  function LE16(n: nat): (r: Blob)
    ensures |r| == 2
  {
    [(n % 256) as byte, (n / 256 % 256) as byte]
  }

  function FromLE16(s: Blob): (n: nat)
    requires |s| == 2
    ensures n < 65536
  {
    s[0] as int + 256 * s[1] as int
  }

  /** A word read back is the word written, truncated to its width. */
  lemma WordRoundTrip(n: nat)
    ensures FromLE32(LE32(n)) == n % U32_LIMIT
    ensures FromLE16(LE16(n)) == n % 65536
  {
    assert n / 65536 == n / 256 / 256;
    assert n / 16777216 == n / 65536 / 256;
    var q := n / 16777216 / 256;
    assert n == n % 256 + 256 * (n / 256 % 256) + 65536 * (n / 65536 % 256) + 16777216 * (n / 16777216 % 256)
             + U32_LIMIT * q;
  }

  function Power256(k: nat): (p: nat)
    ensures p > 0
  {
    if k == 0 then 1 else 256 * Power256(k - 1)
  }

  /** The low byte comes first. */
  lemma LowByteFirst(n: nat, k: nat)
    ensures k < 4 ==> LE32(n)[k] as int == n / Power256(k) % 256
    ensures k < 2 ==> LE16(n)[k] as int == n / Power256(k) % 256
  {
    assert Power256(1) == 256;
    assert Power256(2) == 65536;
    assert Power256(3) == 16777216;
  }

  function Zeros(n: nat): (r: Blob)
    ensures |r| == n
    ensures forall i :: 0 <= i < n ==> r[i] == 0
  {
    seq(n, _ => 0)
  }

  /** Both images are concatenations; this is the field that starts right after a prefix. */
  lemma FieldAfter(a: Blob, b: Blob, c: Blob)
    ensures (a + b + c)[|a|..|a| + |b|] == b
  {
  }

  /** Regrouping a concatenation. */
  lemma Assoc<T>(a: seq<T>, b: seq<T>, c: seq<T>)
    ensures a + b + c == a + (b + c)
  {
  }

  lemma SliceOfSlice(b: Blob, from: nat, to: nat, i: nat, j: nat)
    requires from <= to <= |b| && i <= j <= to - from
    ensures b[from..to][i..j] == b[from + i..from + j]
  {
    var x, y := b[from..to][i..j], b[from + i..from + j];
    forall k | 0 <= k < |x| ensures x[k] == y[k] {
      assert x[k] == b[from..to][i + k];
    }
  }
}
