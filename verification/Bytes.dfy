/** Bytes and little-endian numbers, as the driver's on-disk structures store them. */
module Bytes {
  type byte = x: int | 0 <= x < 256

  const TWO28 := 0x1000_0000
  const TWO32 := 0x1_0000_0000

  function Le16(b: seq<byte>, at: nat): (n: nat)
    requires at + 2 <= |b|
    ensures n < 0x1_0000
  {
    b[at] as int + 0x100 * b[at + 1] as int
  }

  function Le32(b: seq<byte>, at: nat): (n: nat)
    requires at + 4 <= |b|
    ensures n < TWO32
  {
    b[at] as int + 0x100 * b[at + 1] as int + 0x1_0000 * b[at + 2] as int + 0x100_0000 * b[at + 3] as int
  }

  function ToLe16(n: nat): (b: seq<byte>)
    requires n < 0x1_0000
    ensures |b| == 2 && Le16(b, 0) == n
  {
    [n % 0x100, n / 0x100]
  }

  function ToLe32(n: nat): (b: seq<byte>)
    requires n < TWO32
    ensures |b| == 4 && Le32(b, 0) == n
  {
    var n1 := n / 0x100;
    var n2 := n1 / 0x100;
    [n % 0x100, n1 % 0x100, n2 % 0x100, n2 / 0x100]
  }

  /** The lowest byte of a number comes first, wherever in a structure the number stands. */
  lemma LittleEndian(before: seq<byte>, b0: byte, b1: byte, b2: byte, b3: byte, after: seq<byte>)
    ensures Le16(before + [b0, b1] + after, |before|) == b0 + 256 * b1
    ensures Le32(before + [b0, b1, b2, b3] + after, |before|) == b0 + 256 * b1 + 65536 * b2 + 16777216 * b3
    ensures ToLe16(b0 + 256 * b1) == [b0, b1]
    ensures ToLe32(b0 + 256 * b1 + 65536 * b2 + 16777216 * b3) == [b0, b1, b2, b3]
  {
    var n := b0 + 256 * b1 + 65536 * b2 + 16777216 * b3;
    assert n / 256 == b1 + 256 * b2 + 65536 * b3;
    assert n / 256 / 256 == b2 + 256 * b3;
  }

  /** The bytes of `b` with those from `at` on replaced by `patch`. */
  function Splice(b: seq<byte>, at: nat, patch: seq<byte>): (r: seq<byte>)
    requires at + |patch| <= |b|
    ensures |r| == |b|
    ensures forall i :: 0 <= i < |b| ==> r[i] == if at <= i < at + |patch| then patch[i - at] else b[i]
  {
    b[..at] + patch + b[at + |patch|..]
  }

  function Zeros(n: nat): (z: seq<byte>)
    ensures |z| == n && forall i :: 0 <= i < n ==> z[i] == 0
  {
    seq(n, i => 0)
  }

  /** Keep the top four bits of `prior`, take the low twenty-eight from `value`. */
  function MergeEntry(prior: nat, value: nat): (w: nat)
    requires prior < TWO32
    ensures w < TWO32
    ensures w % TWO28 == value % TWO28 && w / TWO28 == prior / TWO28
  {
    prior / TWO28 * TWO28 + value % TWO28
  }

  /** In hexadecimal: the first of eight digits is the prior one, the other seven are those of the value. */
  lemma MergedDigits(top: nat, prior: nat, high: nat, value: nat)
    requires top < 16 && prior < 0x1000_0000 && value < 0x1000_0000
    ensures MergeEntry(top * 0x1000_0000 + prior, high * 0x1000_0000 + value) == top * 0x1000_0000 + value
  {
  }
}
