/** Account data as bytes: little-endian integers and in-place replacement of a range. */
module Bytes {
  import opened Division

  type byte = b: int | 0 <= b < 256

  const U16_MAX: int := 0xFFFF
  const U32_MAX: int := 0xFFFF_FFFF
  const U64_MAX: int := 0xFFFF_FFFF_FFFF_FFFF
  const I64_MAX: int := 0x7FFF_FFFF_FFFF_FFFF
  const I64_MIN: int := -0x8000_0000_0000_0000

  function Pow256(k: nat): nat { if k == 0 then 1 else 256 * Pow256(k - 1) }

  /** `to_le_bytes` of a `k`-byte unsigned integer. */
  function EncodeLE(v: nat, k: nat): (s: seq<byte>)
    ensures |s| == k
  {
    if k == 0 then [] else [v % 256] + EncodeLE(v / 256, k - 1)
  }

  /** `from_le_bytes`. */
  function DecodeLE(s: seq<byte>): nat
  {
    if |s| == 0 then 0 else s[0] + 256 * DecodeLE(s[1..])
  }

  lemma {:induction false} DecodeEncode(v: nat, k: nat)
    requires v < Pow256(k)
    ensures DecodeLE(EncodeLE(v, k)) == v
  {
    if k > 0 {
      DecodeEncode(v / 256, k - 1);
      assert EncodeLE(v, k)[1..] == EncodeLE(v / 256, k - 1);
    }
  }

  lemma {:induction false} EncodeDecode(s: seq<byte>)
    ensures DecodeLE(s) < Pow256(|s|)
    ensures EncodeLE(DecodeLE(s), |s|) == s
  {
    if |s| > 0 {
      EncodeDecode(s[1..]);
      var d := DecodeLE(s[1..]);
      assert DecodeLE(s) == s[0] + 256 * d;
      assert DecodeLE(s) % 256 == s[0] && DecodeLE(s) / 256 == d;
      assert s == [s[0]] + s[1..];
    }
  }

  /** Byte `i` of a number is its digit at 256^i: the least significant comes first. */
  lemma {:induction false} EncodeDigit(v: nat, k: nat, i: nat)
    requires i < k
    ensures Pow256(i) > 0
    ensures EncodeLE(v, k)[i] == v / Pow256(i) % 256
  {
    if i > 0 {
      EncodeDigit(v / 256, k - 1, i - 1);
      SplitDigit(v, Pow256(i - 1));
    }
  }

  /** The first `j` bytes of a number spell its remainder modulo 256^j. */
  lemma {:induction false} DecodeFirst(v: nat, k: nat, j: nat)
    requires j <= k
    ensures Pow256(j) > 0
    ensures DecodeLE(EncodeLE(v, k)[..j]) == v % Pow256(j)
  {
    if j > 0 {
      DecodeFirst(v / 256, k - 1, j - 1);
      assert EncodeLE(v, k)[..j][1..] == EncodeLE(v / 256, k - 1)[..j - 1];
      SplitDigit(v, Pow256(j - 1));
    }
  }

  lemma QuotientIs(v: nat, d: nat, q: nat, r: nat)
    requires v == d * q + r && r < d
    ensures v / d == q && v % d == r
  {
    assert q * d <= v < q * d + d;
    Quotient(v, d, q);
  }

  lemma SplitDigit(v: nat, p: nat)
    requires p > 0
    ensures v / (256 * p) == v / 256 / p
    ensures v % (256 * p) == v % 256 + 256 * (v / 256 % p)
  {
    var q, r := v / 256 / p, v / 256 % p;
    assert v == 256 * (p * q + r) + v % 256 && 256 * (p * q) == (256 * p) * q;
    QuotientIs(v, 256 * p, q, 256 * r + v % 256);
  }

  /** Equal-width byte strings with the same value are the same string. */
  lemma DecodeInjective(s: seq<byte>, s': seq<byte>)
    requires |s| == |s'| && DecodeLE(s) == DecodeLE(s')
    ensures s == s'
  {
    EncodeDecode(s);
    EncodeDecode(s');
  }

  lemma Widths()
    ensures Pow256(1) == 256
    ensures Pow256(2) == U16_MAX + 1
    ensures Pow256(4) == U32_MAX + 1
    ensures Pow256(8) == U64_MAX + 1
  {
    assert Pow256(2) == 256 * Pow256(1);
    assert Pow256(4) == 256 * (256 * Pow256(2));
    assert Pow256(8) == 256 * (256 * (256 * (256 * Pow256(4))));
  }

  lemma Width16()
    ensures Pow256(16) == 0x1_0000_0000_0000_0000_0000_0000_0000_0000
  {
    Widths();
    assert Pow256(12) == 256 * (256 * (256 * (256 * Pow256(8))));
    assert Pow256(16) == 256 * (256 * (256 * (256 * Pow256(12))));
  }

  /** Rust's `value as u64` and `value as i64` between the two 64-bit types. */
  function ToU64(i: int): (u: int)
    requires I64_MIN <= i <= I64_MAX
    ensures 0 <= u <= U64_MAX && ToI64(u) == i && (u == i || u == i + U64_MAX + 1)
  {
    if i < 0 then i + U64_MAX + 1 else i
  }

  function ToI64(u: int): int
  {
    if u > I64_MAX then u - U64_MAX - 1 else u
  }

  /** The buffer `b` with the bytes at `off` replaced by `v`. */
  function Splice(b: seq<byte>, off: nat, v: seq<byte>): (r: seq<byte>)
    requires off + |v| <= |b|
    ensures |r| == |b|
    ensures r[off..off + |v|] == v
    ensures SameExcept(b, r, off, |v|)
  {
    b[..off] + v + b[off + |v|..]
  }

  /** `b'` differs from `b` at most on the `len` bytes from `off`. */
  ghost predicate SameExcept(b: seq<byte>, b': seq<byte>, off: nat, len: nat)
  {
    && |b'| == |b|
    && forall p :: 0 <= p < |b| && !(off <= p < off + len) ==> b'[p] == b[p]
  }

  lemma SliceOfSlice(b: seq<byte>, from: nat, to: nat, lo: nat, hi: nat)
    requires from <= lo <= hi <= to <= |b|
    ensures b[lo..hi] == b[from..to][lo - from..hi - from]
  {
    var s := b[from..to];
    forall k | 0 <= k < hi - lo ensures b[lo..hi][k] == s[lo - from..hi - from][k] {
      assert s[lo - from..hi - from][k] == s[lo - from + k];
    }
  }

  /** A range that the change does not touch reads the same. */
  lemma SliceFrame(b: seq<byte>, b': seq<byte>, off: nat, len: nat, lo: nat, hi: nat)
    requires SameExcept(b, b', off, len)
    requires lo <= hi <= |b|
    requires hi <= off || off + len <= lo
    ensures b'[lo..hi] == b[lo..hi]
  {
  }

  // ----- byte strings one after another -----

  function Flatten(parts: seq<seq<byte>>): seq<byte>
  {
    if |parts| == 0 then [] else Flatten(parts[..|parts| - 1]) + parts[|parts| - 1]
  }

  /** The bytes of `x` stand at `off` in `b`. */
  predicate Holds(b: seq<byte>, off: nat, x: seq<byte>)
  {
    off + |x| <= |b| && b[off..off + |x|] == x
  }
}
