/**
 Machine integers, byte strings and the buffer primitives the senders use:
 zero filling, placement of an encoded unit at an offset, `align_to<8>` and
 big-endian (network order) fields.
 */
module Octets {

  newtype uint8 = x: int | 0 <= x < 0x100
  newtype uint16 = x: int | 0 <= x < 0x1_0000
  newtype uint32 = x: int | 0 <= x < 0x1_0000_0000
  newtype int32 = x: int | -0x8000_0000 <= x < 0x8000_0000

  type Bytes = seq<uint8>

  /** A buffer of n zero octets, as left by `std::fill(buf, buf + n, 0)`. */
  function Zeros(n: nat): (z: Bytes)
    ensures |z| == n
    ensures AllZero(z)
  {
    seq(n, _ => 0)
  }

  predicate AllZero(b: Bytes) {
    forall i :: 0 <= i < |b| ==> b[i] == 0
  }

  /**
   Constructs `data` in place at `buf + off`: the octets [off, off + |data|)
   become `data`, every other octet keeps its value.
   */
  function WriteAt(buf: Bytes, off: nat, data: Bytes): (r: Bytes)
    requires off + |data| <= |buf|
    ensures |r| == |buf|
    ensures r[off..off + |data|] == data
    ensures forall i :: 0 <= i < |buf| && !(off <= i < off + |data|) ==> r[i] == buf[i]
  {
    buf[..off] + data + buf[off + |data|..]
  }

  lemma ZerosSplit(a: nat, b: nat)
    ensures Zeros(a + b) == Zeros(a) + Zeros(b)
  {
  }

  /** Writing into the zero tail of a buffer right after `prefix` extends the prefix. */
  lemma WriteOverZeros(prefix: Bytes, data: Bytes, n: nat)
    requires |data| <= n
    ensures WriteAt(prefix + Zeros(n), |prefix|, data) == prefix + data + Zeros(n - |data|)
  {
    var buf := prefix + Zeros(n);
    assert buf[..|prefix|] == prefix;
    assert buf[|prefix| + |data|..] == Zeros(n - |data|);
  }

  /** Writing over the first octets of a buffer replaces exactly them. */
  lemma WriteHead(head: Bytes, old_head: Bytes, rest: Bytes)
    requires |head| == |old_head|
    ensures WriteAt(old_head + rest, 0, head) == head + rest
  {
    assert (old_head + rest)[|head|..] == rest;
  }

  /** A slice of a part of s is the matching slice of s. */
  lemma SliceOfSlice(s: Bytes, t: Bytes, i: nat, k: nat, l: nat)
    requires i + |t| <= |s| && s[i..i + |t|] == t
    requires k <= l <= |t|
    ensures s[i + k..i + l] == t[k..l]
  {
    assert forall j :: 0 <= j < l - k ==> s[i + k..i + l][j] == t[k..l][j];
  }

  /** `align_to<8>(n)`: n rounded up to the next multiple of 8. */
  function AlignTo8(n: nat): (r: nat)
    ensures r % 8 == 0
    ensures n <= r < n + 8
  {
    (n + 7) / 8 * 8
  }

  /** Rounding up never skips a multiple of 8: the result is the least one at or above n. */
  lemma AlignTo8IsLeast(n: nat, m: nat)
    requires m % 8 == 0 && n <= m
    ensures AlignTo8(n) <= m
  {
  }

  /** A length that is already a multiple of 8 is left alone. */
  lemma AlignTo8OfAligned(n: nat)
    requires n % 8 == 0
    ensures AlignTo8(n) == n
  {
    AlignTo8IsLeast(n, n);
  }

  /** The low 16 bits of n, as a conversion to a 16-bit field keeps them. */
  function Low16(n: nat): (r: uint16)
    ensures n < 0x1_0000 ==> r as int == n
    ensures (n - r as int) % 0x1_0000 == 0
  {
    (n % 0x1_0000) as uint16
  }

  /** Whether the single-bit mask `bit` is set in the octet x. */
  predicate HasBit(x: uint8, bit: uint8)
    requires bit > 0
  {
    (x as int / bit as int) % 2 == 1
  }

  /** A 16-bit value in network byte order. */
  function BE16(x: uint16): (b: Bytes)
    ensures |b| == 2
  {
    [(x as int / 0x100) as uint8, (x as int % 0x100) as uint8]
  }

  function FromBE16(hi: uint8, lo: uint8): (x: uint16) {
    (hi as int * 0x100 + lo as int) as uint16
  }

  lemma BE16RoundTrip(x: uint16)
    ensures FromBE16(BE16(x)[0], BE16(x)[1]) == x
  {
  }

  /** A 32-bit value in network byte order: its high half, then its low half. */
  function BE32(x: uint32): (b: Bytes)
    ensures |b| == 4
  {
    BE16((x as int / 0x1_0000) as uint16) + BE16((x as int % 0x1_0000) as uint16)
  }

  function FromBE32(b: Bytes): uint32
    requires |b| == 4
  {
    (FromBE16(b[0], b[1]) as int * 0x1_0000 + FromBE16(b[2], b[3]) as int) as uint32
  }

  lemma BE32RoundTrip(x: uint32)
    ensures FromBE32(BE32(x)) == x
  {
    BE16RoundTrip((x as int / 0x1_0000) as uint16);
    BE16RoundTrip((x as int % 0x1_0000) as uint16);
  }
}
