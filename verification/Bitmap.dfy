/** Bit-level helpers for the block and inode bitmaps (spec/src/bitmap.rs).
    Bit `n` lives in byte `n / 8` under the mask `1 << (n % 8)`. */
module Bitmap {
  import opened Bytes
  import opened Results

  /** `1 << i` */
  function Mask(i: nat): (m: nat)
    ensures m > 0
  {
    if i == 0 then 1 else 2 * Mask(i - 1)
  }

  /** `b & (1 << i) != 0` */
  predicate BitOf(b: nat, i: nat) {
    if i == 0 then b % 2 == 1 else BitOf(b / 2, i - 1)
  }

  /** Indices past the end of the buffer read as clear. */
  predicate GetBit(buf: seq<byte>, bit: nat) {
    bit / 8 < |buf| && BitOf(buf[bit / 8], bit % 8)
  }

  /** The whole bitmap, one boolean per bit. */
  function Bits(buf: seq<byte>): (r: seq<bool>)
    ensures |r| == 8 * |buf|
    ensures forall i :: 0 <= i < 8 * |buf| ==> r[i] == GetBit(buf, i)
  {
    seq(8 * |buf|, i requires i >= 0 => GetBit(buf, i))
  }

  lemma {:induction false} SameBits(a: nat, b: nat, n: nat)
    requires a < Mask(n) && b < Mask(n)
    requires forall i: nat :: i < n ==> BitOf(a, i) == BitOf(b, i)
    ensures a == b
  {
    if n > 0 {
      assert BitOf(a, 0) == BitOf(b, 0);
      forall i: nat | i < n - 1 ensures BitOf(a / 2, i) == BitOf(b / 2, i) {
        assert BitOf(a, i + 1) == BitOf(b, i + 1);
      }
      SameBits(a / 2, b / 2, n - 1);
    }
  }

  /** A bitmap's bits determine its bytes. */
  lemma BitsDetermineBytes(a: seq<byte>, b: seq<byte>)
    requires Bits(a) == Bits(b)
    ensures a == b
  {
    assert 8 * |a| == |Bits(a)| == |Bits(b)| == 8 * |b|;
    forall k | 0 <= k < |a| ensures a[k] == b[k] {
      forall i: nat | i < 8 ensures BitOf(a[k], i) == BitOf(b[k], i) {
        assert Bits(a)[8 * k + i] == Bits(b)[8 * k + i];
        assert (8 * k + i) / 8 == k && (8 * k + i) % 8 == i;
      }
      assert Mask(8) == 256;
      SameBits(a[k], b[k], 8);
    }
  }

  /** `b | (1 << i)` adds the mask, when the bit was clear. */
  lemma {:induction false} SetBitOfByte(b: nat, i: nat, n: nat)
    requires i < n && b < Mask(n) && !BitOf(b, i)
    ensures b + Mask(i) < Mask(n)
    ensures forall j: nat :: BitOf(b + Mask(i), j) == (i == j || BitOf(b, j))
  {
    if i > 0 {
      SetBitOfByte(b / 2, i - 1, n - 1);
      assert (b + Mask(i)) / 2 == b / 2 + Mask(i - 1);
    } else {
      assert (b + 1) / 2 == b / 2;
    }
    forall j: nat ensures BitOf(b + Mask(i), j) == (i == j || BitOf(b, j)) {
      if j > 0 {
        assert BitOf((b + Mask(i)) / 2, j - 1) == BitOf(b + Mask(i), j);
      }
    }
  }

  /** `b & !(1 << i)` subtracts the mask, when the bit was set. */
  lemma {:induction false} ClearBitOfByte(b: nat, i: nat)
    requires BitOf(b, i)
    ensures b >= Mask(i)
    ensures forall j: nat :: BitOf(b - Mask(i), j) == (i != j && BitOf(b, j))
  {
    if i > 0 {
      ClearBitOfByte(b / 2, i - 1);
      assert (b - Mask(i)) / 2 == b / 2 - Mask(i - 1);
    } else {
      assert (b - 1) / 2 == b / 2;
    }
    forall j: nat ensures BitOf(b - Mask(i), j) == (i != j && BitOf(b, j)) {
      if j > 0 {
        assert BitOf((b - Mask(i)) / 2, j - 1) == BitOf(b - Mask(i), j);
      }
    }
  }

  /** `buf[bit / 8] |= 1 << (bit % 8)` */
  method SetBit(buf: array<byte>, bit: nat)
    requires bit / 8 < buf.Length
    modifies buf
    ensures Bits(buf[..]) == Bits(old(buf[..]))[bit := true]
  {
    var k, i := bit / 8, bit % 8;
    ghost var was := buf[..];
    if !BitOf(buf[k], i) {
      assert Mask(8) == 256;
      SetBitOfByte(buf[k], i, 8);
      buf[k] := buf[k] + Mask(i);
    }
    BitsAfterByteChange(was, buf[..], bit, true);
  }

  /** `buf[bit / 8] &= !(1 << (bit % 8))` */
  method ClearBit(buf: array<byte>, bit: nat)
    requires bit / 8 < buf.Length
    modifies buf
    ensures Bits(buf[..]) == Bits(old(buf[..]))[bit := false]
  {
    var k, i := bit / 8, bit % 8;
    ghost var was := buf[..];
    if BitOf(buf[k], i) {
      ClearBitOfByte(buf[k], i);
      buf[k] := buf[k] - Mask(i);
    }
    BitsAfterByteChange(was, buf[..], bit, false);
  }

  lemma BitsAfterByteChange(was: seq<byte>, now: seq<byte>, bit: nat, v: bool)
    requires |was| == |now| && bit / 8 < |was|
    requires forall k :: 0 <= k < |was| && k != bit / 8 ==> now[k] == was[k]
    requires forall j: nat :: j < 8 ==> BitOf(now[bit / 8], j) == if j == bit % 8 then v else BitOf(was[bit / 8], j)
    ensures Bits(now) == Bits(was)[bit := v]
  {
    forall i | 0 <= i < 8 * |was| ensures Bits(now)[i] == Bits(was)[bit := v][i] {
      if i / 8 == bit / 8 {
        assert i == bit <==> i % 8 == bit % 8;
      }
    }
  }

  /** Lowest clear bit below `maxBit`, skipping full bytes: exactly what a
      bit-by-bit scan of the buffer's own bits finds. */
  method FindFirstZero(buf: seq<byte>, maxBit: nat) returns (r: Option<nat>)
    ensures r.Some? ==> r.value < maxBit && r.value < 8 * |buf| && !GetBit(buf, r.value)
    ensures r.Some? ==> forall j :: 0 <= j < r.value ==> GetBit(buf, j)
    ensures r.None? ==> forall j :: 0 <= j < maxBit && j < 8 * |buf| ==> GetBit(buf, j)
  {
    var maxByte := if DivCeil(maxBit, 8) < |buf| then DivCeil(maxBit, 8) else |buf|;
    for k := 0 to maxByte
      invariant forall j :: 0 <= j < 8 * k ==> GetBit(buf, j)
    {
      if buf[k] == 0xFF {
        forall j | 8 * k <= j < 8 * (k + 1) ensures GetBit(buf, j) {
          FullByte(j % 8);
          assert j / 8 == k;
        }
        continue;
      }
      for i := 0 to 8
        invariant forall j :: 0 <= j < 8 * k + i ==> GetBit(buf, j)
        invariant 8 * k + i <= maxBit
      {
        var bit := 8 * k + i;
        if bit >= maxBit {
          return None;
        }
        assert bit / 8 == k && bit % 8 == i;
        if !BitOf(buf[k], i) {
          return Some(bit);
        }
      }
    }
    return None;
  }

  lemma {:induction false} FullBits(i: nat, n: nat)
    requires i < n
    ensures BitOf(Mask(n) - 1, i)
  {
    if i > 0 {
      assert (Mask(n) - 1) / 2 == Mask(n - 1) - 1;
      FullBits(i - 1, n - 1);
    }
  }

  lemma FullByte(i: nat)
    requires i < 8
    ensures BitOf(0xFF, i)
  {
    assert Mask(8) == 256;
    FullBits(i, 8);
  }

  /** `n` clear bits from `start` on, all below `maxBit`. */
  predicate ClearRun(buf: seq<byte>, start: nat, n: nat, maxBit: nat) {
    start + n <= maxBit && forall i :: start <= i < start + n ==> !GetBit(buf, i)
  }

  /** First fit: the lowest start of `n` clear bits below `maxBit`, and `None`
      exactly when there is no such run. */
  method FindFirstZeroRun(buf: seq<byte>, n: nat, maxBit: nat) returns (r: Option<nat>)
    ensures n == 0 ==> r == Some(0)
    ensures r.Some? && n > 0 ==> ClearRun(buf, r.value, n, maxBit)
    ensures r.Some? && n > 0 ==> forall s: nat :: s < r.value ==> !ClearRun(buf, s, n, maxBit)
    ensures r.None? ==> forall s: nat :: !ClearRun(buf, s, n, maxBit)
  {
    if n == 0 {
      return Some(0);
    }
    var runStart: Option<nat> := None;
    var runLen := 0;
    for bit := 0 to maxBit
      invariant runLen < n && (runStart.None? <==> runLen == 0)
      invariant runStart.Some? ==> runStart.value + runLen == bit
      invariant forall i :: bit - runLen <= i < bit ==> !GetBit(buf, i)
      invariant 0 < bit - runLen ==> GetBit(buf, bit - runLen - 1)
      invariant forall s: nat :: s < bit - runLen ==> !ClearRun(buf, s, n, maxBit)
    {
      if !GetBit(buf, bit) {
        if runStart.None? {
          runStart := Some(bit);
        }
        runLen := runLen + 1;
        if runLen == n {
          return runStart;
        }
      } else {
        forall s: nat | s < bit + 1 ensures !ClearRun(buf, s, n, maxBit) {
          if s >= bit - runLen {
            assert s <= bit < s + n;
          }
        }
        runStart := None;
        runLen := 0;
      }
    }
    return None;
  }
}
