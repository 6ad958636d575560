/** Bytes, fixed-width integers and little-endian fields of on-disk records. */
module Bytes {

  type byte = x: int | 0 <= x < 0x100
  type u16 = x: int | 0 <= x < 0x1_0000
  type u32 = x: int | 0 <= x < 0x1_0000_0000
  type u64 = x: int | 0 <= x < 0x1_0000_0000_0000_0000

  function Zeros(n: nat): (s: seq<byte>)
    ensures |s| == n
  {
    seq(n, _ => 0)
  }

  /** `s` with the bytes from `off` on overwritten by `bs`. */
  function Put(s: seq<byte>, off: nat, bs: seq<byte>): (r: seq<byte>)
    requires off + |bs| <= |s|
    ensures |r| == |s|
  {
    s[..off] + bs + s[off + |bs|..]
  }

  /** A slice of the result is the new bytes, or untouched when it misses them. */
  lemma PutSlice(s: seq<byte>, off: nat, bs: seq<byte>, lo: nat, hi: nat)
    requires off + |bs| <= |s| && lo <= hi <= |s|
    ensures lo == off && hi == off + |bs| ==> Put(s, off, bs)[lo..hi] == bs
    ensures hi <= off || off + |bs| <= lo ==> Put(s, off, bs)[lo..hi] == s[lo..hi]
  {
  }

  /** Overwriting inside what was just written. */
  lemma PutPut(s: seq<byte>, off: nat, bs: seq<byte>, at: nat, cs: seq<byte>)
    requires off + |bs| <= |s| && at + |cs| <= |bs|
    ensures Put(Put(s, off, bs), off + at, cs) == Put(s, off, Put(bs, at, cs))
  {
    var p := Put(s, off, bs);
    assert p[..off + at] == s[..off] + bs[..at];
    assert p[off + at + |cs|..] == bs[at + |cs|..] + s[off + |bs|..];
    assert s[..off] + bs[..at] + cs + (bs[at + |cs|..] + s[off + |bs|..])
        == s[..off] + (bs[..at] + cs + bs[at + |cs|..]) + s[off + |bs|..];
  }

  function LE16(v: u16): (s: seq<byte>)
    ensures |s| == 2
  {
    [v % 0x100, v / 0x100]
  }

  function LE32(v: u32): (s: seq<byte>)
    ensures |s| == 4
  {
    var q := v / 0x100;
    var h := q / 0x100;
    [v % 0x100, q % 0x100, h % 0x100, h / 0x100]
  }

  function U16(s: seq<byte>, off: nat): u16
    requires off + 2 <= |s|
  {
    s[off] as int + 0x100 * s[off + 1] as int
  }

  function U32(s: seq<byte>, off: nat): u32
    requires off + 4 <= |s|
  {
    s[off] as int + 0x100 * s[off + 1] as int + 0x1_0000 * s[off + 2] as int + 0x100_0000 * s[off + 3] as int
  }

  lemma U16RoundTrip(v: u16)
    ensures U16(LE16(v), 0) == v
  {
  }

  lemma U32RoundTrip(v: u32)
    ensures U32(LE32(v), 0) == v
  {
  }

  lemma LE16RoundTrip(s: seq<byte>, off: nat)
    requires off + 2 <= |s|
    ensures LE16(U16(s, off)) == s[off..off + 2]
  {
  }

  lemma LE32RoundTrip(s: seq<byte>, off: nat)
    requires off + 4 <= |s|
    ensures LE32(U32(s, off)) == s[off..off + 4]
  {
    var c: int := s[off + 2];
    var h := c + 0x100 * s[off + 3] as int;
    var q := s[off + 1] as int + 0x100 * h;
    var v := s[off] as int + 0x100 * q;
    assert v == U32(s, off);
    assert v / 0x100 == q && q / 0x100 == h;
  }

  /** A write that ends before the tail leaves the tail alone. */
  lemma PutBefore(t: seq<byte>)
    ensures forall s: seq<byte>, off: nat, bs {:trigger Put(s + t, off, bs)} :: off + |bs| <= |s| ==>
      Put(s + t, off, bs) == Put(s, off, bs) + t
  {
    forall s: seq<byte>, off: nat, bs | off + |bs| <= |s| ensures Put(s + t, off, bs) == Put(s, off, bs) + t {
      OnePutBefore(s, t, off, bs);
    }
  }

  lemma OnePutBefore(s: seq<byte>, t: seq<byte>, off: nat, bs: seq<byte>)
    requires off + |bs| <= |s|
    ensures Put(s + t, off, bs) == Put(s, off, bs) + t
  {
  }

  /** A record laid over the head of a buffer. */
  lemma PutHead(s: seq<byte>, bs: seq<byte>)
    requires |bs| <= |s|
    ensures Put(s, 0, bs) == bs + s[|bs|..]
  {
  }

  /** Fields read back what was written there, and writes elsewhere leave them alone. */
  lemma PutFields()
    ensures forall s, off: nat, bs, at: nat {:trigger U16(Put(s, off, bs), at)} ::
      off + |bs| <= |s| && at + 2 <= |s| && (at + 2 <= off || off + |bs| <= at) ==>
        U16(Put(s, off, bs), at) == U16(s, at)
    ensures forall s, off: nat, bs, at: nat {:trigger U32(Put(s, off, bs), at)} ::
      off + |bs| <= |s| && at + 4 <= |s| && (at + 4 <= off || off + |bs| <= at) ==>
        U32(Put(s, off, bs), at) == U32(s, at)
    ensures forall s, off: nat, v: u16 {:trigger Put(s, off, LE16(v))} :: off + 2 <= |s| ==>
      U16(Put(s, off, LE16(v)), off) == v
    ensures forall s, off: nat, v: u32 {:trigger Put(s, off, LE32(v))} :: off + 4 <= |s| ==>
      U32(Put(s, off, LE32(v)), off) == v
  {
    forall s, off: nat, v: u16 | off + 2 <= |s| ensures U16(Put(s, off, LE16(v)), off) == v {
      PutSlice(s, off, LE16(v), off, off + 2);
      FieldAt(Put(s, off, LE16(v)), off, LE16(v), 0);
      U16RoundTrip(v);
    }
    forall s, off: nat, v: u32 | off + 4 <= |s| ensures U32(Put(s, off, LE32(v)), off) == v {
      hide LE32;
      PutSlice(s, off, LE32(v), off, off + 4);
      FieldAt(Put(s, off, LE32(v)), off, LE32(v), 0);
      U32RoundTrip(v);
    }
  }

  /** Reading a field only looks at its own bytes. */
  lemma FieldAt(s: seq<byte>, off: nat, t: seq<byte>, at: nat)
    requires off + |t| <= |s| && s[off..off + |t|] == t
    ensures at + 2 <= |t| ==> U16(s, off + at) == U16(t, at)
    ensures at + 4 <= |t| ==> U32(s, off + at) == U32(t, at)
  {
    assert forall i :: 0 <= i < |t| ==> s[off + i] == s[off..off + |t|][i] == t[i];
  }

  /** `buf[off..off + 2].copy_from_slice(&value.to_le_bytes())` */
  method WriteU16(buf: array<byte>, off: nat, v: u16)
    requires off + 2 <= buf.Length
    modifies buf
    ensures buf[..] == Put(old(buf[..]), off, LE16(v))
  {
    buf[off], buf[off + 1] := v % 0x100, v / 0x100;
  }

  method WriteU32(buf: array<byte>, off: nat, v: u32)
    requires off + 4 <= buf.Length
    modifies buf
    ensures buf[..] == Put(old(buf[..]), off, LE32(v))
  {
    var q := v / 0x100;
    buf[off], buf[off + 1] := v % 0x100, q % 0x100;
    buf[off + 2], buf[off + 3] := q / 0x100 % 0x100, q / 0x100 / 0x100;
  }

  method WriteBytes(buf: array<byte>, off: nat, a: byte, b: byte)
    requires off + 2 <= buf.Length
    modifies buf
    ensures buf[..] == Put(old(buf[..]), off, [a, b])
  {
    buf[off], buf[off + 1] := a, b;
  }

  method CopyFromSlice(buf: array<byte>, off: nat, bs: seq<byte>)
    requires off + |bs| <= buf.Length
    modifies buf
    ensures buf[..] == Put(old(buf[..]), off, bs)
  {
    forall i | 0 <= i < |bs| { buf[off + i] := bs[i]; }
  }

  method FillZero(buf: array<byte>, off: nat, len: nat)
    requires off + len <= buf.Length
    modifies buf
    ensures buf[..] == Put(old(buf[..]), off, Zeros(len))
  {
    forall i | off <= i < off + len { buf[i] := 0; }
  }

  function DivCeil(a: nat, b: nat): (r: nat)
    requires b > 0
    ensures b * r >= a && (r > 0 ==> b * (r - 1) < a)
  {
    (a + b - 1) / b
  }
}
