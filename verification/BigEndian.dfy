/** Big-endian integers in byte buffers (shim/utils.c): the length and sequence
    fields of every frame that travels between the VM, the proxy, the runtime
    and the shim. */
module BigEndian {

  type byte = b: int | 0 <= b < 0x100

  const TWO_TO_THE_31 := 0x8000_0000
  const TWO_TO_THE_32 := 0x1_0000_0000
  const TWO_TO_THE_64 := 0x1_0000_0000_0000_0000

  type uint32 = x: int | 0 <= x < TWO_TO_THE_32
  type int64 = x: int | -0x8000_0000_0000_0000 <= x < 0x8000_0000_0000_0000
  type uint64 = x: int | 0 <= x < TWO_TO_THE_64

  /** The low 64 bits of a result. */
  function Wrap64(x: int): uint64 {
    if 0 <= x < TWO_TO_THE_64 then x else x % TWO_TO_THE_64
  }

  /** The four bytes stored for a 32-bit value, most significant first. */
  function Put32(val: uint32): (s: seq<byte>)
    ensures |s| == 4
    ensures Get32(s) == val
  {
    var bytes := [val / 0x100_0000, (val / 0x1_0000) % 0x100, (val / 0x100) % 0x100, val % 0x100];
    assert val / 0x1_0000 == bytes[0] as int * 0x100 + bytes[1] as int;
    assert val / 0x100 == bytes[0] as int * 0x1_0000 + bytes[1] as int * 0x100 + bytes[2] as int;
    bytes
  }

  function Get32(s: seq<byte>): (val: uint32)
    requires |s| == 4
  {
    s[0] as int * 0x100_0000 + s[1] as int * 0x1_0000 + s[2] as int * 0x100 + s[3] as int
  }

  function Put64(val: uint64): (s: seq<byte>)
    ensures |s| == 8
    ensures Get64(s) == val
  {
    var hi, lo := Put32(val / TWO_TO_THE_32), Put32(val % TWO_TO_THE_32);
    assert (hi + lo)[..4] == hi && (hi + lo)[4..] == lo;
    hi + lo
  }

  function Get64(s: seq<byte>): (val: uint64)
    requires |s| == 8
  {
    Get32(s[..4]) * TWO_TO_THE_32 + Get32(s[4..])
  }

  /** The low byte comes last, and the bytes before it are those of the rest: which makes
      the first byte the most significant one. */
  lemma LowByteLast32(val: uint32, low: byte)
    requires val < 0x100_0000
    ensures Put32(0x100 * val + low) == Put32(val)[1..] + [low]
  {
    var x: uint32 := 0x100 * val + low;
    assert x % 0x100 == low && x / 0x100 == val;
    assert x / 0x1_0000 == val / 0x100 && x / 0x100_0000 == val / 0x1_0000 && val / 0x100_0000 == 0;
  }

  lemma LowByteLast64(val: uint64, low: byte)
    requires val < 0x100_0000_0000_0000
    ensures Put64(0x100 * val + low) == Put64(val)[1..] + [low]
  {
    var (hi, lo) := (val / TWO_TO_THE_32, val % TWO_TO_THE_32);
    var (top, rest) := (lo / 0x100_0000, lo % 0x100_0000);
    HalvesShifted(val, low, hi, lo, top, rest);
    LowByteLast32(hi, top);
    LowByteLast32(rest, low);
    TopByte(lo, top, rest);
    hide Put32;
    assert Put64(val)[1..] == Put32(hi)[1..] + Put32(lo);
  }

  lemma HalvesShifted(val: uint64, low: byte, hi: int, lo: int, top: int, rest: int)
    requires val < 0x100_0000_0000_0000 && val == hi * TWO_TO_THE_32 + lo && 0 <= lo < TWO_TO_THE_32
    requires lo == top * 0x100_0000 + rest && 0 <= rest < 0x100_0000
    ensures 0 <= hi < 0x100_0000 && 0 <= top < 0x100
    ensures (0x100 * val + low) / TWO_TO_THE_32 == 0x100 * hi + top
    ensures (0x100 * val + low) % TWO_TO_THE_32 == 0x100 * rest + low
  {
    assert 0x100 * val + low == (0x100 * hi + top) * TWO_TO_THE_32 + (0x100 * rest + low);
  }

  lemma TopByte(lo: uint32, top: byte, rest: uint32)
    requires lo == top * 0x100_0000 + rest && rest < 0x100_0000
    ensures Put32(lo) == [top] + Put32(rest)[1..]
  {
    assert lo / 0x100_0000 == top && rest / 0x100_0000 == 0;
    assert lo / 0x1_0000 == top * 0x100 + rest / 0x1_0000 && lo / 0x100 == top * 0x1_0000 + rest / 0x100;
  }

  /** Every four-byte field is the encoding of the value read from it, so no two
      fields read as the same number. */
  lemma PutOfGet32(s: seq<byte>)
    requires |s| == 4
    ensures Put32(Get32(s)) == s
  {
    var v := Get32(s);
    assert v / 0x100 == s[0] as int * 0x1_0000 + s[1] as int * 0x100 + s[2] as int;
    assert v / 0x1_0000 == s[0] as int * 0x100 + s[1] as int;
    assert v / 0x100_0000 == s[0];
  }

  lemma PutOfGet64(s: seq<byte>)
    requires |s| == 8
    ensures Put64(Get64(s)) == s
  {
    PutOfGet32(s[..4]);
    PutOfGet32(s[4..]);
    assert Get64(s) / TWO_TO_THE_32 == Get32(s[..4]);
    assert Get64(s) % TWO_TO_THE_32 == Get32(s[4..]);
    assert s[..4] + s[4..] == s;
  }

  /** set_big_endian_32: stores into the buffer in place and touches nothing else. */
  method SetBigEndian32(buf: array<byte>, offset: nat, val: uint32)
    requires offset + 4 <= buf.Length
    modifies buf
    ensures buf[..] == old(buf[..offset]) + Put32(val) + old(buf[offset + 4..])
  {
    buf[offset] := val / 0x100_0000;
    buf[offset + 1] := (val / 0x1_0000) % 0x100;
    buf[offset + 2] := (val / 0x100) % 0x100;
    buf[offset + 3] := val % 0x100;
  }

  /** set_big_endian_64: two 32-bit halves, high half first. */
  method SetBigEndian64(buf: array<byte>, offset: nat, val: uint64)
    requires offset + 8 <= buf.Length
    modifies buf
    ensures buf[..] == old(buf[..offset]) + Put64(val) + old(buf[offset + 8..])
  {
    SetBigEndian32(buf, offset, val / TWO_TO_THE_32);
    ghost var mid := buf[..];
    SetBigEndian32(buf, offset + 4, val % TWO_TO_THE_32);
    TwoStores(old(buf[..]), offset, Put32(val / TWO_TO_THE_32), Put32(val % TWO_TO_THE_32), mid);
    hide Put32;
  }

  lemma TwoStores(s: seq<byte>, offset: nat, high: seq<byte>, low: seq<byte>, mid: seq<byte>)
    requires offset + 8 <= |s| && |high| == |low| == 4
    requires mid == s[..offset] + high + s[offset + 4..]
    ensures mid[..offset + 4] + low + mid[offset + 8..] == s[..offset] + (high + low) + s[offset + 8..]
  {
    assert mid[..offset + 4] == s[..offset] + high && mid[offset + 8..] == s[offset + 8..];
  }
}
