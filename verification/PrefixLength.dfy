/** Counting the leading one bits of a subnet mask (prefix, src/networking.c). */
module PrefixLength {

  /** 1 << k. */
  function Mask(k: nat): bv8
    requires k < 8
  {
    match k
    case 0 => 1
    case 1 => 2
    case 2 => 4
    case 3 => 8
    case 4 => 16
    case 5 => 32
    case 6 => 64
    case 7 => 128
  }

  predicate Bit(b: bv8, k: nat)
    requires k < 8
  {
    b & Mask(k) != 0
  }

  /** The bits of a buffer in network order, the top bit of the first byte first. */
  predicate BitAt(s: seq<bv8>, i: nat)
    requires i < 8 * |s|
  {
    Bit(s[i / 8], 7 - i % 8)
  }

  /** `n` ones, then zeros. */
  ghost predicate IsMask(s: seq<bv8>, n: nat) {
    n <= 8 * |s| && forall i :: 0 <= i < 8 * |s| ==> (BitAt(s, i) <==> i < n)
  }

  /** What the loops accept as a prefix of length `n`: a mask, except that the lowest bit
      of the first byte other than 0xff is never looked at. */
  ghost predicate Accepts(s: seq<bv8>, n: nat) {
    && n <= 8 * |s|
    && (n < 8 * |s| ==> s[n / 8] != 0xff)
    && forall i :: 0 <= i < 8 * |s| && i != 8 * (n / 8) + 7 ==> (BitAt(s, i) <==> i < n)
  }

  // The same, byte by byte.

  lemma AllOnes(b: bv8)
    ensures b == 0xff <==> forall k :: 0 <= k < 8 ==> Bit(b, k)
  {
    if forall k :: 0 <= k < 8 ==> Bit(b, k) {
      assert Bit(b, 0) && Bit(b, 1) && Bit(b, 2) && Bit(b, 3);
      assert Bit(b, 4) && Bit(b, 5) && Bit(b, 6) && Bit(b, 7);
    }
  }

  lemma AllZeros(b: bv8)
    ensures b == 0 <==> forall k :: 0 <= k < 8 ==> !Bit(b, k)
  {
    if forall k :: 0 <= k < 8 ==> !Bit(b, k) {
      assert !Bit(b, 0) && !Bit(b, 1) && !Bit(b, 2) && !Bit(b, 3);
      assert !Bit(b, 4) && !Bit(b, 5) && !Bit(b, 6) && !Bit(b, 7);
    }
  }

  /** Of bits 7 to 1, exactly the top `r` are set. */
  ghost predicate ByteOk(b: bv8, r: nat) {
    r <= 7 && forall k :: 1 <= k < 8 ==> (Bit(b, k) <==> 7 - k < r)
  }

  ghost predicate AcceptsBytes(s: seq<bv8>, n: nat) {
    && n <= 8 * |s|
    && (forall j :: 0 <= j < n / 8 ==> s[j] == 0xff)
    && (n < 8 * |s| ==>
          && s[n / 8] != 0xff && ByteOk(s[n / 8], n % 8)
          && forall j :: n / 8 < j < |s| ==> s[j] == 0)
  }

  lemma BitOfByte(s: seq<bv8>, j: nat, k: nat)
    requires j < |s| && k < 8
    ensures 8 * j + (7 - k) < 8 * |s|
    ensures BitAt(s, 8 * j + (7 - k)) <==> Bit(s[j], k)
  {
    assert (8 * j + (7 - k)) / 8 == j && (8 * j + (7 - k)) % 8 == 7 - k;
  }

  lemma AcceptsToBytes(s: seq<bv8>, n: nat)
    requires Accepts(s, n)
    ensures AcceptsBytes(s, n)
  {
    var q := n / 8;
    forall j, k | 0 <= j < |s| && 0 <= k < 8 && !(j == q && k == 0)
      ensures Bit(s[j], k) <==> 8 * j + (7 - k) < n
    {
      BitOfByte(s, j, k);
      assert BitAt(s, 8 * j + (7 - k)) <==> 8 * j + (7 - k) < n;
    }
    forall j | 0 <= j < q
      ensures s[j] == 0xff
    {
      AllOnes(s[j]);
    }
    forall j | q < j < |s|
      ensures s[j] == 0
    {
      AllZeros(s[j]);
    }
  }

  lemma BytesToAccepts(s: seq<bv8>, n: nat)
    requires AcceptsBytes(s, n)
    ensures Accepts(s, n)
  {
    var q := n / 8;
    forall i | 0 <= i < 8 * |s| && i != 8 * q + 7
      ensures BitAt(s, i) <==> i < n
    {
      var j, k := i / 8, 7 - i % 8;
      if j < q {
        AllOnes(s[j]);
        assert Bit(s[j], k);
      } else if j > q {
        AllZeros(s[j]);
        assert !Bit(s[j], k);
      } else {
        assert k != 0;
        assert Bit(s[q], k) <==> 7 - k < n % 8;
      }
    }
  }

  lemma AcceptsIff(s: seq<bv8>, n: nat)
    ensures Accepts(s, n) <==> AcceptsBytes(s, n)
  {
    if Accepts(s, n) { AcceptsToBytes(s, n); }
    if AcceptsBytes(s, n) { BytesToAccepts(s, n); }
  }

  lemma LongerRefused(s: seq<bv8>, m: nat, n: nat)
    requires AcceptsBytes(s, m) && m < n
    ensures !AcceptsBytes(s, n)
  {
    if n <= 8 * |s| && m / 8 == n / 8 {
      var k := 7 - m % 8;
      assert Bit(s[m / 8], k) <==> 7 - k < m % 8;
    }
  }

  /** A buffer is accepted at one length at most. */
  lemma AcceptsOnce(s: seq<bv8>, m: nat, n: nat)
    requires Accepts(s, m) && m != n
    ensures !Accepts(s, n)
  {
    AcceptsIff(s, m);
    AcceptsIff(s, n);
    if m < n {
      LongerRefused(s, m, n);
    } else if AcceptsBytes(s, n) {
      LongerRefused(s, n, m);
    }
  }

  /** Every true mask is accepted at its length. */
  lemma MaskAccepted(s: seq<bv8>, n: nat)
    requires IsMask(s, n)
    ensures Accepts(s, n)
  {
    if n < 8 * |s| {
      assert !BitAt(s, n);
      AllOnes(s[n / 8]);
    }
  }

  /** And anything accepted is a mask but for that one bit: clearing it gives a mask. */
  lemma AcceptedIsNearMask(s: seq<bv8>, n: nat)
    requires Accepts(s, n) && n < 8 * |s|
    ensures IsMask(s, n) <==> !Bit(s[n / 8], 0)
    ensures IsMask(s[n / 8 := s[n / 8] & 0xfe], n)
  {
    hide Bit;
    var q := n / 8;
    var t := s[q := s[q] & 0xfe];
    ClearedAccepted(s, n);
    LowBitCleared(s[q]);
    BitOfByte(s, q, 0);
    BitOfByte(t, q, 0);
  }

  lemma ClearedAccepted(s: seq<bv8>, n: nat)
    requires Accepts(s, n) && n < 8 * |s|
    ensures Accepts(s[n / 8 := s[n / 8] & 0xfe], n)
  {
    hide Bit, Accepts;
    var q := n / 8;
    var t := s[q := s[q] & 0xfe];
    AcceptsToBytes(s, n);
    ClearedOk(s[q], n % 8);
    BytesToAccepts(t, n);
  }

  lemma ClearedOk(b: bv8, r: nat)
    requires ByteOk(b, r)
    ensures ByteOk(b & 0xfe, r) && b & 0xfe != 0xff
  {
    var c := b & 0xfe;
    LowBitCleared(b);
    forall k | 1 <= k < 8
      ensures Bit(c, k) <==> 7 - k < r
    {
      assert Bit(b, k) <==> 7 - k < r;
    }
  }

  /** 1100 0001 passes for a mask of two ones, which it is not at any length. */
  lemma LastBitUnseen()
    ensures Accepts([0xc1], 2) && forall n :: !IsMask([0xc1], n)
  {
    var s: seq<bv8> := [0xc1];
    BytesToAccepts(s, 2);
    assert BitAt(s, 7) && !BitAt(s, 2);
  }

  lemma LowBitCleared(b: bv8)
    ensures !Bit(b & 0xfe, 0)
    ensures forall k :: 1 <= k < 8 ==> (Bit(b & 0xfe, k) <==> Bit(b, k))
  {
    forall k | 1 <= k < 8
      ensures Bit(b & 0xfe, k) <==> Bit(b, k)
    {
      MaskHigh(b, k);
    }
  }

  lemma MaskHigh(b: bv8, k: nat)
    requires 1 <= k < 8
    ensures (b & 0xfe) & Mask(k) == b & Mask(k)
  {
    match k {
      case 1 => case 2 => case 3 => case 4 => case 5 => case 6 => case 7 =>
    }
  }

  /** prefix.  The result is the length at which the buffer is accepted, and 0 if there is
      none; in particular a mask of `n` ones gives `n`. */
  method Prefix(addr: array<bv8>) returns (plen: nat)
    ensures forall n :: IsMask(addr[..], n) ==> plen == n
    ensures forall n :: Accepts(addr[..], n) ==> plen == n
    ensures plen > 0 ==> Accepts(addr[..], plen)
  {
    ghost var s := addr[..];
    var ok;
    plen, ok := Scan(addr);
    assert s == addr[..];
    if ok {
      BytesToAccepts(s, plen);
    } else {
      plen := 0;
    }
    forall n: nat
      ensures Accepts(s, n) ==> plen == n
    {
      AcceptsIff(s, n);
      if ok && n != plen { AcceptsOnce(s, plen, n); }
    }
    forall n: nat | IsMask(s, n)
      ensures Accepts(s, n)
    {
      MaskAccepted(s, n);
    }
  }

  /** The four loops; `ok` is false where they find a one bit out of place. */
  method Scan(addr: array<bv8>) returns (plen: nat, ok: bool)
    ensures ok ==> AcceptsBytes(addr[..], plen)
    ensures !ok ==> forall n :: !AcceptsBytes(addr[..], n)
  {
    var size, byte := addr.Length, 0;
    plen := 0;
    while byte < size && addr[byte] == 0xff
      invariant 0 <= byte <= size && plen == 8 * byte
      invariant forall j :: 0 <= j < byte ==> addr[j] == 0xff
    {
      byte, plen := byte + 1, plen + 8;
    }
    if byte == size {
      return plen, true;
    }
    ghost var s := addr[..];
    forall n: nat | AcceptsBytes(s, n)
      ensures n / 8 == byte
    {
      assert s[byte] != 0xff && forall j :: 0 <= j < byte ==> s[j] == 0xff;
    }
    var r, byteOk := ScanByte(addr[byte]);
    if !byteOk {
      return plen, false;
    }
    plen := plen + r;
    byte := byte + 1;
    ghost var q := byte - 1;
    assert plen / 8 == q && plen % 8 == r;
    while byte < size
      invariant q < byte <= size
      invariant forall j :: q < j < byte ==> addr[j] == 0
    {
      if addr[byte] != 0 {
        assert s[byte] != 0;
        return plen, false;
      }
      byte := byte + 1;
    }
    ok := true;
  }

  /** The two loops over one byte: count ones from the top, then expect zeros, and leave
      the last bit alone. */
  method ScanByte(b: bv8) returns (r: nat, ok: bool)
    ensures ok ==> ByteOk(b, r)
    ensures !ok ==> forall n :: !ByteOk(b, n)
  {
    hide Bit, ByteOk;
    var bit := 7;
    r := 0;
    while bit != 0 && Bit(b, bit)
      invariant 0 <= bit <= 7 && r == 7 - bit
      invariant forall k :: bit < k < 8 ==> Bit(b, k)
    {
      bit, r := bit - 1, r + 1;
    }
    ghost var stop := bit;
    assert stop > 0 ==> !Bit(b, stop);
    while bit != 0
      invariant 0 <= bit <= stop
      invariant forall k :: bit < k <= stop ==> !Bit(b, k)
    {
      if Bit(b, bit) {
        OutOfPlace(b, bit, stop);
        return r, false;
      }
      bit := bit - 1;
    }
    InPlace(b, r);
    ok := true;
  }

  lemma InPlace(b: bv8, r: nat)
    requires r <= 7
    requires forall k :: 7 - r < k < 8 ==> Bit(b, k)
    requires forall k :: 1 <= k <= 7 - r ==> !Bit(b, k)
    ensures ByteOk(b, r)
  {
    hide Bit;
  }

  lemma OutOfPlace(b: bv8, lower: nat, upper: nat)
    requires 1 <= lower < upper < 8 && Bit(b, lower) && !Bit(b, upper)
    ensures forall n :: !ByteOk(b, n)
  {
    hide Bit;
  }
}
