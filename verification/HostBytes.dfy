/** The byte-level computation of a pool's last host, against plain arithmetic. */
module HostBytes {
  import opened Powers
  import opened Netip

  type Byte = b: nat | b < 256

  /** The number in front of an IPv4 address in its 16-byte form, and its weight. */
  const MAPPED := 0xffff
  const IPV4_SPACE := 0x1_0000_0000

  lemma Ipv4Space()
    ensures Pow2(32) == IPV4_SPACE
  {
    Pow2Of8();
    Pow2Add(8, 8);
    Pow2Add(16, 16);
  }

  // ---------------------------------------------------------------- bit operations on bytes

  /** Bitwise or, one binary digit at a time. */
  function Or(a: nat, b: nat): nat
    decreases a + b
  {
    if a + b == 0 then 0
    else (if a % 2 == 1 || b % 2 == 1 then 1 else 0) + 2 * Or(a / 2, b / 2)
  }

  /** The 8-bit value of (1 << shift) - 1: the shift drops the ninth bit, and 0 - 1 wraps. */
  function WrappedMask(shift: nat): Byte {
    (Pow2(shift) % 256 + 255) % 256
  }

  lemma WrappedMaskValue(shift: nat)
    requires shift <= 8
    ensures WrappedMask(shift) == Pow2(shift) - 1 < 256
  {
    Pow2Of8();
    Pow2Monotone(shift, 8);
    WrapBelow(Pow2(shift));
  }

  lemma WrapBelow(x: nat)
    requires 1 <= x <= 256
    ensures (x % 256 + 255) % 256 == x - 1
  {
  }

  lemma EvenHalf(a: nat, m: nat)
    requires m > 0 && a % (2 * m) == 0
    ensures a % 2 == 0 && (a / 2) % m == 0
  {
    var k := a / (2 * m);
    assert a == k * (2 * m) == 2 * (k * m);
    MultipleMod(k, m);
  }

  /** Where the set bits cannot meet, or is addition. */
  lemma {:induction false} OrDisjoint(a: nat, b: nat, s: nat)
    requires a % Pow2(s) == 0 && b < Pow2(s)
    ensures Or(a, b) == a + b
    decreases s, a
  {
    if a + b == 0 {
    } else if s == 0 {
      OrDisjoint(a / 2, 0, 0);
    } else {
      EvenHalf(a, Pow2(s - 1));
      OrDisjoint(a / 2, b / 2, s - 1);
    }
  }

  // ---------------------------------------------------------------- big-endian bytes

  function BigEndian(bs: seq<Byte>): nat {
    if bs == [] then 0 else BigEndian(bs[..|bs| - 1]) * 256 + bs[|bs| - 1]
  }

  function ToBytes(v: nat, n: nat): (bs: seq<Byte>)
    ensures |bs| == n
  {
    if n == 0 then [] else ToBytes(v / 256, n - 1) + [v % 256]
  }

  lemma {:induction false} ToBytesValue(v: nat, n: nat)
    requires v < Pow2(8 * n)
    ensures BigEndian(ToBytes(v, n)) == v
  {
    if n != 0 {
      Pow2Of8();
      Pow2Add(8, 8 * (n - 1));
      assert v / 256 < Pow2(8 * (n - 1));
      ToBytesValue(v / 256, n - 1);
      assert ToBytes(v, n)[..n - 1] == ToBytes(v / 256, n - 1);
    }
  }

  /** Changing byte i moves the value by the change times that byte's weight. */
  lemma {:induction false} UpdateValue(bs: seq<Byte>, i: nat, x: Byte)
    requires i < |bs|
    ensures BigEndian(bs[i := x]) == BigEndian(bs) + (x - bs[i]) * Pow2(8 * (|bs| - 1 - i))
  {
    var n := |bs| - 1;
    if i == n {
      assert bs[i := x][..n] == bs[..n];
      assert Pow2(8 * (n - i)) == 1;
    } else {
      var w := Pow2(8 * (n - 1 - i));
      assert bs[i := x][..n] == bs[..n][i := x];
      UpdateValue(bs[..n], i, x);
      assert Pow2(8 * (n - i)) == 256 * w by {
        Pow2Of8();
        Pow2Add(8, 8 * (n - 1 - i));
      }
      ShiftedChange(BigEndian(bs[..n][i := x]), BigEndian(bs[..n]), x - bs[i], w);
    }
  }

  lemma ShiftedChange(after: int, before: int, d: int, w: int)
    requires after == before + d * w
    ensures after * 256 == before * 256 + d * (256 * w)
  {
  }

  lemma ModOfProduct(v: nat, a: nat, b: nat)
    requires a > 0 && b > 0 && v % (a * b) == 0
    ensures v % a == 0 && (v / a) % b == 0
  {
    var k := v / (a * b);
    assert v == k * (a * b) == k * b * a;
    MultipleMod(k * b, a);
    MultipleMod(k, b);
  }

  lemma LowDigit(v: nat, rest: nat, x: nat, c: nat, p: nat)
    requires p > 0 && v == rest * (c * p) + x && v % p == 0
    ensures x % p == 0
  {
    var k := v / p;
    assert v == k * p && rest * (c * p) == rest * c * p;
    assert x == (k - rest * c) * p;
    assert k - rest * c >= 0;
    MultipleMod(k - rest * c, p);
  }

  /** A value divisible by the weight of byte i times 2^shift has shift zero bits at the end of byte i. */
  lemma {:induction false} AlignedByte(bs: seq<Byte>, i: nat, shift: nat)
    requires i < |bs| && shift <= 8
    requires BigEndian(bs) % Pow2(8 * (|bs| - 1 - i) + shift) == 0
    ensures bs[i] % Pow2(shift) == 0
  {
    var n := |bs| - 1;
    var v := BigEndian(bs);
    Pow2Of8();
    if i == n {
      Pow2Add(8 - shift, shift);
      LowDigit(v, BigEndian(bs[..n]), bs[n], Pow2(8 - shift), Pow2(shift));
    } else {
      var m := 8 * (n - 1 - i) + shift;
      Pow2Add(8, m);
      ModOfProduct(v, 256, Pow2(m));
      assert v / 256 == BigEndian(bs[..n]);
      AlignedByte(bs[..n], i, shift);
    }
  }

  // ---------------------------------------------------------------- the last host

  /** The highest address of the pool, less the broadcast of an IPv4 pool shorter than /31. */
  function LastValue(p: Prefix): (v: nat)
    requires ValidPrefix(p)
  {
    var top := p.addr.value + Size(p) - 1;
    if p.addr.family.V4? && p.bits < 31 && top > 0 then top - 1 else top
  }

  /** The 16-byte form: IPv4 addresses sit at ::ffff:0:0. */
  function As16(a: Addr): (v: nat)
    requires ValidAddr(a)
  {
    if a.family.V4? then MAPPED * IPV4_SPACE + a.value else a.value
  }

  function Unmap(a: Addr): Addr
    requires a.Addr?
  {
    if a.family.V6? && a.value / IPV4_SPACE == MAPPED then Addr(V4, a.value % IPV4_SPACE) else a
  }

  lemma As16Fits(p: Prefix)
    requires IsMasked(p)
    ensures As16(p.addr) < Pow2(128)
    ensures As16(p.addr) % Size(p) == 0
  {
    if p.addr.family.V4? {
      Ipv4Space();
      MappedFits(p.addr.value);
      Pow2Add(p.bits, HostBits(p));
      SumOfMultiples(MAPPED, Pow2(p.bits), Size(p), p.addr.value);
    }
  }

  lemma SizeAtLeast(p: Prefix)
    requires ValidPrefix(p) && p.addr.family.V4? && p.bits < 31
    ensures Size(p) >= 4
  {
    Pow2Monotone(2, HostBits(p));
  }

  lemma MappedFits(v: nat)
    requires v < IPV4_SPACE
    ensures MAPPED * IPV4_SPACE + v < Pow2(128)
  {
    assert Pow2(64) == IPV4_SPACE * IPV4_SPACE by {
      Ipv4Space();
      Pow2Add(32, 32);
    }
    Pow2Monotone(64, 128);
  }

  lemma SumOfMultiples(m: nat, c: nat, s: nat, v: nat)
    requires s > 0 && v % s == 0
    ensures (m * (c * s) + v) % s == 0
  {
    assert v == v / s * s;
    assert m * (c * s) + v == (m * c + v / s) * s;
    MultipleMod(m * c + v / s, s);
  }

  /** One turn of the loop: setting shift low bits of byte i, which an aligned value leaves clear. */
  lemma FillByte(bs: seq<Byte>, i: nat, start: nat, shift: nat)
    requires |bs| == 16 && i < 16 && 1 <= shift <= 8
    requires BigEndian(bs) == start + Pow2(8 * (15 - i)) - 1
    requires bs[i] % Pow2(shift) == 0
    ensures Or(bs[i], WrappedMask(shift)) < 256
    ensures BigEndian(bs[i := Or(bs[i], WrappedMask(shift))]) == start + Pow2(8 * (15 - i) + shift) - 1
  {
    WrappedMaskValue(shift);
    OrDisjoint(bs[i], WrappedMask(shift), shift);
    ByteRoom(bs[i], shift);
    UpdateValue(bs, i, Or(bs[i], WrappedMask(shift)));
    Pow2Add(8 * (15 - i), shift);
    Telescope(BigEndian(bs), start, Pow2(8 * (15 - i)), Pow2(shift), Or(bs[i], WrappedMask(shift)) - bs[i]);
  }

  lemma Telescope(v: int, start: int, w: nat, a: nat, m: int)
    requires m == a - 1 && v == start + w - 1
    ensures v + m * w == start + w * a - 1
  {
  }

  lemma ByteRoom(b: Byte, shift: nat)
    requires shift <= 8 && b % Pow2(shift) == 0
    ensures b + Pow2(shift) <= 256
  {
    Pow2Of8();
    Pow2Add(8 - shift, shift);
    BlockBelow(b, Pow2(shift), Pow2(8 - shift));
  }

  /** The in-place loop over the 16 bytes: the value grows by 2^hostbits - 1. */
  method FillHostBits(addr: array<Byte>, hostBits: nat, ghost start: nat)
    requires addr.Length == 16 && hostBits <= 128
    requires BigEndian(addr[..]) == start && start % Pow2(hostBits) == 0
    modifies addr
    ensures BigEndian(addr[..]) == start + Pow2(hostBits) - 1
  {
    ghost var raw := addr[..];
    var bits := hostBits;
    var i := 15;
    while i >= 0 && bits > 0
      invariant -1 <= i <= 15
      invariant 0 <= bits <= hostBits
      invariant bits > 0 ==> hostBits - bits == 8 * (15 - i)
      invariant forall k :: 0 <= k <= i ==> addr[k] == raw[k]
      invariant BigEndian(addr[..]) == start + Pow2(hostBits - bits) - 1
    {
      var shift := 8;
      if bits < 8 {
        shift := bits;
      }
      ghost var before := addr[..];
      StartByteAligned(raw, i, start, hostBits, shift);
      FillByte(before, i, start, shift);
      addr[i] := Or(addr[i], WrappedMask(shift));
      assert addr[..] == before[i := Or(before[i], WrappedMask(shift))];
      bits := bits - shift;
      i := i - 1;
    }
    assert bits == 0;
  }

  lemma LastIPv4(p: Prefix, last: Addr)
    requires IsMasked(p) && p.addr.family.V4?
    requires last == Addr(V6, As16(p.addr) + Size(p) - 1)
    ensures Unmap(last) == Addr(V4, p.addr.value + Size(p) - 1)
    ensures ValidAddr(Unmap(last))
    ensures p.bits < 31 ==> Prev(Unmap(last)) == Addr(V4, LastValue(p))
  {
    MaskedFits(p);
    Ipv4Space();
    if p.bits < 31 {
      SizeAtLeast(p);
    }
  }

  /** A 16-byte value with its host portion set to all ones. */
  method WithHostOnes(start: nat, hostBits: nat) returns (v: nat)
    requires start < Pow2(128) && hostBits <= 128 && start % Pow2(hostBits) == 0
    ensures v == start + Pow2(hostBits) - 1
  {
    var raw := ToBytes(start, 16);
    ToBytesValue(start, 16);
    var addr := new Byte[16](k requires 0 <= k < 16 => raw[k]);
    assert addr[..] == raw;
    FillHostBits(addr, hostBits, start);
    v := BigEndian(addr[..]);
  }

  /** The byte computation yields base + 2^hostbits - 1, less one for IPv4 shorter than /31. */
  method LastHost(p: Prefix) returns (last: Addr)
    requires IsMasked(p)
    ensures last == Addr(p.addr.family, LastValue(p))
    ensures ValidAddr(last)
  {
    MaskedFits(p);
    As16Fits(p);
    var v := WithHostOnes(As16(p.addr), Width(p.addr.family) - p.bits);
    last := Addr(V6, v);
    if p.addr.family.V4? {
      LastIPv4(p, last);
      last := Unmap(last);
      if p.bits < 31 {
        last := Prev(last);
      }
    }
  }

  lemma StartByteAligned(raw: seq<Byte>, i: nat, start: nat, total: nat, shift: nat)
    requires |raw| == 16 && i < 16 && shift <= 8 && 8 * (15 - i) + shift <= total
    requires BigEndian(raw) == start && start % Pow2(total) == 0
    ensures raw[i] % Pow2(shift) == 0
  {
    var low := 8 * (15 - i) + shift;
    Pow2Add(low, total - low);
    ModOfProduct(start, Pow2(low), Pow2(total - low));
    AlignedByte(raw, i, shift);
  }
}
