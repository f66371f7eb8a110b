/**
 * Addresses and prefixes as Go's net/netip represents them: the zero Addr is
 * invalid, an address is a number below 2^32 or 2^128, and a prefix (section 3.1
 * of RFC 4632) is an address with a count of leading network bits.
 */
module Netip {
  import opened Powers

  datatype Family = V4 | V6

  function Width(f: Family): nat {
    if f.V4? then 32 else 128
  }

  datatype Addr = Invalid | Addr(family: Family, value: nat)

  datatype Prefix = Prefix(addr: Addr, bits: int)

  predicate ValidAddr(a: Addr) {
    a.Addr? && a.value < Pow2(Width(a.family))
  }

  predicate ValidPrefix(p: Prefix) {
    ValidAddr(p.addr) && 0 <= p.bits <= Width(p.addr.family)
  }

  function HostBits(p: Prefix): nat
    requires ValidPrefix(p)
  {
    Width(p.addr.family) - p.bits
  }

  /** How many addresses the prefix holds. */
  function Size(p: Prefix): (n: nat)
    requires ValidPrefix(p)
    ensures n >= 1
  {
    Pow2(HostBits(p))
  }

  predicate IsMasked(p: Prefix) {
    ValidPrefix(p) && p.addr.value % Size(p) == 0
  }

  function Masked(p: Prefix): (m: Prefix)
    requires ValidPrefix(p)
    ensures IsMasked(m) && m.bits == p.bits && m.addr.family == p.addr.family
    ensures m.addr.value <= p.addr.value < m.addr.value + Size(p)
  {
    var s := Size(p);
    FloorMultiple(p.addr.value, s);
    Prefix(Addr(p.addr.family, p.addr.value / s * s), p.bits)
  }

  predicate Contains(p: Prefix, a: Addr)
    requires ValidPrefix(p)
  {
    && a.Addr?
    && a.family == p.addr.family
    && a.value / Size(p) == p.addr.value / Size(p)
  }

  function Next(a: Addr): (n: Addr)
    requires ValidAddr(a)
    ensures n.Addr? ==> ValidAddr(n)
  {
    if a.value + 1 < Pow2(Width(a.family)) then Addr(a.family, a.value + 1) else Invalid
  }

  function Prev(a: Addr): (n: Addr)
    requires ValidAddr(a)
    ensures n.Addr? ==> ValidAddr(n)
  {
    if a.value == 0 then Invalid else Addr(a.family, a.value - 1)
  }

  lemma MaskedFits(p: Prefix)
    requires IsMasked(p)
    ensures p.addr.value + Size(p) <= Pow2(Width(p.addr.family))
  {
    Pow2Add(p.bits, HostBits(p));
    BlockBelow(p.addr.value, Size(p), Pow2(p.bits));
  }

  /** A masked prefix is the interval of Size(p) numbers from its base, inside the family's space. */
  lemma MaskedInterval(p: Prefix)
    requires IsMasked(p)
    ensures p.addr.value + Size(p) <= Pow2(Width(p.addr.family))
    ensures forall a: Addr :: Contains(p, a) <==>
              a.Addr? && a.family == p.addr.family && p.addr.value <= a.value < p.addr.value + Size(p)
  {
    var s := Size(p);
    MaskedFits(p);
    forall a: Addr
      ensures Contains(p, a) <==>
                a.Addr? && a.family == p.addr.family && p.addr.value <= a.value < p.addr.value + s
    {
      if a.Addr? {
        BlockMembers(p.addr.value, s, a.value);
      }
    }
  }

  /** The Postgres operator && on two networks: they agree on the shorter one's network bits. */
  predicate Overlap(p: Prefix, q: Prefix)
    requires ValidPrefix(p) && ValidPrefix(q)
  {
    && p.addr.family == q.addr.family
    && var s := if p.bits <= q.bits then Size(p) else Size(q);
       p.addr.value / s == q.addr.value / s
  }

  lemma ShorterSizeIsMultiple(p: Prefix, q: Prefix) returns (k: nat)
    requires ValidPrefix(p) && ValidPrefix(q) && p.addr.family == q.addr.family && p.bits <= q.bits
    ensures k >= 1 && Size(p) == k * Size(q)
  {
    var d: nat := q.bits - p.bits;
    Pow2Add(d, HostBits(q));
    k := Pow2(d);
  }

  /** Inside one block of the longer prefix, all addresses lie in one block of the shorter prefix. */
  lemma SameCoarseBlock(v: nat, w: nat, fine: nat, k: nat)
    requires fine > 0 && k > 0 && v / fine == w / fine
    ensures k * fine > 0 && v / (k * fine) == w / (k * fine)
  {
    CoarseQuotient(v, fine, k);
    CoarseQuotient(w, fine, k);
  }

  /** Dividing in two steps. */
  lemma CoarseQuotient(v: nat, fine: nat, k: nat)
    requires fine > 0 && k > 0
    ensures k * fine > 0 && v / (k * fine) == v / fine / k
  {
    var m := v / fine;
    var q := m / k;
    assert m * fine <= v < (m + 1) * fine;
    ScaleBounds(q, k, m, fine);
    assert q * (k * fine) + k * fine == (q + 1) * (k * fine);
    DivIs(v, k * fine, q);
  }

  lemma ScaleBounds(q: nat, k: nat, m: nat, fine: nat)
    requires fine > 0 && k > 0 && q == m / k
    ensures k * fine > 0 && q * (k * fine) <= m * fine && (m + 1) * fine <= (q + 1) * (k * fine)
  {
    assert q * k <= m && m + 1 <= (q + 1) * k;
    MulLe(q * k, m, fine);
    MulLe(m + 1, (q + 1) * k, fine);
    assert q * k * fine == q * (k * fine) && (q + 1) * k * fine == (q + 1) * (k * fine);
  }

  lemma MulLe(a: nat, b: nat, c: nat)
    requires a <= b
    ensures a * c <= b * c
  {
  }

  /** Two masked networks overlap exactly when some address lies in both. */
  lemma OverlapIsSharedAddress(p: Prefix, q: Prefix)
    requires IsMasked(p) && IsMasked(q)
    ensures Overlap(p, q) <==> exists a :: Contains(p, a) && Contains(q, a)
    ensures Overlap(p, q) <==> Overlap(q, p)
  {
    if p.addr.family == q.addr.family {
      if p.bits <= q.bits {
        OverlapNested(p, q);
      } else {
        OverlapNested(q, p);
      }
    }
  }

  lemma OverlapNested(p: Prefix, q: Prefix)
    requires IsMasked(p) && IsMasked(q) && p.addr.family == q.addr.family && p.bits <= q.bits
    ensures Overlap(p, q) == Overlap(q, p)
    ensures Overlap(p, q) <==> exists a :: Contains(p, a) && Contains(q, a)
  {
    var k := ShorterSizeIsMultiple(p, q);
    if Overlap(p, q) {
      assert Contains(p, q.addr) && Contains(q, q.addr);
    }
    forall a | Contains(p, a) && Contains(q, a)
      ensures Overlap(p, q)
    {
      SameCoarseBlock(a.value, q.addr.value, Size(q), k);
    }
    if p.bits == q.bits {
      assert Size(p) == Size(q);
    }
  }
}
