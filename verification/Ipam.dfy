/** The address allocator: a cyclic scan of a pool from a persisted cursor. */
module Ipam {
  import opened Powers
  import opened Netip
  import opened HostBytes
  import opened Ring

  datatype Allocation =
    | Allocated(address: Addr, next: Addr)
    | Exhausted
    | InvalidPool

  const MAX_INT := 0x7fff_ffff_ffff_ffff

  /** The 64-bit two's complement value of a counter that may have run over. */
  function Wrap64(n: nat): int {
    if n <= MAX_INT then n
    else (n + 0x8000_0000_0000_0000) % 0x1_0000_0000_0000_0000 - 0x8000_0000_0000_0000
  }

  // ---------------------------------------------------------------- the usable range

  /** Network addresses of IPv4 pools shorter than /31 are no hosts (section 2.1 of RFC 3021 exempts /31). */
  function FirstHost(p: Prefix): Addr
    requires ValidPrefix(p)
  {
    if p.addr.family.V4? && p.bits < 31 then Next(p.addr) else p.addr
  }

  /** Usable hosts, saturating when there are 31 or more host bits. */
  function AddrCount(p: Prefix): int
    requires ValidPrefix(p)
  {
    var bits := HostBits(p);
    if bits >= 31 then MAX_INT
    else
      var n := if p.addr.family.V4? && p.bits < 31 then Pow2(bits) - 2 else Pow2(bits);
      if n < 0 then 0 else n
  }

  /** The usable hosts of a masked pool. */
  function HostsOf(p: Prefix): (h: Hosts)
    requires IsMasked(p)
    ensures h.Valid() && h.family == p.addr.family
    ensures p.addr.value <= h.first && h.last < p.addr.value + Size(p)
  {
    HostsRange(p);
    Hosts(p.addr.family,
          if p.addr.family.V4? && p.bits < 31 then p.addr.value + 1 else p.addr.value,
          LastValue(p))
  }

  lemma HostsRange(p: Prefix)
    requires IsMasked(p)
    ensures p.addr.value + Size(p) <= Pow2(Width(p.addr.family))
    ensures p.addr.family.V4? && p.bits < 31 ==> Size(p) >= 4 && LastValue(p) == p.addr.value + Size(p) - 2
    ensures !(p.addr.family.V4? && p.bits < 31) ==> LastValue(p) == p.addr.value + Size(p) - 1
  {
    MaskedFits(p);
    if p.addr.family.V4? && p.bits < 31 {
      SizeAtLeast(p);
    }
  }

  predicate IsUsable(p: Prefix, a: Addr)
    requires IsMasked(p)
  {
    Contains(p, a) && HostsOf(p).first <= a.value <= HostsOf(p).last
  }

  /** The hosts are exactly the usable addresses, and the code's first host is the first of them. */
  lemma UsableIsHost(p: Prefix)
    requires IsMasked(p)
    ensures forall a :: IsUsable(p, a) <==> HostsOf(p).Has(a)
    ensures FirstHost(p) == HostsOf(p).Host(HostsOf(p).first)
  {
    MaskedInterval(p);
    HostsRange(p);
  }

  /** Below saturation the count is exactly last - first + 1. */
  lemma AddrCountIsRange(p: Prefix)
    requires IsMasked(p) && HostBits(p) <= 30
    ensures AddrCount(p) == HostsOf(p).last - HostsOf(p).first + 1 <= 0x4000_0000
  {
    HostsRange(p);
    Pow2Monotone(HostBits(p), 30);
    assert Pow2(30) == 0x4000_0000 by {
      Pow2Of8();
      Pow2Add(8, 7);
      Pow2Add(15, 15);
    }
  }

  // ---------------------------------------------------------------- the simple form

  /** Where the scan enters the ring: the cursor, or the first host for any other cursor. */
  function Start(h: Hosts, cursor: Addr): (v: nat)
    requires h.Valid()
    ensures h.HasValue(v)
  {
    if h.Has(cursor) then cursor.value else h.first
  }

  /** What allocation means: the first free host in cyclic order, and the cursor after it. */
  function AllocationOf(pool: Prefix, cursor: Addr, reserved: set<Addr>): Allocation {
    if !ValidPrefix(pool) then InvalidPool else AllocateIn(HostsOf(Masked(pool)), cursor, reserved)
  }

  function AllocateIn(h: Hosts, cursor: Addr, reserved: set<Addr>): Allocation
    requires h.Valid()
  {
    var v := Start(h, cursor);
    match h.FirstFree(v, 0, reserved)
    case None => Exhausted
    case Some(k) =>
      h.FirstFreeIs(v, 0, reserved);
      Allocated(h.Host(h.At(v, k)), h.Host(h.Successor(h.At(v, k))))
  }

  /** Exhaustion is reported exactly when no usable address is free. */
  lemma ExhaustedIff(pool: Prefix, cursor: Addr, reserved: set<Addr>)
    requires ValidPrefix(pool)
    ensures AllocationOf(pool, cursor, reserved).Exhausted? ==
            (forall a :: IsUsable(Masked(pool), a) ==> a in reserved)
  {
    var h := HostsOf(Masked(pool));
    UsableIsHost(Masked(pool));
    h.NoneFreeIff(Start(h, cursor), reserved);
  }

  /** The address returned is free, every host before it from the cursor is reserved, and the next cursor follows it. */
  lemma AllocatedIsFirstFree(pool: Prefix, cursor: Addr, reserved: set<Addr>)
    requires ValidPrefix(pool) && AllocationOf(pool, cursor, reserved).Allocated?
    ensures var p := Masked(pool);
            var h := HostsOf(p);
            var r := AllocationOf(pool, cursor, reserved);
            && IsUsable(p, r.address) && r.address !in reserved
            && r.next == h.Host(h.Successor(r.address.value)) && IsUsable(p, r.next)
            && forall a :: IsUsable(p, a)
                 && h.Distance(Start(h, cursor), a.value) < h.Distance(Start(h, cursor), r.address.value)
                 ==> a in reserved
  {
    var h := HostsOf(Masked(pool));
    UsableIsHost(Masked(pool));
    var v := Start(h, cursor);
    h.FirstFreeIs(v, 0, reserved);
    var k := h.FirstFree(v, 0, reserved).value;
    h.WalkIsComplete(v, h.At(v, k));
    forall a | h.Has(a) && h.Distance(v, a.value) < k
      ensures a in reserved
    {
      assert h.Host(h.At(v, h.Distance(v, a.value))) == a;
    }
  }

  // ---------------------------------------------------------------- enumeration

  ghost function FreeHosts(h: Hosts, reserved: set<Addr>): (s: set<Addr>)
    ensures forall a :: a in s <==> h.Has(a) && a !in reserved
  {
    var all := set v | h.first <= v <= h.last :: h.Host(v);
    assert forall a :: h.Has(a) ==> a == h.Host(a.value);
    all - reserved
  }

  /** The addresses issued when each result is reserved and each next cursor is used for the next call. */
  ghost function Issued(h: Hosts, cursor: Addr, reserved: set<Addr>): seq<Addr>
    requires h.Valid()
    decreases FreeHosts(h, reserved)
  {
    match AllocateIn(h, cursor, reserved)
    case Allocated(a, next) =>
      AllocatedIsFree(h, cursor, reserved);
      assert a in FreeHosts(h, reserved) && a !in FreeHosts(h, reserved + {a});
      [a] + Issued(h, next, reserved + {a})
    case _ => []
  }

  lemma AllocatedIsFree(h: Hosts, cursor: Addr, reserved: set<Addr>)
    requires h.Valid()
    ensures var r := AllocateIn(h, cursor, reserved);
            r.Allocated? ==> h.Has(r.address) && r.address !in reserved && h.Has(r.next)
    ensures AllocateIn(h, cursor, reserved).Exhausted? <==> FreeHosts(h, reserved) == {}
    ensures !AllocateIn(h, cursor, reserved).InvalidPool?
  {
    h.FirstFreeIs(Start(h, cursor), 0, reserved);
    h.NoneFreeIff(Start(h, cursor), reserved);
    if AllocateIn(h, cursor, reserved).Allocated? {
      assert AllocateIn(h, cursor, reserved).address in FreeHosts(h, reserved);
    } else {
      assert forall a :: a in FreeHosts(h, reserved) ==> h.Has(a);
    }
  }

  /** From any cursor every free host is issued exactly once; after that every call reports exhaustion. */
  lemma {:induction false} EnumerationIsComplete(h: Hosts, cursor: Addr, reserved: set<Addr>, later: Addr)
    requires h.Valid()
    ensures var s := Issued(h, cursor, reserved);
            && (forall i, j :: 0 <= i < j < |s| ==> s[i] != s[j])
            && (forall a :: a in s <==> a in FreeHosts(h, reserved))
            && AllocateIn(h, later, reserved + (set a | a in s)).Exhausted?
    decreases FreeHosts(h, reserved)
  {
    AllocatedIsFree(h, cursor, reserved);
    var s := Issued(h, cursor, reserved);
    if AllocateIn(h, cursor, reserved).Allocated? {
      var a, next := s[0], AllocateIn(h, cursor, reserved).next;
      assert a in FreeHosts(h, reserved) && a !in FreeHosts(h, reserved + {a});
      var rest := Issued(h, next, reserved + {a});
      EnumerationIsComplete(h, next, reserved + {a}, later);
      assert s == [a] + rest;
      assert reserved + (set x | x in s) == reserved + {a} + (set x | x in rest);
    } else {
      assert reserved + (set x | x in s) == reserved;
      AllocatedIsFree(h, later, reserved);
    }
  }

  /** From an empty pool the order of issue is the cyclic order from the cursor. */
  lemma EnumerationOrder(h: Hosts, cursor: Addr, reserved: set<Addr>)
    requires h.Valid() && h.ReservedHosts(reserved) == {}
    ensures Issued(h, cursor, reserved) == seq(h.Count(), i requires 0 <= i < h.Count() => h.Host(h.At(Start(h, cursor), i)))
  {
    var v := Start(h, cursor);
    forall j | 0 <= j < h.Count()
      ensures h.Host(h.At(v, j)) !in reserved
    {
      assert h.Has(h.Host(h.At(v, j)));
      assert h.Host(h.At(v, j)) !in h.ReservedHosts(reserved);
    }
    IssuedFrom(h, Start(h, cursor), 0, cursor, reserved);
  }

  /** With exactly the first k hosts from v reserved and the cursor at the k-th, the rest follow in order. */
  lemma {:induction false} IssuedFrom(h: Hosts, v: nat, k: nat, cursor: Addr, reserved: set<Addr>)
    requires h.Valid() && h.HasValue(v) && k <= h.Count()
    requires k < h.Count() ==> Start(h, cursor) == h.At(v, k)
    requires forall j :: 0 <= j < h.Count() ==> (h.Host(h.At(v, j)) in reserved <==> j < k)
    ensures Issued(h, cursor, reserved) ==
            seq(h.Count() - k, i requires 0 <= i < h.Count() - k => h.Host(h.At(v, k + i)))
    decreases h.Count() - k
  {
    AllocatedIsFree(h, cursor, reserved);
    if k == h.Count() {
      forall a | h.Has(a)
        ensures a in reserved
      {
        assert h.Host(h.At(v, h.Distance(v, a.value))) == a;
      }
      assert FreeHosts(h, reserved) == {};
    } else {
      var a := h.Host(h.At(v, k));
      var next := h.Host(h.Successor(h.At(v, k)));
      AllocateAtCursor(h, cursor, reserved);
      h.WalkIsComplete(v, v);
      IssuedFrom(h, v, k + 1, next, reserved + {a});
    }
  }

  /** A free host under the cursor is the one allocated. */
  lemma AllocateAtCursor(h: Hosts, cursor: Addr, reserved: set<Addr>)
    requires h.Valid() && h.Host(Start(h, cursor)) !in reserved
    ensures var v := Start(h, cursor);
            AllocateIn(h, cursor, reserved) == Allocated(h.Host(v), h.Host(h.Successor(v)))
  {
    assert h.At(Start(h, cursor), 0) == Start(h, cursor);
  }

  // ---------------------------------------------------------------- the loop

  /** One turn of the loop: the address after a, or the first host past the end. */
  function Advance(p: Prefix, last: Addr, a: Addr): Addr
    requires ValidPrefix(p) && ValidAddr(a) && last.Addr?
  {
    var n := Next(a);
    if !Contains(p, n) || n.value > last.value then FirstHost(p) else n
  }

  lemma AdvanceIsSuccessor(p: Prefix, last: Addr, a: Addr)
    requires IsMasked(p) && Contains(p, a) && last == Addr(p.addr.family, LastValue(p))
    ensures ValidAddr(a)
    ensures Advance(p, last, a) ==
            HostsOf(p).Host(if IsUsable(p, a) then HostsOf(p).Successor(a.value) else HostsOf(p).first)
    ensures Contains(p, Advance(p, last, a))
  {
    MaskedInterval(p);
    HostsRange(p);
  }

  /** A cursor outside the pool is replaced by the first host, which is where the scan would enter anyway. */
  lemma EnterPool(p: Prefix, cursor: Addr)
    requires IsMasked(p)
    ensures Contains(p, FirstHost(p))
    ensures !Contains(p, cursor) ==> Start(HostsOf(p), FirstHost(p)) == Start(HostsOf(p), cursor)
  {
    UsableIsHost(p);
    assert HostsOf(p).Has(FirstHost(p));
    assert IsUsable(p, FirstHost(p));
    assert HostsOf(p).Has(cursor) ==> IsUsable(p, cursor);
  }

  /** The loop's moving address after `turns` turns: the cursor, then the ring from where the scan enters it. */
  ghost predicate Reached(h: Hosts, cursor: Addr, turns: nat, a: Addr)
    requires h.Valid()
  {
    var lead := if h.Has(cursor) then 0 else 1;
    if turns < lead then a == cursor
    else turns - lead <= h.Count() && a == h.Host(h.At(Start(h, cursor), turns - lead))
  }

  /** How many turns the loop makes before the one that ends it. */
  ghost function Misses(h: Hosts, cursor: Addr, reserved: set<Addr>): nat
    requires h.Valid() && AllocateIn(h, cursor, reserved).Allocated?
  {
    (if h.Has(cursor) then 0 else 1) + h.FirstFree(Start(h, cursor), 0, reserved).value
  }

  /** A turn that finds a free host is the last one and returns the allocation; another turn stays on course. */
  lemma Turn(h: Hosts, cursor: Addr, reserved: set<Addr>, turns: nat, a: Addr)
    requires h.Valid() && AllocateIn(h, cursor, reserved).Allocated?
    requires turns <= Misses(h, cursor, reserved) && Reached(h, cursor, turns, a)
    ensures h.Has(a) && a !in reserved ==>
              AllocateIn(h, cursor, reserved) == Allocated(a, h.Host(h.Successor(a.value)))
    ensures !(h.Has(a) && a !in reserved) ==>
              && turns < Misses(h, cursor, reserved)
              && Reached(h, cursor, turns + 1, h.Host(if h.Has(a) then h.Successor(a.value) else h.first))
  {
    var v := Start(h, cursor);
    h.FirstFreeIs(v, 0, reserved);
    h.WalkIsComplete(v, v);
  }

  lemma MissesBound(h: Hosts, cursor: Addr, reserved: set<Addr>)
    requires h.Valid() && AllocateIn(h, cursor, reserved).Allocated?
    ensures Misses(h, cursor, reserved) <= |h.ReservedHosts(reserved)| + 1
    ensures Misses(h, cursor, reserved) <= h.Count()
  {
    h.FirstFreeBound(Start(h, cursor), reserved);
    h.FirstFreeIs(Start(h, cursor), 0, reserved);
  }

  /** The step bound does not fire before a free host is found. */
  lemma GuardHolds(p: Prefix, turns: nat)
    requires IsMasked(p) && turns <= HostsOf(p).Count()
    ensures Wrap64(turns) <= AddrCount(p)
  {
    if HostBits(p) <= 30 {
      AddrCountIsRange(p);
    }
  }

  /**
   * The allocator's loop returns what the simple form says. With 31 or more host bits
   * the step bound never fires, so such a pool must hold a free address. With a free
   * address the loop makes at most |reserved usable addresses| + 2 turns.
   */
  method Allocate(pool: Prefix, cursor: Addr, reserved: set<Addr>) returns (r: Allocation, turns: nat)
    requires ValidPrefix(pool) && HostBits(pool) >= 31 ==>
               exists a :: HostsOf(Masked(pool)).Has(a) && a !in reserved
    ensures r == AllocationOf(pool, cursor, reserved)
    ensures ValidPrefix(pool) && r.Allocated? ==>
              turns <= |HostsOf(Masked(pool)).ReservedHosts(reserved)| + 2
    ensures ValidPrefix(pool) && r.Exhausted? ==> turns == AddrCount(Masked(pool)) + 1
  {
    turns := 0;
    if !ValidPrefix(pool) {
      return InvalidPool, 0;
    }
    var p := Masked(pool);
    assert HostBits(p) == HostBits(pool);
    var c := if !Contains(p, cursor) then FirstHost(p) else cursor;
    EnterPool(p, cursor);
    r, turns := Scan(p, c, reserved);
  }

  /** The loop itself, entered with a cursor inside the pool. */
  method Scan(p: Prefix, cursor: Addr, reserved: set<Addr>) returns (r: Allocation, turns: nat)
    requires IsMasked(p) && Contains(p, cursor)
    requires HostBits(p) >= 31 ==> exists a :: HostsOf(p).Has(a) && a !in reserved
    ensures r == AllocateIn(HostsOf(p), cursor, reserved)
    ensures r.Allocated? ==> turns <= |HostsOf(p).ReservedHosts(reserved)| + 2
    ensures r.Exhausted? ==> turns == AddrCount(p) + 1
  {
    var last := LastHost(p);
    var h := HostsOf(p);
    UsableIsHost(p);
    h.NoneFreeIff(Start(h, cursor), reserved);
    ghost var meant := AllocateIn(h, cursor, reserved);
    ghost var bound := AddrCount(p) + 1;
    if meant.Allocated? {
      MissesBound(h, cursor, reserved);
      bound := Misses(h, cursor, reserved);
    } else {
      AddrCountIsRange(p);
    }
    var a := cursor;
    turns := 0;
    GuardHolds(p, 0);
    while Wrap64(turns) <= AddrCount(p)
      invariant turns <= bound
      invariant Contains(p, a)
      invariant meant.Allocated? ==> Reached(h, cursor, turns, a) && Wrap64(turns) <= AddrCount(p)
      decreases bound - turns
    {
      AdvanceIsSuccessor(p, last, a);
      if meant.Allocated? {
        Turn(h, cursor, reserved, turns, a);
      }
      if IsUsable(p, a) && a !in reserved {
        return Allocated(a, Advance(p, last, a)), turns + 1;
      }
      a := Advance(p, last, a);
      turns := turns + 1;
      if meant.Allocated? {
        GuardHolds(p, turns);
      }
    }
    r := Exhausted;
  }
}
