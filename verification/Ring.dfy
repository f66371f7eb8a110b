/** Usable hosts as a ring: consecutive addresses of one family, the last followed by the first. */
module Ring {
  import opened Netip
  import opened Wrappers

  datatype Hosts = Hosts(family: Family, first: nat, last: nat) {
    predicate Valid() {
      first <= last
    }

    function Count(): int {
      last - first + 1
    }

    predicate HasValue(v: nat) {
      first <= v <= last
    }

    predicate Has(a: Addr) {
      a.Addr? && a.family == family && HasValue(a.value)
    }

    function Host(v: nat): Addr {
      Addr(family, v)
    }

    function Successor(v: nat): nat {
      if v == last then first else v + 1
    }

    /** The k-th value after v, going around at most once. */
    function At(v: nat, k: nat): (w: nat)
      requires HasValue(v) && k <= Count()
      ensures HasValue(w)
    {
      if v + k <= last then v + k else v + k - Count()
    }

    /** How many steps lead from v to w. */
    function Distance(v: nat, w: nat): (k: nat)
      requires HasValue(v) && HasValue(w)
      ensures k < Count() && At(v, k) == w
    {
      if w >= v then w - v else w - v + Count()
    }

    /** Count() steps from v meet every value exactly once, each the successor of the one before. */
    lemma WalkIsComplete(v: nat, w: nat)
      requires HasValue(v) && HasValue(w)
      ensures exists k :: 0 <= k < Count() && At(v, k) == w
      ensures forall j, k :: 0 <= j < Count() && 0 <= k < Count() && At(v, j) == At(v, k) ==> j == k
      ensures forall k :: 0 <= k < Count() ==> At(v, k + 1) == Successor(At(v, k))
    {
      assert At(v, Distance(v, w)) == w;
    }

    /** The first k at or after `from` whose host is unreserved. */
    function FirstFree(v: nat, from: nat, reserved: set<Addr>): Option<nat>
      requires HasValue(v)
      decreases Count() - from
    {
      if from >= Count() then None
      else if Host(At(v, from)) !in reserved then Some(from)
      else FirstFree(v, from + 1, reserved)
    }

    lemma {:induction false} FirstFreeIs(v: nat, from: nat, reserved: set<Addr>)
      requires HasValue(v)
      ensures match FirstFree(v, from, reserved)
              case Some(k) =>
                && from <= k < Count()
                && Host(At(v, k)) !in reserved
                && forall j :: from <= j < k ==> Host(At(v, j)) in reserved
              case None =>
                forall j :: from <= j < Count() ==> Host(At(v, j)) in reserved
      decreases Count() - from
    {
      if from < Count() && Host(At(v, from)) in reserved {
        FirstFreeIs(v, from + 1, reserved);
      }
    }

    /** Nothing is free from v exactly when every host is reserved. */
    lemma NoneFreeIff(v: nat, reserved: set<Addr>)
      requires HasValue(v)
      ensures FirstFree(v, 0, reserved).None? <==> forall a :: Has(a) ==> a in reserved
    {
      FirstFreeIs(v, 0, reserved);
      if FirstFree(v, 0, reserved).None? {
        forall a | Has(a)
          ensures a in reserved
        {
          assert Host(At(v, Distance(v, a.value))) == a;
        }
      } else {
        assert Has(Host(At(v, FirstFree(v, 0, reserved).value)));
      }
    }

    /** The hosts on the first k steps from v. */
    ghost function Walked(v: nat, k: nat): (s: set<Addr>)
      requires HasValue(v) && k <= Count()
      ensures |s| == k
      ensures forall a :: a in s <==> Has(a) && Distance(v, a.value) < k
    {
      if k == 0 then {} else
      var rest := Walked(v, k - 1);
      var a := Host(At(v, k - 1));
      WalkIsComplete(v, At(v, k - 1));
      assert forall b :: Has(b) && Distance(v, b.value) == k - 1 ==> b == a;
      rest + {a}
    }

    ghost function ReservedHosts(reserved: set<Addr>): set<Addr> {
      set a | a in reserved && Has(a)
    }

    /** Fewer reservations than hosts leave a host. */
    lemma FewerLeaveOne(reserved: set<Addr>)
      requires Valid() && |reserved| < Count()
      ensures exists a :: Has(a) && a !in reserved
    {
      if forall a :: Has(a) ==> a in reserved {
        SubsetSize(Walked(first, Count()), reserved);
      }
    }

    /** The search passes over reserved hosts only, each once. */
    lemma FirstFreeBound(v: nat, reserved: set<Addr>)
      requires HasValue(v) && FirstFree(v, 0, reserved).Some?
      ensures FirstFree(v, 0, reserved).value <= |ReservedHosts(reserved)|
    {
      FirstFreeIs(v, 0, reserved);
      var k := FirstFree(v, 0, reserved).value;
      forall a | a in Walked(v, k)
        ensures a in ReservedHosts(reserved)
      {
        assert Host(At(v, Distance(v, a.value))) == a;
      }
      SubsetSize(Walked(v, k), ReservedHosts(reserved));
    }
  }

  lemma SubsetSize<T>(a: set<T>, b: set<T>)
    requires a <= b
    ensures |a| <= |b|
  {
    assert b == a + (b - a);
  }
}
