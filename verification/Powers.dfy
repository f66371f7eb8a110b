/** Powers of two and the few facts about division that address arithmetic needs. */
module Powers {

  function Pow2(n: nat): (p: nat)
    ensures p >= 1
  {
    if n == 0 then 1 else 2 * Pow2(n - 1)
  }

  lemma {:induction false} Pow2Add(a: nat, b: nat)
    ensures Pow2(a + b) == Pow2(a) * Pow2(b)
  {
    if a != 0 {
      Pow2Add(a - 1, b);
      calc {
        Pow2(a + b);
        2 * Pow2(a - 1 + b);
        2 * (Pow2(a - 1) * Pow2(b));
        2 * Pow2(a - 1) * Pow2(b);
        Pow2(a) * Pow2(b);
      }
    }
  }

  lemma {:induction false} Pow2Monotone(a: nat, b: nat)
    requires a <= b
    ensures Pow2(a) <= Pow2(b)
    decreases b - a
  {
    if a < b {
      Pow2Monotone(a + 1, b);
    }
  }

  lemma Pow2Of8()
    ensures Pow2(0) == 1 && Pow2(1) == 2 && Pow2(2) == 4 && Pow2(3) == 8
    ensures Pow2(4) == 16 && Pow2(5) == 32 && Pow2(6) == 64 && Pow2(7) == 128 && Pow2(8) == 256
  {
    assert Pow2(2) == 4;
    assert Pow2(4) == 4 * Pow2(2);
    assert Pow2(6) == 4 * Pow2(4);
    assert Pow2(8) == 4 * Pow2(6);
  }

  /** v / d is the one q with q*d <= v < q*d + d. */
  lemma DivIs(v: nat, d: nat, q: nat)
    requires d > 0
    ensures v / d == q <==> q * d <= v < q * d + d
  {
    var r := v / d;
    assert r * d <= v < r * d + d;
    if q < r {
      assert (q + 1) * d <= r * d;
    } else if r < q {
      assert (r + 1) * d <= q * d;
    }
  }

  lemma MultipleMod(q: nat, d: nat)
    requires d > 0
    ensures (q * d) % d == 0 && (q * d) / d == q
  {
    DivIs(q * d, d, q);
    var m := (q * d) / d;
    assert m * d + (q * d) % d == q * d;
  }

  /** Rounding down to a multiple of d. */
  lemma FloorMultiple(v: nat, d: nat)
    requires d > 0
    ensures 0 <= v / d * d <= v < v / d * d + d
    ensures (v / d * d) % d == 0 && (v / d * d) / d == v / d
  {
    MultipleMod(v / d, d);
  }

  /** A multiple of d below k*d leaves room for a whole block below k*d. */
  lemma BlockBelow(v: nat, d: nat, k: nat)
    requires d > 0 && v % d == 0 && v < k * d
    ensures v + d <= k * d
  {
    var q := v / d;
    assert v == q * d;
    assert k <= q ==> k * d <= q * d;
    assert (q + 1) * d <= k * d;
  }

  /** The numbers that divide to the same quotient as a multiple b of d are b .. b+d-1. */
  lemma BlockMembers(b: nat, d: nat, v: nat)
    requires d > 0 && b % d == 0
    ensures v / d == b / d <==> b <= v < b + d
  {
    assert b == b / d * d;
    DivIs(v, d, b / d);
  }
}
