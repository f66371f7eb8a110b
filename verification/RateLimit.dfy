/** The token-bucket rate limiter, with real-valued tokens and seconds. */
module RateLimit {
  import opened Wrappers

  datatype Bucket = Bucket(tokens: real, last: real)

  datatype Limits = Limits(capacity: int, rate: real) {
    predicate Valid() {
      capacity > 0 && rate > 0.0
    }
  }

  // ---------------------------------------------------------------- one call

  function Min(a: real, b: real): real {
    if a < b then a else b
  }

  /** The bucket a call finds: a full one for a new key. */
  function Found(l: Limits, b: Option<Bucket>, now: real): Bucket {
    match b case Some(x) => x case None => Bucket(l.capacity as real, now)
  }

  /** Refilling for the time since the last refill; a clock that went back adds nothing. */
  function Refilled(l: Limits, b: Bucket, now: real): Bucket {
    if now > b.last then Bucket(Min(l.capacity as real, b.tokens + (now - b.last) * l.rate), now) else b
  }

  predicate Grants(b: Bucket) {
    b.tokens >= 1.0
  }

  function Taken(b: Bucket): Bucket {
    if Grants(b) then b.(tokens := b.tokens - 1.0) else b
  }

  function Ready(l: Limits, b: Option<Bucket>, now: real): Bucket {
    Refilled(l, Found(l, b, now), now)
  }

  /** The time until a token is complete. */
  function Wait(l: Limits, b: Bucket): real
    requires l.Valid()
  {
    Quotient(1.0 - b.tokens, l.rate)
  }

  function Quotient(a: real, b: real): (q: real)
    requires b > 0.0
    ensures q * b == a
  {
    a / b
  }

  class TokenBucket {
    const limits: Limits
    var buckets: map<string, Bucket>

    constructor (capacity: int, refillPerSec: real)
      requires capacity > 0 && refillPerSec > 0.0
      ensures limits == Limits(capacity, refillPerSec) && buckets == map[]
    {
      limits := Limits(capacity, refillPerSec);
      buckets := map[];
    }

    /** One token is taken if there is one; the other keys are left alone. */
    method Allow(key: string, now: real) returns (allowed: bool, retryAfter: real)
      requires limits.Valid()
      modifies this`buckets
      ensures var ready := Ready(limits, if key in old(buckets) then Some(old(buckets)[key]) else None, now);
              && buckets == old(buckets)[key := Taken(ready)]
              && allowed == Grants(ready)
              && retryAfter == if allowed then 0.0 else Wait(limits, ready)
    {
      var b;
      if key in buckets {
        b := buckets[key];
      } else {
        b := Bucket(limits.capacity as real, now);
        buckets := buckets[key := b];
      }
      var elapsed := now - b.last;
      if elapsed > 0.0 {
        b := Bucket(Min(limits.capacity as real, b.tokens + elapsed * limits.rate), now);
        buckets := buckets[key := b];
      }
      assert buckets == old(buckets)[key := b];
      ghost var ready := Ready(limits, if key in old(buckets) then Some(old(buckets)[key]) else None, now);
      assert b == ready;
      if b.tokens >= 1.0 {
        b := b.(tokens := b.tokens - 1.0);
        buckets := buckets[key := b];
        assert buckets == old(buckets)[key := b];
        return true, 0.0;
      }
      var missing := 1.0 - b.tokens;
      return false, Quotient(missing, limits.rate);
    }
  }

  // ---------------------------------------------------------------- runs

  datatype Call = Call(key: string, now: real)

  /** The buckets after a sequence of calls; clock readings may go back and forth. */
  function After(l: Limits, calls: seq<Call>): map<string, Bucket>
    decreases |calls|
  {
    if calls == [] then map[]
    else
      var before, c := After(l, calls[..|calls| - 1]), calls[|calls| - 1];
      before[c.key := Taken(Ready(l, Lookup(before, c.key), c.now))]
  }

  function Lookup(buckets: map<string, Bucket>, key: string): Option<Bucket> {
    if key in buckets then Some(buckets[key]) else None
  }

  /** Whether the last call of a run is allowed. */
  predicate LastAllowed(l: Limits, calls: seq<Call>)
    requires calls != []
  {
    var c := calls[|calls| - 1];
    Grants(Ready(l, Lookup(After(l, calls[..|calls| - 1]), c.key), c.now))
  }

  /** How many calls for the key were allowed. */
  function AllowedCount(l: Limits, calls: seq<Call>, key: string): nat
    decreases |calls|
  {
    if calls == [] then 0
    else AllowedCount(l, calls[..|calls| - 1], key)
         + if calls[|calls| - 1].key == key && LastAllowed(l, calls) then 1 else 0
  }

  predicate Seen(calls: seq<Call>, key: string) {
    exists i :: 0 <= i < |calls| && calls[i].key == key
  }

  /** When the key was first used. */
  function Created(calls: seq<Call>, key: string): real
    requires Seen(calls, key)
    decreases |calls|
  {
    var before := calls[..|calls| - 1];
    if Seen(before, key) then Created(before, key)
    else calls[|calls| - 1].now
  }

  lemma SeenStep(calls: seq<Call>, key: string)
    requires calls != []
    ensures Seen(calls, key) <==> Seen(calls[..|calls| - 1], key) || calls[|calls| - 1].key == key
  {
    var before := calls[..|calls| - 1];
    if Seen(before, key) {
      var i :| 0 <= i < |before| && before[i].key == key;
      assert calls[i].key == key;
    }
    if Seen(calls, key) {
      var i :| 0 <= i < |calls| && calls[i].key == key;
      assert i < |before| ==> before[i].key == key;
    }
  }

  predicate InBounds(l: Limits, b: Bucket) {
    0.0 <= b.tokens <= l.capacity as real
  }

  /** The tokens spent and left are covered by the initial ones and the refill since creation. */
  predicate Covered(l: Limits, b: Bucket, spent: nat, created: real) {
    spent as real + b.tokens <= l.capacity as real + l.rate * (b.last - created)
  }

  lemma RefillCovered(l: Limits, b: Bucket, now: real, spent: nat, created: real)
    requires l.Valid() && InBounds(l, b) && Covered(l, b, spent, created)
    ensures InBounds(l, Refilled(l, b, now)) && Covered(l, Refilled(l, b, now), spent, created)
    ensures Refilled(l, b, now).last >= b.last
  {
    if now > b.last {
      var e := now - b.last;
      assert e * l.rate >= 0.0;
      assert l.rate * (now - created) == l.rate * (b.last - created) + e * l.rate;
    }
  }

  lemma TakeCovered(l: Limits, b: Bucket, spent: nat, created: real)
    requires InBounds(l, b) && Covered(l, b, spent, created)
    ensures InBounds(l, Taken(b)) && Covered(l, Taken(b), spent + if Grants(b) then 1 else 0, created)
  {
  }

  /** In every run the tokens stay in bounds, and each key's spending is covered. */
  lemma {:induction false} AlwaysCovered(l: Limits, calls: seq<Call>, key: string)
    requires l.Valid()
    ensures key in After(l, calls) <==> Seen(calls, key)
    ensures Seen(calls, key) ==>
              && InBounds(l, After(l, calls)[key])
              && Covered(l, After(l, calls)[key], AllowedCount(l, calls, key), Created(calls, key))
    ensures !Seen(calls, key) ==> AllowedCount(l, calls, key) == 0
    decreases |calls|
  {
    if calls != [] {
      var before, c := calls[..|calls| - 1], calls[|calls| - 1];
      AlwaysCovered(l, before, key);
      SeenStep(calls, key);
      if c.key == key {
        var created := if Seen(before, key) then Created(before, key) else c.now;
        var b := Found(l, Lookup(After(l, before), key), c.now);
        var spent := AllowedCount(l, before, key);
        assert l.rate * (c.now - c.now) == 0.0;
        RefillCovered(l, b, c.now, spent, created);
        TakeCovered(l, Refilled(l, b, c.now), spent, created);
      }
    }
  }

  /** The limit a client sees: the capacity, and the refill over a span of time. */
  predicate WithinRate(l: Limits, allowed: nat, since: real, latest: real) {
    allowed as real <= l.capacity as real + l.rate * (latest - since)
  }

  lemma SpentBound(l: Limits, b: Bucket, spent: nat, created: real)
    requires InBounds(l, b) && Covered(l, b, spent, created)
    ensures WithinRate(l, spent, created, b.last)
  {
  }

  /** No key is ever allowed more often than its capacity and the refill up to its latest time. */
  lemma RateBound(l: Limits, calls: seq<Call>, key: string)
    requires l.Valid() && Seen(calls, key)
    ensures key in After(l, calls)
    ensures WithinRate(l, AllowedCount(l, calls, key), Created(calls, key), After(l, calls)[key].last)
  {
    AlwaysCovered(l, calls, key);
    SpentBound(l, After(l, calls)[key], AllowedCount(l, calls, key), Created(calls, key));
  }

  // ---------------------------------------------------------------- keys are independent

  function Only(calls: seq<Call>, key: string): seq<Call> {
    if calls == [] then []
    else Only(calls[..|calls| - 1], key) + if calls[|calls| - 1].key == key then [calls[|calls| - 1]] else []
  }

  lemma {:induction false} KeysIndependent(l: Limits, calls: seq<Call>, key: string)
    ensures Lookup(After(l, calls), key) == Lookup(After(l, Only(calls, key)), key)
    ensures AllowedCount(l, calls, key) == AllowedCount(l, Only(calls, key), key)
    decreases |calls|
  {
    if calls != [] {
      var before, c := calls[..|calls| - 1], calls[|calls| - 1];
      KeysIndependent(l, before, key);
      if c.key == key {
        var only := Only(calls, key);
        assert only[..|only| - 1] == Only(before, key) && only[|only| - 1] == c;
      } else {
        assert Only(calls, key) == Only(before, key);
      }
    }
  }

  // ---------------------------------------------------------------- waiting

  lemma WaitedTokens(rate: real, tokens: real, t: real)
    requires rate > 0.0
    ensures tokens + t * rate >= 1.0 <==> t >= Quotient(1.0 - tokens, rate)
  {
    var w := Quotient(1.0 - tokens, rate);
    if t >= w {
      assert (t - w) * rate >= 0.0;
      assert t * rate == w * rate + (t - w) * rate;
    } else {
      assert (w - t) * rate > 0.0;
      assert t * rate == w * rate - (w - t) * rate;
    }
  }

  /** A refused key left alone is allowed again exactly from its latest time plus the reported wait. */
  lemma WaitIsExact(l: Limits, b: Option<Bucket>, now: real, later: real)
    requires l.Valid()
    requires !Grants(Ready(l, b, now))
    ensures var refused := Ready(l, b, now);
            Grants(Ready(l, Some(Taken(refused)), later)) <==> later >= refused.last + Wait(l, refused)
  {
    var refused := Ready(l, b, now);
    WaitedTokens(l.rate, refused.tokens, later - refused.last);
    WaitIsPositive(l, refused);
    assert l.capacity as real >= 1.0;
    if later > refused.last {
      assert Ready(l, Some(refused), later).tokens ==
             Min(l.capacity as real, refused.tokens + (later - refused.last) * l.rate);
    }
  }

  lemma PositiveQuotient(a: real, b: real)
    requires a > 0.0 && b > 0.0
    ensures Quotient(a, b) > 0.0
  {
  }

  lemma WaitIsPositive(l: Limits, b: Bucket)
    requires l.Valid() && !Grants(b)
    ensures Wait(l, b) > 0.0
  {
    PositiveQuotient(1.0 - b.tokens, l.rate);
  }
}
