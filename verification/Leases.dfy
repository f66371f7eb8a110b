/** Lease discipline over every run. */
module Leases {
  import opened Wrappers
  import opened Tables
  import opened Outbox
  import opened Protocol

  predicate Claims(e: Event, j: Id) {
    e.ClaimJob? && e.job == j
  }

  /** A worker reports job j failed and retryable. */
  predicate FailsRetryable(s: System, e: Event, j: Id) {
    e.FailJob? && e.retryable && e.w in s.workers && InApply(s.workers[e.w]) && s.workers[e.w].job == Some(j)
  }

  // ---------------------------------------------------------------- what a step does to one job

  /** A job row: none yet, or the part of it that claims look at. */
  datatype Slot = NoJob | JobRow(status: JobStatus, leasedUntil: int, attempts: nat)

  function SlotOf(db: Db, j: Id): Slot {
    if j in db.outbox then JobRow(db.outbox[j].status, db.outbox[j].leasedUntil, db.outbox[j].attempts) else NoJob
  }

  /** Neither claimed nor failed for retry. */
  predicate QuietMove(a: Slot, b: Slot) {
    || a == b
    || (a.NoJob? && b == JobRow(Waiting, 0, 0))
    || (a.JobRow? && b.JobRow? && (b == a.(status := Applied) || b == a.(status := FailedTerminal)))
  }

  /** Apart from claims and retryable failures a job only becomes applied or terminally failed, if it changes at all. */
  lemma SlotStep(s: System, e: Event, j: Id)
    requires Enabled(s, e)
    ensures SlotMoves(s, e, j, SlotOf(Do(s, e).db, j))
  {
    EffectApplicable(s, e);
    var f := EffectOf(s, e);
    if f.CreateEffect? {
      assert e.FinishCreate? && e.grant.job !in s.db.outbox;
    } else if f.RevokeEffect? {
      assert e.FinishRevoke? && e.job !in s.db.outbox;
    }
  }

  /** What a step may do to a job. */
  predicate SlotMoves(s: System, e: Event, j: Id, b: Slot) {
    var a := SlotOf(s.db, j);
    if Claims(e, j) then
      && a.JobRow? && Claimable(s.db.outbox[j], s.now)
      && b == JobRow(Leased, s.now + e.lease, a.attempts + 1)
    else if FailsRetryable(s, e, j) then
      a.JobRow? && b == a.(status := FailedRetryable)
    else QuietMove(a, b)
  }

  lemma SlotNext(states: seq<System>, events: seq<Event>, i: nat, j: Id)
    requires IsTrace(states, events) && i < |events|
    ensures SlotMoves(states[i], events[i], j, SlotOf(states[i + 1].db, j))
  {
    SlotStep(states[i], events[i], j);
  }

  lemma QuietNext(states: seq<System>, events: seq<Event>, i: nat, j: Id)
    requires IsTrace(states, events) && i < |events|
    requires !Claims(events[i], j) && !FailsRetryable(states[i], events[i], j)
    ensures QuietMove(SlotOf(states[i].db, j), SlotOf(states[i + 1].db, j))
  {
    SlotNext(states, events, i, j);
  }

  // ---------------------------------------------------------------- attempts count claims

  /** Claims of j among the first n steps. */
  function ClaimCount(events: seq<Event>, n: nat, j: Id): nat
    requires n <= |events|
  {
    if n == 0 then 0 else ClaimCount(events, n - 1, j) + (if Claims(events[n - 1], j) then 1 else 0)
  }

  function Attempts(slot: Slot): nat {
    match slot
    case JobRow(_, _, attempts) => attempts
    case NoJob => 0
  }

  lemma AttemptsNext(states: seq<System>, events: seq<Event>, i: nat, j: Id)
    requires IsTrace(states, events) && i < |events|
    ensures Attempts(SlotOf(states[i + 1].db, j)) == Attempts(SlotOf(states[i].db, j)) + if Claims(events[i], j) then 1 else 0
  {
    SlotNext(states, events, i, j);
  }

  lemma {:induction false} CountUp(attempts: seq<nat>, events: seq<Event>, n: nat, j: Id)
    requires n <= |events| == |attempts| - 1 && attempts[0] == 0
    requires forall i :: 0 <= i < |events| ==> attempts[i + 1] == attempts[i] + if Claims(events[i], j) then 1 else 0
    ensures attempts[n] == ClaimCount(events, n, j)
  {
    if n > 0 {
      CountUp(attempts, events, n - 1, j);
      assert attempts[n - 1 + 1] == attempts[n - 1] + if Claims(events[n - 1], j) then 1 else 0;
    }
  }

  function AttemptsAlong(states: seq<System>, j: Id): (attempts: seq<nat>)
    ensures |attempts| == |states| && forall i :: 0 <= i < |states| ==> attempts[i] == Attempts(SlotOf(states[i].db, j))
  {
    seq(|states|, i requires 0 <= i < |states| => Attempts(SlotOf(states[i].db, j)))
  }

  /** In every state of every run the attempts of a job are the claims made of it. */
  lemma AttemptsAreClaims(states: seq<System>, events: seq<Event>, n: nat, j: Id)
    requires IsTrace(states, events) && Init(states[0]) && n <= |events|
    ensures Attempts(SlotOf(states[n].db, j)) == ClaimCount(events, n, j)
  {
    var attempts := AttemptsAlong(states, j);
    forall i | 0 <= i < |events|
      ensures attempts[i + 1] == attempts[i] + if Claims(events[i], j) then 1 else 0
    {
      AttemptsNext(states, events, i, j);
    }
    CountUp(attempts, events, n, j);
  }

  // ---------------------------------------------------------------- between two claims

  /** Since the claim at `from` the job is still leased until then, or was reported finished. */
  predicate HeldSince(slot: Slot, until: int) {
    slot.JobRow? && slot.leasedUntil == until && (slot.status.Leased? || slot.status.Applied? || slot.status.FailedTerminal?)
  }

  predicate QuietAt(slots: seq<Slot>, m: nat)
    requires m + 1 < |slots|
  {
    QuietMove(slots[m], slots[m + 1])
  }

  /** Quiet moves keep a job held. */
  lemma {:induction false} HeldThrough(slots: seq<Slot>, until: int)
    requires slots != [] && HeldSince(slots[0], until)
    requires forall m: nat :: m + 1 < |slots| ==> QuietAt(slots, m)
    ensures HeldSince(slots[|slots| - 1], until)
  {
    if |slots| > 1 {
      var before := slots[..|slots| - 1];
      forall m: nat | m + 1 < |before|
        ensures QuietAt(before, m)
      {
        assert QuietAt(slots, m);
      }
      HeldThrough(before, until);
      assert QuietAt(slots, |slots| - 2);
    }
  }

  function SlotsFrom(states: seq<System>, j: Id, i: nat, k: nat): (slots: seq<Slot>)
    requires i <= k < |states|
    ensures |slots| == k - i + 1 && forall m :: 0 <= m < |slots| ==> slots[m] == SlotOf(states[i + m].db, j)
  {
    seq(k - i + 1, m requires 0 <= m <= k - i => SlotOf(states[i + m].db, j))
  }

  lemma ClaimHolds(states: seq<System>, events: seq<Event>, i: nat, j: Id)
    requires IsTrace(states, events) && i < |events| && Claims(events[i], j)
    ensures j in states[i].db.outbox && Claimable(states[i].db.outbox[j], states[i].now)
    ensures HeldSince(SlotOf(states[i + 1].db, j), states[i].now + events[i].lease)
  {
    SlotNext(states, events, i, j);
  }

  /** Step m neither claims the job nor fails it for retry. */
  predicate Undisturbed(states: seq<System>, events: seq<Event>, m: nat, j: Id)
    requires m < |events| < |states|
  {
    !Claims(events[m], j) && !FailsRetryable(states[m], events[m], j)
  }

  lemma QuietHere(states: seq<System>, events: seq<Event>, i: nat, k: nat, m: nat, j: Id)
    requires IsTrace(states, events) && i + 1 + m < k <= |events| && Undisturbed(states, events, i + 1 + m, j)
    ensures QuietAt(SlotsFrom(states, j, i + 1, k), m)
  {
    QuietNext(states, events, i + 1 + m, j);
  }

  lemma QuietBetween(states: seq<System>, events: seq<Event>, i: nat, k: nat, j: Id)
    requires IsTrace(states, events) && i < k <= |events|
    requires forall m :: i < m < k ==> Undisturbed(states, events, m, j)
    ensures var slots := SlotsFrom(states, j, i + 1, k);
            forall m: nat :: m + 1 < |slots| ==> QuietAt(slots, m)
  {
    var slots := SlotsFrom(states, j, i + 1, k);
    forall m: nat | m + 1 < |slots|
      ensures QuietAt(slots, m)
    {
      QuietHere(states, events, i, k, m, j);
    }
  }

  lemma HeldBetween(states: seq<System>, i: nat, k: nat, j: Id, until: int)
    requires i < k < |states| && HeldSince(SlotOf(states[i + 1].db, j), until)
    requires var slots := SlotsFrom(states, j, i + 1, k);
             forall m: nat :: m + 1 < |slots| ==> QuietAt(slots, m)
    ensures HeldSince(SlotOf(states[k].db, j), until)
  {
    HeldThrough(SlotsFrom(states, j, i + 1, k), until);
  }

  lemma HeldOrLate(db: Db, j: Id, until: int, now: int)
    requires j in db.outbox && Claimable(db.outbox[j], now) && HeldSince(SlotOf(db, j), until)
    ensures now > until
  {
  }

  /**
   * Between two successive claims of one job lies more than the full lease, or a retryable
   * failure reported on that job.
   */
  lemma LeaseDiscipline(states: seq<System>, events: seq<Event>, i: nat, k: nat, j: Id)
    requires IsTrace(states, events) && i < k < |events|
    requires Claims(events[i], j) && Claims(events[k], j)
    requires forall m :: i < m < k ==> !Claims(events[m], j)
    ensures || states[k].now > states[i].now + events[i].lease
            || exists m :: i < m < k && FailsRetryable(states[m], events[m], j)
  {
    if forall m :: i < m < k ==> !FailsRetryable(states[m], events[m], j) {
      ClaimHolds(states, events, i, j);
      assert forall m :: i < m < k ==> Undisturbed(states, events, m, j);
      QuietBetween(states, events, i, k, j);
      HeldBetween(states, i, k, j, states[i].now + events[i].lease);
      ClaimHolds(states, events, k, j);
      HeldOrLate(states[k].db, j, states[i].now + events[i].lease, states[k].now);
    }
  }
}
