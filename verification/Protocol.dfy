/**
 * The control plane as a step system. API calls, workers, crashes, the clock and outside
 * changes to an interface interleave freely; each step is one statement or one commit.
 */
module Protocol {
  import opened Wrappers
  import opened Tables
  import opened Service
  import opened Outbox
  import opened Snapshot
  import NC = NodeConfigs
  import C = Config

  // ---------------------------------------------------------------- state

  /** An open transaction and what it has read so far. */
  datatype Tx =
    | CreateMissed(intent: Intent)
    | CreateReserved(intent: Intent, reservation: Reservation)
    | RevokeMissed(withdrawal: Withdrawal)

  /** Where a worker is. A worker without a job is reconciling a node on its own. */
  datatype Phase =
    | Claimed(job: Option<Id>, node: Id)
    | Read(job: Option<Id>, node: Id, rows: map<Id, Peer>)
    | Synced(job: Option<Id>, node: Id, rows: map<Id, Peer>)
    | Stuck(job: Option<Id>, node: Id)
    | ApplyDone(job: Option<Id>, node: Id)
    | Completed(finished: Id)
    | Failed(finished: Id, retryable: bool)

  /** One committed write. */
  datatype Entry = Entry(kind: Kind, operation: Id, job: Id, peer: Id, node: Id, key: IdemKey, hash: Request)

  datatype System = System(
    db: Db,
    now: int,
    ttl: int,
    txs: map<nat, Tx>,
    workers: map<nat, Phase>,
    runtime: map<string, Interface>,
    // History: the desired revision set by the transaction that inserted each job.
    stamp: map<Id, nat>,
    // History: the writes committed so far, in order.
    log: seq<Entry>,
    // History: interfaces changed from outside since they were last synced.
    drifted: set<string>)

  datatype Event =
    | BeginCreate(tx: nat, caller: Option<Principal>, slug: string, key: string, body: CreateBody)
    | ReservePool(tx: nat)
    | FinishCreate(tx: nat, grant: Grant)
    | BeginRevoke(tx: nat, caller: Option<Principal>, slug: string, key: string, peer: UuidText, reason: string)
    | FinishRevoke(tx: nat, operation: Id, job: Id)
    | Abort(tx: nat)
    | Tick(to: int)
    | ClaimJob(w: nat, job: Id, lease: int)
    | StartReconcile(w: nat, node: Id)
    | ReadRows(w: nat)
    | BringUp(w: nat, live: Interface)
    | SyncConf(w: nat, shown: string)
    | Persist(w: nat)
    | CompleteJob(w: nat)
    | MarkOpApplied(w: nat)
    | FailJob(w: nat, retryable: bool)
    | FailUnrecorded(w: nat, retryable: bool)
    | MarkOpFailed(w: nat)
    | Crash(w: nat)
    | Drift(iface: string, changed: Option<Interface>)

  // ---------------------------------------------------------------- steps

  predicate PoolUnlocked(txs: map<nat, Tx>, pool: Id) {
    forall t :: t in txs && txs[t].CreateReserved? ==> txs[t].reservation.pool != pool
  }

  /** Reconciling needs the node's own profile; without one only an empty node is fine. */
  function AfterRead(db: Db, job: Option<Id>, node: Id): Phase
    requires node in db.nodes
  {
    var rows := RowsOf(db.peers, node);
    var profile := db.nodes[node].profile;
    if profile.None? then (if rows == map[] then ApplyDone(job, node) else Stuck(job, node))
    else if profile.value !in db.profiles then Stuck(job, node)
    else Read(job, node, rows)
  }

  predicate HasProfile(db: Db, n: Id) {
    n in db.nodes && db.nodes[n].profile.Some? && db.nodes[n].profile.value in db.profiles
  }

  /** The config printed from the rows a worker has read. */
  ghost function Desired(db: Db, n: Id, rows: map<Id, Peer>): string
    requires HasProfile(db, n)
  {
    NC.ConfigOf(db.nodes[n].port, db.profiles[db.nodes[n].profile.value], rows)
  }

  predicate InApply(p: Phase) {
    p.Claimed? || p.Read? || p.Synced? || p.Stuck?
  }

  ghost predicate Enabled(s: System, e: Event) {
    match e
    case BeginCreate(tx, _, _, _, _) => tx !in s.txs
    case ReservePool(tx) =>
      && tx in s.txs && s.txs[tx].CreateMissed?
      && var r := Reserve(s.db, s.txs[tx].intent.node, s.txs[tx].intent.key.tenant);
         r.Ok? ==> PoolUnlocked(s.txs, r.value.pool)
    case FinishCreate(tx, g) => tx in s.txs && s.txs[tx].CreateReserved? && s.txs[tx].reservation.pool in s.db.pools && FreshIds(s.db, g)
    case BeginRevoke(tx, _, _, _, _, _) => tx !in s.txs
    case FinishRevoke(tx, o, j) =>
      tx in s.txs && s.txs[tx].RevokeMissed? && o !in s.db.operations && j !in s.db.outbox
    case Abort(tx) => tx in s.txs
    case Tick(to) => to >= s.now
    case ClaimJob(w, j, lease) => w !in s.workers && j in s.db.outbox && Claimable(s.db.outbox[j], s.now) && lease > 0
    case StartReconcile(w, node) => w !in s.workers && node in s.db.nodes
    case ReadRows(w) => w in s.workers && s.workers[w].Claimed? && s.workers[w].node in s.db.nodes
    case BringUp(w, _) =>
      w in s.workers && s.workers[w].Read? && s.workers[w].node in s.db.nodes
      && s.db.nodes[s.workers[w].node].iface !in s.runtime
    case SyncConf(w, _) =>
      w in s.workers && s.workers[w].Read? && HasProfile(s.db, s.workers[w].node)
      && s.db.nodes[s.workers[w].node].iface in s.runtime
    case Persist(w) => w in s.workers && s.workers[w].Synced?
    case CompleteJob(w) => w in s.workers && s.workers[w].ApplyDone? && s.workers[w].job.Some?
                           && s.workers[w].job.value in s.db.outbox
    case MarkOpApplied(w) => w in s.workers && s.workers[w].Completed?
                             && s.workers[w].finished in s.db.outbox
                             && s.db.outbox[s.workers[w].finished].operation in s.db.operations
    case FailJob(w, _) => w in s.workers && InApply(s.workers[w]) && s.workers[w].job.Some?
                          && s.workers[w].job.value in s.db.outbox
    case FailUnrecorded(w, _) => w in s.workers && InApply(s.workers[w]) && s.workers[w].job.Some?
    case MarkOpFailed(w) => w in s.workers && s.workers[w].Failed?
                            && s.workers[w].finished in s.db.outbox
                            && s.db.outbox[s.workers[w].finished].operation in s.db.operations
    case Crash(w) => w in s.workers
    case Drift(_, _) => true
  }

  /** What a step does to the rows: nothing, or one commit. A worker goes on when recording its failure has failed. */
  datatype Effect =
    | NoEffect
    | CreateEffect(intent: Intent, reservation: Reservation, grant: Grant)
    | RevokeEffect(withdrawal: Withdrawal, operation: Id, job: Id)
    | JobEffect(job: Id, row: Job)
    | OpEffect(operation: Id, op: Operation)
    | PersistEffect(rows: map<Id, Peer>)

  /** A transaction that fails has no effect; one that succeeds commits all its rows at once. */
  ghost function EffectOf(s: System, e: Event): Effect
    requires Enabled(s, e)
  {
    match e
    case FinishCreate(tx, g) =>
      var t := s.txs[tx];
      if CommitCreate(s.db, t.intent, t.reservation, g, s.now, s.ttl).Ok?
      then CreateEffect(t.intent, t.reservation, g) else NoEffect
    case FinishRevoke(tx, o, j) =>
      if CommitRevoke(s.db, s.txs[tx].withdrawal, o, j, s.now, s.ttl).Ok?
      then RevokeEffect(s.txs[tx].withdrawal, o, j) else NoEffect
    case ClaimJob(w, j, lease) => JobEffect(j, Claim(s.db.outbox[j], s.now, lease))
    case Persist(w) => PersistEffect(s.workers[w].rows)
    case CompleteJob(w) => JobEffect(s.workers[w].job.value, Complete(s.db.outbox[s.workers[w].job.value]))
    case FailJob(w, retryable) =>
      JobEffect(s.workers[w].job.value, Fail(s.db.outbox[s.workers[w].job.value], retryable))
    case MarkOpApplied(w) =>
      var o := s.db.outbox[s.workers[w].finished].operation;
      OpEffect(o, Outbox.OpApplied(s.db.operations[o]))
    case MarkOpFailed(w) =>
      var o := s.db.outbox[s.workers[w].finished].operation;
      OpEffect(o, OpFailed(s.db.operations[o], s.workers[w].retryable))
    case _ => NoEffect
  }

  predicate Applicable(db: Db, f: Effect) {
    match f
    case CreateEffect(i, r, g) => r.pool in db.pools
    case RevokeEffect(w, _, _) => w.peer in db.peers
    case _ => true
  }

  ghost function After(db: Db, f: Effect, now: int, ttl: int): Db
    requires Applicable(db, f)
  {
    match f
    case NoEffect => db
    case CreateEffect(i, r, g) => Created(db, i, r, g, now, ttl)
    case RevokeEffect(w, o, j) => WithRevoked(db, w, o, j, now, ttl)
    case JobEffect(j, row) => db.(outbox := db.outbox[j := row])
    case OpEffect(o, op) => db.(operations := db.operations[o := op])
    case PersistEffect(rows) => db.(peers := Persisted(db.peers, rows))
  }

  /** The desired revision the transaction sets is recorded for its job. */
  ghost function StampAfter(db: Db, stamp: map<Id, nat>, f: Effect): map<Id, nat>
    requires Applicable(db, f)
  {
    match f
    case CreateEffect(i, r, g) => stamp[g.job := NewPeer(i, r.address, g).desired]
    case RevokeEffect(w, _, j) => stamp[j := RevokedRow(db.peers[w.peer]).desired]
    case _ => stamp
  }

  /** The write an effect commits, if any. */
  function EntryOf(db: Db, f: Effect): Option<Entry>
    requires Applicable(db, f)
  {
    match f
    case CreateEffect(i, _, g) => Some(Entry(CreateKind, g.operation, g.job, g.peer, i.node, i.key, i.Hash()))
    case RevokeEffect(w, o, j) => Some(Entry(RevokeKind, o, j, w.peer, db.peers[w.peer].node, w.key, w.Hash()))
    case _ => None
  }

  function LogAfter(db: Db, log: seq<Entry>, f: Effect): seq<Entry>
    requires Applicable(db, f)
  {
    match EntryOf(db, f)
    case None => log
    case Some(en) => log + [en]
  }

  ghost function NextTxs(s: System, e: Event): map<nat, Tx>
    requires Enabled(s, e)
  {
    match e
    case BeginCreate(tx, caller, slug, key, body) =>
      (match ResolveCreate(s.db, caller, slug, key, body)
       case Err(_) => s.txs
       case Ok(i) => if Lookup(s.db, i.key, s.now).Some? then s.txs else s.txs[tx := CreateMissed(i)])
    case BeginRevoke(tx, caller, slug, key, peer, reason) =>
      (match ResolveRevoke(s.db, caller, slug, key, peer, reason)
       case Err(_) => s.txs
       case Ok(w) => if Lookup(s.db, w.key, s.now).Some? then s.txs else s.txs[tx := RevokeMissed(w)])
    case ReservePool(tx) =>
      (match Reserve(s.db, s.txs[tx].intent.node, s.txs[tx].intent.key.tenant)
       case Err(_) => s.txs - {tx}
       case Ok(r) => s.txs[tx := CreateReserved(s.txs[tx].intent, r)])
    case FinishCreate(tx, _) => s.txs - {tx}
    case FinishRevoke(tx, _, _) => s.txs - {tx}
    case Abort(tx) => s.txs - {tx}
    case _ => s.txs
  }

  ghost function NextWorkers(s: System, e: Event): map<nat, Phase>
    requires Enabled(s, e)
  {
    match e
    case ClaimJob(w, j, _) => s.workers[w := Claimed(Some(j), s.db.outbox[j].node)]
    case StartReconcile(w, node) => s.workers[w := Claimed(None, node)]
    case ReadRows(w) => s.workers[w := AfterRead(s.db, s.workers[w].job, s.workers[w].node)]
    case SyncConf(w, _) => s.workers[w := Synced(s.workers[w].job, s.workers[w].node, s.workers[w].rows)]
    case Persist(w) => s.workers[w := ApplyDone(s.workers[w].job, s.workers[w].node)]
    case CompleteJob(w) => s.workers[w := Completed(s.workers[w].job.value)]
    case FailJob(w, retryable) => s.workers[w := Failed(s.workers[w].job.value, retryable)]
    case FailUnrecorded(w, retryable) => s.workers[w := Failed(s.workers[w].job.value, retryable)]
    case MarkOpApplied(w) => s.workers - {w}
    case MarkOpFailed(w) => s.workers - {w}
    case Crash(w) => s.workers - {w}
    case _ => s.workers
  }

  ghost function NextRuntime(s: System, e: Event): map<string, Interface>
    requires Enabled(s, e)
  {
    match e
    case BringUp(w, live) => s.runtime[s.db.nodes[s.workers[w].node].iface := live]
    case SyncConf(w, shown) =>
      s.runtime[s.db.nodes[s.workers[w].node].iface :=
        Loaded(C.Preserve(Desired(s.db, s.workers[w].node, s.workers[w].rows), shown))]
    case Drift(iface, None) => s.runtime - {iface}
    case Drift(iface, Some(live)) => s.runtime[iface := live]
    case _ => s.runtime
  }

  ghost function NextDrifted(s: System, e: Event): set<string>
    requires Enabled(s, e)
  {
    match e
    case SyncConf(w, _) => s.drifted - {s.db.nodes[s.workers[w].node].iface}
    case Drift(iface, _) => s.drifted + {iface}
    case _ => s.drifted
  }

  ghost function Do(s: System, e: Event): System
    requires Enabled(s, e)
  {
    var f := EffectOf(s, e);
    EffectApplicable(s, e);
    System(After(s.db, f, s.now, s.ttl), if e.Tick? then e.to else s.now, s.ttl,
           NextTxs(s, e), NextWorkers(s, e), NextRuntime(s, e),
           StampAfter(s.db, s.stamp, f), LogAfter(s.db, s.log, f), NextDrifted(s, e))
  }

  lemma EffectApplicable(s: System, e: Event)
    requires Enabled(s, e)
    ensures Applicable(s.db, EffectOf(s, e))
  {
  }

  // ---------------------------------------------------------------- runs

  /** An installation before its first request: nodes, profiles and pools, but no peers or work. */
  predicate Init(s: System) {
    && s.db.peers == map[] && s.db.operations == map[] && s.db.outbox == map[]
    && s.db.idem == map[] && s.db.audit == []
    && s.txs == map[] && s.workers == map[] && s.stamp == map[] && s.log == [] && s.drifted == {}
    && s.ttl > 0
  }

  ghost predicate IsTrace(states: seq<System>, events: seq<Event>) {
    && |states| == |events| + 1
    && forall i {:trigger events[i]} ::
         0 <= i < |events| ==> Enabled(states[i], events[i]) && states[i + 1] == Do(states[i], events[i])
  }

  /** The events lead from one state to another. */
  ghost predicate Reaches(s: System, events: seq<Event>, t: System)
    decreases |events|
  {
    if events == [] then s == t else Enabled(s, events[0]) && Reaches(Do(s, events[0]), events[1..], t)
  }

  lemma ReachesOne(s: System, e: Event, t: System)
    requires Enabled(s, e) && t == Do(s, e)
    ensures Reaches(s, [e], t)
  {
    assert [e][1..] == [];
    assert Reaches(t, [], t);
  }

  lemma {:induction false} ReachesBoth(s: System, a: seq<Event>, t: System, b: seq<Event>, u: System)
    requires Reaches(s, a, t) && Reaches(t, b, u)
    ensures Reaches(s, a + b, u)
    decreases |a|
  {
    if a == [] {
      assert a + b == b;
    } else {
      ReachesBoth(Do(s, a[0]), a[1..], t, b, u);
      assert (a + b)[0] == a[0] && (a + b)[1..] == a[1..] + b;
    }
  }

  lemma {:induction false} ReachesTrace(s: System, events: seq<Event>, t: System) returns (states: seq<System>)
    requires Reaches(s, events, t)
    ensures IsTrace(states, events) && states[0] == s && states[|states| - 1] == t
    decreases |events|
  {
    if events == [] {
      states := [s];
    } else {
      var rest := ReachesTrace(Do(s, events[0]), events[1..], t);
      states := [s] + rest;
      TraceCons(s, events, rest);
    }
  }

  lemma TraceCons(s: System, events: seq<Event>, rest: seq<System>)
    requires events != [] && IsTrace(rest, events[1..]) && Enabled(s, events[0]) && rest[0] == Do(s, events[0])
    ensures IsTrace([s] + rest, events)
  {
    var states := [s] + rest;
    forall i {:trigger events[i]} | 0 <= i < |events|
      ensures Enabled(states[i], events[i]) && states[i + 1] == Do(states[i], events[i])
    {
      if i > 0 {
        assert events[1..][i - 1] == events[i];
      }
    }
  }
}
