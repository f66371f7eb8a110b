/** The write service over the tables: transactions that roll back, replays, and the two requests. */
module Writes {
  import opened Wrappers
  import opened Strings
  import opened Keys
  import opened Tables
  import opened Nodes
  import opened Service
  import opened Protocol
  import opened Database

  /** What a create returns: a fresh response with its secrets, or the stored copy. */
  datatype Created = Fresh(status: int, response: CreateResponse) | Replayed(status: int, body: Stored)

  // ---------------------------------------------------------------- what the calls mean

  /** A create on its own: the reply, and the rows afterwards. */
  ghost function CreateOutcome(db: Db, caller: Option<Principal>, slug: string, key: string, body: CreateBody,
                               now: int, ttl: int, g: Grant): (Result<Created, Error>, Db)
  {
    match ResolveCreate(db, caller, slug, key, body)
    case Err(e) => (Err(e), db)
    case Ok(i) =>
      match Lookup(db, i.key, now)
      case Some(rec) =>
        (if rec.hash != i.Hash() then Err(IdempotencyConflict) else Ok(Replayed(rec.status, rec.body)), db)
      case None => InsertOutcome(db, i, now, ttl, g)
  }

  ghost function InsertOutcome(db: Db, i: Intent, now: int, ttl: int, g: Grant): (Result<Created, Error>, Db) {
    match Reserve(db, i.node, i.key.tenant)
    case Err(e) => (Err(e), db)
    case Ok(r) =>
      match CommitCreate(db, i, r, g, now, ttl)
      case Err(e) => (Err(e), db)
      case Ok(db') => (Ok(Fresh(ACCEPTED, Response(i, r, g))), db')
  }

  function RevokeOutcome(db: Db, caller: Option<Principal>, slug: string, key: string, peer: UuidText, reason: string,
                         now: int, ttl: int, operation: Id, job: Id): (Result<Id, Error>, Db)
  {
    match ResolveRevoke(db, caller, slug, key, peer, reason)
    case Err(e) => (Err(e), db)
    case Ok(w) =>
      match Lookup(db, w.key, now)
      case Some(rec) => (if rec.hash != w.Hash() then Err(IdempotencyConflict) else Ok(rec.operation), db)
      case None =>
        match CommitRevoke(db, w, operation, job, now, ttl)
        case Err(e) => (Err(e), db)
        case Ok(db') => (Ok(operation), db')
  }

  // ---------------------------------------------------------------- the checks before the transaction

  method ResolveTarget(db: Store, body: CreateBody) returns (r: Result<Id, Error>)
    requires UniqueHostnames(db.rows)
    ensures r == ResolveNode(db.rows, body)
  {
    match body.nodeId {
      case None =>
        var first := db.FirstNode();
        if first.None? {
          return Err(NotFound);
        }
        return Ok(first.value);
      case Some(Malformed(_)) =>
        return Err(BadUuid("node_id"));
      case Some(Uuid(_, id)) =>
        if id !in db.rows.nodes {
          return Err(NotFound);
        }
        return Ok(id);
    }
  }

  method CheckCreate(db: Store, caller: Option<Principal>, slug: string, key: string, body: CreateBody)
    returns (r: Result<Intent, Error>)
    requires UniqueHostnames(db.rows)
    ensures r == ResolveCreate(db.rows, caller, slug, key, body)
  {
    if TrimSpace(body.externalId) == "" {
      return Err(Required("external_id"));
    }
    if key == "" {
      return Err(Required("idempotency-key"));
    }
    if slug !in db.rows.tenants {
      return Err(NotFound);
    }
    var tenant := db.rows.tenants[slug];
    var refused := AuthorizeTenant(caller, tenant);
    if refused.Some? {
      return Err(refused.value);
    }
    var target := ResolveTarget(db, body);
    if target.Err? {
      return Err(target.error);
    }
    var node := db.rows.nodes[target.value];
    if node.profile.None? {
      return Err(ProfileUnassigned);
    }
    if node.profile.value !in db.rows.profiles {
      return Err(NotFound);
    }
    var mismatch := ValidateRequestedProfile(node.profile.value, db.rows.profiles[node.profile.value], body);
    if mismatch.Some? {
      return Err(mismatch.value);
    }
    var supplied := if body.publicKey.Some? then body.publicKey.value else "";
    if supplied != "" && !ValidateKey(supplied) {
      return Err(InvalidKey);
    }
    return Ok(Intent(IdemKey(tenant, key), slug, body, target.value, node.profile.value, supplied));
  }

  // ---------------------------------------------------------------- the transactions

  /** The statements of a create after a miss; an error leaves the rows half changed. */
  method InsertPeer(db: Store, i: Intent, now: int, ttl: int, g: Grant) returns (r: Result<CreateResponse, Error>)
    requires HugePoolsHaveRoom(db.rows)
    modifies db`rows
    ensures var outcome := InsertOutcome(old(db.rows), i, now, ttl, g);
            && (r.Ok? ==> outcome == (Ok(Fresh(ACCEPTED, r.value)), db.rows))
            && (r.Err? ==> outcome == (Err(r.error), old(db.rows)))
  {
    var reserved := db.AllocateAndInsert(i, g);
    if reserved.Err? {
      return Err(reserved.error);
    }
    var q := reserved.value;
    db.InsertOperation(g.operation, Operation(i.key.tenant, g.peer, i.node, CreateKind, i.Hash(), OpPending));
    db.InsertJob(g.job, Job(g.operation, i.node, g.peer, CreateKind, Waiting, 0, 0, now));
    db.AppendAudit(AuditEvent(CreateKind, g.peer, i.key));
    var resp := Response(i, q, g);
    var safe := resp.(privateKey := "", clientConfig := "", presharedKey := "");
    var stored := db.StoreRecord(i.key, Record(g.operation, i.Hash(), ACCEPTED, StoredCreate(safe), now + ttl));
    if !stored {
      return Err(KeyTaken);
    }
    r := Ok(resp);
  }

  /** CreatePeer: a failing call leaves every table as it was, and so does a replay. */
  method CreatePeer(db: Store, caller: Option<Principal>, slug: string, key: string, body: CreateBody,
                    now: int, ttl: int, g: Grant) returns (r: Result<Created, Error>)
    requires UniqueHostnames(db.rows) && HugePoolsHaveRoom(db.rows)
    modifies db`rows
    ensures (r, db.rows) == CreateOutcome(old(db.rows), caller, slug, key, body, now, ttl, g)
    ensures r.Err? || r.value.Replayed? ==> db.rows == old(db.rows)
  {
    var checked := CheckCreate(db, caller, slug, key, body);
    if checked.Err? {
      return Err(checked.error);
    }
    var i := checked.value;
    var saved := db.rows;
    var rec := Lookup(db.rows, i.key, now);
    if rec.Some? {
      if rec.value.hash != i.Hash() {
        return Err(IdempotencyConflict);
      }
      return Ok(Replayed(rec.value.status, rec.value.body));
    }
    var inserted := InsertPeer(db, i, now, ttl, g);
    if inserted.Err? {
      db.rows := saved;
      return Err(inserted.error);
    }
    r := Ok(Fresh(ACCEPTED, inserted.value));
  }

  /** The statements of a revoke after a miss; the row is marked before its tenant is compared. */
  method MarkAndRecord(db: Store, w: Withdrawal, now: int, ttl: int, operation: Id, job: Id) returns (err: Option<Error>)
    modifies db`rows
    ensures err.None? ==> CommitRevoke(old(db.rows), w, operation, job, now, ttl) == Ok(db.rows)
    ensures err.Some? ==> CommitRevoke(old(db.rows), w, operation, job, now, ttl) == Err(err.value)
  {
    var marked := db.MarkRevoked(w.peer);
    if marked.Err? {
      return Some(marked.error);
    }
    var peer := marked.value;
    if peer.tenant != w.key.tenant {
      return Some(NotFound);
    }
    db.InsertOperation(operation, Operation(w.key.tenant, w.peer, peer.node, RevokeKind, w.Hash(), OpPending));
    db.InsertJob(job, Job(operation, peer.node, w.peer, RevokeKind, Waiting, 0, 0, now));
    db.AppendAudit(AuditEvent(RevokeKind, w.peer, w.key));
    var stored := db.StoreRecord(w.key, Record(operation, w.Hash(), ACCEPTED, StoredRevoke(operation), now + ttl));
    if !stored {
      return Some(KeyTaken);
    }
    err := None;
  }

  /** RevokePeer: the mark on another tenant's row is rolled back with everything else. */
  method RevokePeer(db: Store, caller: Option<Principal>, slug: string, key: string, peer: UuidText, reason: string,
                    now: int, ttl: int, operation: Id, job: Id) returns (r: Result<Id, Error>)
    modifies db`rows
    ensures (r, db.rows) == RevokeOutcome(old(db.rows), caller, slug, key, peer, reason, now, ttl, operation, job)
    ensures r.Err? ==> db.rows == old(db.rows)
  {
    var resolved := ResolveRevoke(db.rows, caller, slug, key, peer, reason);
    if resolved.Err? {
      return Err(resolved.error);
    }
    var w := resolved.value;
    var saved := db.rows;
    var rec := Lookup(db.rows, w.key, now);
    if rec.Some? {
      if rec.value.hash != w.Hash() {
        return Err(IdempotencyConflict);
      }
      return Ok(rec.value.operation);
    }
    var err := MarkAndRecord(db, w, now, ttl, operation, job);
    if err.Some? {
      db.rows := saved;
      return Err(err.value);
    }
    r := Ok(operation);
  }

  // ---------------------------------------------------------------- the calls as runs of steps

  /** Apart from the rows and the history nothing has changed. */
  predicate SameAround(s: System, t: System) {
    && t.txs == s.txs && t.workers == s.workers && t.runtime == s.runtime && t.drifted == s.drifted
    && t.now == s.now && t.ttl == s.ttl
  }

  /** A step of a request, not of a worker. */
  predicate OfRequest(e: Event) {
    e.BeginCreate? || e.ReservePool? || e.FinishCreate? || e.BeginRevoke? || e.FinishRevoke?
  }

  lemma BeginStep(s: System, begin: Event)
    requires begin.BeginCreate? && begin.tx !in s.txs
    ensures Enabled(s, begin)
    ensures var resolved := ResolveCreate(s.db, begin.caller, begin.slug, begin.key, begin.body);
            Do(s, begin) == if resolved.Ok? && Lookup(s.db, resolved.value.key, s.now).None?
                            then s.(txs := s.txs[begin.tx := CreateMissed(resolved.value)]) else s
  {
  }

  lemma ReserveStep(s: System, tx: nat, i: Intent)
    requires tx in s.txs && s.txs[tx] == CreateMissed(i)
    requires forall t :: t in s.txs ==> !s.txs[t].CreateReserved?
    ensures Enabled(s, ReservePool(tx))
    ensures var r := Reserve(s.db, i.node, i.key.tenant);
            Do(s, ReservePool(tx)) == if r.Ok? then s.(txs := s.txs[tx := CreateReserved(i, r.value)]) else s.(txs := s.txs - {tx})
  {
  }

  lemma FinishStep(s: System, tx: nat, i: Intent, r: Reservation, g: Grant)
    requires tx in s.txs && s.txs[tx] == CreateReserved(i, r) && r.pool in s.db.pools && FreshIds(s.db, g)
    ensures Enabled(s, FinishCreate(tx, g))
    ensures var c := CommitCreate(s.db, i, r, g, s.now, s.ttl);
            Do(s, FinishCreate(tx, g)).db == if c.Ok? then c.value else s.db
    ensures SameAround(s.(txs := s.txs - {tx}), Do(s, FinishCreate(tx, g)))
  {
  }

  /** A create call is a run of at most three steps of the protocol, with the rows the call leaves. */
  lemma CreateIsARun(s: System, begin: Event, g: Grant) returns (events: seq<Event>, t: System)
    requires begin.BeginCreate? && begin.tx !in s.txs && FreshIds(s.db, g)
    requires forall t :: t in s.txs ==> !s.txs[t].CreateReserved?
    ensures Reaches(s, events, t) && |events| <= 3 && forall e :: e in events ==> OfRequest(e)
    ensures t.db == CreateOutcome(s.db, begin.caller, begin.slug, begin.key, begin.body, s.now, s.ttl, g).1
    ensures SameAround(s, t)
    ensures forall e :: e in events ==> (e.BeginCreate? ==> e == begin) && (e.FinishCreate? ==> e.grant == g)
  {
    var tx := begin.tx;
    var resolved := ResolveCreate(s.db, begin.caller, begin.slug, begin.key, begin.body);
    BeginStep(s, begin);
    t := Do(s, begin);
    events := [begin];
    ReachesOne(s, begin, t);
    if resolved.Ok? && Lookup(s.db, resolved.value.key, s.now).None? {
      var more;
      more, t := InsertIsARun(t, tx, resolved.value, g);
      Closed(s.txs, tx, CreateMissed(resolved.value));
      ReachesBoth(s, [begin], Do(s, begin), more, t);
      events := [begin] + more;
    }
  }

  lemma Closed(txs: map<nat, Tx>, tx: nat, t: Tx)
    requires tx !in txs
    ensures txs[tx := t] - {tx} == txs
  {
  }

  lemma InsertIsARun(s: System, tx: nat, i: Intent, g: Grant) returns (events: seq<Event>, t: System)
    requires tx in s.txs && s.txs[tx] == CreateMissed(i) && FreshIds(s.db, g)
    requires forall t :: t in s.txs ==> !s.txs[t].CreateReserved?
    ensures Reaches(s, events, t) && |events| <= 2 && forall e :: e in events ==> OfRequest(e)
    ensures t.db == InsertOutcome(s.db, i, s.now, s.ttl, g).1
    ensures forall e :: e in events ==> !e.BeginCreate? && (e.FinishCreate? ==> e.grant == g)
    ensures SameAround(s.(txs := s.txs - {tx}), t)
  {
    ReserveStep(s, tx, i);
    t := Do(s, ReservePool(tx));
    events := [ReservePool(tx)];
    ReachesOne(s, ReservePool(tx), t);
    var reserved := Reserve(s.db, i.node, i.key.tenant);
    if reserved.Ok? {
      var s1 := t;
      FinishStep(s1, tx, i, reserved.value, g);
      assert s.txs[tx := CreateReserved(i, reserved.value)] - {tx} == s.txs - {tx};
      t := Do(s1, FinishCreate(tx, g));
      ReachesOne(s1, FinishCreate(tx, g), t);
      ReachesBoth(s, [ReservePool(tx)], s1, [FinishCreate(tx, g)], t);
      events := [ReservePool(tx)] + [FinishCreate(tx, g)];
    }
  }

  lemma BeginRevokeStep(s: System, begin: Event)
    requires begin.BeginRevoke? && begin.tx !in s.txs
    ensures Enabled(s, begin)
    ensures var resolved := ResolveRevoke(s.db, begin.caller, begin.slug, begin.key, begin.peer, begin.reason);
            Do(s, begin) == if resolved.Ok? && Lookup(s.db, resolved.value.key, s.now).None?
                            then s.(txs := s.txs[begin.tx := RevokeMissed(resolved.value)]) else s
  {
  }

  lemma FinishRevokeStep(s: System, tx: nat, w: Withdrawal, operation: Id, job: Id)
    requires tx in s.txs && s.txs[tx] == RevokeMissed(w) && operation !in s.db.operations && job !in s.db.outbox
    ensures Enabled(s, FinishRevoke(tx, operation, job))
    ensures var c := CommitRevoke(s.db, w, operation, job, s.now, s.ttl);
            Do(s, FinishRevoke(tx, operation, job)).db == if c.Ok? then c.value else s.db
    ensures SameAround(s.(txs := s.txs - {tx}), Do(s, FinishRevoke(tx, operation, job)))
  {
  }

  /** A revoke call is a run of at most two steps. */
  lemma RevokeIsARun(s: System, begin: Event, operation: Id, job: Id) returns (events: seq<Event>, t: System)
    requires begin.BeginRevoke? && begin.tx !in s.txs && operation !in s.db.operations && job !in s.db.outbox
    ensures Reaches(s, events, t) && |events| <= 2 && forall e :: e in events ==> OfRequest(e)
    ensures t.db ==
            RevokeOutcome(s.db, begin.caller, begin.slug, begin.key, begin.peer, begin.reason, s.now, s.ttl, operation, job).1
    ensures SameAround(s, t)
  {
    var tx := begin.tx;
    var resolved := ResolveRevoke(s.db, begin.caller, begin.slug, begin.key, begin.peer, begin.reason);
    BeginRevokeStep(s, begin);
    t := Do(s, begin);
    events := [begin];
    ReachesOne(s, begin, t);
    if resolved.Ok? && Lookup(s.db, resolved.value.key, s.now).None? {
      var s1 := t;
      FinishRevokeStep(s1, tx, resolved.value, operation, job);
      Closed(s.txs, tx, RevokeMissed(resolved.value));
      t := Do(s1, FinishRevoke(tx, operation, job));
      ReachesOne(s1, FinishRevoke(tx, operation, job), t);
      ReachesBoth(s, [begin], s1, [FinishRevoke(tx, operation, job)], t);
      events := [begin] + [FinishRevoke(tx, operation, job)];
    }
  }
}
