/** The write service: pre-checks, idempotency lookup, and the two transactions as functions of the rows. */
module Service {
  import opened Wrappers
  import opened Strings
  import opened Netip
  import opened Ipam
  import opened Keys
  import opened Profiles
  import opened Tables
  import opened Nodes

  const ACCEPTED := 202

  datatype Error =
    | Required(field: string)
    | NotFound
    | Unauthorized
    | Forbidden
    | BadUuid(field: string)
    | ProfileUnassigned
    | ProfileMismatch(field: string)
    | InvalidKey
    | IdempotencyConflict
    | NoPool
    | BadPool
    | PoolExhausted
    | PeerExists
    | KeyTaken

  // ---------------------------------------------------------------- who may write

  datatype Role = PlatformAdmin | TenantAdmin | SupportReadOnly | AutomationClient | NodeAgent

  datatype Principal = Principal(roles: set<Role>, tenant: Option<Id>)

  predicate MayWrite(caller: Option<Principal>, tenant: Id) {
    && caller.Some?
    && caller.value.roles * {PlatformAdmin, TenantAdmin, AutomationClient} != {}
    && (PlatformAdmin in caller.value.roles || caller.value.tenant == Some(tenant))
  }

  function AuthorizeTenant(caller: Option<Principal>, tenant: Id): Option<Error> {
    if caller.None? then Some(Unauthorized)
    else if MayWrite(caller, tenant) then None
    else Some(Forbidden)
  }

  // ---------------------------------------------------------------- pre-checks of a create

  /** A create request that passed the checks made before the transaction. */
  datatype Intent = Intent(key: IdemKey, slug: string, body: CreateBody, node: Id, profile: Id, publicKey: string) {
    function Hash(): Request {
      CreateRequest(slug, body)
    }
  }

  /** Per-peer profile selectors are only assertions about the node's own profile. */
  function ValidateRequestedProfile(id: Id, profile: Profile, body: CreateBody): Option<Error> {
    if body.profileId.Some? && body.profileId.value.Malformed? then Some(BadUuid("profile_id"))
    else if body.profileId.Some? && body.profileId.value.id != id then Some(ProfileMismatch("profile_id"))
    else if body.profileName.Some? && TrimSpace(body.profileName.value) != profile.name
    then Some(ProfileMismatch("profile_name"))
    else None
  }

  ghost function ResolveNode(db: Db, body: CreateBody): Result<Id, Error> {
    match body.nodeId
    case None => (match PickFirst(db) case None => Err(NotFound) case Some(id) => Ok(id))
    case Some(Malformed(_)) => Err(BadUuid("node_id"))
    case Some(Uuid(_, id)) => if id in db.nodes then Ok(id) else Err(NotFound)
  }

  ghost function ResolveCreate(db: Db, caller: Option<Principal>, slug: string, key: string, body: CreateBody)
    : Result<Intent, Error>
  {
    if TrimSpace(body.externalId) == "" then Err(Required("external_id"))
    else if key == "" then Err(Required("idempotency-key"))
    else if slug !in db.tenants then Err(NotFound)
    else if AuthorizeTenant(caller, db.tenants[slug]).Some? then Err(AuthorizeTenant(caller, db.tenants[slug]).value)
    else
      match ResolveNode(db, body)
      case Err(e) => Err(e)
      case Ok(node) =>
        match db.nodes[node].profile
        case None => Err(ProfileUnassigned)
        case Some(profile) =>
          if profile !in db.profiles then Err(NotFound)
          else if ValidateRequestedProfile(profile, db.profiles[profile], body).Some?
          then Err(ValidateRequestedProfile(profile, db.profiles[profile], body).value)
          else
            var supplied := if body.publicKey.Some? then body.publicKey.value else "";
            if supplied != "" && !ValidateKey(supplied) then Err(InvalidKey)
            else Ok(Intent(IdemKey(db.tenants[slug], key), slug, body, node, profile, supplied))
  }

  // ---------------------------------------------------------------- idempotency

  /** Expired records are not seen, though the row stays. */
  function Lookup(db: Db, k: IdemKey, now: int): Option<Record> {
    if k in db.idem && db.idem[k].expiresAt > now then Some(db.idem[k]) else None
  }

  // ---------------------------------------------------------------- reserving an address

  predicate PoolMatches(pool: Pool, node: Id, tenant: Id) {
    pool.node == node && pool.tenant == tenant
  }

  /** ORDER BY id LIMIT 1 over the node's and tenant's pools. */
  predicate IsPoolFor(pools: map<Id, Pool>, node: Id, tenant: Id, id: Id) {
    && id in pools && PoolMatches(pools[id], node, tenant)
    && forall other :: other in pools && PoolMatches(pools[other], node, tenant) ==> id <= other
  }

  /** The address the node's own interface takes inside an IPv4 pool. */
  function GatewayAddress(pool: Prefix): Option<Addr> {
    if !ValidPrefix(pool) || !pool.addr.family.V4? || pool.bits >= 31 then None
    else
      var a := Next(Masked(pool).addr);
      if !Contains(Masked(pool), a) then None else Some(a)
  }

  /** The address bootstrap gives the node: base + 1 of an IPv4 pool, when the pool holds it. */
  function ServerAddressFromPool(pool: Prefix): Option<Addr> {
    if !ValidPrefix(pool) || !pool.addr.family.V4? then None
    else
      var a := Next(Masked(pool).addr);
      if !Contains(Masked(pool), a) then None else Some(a)
  }

  /** Addresses of the node's peers that are not revoked, of every tenant, and the gateway. */
  function Used(db: Db, node: Id, cidr: Prefix): set<Addr> {
    (set id | id in db.peers && db.peers[id].node == node && !db.peers[id].state.Revoked? :: db.peers[id].allowedIp)
    + (match GatewayAddress(cidr) case None => {} case Some(g) => {g})
  }

  datatype Reservation = Reservation(pool: Id, address: Addr, next: Addr)

  ghost function Reserve(db: Db, node: Id, tenant: Id): (r: Result<Reservation, Error>)
    ensures r.Ok? ==> IsPoolFor(db.pools, node, tenant, r.value.pool)
  {
    if p :| IsPoolFor(db.pools, node, tenant, p) then
      match AllocationOf(db.pools[p].cidr, db.pools[p].cursor, Used(db, node, db.pools[p].cidr))
      case Allocated(a, next) => Ok(Reservation(p, a, next))
      case Exhausted => Err(PoolExhausted)
      case InvalidPool => Err(BadPool)
    else Err(NoPool)
  }

  // ---------------------------------------------------------------- the create transaction

  /** What a create draws from outside: row ids, generated keys and the rendered client config. */
  datatype Grant = Grant(
    peer: Id, operation: Id, job: Id,
    publicKey: string, privateKey: string, presharedKey: string, clientConfig: string)

  predicate FreshIds(db: Db, g: Grant) {
    g.peer !in db.peers && g.operation !in db.operations && g.job !in db.outbox
  }

  function NewPeer(i: Intent, address: Addr, g: Grant): Peer {
    Peer(i.key.tenant, i.node, i.profile, i.body.externalId, i.body.displayName,
         if i.publicKey == "" then g.publicKey else i.publicKey, Some(g.presharedKey), address,
         Pending, 1, 0)
  }

  /** The three unique constraints of the peers table, over all rows, revoked or not. */
  predicate SameUnique(a: Peer, b: Peer) {
    || (a.tenant == b.tenant && a.externalId == b.externalId)
    || (a.node == b.node && a.allowedIp == b.allowedIp)
    || (a.node == b.node && a.publicKey == b.publicKey)
  }

  predicate Clashes(peers: map<Id, Peer>, p: Peer) {
    exists id :: id in peers && SameUnique(peers[id], p)
  }

  function Response(i: Intent, r: Reservation, g: Grant): CreateResponse {
    CreateResponse(g.operation, g.peer, OpPending, r.address, NewPeer(i, r.address, g).publicKey,
                   if i.publicKey == "" then g.privateKey else "", g.clientConfig, g.presharedKey, i.node, i.profile)
  }

  /** The stored copy of a response carries no secret. */
  function Sanitized(r: CreateResponse): CreateResponse {
    r.(privateKey := "", clientConfig := "", presharedKey := "")
  }

  function Created(db: Db, i: Intent, r: Reservation, g: Grant, now: int, ttl: int): Db
    requires r.pool in db.pools
  {
    db.(pools := db.pools[r.pool := db.pools[r.pool].(cursor := r.next)],
        peers := db.peers[g.peer := NewPeer(i, r.address, g)],
        operations := db.operations[g.operation :=
          Operation(i.key.tenant, g.peer, i.node, CreateKind, i.Hash(), OpPending)],
        outbox := db.outbox[g.job := Job(g.operation, i.node, g.peer, CreateKind, Waiting, 0, 0, now)],
        idem := db.idem[i.key :=
          Record(g.operation, i.Hash(), ACCEPTED, StoredCreate(Sanitized(Response(i, r, g))), now + ttl)],
        audit := db.audit + [AuditEvent(CreateKind, g.peer, i.key)])
  }

  /** The inserts of a create, against the rows committed by then. */
  function CommitCreate(db: Db, i: Intent, r: Reservation, g: Grant, now: int, ttl: int): Result<Db, Error>
    requires r.pool in db.pools
  {
    if Clashes(db.peers, NewPeer(i, r.address, g)) then Err(PeerExists)
    else if i.key in db.idem then Err(KeyTaken)
    else Ok(Created(db, i, r, g, now, ttl))
  }

  // ---------------------------------------------------------------- the revoke transaction

  datatype Withdrawal = Withdrawal(key: IdemKey, peer: Id, reason: string) {
    function Hash(): Request {
      RevokeRequest(key.tenant, peer, reason)
    }
  }

  function ResolveRevoke(db: Db, caller: Option<Principal>, slug: string, key: string, peer: UuidText, reason: string)
    : Result<Withdrawal, Error>
  {
    if key == "" then Err(Required("idempotency-key"))
    else if slug !in db.tenants then Err(NotFound)
    else if AuthorizeTenant(caller, db.tenants[slug]).Some? then Err(AuthorizeTenant(caller, db.tenants[slug]).value)
    else if peer.Malformed? then Err(BadUuid("peer_id"))
    else
      var tenant := db.tenants[slug];
      Ok(Withdrawal(IdemKey(tenant, key), peer.id, reason))
  }

  /** The row update of a revoke; it also applies to a row already revoked. */
  function RevokedRow(p: Peer): Peer {
    p.(state := Revoked, desired := p.desired + 1)
  }

  function WithRevoked(db: Db, w: Withdrawal, operation: Id, job: Id, now: int, ttl: int): Db
    requires w.peer in db.peers
  {
    var p := db.peers[w.peer];
    db.(peers := db.peers[w.peer := RevokedRow(p)],
        operations := db.operations[operation :=
          Operation(w.key.tenant, w.peer, p.node, RevokeKind, w.Hash(), OpPending)],
        outbox := db.outbox[job := Job(operation, p.node, w.peer, RevokeKind, Waiting, 0, 0, now)],
        idem := db.idem[w.key := Record(operation, w.Hash(), ACCEPTED, StoredRevoke(operation), now + ttl)],
        audit := db.audit + [AuditEvent(RevokeKind, w.peer, w.key)])
  }

  /** The row is marked before its tenant is compared; a mismatch rolls the mark back. */
  function CommitRevoke(db: Db, w: Withdrawal, operation: Id, job: Id, now: int, ttl: int): Result<Db, Error> {
    if w.peer !in db.peers then Err(NotFound)
    else if db.peers[w.peer].tenant != w.key.tenant then Err(NotFound)
    else if w.key in db.idem then Err(KeyTaken)
    else Ok(WithRevoked(db, w, operation, job, now, ttl))
  }
}
