/** The rows of the control plane's database. */
module Tables {
  import opened Wrappers
  import opened Netip
  import opened Profiles

  /** A UUID. */
  type Id = nat

  // ---------------------------------------------------------------- desired state

  datatype PeerState = Pending | Active | Revoked

  datatype Peer = Peer(
    tenant: Id, node: Id, profile: Id,
    externalId: string, displayName: string,
    publicKey: string, presharedKey: Option<string>, allowedIp: Addr,
    state: PeerState, desired: nat, applied: nat)

  datatype Node = Node(hostname: string, iface: string, port: int, profile: Option<Id>, serverPublicKey: string)

  datatype Pool = Pool(tenant: Id, node: Id, cidr: Prefix, cursor: Addr)

  // ---------------------------------------------------------------- requests

  datatype UuidText = Malformed(text: string) | Uuid(text: string, id: Id)

  datatype CreateBody = CreateBody(
    externalId: string, displayName: string,
    nodeId: Option<UuidText>, profileId: Option<UuidText>, profileName: Option<string>,
    publicKey: Option<string>, expiresAt: Option<int>)

  /**
   * What a request hash is taken over. The two shapes never encode to the same JSON,
   * and the hash is taken to be injective, so the value stands for its own hash.
   */
  datatype Request =
    | CreateRequest(slug: string, body: CreateBody)
    | RevokeRequest(tenant: Id, peer: Id, reason: string)

  // ---------------------------------------------------------------- work and bookkeeping

  datatype Kind = CreateKind | RevokeKind

  datatype OpStatus = OpPending | OpApplied | OpFailedTerminal | OpFailedRetryable

  datatype Operation = Operation(tenant: Id, peer: Id, node: Id, kind: Kind, hash: Request, status: OpStatus)

  datatype JobStatus = Waiting | Leased | Applied | FailedTerminal | FailedRetryable

  datatype Job = Job(
    operation: Id, node: Id, peer: Id, kind: Kind,
    status: JobStatus, leasedUntil: int, attempts: nat, createdAt: int)

  datatype CreateResponse = CreateResponse(
    operation: Id, peer: Id, status: OpStatus, allowedIp: Addr, publicKey: string,
    privateKey: string, clientConfig: string, presharedKey: string, node: Id, profile: Id)

  datatype Stored = StoredCreate(response: CreateResponse) | StoredRevoke(operation: Id)

  datatype Record = Record(operation: Id, hash: Request, status: int, body: Stored, expiresAt: int)

  /** The primary key of the idempotency table: a tenant and the caller's key. */
  datatype IdemKey = IdemKey(tenant: Id, key: string)

  datatype AuditEvent = AuditEvent(action: Kind, target: Id, key: IdemKey)

  datatype Db = Db(
    tenants: map<string, Id>,
    nodes: map<Id, Node>,
    profiles: map<Id, Profile>,
    pools: map<Id, Pool>,
    peers: map<Id, Peer>,
    operations: map<Id, Operation>,
    outbox: map<Id, Job>,
    idem: map<IdemKey, Record>,
    audit: seq<AuditEvent>)
}
