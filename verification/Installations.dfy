/** A small installation, and requests that go through on it: what the counterexamples start from. */
module Installations {
  import opened Wrappers
  import opened Strings
  import opened Netip
  import opened Ipam
  import opened Keys
  import opened Profiles
  import opened Tables
  import opened Service
  import opened Protocol
  import opened Addresses
  import W = Writes

  // ---------------------------------------------------------------- the installation

  const TENANT: Id := 1
  const NODE: Id := 1
  const POOL: Id := 1
  const PROFILE: Id := 1
  const SLUG := "acme"
  const IFACE := "awg0"
  const PORT := 51820

  const NO_RANGE := IntRange(0, 0)

  const PLAIN_PROFILE := Profile(
    "plain", V1, 0, 0, 0, 0, 0, 0, 0, IntRange(1, 1), IntRange(2, 2), IntRange(3, 3), IntRange(4, 4), "", "", "", "", "", "",
    NO_RANGE, NO_RANGE, NO_RANGE, NO_RANGE, NO_RANGE, NO_RANGE, NO_RANGE, false, false, "")

  const ADMIN := Some(Principal({PlatformAdmin}, None))

  function EmptyDb(cidr: Prefix): Db {
    Db(map[SLUG := TENANT], map[NODE := Node("host", IFACE, PORT, Some(PROFILE), "")], map[PROFILE := PLAIN_PROFILE],
       map[POOL := Pool(TENANT, NODE, cidr, Invalid)], map[], map[], map[], map[], [])
  }

  /** One tenant, node, profile and pool, and the interface up without peers. */
  function Installed(cidr: Prefix): System {
    System(EmptyDb(cidr), 0, 3600, map[], map[], map[IFACE := map[]], map[], [], {})
  }

  /** The installation with whatever has been written since. */
  predicate Running(s: System, cidr: Prefix) {
    && s.db.tenants == map[SLUG := TENANT] && s.db.profiles == EmptyDb(cidr).profiles
    && NODE in s.db.nodes && s.db.nodes[NODE] == EmptyDb(cidr).nodes[NODE]
    && s.db.pools.Keys == {POOL}
    && s.db.pools[POOL] == Pool(TENANT, NODE, cidr, s.db.pools[POOL].cursor)
    && s.txs == map[] && s.workers == map[] && IFACE in s.runtime && s.drifted == {}
    && forall id :: id in s.db.peers ==> s.db.peers[id].tenant == TENANT && s.db.peers[id].node == NODE
  }

  const TWIN: Id := 2

  /** The installation with a second node that has the same interface name. */
  function WithTwin(cidr: Prefix): System {
    var s := Installed(cidr);
    s.(db := s.db.(nodes := s.db.nodes[TWIN := Node("twin", IFACE, PORT, Some(PROFILE), "")]))
  }

  lemma InstalledRuns(cidr: Prefix)
    ensures Init(Installed(cidr)) && Running(Installed(cidr), cidr)
    ensures Init(WithTwin(cidr)) && Running(WithTwin(cidr), cidr)
  {
  }

  // ---------------------------------------------------------------- requests

  /** A key text, one for each character of the alphabet. */
  function KeyText(c: char): string {
    seq(KEY_TEXT_LENGTH - 1, i => c) + "="
  }

  lemma KeyTextIs(c: char)
    requires IsBase64Digit(c)
    ensures Encodes32Bytes(KeyText(c)) && KeyText(c)[0] == c
  {
  }

  function Body(name: string, displayName: string): CreateBody {
    CreateBody(name, displayName, Some(Uuid("1", NODE)), None, None, None, None)
  }

  function CreateRequestFor(name: string, displayName: string): Event {
    BeginCreate(0, ADMIN, SLUG, name, Body(name, displayName))
  }

  function IntentFor(name: string, displayName: string): Intent {
    Intent(IdemKey(TENANT, name), SLUG, Body(name, displayName), NODE, PROFILE, "")
  }

  function GrantFor(id: Id, c: char): Grant {
    Grant(id, id, id, KeyText(c), KeyText(c), KeyText(c), "")
  }

  lemma CreateResolves(s: System, cidr: Prefix, name: string, displayName: string)
    requires Running(s, cidr) && TrimSpace(name) != "" && name != ""
    ensures ResolveCreate(s.db, ADMIN, SLUG, name, Body(name, displayName)) == Ok(IntentFor(name, displayName))
  {
    assert PlatformAdmin in ADMIN.value.roles * {PlatformAdmin, TenantAdmin, AutomationClient};
  }

  lemma PoolIs(s: System, cidr: Prefix)
    requires Running(s, cidr)
    ensures IsPoolFor(s.db.pools, NODE, TENANT, POOL)
  {
  }

  /** The request is new: its ids, key, name and keys. */
  predicate New(s: System, name: string, id: Id, c: char) {
    && FreshIds(s.db, GrantFor(id, c)) && IdemKey(TENANT, name) !in s.db.idem
    && forall p :: p in s.db.peers ==> s.db.peers[p].externalId != name && s.db.peers[p].publicKey != KeyText(c)
  }

  /** A new request goes through as long as the pool has an unused address and no row is revoked. */
  lemma CreateReserves(s: System, cidr: Prefix, name: string, displayName: string, id: Id, c: char) returns (r: Reservation)
    requires Running(s, cidr) && ValidPrefix(cidr) && New(s, name, id, c) && SomeUnused(s.db, NODE, POOL)
    requires forall p :: p in s.db.peers ==> !s.db.peers[p].state.Revoked?
    ensures Reserve(s.db, NODE, TENANT) == Ok(r) && r.pool == POOL
    ensures IsUsable(Masked(cidr), r.address) && r.address !in Used(s.db, NODE, cidr)
    ensures !Clashes(s.db.peers, NewPeer(IntentFor(name, displayName), r.address, GrantFor(id, c)))
  {
    var q := s.db.pools[POOL];
    PoolIs(s, cidr);
    ReserveFrom(s.db, NODE, TENANT, POOL);
    ExhaustedIff(q.cidr, q.cursor, Used(s.db, NODE, cidr));
    AllocatedIsFirstFree(q.cidr, q.cursor, Used(s.db, NODE, cidr));
    r := Reserve(s.db, NODE, TENANT).value;
    ClashIsRevokedAddress(s.db, IntentFor(name, displayName), GrantFor(id, c), r.address, cidr);
  }

  /** What a create that went through leaves, as far as it matters here. */
  ghost predicate CreatedOne(s: System, t: System, cidr: Prefix, name: string, displayName: string, id: Id, c: char, a: Addr) {
    && ValidPrefix(cidr) && Running(t, cidr) && t.db.nodes == s.db.nodes && t.now == s.now && t.runtime == s.runtime
    && IsUsable(Masked(cidr), a) && a !in Used(s.db, NODE, cidr)
    && t.db.peers == s.db.peers[id := NewPeer(IntentFor(name, displayName), a, GrantFor(id, c))]
    && t.db.outbox.Keys == s.db.outbox.Keys + {id} && t.db.operations.Keys == s.db.operations.Keys + {id}
    && t.db.outbox[id] == Job(id, NODE, id, CreateKind, Waiting, 0, 0, s.now)
    && t.db.idem.Keys == s.db.idem.Keys + {IdemKey(TENANT, name)}
  }

  lemma CreateOn(s: System, cidr: Prefix, name: string, displayName: string, id: Id, c: char)
    returns (events: seq<Event>, t: System, a: Addr)
    requires Running(s, cidr) && ValidPrefix(cidr) && TrimSpace(name) != "" && name != "" && New(s, name, id, c)
    requires SomeUnused(s.db, NODE, POOL) && forall p :: p in s.db.peers ==> !s.db.peers[p].state.Revoked?
    ensures Reaches(s, events, t) && forall e :: e in events ==> W.OfRequest(e)
    ensures forall e :: e in events ==>
              (e.BeginCreate? ==> e.body.displayName == displayName) && (e.FinishCreate? ==> e.grant == GrantFor(id, c))
    ensures CreatedOne(s, t, cidr, name, displayName, id, c, a)
  {
    CreateResolves(s, cidr, name, displayName);
    var r := CreateReserves(s, cidr, name, displayName, id, c);
    a := r.address;
    events, t := W.CreateIsARun(s, CreateRequestFor(name, displayName), GrantFor(id, c));
    CreateLeaves(s, t, cidr, name, displayName, id, c, r);
  }

  lemma CreateLeaves(s: System, t: System, cidr: Prefix, name: string, displayName: string, id: Id, c: char, r: Reservation)
    requires Running(s, cidr) && ValidPrefix(cidr) && r.pool == POOL && W.SameAround(s, t)
    requires IsUsable(Masked(cidr), r.address) && r.address !in Used(s.db, NODE, cidr)
    requires t.db == Created(s.db, IntentFor(name, displayName), r, GrantFor(id, c), s.now, s.ttl)
    ensures CreatedOne(s, t, cidr, name, displayName, id, c, r.address)
  {
  }

  /** After a first create another one, with other names and ids, is new. */
  lemma SecondIsNew(s: System, t: System, cidr: Prefix, name: string, displayName: string, id: Id, c: char, a: Addr,
                    name': string, id': Id, c': char)
    requires CreatedOne(s, t, cidr, name, displayName, id, c, a) && New(s, name', id', c')
    requires name' != name && id' != id && c' != c && IsBase64Digit(c) && IsBase64Digit(c')
    ensures New(t, name', id', c')
  {
    KeyTextIs(c);
    KeyTextIs(c');
  }

  // ---------------------------------------------------------------- revoking

  lemma RevokeResolves(s: System, cidr: Prefix, key: string, peer: Id)
    requires Running(s, cidr) && key != ""
    ensures ResolveRevoke(s.db, ADMIN, SLUG, key, Uuid("", peer), "") == Ok(Withdrawal(IdemKey(TENANT, key), peer, ""))
  {
    assert PlatformAdmin in ADMIN.value.roles * {PlatformAdmin, TenantAdmin, AutomationClient};
  }

  lemma RevokeLeaves(s: System, t: System, cidr: Prefix, w: Withdrawal, id: Id)
    requires Running(s, cidr) && w.peer in s.db.peers && W.SameAround(s, t)
    requires t.db == WithRevoked(s.db, w, id, id, s.now, s.ttl)
    ensures Running(t, cidr)
    ensures t.db.peers == s.db.peers[w.peer := RevokedRow(s.db.peers[w.peer])] && t.db.pools == s.db.pools
  {
  }

  lemma RevokeOn(s: System, cidr: Prefix, key: string, peer: Id, id: Id) returns (events: seq<Event>, t: System)
    requires Running(s, cidr) && key != "" && peer in s.db.peers && IdemKey(TENANT, key) !in s.db.idem
    requires id !in s.db.operations && id !in s.db.outbox
    ensures Reaches(s, events, t) && forall e :: e in events ==> W.OfRequest(e)
    ensures Running(t, cidr) && t.runtime == s.runtime
    ensures t.db.peers == s.db.peers[peer := RevokedRow(s.db.peers[peer])] && t.db.pools == s.db.pools
  {
    RevokeResolves(s, cidr, key, peer);
    events, t := W.RevokeIsARun(s, BeginRevoke(0, ADMIN, SLUG, key, Uuid("", peer), ""), id, id);
    RevokeLeaves(s, t, cidr, Withdrawal(IdemKey(TENANT, key), peer, ""), id);
  }
}
