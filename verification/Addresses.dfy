/** Address allocation over whole histories of creates and revokes. */
module Addresses {
  import opened Wrappers
  import opened Netip
  import opened HostBytes
  import opened Ring
  import opened Ipam
  import opened Tables
  import opened Service
  import opened Protocol
  import opened Agreement

  // ---------------------------------------------------------------- gateway and server address

  /** What is reserved for the node is what bootstrap gives it, except in a /31. */
  lemma GatewayIsServerAddress(pool: Prefix)
    requires ValidPrefix(pool)
    ensures GatewayAddress(pool) == ServerAddressFromPool(pool) <==> !(pool.addr.family.V4? && pool.bits == 31)
    ensures pool.addr.family.V4? && pool.bits < 31 ==> ServerAddressFromPool(pool).Some?
  {
    var p := Masked(pool);
    MaskedInterval(p);
    if pool.addr.family.V4? {
      if pool.bits < 31 {
        SizeAtLeast(p);
      } else if pool.bits == 31 {
        assert Size(p) == 2;
        assert Contains(p, Next(p.addr));
      } else {
        assert Size(p) == 1;
      }
    }
  }

  /** An address a peer of this pool may hold. */
  predicate AddressOk(cidr: Prefix, a: Addr) {
    && ValidPrefix(cidr)
    && IsUsable(Masked(cidr), a)
    && (cidr.addr.family.V4? && cidr.bits < 31 ==> ServerAddressFromPool(cidr) != Some(a))
  }

  /** Pools keep everything but their cursor. */
  predicate SamePools(a: map<Id, Pool>, b: map<Id, Pool>) {
    a.Keys == b.Keys && forall p :: p in a ==> b[p] == a[p].(cursor := b[p].cursor)
  }

  predicate InOwnPool(pools: map<Id, Pool>, p: Peer, q: Id) {
    IsPoolFor(pools, p.node, p.tenant, q) && AddressOk(pools[q].cidr, p.allowedIp)
  }

  ghost predicate AddressesOk(db: Db) {
    forall id :: id in db.peers ==> exists q :: InOwnPool(db.pools, db.peers[id], q)
  }

  predicate ReservedOk(pools: map<Id, Pool>, t: Tx) {
    t.CreateReserved? ==>
      && IsPoolFor(pools, t.intent.node, t.intent.key.tenant, t.reservation.pool)
      && AddressOk(pools[t.reservation.pool].cidr, t.reservation.address)
  }

  predicate TxsOk(pools: map<Id, Pool>, txs: map<nat, Tx>) {
    forall t :: t in txs ==> ReservedOk(pools, txs[t])
  }

  ghost predicate AddressInv(s: System) {
    Unique(s.db.peers) && AddressesOk(s.db) && TxsOk(s.db.pools, s.txs)
  }

  /** A reservation is a usable address outside the gateway, from the first pool of node and tenant. */
  lemma ReserveIsOk(db: Db, node: Id, tenant: Id)
    requires Reserve(db, node, tenant).Ok?
    ensures var r := Reserve(db, node, tenant).value;
            && IsPoolFor(db.pools, node, tenant, r.pool)
            && AddressOk(db.pools[r.pool].cidr, r.address)
            && r.address !in Used(db, node, db.pools[r.pool].cidr)
            && AllocationOf(db.pools[r.pool].cidr, db.pools[r.pool].cursor, Used(db, node, db.pools[r.pool].cidr))
               == Allocated(r.address, r.next)
  {
    var r := Reserve(db, node, tenant).value;
    var pool := db.pools[r.pool];
    var used := Used(db, node, pool.cidr);
    AllocatedIsFirstFree(pool.cidr, pool.cursor, used);
    GatewayIsServerAddress(pool.cidr);
  }

  lemma SamePoolFor(a: map<Id, Pool>, b: map<Id, Pool>, node: Id, tenant: Id, q: Id)
    requires SamePools(a, b) && IsPoolFor(a, node, tenant, q)
    ensures IsPoolFor(b, node, tenant, q) && b[q].cidr == a[q].cidr
  {
  }

  lemma PoolsKept(s: System, e: Event)
    requires Enabled(s, e)
    ensures SamePools(s.db.pools, Do(s, e).db.pools)
  {
    EffectApplicable(s, e);
  }

  lemma TxsKept(s: System, e: Event)
    requires TxsOk(s.db.pools, s.txs) && Enabled(s, e) && SamePools(s.db.pools, Do(s, e).db.pools)
    ensures TxsOk(Do(s, e).db.pools, Do(s, e).txs)
  {
    var pools' := Do(s, e).db.pools;
    forall t | t in NextTxs(s, e)
      ensures ReservedOk(pools', NextTxs(s, e)[t])
    {
      if t in s.txs && NextTxs(s, e)[t] == s.txs[t] {
        TxKept(s.db.pools, pools', s.txs[t]);
      } else if e.ReservePool? && t == e.tx {
        ReserveIsOk(s.db, s.txs[t].intent.node, s.txs[t].intent.key.tenant);
        TxKept(s.db.pools, pools', NextTxs(s, e)[t]);
      }
    }
  }

  lemma TxKept(a: map<Id, Pool>, b: map<Id, Pool>, t: Tx)
    requires SamePools(a, b) && ReservedOk(a, t)
    ensures ReservedOk(b, t)
  {
    if t.CreateReserved? {
      SamePoolFor(a, b, t.intent.node, t.intent.key.tenant, t.reservation.pool);
    }
  }

  lemma AddressesKept(s: System, e: Event)
    requires AddressInv(s) && Enabled(s, e)
    ensures AddressesOk(Do(s, e).db)
  {
    EffectApplicable(s, e);
    var f := EffectOf(s, e);
    if f.CreateEffect? {
      assert ReservedOk(s.db.pools, s.txs[e.tx]);
    }
    AddressesAfter(s.db, f, s.now, s.ttl);
  }

  lemma AddressesAfter(db: Db, f: Effect, now: int, ttl: int)
    requires AddressesOk(db) && Applicable(db, f)
    requires f.CreateEffect? ==> f.grant.peer !in db.peers && ReservedOk(db.pools, CreateReserved(f.intent, f.reservation))
    ensures AddressesOk(After(db, f, now, ttl))
  {
    var db' := After(db, f, now, ttl);
    assert SamePools(db.pools, db'.pools);
    forall id | id in db'.peers
      ensures exists q :: InOwnPool(db'.pools, db'.peers[id], q)
    {
      if id in db.peers {
        OldAddress(db, db', id);
      } else {
        SamePoolFor(db.pools, db'.pools, f.intent.node, f.intent.key.tenant, f.reservation.pool);
        assert InOwnPool(db'.pools, db'.peers[id], f.reservation.pool);
      }
    }
  }

  lemma OldAddress(db: Db, db': Db, id: Id)
    requires AddressesOk(db) && SamePools(db.pools, db'.pools) && id in db.peers && id in db'.peers
    requires var p, p' := db.peers[id], db'.peers[id];
             p'.node == p.node && p'.tenant == p.tenant && p'.allowedIp == p.allowedIp
    ensures exists q :: InOwnPool(db'.pools, db'.peers[id], q)
  {
    var p := db.peers[id];
    var q :| InOwnPool(db.pools, p, q);
    SamePoolFor(db.pools, db'.pools, p.node, p.tenant, q);
    assert InOwnPool(db'.pools, db'.peers[id], q);
  }

  lemma AddressNext(states: seq<System>, events: seq<Event>, i: nat)
    requires IsTrace(states, events) && i < |events| && AddressInv(states[i])
    ensures AddressInv(states[i + 1])
  {
    UniqueStep(states[i], events[i]);
    PoolsKept(states[i], events[i]);
    TxsKept(states[i], events[i]);
    AddressesKept(states[i], events[i]);
  }

  lemma AddressAlong(states: seq<System>, events: seq<Event>)
    requires IsTrace(states, events) && Init(states[0])
    ensures forall i :: 0 <= i < |states| ==> AddressInv(states[i])
  {
    var k := 0;
    while k < |events|
      invariant 0 <= k <= |events|
      invariant forall i :: 0 <= i <= k ==> AddressInv(states[i])
    {
      AddressNext(states, events, k);
      k := k + 1;
    }
  }

  /**
   * In every reachable state two rows of a node never share an address, and every row holds a
   * usable address of its pool; in an IPv4 pool shorter than /31 never the node's own.
   */
  lemma AddressesAreSound(states: seq<System>, events: seq<Event>, i: nat, a: Id, b: Id)
    requires IsTrace(states, events) && Init(states[0]) && i < |states|
    requires a in states[i].db.peers && b in states[i].db.peers
    ensures a != b && states[i].db.peers[a].node == states[i].db.peers[b].node ==>
              states[i].db.peers[a].allowedIp != states[i].db.peers[b].allowedIp
    ensures exists q :: InOwnPool(states[i].db.pools, states[i].db.peers[a], q)
  {
    AddressAlong(states, events);
    assert AddressInv(states[i]);
    assert SameUnique(states[i].db.peers[a], states[i].db.peers[b]) ==> a == b;
  }

  // ---------------------------------------------------------------- when allocation succeeds

  /** Reserving and inserting in one go, with nothing in between. */
  ghost function AllocateAndInsert(db: Db, i: Intent, g: Grant): Result<Reservation, Error> {
    match Reserve(db, i.node, i.key.tenant)
    case Err(e) => Err(e)
    case Ok(r) => if Clashes(db.peers, NewPeer(i, r.address, g)) then Err(PeerExists) else Ok(r)
  }

  /** External id and public key clash with no row. */
  predicate FreshNames(db: Db, i: Intent, g: Grant) {
    forall id :: id in db.peers ==>
      && !(db.peers[id].tenant == i.key.tenant && db.peers[id].externalId == i.body.externalId)
      && !(db.peers[id].node == i.node
           && db.peers[id].publicKey == if i.publicKey == "" then g.publicKey else i.publicKey)
  }

  /** Addresses still held by revoked rows of the node. */
  function RevokedAddresses(db: Db, node: Id): set<Addr> {
    set id | id in db.peers && db.peers[id].node == node && db.peers[id].state.Revoked? :: db.peers[id].allowedIp
  }

  ghost predicate SomeUnused(db: Db, node: Id, pool: Id)
    requires pool in db.pools
  {
    && ValidPrefix(db.pools[pool].cidr)
    && exists a :: IsUsable(Masked(db.pools[pool].cidr), a) && a !in Used(db, node, db.pools[pool].cidr)
  }

  /** The first unused address from the cursor is one a revoked row still holds. */
  predicate Stuck(db: Db, pool: Id)
    requires pool in db.pools
  {
    var q := db.pools[pool];
    var r := AllocationOf(q.cidr, q.cursor, Used(db, q.node, q.cidr));
    r.Allocated? && r.address in RevokedAddresses(db, q.node)
  }

  lemma ReserveFrom(db: Db, node: Id, tenant: Id, pool: Id)
    requires IsPoolFor(db.pools, node, tenant, pool)
    ensures Reserve(db, node, tenant) ==
            match AllocationOf(db.pools[pool].cidr, db.pools[pool].cursor, Used(db, node, db.pools[pool].cidr))
            case Allocated(a, next) => Ok(Reservation(pool, a, next))
            case Exhausted => Err(PoolExhausted)
            case InvalidPool => Err(BadPool)
  {
    assert forall p :: IsPoolFor(db.pools, node, tenant, p) ==> p == pool;
  }

  /** With fresh names only the address can clash, and only with a revoked row. */
  lemma ClashIsRevokedAddress(db: Db, i: Intent, g: Grant, a: Addr, cidr: Prefix)
    requires FreshNames(db, i, g) && a !in Used(db, i.node, cidr)
    ensures Clashes(db.peers, NewPeer(i, a, g)) <==> a in RevokedAddresses(db, i.node)
  {
    var p := NewPeer(i, a, g);
    assert forall id :: id in db.peers && db.peers[id].node == i.node && !db.peers[id].state.Revoked? ==>
        db.peers[id].allowedIp in Used(db, i.node, cidr);
  }

  /**
   * A create with fresh names gets an address exactly when some usable address is unused and the
   * first one from the cursor is not still held by a revoked row; otherwise the error says which.
   */
  lemma AllocationSucceedsIff(db: Db, i: Intent, g: Grant, pool: Id)
    requires IsPoolFor(db.pools, i.node, i.key.tenant, pool) && FreshNames(db, i, g)
    ensures AllocateAndInsert(db, i, g).Ok? <==> SomeUnused(db, i.node, pool) && !Stuck(db, pool)
    ensures ValidPrefix(db.pools[pool].cidr) && !SomeUnused(db, i.node, pool) ==>
              AllocateAndInsert(db, i, g) == Err(PoolExhausted)
    ensures Stuck(db, pool) ==> AllocateAndInsert(db, i, g) == Err(PeerExists)
  {
    var q := db.pools[pool];
    var used := Used(db, i.node, q.cidr);
    var r := AllocationOf(q.cidr, q.cursor, used);
    ReserveFrom(db, i.node, i.key.tenant, pool);
    if ValidPrefix(q.cidr) {
      ExhaustedIff(q.cidr, q.cursor, used);
    }
    if r.Allocated? {
      AllocatedIsFirstFree(q.cidr, q.cursor, used);
      ClashIsRevokedAddress(db, i, g, r.address, q.cidr);
    }
  }

  // ---------------------------------------------------------------- a stuck pool stays stuck

  /** Fewer reservations, all given up by holders: the first free host is still a held one. */
  lemma StillHeld(h: Hosts, cursor: Addr, used: set<Addr>, used': set<Addr>, held: set<Addr>)
    requires h.Valid() && AllocateIn(h, cursor, used).Allocated?
    requires AllocateIn(h, cursor, used).address in held && AllocateIn(h, cursor, used).address !in used'
    requires forall x :: x in used ==> x in used' || x in held
    ensures AllocateIn(h, cursor, used').Allocated? && AllocateIn(h, cursor, used').address in held
  {
    var v := Start(h, cursor);
    h.FirstFreeIs(v, 0, used);
    h.FirstFreeIs(v, 0, used');
    var k := h.FirstFree(v, 0, used).value;
    assert h.Host(h.At(v, k)) !in used';
  }

  /** Once every usable address has been issued, a single revoke is enough to be stuck. */
  lemma FullThenRevokedIsStuck(db: Db, pool: Id)
    requires pool in db.pools && SomeUnused(db, db.pools[pool].node, pool)
    requires forall a :: IsUsable(Masked(db.pools[pool].cidr), a) ==>
               a in Used(db, db.pools[pool].node, db.pools[pool].cidr) || a in RevokedAddresses(db, db.pools[pool].node)
    ensures Stuck(db, pool)
  {
    var q := db.pools[pool];
    var used := Used(db, q.node, q.cidr);
    ExhaustedIff(q.cidr, q.cursor, used);
    AllocatedIsFirstFree(q.cidr, q.cursor, used);
  }

  predicate RowsStay(a: map<Id, Peer>, b: map<Id, Peer>) {
    forall id :: id in a ==>
      && id in b && b[id].node == a[id].node && b[id].allowedIp == a[id].allowedIp
      && (a[id].state.Revoked? ==> b[id].state.Revoked?)
  }

  /** Addresses leave the used set only by becoming revoked ones, and revoked ones are for good. */
  lemma UsedOrRevoked(db: Db, db': Db, node: Id, cidr: Prefix)
    requires RowsStay(db.peers, db'.peers)
    ensures RevokedAddresses(db, node) <= RevokedAddresses(db', node)
    ensures forall x :: x in Used(db, node, cidr) ==> x in Used(db', node, cidr) || x in RevokedAddresses(db', node)
  {
    forall x | x in Used(db, node, cidr)
      ensures x in Used(db', node, cidr) || x in RevokedAddresses(db', node)
    {
      if id :| id in db.peers && db.peers[id].node == node && !db.peers[id].state.Revoked? && db.peers[id].allowedIp == x {
        assert db'.peers[id].allowedIp == x;
      }
    }
  }

  /** A revoked address is not used, unless it is the gateway. */
  lemma RevokedIsUnused(db: Db, node: Id, cidr: Prefix, a: Addr)
    requires Unique(db.peers) && a in RevokedAddresses(db, node) && GatewayAddress(cidr) != Some(a)
    ensures a !in Used(db, node, cidr)
  {
    var id :| id in db.peers && db.peers[id].node == node && db.peers[id].state.Revoked? && db.peers[id].allowedIp == a;
    forall other | other in db.peers && db.peers[other].node == node && db.peers[other].allowedIp == a
      ensures db.peers[other].state.Revoked?
    {
      assert SameUnique(db.peers[id], db.peers[other]);
    }
  }

  lemma StuckKept(db: Db, db': Db, pool: Id)
    requires pool in db.pools && pool in db'.pools && db'.pools[pool] == db.pools[pool]
    requires Stuck(db, pool) && RowsStay(db.peers, db'.peers) && Unique(db'.peers)
    ensures Stuck(db', pool)
    ensures RevokedAddresses(db, db.pools[pool].node) <= RevokedAddresses(db', db.pools[pool].node)
  {
    var q := db.pools[pool];
    var used, used' := Used(db, q.node, q.cidr), Used(db', q.node, q.cidr);
    var a := AllocationOf(q.cidr, q.cursor, used).address;
    UsedOrRevoked(db, db', q.node, q.cidr);
    AllocatedIsFirstFree(q.cidr, q.cursor, used);
    RevokedIsUnused(db', q.node, q.cidr, a);
    StillHeld(HostsOf(Masked(q.cidr)), q.cursor, used, used', RevokedAddresses(db', q.node));
  }

  /** No transaction has reserved another address of the pool than one a revoked row holds. */
  ghost predicate StuckInv(s: System, pool: Id) {
    && pool in s.db.pools && Stuck(s.db, pool)
    && forall t :: t in s.txs && s.txs[t].CreateReserved? && s.txs[t].reservation.pool == pool ==>
         s.txs[t].reservation.address in RevokedAddresses(s.db, s.db.pools[pool].node)
  }

  /** An insert into a stuck pool clashes. */
  lemma StuckInsertFails(s: System, tx: nat, g: Grant, pool: Id)
    requires StuckInv(s, pool) && TxsOk(s.db.pools, s.txs)
    requires Enabled(s, FinishCreate(tx, g)) && s.txs[tx].reservation.pool == pool
    ensures EffectOf(s, FinishCreate(tx, g)) == NoEffect
  {
    var t := s.txs[tx];
    assert ReservedOk(s.db.pools, t);
    var id :| id in s.db.peers && s.db.peers[id].node == s.db.pools[pool].node
              && s.db.peers[id].allowedIp == t.reservation.address;
    assert SameUnique(s.db.peers[id], NewPeer(t.intent, t.reservation.address, g));
  }

  lemma RowsStayAfter(db: Db, f: Effect, now: int, ttl: int, pool: Id)
    requires Applicable(db, f) && pool in db.pools
    requires f.CreateEffect? ==> f.grant.peer !in db.peers && f.reservation.pool != pool
    ensures var db' := After(db, f, now, ttl);
            RowsStay(db.peers, db'.peers) && pool in db'.pools && db'.pools[pool] == db.pools[pool]
  {
  }

  lemma StuckEffect(s: System, e: Event, pool: Id)
    requires StuckInv(s, pool) && TxsOk(s.db.pools, s.txs) && Enabled(s, e)
    ensures EffectOf(s, e).CreateEffect? ==>
              EffectOf(s, e).grant.peer !in s.db.peers && EffectOf(s, e).reservation.pool != pool
  {
    if e.FinishCreate? && s.txs[e.tx].reservation.pool == pool {
      StuckInsertFails(s, e.tx, e.grant, pool);
    }
  }

  lemma StuckRows(s: System, e: Event, pool: Id)
    requires StuckInv(s, pool) && TxsOk(s.db.pools, s.txs) && Enabled(s, e)
    ensures RowsStay(s.db.peers, Do(s, e).db.peers)
    ensures pool in Do(s, e).db.pools && Do(s, e).db.pools[pool] == s.db.pools[pool]
  {
    EffectApplicable(s, e);
    StuckEffect(s, e, pool);
    RowsStayAfter(s.db, EffectOf(s, e), s.now, s.ttl, pool);
  }

  lemma StuckTxs(s: System, e: Event, pool: Id, t: nat)
    requires StuckInv(s, pool) && Enabled(s, e) && t in NextTxs(s, e)
    requires NextTxs(s, e)[t].CreateReserved? && NextTxs(s, e)[t].reservation.pool == pool
    ensures NextTxs(s, e)[t].reservation.address in RevokedAddresses(s.db, s.db.pools[pool].node)
  {
    if !(t in s.txs && NextTxs(s, e)[t] == s.txs[t]) {
      assert e.ReservePool? && t == e.tx;
      ReserveIsOk(s.db, s.txs[t].intent.node, s.txs[t].intent.key.tenant);
    }
  }

  lemma StuckNext(states: seq<System>, events: seq<Event>, i: nat, pool: Id)
    requires IsTrace(states, events) && i < |events| && StuckInv(states[i], pool)
    requires TxsOk(states[i].db.pools, states[i].txs) && Unique(states[i + 1].db.peers)
    ensures StuckInv(states[i + 1], pool)
  {
    var s, e := states[i], events[i];
    StuckRows(s, e, pool);
    StuckKept(s.db, states[i + 1].db, pool);
    forall t | t in NextTxs(s, e) && NextTxs(s, e)[t].CreateReserved? && NextTxs(s, e)[t].reservation.pool == pool
      ensures NextTxs(s, e)[t].reservation.address in RevokedAddresses(s.db, s.db.pools[pool].node)
    {
      StuckTxs(s, e, pool, t);
    }
  }

  predicate Sound(s: System) {
    TxsOk(s.db.pools, s.txs) && Unique(s.db.peers)
  }

  lemma StuckAlong(states: seq<System>, events: seq<Event>, i: nat, pool: Id)
    requires IsTrace(states, events) && i < |states| && StuckInv(states[i], pool)
    requires forall k :: 0 <= k < |states| ==> Sound(states[k])
    ensures forall k :: i <= k < |states| ==> StuckInv(states[k], pool)
  {
    var k := i;
    while k < |events|
      invariant i <= k <= |events|
      invariant forall m :: i <= m <= k ==> StuckInv(states[m], pool)
    {
      assert Sound(states[k]) && Sound(states[k + 1]);
      StuckNext(states, events, k, pool);
      k := k + 1;
    }
  }

  /**
   * A pool whose first unused address is held by a revoked row, with no transaction on it, never
   * issues an address again, whatever creates, revokes and retries follow.
   */
  lemma StuckForever(states: seq<System>, events: seq<Event>, i: nat, k: nat, pool: Id)
    requires IsTrace(states, events) && Init(states[0]) && i <= k < |events|
    requires pool in states[i].db.pools && Stuck(states[i].db, pool) && PoolUnlocked(states[i].txs, pool)
    ensures pool in states[k].db.pools && Stuck(states[k].db, pool)
    ensures events[k].FinishCreate? && states[k].txs[events[k].tx].reservation.pool == pool ==>
              EffectOf(states[k], events[k]) == NoEffect
  {
    AddressAlong(states, events);
    assert forall m :: 0 <= m < |states| ==> AddressInv(states[m]) && Sound(states[m]);
    StuckAlong(states, events, i, pool);
    assert StuckInv(states[k], pool) && Sound(states[k]);
    if events[k].FinishCreate? && states[k].txs[events[k].tx].reservation.pool == pool {
      StuckInsertFails(states[k], events[k].tx, events[k].grant, pool);
    }
  }
}
