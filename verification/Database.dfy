/** The tables as the repositories change them, statement by statement. */
module Database {
  import opened Wrappers
  import opened Strings
  import opened Powers
  import opened Netip
  import opened Ring
  import opened Ipam
  import opened Tables
  import opened Nodes
  import opened Service
  import opened Outbox
  import A = Addresses

  ghost predicate HasRoom(db: Db, node: Id, cidr: Prefix)
    requires ValidPrefix(cidr)
  {
    exists a :: HostsOf(Masked(cidr)).Has(a) && a !in Used(db, node, cidr)
  }

  /** In a pool too large for the step bound to stop the allocator, some address must be free. */
  ghost predicate HugePoolsHaveRoom(db: Db) {
    forall q, node :: q in db.pools && ValidPrefix(db.pools[q].cidr) && HostBits(db.pools[q].cidr) >= 31 ==>
      HasRoom(db, node, db.pools[q].cidr)
  }

  const HUGE := 0x8000_0000

  function AllAddresses(peers: map<Id, Peer>, ids: set<Id>): set<Addr>
    requires ids <= peers.Keys
  {
    set id | id in ids :: peers[id].allowedIp
  }

  lemma UsedAmong(db: Db, node: Id, cidr: Prefix)
    ensures Used(db, node, cidr) <=
            AllAddresses(db.peers, db.peers.Keys) + (match GatewayAddress(cidr) case None => {} case Some(g) => {g})
  {
  }

  lemma OneMore(a: set<Addr>, gateway: Option<Addr>, used: set<Addr>)
    requires used <= a + (match gateway case None => {} case Some(g) => {g})
    ensures |used| <= |a| + 1
  {
    var all := a + (match gateway case None => {} case Some(g) => {g});
    SubsetSize(used, all);
    if gateway.Some? {
      assert all == a + {gateway.value};
    } else {
      assert all == a;
    }
  }

  lemma UsedIsSmall(db: Db, node: Id, cidr: Prefix)
    ensures |Used(db, node, cidr)| <= |db.peers| + 1
  {
    UsedAmong(db, node, cidr);
    ImageSize(db.peers, db.peers.Keys);
    OneMore(AllAddresses(db.peers, db.peers.Keys), GatewayAddress(cidr), Used(db, node, cidr));
  }

  lemma {:induction false} ImageSize(peers: map<Id, Peer>, ids: set<Id>)
    requires ids <= peers.Keys
    ensures |AllAddresses(peers, ids)| <= |ids|
    decreases |ids|
  {
    if ids != {} {
      var id :| id in ids;
      ImageSize(peers, ids - {id});
      assert AllAddresses(peers, ids) == AllAddresses(peers, ids - {id}) + {peers[id].allowedIp};
    }
  }

  lemma HugeCount(p: Prefix)
    requires IsMasked(p) && HostBits(p) >= 31
    ensures HostsOf(p).Count() >= HUGE - 2
  {
    HostsRange(p);
    Pow2Of31();
    Pow2Monotone(31, HostBits(p));
  }

  lemma Pow2Of31()
    ensures Pow2(31) == HUGE
  {
    Pow2Of8();
    Pow2Add(8, 8);
    Pow2Add(16, 8);
    Pow2Add(24, 7);
  }

  /** The requirement is met as long as the table is not astronomically long. */
  lemma FewRowsLeaveRoom(db: Db)
    requires |db.peers| < HUGE - 3
    ensures HugePoolsHaveRoom(db)
  {
    forall q, node | q in db.pools && ValidPrefix(db.pools[q].cidr) && HostBits(db.pools[q].cidr) >= 31
      ensures HasRoom(db, node, db.pools[q].cidr)
    {
      var cidr := db.pools[q].cidr;
      HugeCount(Masked(cidr));
      UsedIsSmall(db, node, cidr);
      HostsOf(Masked(cidr)).FewerLeaveOne(Used(db, node, cidr));
    }
  }

  function MovedCursor(db: Db, pool: Id, next: Addr): Db
    requires pool in db.pools
  {
    db.(pools := db.pools[pool := db.pools[pool].(cursor := next)])
  }

  class Store {
    var rows: Db

    constructor (rows: Db)
      ensures this.rows == rows
    {
      this.rows := rows;
    }

    // -------------------------------------------------------------- outbox

    /** The oldest claimable job that no other claim has locked is leased; without one nothing changes. */
    method ClaimNext(now: int, leaseFor: int, locked: set<Id>) returns (job: Option<Id>)
      modifies this`rows
      ensures job.None? ==>
                && rows == old(rows)
                && forall j :: j in rows.outbox && Claimable(rows.outbox[j], now) ==> j in locked
      ensures job.Some? ==>
                && job.value in old(rows).outbox && Claimable(old(rows).outbox[job.value], now) && job.value !in locked
                && (forall j :: j in old(rows).outbox && Claimable(old(rows).outbox[j], now) && j !in locked ==>
                      old(rows).outbox[job.value].createdAt <= old(rows).outbox[j].createdAt)
                && rows == old(rows).(outbox :=
                             old(rows).outbox[job.value := Claim(old(rows).outbox[job.value], now, leaseFor)])
    {
      job := None;
      var todo := rows.outbox.Keys;
      while todo != {}
        invariant todo <= rows.outbox.Keys && rows == old(rows)
        invariant job.None? ==>
                    forall j :: j in rows.outbox && j !in todo && Claimable(rows.outbox[j], now) ==> j in locked
        invariant job.Some? ==>
                    && job.value in rows.outbox && Claimable(rows.outbox[job.value], now) && job.value !in locked
                    && forall j :: j in rows.outbox && j !in todo && Claimable(rows.outbox[j], now) && j !in locked ==>
                         rows.outbox[job.value].createdAt <= rows.outbox[j].createdAt
        decreases |todo|
      {
        var j :| j in todo;
        todo := todo - {j};
        if Claimable(rows.outbox[j], now) && j !in locked {
          if job.None? || rows.outbox[j].createdAt < rows.outbox[job.value].createdAt {
            job := Some(j);
          }
        }
      }
      if job.Some? {
        rows := rows.(outbox := rows.outbox[job.value := Claim(rows.outbox[job.value], now, leaseFor)]);
      }
    }

    /** Completion asks for nothing but the id. */
    method CompleteJob(id: Id)
      modifies this`rows
      ensures rows == if id in old(rows).outbox
                      then old(rows).(outbox := old(rows).outbox[id := Complete(old(rows).outbox[id])]) else old(rows)
    {
      if id in rows.outbox {
        rows := rows.(outbox := rows.outbox[id := rows.outbox[id].(status := Applied)]);
      }
    }

    method FailJob(id: Id, retryable: bool)
      modifies this`rows
      ensures rows == if id in old(rows).outbox
                      then old(rows).(outbox := old(rows).outbox[id := Fail(old(rows).outbox[id], retryable)]) else old(rows)
    {
      var status := FailedTerminal;
      if retryable {
        status := FailedRetryable;
      }
      if id in rows.outbox {
        rows := rows.(outbox := rows.outbox[id := rows.outbox[id].(status := status)]);
      }
    }

    // -------------------------------------------------------------- peers

    /** The revision never goes back, and only a pending row becomes active. */
    method MarkApplied(id: Id, revision: nat)
      modifies this`rows
      ensures rows == if id in old(rows).peers
                      then old(rows).(peers := old(rows).peers[id := MarkedApplied(old(rows).peers[id], revision)])
                      else old(rows)
    {
      if id in rows.peers {
        var p := rows.peers[id];
        if p.applied < revision {
          p := p.(applied := revision);
        }
        if p.state.Pending? {
          p := p.(state := Active);
        }
        rows := rows.(peers := rows.peers[id := p]);
      }
    }

    /** The mark is set before anyone looks at the row's tenant. */
    method MarkRevoked(id: Id) returns (r: Result<Peer, Error>)
      modifies this`rows
      ensures id !in old(rows).peers ==> r == Err(NotFound) && rows == old(rows)
      ensures id in old(rows).peers ==>
                && r == Ok(RevokedRow(old(rows).peers[id]))
                && rows == old(rows).(peers := old(rows).peers[id := RevokedRow(old(rows).peers[id])])
    {
      if id !in rows.peers {
        return Err(NotFound);
      }
      var p := rows.peers[id];
      p := p.(state := Revoked, desired := p.desired + 1);
      rows := rows.(peers := rows.peers[id := p]);
      r := Ok(p);
    }

    /** The pool with the smallest id among the node's and tenant's. */
    method SelectPool(node: Id, tenant: Id) returns (pool: Option<Id>)
      ensures pool.Some? ==> IsPoolFor(rows.pools, node, tenant, pool.value)
      ensures pool.None? ==> forall q :: !IsPoolFor(rows.pools, node, tenant, q)
    {
      pool := None;
      var todo := rows.pools.Keys;
      while todo != {}
        invariant todo <= rows.pools.Keys
        invariant pool.None? ==> forall q :: q in rows.pools && q !in todo ==> !PoolMatches(rows.pools[q], node, tenant)
        invariant pool.Some? ==>
                    && pool.value in rows.pools && PoolMatches(rows.pools[pool.value], node, tenant)
                    && forall q :: q in rows.pools && q !in todo && PoolMatches(rows.pools[q], node, tenant) ==> pool.value <= q
        decreases |todo|
      {
        var q :| q in todo;
        todo := todo - {q};
        if PoolMatches(rows.pools[q], node, tenant) && (pool.None? || q < pool.value) {
          pool := Some(q);
        }
      }
    }

    /** The addresses the allocator must skip. */
    method LoadUsed(node: Id, cidr: Prefix) returns (used: set<Addr>)
      ensures used == Used(rows, node, cidr)
    {
      used := {};
      var todo := rows.peers.Keys;
      while todo != {}
        invariant todo <= rows.peers.Keys
        invariant used == set id | id in rows.peers && id !in todo && rows.peers[id].node == node
                                   && !rows.peers[id].state.Revoked? :: rows.peers[id].allowedIp
        decreases |todo|
      {
        var id :| id in todo;
        todo := todo - {id};
        if rows.peers[id].node == node && !rows.peers[id].state.Revoked? {
          used := used + {rows.peers[id].allowedIp};
        }
      }
      var gateway := GatewayAddress(cidr);
      if gateway.Some? {
        used := used + {gateway.value};
      }
    }

    /** Whether an insert would break one of the unique constraints. */
    method Violates(p: Peer) returns (clash: bool)
      ensures clash <==> Clashes(rows.peers, p)
    {
      clash := false;
      var todo := rows.peers.Keys;
      while todo != {}
        invariant todo <= rows.peers.Keys
        invariant clash <==> exists id :: id in rows.peers && id !in todo && SameUnique(rows.peers[id], p)
        decreases |todo|
      {
        var id :| id in todo;
        todo := todo - {id};
        if SameUnique(rows.peers[id], p) {
          clash := true;
        }
      }
    }

    /** The pool row, the used addresses, and the allocator's answer. */
    method ReserveAddress(node: Id, tenant: Id) returns (r: Result<Reservation, Error>)
      requires HugePoolsHaveRoom(rows)
      ensures r == Reserve(rows, node, tenant)
    {
      var pool := SelectPool(node, tenant);
      if pool.None? {
        return Err(NoPool);
      }
      A.ReserveFrom(rows, node, tenant, pool.value);
      var cidr, cursor := rows.pools[pool.value].cidr, rows.pools[pool.value].cursor;
      var used := LoadUsed(node, cidr);
      assert ValidPrefix(cidr) && HostBits(cidr) >= 31 ==> HasRoom(rows, node, cidr);
      var allocation, _ := Allocate(cidr, cursor, used);
      match allocation
      case Exhausted => r := Err(PoolExhausted);
      case InvalidPool => r := Err(BadPool);
      case Allocated(address, next) => r := Ok(Reservation(pool.value, address, next));
    }

    /**
     * Reserves an address and inserts the peer. The cursor is moved before the insert, so a clash
     * leaves it moved: undoing that is the transaction's business. Nothing retries.
     */
    method AllocateAndInsert(i: Intent, g: Grant) returns (r: Result<Reservation, Error>)
      requires HugePoolsHaveRoom(rows)
      modifies this`rows
      ensures r == A.AllocateAndInsert(old(rows), i, g)
      ensures r.Ok? ==>
                && Reserve(old(rows), i.node, i.key.tenant) == r && r.value.pool in old(rows).pools
                && rows == MovedCursor(old(rows), r.value.pool, r.value.next)
                             .(peers := old(rows).peers[g.peer := NewPeer(i, r.value.address, g)])
      ensures r.Err? && r.error != PeerExists ==> rows == old(rows)
      ensures r == Err(PeerExists) ==>
                exists q: Reservation :: Reserve(old(rows), i.node, i.key.tenant) == Ok(q) && q.pool in old(rows).pools
                                         && rows == MovedCursor(old(rows), q.pool, q.next)
    {
      var reserved := ReserveAddress(i.node, i.key.tenant);
      if reserved.Err? {
        return Err(reserved.error);
      }
      var q := reserved.value;
      rows := MovedCursor(rows, q.pool, q.next);
      var peer := NewPeer(i, q.address, g);
      var clash := Violates(peer);
      if clash {
        assert Reserve(old(rows), i.node, i.key.tenant) == Ok(q);
        return Err(PeerExists);
      }
      rows := rows.(peers := rows.peers[g.peer := peer]);
      r := Ok(q);
    }

    // -------------------------------------------------------------- operations, jobs, audit, idempotency

    method InsertOperation(id: Id, op: Operation)
      modifies this`rows
      ensures rows == old(rows).(operations := old(rows).operations[id := op])
    {
      rows := rows.(operations := rows.operations[id := op]);
    }

    method SetOperation(id: Id, status: OpStatus)
      modifies this`rows
      ensures rows == if id in old(rows).operations
                      then old(rows).(operations := old(rows).operations[id := old(rows).operations[id].(status := status)])
                      else old(rows)
    {
      if id in rows.operations {
        rows := rows.(operations := rows.operations[id := rows.operations[id].(status := status)]);
      }
    }

    method InsertJob(id: Id, job: Job)
      modifies this`rows
      ensures rows == old(rows).(outbox := old(rows).outbox[id := job])
    {
      rows := rows.(outbox := rows.outbox[id := job]);
    }

    method AppendAudit(event: AuditEvent)
      modifies this`rows
      ensures rows == old(rows).(audit := old(rows).audit + [event])
    {
      rows := rows.(audit := rows.audit + [event]);
    }

    /** A plain insert: a key that is there, expired or not, is refused. */
    method StoreRecord(key: IdemKey, record: Record) returns (ok: bool)
      modifies this`rows
      ensures ok <==> key !in old(rows).idem
      ensures rows == if ok then old(rows).(idem := old(rows).idem[key := record]) else old(rows)
    {
      ok := key !in rows.idem;
      if ok {
        rows := rows.(idem := rows.idem[key := record]);
      }
    }

    // -------------------------------------------------------------- nodes

    /** The default node. Host names are unique in the table. */
    method FirstNode() returns (first: Option<Id>)
      requires UniqueHostnames(rows)
      ensures first == PickFirst(rows)
    {
      first := None;
      var todo := rows.nodes.Keys;
      while todo != {}
        invariant todo <= rows.nodes.Keys
        invariant first.None? ==> todo == rows.nodes.Keys
        invariant first.Some? ==> first.value in rows.nodes && FirstAmong(rows, rows.nodes.Keys - todo, first.value)
        decreases |todo|
      {
        var n :| n in todo;
        ghost var seen := rows.nodes.Keys - todo;
        todo := todo - {n};
        assert rows.nodes.Keys - todo == seen + {n};
        if first.None? || Before(rows, rows.nodes[n], rows.nodes[first.value]) {
          EarlierIsFirst(rows, seen, first, n);
          first := Some(n);
        }
      }
      FirstAmongAll(rows, first);
    }
  }

  predicate FirstAmong(db: Db, seen: set<Id>, first: Id)
    requires seen <= db.nodes.Keys && first in db.nodes
  {
    forall other :: other in seen && other != first ==> !Before(db, db.nodes[other], db.nodes[first])
  }

  lemma EarlierIsFirst(db: Db, seen: set<Id>, first: Option<Id>, n: Id)
    requires seen <= db.nodes.Keys && n in db.nodes && (first.None? ==> seen == {})
    requires first.Some? ==>
               first.value in db.nodes && FirstAmong(db, seen, first.value) && Before(db, db.nodes[n], db.nodes[first.value])
    ensures FirstAmong(db, seen + {n}, n)
  {
    forall other | other in seen + {n} && other != n
      ensures !Before(db, db.nodes[other], db.nodes[n])
    {
      if Before(db, db.nodes[other], db.nodes[n]) {
        BeforeTransitive(db, db.nodes[other], db.nodes[n], db.nodes[first.value]);
        LessTotal(db.nodes[other].hostname, db.nodes[n].hostname);
      }
    }
  }

  lemma FirstAmongAll(db: Db, first: Option<Id>)
    requires UniqueHostnames(db) && (first.None? ==> db.nodes.Keys == {})
    requires first.Some? ==> first.value in db.nodes && FirstAmong(db, db.nodes.Keys, first.value)
    ensures first == PickFirst(db)
  {
    if first.Some? {
      assert IsFirst(db, first.value);
      FirstIsUnique(db, first.value, PickFirst(db).value);
    }
  }
}
