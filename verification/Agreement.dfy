/**
 * Live interfaces against desired rows: with applies serialised per node, every peer whose
 * latest revision is applied is on the interface exactly when it is not revoked.
 */
module Agreement {
  import opened Wrappers
  import opened Tables
  import opened Service
  import opened Outbox
  import opened Snapshot
  import opened Protocol
  import opened NoLostWork
  import opened TidyRuns
  import Config
  import NodeConfigs

  // ---------------------------------------------------------------- unique rows

  /** No two rows clash on a unique constraint. */
  predicate Unique(peers: map<Id, Peer>) {
    forall a, b :: a in peers && b in peers && SameUnique(peers[a], peers[b]) ==> a == b
  }

  lemma UniqueStep(s: System, e: Event)
    requires Unique(s.db.peers) && Enabled(s, e)
    ensures Unique(Do(s, e).db.peers)
  {
    var f := EffectOf(s, e);
    EffectApplicable(s, e);
    UniqueAfter(s.db, f, s.now, s.ttl);
  }

  lemma UniqueAfter(db: Db, f: Effect, now: int, ttl: int)
    requires Unique(db.peers) && Applicable(db, f)
    requires f.CreateEffect? ==>
               f.grant.peer !in db.peers && !Clashes(db.peers, NewPeer(f.intent, f.reservation.address, f.grant))
    ensures Unique(After(db, f, now, ttl).peers)
  {
    if f.CreateEffect? {
      UniqueInsert(db.peers, f.grant.peer, NewPeer(f.intent, f.reservation.address, f.grant));
    } else if f.RevokeEffect? || f.PersistEffect? {
      UniqueUpdate(db.peers, After(db, f, now, ttl).peers);
    }
  }

  lemma UniqueInsert(peers: map<Id, Peer>, id: Id, p: Peer)
    requires Unique(peers) && id !in peers && !Clashes(peers, p)
    ensures Unique(peers[id := p])
  {
  }

  lemma UniqueUpdate(peers: map<Id, Peer>, peers': map<Id, Peer>)
    requires Unique(peers) && peers'.Keys == peers.Keys
    requires forall id :: id in peers ==>
               && peers'[id].tenant == peers[id].tenant && peers'[id].externalId == peers[id].externalId
               && peers'[id].node == peers[id].node && peers'[id].allowedIp == peers[id].allowedIp
               && peers'[id].publicKey == peers[id].publicKey
    ensures Unique(peers')
  {
  }

  // ---------------------------------------------------------------- serialised applies

  /** An apply of a node starts only when no other worker is between reading and persisting that node. */
  predicate Serial(s: System, e: Event) {
    e.ReadRows? && e.w in s.workers && s.workers[e.w].Claimed? ==>
      forall v :: v in s.workers && v != e.w && HoldsRows(s.workers[v]) ==> s.workers[v].node != s.workers[e.w].node
  }

  /** No other node uses the node's interface. */
  predicate OwnInterface(nodes: map<Id, Node>, n: Id) {
    n in nodes && forall m :: m in nodes && m != n ==> nodes[m].iface != nodes[n].iface
  }

  predicate AtMostOne(workers: map<nat, Phase>) {
    forall v, w ::
      v in workers && w in workers && HoldsRows(workers[v]) && HoldsRows(workers[w]) && v != w ==>
        workers[v].node != workers[w].node
  }

  /** No row of the node has been applied past what the snapshot saw. */
  predicate NotPast(peers: map<Id, Peer>, node: Id, rows: map<Id, Peer>) {
    && (forall id :: id in rows ==> id in peers && rows[id].node == node)
    && (forall id :: id in peers && peers[id].node == node ==>
          if id in rows then peers[id].applied <= rows[id].desired else peers[id].applied == 0)
  }

  /** One peer's place on an interface: there with its own settings, or gone when revoked. */
  predicate PeerAgrees(p: Peer, live: Interface) {
    p.applied == p.desired ==>
      if p.state.Revoked? then p.publicKey !in live
      else p.publicKey in live && live[p.publicKey] == LiveEntry(p)
  }

  predicate NodeAgrees(peers: map<Id, Peer>, node: Id, iface: string, runtime: map<string, Interface>) {
    forall id :: id in peers && peers[id].node == node ==>
      if iface in runtime then PeerAgrees(peers[id], runtime[iface]) else peers[id].applied == 0
  }

  ghost predicate AllAgree(s: System) {
    forall n :: OwnInterface(s.db.nodes, n) && s.db.nodes[n].iface !in s.drifted ==>
      NodeAgrees(s.db.peers, n, s.db.nodes[n].iface, s.runtime)
  }

  ghost predicate WorkerAgrees(s: System, p: Phase) {
    HoldsRows(p) ==>
      && p.node in s.db.nodes
      && NotPast(s.db.peers, p.node, p.rows)
      && (p.Synced? && OwnInterface(s.db.nodes, p.node) && s.db.nodes[p.node].iface !in s.drifted ==>
            && s.db.nodes[p.node].iface in s.runtime
            && s.runtime[s.db.nodes[p.node].iface] == Rendered(p.rows))
  }

  ghost predicate AgreeInv(s: System) {
    && Unique(s.db.peers) && Inv(s)
    && AtMostOne(s.workers)
    && (forall w :: w in s.workers ==> WorkerAgrees(s, s.workers[w]))
    && AllAgree(s)
  }

  // ---------------------------------------------------------------- a rendered snapshot agrees

  /** A row of the snapshot that is still at the snapshot's revision is rendered as it should be. */
  lemma RenderedAgrees(peers: map<Id, Peer>, node: Id, rows: map<Id, Peer>, id: Id)
    requires Unique(peers) && RowsOk(peers) && PeersLater(rows, peers) && NotPast(peers, node, rows)
    requires id in peers && peers[id].node == node
    ensures PeerAgrees(peers[id], Rendered(rows))
  {
    var p := peers[id];
    if p.applied == p.desired {
      assert RowOk(p) && id in rows && RowLater(rows[id], p);
      var k := p.publicKey;
      if k in LiveKeys(rows) {
        var other := RowWithKey(rows, k);
        assert RowLater(rows[other], peers[other]) && SameUnique(peers[other], p);
        assert other == id;
      }
      if !p.state.Revoked? {
        assert rows[id].publicKey in LiveKeys(rows);
      }
    }
  }

  lemma SyncedNodeAgrees(peers: map<Id, Peer>, node: Id, iface: string, rows: map<Id, Peer>, runtime: map<string, Interface>)
    requires Unique(peers) && RowsOk(peers) && PeersLater(rows, peers) && NotPast(peers, node, rows)
    requires iface in runtime && runtime[iface] == Rendered(rows)
    ensures NodeAgrees(peers, node, iface, runtime)
  {
    forall id | id in peers && peers[id].node == node
      ensures PeerAgrees(peers[id], runtime[iface])
    {
      RenderedAgrees(peers, node, rows, id);
    }
  }

  // ---------------------------------------------------------------- row changes

  /** Creates and revokes: no row becomes applied, new rows are unapplied. */
  predicate NothingApplied(peers: map<Id, Peer>, peers': map<Id, Peer>) {
    && (forall id :: id in peers ==> id in peers')
    && forall id :: id in peers' ==>
         if id in peers then
           && peers'[id].node == peers[id].node && peers'[id].applied == peers[id].applied
           && (peers'[id] == peers[id] || peers'[id].applied < peers'[id].desired)
         else peers'[id].applied == 0 && 0 < peers'[id].desired
  }

  lemma NothingAppliedKeeps(s: System, t: System)
    requires AgreeInv(s) && Inv(t) && Unique(t.db.peers)
    requires NothingApplied(s.db.peers, t.db.peers)
    requires t.db.nodes == s.db.nodes && t.workers == s.workers && t.runtime == s.runtime && t.drifted == s.drifted
    ensures AgreeInv(t)
  {
    forall w | w in t.workers
      ensures WorkerAgrees(t, t.workers[w])
    {
      assert WorkerAgrees(s, s.workers[w]);
    }
    forall n | OwnInterface(t.db.nodes, n) && t.db.nodes[n].iface !in t.drifted
      ensures NodeAgrees(t.db.peers, n, t.db.nodes[n].iface, t.runtime)
    {
      assert NodeAgrees(s.db.peers, n, s.db.nodes[n].iface, s.runtime);
    }
  }

  lemma CreateAppliesNothing(s: System, i: Intent, r: Reservation, g: Grant)
    requires r.pool in s.db.pools && g.peer !in s.db.peers
    ensures NothingApplied(s.db.peers, Created(s.db, i, r, g, s.now, s.ttl).peers)
  {
  }

  lemma RevokeAppliesNothing(s: System, w: Withdrawal, o: Id, j: Id)
    requires Inv(s) && w.peer in s.db.peers
    ensures NothingApplied(s.db.peers, WithRevoked(s.db, w, o, j, s.now, s.ttl).peers)
  {
    assert RowOk(s.db.peers[w.peer]);
  }

  /** Another worker's snapshot is of another node, so persisting this one does not concern it. */
  lemma OtherSnapshotKept(peers: map<Id, Peer>, node: Id, rows: map<Id, Peer>, other: Id, otherRows: map<Id, Peer>)
    requires NotPast(peers, node, rows) && PeersLater(rows, peers) && NotPast(peers, other, otherRows) && node != other
    ensures NotPast(Persisted(peers, rows), other, otherRows)
  {
    assert forall id :: id in rows ==> rows[id].node == node;
    assert forall id :: id in otherRows ==> otherRows[id].node == other;
  }

  lemma PersistKeepsWorkers(s: System, w: nat, t: System, v: nat)
    requires AgreeInv(s) && w in s.workers && s.workers[w].Synced?
    requires t.db.nodes == s.db.nodes && t.runtime == s.runtime && t.drifted == s.drifted
    requires t.db.peers == Persisted(s.db.peers, s.workers[w].rows)
    requires v in s.workers && v != w
    ensures WorkerAgrees(t, s.workers[v])
  {
    assert WorkerAgrees(s, s.workers[v]) && WorkerAgrees(s, s.workers[w]);
    assert PhaseOk(s.db, s.stamp, s.workers[w]);
    if HoldsRows(s.workers[v]) {
      OtherSnapshotKept(s.db.peers, s.workers[w].node, s.workers[w].rows, s.workers[v].node, s.workers[v].rows);
    }
  }

  lemma PersistKeepsNode(s: System, w: nat, t: System, n: Id)
    requires AgreeInv(s) && w in s.workers && s.workers[w].Synced?
    requires t.db.nodes == s.db.nodes && t.runtime == s.runtime && t.drifted == s.drifted
    requires t.db.peers == Persisted(s.db.peers, s.workers[w].rows) && RowsOk(t.db.peers) && Unique(t.db.peers)
    requires OwnInterface(t.db.nodes, n) && t.db.nodes[n].iface !in t.drifted
    ensures NodeAgrees(t.db.peers, n, t.db.nodes[n].iface, t.runtime)
  {
    var p := s.workers[w];
    assert WorkerAgrees(s, p) && PhaseOk(s.db, s.stamp, p);
    if n == p.node {
      PersistedStillCovers(s.db.peers, n, p.rows);
      SyncedNodeAgrees(t.db.peers, n, t.db.nodes[n].iface, p.rows, t.runtime);
    } else {
      assert NodeAgrees(s.db.peers, n, s.db.nodes[n].iface, s.runtime);
      PersistOtherNode(s.db.peers, p.node, p.rows, n, s.db.nodes[n].iface, s.runtime);
    }
  }

  lemma PersistOtherNode(peers: map<Id, Peer>, node: Id, rows: map<Id, Peer>, n: Id, iface: string,
                         runtime: map<string, Interface>)
    requires NodeAgrees(peers, n, iface, runtime) && NotPast(peers, node, rows) && PeersLater(rows, peers) && n != node
    ensures NodeAgrees(Persisted(peers, rows), n, iface, runtime)
  {
    assert forall id :: id in rows ==> peers[id].node == node;
  }

  /** Persisting the snapshot that is live marks rows applied only where the interface already agrees. */
  lemma PersistKeeps(s: System, w: nat, t: System)
    requires AgreeInv(s) && w in s.workers && s.workers[w].Synced?
    requires t.db.nodes == s.db.nodes && t.runtime == s.runtime && t.drifted == s.drifted
    requires t.db.peers == Persisted(s.db.peers, s.workers[w].rows) && Inv(t) && Unique(t.db.peers)
    requires t.workers == s.workers[w := ApplyDone(s.workers[w].job, s.workers[w].node)]
    ensures AgreeInv(t)
  {
    forall v | v in t.workers
      ensures WorkerAgrees(t, t.workers[v])
    {
      if v != w {
        PersistKeepsWorkers(s, w, t, v);
      }
    }
    forall n | OwnInterface(t.db.nodes, n) && t.db.nodes[n].iface !in t.drifted
      ensures NodeAgrees(t.db.peers, n, t.db.nodes[n].iface, t.runtime)
    {
      PersistKeepsNode(s, w, t, n);
    }
  }

  lemma PersistedStillCovers(peers: map<Id, Peer>, node: Id, rows: map<Id, Peer>)
    requires NotPast(peers, node, rows) && PeersLater(rows, peers) && RowsOk(rows)
    ensures NotPast(Persisted(peers, rows), node, rows)
    ensures PeersLater(rows, Persisted(peers, rows))
  {
  }

  // ---------------------------------------------------------------- interface changes

  lemma SyncKeepsWorkers(s: System, w: nat, t: System, v: nat)
    requires AgreeInv(s) && w in s.workers && s.workers[w].Read? && s.workers[w].node in s.db.nodes
    requires t.db == s.db
    requires var iface := s.db.nodes[s.workers[w].node].iface;
             t.runtime == s.runtime[iface := Rendered(s.workers[w].rows)] && t.drifted == s.drifted - {iface}
    requires v in s.workers && v != w
    ensures WorkerAgrees(t, s.workers[v])
  {
    assert WorkerAgrees(s, s.workers[v]);
  }

  lemma SyncKeeps(s: System, w: nat, t: System)
    requires AgreeInv(s) && w in s.workers && s.workers[w].Read? && s.workers[w].node in s.db.nodes
    requires t.db == s.db && Inv(t)
    requires t.workers == s.workers[w := Synced(s.workers[w].job, s.workers[w].node, s.workers[w].rows)]
    requires var iface := s.db.nodes[s.workers[w].node].iface;
             t.runtime == s.runtime[iface := Rendered(s.workers[w].rows)] && t.drifted == s.drifted - {iface}
    ensures AgreeInv(t)
  {
    forall v | v in t.workers
      ensures WorkerAgrees(t, t.workers[v])
    {
      if v != w {
        SyncKeepsWorkers(s, w, t, v);
      } else {
        assert WorkerAgrees(s, s.workers[w]);
      }
    }
    forall n | OwnInterface(t.db.nodes, n) && t.db.nodes[n].iface !in t.drifted
      ensures NodeAgrees(t.db.peers, n, t.db.nodes[n].iface, t.runtime)
    {
      SyncKeepsNode(s, w, t, n);
    }
  }

  lemma SyncKeepsNode(s: System, w: nat, t: System, n: Id)
    requires AgreeInv(s) && w in s.workers && s.workers[w].Read? && s.workers[w].node in s.db.nodes
    requires t.db == s.db
    requires var iface := s.db.nodes[s.workers[w].node].iface;
             t.runtime == s.runtime[iface := Rendered(s.workers[w].rows)] && t.drifted == s.drifted - {iface}
    requires OwnInterface(t.db.nodes, n) && t.db.nodes[n].iface !in t.drifted
    ensures NodeAgrees(t.db.peers, n, t.db.nodes[n].iface, t.runtime)
  {
    var p := s.workers[w];
    if n == p.node {
      assert WorkerAgrees(s, p) && PhaseOk(s.db, s.stamp, p);
      SyncedNodeAgrees(t.db.peers, n, t.db.nodes[n].iface, p.rows, t.runtime);
    } else {
      assert NodeAgrees(s.db.peers, n, s.db.nodes[n].iface, s.runtime);
    }
  }

  /** Bringing up a missing interface, or any change from outside. */
  lemma InterfaceChangeKeeps(s: System, t: System, iface: string)
    requires AgreeInv(s) && Inv(t) && t.db == s.db && t.workers == s.workers
    requires forall x :: x != iface ==> (x in s.runtime <==> x in t.runtime) && (x in s.runtime ==> t.runtime[x] == s.runtime[x])
    requires (iface !in s.runtime && t.drifted == s.drifted) || t.drifted == s.drifted + {iface}
    ensures AgreeInv(t)
  {
    forall v | v in t.workers
      ensures WorkerAgrees(t, t.workers[v])
    {
      assert WorkerAgrees(s, s.workers[v]);
    }
    forall n | OwnInterface(t.db.nodes, n) && t.db.nodes[n].iface !in t.drifted
      ensures NodeAgrees(t.db.peers, n, t.db.nodes[n].iface, t.runtime)
    {
      assert NodeAgrees(s.db.peers, n, s.db.nodes[n].iface, s.runtime);
      if s.db.nodes[n].iface == iface {
        UnappliedAgrees(t.db.peers, n, iface, t.runtime);
      }
    }
  }

  /** A node none of whose rows is applied agrees with any interface. */
  lemma UnappliedAgrees(peers: map<Id, Peer>, node: Id, iface: string, runtime: map<string, Interface>)
    requires RowsOk(peers) && forall id :: id in peers && peers[id].node == node ==> peers[id].applied == 0
    ensures NodeAgrees(peers, node, iface, runtime)
  {
    forall id | id in peers && peers[id].node == node && iface in runtime
      ensures PeerAgrees(peers[id], runtime[iface])
    {
      assert RowOk(peers[id]);
    }
  }

  lemma ReadKeepsWorker(s: System, w: nat, t: System, v: nat)
    requires AgreeInv(s) && w in s.workers && s.workers[w].Claimed? && s.workers[w].node in s.db.nodes
    requires t.db == s.db && t.runtime == s.runtime && t.drifted == s.drifted
    requires t.workers == s.workers[w := AfterRead(s.db, s.workers[w].job, s.workers[w].node)] && v in t.workers
    ensures WorkerAgrees(t, t.workers[v])
  {
    if v != w {
      assert WorkerAgrees(s, s.workers[v]);
    } else {
      FreshNotPast(s.db.peers, s.workers[w].node);
    }
  }

  lemma ReadKeepsOne(s: System, w: nat, workers: map<nat, Phase>)
    requires AtMostOne(s.workers) && w in s.workers && s.workers[w].Claimed? && s.workers[w].node in s.db.nodes
    requires Serial(s, ReadRows(w)) && workers == s.workers[w := AfterRead(s.db, s.workers[w].job, s.workers[w].node)]
    ensures AtMostOne(workers)
  {
  }

  lemma ReadKeeps(s: System, w: nat, t: System)
    requires AgreeInv(s) && w in s.workers && s.workers[w].Claimed? && s.workers[w].node in s.db.nodes
    requires Serial(s, ReadRows(w))
    requires t.db == s.db && t.runtime == s.runtime && t.drifted == s.drifted && Inv(t)
    requires t.workers == s.workers[w := AfterRead(s.db, s.workers[w].job, s.workers[w].node)]
    ensures AgreeInv(t)
  {
    ReadKeepsOne(s, w, t.workers);
    forall v | v in t.workers
      ensures WorkerAgrees(t, t.workers[v])
    {
      ReadKeepsWorker(s, w, t, v);
    }
    assert AllAgree(t);
  }

  lemma FreshNotPast(peers: map<Id, Peer>, node: Id)
    requires RowsOk(peers)
    ensures NotPast(peers, node, RowsOf(peers, node))
  {
    assert forall id :: id in peers ==> RowOk(peers[id]);
  }

  /** Steps that leave rows and interfaces alone and start no apply. */
  lemma QuietKeeps(s: System, t: System)
    requires AgreeInv(s) && Inv(t)
    requires t.db.peers == s.db.peers && t.db.nodes == s.db.nodes && t.runtime == s.runtime && t.drifted == s.drifted
    requires forall v :: v in t.workers && HoldsRows(t.workers[v]) ==> v in s.workers && s.workers[v] == t.workers[v]
    ensures AgreeInv(t)
  {
    forall v | v in t.workers
      ensures WorkerAgrees(t, t.workers[v])
    {
      if HoldsRows(t.workers[v]) {
        assert WorkerAgrees(s, s.workers[v]);
      }
    }
    assert AllAgree(t);
  }

  // ---------------------------------------------------------------- the theorem

  lemma CreateKeeps(s: System, tx: nat, g: Grant)
    requires Kept(s, FinishCreate(tx, g))
    ensures AgreeInv(Do(s, FinishCreate(tx, g)))
  {
    var e := FinishCreate(tx, g);
    EffectApplicable(s, e);
    if EffectOf(s, e).CreateEffect? {
      CreateAppliesNothing(s, s.txs[tx].intent, s.txs[tx].reservation, g);
    }
    NothingAppliedKeeps(s, Do(s, e));
  }

  lemma RevokeKeeps(s: System, tx: nat, o: Id, j: Id)
    requires Kept(s, FinishRevoke(tx, o, j))
    ensures AgreeInv(Do(s, FinishRevoke(tx, o, j)))
  {
    var e := FinishRevoke(tx, o, j);
    EffectApplicable(s, e);
    if EffectOf(s, e).RevokeEffect? {
      RevokeAppliesNothing(s, s.txs[tx].withdrawal, o, j);
    }
    NothingAppliedKeeps(s, Do(s, e));
  }

  lemma QuietEvent(s: System, e: Event)
    requires Kept(s, e)
    requires !(e.FinishCreate? || e.FinishRevoke? || e.Persist? || e.SyncConf? || e.ReadRows? || e.BringUp? || e.Drift?)
    ensures AgreeInv(Do(s, e))
  {
    QuietRows(s, e);
    QuietKeeps(s, Do(s, e));
  }

  lemma QuietRows(s: System, e: Event)
    requires Enabled(s, e)
    requires !(e.FinishCreate? || e.FinishRevoke? || e.Persist? || e.SyncConf? || e.ReadRows? || e.BringUp? || e.Drift?)
    ensures Do(s, e).db.peers == s.db.peers && Do(s, e).db.nodes == s.db.nodes
    ensures Do(s, e).runtime == s.runtime && Do(s, e).drifted == s.drifted
    ensures forall v :: v in Do(s, e).workers && HoldsRows(Do(s, e).workers[v]) ==>
              v in s.workers && s.workers[v] == Do(s, e).workers[v]
  {
  }

  /** What a step already keeps apart from agreement. */
  ghost predicate Kept(s: System, e: Event) {
    AgreeInv(s) && Enabled(s, e) && Inv(Do(s, e)) && Unique(Do(s, e).db.peers)
  }

  lemma PersistEvent(s: System, w: nat)
    requires Kept(s, Persist(w))
    ensures AgreeInv(Do(s, Persist(w)))
  {
    PersistKeeps(s, w, Do(s, Persist(w)));
  }

  /** The rows a worker has read are rows of one node as they were, so they have different keys. */
  lemma SnapshotKeys(peers: map<Id, Peer>, node: Id, rows: map<Id, Peer>)
    requires Unique(peers) && PeersLater(rows, peers) && NotPast(peers, node, rows)
    ensures NodeConfigs.OneRowPerKey(rows)
  {
    forall a, b | a in rows && b in rows && rows[a].publicKey == rows[b].publicKey
      ensures a == b
    {
      assert RowLater(rows[a], peers[a]) && RowLater(rows[b], peers[b]);
      assert SameUnique(peers[a], peers[b]);
    }
  }

  /** The text printed from the rows puts the peers on the interface that the rows ask for. */
  lemma DesiredShows(db: Db, n: Id, rows: map<Id, Peer>, shown: string)
    requires TidyNodes(db) && HasProfile(db, n) && PrintableRows(rows) && NodeConfigs.OneRowPerKey(rows)
    ensures Loaded(Config.Preserve(Desired(db, n, rows), shown)) == Rendered(rows)
  {
    ApplyShowsSnapshot(db.nodes[n].port, db.profiles[db.nodes[n].profile.value], rows, shown);
  }

  lemma WorkerRows(s: System, w: nat)
    requires AgreeInv(s) && TidyState(s) && w in s.workers && s.workers[w].Read?
    ensures PrintableRows(s.workers[w].rows) && NodeConfigs.OneRowPerKey(s.workers[w].rows)
  {
    var p := s.workers[w];
    assert WorkerAgrees(s, p) && PhaseOk(s.db, s.stamp, p) && TidyPhase(p);
    SnapshotKeys(s.db.peers, p.node, p.rows);
  }

  lemma SyncShowsRows(s: System, w: nat, shown: string)
    requires AgreeInv(s) && TidyState(s) && Enabled(s, SyncConf(w, shown))
    ensures NextRuntime(s, SyncConf(w, shown)) ==
            s.runtime[s.db.nodes[s.workers[w].node].iface := Rendered(s.workers[w].rows)]
  {
    WorkerRows(s, w);
    DesiredShows(s.db, s.workers[w].node, s.workers[w].rows, shown);
  }

  lemma SyncEvent(s: System, w: nat, shown: string)
    requires Kept(s, SyncConf(w, shown)) && TidyState(s)
    ensures AgreeInv(Do(s, SyncConf(w, shown)))
  {
    SyncShowsRows(s, w, shown);
    SyncKeeps(s, w, Do(s, SyncConf(w, shown)));
  }

  lemma ReadEvent(s: System, w: nat)
    requires Kept(s, ReadRows(w)) && Serial(s, ReadRows(w))
    ensures AgreeInv(Do(s, ReadRows(w)))
  {
    ReadKeeps(s, w, Do(s, ReadRows(w)));
  }

  lemma BringUpEvent(s: System, w: nat, live: Interface)
    requires Kept(s, BringUp(w, live))
    ensures AgreeInv(Do(s, BringUp(w, live)))
  {
    InterfaceChangeKeeps(s, Do(s, BringUp(w, live)), s.db.nodes[s.workers[w].node].iface);
  }

  lemma DriftEvent(s: System, iface: string, changed: Option<Interface>)
    requires Kept(s, Drift(iface, changed))
    ensures AgreeInv(Do(s, Drift(iface, changed)))
  {
    InterfaceChangeKeeps(s, Do(s, Drift(iface, changed)), iface);
  }

  lemma KeptStep(s: System, e: Event)
    requires AgreeInv(s) && Enabled(s, e)
    ensures Kept(s, e)
  {
    InvStep(s, e);
    UniqueStep(s, e);
  }

  /** Steps that change rows. */
  lemma AgreeRows(s: System, e: Event)
    requires Kept(s, e) && (e.FinishCreate? || e.FinishRevoke? || e.Persist?)
    ensures AgreeInv(Do(s, e))
  {
    match e
    case FinishCreate(tx, g) => CreateKeeps(s, tx, g);
    case FinishRevoke(tx, o, j) => RevokeKeeps(s, tx, o, j);
    case Persist(w) => PersistEvent(s, w);
  }

  /** Steps that read a node or change an interface. */
  lemma AgreeInterfaces(s: System, e: Event)
    requires Kept(s, e) && Serial(s, e) && TidyState(s) && (e.SyncConf? || e.ReadRows? || e.BringUp? || e.Drift?)
    ensures AgreeInv(Do(s, e))
  {
    match e
    case SyncConf(w, shown) => SyncEvent(s, w, shown);
    case ReadRows(w) => ReadEvent(s, w);
    case BringUp(w, live) => BringUpEvent(s, w, live);
    case Drift(iface, changed) => DriftEvent(s, iface, changed);
  }

  lemma AgreeStep(s: System, e: Event)
    requires Kept(s, e) && Serial(s, e) && TidyState(s)
    ensures AgreeInv(Do(s, e))
  {
    if e.FinishCreate? || e.FinishRevoke? || e.Persist? {
      AgreeRows(s, e);
    } else if e.SyncConf? || e.ReadRows? || e.BringUp? || e.Drift? {
      AgreeInterfaces(s, e);
    } else {
      QuietEvent(s, e);
    }
  }

  ghost predicate SerialRun(states: seq<System>, events: seq<Event>) {
    && TidyRun(states, events)
    && forall k {:trigger events[k]} :: 0 <= k < |events| ==> Serial(states[k], events[k])
  }

  lemma AgreeNext(states: seq<System>, events: seq<Event>, i: nat)
    requires SerialRun(states, events) && i < |events| && AgreeInv(states[i]) && TidyState(states[i])
    ensures AgreeInv(states[i + 1])
  {
    KeptStep(states[i], events[i]);
    AgreeStep(states[i], events[i]);
  }

  lemma AgreeAlong(states: seq<System>, events: seq<Event>)
    requires SerialRun(states, events)
    ensures forall i :: 0 <= i < |states| ==> AgreeInv(states[i])
  {
    InitInv(states[0]);
    TidyAlong(states, events);
    var k := 0;
    while k < |events|
      invariant 0 <= k <= |events|
      invariant forall i :: 0 <= i <= k ==> AgreeInv(states[i])
    {
      AgreeNext(states, events, k);
      k := k + 1;
    }
  }

  /**
   * Runtime agreement. In every run of tidy requests with applies serialised per node, in every
   * state and for every node that has its interface to itself and whose interface has not been
   * changed from outside since its last sync: each peer whose applied revision is the desired one
   * is on the interface, with its preshared key and address, exactly when it is not revoked. What
   * a sync puts on the interface is what parsing the printed config gives, whatever config the
   * host showed before.
   */
  lemma RuntimeAgreement(states: seq<System>, events: seq<Event>, i: nat, n: Id, id: Id)
    requires SerialRun(states, events) && i < |states|
    requires OwnInterface(states[i].db.nodes, n) && states[i].db.nodes[n].iface !in states[i].drifted
    requires id in states[i].db.peers && states[i].db.peers[id].node == n
    requires states[i].db.peers[id].applied == states[i].db.peers[id].desired
    ensures var s := states[i];
            var p := s.db.peers[id];
            var iface := s.db.nodes[n].iface;
            && iface in s.runtime
            && (p.publicKey in s.runtime[iface] <==> !p.state.Revoked?)
            && (!p.state.Revoked? ==> s.runtime[iface][p.publicKey] == LiveEntry(p))
  {
    AgreeAlong(states, events);
    assert RowOk(states[i].db.peers[id]);
    assert NodeAgrees(states[i].db.peers, n, states[i].db.nodes[n].iface, states[i].runtime);
  }
}
