/** The outbox worker: one apply of a node, and one job from claim to report. */
module Worker {
  import opened Wrappers
  import opened Profiles
  import opened Tables
  import opened Outbox
  import opened Config
  import opened Failures
  import opened Executor
  import opened Database
  import opened NodeConfigs
  import R = Render
  import Printer
  import KC = KeyConservation

  // ---------------------------------------------------------------- reading and persisting rows

  /** All rows of the node, each once. */
  method ListByNode(db: Store, node: Id) returns (ids: seq<Id>)
    ensures Enumerates(ids, RowsOf(db.rows.peers, node))
  {
    ids := [];
    var todo := db.rows.peers.Keys;
    while todo != {}
      invariant todo <= db.rows.peers.Keys
      invariant forall id :: id in ids <==> id in RowsOf(db.rows.peers, node) && id !in todo
      invariant forall a, b :: 0 <= a < b < |ids| ==> ids[a] != ids[b]
      decreases |todo|
    {
      var id :| id in todo;
      todo := todo - {id};
      if db.rows.peers[id].node == node {
        ids := ids + [id];
      }
    }
  }

  function Among(ids: seq<Id>, rows: map<Id, Peer>): map<Id, Peer> {
    map id | id in rows && id in ids :: rows[id]
  }

  lemma PersistOne(peers: map<Id, Peer>, rows: map<Id, Peer>, ids: seq<Id>, k: nat)
    requires k < |ids| && (forall id :: id in ids ==> id in rows) && (forall a, b :: 0 <= a < b < |ids| ==> ids[a] != ids[b])
    ensures var before := Persisted(peers, Among(ids[..k], rows));
            Persisted(peers, Among(ids[..k + 1], rows)) ==
            if ids[k] in before then before[ids[k] := MarkedApplied(before[ids[k]], rows[ids[k]].desired)] else before
  {
    assert ids[..k + 1] == ids[..k] + [ids[k]];
    assert ids[k] !in ids[..k];
  }

  /** The persisting loop marks every row that was read at the revision it was read with. */
  method PersistRuntime(db: Store, ids: seq<Id>, rows: map<Id, Peer>)
    requires Enumerates(ids, rows)
    modifies db`rows
    ensures db.rows == old(db.rows).(peers := Persisted(old(db.rows.peers), rows))
  {
    assert Persisted(db.rows.peers, Among(ids[..0], rows)) == db.rows.peers;
    for k := 0 to |ids|
      invariant db.rows == old(db.rows).(peers := Persisted(old(db.rows.peers), Among(ids[..k], rows)))
    {
      PersistOne(old(db.rows.peers), rows, ids, k);
      db.MarkApplied(ids[k], rows[ids[k]].desired);
    }
    assert ids[..|ids|] == ids && Among(ids, rows) == rows;
  }

  // ---------------------------------------------------------------- the host

  /** The key is asked for only when the config has none; a host that cannot show its config adds none. */
  method PreserveRuntimeKey(ex: FakeExecutor, iface: string, cfg: string) returns (r: string)
    modifies ex`failShowConf
    ensures old(ex.failShowConf) == None ==> ex.failShowConf == None
    ensures old(ex.failShowConf) == None ==>
              r == if iface in ex.interfaces then KC.WorkerPreserve(cfg, ex.interfaces[iface].rendered) else cfg
    ensures old(ex.failShowConf) != None ==> r == cfg
  {
    if InterfaceValue(cfg, PRIVATE_KEY) != "" {
      return cfg;
    }
    var current := ex.ShowConf(iface);
    if current.Err? {
      return cfg;
    }
    r := Preserve(cfg, current.value);
  }

  /** The interface a sync starts from: the live one, or the one brought up for it. */
  function Base(interfaces: map<string, Iface>, bootstraps: map<string, Iface>, iface: string, file: Option<string>): Iface {
    if iface in interfaces then interfaces[iface] else RaisedFrom(bootstraps, iface, file)
  }

  predicate Healthy(ex: FakeExecutor)
    reads ex
  {
    ex.failSyncConf == ex.failShowConf == ex.failShowDump == ex.failInterfaceUp == None
  }

  /** At most the one interface differs. */
  predicate OnlyAt(before: map<string, Iface>, after: map<string, Iface>, iface: string) {
    after == before || (iface in after && after == before[iface := after[iface]])
  }

  /** Preserve, then sync. A host that cannot show its config gets the desired one as it is. */
  method SyncPreserved(ex: FakeExecutor, iface: string, desired: string) returns (err: Option<Failure>, cfg: string)
    modifies ex`interfaces, ex`failSyncConf, ex`failShowConf
    ensures ex.failSyncConf == None && (old(ex.failShowConf) == None ==> ex.failShowConf == None)
    ensures cfg == if old(ex.failShowConf) == None && iface in old(ex.interfaces)
                   then Preserve(desired, old(ex.interfaces)[iface].rendered) else desired
    ensures err == if old(ex.failSyncConf).Some? then old(ex.failSyncConf)
                   else if iface in old(ex.interfaces) then None else Some(NotFound(iface))
    ensures ex.interfaces == if err.Some? then old(ex.interfaces)
                             else old(ex.interfaces)[iface := Synced(old(ex.interfaces)[iface], cfg)]
  {
    cfg := PreserveRuntimeKey(ex, iface, desired);
    if iface in ex.interfaces {
      KC.WorkerPreserveIs(desired, ex.interfaces[iface].rendered);
    }
    err := ex.SyncConf(iface, cfg);
  }

  /** Bring the interface up after a sync failed; a failure of this step wraps the other. */
  method Raise(ex: FakeExecutor, iface: string, file: Option<string>, first: Failure) returns (err: Option<Failure>)
    modifies ex`interfaces, ex`failInterfaceUp
    ensures ex.failInterfaceUp == None
    ensures err == if old(ex.failInterfaceUp).Some? then Some(BringUpFailed(old(ex.failInterfaceUp).value, first)) else None
    ensures ex.interfaces == if err.Some? then old(ex.interfaces)
                             else old(ex.interfaces)[iface := Base(old(ex.interfaces), ex.bootstraps, iface, file)]
  {
    var up := ex.InterfaceUp(iface, file);
    err := None;
    if up.Some? {
      err := Some(BringUpFailed(up.value, first));
    }
  }

  /** Bring the interface up, then preserve and sync again. */
  method RaiseAndSync(ex: FakeExecutor, iface: string, cfg: string, file: Option<string>, first: Failure)
    returns (err: Option<Failure>)
    modifies ex`interfaces, ex`failSyncConf, ex`failShowConf, ex`failInterfaceUp
    ensures OnlyAt(old(ex.interfaces), ex.interfaces, iface)
    ensures err.None? ==> iface in ex.interfaces
    ensures old(ex.failInterfaceUp).Some? ==>
              err == Some(BringUpFailed(old(ex.failInterfaceUp).value, first)) && ex.interfaces == old(ex.interfaces)
    ensures old(ex.failSyncConf) == old(ex.failShowConf) == old(ex.failInterfaceUp) == None ==>
              && ex.failSyncConf == ex.failShowConf == ex.failInterfaceUp == None && err.None?
              && ex.interfaces[iface] == KC.KeptSync(Base(old(ex.interfaces), ex.bootstraps, iface, file), cfg)
  {
    err := Raise(ex, iface, file, first);
    if err.None? {
      var used;
      err, used := SyncPreserved(ex, iface, cfg);
    }
  }

  /**
   * Sync, and if the interface is missing bring it up and sync again. Other interfaces are never touched; an
   * error that does not say the interface is missing is handed on with nothing changed.
   */
  method SyncNode(ex: FakeExecutor, iface: string, desired: string, file: Option<string>) returns (err: Option<Failure>)
    modifies ex`interfaces, ex`failSyncConf, ex`failShowConf, ex`failInterfaceUp
    ensures OnlyAt(old(ex.interfaces), ex.interfaces, iface)
    ensures err.None? ==> iface in ex.interfaces
    ensures old(ex.failSyncConf).Some? && !IsMissingInterface(old(ex.failSyncConf).value) ==>
              err == old(ex.failSyncConf) && ex.interfaces == old(ex.interfaces)
    ensures old(Healthy(ex)) ==>
              && Healthy(ex) && err.None?
              && ex.interfaces[iface] == KC.KeptSync(Base(old(ex.interfaces), ex.bootstraps, iface, file), desired)
  {
    var cfg;
    err, cfg := SyncPreserved(ex, iface, desired);
    if err.Some? {
      MissingIsRecognised(iface);
      if IsMissingInterface(err.value) {
        err := RaiseAndSync(ex, iface, cfg, file, err.value);
      }
    }
  }

  // ---------------------------------------------------------------- applying a node

  method BuildConfig(port: int, profile: Profile, peers: seq<Peer>) returns (cfg: string)
    ensures cfg == NodeConfig(port, profile, peers)
  {
    var entries := BuildEntries(peers);
    cfg := Printer.WriteServer(R.Interface("", [], port, 0, [], "", ""), profile, entries);
  }

  /** The node's row and its profile are there. */
  predicate Appliable(rows: Db, nodeId: Id) {
    && nodeId in rows.nodes && rows.nodes[nodeId].profile.Some?
    && rows.nodes[nodeId].profile.value in rows.profiles
  }

  /** The error of an apply that does not get as far as the host. */
  function RowError(rows: Db, nodeId: Id): Option<Failure>
    requires !Appliable(rows, nodeId)
  {
    if nodeId !in rows.nodes then Some(NO_ROW)
    else if rows.nodes[nodeId].profile.Some? then Some(NO_ROW)
    else if RowsOf(rows.peers, nodeId) == map[] then None
    else Some(NoProfile(nodeId))
  }

  /** The server key the interface reports must be the registered one, if one is registered. */
  function KeyError(node: Node, ifc: Iface): Option<Failure> {
    if node.serverPublicKey == "" || ifc.pub == node.serverPublicKey then None
    else Some(KeyMismatch(node.iface, ifc.pub, node.serverPublicKey))
  }

  /** Sync the node's interface and check the key it reports. */
  method SyncAndCheck(ex: FakeExecutor, node: Node, cfg: string, file: Option<string>) returns (err: Option<Failure>)
    modifies ex`interfaces, ex`failSyncConf, ex`failShowConf, ex`failShowDump, ex`failInterfaceUp
    ensures OnlyAt(old(ex.interfaces), ex.interfaces, node.iface)
    ensures err.None? ==> node.iface in ex.interfaces
    ensures old(Healthy(ex)) ==>
              && node.iface in ex.interfaces
              && ex.interfaces[node.iface] == KC.KeptSync(Base(old(ex.interfaces), ex.bootstraps, node.iface, file), cfg)
              && err == KeyError(node, ex.interfaces[node.iface])
  {
    err := SyncNode(ex, node.iface, cfg, file);
    if err.Some? {
      return;
    }
    var dump := ex.ShowDump(node.iface);
    if dump.Err? {
      return Some(dump.error);
    }
    if node.serverPublicKey != "" && dump.value.pub != node.serverPublicKey {
      return Some(KeyMismatch(node.iface, dump.value.pub, node.serverPublicKey));
    }
    err := None;
  }

  /**
   * What an apply does to the host: nothing when the rows do not allow it, nothing to other interfaces in any case, and
   * on a healthy host it leaves the config of the rows, in the order they were read, and fails on a key mismatch only.
   */
  predicate HostAfter(rows: Db, n: Id, ids: seq<Id>, file: Option<string>, before: map<string, Iface>,
                      bootstraps: map<string, Iface>, healthy: bool, after: map<string, Iface>, err: Option<Failure>)
    requires forall id :: id in ids ==> id in RowsOf(rows.peers, n)
  {
    if !Appliable(rows, n) then err == RowError(rows, n) && after == before
    else
      var node := rows.nodes[n];
      && OnlyAt(before, after, node.iface)
      && (healthy ==>
            && node.iface in after
            && err == KeyError(node, after[node.iface])
            && after[node.iface] ==
               KC.KeptSync(Base(before, bootstraps, node.iface, file),
                           NodeConfig(node.port, rows.profiles[node.profile.value], RowsAt(RowsOf(rows.peers, n), ids))))
  }

  /** Print the rows, sync and check. */
  method SyncRows(ex: FakeExecutor, rows: Db, n: Id, ids: seq<Id>, file: Option<string>) returns (err: Option<Failure>)
    requires Appliable(rows, n) && Enumerates(ids, RowsOf(rows.peers, n))
    modifies ex`interfaces, ex`failSyncConf, ex`failShowConf, ex`failShowDump, ex`failInterfaceUp
    ensures HostAfter(rows, n, ids, file, old(ex.interfaces), ex.bootstraps, old(Healthy(ex)), ex.interfaces, err)
  {
    var node := rows.nodes[n];
    var cfg := BuildConfig(node.port, rows.profiles[node.profile.value], RowsAt(RowsOf(rows.peers, n), ids));
    err := SyncAndCheck(ex, node, cfg, file);
  }

  /**
   * applyNode without interference: an error leaves the rows alone, success marks exactly the rows of the
   * node, and on a healthy host the interface then carries the config of the rows as they were read.
   */
  method ApplyNode(db: Store, ex: FakeExecutor, nodeId: Id, file: Option<string>)
    returns (err: Option<Failure>, ghost ids: seq<Id>)
    modifies db`rows, ex`interfaces, ex`failSyncConf, ex`failShowConf, ex`failShowDump, ex`failInterfaceUp
    ensures Enumerates(ids, RowsOf(old(db.rows).peers, nodeId))
    ensures db.rows == if err.Some? then old(db.rows)
                       else old(db.rows).(peers := Persisted(old(db.rows).peers, RowsOf(old(db.rows).peers, nodeId)))
    ensures HostAfter(old(db.rows), nodeId, ids, file, old(ex.interfaces), ex.bootstraps, old(Healthy(ex)), ex.interfaces, err)
  {
    var listed := ListByNode(db, nodeId);
    ids := listed;
    if nodeId !in db.rows.nodes {
      return Some(NO_ROW), ids;
    }
    var node := db.rows.nodes[nodeId];
    var rows := RowsOf(db.rows.peers, nodeId);
    if node.profile.None? {
      NoRows(db.rows.peers, rows, listed);
      return if |listed| == 0 then None else Some(NoProfile(nodeId)), ids;
    }
    if node.profile.value !in db.rows.profiles {
      return Some(NO_ROW), ids;
    }
    err := SyncRows(ex, db.rows, nodeId, listed, file);
    if err.None? {
      PersistRuntime(db, listed, rows);
    }
  }

  lemma NoRows(peers: map<Id, Peer>, rows: map<Id, Peer>, ids: seq<Id>)
    requires Enumerates(ids, rows)
    ensures |ids| == 0 <==> rows == map[]
    ensures |ids| == 0 ==> Persisted(peers, rows) == peers
  {
    if |ids| != 0 {
      assert ids[0] in ids && ids[0] in rows;
    } else {
      assert forall id :: id !in ids;
    }
  }

  // ---------------------------------------------------------------- a job

  method ReportFailure(db: Store, job: Id, operation: Id, retryable: bool)
    requires job in db.rows.outbox && db.rows.outbox[job].operation == operation
    modifies db`rows
    ensures db.rows == JobFailed(old(db.rows), job, retryable)
  {
    db.FailJob(job, retryable);
    db.SetOperation(operation, if retryable then OpFailedRetryable else OpFailedTerminal);
  }

  method ReportSuccess(db: Store, job: Id, operation: Id, ghost before: Db)
    requires job in before.outbox && before.outbox[job].operation == operation
    requires db.rows == before.(peers := Persisted(before.peers, RowsOf(before.peers, before.outbox[job].node)))
    modifies db`rows
    ensures db.rows == JobApplied(before, job)
  {
    db.CompleteJob(job);
    db.SetOperation(operation, OpStatus.OpApplied);
  }

  /** How a job and its operation end: applied only after a successful apply, otherwise failed as the error says. */
  method ProcessJob(db: Store, ex: FakeExecutor, job: Id, file: Option<string>)
    returns (err: Option<Failure>, ghost ids: seq<Id>)
    requires job in db.rows.outbox
    modifies db`rows, ex`interfaces, ex`failSyncConf, ex`failShowConf, ex`failShowDump, ex`failInterfaceUp
    ensures db.rows == if err.Some? then JobFailed(old(db.rows), job, IsRetryable(err.value))
                       else JobApplied(old(db.rows), job)
    ensures Enumerates(ids, RowsOf(old(db.rows).peers, old(db.rows).outbox[job].node))
    ensures HostAfter(old(db.rows), old(db.rows).outbox[job].node, ids, file, old(ex.interfaces), ex.bootstraps,
                      old(Healthy(ex)), ex.interfaces, err)
  {
    var operation, node := db.rows.outbox[job].operation, db.rows.outbox[job].node;
    ghost var before := db.rows;
    err, ids := ApplyNode(db, ex, node, file);
    if err.Some? {
      ReportFailure(db, job, operation, IsRetryable(err.value));
    } else {
      ReportSuccess(db, job, operation, before);
    }
  }

  /** RunOnce: at most one job, the oldest that can be claimed, which is claimed, applied and reported. */
  method RunOnce(db: Store, ex: FakeExecutor, now: int, leaseFor: int, locked: set<Id>, file: Option<string>)
    returns (worked: bool, ghost job: Id, ghost err: Option<Failure>, ghost ids: seq<Id>)
    modifies db`rows, ex`interfaces, ex`failSyncConf, ex`failShowConf, ex`failShowDump, ex`failInterfaceUp
    ensures worked <==> exists j :: j in old(db.rows).outbox && Claimable(old(db.rows).outbox[j], now) && j !in locked
    ensures !worked ==> db.rows == old(db.rows) && ex.interfaces == old(ex.interfaces)
    ensures worked ==>
              && job in old(db.rows).outbox && Claimable(old(db.rows).outbox[job], now) && job !in locked
              && (forall j :: j in old(db.rows).outbox && Claimable(old(db.rows).outbox[j], now) && j !in locked ==>
                    old(db.rows).outbox[job].createdAt <= old(db.rows).outbox[j].createdAt)
              && var claimed := JobClaimed(old(db.rows), job, now, leaseFor);
                 && db.rows == (if err.Some? then JobFailed(claimed, job, IsRetryable(err.value)) else JobApplied(claimed, job))
                 && Enumerates(ids, RowsOf(claimed.peers, claimed.outbox[job].node))
                 && HostAfter(claimed, claimed.outbox[job].node, ids, file, old(ex.interfaces), ex.bootstraps,
                              old(Healthy(ex)), ex.interfaces, err)
  {
    job, err, ids := 0, None, [];
    var next := db.ClaimNext(now, leaseFor, locked);
    if next.None? {
      return false, job, err, ids;
    }
    job := next.value;
    var failed;
    failed, ids := ProcessJob(db, ex, next.value, file);
    err := failed;
    worked := true;
  }
}
