/**
 * Why runtime agreement needs serialised applies: from any state with a live peer, two workers on
 * one node can bring a revoked peer back although its revocation counts as applied.
 */
module StaleApply {
  import opened Wrappers
  import opened Tables
  import opened Service
  import opened Outbox
  import opened Snapshot
  import opened Protocol
  import AR = ApplyRuns
  import NC = NodeConfigs

  /** A revoke request that would go through now. */
  datatype Request = Request(caller: Option<Principal>, slug: string, key: string, peer: UuidText, reason: string) {
    function Begin(tx: nat): Event {
      BeginRevoke(tx, caller, slug, key, peer, reason)
    }
  }

  predicate WouldRevoke(s: System, q: Request, id: Id) {
    match ResolveRevoke(s.db, q.caller, q.slug, q.key, q.peer, q.reason)
    case Err(_) => false
    case Ok(wd) =>
      && wd.peer == id && id in s.db.peers && s.db.peers[id].tenant == wd.key.tenant
      && wd.key !in s.db.idem
  }

  /** The node can be reconciled: it has a profile that prints, and its interface is up. */
  ghost predicate NodeReady(s: System, n: Id) {
    && HasProfile(s.db, n) && PrintableNode(s.db.nodes[n].port, s.db.profiles[s.db.nodes[n].profile.value])
    && s.db.nodes[n].iface in s.runtime
  }

  /** Rows that print as themselves, with different keys. */
  ghost predicate Clean(rows: map<Id, Peer>) {
    PrintableRows(rows) && NC.OneRowPerKey(rows)
  }

  lemma RevokedIsClean(peers: map<Id, Peer>, n: Id, id: Id)
    requires id in peers && Clean(RowsOf(peers, n))
    ensures Clean(RowsOf(peers[id := RevokedRow(peers[id])], n))
  {
    var rows, next := RowsOf(peers, n), RowsOf(peers[id := RevokedRow(peers[id])], n);
    forall x | x in next
      ensures x in rows && Printable(next[x]) && next[x].publicKey == rows[x].publicKey
    {
      assert Printable(rows[x]);
    }
  }

  // ---------------------------------------------------------------- single steps

  lemma Starting(s: System, w: nat, n: Id)
    requires w !in s.workers && n in s.db.nodes
    ensures Enabled(s, StartReconcile(w, n))
    ensures Do(s, StartReconcile(w, n)) == s.(workers := s.workers[w := Claimed(None, n)])
  {
  }

  lemma Syncing(s: System, w: nat, n: Id, rows: map<Id, Peer>)
    requires NodeReady(s, n) && w in s.workers && s.workers[w] == Read(None, n, rows) && Clean(rows)
    ensures Enabled(s, SyncConf(w, ""))
    ensures Do(s, SyncConf(w, "")) ==
            s.(workers := s.workers[w := Synced(None, n, rows)],
               runtime := s.runtime[s.db.nodes[n].iface := Rendered(rows)],
               drifted := s.drifted - {s.db.nodes[n].iface})
  {
    AR.Syncing(s, w, None, n, rows, "");
    ApplyShowsSnapshot(s.db.nodes[n].port, s.db.profiles[s.db.nodes[n].profile.value], rows, "");
  }

  lemma Beginning(s: System, tx: nat, q: Request, id: Id)
    requires tx !in s.txs && WouldRevoke(s, q, id)
    ensures Enabled(s, q.Begin(tx))
    ensures var wd := ResolveRevoke(s.db, q.caller, q.slug, q.key, q.peer, q.reason).value;
            Do(s, q.Begin(tx)) == s.(txs := s.txs[tx := RevokeMissed(wd)])
  {
  }

  /** What a committed revoke changes, as far as it matters here. */
  lemma Finishing(s: System, tx: nat, wd: Withdrawal, o: Id, j: Id)
    requires tx in s.txs && s.txs[tx] == RevokeMissed(wd) && o !in s.db.operations && j !in s.db.outbox
    requires wd.peer in s.db.peers && s.db.peers[wd.peer].tenant == wd.key.tenant && wd.key !in s.db.idem
    ensures Enabled(s, FinishRevoke(tx, o, j))
    ensures var s' := Do(s, FinishRevoke(tx, o, j));
            && s'.db.peers == s.db.peers[wd.peer := RevokedRow(s.db.peers[wd.peer])]
            && s'.db.nodes == s.db.nodes && s'.db.profiles == s.db.profiles
            && s'.workers == s.workers && s'.runtime == s.runtime
  {
  }

  // ---------------------------------------------------------------- the two halves

  lemma StartThenRead(s: System, n: Id, w: nat, t: System)
    requires NodeReady(s, n) && w !in s.workers
    requires t == s.(workers := s.workers[w := Read(None, n, RowsOf(s.db.peers, n))])
    ensures Reaches(s, [StartReconcile(w, n)] + [ReadRows(w)], t)
  {
    var s1 := s.(workers := s.workers[w := Claimed(None, n)]);
    Starting(s, w, n);
    AR.Reading(s1, w, None, n);
    AR.InTwo(s, StartReconcile(w, n), s1, ReadRows(w), t);
  }

  /** One worker reads and then waits; the peer is revoked meanwhile. */
  lemma ReadThenRevoke(s: System, n: Id, id: Id, v: nat, tx: nat, q: Request, o: Id, j: Id)
    returns (events: seq<Event>, t: System)
    requires NodeReady(s, n) && v !in s.workers && tx !in s.txs
    requires WouldRevoke(s, q, id) && o !in s.db.operations && j !in s.db.outbox
    ensures Reaches(s, events, t) && NodeReady(t, n)
    ensures t.workers == s.workers[v := Read(None, n, RowsOf(s.db.peers, n))]
    ensures id in s.db.peers && t.db.peers == s.db.peers[id := RevokedRow(s.db.peers[id])]
    ensures t.db.nodes == s.db.nodes && t.db.profiles == s.db.profiles
  {
    var s1 := s.(workers := s.workers[v := Read(None, n, RowsOf(s.db.peers, n))]);
    StartThenRead(s, n, v, s1);
    var wd := ResolveRevoke(s.db, q.caller, q.slug, q.key, q.peer, q.reason).value;
    var s2 := s1.(txs := s1.txs[tx := RevokeMissed(wd)]);
    Beginning(s1, tx, q, id);
    Finishing(s2, tx, wd, o, j);
    t := Do(s2, FinishRevoke(tx, o, j));
    AR.InTwo(s1, q.Begin(tx), s2, FinishRevoke(tx, o, j), t);
    events := [StartReconcile(v, n)] + [ReadRows(v)] + ([q.Begin(tx)] + [FinishRevoke(tx, o, j)]);
    ReachesBoth(s, [StartReconcile(v, n)] + [ReadRows(v)], s1, [q.Begin(tx)] + [FinishRevoke(tx, o, j)], t);
  }

  /** Persisting after a sync changes the rows, and the worker is done. */
  lemma PersistingAfterSync(s: System, n: Id, w: nat, rows: map<Id, Peer>, s1: System, t: System)
    requires n in s.db.nodes && w in s.workers
    requires s1 == s.(workers := s.workers[w := Synced(None, n, rows)],
                      runtime := s.runtime[s.db.nodes[n].iface := Rendered(rows)],
                      drifted := s.drifted - {s.db.nodes[n].iface})
    requires t == s.(workers := s.workers[w := ApplyDone(None, n)],
                     runtime := s.runtime[s.db.nodes[n].iface := Rendered(rows)],
                     drifted := s.drifted - {s.db.nodes[n].iface},
                     db := s.db.(peers := Persisted(s.db.peers, rows)))
    ensures Enabled(s1, Persist(w)) && Do(s1, Persist(w)) == t
  {
    AR.Persisting(s1, w, None, n, rows);
    assert s1.workers[w := ApplyDone(None, n)] == t.workers;
  }

  lemma SyncThenPersist(s: System, n: Id, w: nat, rows: map<Id, Peer>, t: System)
    requires NodeReady(s, n) && w in s.workers && s.workers[w] == Read(None, n, rows) && Clean(rows)
    requires t == s.(workers := s.workers[w := ApplyDone(None, n)],
                     runtime := s.runtime[s.db.nodes[n].iface := Rendered(rows)],
                     drifted := s.drifted - {s.db.nodes[n].iface},
                     db := s.db.(peers := Persisted(s.db.peers, rows)))
    ensures Reaches(s, [SyncConf(w, "")] + [Persist(w)], t)
  {
    var s1 := Do(s, SyncConf(w, ""));
    Syncing(s, w, n, rows);
    PersistingAfterSync(s, n, w, rows, s1, t);
    AR.InTwo(s, SyncConf(w, ""), s1, Persist(w), t);
  }

  lemma JustSync(s: System, n: Id, w: nat, rows: map<Id, Peer>, t: System)
    requires NodeReady(s, n) && w in s.workers && s.workers[w] == Read(None, n, rows) && Clean(rows)
    requires s.db.nodes[n].iface !in s.drifted
    requires t == s.(workers := s.workers[w := Synced(None, n, rows)], runtime := s.runtime[s.db.nodes[n].iface := Rendered(rows)])
    ensures Reaches(s, [SyncConf(w, "")], t)
  {
    assert s.drifted - {s.db.nodes[n].iface} == s.drifted;
    Syncing(s, w, n, rows);
    ReachesOne(s, SyncConf(w, ""), t);
  }

  /** A second worker applies the node in full; then the first one goes on with its old rows. */
  lemma ApplyThenStale(s: System, n: Id, v: nat, w: nat, stale: map<Id, Peer>) returns (events: seq<Event>, t: System)
    requires NodeReady(s, n) && w !in s.workers && v in s.workers && s.workers[v] == Read(None, n, stale)
    requires Clean(RowsOf(s.db.peers, n)) && Clean(stale)
    ensures Reaches(s, events, t)
    ensures t.db == s.db.(peers := Persisted(s.db.peers, RowsOf(s.db.peers, n)))
    ensures t.runtime == s.runtime[s.db.nodes[n].iface := Rendered(stale)] && s.db.nodes[n].iface !in t.drifted
  {
    var iface, rows := s.db.nodes[n].iface, RowsOf(s.db.peers, n);
    var s1 := s.(workers := s.workers[w := Read(None, n, rows)]);
    StartThenRead(s, n, w, s1);
    var s2 := s1.(workers := s1.workers[w := ApplyDone(None, n)], runtime := s.runtime[iface := Rendered(rows)],
                  drifted := s.drifted - {iface}, db := s.db.(peers := Persisted(s.db.peers, rows)));
    SyncThenPersist(s1, n, w, rows, s2);
    t := s2.(workers := s2.workers[v := Synced(None, n, stale)], runtime := s2.runtime[iface := Rendered(stale)]);
    JustSync(s2, n, v, stale, t);
    ReachesBoth(s1, [SyncConf(w, "")] + [Persist(w)], s2, [SyncConf(v, "")], t);
    events := [StartReconcile(w, n)] + [ReadRows(w)] + ([SyncConf(w, "")] + [Persist(w)] + [SyncConf(v, "")]);
    ReachesBoth(s, [StartReconcile(w, n)] + [ReadRows(w)], s1, [SyncConf(w, "")] + [Persist(w)] + [SyncConf(v, "")], t);
    AR.UpdateTwice(s.runtime, iface, Rendered(rows), Rendered(stale));
  }

  lemma StaleOutcome(peers: map<Id, Peer>, n: Id, id: Id)
    requires id in peers && peers[id].node == n && !peers[id].state.Revoked? && peers[id].applied <= peers[id].desired
    ensures var revoked := peers[id := RevokedRow(peers[id])];
            var after := Persisted(revoked, RowsOf(revoked, n));
            && id in after && after[id].state.Revoked? && after[id].applied == after[id].desired
            && after[id].publicKey == peers[id].publicKey
            && peers[id].publicKey in Rendered(RowsOf(peers, n))
  {
    var rows := RowsOf(peers, n);
    assert id in rows && !rows[id].state.Revoked?;
    assert peers[id].publicKey in LiveKeys(rows);
  }

  /**
   * Without serialisation the agreement fails from every state in which a live peer can be revoked
   * and two workers are free: the peer's revocation is applied, nothing has drifted, and the peer is live.
   */
  lemma RevokedPeerComesBack(s: System, n: Id, id: Id, v: nat, w: nat, tx: nat, q: Request, o: Id, j: Id)
    returns (states: seq<System>, events: seq<Event>)
    requires NodeReady(s, n) && id in s.db.peers && s.db.peers[id].node == n && !s.db.peers[id].state.Revoked?
    requires s.db.peers[id].applied <= s.db.peers[id].desired && Clean(RowsOf(s.db.peers, n))
    requires v !in s.workers && w !in s.workers && v != w && tx !in s.txs
    requires WouldRevoke(s, q, id) && o !in s.db.operations && j !in s.db.outbox
    ensures IsTrace(states, events) && states[0] == s
    ensures var t := states[|states| - 1];
            && id in t.db.peers && t.db.peers[id].state.Revoked? && t.db.peers[id].applied == t.db.peers[id].desired
            && s.db.nodes[n].iface in t.runtime && s.db.nodes[n].iface !in t.drifted
            && t.db.peers[id].publicKey in t.runtime[s.db.nodes[n].iface]
  {
    var stale := RowsOf(s.db.peers, n);
    var a, t := ReadThenRevoke(s, n, id, v, tx, q, o, j);
    RevokedIsClean(s.db.peers, n, id);
    var b, u := ApplyThenStale(t, n, v, w, stale);
    ReachesBoth(s, a, t, b, u);
    events := a + b;
    states := ReachesTrace(s, events, u);
    StaleOutcome(s.db.peers, n, id);
  }
}
