/**
 * Why runtime agreement speaks of nodes that have their interface to themselves: a reconcile of one node takes the peers
 * of another off an interface the two share. The schema keeps host names apart, not interface names; the provisioning
 * of nodes does (Provisioning.ProvisionedApart, Provisioning.StaysUnique).
 */
module SharedInterfaces {
  import opened Tables
  import opened Outbox
  import opened Snapshot
  import opened Protocol
  import opened StaleApply
  import opened TidyRuns
  import opened UntidyNames

  /** An applied peer of one node, and another node with the same interface that does not have the peer. */
  ghost predicate Exposed(s: System, a: Id, b: Id, id: Id) {
    && a in s.db.nodes && b in s.db.nodes && a != b && s.db.nodes[a].iface == s.db.nodes[b].iface
    && id in s.db.peers && s.db.peers[id].node == a && !s.db.peers[id].state.Revoked?
    && s.db.peers[id].applied == s.db.peers[id].desired
    && s.db.peers[id].publicKey !in LiveKeys(RowsOf(s.db.peers, b))
  }

  lemma AppliedRows(s: System, n: Id, w: nat)
    requires NodeReady(s, n) && Clean(RowsOf(s.db.peers, n))
    ensures AppliedAlone(s, n, w).runtime == s.runtime[s.db.nodes[n].iface := Rendered(RowsOf(s.db.peers, n))]
  {
    ApplyShowsSnapshot(s.db.nodes[n].port, s.db.profiles[s.db.nodes[n].profile.value], RowsOf(s.db.peers, n), "");
  }

  lemma OtherRowStays(peers: map<Id, Peer>, b: Id, id: Id)
    requires id in peers && peers[id].node != b
    ensures id in Persisted(peers, RowsOf(peers, b)) && Persisted(peers, RowsOf(peers, b))[id] == peers[id]
  {
  }

  /**
   * From every such state without workers one reconcile of the other node, serial and with tidy requests, takes the peer
   * off the interface: its row is as it was, applied and not revoked, and nothing has drifted.
   */
  lemma SharedInterfaceDrops(s: System, a: Id, b: Id, id: Id, w: nat) returns (events: seq<Event>, t: System)
    requires Exposed(s, a, b, id) && NodeReady(s, b) && Clean(RowsOf(s.db.peers, b)) && s.workers == map[]
    ensures SerialReaches(s, events, t) && forall e :: e in events ==> Tidy(e)
    ensures t.db.nodes == s.db.nodes && id in t.db.peers && t.db.peers[id] == s.db.peers[id]
    ensures s.db.nodes[a].iface in t.runtime && s.db.nodes[a].iface !in t.drifted
    ensures s.db.peers[id].publicKey !in t.runtime[s.db.nodes[a].iface]
  {
    events := ApplyAlone(s, b, w);
    t := AppliedAlone(s, b, w);
    AppliedRows(s, b, w);
    OtherRowStays(s.db.peers, b, id);
  }
}
