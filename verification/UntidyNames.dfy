/**
 * Why runtime agreement needs tidy names: one worker alone, applying a node in full, can put a revoked peer
 * on the interface although its revocation counts as applied.
 */
module UntidyNames {
  import opened Wrappers
  import opened Numerals
  import opened Profiles
  import opened ConfigText
  import opened Tables
  import opened Outbox
  import opened NodeConfigs
  import opened RenderParse
  import opened Snapshot
  import opened Protocol
  import opened Agreement
  import opened StaleApply
  import opened TidyRuns
  import AR = ApplyRuns
  import R = Render
  import ML = ManyLines
  import C = Config
  import W = Writes

  /** A row printed without its name. */
  function Nameless(p: Peer): R.PeerEntry {
    PeerEntryOf(p).(comment := "")
  }

  ghost predicate PrintableKeys(p: Peer) {
    Printable(p.(displayName := ""))
  }

  /** Of the rows only one is live, and its name holds the section of another. */
  ghost predicate Names(rows: map<Id, Peer>, live: Id, gone: Id, first: string) {
    && live in rows && gone in rows && !rows[live].state.Revoked? && OneRowPerKey(rows)
    && (forall id :: id in rows && id != live ==> rows[id].state.Revoked?)
    && PrintableKeys(rows[live]) && PrintableKeys(rows[gone])
    && NoNewline(first) && rows[live].displayName == ML.Carrying(first, [Nameless(rows[gone])])
  }

  lemma NamelessWellFormed(p: Peer)
    requires PrintableKeys(p)
    ensures WellFormedPeer(Nameless(p))
  {
    EntryWellFormed(p.(displayName := ""));
  }

  lemma OneLiveEntry(rows: map<Id, Peer>, ids: seq<Id>, live: Id)
    requires Enumerates(ids, rows) && OneRowPerKey(rows) && live in rows && !rows[live].state.Revoked?
    requires forall id :: id in rows && id != live ==> rows[id].state.Revoked?
    ensures EntriesOf(RowsAt(rows, ids)) == [PeerEntryOf(rows[live])]
  {
    var es, e := EntriesOf(RowsAt(rows, ids)), PeerEntryOf(rows[live]);
    EntriesDistinct(rows, ids);
    assert IsEntryOf(rows, live, e);
    EntryOfRow(rows, ids, e);
    forall i | 0 <= i < |es|
      ensures es[i] == e
    {
      EntryOfRow(rows, ids, es[i]);
      var id :| IsEntryOf(rows, id, es[i]);
    }
    AllTheSame(es, e);
  }

  lemma AllTheSame(es: seq<R.PeerEntry>, e: R.PeerEntry)
    requires R.DistinctKeys(es) && e in es && forall i :: 0 <= i < |es| ==> es[i] == e
    ensures es == [e]
  {
    assert |es| > 1 ==> es[0].publicKey != es[1].publicKey;
  }

  lemma NameLoads(iface: R.Interface, profile: Profile, live: Peer, gone: Peer, first: string)
    requires OneLineInterface(iface) && InertTexts(profile) && iface.privateKey == "" && iface.listenPort <= MAX_INT64
    requires PrintableKeys(live) && PrintableKeys(gone) && NoNewline(first)
    requires live.displayName == ML.Carrying(first, [Nameless(gone)])
    ensures gone.publicKey in Loaded(R.Server(iface, profile, [PeerEntryOf(live)]))
  {
    var e, inner := PeerEntryOf(live), [Nameless(gone)];
    NamelessWellFormed(live);
    NamelessWellFormed(gone);
    ML.NameAddsPeers(iface, profile, e, first, inner);
    var specs := SpecsOf(inner) + [SpecOf(e)];
    assert specs[0].publicKey == gone.publicKey;
  }

  lemma LoadsTheOther(db: Db, n: Id, rows: map<Id, Peer>, live: Id, gone: Id, first: string)
    requires HasProfile(db, n) && PrintableNode(db.nodes[n].port, db.profiles[db.nodes[n].profile.value])
    requires Names(rows, live, gone, first)
    ensures rows[gone].publicKey in Loaded(C.Preserve(Desired(db, n, rows), ""))
  {
    OneLiveEntry(rows, Enumeration(rows), live);
    NameLoads(R.Interface("", [], db.nodes[n].port, 0, [], "", ""), db.profiles[db.nodes[n].profile.value],
              rows[live], rows[gone], first);
    NothingShown(Desired(db, n, rows));
  }

  lemma NothingShown(config: string)
    ensures C.Preserve(config, "") == config
  {
  }

  // ---------------------------------------------------------------- the run

  ghost predicate Step(s: System, e: Event, t: System) {
    Enabled(s, e) && Do(s, e) == t && Serial(s, e)
  }

  /** The events lead from one state to another, with applies serialised. */
  ghost predicate SerialReaches(s: System, events: seq<Event>, t: System)
    decreases |events|
  {
    if events == [] then s == t
    else Enabled(s, events[0]) && Serial(s, events[0]) && SerialReaches(Do(s, events[0]), events[1..], t)
  }

  lemma StepThen(s: System, e: Event, s1: System, events: seq<Event>, t: System)
    requires Step(s, e, s1) && SerialReaches(s1, events, t)
    ensures SerialReaches(s, [e] + events, t)
  {
    assert ([e] + events)[1..] == events;
  }

  lemma {:induction false} RequestsAreSerial(s: System, events: seq<Event>, t: System)
    requires Reaches(s, events, t) && forall e :: e in events ==> W.OfRequest(e)
    ensures SerialReaches(s, events, t)
    decreases |events|
  {
    if events != [] {
      assert events[0] in events;
      forall e | e in events[1..]
        ensures W.OfRequest(e)
      {
        assert e in events;
      }
      RequestsAreSerial(Do(s, events[0]), events[1..], t);
    }
  }

  lemma FirstOf(a: seq<Event>, b: seq<Event>)
    requires a != []
    ensures [a[0]] + (a[1..] + b) == a + b
  {
  }

  lemma {:induction false} SerialBoth(s: System, a: seq<Event>, t: System, b: seq<Event>, u: System)
    requires SerialReaches(s, a, t) && SerialReaches(t, b, u)
    ensures SerialReaches(s, a + b, u)
    decreases |a|
  {
    if a == [] {
      assert a + b == b;
    } else {
      var s1 := Do(s, a[0]);
      SerialBoth(s1, a[1..], t, b, u);
      StepThen(s, a[0], s1, a[1..] + b, u);
      FirstOf(a, b);
    }
  }

  /** The system after a free worker has read the node, synced it and persisted. */
  ghost function AppliedAlone(s: System, n: Id, w: nat): System
    requires HasProfile(s.db, n)
  {
    var rows, iface := RowsOf(s.db.peers, n), s.db.nodes[n].iface;
    s.(workers := map[w := ApplyDone(None, n)],
       runtime := s.runtime[iface := Loaded(C.Preserve(Desired(s.db, n, rows), ""))],
       drifted := s.drifted - {iface},
       db := s.db.(peers := Persisted(s.db.peers, rows)))
  }

  lemma Alone(w: nat, a: Phase, b: Phase)
    ensures map[w := a][w := b] == map[w := b]
  {
  }

  lemma StartAlone(s: System, n: Id, w: nat, s1: System)
    requires n in s.db.nodes && s.workers == map[] && s1 == s.(workers := map[w := Claimed(None, n)])
    ensures Step(s, StartReconcile(w, n), s1)
  {
    Starting(s, w, n);
    assert s.workers[w := Claimed(None, n)] == s1.workers;
  }

  lemma ReadAlone(s: System, n: Id, w: nat, t: System)
    requires HasProfile(s.db, n) && s.workers == map[w := Claimed(None, n)]
    requires t == s.(workers := map[w := Read(None, n, RowsOf(s.db.peers, n))])
    ensures Step(s, ReadRows(w), t)
  {
    AR.Reading(s, w, None, n);
    Alone(w, Claimed(None, n), Read(None, n, RowsOf(s.db.peers, n)));
  }

  lemma PersistAlone(s: System, n: Id, w: nat, rows: map<Id, Peer>, t: System)
    requires s.workers == map[w := Synced(None, n, rows)]
    requires t == s.(workers := map[w := ApplyDone(None, n)], db := s.db.(peers := Persisted(s.db.peers, rows)))
    ensures Step(s, Persist(w), t)
  {
    AR.Persisting(s, w, None, n, rows);
    Alone(w, Synced(None, n, rows), ApplyDone(None, n));
  }

  lemma SyncAlone(s: System, n: Id, w: nat, rows: map<Id, Peer>, t: System)
    requires HasProfile(s.db, n) && s.db.nodes[n].iface in s.runtime && s.workers == map[w := Read(None, n, rows)]
    requires t == s.(workers := map[w := Synced(None, n, rows)],
                     runtime := s.runtime[s.db.nodes[n].iface := Loaded(C.Preserve(Desired(s.db, n, rows), ""))],
                     drifted := s.drifted - {s.db.nodes[n].iface})
    ensures Step(s, SyncConf(w, ""), t)
  {
    AR.Syncing(s, w, None, n, rows, "");
    Alone(w, Read(None, n, rows), Synced(None, n, rows));
  }

  lemma ReadHalf(s: System, n: Id, w: nat)
    requires HasProfile(s.db, n) && s.workers == map[]
    ensures SerialReaches(s, [StartReconcile(w, n)] + ([ReadRows(w)] + []),
                          s.(workers := map[w := Read(None, n, RowsOf(s.db.peers, n))]))
  {
    var s1 := s.(workers := map[w := Claimed(None, n)]);
    var t := s.(workers := map[w := Read(None, n, RowsOf(s.db.peers, n))]);
    StartAlone(s, n, w, s1);
    ReadAlone(s1, n, w, t);
    StepThen(s1, ReadRows(w), t, [], t);
    StepThen(s, StartReconcile(w, n), s1, [ReadRows(w)] + [], t);
  }

  lemma SyncHalf(s: System, n: Id, w: nat, rows: map<Id, Peer>, t: System)
    requires HasProfile(s.db, n) && s.db.nodes[n].iface in s.runtime && s.workers == map[w := Read(None, n, rows)]
    requires t == s.(workers := map[w := ApplyDone(None, n)],
                     runtime := s.runtime[s.db.nodes[n].iface := Loaded(C.Preserve(Desired(s.db, n, rows), ""))],
                     drifted := s.drifted - {s.db.nodes[n].iface}, db := s.db.(peers := Persisted(s.db.peers, rows)))
    ensures SerialReaches(s, [SyncConf(w, "")] + ([Persist(w)] + []), t)
  {
    var s1 := t.(workers := map[w := Synced(None, n, rows)], db := s.db);
    SyncAlone(s, n, w, rows, s1);
    PersistAlone(s1, n, w, rows, t);
    StepThen(s1, Persist(w), t, [], t);
    StepThen(s, SyncConf(w, ""), s1, [Persist(w)] + [], t);
  }

  lemma WorkIsTidy(w: nat, n: Id, events: seq<Event>)
    requires events == [StartReconcile(w, n)] + ([ReadRows(w)] + []) + ([SyncConf(w, "")] + ([Persist(w)] + []))
    ensures forall e :: e in events ==> Tidy(e)
  {
    assert events == [StartReconcile(w, n), ReadRows(w), SyncConf(w, ""), Persist(w)];
  }

  lemma ApplyAlone(s: System, n: Id, w: nat) returns (events: seq<Event>)
    requires HasProfile(s.db, n) && s.db.nodes[n].iface in s.runtime && s.workers == map[]
    ensures SerialReaches(s, events, AppliedAlone(s, n, w)) && forall e :: e in events ==> Tidy(e)
  {
    var rows := RowsOf(s.db.peers, n);
    var mid := s.(workers := map[w := Read(None, n, rows)]);
    ReadHalf(s, n, w);
    SyncHalf(mid, n, w, rows, AppliedAlone(s, n, w));
    events := [StartReconcile(w, n)] + ([ReadRows(w)] + []) + ([SyncConf(w, "")] + ([Persist(w)] + []));
    WorkIsTidy(w, n, events);
    SerialBoth(s, [StartReconcile(w, n)] + ([ReadRows(w)] + []), mid, [SyncConf(w, "")] + ([Persist(w)] + []), AppliedAlone(s, n, w));
  }

  /**
   * A serial run without outside changes after which a peer is revoked, its revocation applied, and the peer
   * is live: its section is in the display name of another.
   */
  lemma NamedPeerComesBack(s: System, n: Id, live: Id, gone: Id, first: string, w: nat)
    returns (events: seq<Event>, t: System)
    requires NodeReady(s, n) && s.workers == map[] && live != gone
    requires Names(RowsOf(s.db.peers, n), live, gone, first)
    requires s.db.peers[gone].applied <= s.db.peers[gone].desired
    ensures SerialReaches(s, events, t)
    ensures gone in t.db.peers && t.db.peers[gone].state.Revoked? && t.db.peers[gone].applied == t.db.peers[gone].desired
    ensures s.db.nodes[n].iface in t.runtime && s.db.nodes[n].iface !in t.drifted
    ensures t.db.peers[gone].publicKey in t.runtime[s.db.nodes[n].iface]
  {
    LoadsTheOther(s.db, n, RowsOf(s.db.peers, n), live, gone, first);
    t := AppliedAlone(s, n, w);
    events := ApplyAlone(s, n, w);
    PersistedRevoked(s.db.peers, n, gone);
  }

  lemma PersistedRevoked(peers: map<Id, Peer>, n: Id, gone: Id)
    requires gone in peers && peers[gone].node == n && peers[gone].state.Revoked? && peers[gone].applied <= peers[gone].desired
    ensures var after := Persisted(peers, RowsOf(peers, n));
            && gone in after && after[gone].state.Revoked? && after[gone].applied == after[gone].desired
            && after[gone].publicKey == peers[gone].publicKey
  {
  }
}
