/** Requests whose texts print as one setting each, and what they leave in the tables. */
module TidyRuns {
  import opened Keys
  import opened Tables
  import opened Service
  import opened Parser
  import opened RenderParse
  import opened Snapshot
  import opened Protocol

  /** Generated keys are base64 text of 32 bytes. */
  predicate KeyTexts(g: Grant) {
    Encodes32Bytes(g.publicKey) && Encodes32Bytes(g.presharedKey)
  }

  /** A create request whose display name has, below its first line, only lines that the parser skips. */
  ghost predicate Tidy(e: Event) {
    && (e.BeginCreate? ==> Inert(e.body.displayName))
    && (e.FinishCreate? ==> KeyTexts(e.grant))
  }

  /** Every node prints with its profile. */
  ghost predicate TidyNodes(db: Db) {
    forall n :: HasProfile(db, n) ==> PrintableNode(db.nodes[n].port, db.profiles[db.nodes[n].profile.value])
  }

  ghost predicate TidyIntent(i: Intent) {
    Inert(i.body.displayName) && (i.publicKey == "" || Encodes32Bytes(i.publicKey))
  }

  ghost predicate TidyTx(t: Tx) {
    t.CreateMissed? || t.CreateReserved? ==> TidyIntent(t.intent)
  }

  predicate HoldsRows(p: Phase) {
    p.Read? || p.Synced?
  }

  ghost predicate TidyPhase(p: Phase) {
    HoldsRows(p) ==> PrintableRows(p.rows)
  }

  ghost predicate TidyState(s: System) {
    && TidyNodes(s.db) && PrintableRows(s.db.peers)
    && (forall t :: t in s.txs ==> TidyTx(s.txs[t]))
    && (forall w :: w in s.workers ==> TidyPhase(s.workers[w]))
  }

  lemma KeyIsField(k: string)
    requires Encodes32Bytes(k)
    ensures k != "" && Field(k)
  {
    assert IsBase64Digit(k[0]);
  }

  lemma NewPeerPrintable(i: Intent, r: Reservation, g: Grant)
    requires TidyIntent(i) && KeyTexts(g)
    ensures Printable(NewPeer(i, r.address, g))
  {
    KeyIsField(g.presharedKey);
    KeyIsField(if i.publicKey == "" then g.publicKey else i.publicKey);
  }

  lemma TidyPeers(s: System, e: Event)
    requires TidyState(s) && Enabled(s, e) && Tidy(e)
    ensures PrintableRows(Do(s, e).db.peers) && TidyNodes(Do(s, e).db)
  {
    EffectApplicable(s, e);
    var f := EffectOf(s, e);
    if f.CreateEffect? {
      assert TidyTx(s.txs[e.tx]);
      NewPeerPrintable(f.intent, f.reservation, f.grant);
    }
  }

  lemma TidyTxs(s: System, e: Event)
    requires TidyState(s) && Enabled(s, e) && Tidy(e)
    ensures forall t :: t in NextTxs(s, e) ==> TidyTx(NextTxs(s, e)[t])
  {
    forall t | t in NextTxs(s, e)
      ensures TidyTx(NextTxs(s, e)[t])
    {
      if t in s.txs {
        assert TidyTx(s.txs[t]);
      }
    }
  }

  lemma TidyWorkers(s: System, e: Event)
    requires TidyState(s) && Enabled(s, e)
    ensures forall w :: w in NextWorkers(s, e) ==> TidyPhase(NextWorkers(s, e)[w])
  {
    forall w | w in NextWorkers(s, e)
      ensures TidyPhase(NextWorkers(s, e)[w])
    {
      if w in s.workers {
        assert TidyPhase(s.workers[w]);
      }
    }
  }

  lemma TidyStep(s: System, e: Event)
    requires TidyState(s) && Enabled(s, e) && Tidy(e)
    ensures TidyState(Do(s, e))
  {
    TidyPeers(s, e);
    TidyTxs(s, e);
    TidyWorkers(s, e);
  }

  /** A run of tidy requests over nodes that print. */
  ghost predicate TidyRun(states: seq<System>, events: seq<Event>) {
    && IsTrace(states, events) && Init(states[0]) && TidyNodes(states[0].db)
    && forall k {:trigger events[k]} :: 0 <= k < |events| ==> Tidy(events[k])
  }

  /** Every row reached, and every row a worker has read, prints as itself. */
  lemma TidyAlong(states: seq<System>, events: seq<Event>)
    requires TidyRun(states, events)
    ensures forall i :: 0 <= i < |states| ==> TidyState(states[i])
  {
    var k := 0;
    while k < |events|
      invariant 0 <= k <= |events|
      invariant forall i :: 0 <= i <= k ==> TidyState(states[i])
    {
      TidyStep(states[k], events[k]);
      k := k + 1;
    }
  }
}
