/**
 * Safety of the apply protocol over every run: the peer revision machine, and the link
 * between a finished job and the revision it was inserted for.
 */
module NoLostWork {
  import opened Wrappers
  import opened Tables
  import opened Service
  import opened Outbox
  import opened Protocol

  type Stamps = map<Id, nat>

  // ---------------------------------------------------------------- what only ever moves forward

  /** How one peer row may change: identity fixed, revisions up, revoked for good. */
  predicate RowLater(p: Peer, q: Peer) {
    && q.tenant == p.tenant && q.node == p.node && q.profile == p.profile
    && q.externalId == p.externalId && q.displayName == p.displayName
    && q.publicKey == p.publicKey && q.presharedKey == p.presharedKey && q.allowedIp == p.allowedIp
    && p.desired <= q.desired && p.applied <= q.applied
    && (p.state.Revoked? ==> q.state.Revoked?)
    && (p.desired == q.desired ==> (p.state.Revoked? <==> q.state.Revoked?))
  }

  predicate PeersLater(a: map<Id, Peer>, b: map<Id, Peer>) {
    forall id :: id in a ==> id in b && RowLater(a[id], b[id])
  }

  predicate JobLater(a: Job, b: Job) {
    b.operation == a.operation && b.node == a.node && b.peer == a.peer && b.kind == a.kind && a.attempts <= b.attempts
  }

  predicate JobsLater(a: map<Id, Job>, b: map<Id, Job>) {
    forall j :: j in a ==> j in b && JobLater(a[j], b[j])
  }

  predicate StampsKept(a: Stamps, b: Stamps) {
    forall j :: j in a ==> j in b && b[j] == a[j]
  }

  /** Rows never disappear, never go back, and no job's revision is rewritten. */
  predicate Later(db: Db, stamp: Stamps, db': Db, stamp': Stamps) {
    && PeersLater(db.peers, db'.peers)
    && JobsLater(db.outbox, db'.outbox)
    && StampsKept(stamp, stamp')
    && db.operations.Keys <= db'.operations.Keys
  }

  // ---------------------------------------------------------------- the invariant

  /** The revision machine of one peer row. */
  predicate RowOk(p: Peer) {
    && p.applied <= p.desired && 1 <= p.desired
    && (p.desired >= 2 <==> p.state.Revoked?)
    && (p.state.Pending? <==> !p.state.Revoked? && p.applied == 0)
  }

  predicate RowsOk(peers: map<Id, Peer>) {
    forall id :: id in peers ==> RowOk(peers[id])
  }

  predicate JobOk(db: Db, job: Job, revision: nat) {
    && job.peer in db.peers && db.peers[job.peer].node == job.node
    && job.operation in db.operations
    && 1 <= revision <= db.peers[job.peer].desired
  }

  /** Every job is about a peer on its node, at a revision that peer has reached. */
  predicate JobsOk(db: Db, stamp: Stamps) {
    stamp.Keys == db.outbox.Keys && forall j :: j in db.outbox ==> JobOk(db, db.outbox[j], stamp[j])
  }

  /** One operation belongs to one job. */
  predicate OneJobEach(outbox: map<Id, Job>) {
    forall i, j :: i in outbox && j in outbox && outbox[i].operation == outbox[j].operation ==> i == j
  }

  /** The peer of job j has been applied at least up to the revision the job was inserted for. */
  predicate Carried(db: Db, stamp: Stamps, j: Id) {
    && j in db.outbox && j in stamp && db.outbox[j].peer in db.peers
    && db.peers[db.outbox[j].peer].applied >= stamp[j]
  }

  predicate ReportedDone(db: Db, job: Job) {
    || job.status.Applied?
    || (job.operation in db.operations && db.operations[job.operation].status.OpApplied?)
  }

  predicate DoneOk(db: Db, stamp: Stamps) {
    forall j :: j in db.outbox && ReportedDone(db, db.outbox[j]) ==> Carried(db, stamp, j)
  }

  predicate Covers(db: Db, stamp: Stamps, id: Id, j: Id) {
    && id in db.peers && j in db.outbox && j in stamp
    && db.outbox[j].peer == id && stamp[j] == db.peers[id].desired
  }

  /** The latest revision of every peer has a job. */
  ghost predicate Covered(db: Db, stamp: Stamps) {
    forall id :: id in db.peers ==> exists j :: Covers(db, stamp, id, j)
  }

  ghost predicate RowsInv(db: Db, stamp: Stamps) {
    && RowsOk(db.peers) && JobsOk(db, stamp) && OneJobEach(db.outbox)
    && DoneOk(db, stamp) && Covered(db, stamp)
  }

  predicate HasJob(db: Db, job: Option<Id>, node: Id) {
    job.Some? ==> job.value in db.outbox && db.outbox[job.value].node == node
  }

  /** A snapshot is made of earlier versions of the rows, and holds the peer of the job it was read for. */
  predicate SnapshotOk(db: Db, stamp: Stamps, job: Option<Id>, rows: map<Id, Peer>) {
    && PeersLater(rows, db.peers) && RowsOk(rows)
    && (job.Some? ==>
          && job.value in db.outbox && job.value in stamp && db.outbox[job.value].peer in rows
          && rows[db.outbox[job.value].peer].desired >= stamp[job.value])
  }

  predicate PhaseOk(db: Db, stamp: Stamps, p: Phase) {
    match p
    case Claimed(job, node) => HasJob(db, job, node)
    case Read(job, node, rows) => HasJob(db, job, node) && SnapshotOk(db, stamp, job, rows)
    case Synced(job, node, rows) => HasJob(db, job, node) && SnapshotOk(db, stamp, job, rows)
    case Stuck(job, node) => HasJob(db, job, node)
    case ApplyDone(job, node) => job.Some? ==> Carried(db, stamp, job.value)
    case Completed(j) => Carried(db, stamp, j)
    case Failed(j, _) => j in db.outbox
  }

  predicate WorkersOk(db: Db, stamp: Stamps, workers: map<nat, Phase>) {
    forall w :: w in workers ==> PhaseOk(db, stamp, workers[w])
  }

  ghost predicate Inv(s: System) {
    RowsInv(s.db, s.stamp) && WorkersOk(s.db, s.stamp, s.workers)
  }

  // ---------------------------------------------------------------- effects that may happen

  /** What is known of a step's effect: fresh rows, and reports of done only for carried jobs. */
  ghost predicate EffectOk(db: Db, stamp: Stamps, f: Effect) {
    && Applicable(db, f)
    && match f
       case NoEffect => true
       case CreateEffect(i, r, g) => FreshIds(db, g)
       case RevokeEffect(w, o, j) => o !in db.operations && j !in db.outbox
       case JobEffect(j, row) =>
         j in db.outbox && JobLater(db.outbox[j], row) && (row.status.Applied? ==> Carried(db, stamp, j))
       case OpEffect(o, op) =>
         && o in db.operations
         && (op.status.OpApplied? ==> forall j :: j in db.outbox && db.outbox[j].operation == o ==> Carried(db, stamp, j))
       case PersistEffect(rows) => PeersLater(rows, db.peers) && RowsOk(rows)
  }

  lemma EffectIsOk(s: System, e: Event)
    requires Inv(s) && Enabled(s, e)
    ensures EffectOk(s.db, s.stamp, EffectOf(s, e))
  {
    EffectApplicable(s, e);
    match e
    case CompleteJob(w) => CompleteIsOk(s, w);
    case MarkOpApplied(w) => MarkOpIsOk(s, w);
    case Persist(w) => PersistIsOk(s, w);
    case _ =>
  }

  lemma CompleteIsOk(s: System, w: nat)
    requires Inv(s) && Enabled(s, CompleteJob(w))
    ensures EffectOk(s.db, s.stamp, EffectOf(s, CompleteJob(w)))
  {
    assert PhaseOk(s.db, s.stamp, s.workers[w]);
  }

  /** Only the operation's own job is concerned, and the worker had carried it. */
  lemma MarkOpIsOk(s: System, w: nat)
    requires Inv(s) && Enabled(s, MarkOpApplied(w))
    ensures EffectOk(s.db, s.stamp, EffectOf(s, MarkOpApplied(w)))
  {
    assert PhaseOk(s.db, s.stamp, s.workers[w]);
    var k := s.workers[w].finished;
    forall j | j in s.db.outbox && s.db.outbox[j].operation == s.db.outbox[k].operation
      ensures Carried(s.db, s.stamp, j)
    {
      assert j == k;
    }
  }

  lemma PersistIsOk(s: System, w: nat)
    requires Inv(s) && Enabled(s, Persist(w))
    ensures EffectOk(s.db, s.stamp, EffectOf(s, Persist(w)))
  {
    assert PhaseOk(s.db, s.stamp, s.workers[w]);
  }

  lemma EffectLater(db: Db, stamp: Stamps, f: Effect, now: int, ttl: int)
    requires EffectOk(db, stamp, f) && stamp.Keys == db.outbox.Keys
    ensures Later(db, stamp, After(db, f, now, ttl), StampAfter(db, stamp, f))
  {
  }

  // ---------------------------------------------------------------- each part is kept

  lemma RowsKept(db: Db, stamp: Stamps, f: Effect, now: int, ttl: int)
    requires RowsOk(db.peers) && EffectOk(db, stamp, f)
    ensures RowsOk(After(db, f, now, ttl).peers)
  {
  }

  lemma JobsKept(db: Db, stamp: Stamps, f: Effect, now: int, ttl: int)
    requires RowsOk(db.peers) && JobsOk(db, stamp) && EffectOk(db, stamp, f)
    ensures JobsOk(After(db, f, now, ttl), StampAfter(db, stamp, f))
  {
    var db', stamp' := After(db, f, now, ttl), StampAfter(db, stamp, f);
    EffectLater(db, stamp, f, now, ttl);
    assert stamp'.Keys == db'.outbox.Keys;
    forall j | j in db'.outbox
      ensures JobOk(db', db'.outbox[j], stamp'[j])
    {
      if j in db.outbox {
        JobStays(db, stamp, db', stamp', j);
      }
    }
  }

  lemma JobStays(db: Db, stamp: Stamps, db': Db, stamp': Stamps, j: Id)
    requires JobsOk(db, stamp) && Later(db, stamp, db', stamp') && j in db.outbox
    ensures JobOk(db', db'.outbox[j], stamp'[j])
  {
    assert JobOk(db, db.outbox[j], stamp[j]);
  }

  lemma OneJobKept(db: Db, stamp: Stamps, f: Effect, now: int, ttl: int)
    requires JobsOk(db, stamp) && OneJobEach(db.outbox) && EffectOk(db, stamp, f)
    ensures OneJobEach(After(db, f, now, ttl).outbox)
  {
    assert forall j :: j in db.outbox ==> JobOk(db, db.outbox[j], stamp[j]);
  }

  lemma CoveredKept(db: Db, stamp: Stamps, f: Effect, now: int, ttl: int)
    requires stamp.Keys == db.outbox.Keys && Covered(db, stamp) && EffectOk(db, stamp, f)
    ensures Covered(After(db, f, now, ttl), StampAfter(db, stamp, f))
  {
    var db', stamp' := After(db, f, now, ttl), StampAfter(db, stamp, f);
    EffectLater(db, stamp, f, now, ttl);
    forall id | id in db'.peers
      ensures exists j :: Covers(db', stamp', id, j)
    {
      match f
      case CreateEffect(_, _, g) =>
        if id == g.peer {
          assert Covers(db', stamp', id, g.job);
        } else {
          var j :| Covers(db, stamp, id, j);
          assert Covers(db', stamp', id, j);
        }
      case RevokeEffect(w, _, k) =>
        if id == w.peer {
          assert Covers(db', stamp', id, k);
        } else {
          var j :| Covers(db, stamp, id, j);
          assert Covers(db', stamp', id, j);
        }
      case _ =>
        var j :| Covers(db, stamp, id, j);
        assert Covers(db', stamp', id, j);
    }
  }

  lemma CarriedKept(db: Db, stamp: Stamps, db': Db, stamp': Stamps, j: Id)
    requires Carried(db, stamp, j) && Later(db, stamp, db', stamp')
    ensures Carried(db', stamp', j)
  {
  }

  /** A job reported done was reported before, or is reported by this step and had been carried. */
  lemma ReportedBefore(db: Db, stamp: Stamps, f: Effect, now: int, ttl: int, j: Id)
    requires JobsOk(db, stamp) && DoneOk(db, stamp) && EffectOk(db, stamp, f)
    requires j in After(db, f, now, ttl).outbox
    requires ReportedDone(After(db, f, now, ttl), After(db, f, now, ttl).outbox[j])
    ensures Carried(db, stamp, j)
  {
    assert j in db.outbox ==> JobOk(db, db.outbox[j], stamp[j]);
  }

  lemma DoneKept(db: Db, stamp: Stamps, f: Effect, now: int, ttl: int)
    requires JobsOk(db, stamp) && DoneOk(db, stamp) && EffectOk(db, stamp, f)
    ensures DoneOk(After(db, f, now, ttl), StampAfter(db, stamp, f))
  {
    var db', stamp' := After(db, f, now, ttl), StampAfter(db, stamp, f);
    EffectLater(db, stamp, f, now, ttl);
    forall j | j in db'.outbox && ReportedDone(db', db'.outbox[j])
      ensures Carried(db', stamp', j)
    {
      ReportedBefore(db, stamp, f, now, ttl, j);
      CarriedKept(db, stamp, db', stamp', j);
    }
  }

  lemma RowsInvKept(db: Db, stamp: Stamps, f: Effect, now: int, ttl: int)
    requires RowsInv(db, stamp) && EffectOk(db, stamp, f)
    ensures RowsInv(After(db, f, now, ttl), StampAfter(db, stamp, f))
    ensures Later(db, stamp, After(db, f, now, ttl), StampAfter(db, stamp, f))
  {
    EffectLater(db, stamp, f, now, ttl);
    RowsKept(db, stamp, f, now, ttl);
    JobsKept(db, stamp, f, now, ttl);
    OneJobKept(db, stamp, f, now, ttl);
    CoveredKept(db, stamp, f, now, ttl);
    DoneKept(db, stamp, f, now, ttl);
  }

  // ---------------------------------------------------------------- workers

  /** What a worker knows stays true while everything moves forward. */
  lemma PhaseStays(db: Db, stamp: Stamps, db': Db, stamp': Stamps, p: Phase)
    requires PhaseOk(db, stamp, p) && Later(db, stamp, db', stamp')
    ensures PhaseOk(db', stamp', p)
  {
  }

  /** A fresh snapshot of the job's node holds the job's peer at the job's revision or later. */
  lemma ReadIsOk(db: Db, stamp: Stamps, job: Option<Id>, node: Id)
    requires RowsOk(db.peers) && JobsOk(db, stamp) && HasJob(db, job, node) && node in db.nodes
    ensures PhaseOk(db, stamp, AfterRead(db, job, node))
  {
    var rows := RowsOf(db.peers, node);
    if job.Some? {
      assert JobOk(db, db.outbox[job.value], stamp[job.value]);
      assert db.outbox[job.value].peer in rows;
    }
  }

  /** After the snapshot is persisted, the job's peer is applied at the job's revision. */
  lemma PersistCarries(db: Db, stamp: Stamps, job: Id, rows: map<Id, Peer>, now: int, ttl: int)
    requires SnapshotOk(db, stamp, Some(job), rows)
    ensures Carried(After(db, PersistEffect(rows), now, ttl), stamp, job)
  {
    var id := db.outbox[job].peer;
    assert id in rows && id in db.peers;
  }

  lemma WorkersKept(s: System, e: Event, db': Db, stamp': Stamps)
    requires Inv(s) && Enabled(s, e)
    requires Later(s.db, s.stamp, db', stamp')
    requires e.Persist? ==> db' == After(s.db, PersistEffect(s.workers[e.w].rows), s.now, s.ttl) && stamp' == s.stamp
    ensures WorkersOk(db', stamp', NextWorkers(s, e))
  {
    forall w | w in NextWorkers(s, e)
      ensures PhaseOk(db', stamp', NextWorkers(s, e)[w])
    {
      if w in s.workers && NextWorkers(s, e)[w] == s.workers[w] {
        PhaseStays(s.db, s.stamp, db', stamp', s.workers[w]);
      } else {
        OwnPhase(s, e, w, db', stamp');
      }
    }
  }

  /** The worker that takes the step knows what its new place asks for. */
  lemma OwnPhase(s: System, e: Event, w: nat, db': Db, stamp': Stamps)
    requires Inv(s) && Enabled(s, e) && Later(s.db, s.stamp, db', stamp')
    requires w in NextWorkers(s, e) && (w !in s.workers || NextWorkers(s, e)[w] != s.workers[w])
    requires e.Persist? ==> db' == After(s.db, PersistEffect(s.workers[e.w].rows), s.now, s.ttl) && stamp' == s.stamp
    ensures PhaseOk(db', stamp', NextWorkers(s, e)[w])
  {
    match e
    case ReadRows(_) =>
      assert PhaseOk(s.db, s.stamp, s.workers[w]);
      ReadIsOk(s.db, s.stamp, s.workers[w].job, s.workers[w].node);
      PhaseStays(s.db, s.stamp, db', stamp', AfterRead(s.db, s.workers[w].job, s.workers[w].node));
    case Persist(_) =>
      assert PhaseOk(s.db, s.stamp, s.workers[w]);
      if s.workers[w].job.Some? {
        PersistCarries(s.db, s.stamp, s.workers[w].job.value, s.workers[w].rows, s.now, s.ttl);
      }
    case _ => OtherPhase(s, e, w, db', stamp');
  }

  lemma OtherPhase(s: System, e: Event, w: nat, db': Db, stamp': Stamps)
    requires WorkersOk(s.db, s.stamp, s.workers) && Enabled(s, e) && Later(s.db, s.stamp, db', stamp')
    requires w in NextWorkers(s, e) && (w !in s.workers || NextWorkers(s, e)[w] != s.workers[w])
    requires !e.ReadRows? && !e.Persist?
    ensures PhaseOk(db', stamp', NextWorkers(s, e)[w])
  {
    if w in s.workers {
      PhaseStays(s.db, s.stamp, db', stamp', s.workers[w]);
    }
  }

  lemma RowsInvStep(s: System, e: Event)
    requires Inv(s) && Enabled(s, e)
    ensures RowsInv(Do(s, e).db, Do(s, e).stamp)
    ensures Later(s.db, s.stamp, Do(s, e).db, Do(s, e).stamp)
  {
    EffectIsOk(s, e);
    RowsInvKept(s.db, s.stamp, EffectOf(s, e), s.now, s.ttl);
  }

  lemma PersistRows(s: System, e: Event)
    requires Enabled(s, e)
    ensures e.Persist? ==>
              Do(s, e).db == After(s.db, PersistEffect(s.workers[e.w].rows), s.now, s.ttl) && Do(s, e).stamp == s.stamp
    ensures Do(s, e).workers == NextWorkers(s, e)
  {
  }

  lemma InvStep(s: System, e: Event)
    requires Inv(s) && Enabled(s, e)
    ensures Inv(Do(s, e)) && Later(s.db, s.stamp, Do(s, e).db, Do(s, e).stamp)
  {
    RowsInvStep(s, e);
    PersistRows(s, e);
    WorkersKept(s, e, Do(s, e).db, Do(s, e).stamp);
  }

  lemma InvNext(states: seq<System>, events: seq<Event>, i: nat)
    requires IsTrace(states, events) && i < |events| && Inv(states[i])
    ensures Inv(states[i + 1]) && PeersLater(states[i].db.peers, states[i + 1].db.peers)
  {
    InvStep(states[i], events[i]);
  }

  lemma InitInv(s: System)
    requires Init(s)
    ensures Inv(s)
  {
  }

  lemma InvAlong(states: seq<System>, events: seq<Event>)
    requires IsTrace(states, events) && Init(states[0])
    ensures forall i :: 0 <= i < |states| ==> Inv(states[i])
  {
    InitInv(states[0]);
    var k := 0;
    while k < |events|
      invariant 0 <= k <= |events|
      invariant forall i :: 0 <= i <= k ==> Inv(states[i])
    {
      InvNext(states, events, k);
      k := k + 1;
    }
  }

  // ---------------------------------------------------------------- the theorems

  /**
   * No lost work. In every reachable state a job or an operation marked applied means the
   * peer's applied revision is at least the one its transaction set, and a peer that is
   * behind has a job for its latest revision that is not reported done.
   */
  lemma NoLostWork(states: seq<System>, events: seq<Event>, i: nat)
    requires IsTrace(states, events) && Init(states[0]) && i < |states|
    ensures forall j :: j in states[i].db.outbox && ReportedDone(states[i].db, states[i].db.outbox[j]) ==>
              Carried(states[i].db, states[i].stamp, j)
    ensures forall id :: id in states[i].db.peers && states[i].db.peers[id].applied < states[i].db.peers[id].desired ==>
              exists j :: Covers(states[i].db, states[i].stamp, id, j)
                          && !ReportedDone(states[i].db, states[i].db.outbox[j])
  {
    InvAlong(states, events);
    var db, stamp := states[i].db, states[i].stamp;
    forall id | id in db.peers && db.peers[id].applied < db.peers[id].desired
      ensures exists j :: Covers(db, stamp, id, j) && !ReportedDone(db, db.outbox[j])
    {
      var j :| Covers(db, stamp, id, j);
      assert !ReportedDone(db, db.outbox[j]);
    }
  }

  /** The revision machine holds in every reachable state. */
  lemma RevisionMachine(states: seq<System>, events: seq<Event>, i: nat)
    requires IsTrace(states, events) && Init(states[0]) && i < |states|
    ensures RowsOk(states[i].db.peers)
  {
    InvAlong(states, events);
  }

  lemma RowsForward(states: seq<System>, events: seq<Event>, i: nat)
    requires IsTrace(states, events) && Init(states[0]) && i < |events|
    ensures PeersLater(states[i].db.peers, states[i + 1].db.peers)
  {
    InvAlong(states, events);
    InvNext(states, events, i);
  }

  /** Between two states of a run no row disappears, no revision goes back and no revoked peer returns. */
  lemma {:induction false} RowsNeverGoBack(states: seq<System>, events: seq<Event>, i: nat, k: nat)
    requires IsTrace(states, events) && Init(states[0]) && i <= k < |states|
    ensures PeersLater(states[i].db.peers, states[k].db.peers)
    decreases k - i
  {
    if i < k {
      RowsNeverGoBack(states, events, i, k - 1);
      RowsForward(states, events, k - 1);
      PeersLaterTransitive(states[i].db.peers, states[k - 1].db.peers, states[k].db.peers);
    }
  }

  lemma PeersLaterTransitive(a: map<Id, Peer>, b: map<Id, Peer>, c: map<Id, Peer>)
    requires PeersLater(a, b) && PeersLater(b, c)
    ensures PeersLater(a, c)
  {
  }
}
