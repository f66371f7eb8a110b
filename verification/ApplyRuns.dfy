/** One job of a worker as steps of the protocol: claim, read, bring up, sync, persist, report. */
module ApplyRuns {
  import opened Wrappers
  import opened Tables
  import opened Outbox
  import opened NodeConfigs
  import opened Snapshot
  import opened Protocol
  import C = Config
  import Ex = Executor
  import KC = KeyConservation

  // ---------------------------------------------------------------- single steps

  lemma Claiming(s: System, w: nat, j: Id, lease: int)
    requires w !in s.workers && j in s.db.outbox && Claimable(s.db.outbox[j], s.now) && lease > 0
    ensures Enabled(s, ClaimJob(w, j, lease))
    ensures Do(s, ClaimJob(w, j, lease)) ==
            s.(db := JobClaimed(s.db, j, s.now, lease), workers := s.workers[w := Claimed(Some(j), s.db.outbox[j].node)])
  {
  }

  lemma Reading(s: System, w: nat, job: Option<Id>, n: Id)
    requires HasProfile(s.db, n) && w in s.workers && s.workers[w] == Claimed(job, n)
    ensures Enabled(s, ReadRows(w))
    ensures Do(s, ReadRows(w)) == s.(workers := s.workers[w := Read(job, n, RowsOf(s.db.peers, n))])
  {
  }

  lemma Raising(s: System, w: nat, live: Interface)
    requires w in s.workers && s.workers[w].Read? && s.workers[w].node in s.db.nodes
    requires s.db.nodes[s.workers[w].node].iface !in s.runtime
    ensures Enabled(s, BringUp(w, live))
    ensures Do(s, BringUp(w, live)) == s.(runtime := s.runtime[s.db.nodes[s.workers[w].node].iface := live])
  {
  }

  lemma Syncing(s: System, w: nat, job: Option<Id>, n: Id, rows: map<Id, Peer>, shown: string)
    requires HasProfile(s.db, n) && s.db.nodes[n].iface in s.runtime && w in s.workers && s.workers[w] == Read(job, n, rows)
    ensures Enabled(s, SyncConf(w, shown))
    ensures Do(s, SyncConf(w, shown)) ==
            s.(workers := s.workers[w := Synced(job, n, rows)],
               runtime := s.runtime[s.db.nodes[n].iface := Loaded(C.Preserve(Desired(s.db, n, rows), shown))],
               drifted := s.drifted - {s.db.nodes[n].iface})
  {
  }

  lemma Persisting(s: System, w: nat, job: Option<Id>, n: Id, rows: map<Id, Peer>)
    requires w in s.workers && s.workers[w] == Synced(job, n, rows)
    ensures Enabled(s, Persist(w))
    ensures Do(s, Persist(w)) ==
            s.(workers := s.workers[w := ApplyDone(job, n)], db := s.db.(peers := Persisted(s.db.peers, rows)))
  {
  }

  lemma Completing(s: System, w: nat, j: Id, n: Id)
    requires w in s.workers && s.workers[w] == ApplyDone(Some(j), n) && j in s.db.outbox
    ensures Enabled(s, CompleteJob(w))
    ensures Do(s, CompleteJob(w)) ==
            s.(workers := s.workers[w := Completed(j)], db := s.db.(outbox := s.db.outbox[j := Complete(s.db.outbox[j])]))
  {
  }

  lemma Reporting(s: System, w: nat, j: Id)
    requires w in s.workers && s.workers[w] == Completed(j) && j in s.db.outbox && s.db.outbox[j].operation in s.db.operations
    ensures Enabled(s, MarkOpApplied(w))
    ensures Do(s, MarkOpApplied(w)) ==
            s.(workers := s.workers - {w}, db := WithOperation(s.db, s.db.outbox[j].operation, OpStatus.OpApplied))
  {
  }

  lemma InTwo(s: System, a: Event, s1: System, b: Event, t: System)
    requires Enabled(s, a) && Do(s, a) == s1 && Enabled(s1, b) && Do(s1, b) == t
    ensures Reaches(s, [a] + [b], t)
  {
    ReachesOne(s, a, s1);
    ReachesOne(s1, b, t);
    ReachesBoth(s, [a], s1, [b], t);
  }

  // ---------------------------------------------------------------- a successful job

  /** The job can be claimed by a free worker, and its node has a profile. */
  predicate Ready(s: System, w: nat, j: Id, lease: int) {
    && w !in s.workers && j in s.db.outbox && Claimable(s.db.outbox[j], s.now) && lease > 0
    && HasProfile(s.db, s.db.outbox[j].node) && s.db.outbox[j].operation in s.db.operations
  }

  /** A missing interface is brought up first. */
  function RaiseEvents(s: System, w: nat, iface: string, live: Interface): seq<Event> {
    if iface in s.runtime then [] else [BringUp(w, live)]
  }

  function ApplyEvents(s: System, w: nat, j: Id, lease: int, live: Interface, shown: string): seq<Event>
    requires Ready(s, w, j, lease)
  {
    [ClaimJob(w, j, lease)] + [ReadRows(w)] + RaiseEvents(s, w, s.db.nodes[s.db.outbox[j].node].iface, live)
    + ([SyncConf(w, shown)] + [Persist(w)] + ([CompleteJob(w)] + [MarkOpApplied(w)]))
  }

  lemma ClaimThenRead(s: System, w: nat, j: Id, lease: int, t: System)
    requires Ready(s, w, j, lease)
    requires var n := s.db.outbox[j].node;
             t == s.(db := JobClaimed(s.db, j, s.now, lease), workers := s.workers[w := Read(Some(j), n, RowsOf(s.db.peers, n))])
    ensures Reaches(s, [ClaimJob(w, j, lease)] + [ReadRows(w)], t)
  {
    var s1 := Do(s, ClaimJob(w, j, lease));
    Claiming(s, w, j, lease);
    Reading(s1, w, Some(j), s.db.outbox[j].node);
    UpdateTwice(s.workers, w, s1.workers[w], t.workers[w]);
    InTwo(s, ClaimJob(w, j, lease), s1, ReadRows(w), t);
  }

  lemma UpdateTwice<K, V>(m: map<K, V>, k: K, a: V, b: V)
    ensures m[k := a][k := b] == m[k := b]
  {
  }

  lemma MaybeRaise(s: System, w: nat, live: Interface, t: System)
    requires w in s.workers && s.workers[w].Read? && s.workers[w].node in s.db.nodes
    requires var iface := s.db.nodes[s.workers[w].node].iface;
             t == if iface in s.runtime then s else s.(runtime := s.runtime[iface := live])
    ensures Reaches(s, RaiseEvents(s, w, s.db.nodes[s.workers[w].node].iface, live), t)
  {
    if s.db.nodes[s.workers[w].node].iface !in s.runtime {
      Raising(s, w, live);
      ReachesOne(s, BringUp(w, live), t);
    }
  }

  /** The state once the rows have been read, synced and persisted. */
  ghost function AfterApply(s: System, w: nat, shown: string): System
    requires w in s.workers && s.workers[w].Read? && HasProfile(s.db, s.workers[w].node)
  {
    var p := s.workers[w];
    var iface := s.db.nodes[p.node].iface;
    s.(workers := s.workers[w := ApplyDone(p.job, p.node)],
       runtime := s.runtime[iface := Loaded(C.Preserve(Desired(s.db, p.node, p.rows), shown))],
       drifted := s.drifted - {iface},
       db := s.db.(peers := Persisted(s.db.peers, p.rows)))
  }

  lemma SyncThenPersist(s: System, w: nat, shown: string)
    requires w in s.workers && s.workers[w].Read? && HasProfile(s.db, s.workers[w].node)
    requires s.db.nodes[s.workers[w].node].iface in s.runtime
    ensures Reaches(s, [SyncConf(w, shown)] + [Persist(w)], AfterApply(s, w, shown))
  {
    var p := s.workers[w];
    var s1 := Do(s, SyncConf(w, shown));
    Syncing(s, w, p.job, p.node, p.rows, shown);
    Persisting(s1, w, p.job, p.node, p.rows);
    UpdateTwice(s.workers, w, s1.workers[w], ApplyDone(p.job, p.node));
    InTwo(s, SyncConf(w, shown), s1, Persist(w), AfterApply(s, w, shown));
  }

  lemma CompleteThenReport(s: System, w: nat, j: Id, n: Id, t: System)
    requires w in s.workers && s.workers[w] == ApplyDone(Some(j), n) && j in s.db.outbox
    requires s.db.outbox[j].operation in s.db.operations
    requires t == s.(workers := s.workers - {w},
                     db := WithOperation(s.db.(outbox := s.db.outbox[j := Complete(s.db.outbox[j])]),
                                         s.db.outbox[j].operation, OpStatus.OpApplied))
    ensures Reaches(s, [CompleteJob(w)] + [MarkOpApplied(w)], t)
  {
    var s1 := Do(s, CompleteJob(w));
    Completing(s, w, j, n);
    Reporting(s1, w, j);
    assert s.workers[w := Completed(j)] - {w} == s.workers - {w};
    InTwo(s, CompleteJob(w), s1, MarkOpApplied(w), t);
  }

  /** The job is claimed, its node's rows are read, and the interface is up. */
  ghost function BeforeSync(s: System, w: nat, j: Id, lease: int, live: Interface): System
    requires Ready(s, w, j, lease)
  {
    var n := s.db.outbox[j].node;
    var iface := s.db.nodes[n].iface;
    s.(db := JobClaimed(s.db, j, s.now, lease), workers := s.workers[w := Read(Some(j), n, RowsOf(s.db.peers, n))],
       runtime := if iface in s.runtime then s.runtime else s.runtime[iface := live])
  }

  lemma UpToSync(s: System, w: nat, j: Id, lease: int, live: Interface)
    requires Ready(s, w, j, lease)
    ensures Reaches(s, [ClaimJob(w, j, lease)] + [ReadRows(w)] + RaiseEvents(s, w, s.db.nodes[s.db.outbox[j].node].iface, live),
                    BeforeSync(s, w, j, lease, live))
  {
    var n := s.db.outbox[j].node;
    var s1 := s.(db := JobClaimed(s.db, j, s.now, lease), workers := s.workers[w := Read(Some(j), n, RowsOf(s.db.peers, n))]);
    ClaimThenRead(s, w, j, lease, s1);
    MaybeRaise(s1, w, live, BeforeSync(s, w, j, lease, live));
    ReachesBoth(s, [ClaimJob(w, j, lease)] + [ReadRows(w)], s1, RaiseEvents(s, w, s.db.nodes[n].iface, live),
                BeforeSync(s, w, j, lease, live));
  }

  /** The state once a finished apply has been reported. */
  ghost function AfterReport(s: System, w: nat, j: Id): System
    requires j in s.db.outbox
  {
    s.(workers := s.workers - {w},
       db := WithOperation(s.db.(outbox := s.db.outbox[j := Complete(s.db.outbox[j])]),
                           s.db.outbox[j].operation, OpStatus.OpApplied))
  }

  lemma FromSync(s: System, w: nat, j: Id, n: Id, rows: map<Id, Peer>, shown: string)
    requires w in s.workers && s.workers[w] == Read(Some(j), n, rows) && HasProfile(s.db, n) && s.db.nodes[n].iface in s.runtime
    requires j in s.db.outbox && s.db.outbox[j].operation in s.db.operations
    ensures Reaches(s, [SyncConf(w, shown)] + [Persist(w)] + ([CompleteJob(w)] + [MarkOpApplied(w)]),
                    AfterReport(AfterApply(s, w, shown), w, j))
  {
    var t := AfterApply(s, w, shown);
    SyncThenPersist(s, w, shown);
    CompleteThenReport(t, w, j, n, AfterReport(t, w, j));
    ReachesBoth(s, [SyncConf(w, shown)] + [Persist(w)], t, [CompleteJob(w)] + [MarkOpApplied(w)], AfterReport(t, w, j));
  }

  /** The whole system after a job: the rows ProcessJob leaves, and the node's config loaded. */
  ghost function AfterJob(s: System, w: nat, j: Id, lease: int, shown: string): System
    requires Ready(s, w, j, lease)
  {
    var n := s.db.outbox[j].node;
    var iface := s.db.nodes[n].iface;
    s.(db := JobApplied(JobClaimed(s.db, j, s.now, lease), j),
       runtime := s.runtime[iface := Loaded(C.Preserve(Desired(s.db, n, RowsOf(s.db.peers, n)), shown))],
       drifted := s.drifted - {iface})
  }

  /** A job that succeeds, from claim to report, is a run of the protocol with the same effect on the rows. */
  lemma ApplyIsARun(s: System, w: nat, j: Id, lease: int, live: Interface, shown: string)
    requires Ready(s, w, j, lease)
    ensures Reaches(s, ApplyEvents(s, w, j, lease, live, shown), AfterJob(s, w, j, lease, shown))
  {
    var n := s.db.outbox[j].node;
    var mid, t := BeforeSync(s, w, j, lease, live), AfterJob(s, w, j, lease, shown);
    UpToSync(s, w, j, lease, live);
    FromSync(mid, w, j, n, RowsOf(s.db.peers, n), shown);
    JobEnds(s, w, j, lease, live, shown);
    ReachesBoth(s, [ClaimJob(w, j, lease)] + [ReadRows(w)] + RaiseEvents(s, w, s.db.nodes[n].iface, live), mid,
                [SyncConf(w, shown)] + [Persist(w)] + ([CompleteJob(w)] + [MarkOpApplied(w)]), t);
  }

  lemma JobEnds(s: System, w: nat, j: Id, lease: int, live: Interface, shown: string)
    requires Ready(s, w, j, lease)
    ensures AfterReport(AfterApply(BeforeSync(s, w, j, lease, live), w, shown), w, j) == AfterJob(s, w, j, lease, shown)
  {
    RowsEnd(s, w, j, lease, live, shown);
    InterfaceEnds(s, w, j, lease, live, shown);
    WorkersEnd(s.workers, w, Read(Some(j), s.db.outbox[j].node, RowsOf(s.db.peers, s.db.outbox[j].node)),
               ApplyDone(Some(j), s.db.outbox[j].node));
  }

  lemma WorkersEnd(workers: map<nat, Phase>, w: nat, a: Phase, b: Phase)
    requires w !in workers
    ensures workers[w := a][w := b] - {w} == workers
  {
  }

  lemma RowsEnd(s: System, w: nat, j: Id, lease: int, live: Interface, shown: string)
    requires Ready(s, w, j, lease)
    ensures AfterReport(AfterApply(BeforeSync(s, w, j, lease, live), w, shown), w, j).db == AfterJob(s, w, j, lease, shown).db
  {
  }

  lemma InterfaceEnds(s: System, w: nat, j: Id, lease: int, live: Interface, shown: string)
    requires Ready(s, w, j, lease)
    ensures AfterApply(BeforeSync(s, w, j, lease, live), w, shown).runtime == AfterJob(s, w, j, lease, shown).runtime
  {
    var n := s.db.outbox[j].node;
    UpdateTwice(s.runtime, s.db.nodes[n].iface, live, Loaded(C.Preserve(Desired(s.db, n, RowsOf(s.db.peers, n)), shown)));
  }

  // ---------------------------------------------------------------- a job that fails

  lemma Failing(s: System, w: nat, j: Id, retryable: bool)
    requires w in s.workers && InApply(s.workers[w]) && s.workers[w].job == Some(j) && j in s.db.outbox
    ensures Enabled(s, FailJob(w, retryable))
    ensures Do(s, FailJob(w, retryable)) ==
            s.(workers := s.workers[w := Failed(j, retryable)],
               db := s.db.(outbox := s.db.outbox[j := Fail(s.db.outbox[j], retryable)]))
  {
  }

  lemma ReportingFailure(s: System, w: nat, j: Id, retryable: bool)
    requires w in s.workers && s.workers[w] == Failed(j, retryable)
    requires j in s.db.outbox && s.db.outbox[j].operation in s.db.operations
    ensures Enabled(s, MarkOpFailed(w))
    ensures Do(s, MarkOpFailed(w)) ==
            s.(workers := s.workers - {w},
               db := WithOperation(s.db, s.db.outbox[j].operation, if retryable then OpFailedRetryable else OpFailedTerminal))
  {
  }

  /** A worker that gives up, before or after it changed the host, leaves the rows ProcessJob leaves. */
  lemma FailureIsARun(s: System, w: nat, j: Id, retryable: bool)
    requires w in s.workers && InApply(s.workers[w]) && s.workers[w].job == Some(j)
    requires j in s.db.outbox && s.db.outbox[j].operation in s.db.operations
    ensures Reaches(s, [FailJob(w, retryable)] + [MarkOpFailed(w)],
                    s.(db := JobFailed(s.db, j, retryable), workers := s.workers - {w}))
  {
    var s1 := Do(s, FailJob(w, retryable));
    Failing(s, w, j, retryable);
    ReportingFailure(s1, w, j, retryable);
    assert s.workers[w := Failed(j, retryable)] - {w} == s.workers - {w};
    InTwo(s, FailJob(w, retryable), s1, MarkOpFailed(w),
          s.(db := JobFailed(s.db, j, retryable), workers := s.workers - {w}));
  }

  // ---------------------------------------------------------------- the host

  /** What an apply leaves on the host is what the protocol's sync step puts on the interface. */
  lemma HostMatchesSync(db: Db, n: Id, ids: seq<Id>, base: Ex.Iface)
    requires HasProfile(db, n) && OneRowPerKey(RowsOf(db.peers, n)) && Enumerates(ids, RowsOf(db.peers, n))
    ensures var rows := RowsOf(db.peers, n);
            OnHost(KC.KeptSync(base, NodeConfig(db.nodes[n].port, db.profiles[db.nodes[n].profile.value],
                                                RowsAt(rows, ids))).peers) ==
            Loaded(C.Preserve(Desired(db, n, rows), base.rendered))
  {
    var rows, profile := RowsOf(db.peers, n), db.profiles[db.nodes[n].profile.value];
    ConfigIgnoresOrder(db.nodes[n].port, profile, rows, ids);
    SyncLoads(base, C.Preserve(Desired(db, n, rows), base.rendered));
  }
}
