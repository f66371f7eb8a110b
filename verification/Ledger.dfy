/**
 * Bookkeeping over every run: commits, operations, jobs, audit events, idempotency records
 * and peers match one to one, and a key is never committed twice.
 */
module Ledger {
  import opened Tables
  import opened Service
  import opened Protocol

  // ---------------------------------------------------------------- the invariant

  /** The stored reply of a create names its operation, peer and address and carries no secret. */
  predicate StoredOk(db: Db, en: Entry, body: Stored) {
    match body
    case StoredCreate(r) =>
      && en.kind.CreateKind? && r.operation == en.operation && r.peer == en.peer && r.node == en.node
      && r.status.OpPending? && r.privateKey == "" && r.clientConfig == "" && r.presharedKey == ""
      && en.peer in db.peers && r.allowedIp == db.peers[en.peer].allowedIp && r.publicKey == db.peers[en.peer].publicKey
    case StoredRevoke(o) => en.kind.RevokeKind? && o == en.operation
  }

  predicate OperationOk(db: Db, en: Entry) {
    && en.operation in db.operations
    && var o := db.operations[en.operation];
       o.tenant == en.key.tenant && o.peer == en.peer && o.node == en.node && o.kind == en.kind && o.hash == en.hash
  }

  predicate JobMatches(db: Db, en: Entry) {
    && en.job in db.outbox
    && var j := db.outbox[en.job];
       j.operation == en.operation && j.peer == en.peer && j.node == en.node && j.kind == en.kind
  }

  predicate RecordOk(db: Db, en: Entry) {
    && en.key in db.idem
    && var r := db.idem[en.key];
       r.operation == en.operation && r.hash == en.hash && r.status == ACCEPTED && StoredOk(db, en, r.body)
  }

  predicate PeerMatches(db: Db, en: Entry) {
    en.peer in db.peers && db.peers[en.peer].tenant == en.key.tenant && db.peers[en.peer].node == en.node
  }

  predicate EntryOk(db: Db, en: Entry) {
    OperationOk(db, en) && JobMatches(db, en) && RecordOk(db, en) && PeerMatches(db, en)
  }

  predicate Distinct(log: seq<Entry>) {
    forall i, k :: 0 <= i < k < |log| ==>
      && log[i].operation != log[k].operation && log[i].job != log[k].job && log[i].key != log[k].key
      && (log[i].kind.CreateKind? && log[k].kind.CreateKind? ==> log[i].peer != log[k].peer)
  }

  ghost predicate Complete(db: Db, log: seq<Entry>) {
    && (forall o :: o in db.operations ==> exists i :: 0 <= i < |log| && log[i].operation == o)
    && (forall j :: j in db.outbox ==> exists i :: 0 <= i < |log| && log[i].job == j)
    && (forall k :: k in db.idem ==> exists i :: 0 <= i < |log| && log[i].key == k)
    && (forall p :: p in db.peers ==> exists i :: 0 <= i < |log| && log[i].kind.CreateKind? && log[i].peer == p)
  }

  predicate Audited(db: Db, log: seq<Entry>) {
    && |db.audit| == |log|
    && forall i :: 0 <= i < |log| ==> db.audit[i] == AuditEvent(log[i].kind, log[i].peer, log[i].key)
  }

  /** Each table is in one-to-one correspondence with the log. */
  ghost predicate Balanced(db: Db, log: seq<Entry>) {
    && Distinct(log) && Complete(db, log) && Audited(db, log)
    && forall i :: 0 <= i < |log| ==> EntryOk(db, log[i])
  }

  // ---------------------------------------------------------------- steps that write no entry

  predicate SameIdentity(p: Peer, q: Peer) {
    q.tenant == p.tenant && q.node == p.node && q.allowedIp == p.allowedIp && q.publicKey == p.publicKey
  }

  predicate SameJob(a: Job, b: Job) {
    b.operation == a.operation && b.node == a.node && b.peer == a.peer && b.kind == a.kind
  }

  /** Old rows keep what the ledger looks at. */
  predicate Extends(db: Db, db': Db) {
    && (forall p :: p in db.peers ==> p in db'.peers && SameIdentity(db.peers[p], db'.peers[p]))
    && (forall o :: o in db.operations ==>
          o in db'.operations && db'.operations[o] == db.operations[o].(status := db'.operations[o].status))
    && (forall j :: j in db.outbox ==> j in db'.outbox && SameJob(db.outbox[j], db'.outbox[j]))
    && (forall k :: k in db.idem ==> k in db'.idem && db'.idem[k] == db.idem[k])
  }

  /** New rows have new keys, and changed jobs and operations keep their identity. */
  predicate Fits(db: Db, f: Effect) {
    && Applicable(db, f)
    && match f
       case CreateEffect(i, r, g) => i.key !in db.idem && FreshIds(db, g)
       case RevokeEffect(w, o, j) =>
         && w.key !in db.idem && o !in db.operations && j !in db.outbox
         && db.peers[w.peer].tenant == w.key.tenant
       case JobEffect(j, row) => j in db.outbox && SameJob(db.outbox[j], row)
       case OpEffect(o, op) => o in db.operations && op == db.operations[o].(status := op.status)
       case _ => true
  }

  lemma EffectFits(s: System, e: Event)
    requires Enabled(s, e)
    ensures Fits(s.db, EffectOf(s, e))
  {
    EffectApplicable(s, e);
  }

  lemma EffectExtends(db: Db, f: Effect, now: int, ttl: int)
    requires Fits(db, f)
    ensures Extends(db, After(db, f, now, ttl))
  {
  }

  lemma EntryKept(db: Db, db': Db, en: Entry)
    requires EntryOk(db, en) && Extends(db, db')
    ensures EntryOk(db', en)
  {
    assert en.peer in db.peers && SameIdentity(db.peers[en.peer], db'.peers[en.peer]);
    assert SameJob(db.outbox[en.job], db'.outbox[en.job]);
  }

  lemma QuietBalanced(db: Db, db': Db, log: seq<Entry>)
    requires Balanced(db, log) && Extends(db, db')
    requires db'.operations.Keys == db.operations.Keys && db'.outbox.Keys == db.outbox.Keys
    requires db'.idem.Keys == db.idem.Keys && db'.peers.Keys == db.peers.Keys && db'.audit == db.audit
    ensures Balanced(db', log)
  {
    forall i | 0 <= i < |log|
      ensures EntryOk(db', log[i])
    {
      EntryKept(db, db', log[i]);
    }
    QuietComplete(db, db', log);
  }

  lemma QuietKeys(db: Db, f: Effect, now: int, ttl: int)
    requires Fits(db, f) && EntryOf(db, f).None?
    ensures var db' := After(db, f, now, ttl);
            && db'.operations.Keys == db.operations.Keys && db'.outbox.Keys == db.outbox.Keys
            && db'.idem.Keys == db.idem.Keys && db'.peers.Keys == db.peers.Keys && db'.audit == db.audit
  {
  }

  lemma QuietComplete(db: Db, db': Db, log: seq<Entry>)
    requires Complete(db, log)
    requires db'.operations.Keys == db.operations.Keys && db'.outbox.Keys == db.outbox.Keys
    requires db'.idem.Keys == db.idem.Keys && db'.peers.Keys == db.peers.Keys
    ensures Complete(db', log)
  {
  }

  // ---------------------------------------------------------------- steps that write one entry

  /** What a committing step adds: one fresh key in each table, and a peer exactly when it creates. */
  predicate Adds(db: Db, db': Db, en: Entry) {
    && en.operation !in db.operations && db'.operations.Keys == db.operations.Keys + {en.operation}
    && en.job !in db.outbox && db'.outbox.Keys == db.outbox.Keys + {en.job}
    && en.key !in db.idem && db'.idem.Keys == db.idem.Keys + {en.key}
    && (en.kind.CreateKind? ==> en.peer !in db.peers)
    && db'.peers.Keys == db.peers.Keys + {en.peer}
    && (en.kind.RevokeKind? ==> en.peer in db.peers)
    && db'.audit == db.audit + [AuditEvent(en.kind, en.peer, en.key)]
  }

  lemma CommitAdds(db: Db, f: Effect, now: int, ttl: int)
    requires Fits(db, f) && EntryOf(db, f).Some?
    ensures Adds(db, After(db, f, now, ttl), EntryOf(db, f).value)
    ensures EntryOk(After(db, f, now, ttl), EntryOf(db, f).value)
  {
  }

  lemma CommitBalanced(db: Db, db': Db, log: seq<Entry>, en: Entry)
    requires Balanced(db, log) && Adds(db, db', en) && EntryOk(db', en) && Extends(db, db')
    ensures Balanced(db', log + [en])
  {
    var log' := log + [en];
    forall i | 0 <= i < |log'|
      ensures EntryOk(db', log'[i])
    {
      if i < |log| {
        EntryKept(db, db', log[i]);
      }
    }
    CommitDistinct(db, db', log, en);
    CommitComplete(db, db', log, en);
    CommitAudited(db, db', log, en);
  }

  /** The new keys are in no table, so they differ from those of every earlier entry. */
  lemma CommitDistinct(db: Db, db': Db, log: seq<Entry>, en: Entry)
    requires Distinct(log) && Adds(db, db', en) && forall i :: 0 <= i < |log| ==> EntryOk(db, log[i])
    ensures Distinct(log + [en])
  {
    forall i | 0 <= i < |log|
      ensures log[i].operation != en.operation && log[i].job != en.job && log[i].key != en.key
      ensures en.kind.CreateKind? ==> log[i].peer != en.peer
    {
      assert EntryOk(db, log[i]);
    }
  }

  lemma CommitAudited(db: Db, db': Db, log: seq<Entry>, en: Entry)
    requires Audited(db, log) && Adds(db, db', en)
    ensures Audited(db', log + [en])
  {
  }

  lemma CommitComplete(db: Db, db': Db, log: seq<Entry>, en: Entry)
    requires Complete(db, log) && Adds(db, db', en)
    ensures Complete(db', log + [en])
  {
    var log' := log + [en];
    assert log'[|log|] == en;
    assert forall i :: 0 <= i < |log| ==> log'[i] == log[i];
  }

  // ---------------------------------------------------------------- the theorems

  lemma BalancedAfter(db: Db, f: Effect, now: int, ttl: int, log: seq<Entry>)
    requires Fits(db, f) && Balanced(db, log)
    ensures Balanced(After(db, f, now, ttl), LogAfter(db, log, f))
  {
    EffectExtends(db, f, now, ttl);
    if EntryOf(db, f).None? {
      QuietKeys(db, f, now, ttl);
      QuietBalanced(db, After(db, f, now, ttl), log);
    } else {
      CommitAdds(db, f, now, ttl);
      CommitBalanced(db, After(db, f, now, ttl), log, EntryOf(db, f).value);
    }
  }

  lemma BalancedNext(states: seq<System>, events: seq<Event>, i: nat)
    requires IsTrace(states, events) && i < |events| && Balanced(states[i].db, states[i].log)
    ensures Balanced(states[i + 1].db, states[i + 1].log)
  {
    EffectFits(states[i], events[i]);
    BalancedAfter(states[i].db, EffectOf(states[i], events[i]), states[i].now, states[i].ttl, states[i].log);
  }

  lemma InitBalanced(s: System)
    requires Init(s)
    ensures Balanced(s.db, s.log)
  {
  }

  /** In every state of every run the tables balance with the writes committed so far. */
  lemma AlwaysBalanced(states: seq<System>, events: seq<Event>)
    requires IsTrace(states, events) && Init(states[0])
    ensures forall n :: 0 <= n < |states| ==> Balanced(states[n].db, states[n].log)
  {
    InitBalanced(states[0]);
    var k := 0;
    while k < |events|
      invariant 0 <= k <= |events|
      invariant forall n :: 0 <= n <= k ==> Balanced(states[n].db, states[n].log)
    {
      BalancedNext(states, events, k);
      k := k + 1;
    }
  }

  /** A column without repetitions that lists exactly the keys of a table counts its rows. */
  lemma {:induction false} ColumnCounts<T>(column: seq<T>, keys: set<T>)
    requires forall i, k :: 0 <= i < k < |column| ==> column[i] != column[k]
    requires forall i :: 0 <= i < |column| ==> column[i] in keys
    requires forall x :: x in keys ==> x in column
    ensures |keys| == |column|
  {
    if |column| == 0 {
      assert keys == {};
    } else {
      var n := |column| - 1;
      var rest := keys - {column[n]};
      forall x | x in rest
        ensures x in column[..n]
      {
        assert x in column && x != column[n];
      }
      ColumnCounts(column[..n], rest);
    }
  }

  function Operations(log: seq<Entry>): (c: seq<Id>)
    ensures |c| == |log| && forall i :: 0 <= i < |c| ==> c[i] == log[i].operation
  {
    seq(|log|, i requires 0 <= i < |log| => log[i].operation)
  }

  function Jobs(log: seq<Entry>): (c: seq<Id>)
    ensures |c| == |log| && forall i :: 0 <= i < |c| ==> c[i] == log[i].job
  {
    seq(|log|, i requires 0 <= i < |log| => log[i].job)
  }

  function Keys(log: seq<Entry>): (c: seq<IdemKey>)
    ensures |c| == |log| && forall i :: 0 <= i < |c| ==> c[i] == log[i].key
  {
    seq(|log|, i requires 0 <= i < |log| => log[i].key)
  }

  lemma ColumnMembers(db: Db, log: seq<Entry>)
    requires forall i :: 0 <= i < |log| ==> EntryOk(db, log[i])
    ensures forall i :: 0 <= i < |log| ==> log[i].operation in db.operations
    ensures forall i :: 0 <= i < |log| ==> log[i].job in db.outbox
    ensures forall i :: 0 <= i < |log| ==> log[i].key in db.idem
  {
  }

  lemma ColumnComplete(db: Db, log: seq<Entry>)
    requires Complete(db, log)
    ensures forall x :: x in db.operations ==> x in Operations(log)
    ensures forall x :: x in db.outbox ==> x in Jobs(log)
    ensures forall x :: x in db.idem ==> x in Keys(log)
  {
    forall x | x in db.operations ensures x in Operations(log) {
      var i :| 0 <= i < |log| && log[i].operation == x;
      assert Operations(log)[i] == x;
    }
    forall x | x in db.outbox ensures x in Jobs(log) {
      var i :| 0 <= i < |log| && log[i].job == x;
      assert Jobs(log)[i] == x;
    }
    forall x | x in db.idem ensures x in Keys(log) {
      var i :| 0 <= i < |log| && log[i].key == x;
      assert Keys(log)[i] == x;
    }
  }

  lemma CountOperations(db: Db, log: seq<Entry>)
    requires Distinct(log)
    requires forall i :: 0 <= i < |log| ==> log[i].operation in db.operations
    requires forall x :: x in db.operations ==> x in Operations(log)
    ensures |db.operations| == |log|
  {
    ColumnCounts(Operations(log), db.operations.Keys);
  }

  lemma CountJobs(db: Db, log: seq<Entry>)
    requires Distinct(log)
    requires forall i :: 0 <= i < |log| ==> log[i].job in db.outbox
    requires forall x :: x in db.outbox ==> x in Jobs(log)
    ensures |db.outbox| == |log|
  {
    ColumnCounts(Jobs(log), db.outbox.Keys);
  }

  lemma CountRecords(db: Db, log: seq<Entry>)
    requires Distinct(log)
    requires forall i :: 0 <= i < |log| ==> log[i].key in db.idem
    requires forall x :: x in db.idem ==> x in Keys(log)
    ensures |db.idem| == |log|
  {
    ColumnCounts(Keys(log), db.idem.Keys);
  }

  lemma BalancedOperations(db: Db, log: seq<Entry>)
    requires Balanced(db, log)
    ensures |db.operations| == |log|
  {
    ColumnMembers(db, log);
    ColumnComplete(db, log);
    CountOperations(db, log);
  }

  lemma BalancedJobs(db: Db, log: seq<Entry>)
    requires Balanced(db, log)
    ensures |db.outbox| == |log|
  {
    ColumnMembers(db, log);
    ColumnComplete(db, log);
    CountJobs(db, log);
  }

  lemma BalancedRecords(db: Db, log: seq<Entry>)
    requires Balanced(db, log)
    ensures |db.idem| == |log|
  {
    ColumnMembers(db, log);
    ColumnComplete(db, log);
    CountRecords(db, log);
  }

  /** The tables have as many rows as the run has committed writes. */
  lemma SameCounts(states: seq<System>, events: seq<Event>, n: nat)
    requires IsTrace(states, events) && Init(states[0]) && n <= |events|
    ensures var db := states[n].db;
            |db.operations| == |db.outbox| == |db.idem| == |db.audit| == |states[n].log|
  {
    AlwaysBalanced(states, events);
    BalancedOperations(states[n].db, states[n].log);
    BalancedJobs(states[n].db, states[n].log);
    BalancedRecords(states[n].db, states[n].log);
  }
}
