/** The outbox and operation rows: what each statement does to one row. */
module Outbox {
  import opened Tables

  /** Waiting, retryable, or leased past its lease. */
  predicate Claimable(j: Job, now: int) {
    || j.status.Waiting?
    || j.status.FailedRetryable?
    || (j.status.Leased? && j.leasedUntil < now)
  }

  function Claim(j: Job, now: int, lease: int): Job {
    j.(status := Leased, leasedUntil := now + lease, attempts := j.attempts + 1)
  }

  /** Completion and failure look at nothing but the job's id; the lease stays as it was. */
  function Complete(j: Job): Job {
    j.(status := Applied)
  }

  function Fail(j: Job, retryable: bool): Job {
    j.(status := if retryable then FailedRetryable else FailedTerminal)
  }

  function OpApplied(o: Operation): Operation {
    o.(status := OpStatus.OpApplied)
  }

  function OpFailed(o: Operation, retryable: bool): Operation {
    o.(status := if retryable then OpFailedRetryable else OpFailedTerminal)
  }

  /** The row update after an apply: the revision never goes back, and only pending becomes active. */
  function MarkedApplied(p: Peer, revision: nat): Peer {
    p.(applied := if revision > p.applied then revision else p.applied,
       state := if p.state.Pending? then Active else p.state)
  }

  /** One transaction marks every row of the snapshot at the revision the snapshot saw. */
  function Persisted(peers: map<Id, Peer>, rows: map<Id, Peer>): map<Id, Peer> {
    map id | id in peers :: if id in rows then MarkedApplied(peers[id], rows[id].desired) else peers[id]
  }

  /** All rows of a node, revoked ones included. */
  function RowsOf(peers: map<Id, Peer>, node: Id): map<Id, Peer> {
    map id | id in peers && peers[id].node == node :: peers[id]
  }

  // ---------------------------------------------------------------- a job from claim to report

  function JobClaimed(db: Db, j: Id, now: int, lease: int): Db
    requires j in db.outbox
  {
    db.(outbox := db.outbox[j := Claim(db.outbox[j], now, lease)])
  }

  function WithOperation(db: Db, o: Id, status: OpStatus): Db {
    if o in db.operations then db.(operations := db.operations[o := db.operations[o].(status := status)]) else db
  }

  /** The rows after a successful apply of the job's node has been reported. */
  function JobApplied(db: Db, j: Id): Db
    requires j in db.outbox
  {
    var job := db.outbox[j];
    WithOperation(db.(peers := Persisted(db.peers, RowsOf(db.peers, job.node)), outbox := db.outbox[j := Complete(job)]),
                  job.operation, OpStatus.OpApplied)
  }

  /** The rows after a failed apply has been reported: no peer is touched. */
  function JobFailed(db: Db, j: Id, retryable: bool): Db
    requires j in db.outbox
  {
    WithOperation(db.(outbox := db.outbox[j := Fail(db.outbox[j], retryable)]), db.outbox[j].operation,
                  if retryable then OpFailedRetryable else OpFailedTerminal)
  }
}
