/** At-most-once writes: what a key does after its write has committed. */
module Idempotency {
  import opened Wrappers
  import opened Tables
  import opened Service
  import opened Protocol
  import opened Ledger

  /** The answer a request gets from its checks and its lookup; Proceeds means the transaction goes on. */
  datatype Reply =
    | Refused(error: Error)
    | Replayed(status: int, body: Stored)
    | Proceeds

  function AnswerFrom(record: Option<Record>, hash: Request): Reply {
    match record
    case None => Proceeds
    case Some(r) => if r.hash != hash then Refused(IdempotencyConflict) else Replayed(r.status, r.body)
  }

  ghost function CreateReply(db: Db, now: int, caller: Option<Principal>, slug: string, key: string, body: CreateBody): Reply {
    match ResolveCreate(db, caller, slug, key, body)
    case Err(e) => Refused(e)
    case Ok(i) => AnswerFrom(Lookup(db, i.key, now), i.Hash())
  }

  function RevokeReply(db: Db, now: int, caller: Option<Principal>, slug: string, key: string, peer: UuidText, reason: string): Reply {
    match ResolveRevoke(db, caller, slug, key, peer, reason)
    case Err(e) => Refused(e)
    case Ok(w) => AnswerFrom(Lookup(db, w.key, now), w.Hash())
  }

  /** The event begins a request that passes its checks under this key with this hash. */
  ghost predicate Requests(s: System, e: Event, key: IdemKey, hash: Request) {
    match e
    case BeginCreate(_, caller, slug, k, body) =>
      var r := ResolveCreate(s.db, caller, slug, k, body);
      r.Ok? && r.value.key == key && r.value.Hash() == hash
    case BeginRevoke(_, caller, slug, k, peer, reason) =>
      var r := ResolveRevoke(s.db, caller, slug, k, peer, reason);
      r.Ok? && r.value.key == key && r.value.Hash() == hash
    case _ => false
  }

  ghost function ReplyTo(s: System, e: Event): Reply
    requires e.BeginCreate? || e.BeginRevoke?
  {
    match e
    case BeginCreate(_, caller, slug, key, body) => CreateReply(s.db, s.now, caller, slug, key, body)
    case BeginRevoke(_, caller, slug, key, peer, reason) => RevokeReply(s.db, s.now, caller, slug, key, peer, reason)
  }

  /** The write a step commits, if any. */
  ghost function Written(s: System, e: Event): Option<Entry>
    requires Enabled(s, e)
  {
    EffectApplicable(s, e);
    EntryOf(s.db, EffectOf(s, e))
  }

  /** The step commits a write under this key. */
  ghost predicate Commits(s: System, e: Event, key: IdemKey) {
    Enabled(s, e) && Written(s, e).Some? && Written(s, e).value.key == key
  }

  // ---------------------------------------------------------------- records are for good

  function RecordAt(db: Db, key: IdemKey): Option<Record> {
    if key in db.idem then Some(db.idem[key]) else None
  }

  lemma {:induction false} RecordStays(states: seq<System>, events: seq<Event>, i: nat, k: nat, key: IdemKey)
    requires IsTrace(states, events) && i <= k < |states| && RecordAt(states[i].db, key).Some?
    ensures RecordAt(states[k].db, key) == RecordAt(states[i].db, key)
    decreases k
  {
    if i < k {
      RecordStays(states, events, i, k - 1, key);
      RecordKept(states, events, k - 1, key);
    }
  }

  lemma RecordKept(states: seq<System>, events: seq<Event>, i: nat, key: IdemKey)
    requires IsTrace(states, events) && i < |events| && RecordAt(states[i].db, key).Some?
    ensures RecordAt(states[i + 1].db, key) == RecordAt(states[i].db, key)
  {
    EffectFits(states[i], events[i]);
    EffectExtends(states[i].db, EffectOf(states[i], events[i]), states[i].now, states[i].ttl);
  }

  /** At most one create or revoke ever commits under a tenant's key, expired or not. */
  lemma AtMostOnce(states: seq<System>, events: seq<Event>, i: nat, k: nat, key: IdemKey)
    requires IsTrace(states, events) && i < k < |events|
    requires Commits(states[i], events[i], key)
    ensures !Commits(states[k], events[k], key)
  {
    CommitIsFirst(states[i], events[i], key);
    RecordStays(states, events, i + 1, k, key);
    if Commits(states[k], events[k], key) {
      CommitIsFirst(states[k], events[k], key);
    }
  }

  lemma CommitIsFirst(s: System, e: Event, key: IdemKey)
    requires Commits(s, e, key)
    ensures RecordAt(s.db, key).None? && RecordAt(Do(s, e).db, key).Some?
  {
    EffectFits(s, e);
  }

  // ---------------------------------------------------------------- replays

  /** What a committing step stores for replays. */
  ghost function StoredBy(s: System, e: Event): Stored
    requires Enabled(s, e) && Written(s, e).Some?
  {
    var f := EffectOf(s, e);
    if f.CreateEffect? then StoredCreate(Sanitized(Response(f.intent, f.reservation, f.grant)))
    else StoredRevoke(Written(s, e).value.operation)
  }

  /** The record the commit wrote. */
  lemma CommittedRecord(s: System, e: Event, key: IdemKey)
    requires Commits(s, e, key)
    ensures key in Do(s, e).db.idem
    ensures var r := Do(s, e).db.idem[key];
            && r.expiresAt == s.now + s.ttl && r.hash == Written(s, e).value.hash && r.status == ACCEPTED
            && r.operation == Written(s, e).value.operation && r.body == StoredBy(s, e)
  {
    EffectApplicable(s, e);
  }

  /**
   * After a commit under a key and until its record expires, the same request is answered
   * from the record: the stored operation (for a create also peer and address) with no
   * secret; any other request under the key conflicts. Neither changes anything.
   */
  lemma ReplayIsStored(states: seq<System>, events: seq<Event>, i: nat, k: nat, key: IdemKey, hash: Request)
    requires IsTrace(states, events) && i < k < |events|
    requires Commits(states[i], events[i], key) && Requests(states[k], events[k], key, hash)
    requires states[k].now < states[i].now + states[i].ttl
    ensures states[k + 1] == states[k]
    ensures hash == Written(states[i], events[i]).value.hash ==>
              ReplyTo(states[k], events[k]) == Replayed(ACCEPTED, StoredBy(states[i], events[i]))
    ensures hash != Written(states[i], events[i]).value.hash ==>
              ReplyTo(states[k], events[k]) == Refused(IdempotencyConflict)
  {
    CommittedRecord(states[i], events[i], key);
    RecordStays(states, events, i + 1, k, key);
    HitChangesNothing(states[k], events[k], key, hash);
  }

  lemma HitChangesNothing(s: System, e: Event, key: IdemKey, hash: Request)
    requires Enabled(s, e) && Requests(s, e, key, hash) && Lookup(s.db, key, s.now).Some?
    ensures Do(s, e) == s
    ensures ReplyTo(s, e) == AnswerFrom(Lookup(s.db, key, s.now), hash)
  {
  }
}
