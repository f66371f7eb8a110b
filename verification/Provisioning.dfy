/**
 * Create-only provisioning of V3.1 nodes. Any number of operators run at once; each holds
 * the advisory lock from its checks to its commit or rollback, and a file it created is
 * removed only after the rollback has released the lock.
 */
module Provisioning {
  import opened Wrappers
  import opened Netip
  import opened Profiles
  import opened Tables
  import opened Nodes
  import opened Service

  /** Where a bootstrap config goes: one file per directory, spelled as filepath.Clean leaves it, and interface name. */
  datatype Path = Path(dir: string, iface: string)

  datatype Options = Options(
    tenant: Id, profile: Profile, hostname: string, iface: string, port: int, cidr: Prefix,
    dir: string, serverPublicKey: string, config: string)
  {
    function File(): Path {
      Path(dir, iface)
    }
  }

  /** What is known before the transaction: the options passed their checks and a V3.1 profile was made. */
  predicate Acceptable(o: Options) {
    && o.hostname != "" && o.iface != "" && 1 <= o.port <= 65535 && o.profile.IsV31()
    && IsMasked(o.cidr) && ServerAddressFromPool(o.cidr).Some?
  }

  // ---------------------------------------------------------------- the transaction

  /** The availability queries. */
  predicate Available(db: Db, o: Options)
    requires MaskedPools(db) && IsMasked(o.cidr)
  {
    && (forall p :: p in db.profiles ==> db.profiles[p].name != o.profile.name)
    && (forall n :: n in db.nodes ==> db.nodes[n].hostname != o.hostname)
    && (forall n :: n in db.nodes ==> db.nodes[n].iface != o.iface)
    && (forall n :: n in db.nodes ==> db.nodes[n].port != o.port)
    && (forall q :: q in db.pools ==> !Overlap(db.pools[q].cidr, o.cidr))
  }

  predicate MaskedPools(db: Db) {
    forall q :: q in db.pools ==> IsMasked(db.pools[q].cidr)
  }

  datatype NewIds = NewIds(profile: Id, node: Id, pool: Id)

  predicate FreshRows(db: Db, ids: NewIds) {
    ids.profile !in db.profiles && ids.node !in db.nodes && ids.pool !in db.pools
  }

  function NewNode(o: Options, profile: Id): Node {
    Node(o.hostname, o.iface, o.port, Some(profile), o.serverPublicKey)
  }

  /** The three rows of a commit. */
  function WithNode(db: Db, o: Options, ids: NewIds): Db {
    db.(profiles := db.profiles[ids.profile := o.profile],
        nodes := db.nodes[ids.node := NewNode(o, ids.profile)],
        pools := db.pools[ids.pool := Pool(o.tenant, ids.node, o.cidr, Invalid)])
  }

  // ---------------------------------------------------------------- steps

  /** Where an operator is. */
  datatype Operator =
    | Waiting(options: Options)
    | Locked(options: Options)
    | Cleared(options: Options)
    | Writing(options: Options)
    | Written(options: Options)
    | Removing(options: Options)

  predicate HoldsLock(p: Operator) {
    p.Locked? || p.Cleared? || p.Writing? || p.Written?
  }

  /** Phases in which the operator's own file exists. */
  predicate OwnsFile(p: Operator) {
    p.Writing? || p.Written? || p.Removing?
  }

  datatype Owner = Found | OfNode(node: Id) | OfOperator(op: nat)

  datatype World = World(
    db: Db,
    files: map<Path, string>,
    lock: Option<nat>,
    operators: map<nat, Operator>,
    // History: the options of every node committed so far.
    committed: map<Id, Options>,
    // History: whose each file is.
    owner: map<Path, Owner>)

  datatype Step =
    | Begin(op: nat, options: Options)
    | Acquire(op: nat)
    | CheckFree(op: nat)
    | CreateFile(op: nat)
    | FinishFile(op: nat)
    | Commit(op: nat, ids: NewIds)
    | Rollback(op: nat)
    | RemoveFile(op: nat)
    | Elsewhere(db: Db)

  /** Requests and workers touch neither nodes, profiles nor networks. */
  predicate SameTopology(a: Db, b: Db) {
    && a.nodes == b.nodes && a.profiles == b.profiles && a.pools.Keys == b.pools.Keys
    && forall q :: q in a.pools ==> b.pools[q].cidr == a.pools[q].cidr
  }

  predicate Enabled(w: World, s: Step) {
    match s
    case Begin(op, _) => op !in w.operators
    case Acquire(op) => op in w.operators && w.operators[op].Waiting? && w.lock.None?
    case CheckFree(op) => op in w.operators && w.operators[op].Locked?
    case CreateFile(op) => op in w.operators && w.operators[op].Cleared?
    case FinishFile(op) => op in w.operators && w.operators[op].Writing?
    case Commit(op, ids) => op in w.operators && w.operators[op].Written? && FreshRows(w.db, ids)
    case Rollback(op) => op in w.operators && (w.operators[op].Waiting? || HoldsLock(w.operators[op]))
    case RemoveFile(op) => op in w.operators && w.operators[op].Removing?
    case Elsewhere(db) => SameTopology(w.db, db)
  }

  function Released(w: World, op: nat): Option<nat> {
    if w.lock == Some(op) then None else w.lock
  }

  /** A rollback: a file still being written goes at once, a finished one after the lock. */
  function RolledBack(w: World, op: nat): World
    requires op in w.operators
  {
    var p := w.operators[op];
    w.(lock := Released(w, op),
       files := if p.Writing? then w.files - {p.options.File()} else w.files,
       owner := if p.Writing? then w.owner - {p.options.File()} else w.owner,
       operators := if p.Written? then w.operators[op := Removing(p.options)] else w.operators - {op})
  }

  /** A step, given the answer of the availability queries. */
  function Moved(w: World, s: Step, free: bool): World
    requires Enabled(w, s)
  {
    match s
    case Begin(op, o) => w.(operators := w.operators[op := Operator.Waiting(o)])
    case Acquire(op) => w.(lock := Some(op), operators := w.operators[op := Locked(w.operators[op].options)])
    case CheckFree(op) =>
      if free then w.(operators := w.operators[op := Cleared(w.operators[op].options)]) else RolledBack(w, op)
    case CreateFile(op) =>
      var o := w.operators[op].options;
      if o.File() in w.files then RolledBack(w, op)
      else w.(files := w.files[o.File() := ""], operators := w.operators[op := Writing(o)],
              owner := w.owner[o.File() := OfOperator(op)])
    case FinishFile(op) =>
      var o := w.operators[op].options;
      w.(files := w.files[o.File() := o.config], operators := w.operators[op := Written(o)])
    case Commit(op, ids) =>
      var o := w.operators[op].options;
      w.(db := WithNode(w.db, o, ids), lock := Released(w, op), operators := w.operators - {op},
         committed := w.committed[ids.node := o], owner := w.owner[o.File() := OfNode(ids.node)])
    case Rollback(op) => RolledBack(w, op)
    case RemoveFile(op) =>
      var f := w.operators[op].options.File();
      w.(files := w.files - {f}, owner := w.owner - {f}, operators := w.operators - {op})
    case Elsewhere(db) => w.(db := db)
  }

  /** Options that fail the checks made before the transaction never begin. */
  predicate Admitted(s: Step) {
    s.Begin? ==> Acceptable(s.options)
  }

  predicate AllAcceptable(w: World) {
    forall op :: op in w.operators ==> Acceptable(w.operators[op].options)
  }

  predicate Free(w: World, s: Step)
    requires MaskedPools(w.db) && AllAcceptable(w) && Enabled(w, s)
  {
    s.CheckFree? && Available(w.db, w.operators[s.op].options)
  }

  function Next(w: World, s: Step): World
    requires MaskedPools(w.db) && AllAcceptable(w) && Enabled(w, s)
  {
    Moved(w, s, Free(w, s))
  }

  // ---------------------------------------------------------------- what holds throughout

  /** What the database itself enforces: host names are unique, and profiles of nodes exist. */
  predicate Kept(db: Db) {
    && UniqueHostnames(db)
    && forall n :: n in db.nodes && db.nodes[n].profile.Some? ==> db.nodes[n].profile.value in db.profiles
  }

  predicate SharesName(a: Node, b: Node) {
    a.iface == b.iface || a.port == b.port
  }

  /** Rows of the start are as they were. */
  predicate StartStays(start: Db, db: Db) {
    && (forall n :: n in start.nodes ==> n in db.nodes && db.nodes[n] == start.nodes[n])
    && (forall q :: q in start.pools ==> q in db.pools && db.pools[q].cidr == start.pools[q].cidr)
  }

  /** Nodes that share an interface name or a port were both there at the start. */
  predicate NodesApart(start: Db, db: Db) {
    forall a, b :: a in db.nodes && b in db.nodes && a != b && SharesName(db.nodes[a], db.nodes[b]) ==>
      a in start.nodes && b in start.nodes
  }

  /** Pools that share an address were both there at the start. */
  ghost predicate PoolsApart(start: Db, db: Db)
    requires MaskedPools(db)
  {
    forall a, b, x ::
      a in db.pools && b in db.pools && a != b && Contains(db.pools[a].cidr, x) && Contains(db.pools[b].cidr, x) ==>
        a in start.pools && b in start.pools
  }

  /** The lock has one holder. */
  predicate OneHolder(w: World) {
    && (forall op :: op in w.operators && HoldsLock(w.operators[op]) ==> w.lock == Some(op))
    && (w.lock.Some? ==> w.lock.value in w.operators && HoldsLock(w.operators[w.lock.value]))
  }

  /** A holder past the checks has found the names free, and they stay free. */
  predicate HolderClear(w: World)
    requires MaskedPools(w.db) && AllAcceptable(w)
  {
    forall op :: op in w.operators && PastChecks(w.operators[op]) ==> Available(w.db, w.operators[op].options)
  }

  predicate PastChecks(p: Operator) {
    p.Cleared? || p.Writing? || p.Written?
  }

  predicate LockInv(w: World) {
    MaskedPools(w.db) && AllAcceptable(w) && OneHolder(w) && HolderClear(w)
  }

  lemma TopologyAvailable(a: Db, b: Db, o: Options)
    requires MaskedPools(a) && SameTopology(a, b) && IsMasked(o.cidr)
    ensures MaskedPools(b) && (Available(a, o) <==> Available(b, o))
  {
  }

  lemma HolderStep(w: World, s: Step, free: bool)
    requires OneHolder(w) && Enabled(w, s)
    ensures OneHolder(Moved(w, s, free))
  {
  }

  lemma AcceptableStep(w: World, s: Step, free: bool, op: nat)
    requires Enabled(w, s) && op in Moved(w, s, free).operators
    ensures (op in w.operators && Moved(w, s, free).operators[op].options == w.operators[op].options)
            || (s.Begin? && op == s.op && Moved(w, s, free).operators[op].options == s.options)
  {
  }

  lemma MaskedStep(w: World, s: Step, free: bool)
    requires MaskedPools(w.db) && AllAcceptable(w) && Enabled(w, s)
    ensures MaskedPools(Moved(w, s, free).db)
  {
    if s.Commit? {
      assert Acceptable(w.operators[s.op].options);
    }
  }

  /** Who is past the checks after a step was so before, or has just been found free; then nothing was committed. */
  lemma PastChecksStep(w: World, s: Step, free: bool, op: nat)
    requires OneHolder(w) && Enabled(w, s)
    requires op in Moved(w, s, free).operators && PastChecks(Moved(w, s, free).operators[op])
    ensures op in w.operators && Moved(w, s, free).operators[op].options == w.operators[op].options
    ensures PastChecks(w.operators[op]) || (s.CheckFree? && s.op == op && free)
    ensures !s.Commit? && (s.Elsewhere? || Moved(w, s, free).db == w.db)
  {
  }

  lemma ClearStep(w: World, s: Step, op: nat)
    requires LockInv(w) && Enabled(w, s) && op in Next(w, s).operators && PastChecks(Next(w, s).operators[op])
    ensures MaskedPools(Next(w, s).db) && IsMasked(Next(w, s).operators[op].options.cidr)
    ensures Available(Next(w, s).db, Next(w, s).operators[op].options)
  {
    var free := Free(w, s);
    PastChecksStep(w, s, free, op);
    assert Acceptable(w.operators[op].options);
    assert Available(w.db, w.operators[op].options);
    if s.Elsewhere? {
      TopologyAvailable(w.db, s.db, w.operators[op].options);
    }
  }

  lemma LockStep(w: World, s: Step)
    requires LockInv(w) && Enabled(w, s) && Admitted(s)
    ensures LockInv(Next(w, s))
  {
    var w' := Next(w, s);
    HolderStep(w, s, Free(w, s));
    MaskedStep(w, s, Free(w, s));
    forall op | op in w'.operators
      ensures Acceptable(w'.operators[op].options)
    {
      AcceptableStep(w, s, Free(w, s), op);
    }
    forall op | op in w'.operators && PastChecks(w'.operators[op])
      ensures Available(w'.db, w'.operators[op].options)
    {
      ClearStep(w, s, op);
    }
  }

  // ---------------------------------------------------------------- names and networks

  lemma CommitKept(db: Db, o: Options, ids: NewIds)
    requires MaskedPools(db) && IsMasked(o.cidr) && Kept(db) && Available(db, o) && FreshRows(db, ids)
    ensures Kept(WithNode(db, o, ids))
  {
  }

  lemma CommitUnique(start: Db, db: Db, o: Options, ids: NewIds)
    requires MaskedPools(db) && IsMasked(o.cidr) && Available(db, o) && FreshRows(db, ids)
    requires StartStays(start, db) && NodesApart(start, db)
    ensures StartStays(start, WithNode(db, o, ids)) && NodesApart(start, WithNode(db, o, ids))
  {
  }

  lemma CommitDisjoint(start: Db, db: Db, o: Options, ids: NewIds)
    requires MaskedPools(db) && IsMasked(o.cidr) && Available(db, o) && FreshRows(db, ids) && PoolsApart(start, db)
    ensures MaskedPools(WithNode(db, o, ids)) && PoolsApart(start, WithNode(db, o, ids))
  {
    var db' := WithNode(db, o, ids);
    forall a, b, x | a in db'.pools && b in db'.pools && a != b
                     && Contains(db'.pools[a].cidr, x) && Contains(db'.pools[b].cidr, x)
      ensures a in start.pools && b in start.pools
    {
      if a == ids.pool {
        OverlapIsSharedAddress(db.pools[b].cidr, o.cidr);
      } else if b == ids.pool {
        OverlapIsSharedAddress(db.pools[a].cidr, o.cidr);
      }
    }
  }

  /** Only a commit changes nodes and networks. */
  lemma TopologyMoves(w: World, s: Step, free: bool)
    requires Enabled(w, s)
    ensures s.Commit? ==> Moved(w, s, free).db == WithNode(w.db, w.operators[s.op].options, s.ids)
    ensures !s.Commit? ==> SameTopology(w.db, Moved(w, s, free).db)
  {
  }

  /** What is known of nodes and networks throughout. */
  ghost predicate TopologyInv(start: Db, db: Db) {
    MaskedPools(db) && Kept(db) && StartStays(start, db) && NodesApart(start, db) && PoolsApart(start, db)
  }

  lemma SameTopologyKeeps(start: Db, a: Db, b: Db)
    requires SameTopology(a, b) && TopologyInv(start, a)
    ensures TopologyInv(start, b)
  {
  }

  lemma TopologyStep(start: Db, w: World, s: Step)
    requires LockInv(w) && Enabled(w, s) && TopologyInv(start, w.db)
    ensures TopologyInv(start, Next(w, s).db)
  {
    TopologyMoves(w, s, Free(w, s));
    if s.Commit? {
      var o := w.operators[s.op].options;
      assert Acceptable(o);
      assert Available(w.db, o);
      CommitKept(w.db, o, s.ids);
      CommitUnique(start, w.db, o, s.ids);
      CommitDisjoint(start, w.db, o, s.ids);
    } else {
      SameTopologyKeeps(start, w.db, Next(w, s).db);
    }
  }

  /** Committed nodes are new ones. */
  predicate CommittedAreNew(start: Db, w: World) {
    forall n :: n in w.committed ==> n !in start.nodes
  }

  lemma NewStep(start: Db, w: World, s: Step, free: bool)
    requires Enabled(w, s) && StartStays(start, w.db) && CommittedAreNew(start, w)
    ensures CommittedAreNew(start, Moved(w, s, free))
  {
  }

  // ---------------------------------------------------------------- files

  /** A file and its owner agree. */
  predicate OwnedRightly(start: map<Path, string>, w: World, f: Path)
    requires f in w.files && f in w.owner
  {
    match w.owner[f]
    case Found => f in start && w.files[f] == start[f]
    case OfNode(n) => n in w.committed && w.committed[n].File() == f && w.files[f] == w.committed[n].config
    case OfOperator(op) =>
      && op in w.operators && OwnsFile(w.operators[op]) && w.operators[op].options.File() == f
      && (w.operators[op].Written? ==> w.files[f] == w.operators[op].options.config)
  }

  /** Every file has its owner, and every owner its file. */
  ghost predicate FileInv(start: map<Path, string>, w: World) {
    && w.owner.Keys == w.files.Keys
    && (forall f :: f in w.files ==> OwnedRightly(start, w, f))
    && (forall f :: f in start ==> OwnerIs(w, f, Found))
    && NodesOwn(w)
    && OperatorsOwn(w)
  }

  predicate NodesOwn(w: World) {
    forall n :: n in w.committed ==> n in w.db.nodes && OwnerIs(w, w.committed[n].File(), OfNode(n))
  }

  predicate OperatorsOwn(w: World) {
    forall op :: op in w.operators && OwnsFile(w.operators[op]) ==>
      OwnerIs(w, w.operators[op].options.File(), OfOperator(op))
  }

  predicate OwnerIs(w: World, f: Path, owner: Owner) {
    f in w.owner && w.owner[f] == owner
  }

  lemma FilesAdded(start: map<Path, string>, w: World, op: nat)
    requires FileInv(start, w) && op in w.operators && !OwnsFile(w.operators[op])
    requires w.operators[op].options.File() !in w.files
    ensures var o := w.operators[op].options;
            FileInv(start, w.(files := w.files[o.File() := ""], operators := w.operators[op := Writing(o)],
                              owner := w.owner[o.File() := OfOperator(op)]))
  {
  }

  lemma FilesFinished(start: map<Path, string>, w: World, op: nat)
    requires FileInv(start, w) && op in w.operators && w.operators[op].Writing?
    ensures var o := w.operators[op].options;
            FileInv(start, w.(files := w.files[o.File() := o.config], operators := w.operators[op := Written(o)]))
  {
    assert OwnerIs(w, w.operators[op].options.File(), OfOperator(op));
  }

  lemma FilesHandedOver(start: map<Path, string>, w: World, op: nat, ids: NewIds)
    requires FileInv(start, w) && op in w.operators && w.operators[op].Written? && FreshRows(w.db, ids)
    ensures FileInv(start, Moved(w, Commit(op, ids), false))
  {
    var o := w.operators[op].options;
    var w' := Moved(w, Commit(op, ids), false);
    assert OwnerIs(w, o.File(), OfOperator(op));
    assert OwnedRightly(start, w, o.File());
    forall f | f in w'.files
      ensures OwnedRightly(start, w', f)
    {
      assert OwnedRightly(start, w, f);
    }
    forall n | n in w'.committed
      ensures n in w'.db.nodes && OwnerIs(w', w'.committed[n].File(), OfNode(n))
    {
      assert n != ids.node ==> OwnerIs(w, w.committed[n].File(), OfNode(n));
    }
    forall other | other in w'.operators && OwnsFile(w'.operators[other])
      ensures OwnerIs(w', w'.operators[other].options.File(), OfOperator(other))
    {
      assert OwnerIs(w, w.operators[other].options.File(), OfOperator(other));
    }
  }

  lemma FilesRemoved(start: map<Path, string>, w: World, op: nat, lock: Option<nat>)
    requires FileInv(start, w) && op in w.operators && OwnsFile(w.operators[op])
    ensures var f := w.operators[op].options.File();
            FileInv(start, w.(lock := lock, files := w.files - {f}, owner := w.owner - {f}, operators := w.operators - {op}))
  {
    var gone := w.operators[op].options.File();
    var w' := w.(lock := lock, files := w.files - {gone}, owner := w.owner - {gone}, operators := w.operators - {op});
    assert OwnerIs(w, gone, OfOperator(op));
    forall f | f in w'.files
      ensures OwnedRightly(start, w', f)
    {
      assert OwnedRightly(start, w, f);
    }
    forall n | n in w'.committed
      ensures n in w'.db.nodes && OwnerIs(w', w'.committed[n].File(), OfNode(n))
    {
      assert OwnerIs(w, w.committed[n].File(), OfNode(n));
    }
    forall other | other in w'.operators && OwnsFile(w'.operators[other])
      ensures OwnerIs(w', w'.operators[other].options.File(), OfOperator(other))
    {
      assert OwnerIs(w, w.operators[other].options.File(), OfOperator(other));
    }
  }

  /** The operators that own files are the same, and none of them has finished meanwhile. */
  predicate SameOwners(w: World, w': World) {
    && (forall op :: op in w.operators && OwnsFile(w.operators[op]) ==>
          op in w'.operators && OwnsFile(w'.operators[op]) && w'.operators[op].options == w.operators[op].options
          && (w'.operators[op].Written? ==> w.operators[op].Written?))
    && (forall op :: op in w'.operators && OwnsFile(w'.operators[op]) ==> op in w.operators && OwnsFile(w.operators[op]))
  }

  lemma FilesKept(start: map<Path, string>, w: World, w': World)
    requires FileInv(start, w) && SameOwners(w, w')
    requires w'.files == w.files && w'.owner == w.owner && w'.committed == w.committed && w'.db.nodes == w.db.nodes
    ensures FileInv(start, w')
  {
    forall f | f in w'.files
      ensures OwnedRightly(start, w', f)
    {
      assert OwnedRightly(start, w, f);
    }
    forall op | op in w'.operators && OwnsFile(w'.operators[op])
      ensures OwnerIs(w', w'.operators[op].options.File(), OfOperator(op))
    {
      assert OwnerIs(w, w.operators[op].options.File(), OfOperator(op));
    }
  }

  /** The steps that leave files alone leave their owners alone. */
  lemma OwnersMoved(w: World, s: Step, free: bool)
    requires Enabled(w, s) && !s.FinishFile? && !s.Commit? && !s.RemoveFile?
    requires s.CreateFile? ==> w.operators[s.op].options.File() in w.files
    requires s.Rollback? ==> !w.operators[s.op].Writing?
    ensures var w' := Moved(w, s, free);
            && SameOwners(w, w') && w'.files == w.files && w'.owner == w.owner
            && w'.committed == w.committed && w'.db.nodes == w.db.nodes
  {
  }

  lemma FileStep(start: map<Path, string>, w: World, s: Step, free: bool)
    requires Enabled(w, s) && FileInv(start, w)
    ensures FileInv(start, Moved(w, s, free))
  {
    if s.CreateFile? && w.operators[s.op].options.File() !in w.files {
      FilesAdded(start, w, s.op);
    } else if s.FinishFile? {
      FilesFinished(start, w, s.op);
    } else if s.Commit? {
      FilesHandedOver(start, w, s.op, s.ids);
    } else if s.RemoveFile? || (s.Rollback? && w.operators[s.op].Writing?) {
      FilesRemoved(start, w, s.op, Moved(w, s, free).lock);
    } else {
      OwnersMoved(w, s, free);
      FilesKept(start, w, Moved(w, s, free));
    }
  }

  // ---------------------------------------------------------------- the default node

  /** Adding a V3.1 node does not change who is on V3.1. */
  lemma CommitKeepsVersions(db: Db, o: Options, ids: NewIds, n: Id)
    requires Kept(db) && FreshRows(db, ids) && n in db.nodes
    ensures n in WithNode(db, o, ids).nodes && WithNode(db, o, ids).nodes[n] == db.nodes[n]
    ensures OnV31(WithNode(db, o, ids), db.nodes[n]) <==> OnV31(db, db.nodes[n])
  {
  }

  lemma CommitKeepsFirst(db: Db, o: Options, ids: NewIds, first: Id)
    requires Kept(db) && FreshRows(db, ids) && o.profile.IsV31()
    requires IsFirst(db, first) && !OnV31(db, db.nodes[first])
    ensures IsFirst(WithNode(db, o, ids), first)
  {
    var db' := WithNode(db, o, ids);
    CommitKeepsVersions(db, o, ids, first);
    forall other | other in db'.nodes && other != first
      ensures !Before(db', db'.nodes[other], db'.nodes[first])
    {
      if other in db.nodes {
        CommitKeepsVersions(db, o, ids, other);
      }
    }
  }

  /** A legacy node keeps every V3.1 node from being first. */
  lemma FirstIsLegacy(db: Db, first: Id, legacy: Id)
    requires IsFirst(db, first) && legacy in db.nodes && !OnV31(db, db.nodes[legacy])
    ensures !OnV31(db, db.nodes[first])
  {
    if OnV31(db, db.nodes[first]) {
      assert Before(db, db.nodes[legacy], db.nodes[first]);
    }
  }

  lemma PickFirstIs(db: Db, first: Id)
    requires UniqueHostnames(db) && IsFirst(db, first)
    ensures PickFirst(db) == Some(first)
  {
    FirstIsUnique(db, first, PickFirst(db).value);
  }

  lemma SameNodesSameFirst(a: Db, b: Db, first: Id)
    requires SameTopology(a, b) && IsFirst(a, first)
    ensures IsFirst(b, first)
    ensures OnV31(b, b.nodes[first]) <==> OnV31(a, a.nodes[first])
  {
  }

  lemma FirstStep(w: World, s: Step, first: Id)
    requires LockInv(w) && Enabled(w, s) && Kept(w.db)
    requires IsFirst(w.db, first) && !OnV31(w.db, w.db.nodes[first])
    ensures IsFirst(Next(w, s).db, first) && !OnV31(Next(w, s).db, Next(w, s).db.nodes[first])
  {
    TopologyMoves(w, s, Free(w, s));
    if s.Commit? {
      var o := w.operators[s.op].options;
      assert Acceptable(o);
      CommitKeepsFirst(w.db, o, s.ids, first);
      CommitKeepsVersions(w.db, o, s.ids, first);
    } else {
      SameNodesSameFirst(w.db, Next(w, s).db, first);
    }
  }

  // ---------------------------------------------------------------- whole runs

  /** Before the first operator: nobody at work, whatever files there are, and any database the schema allows. */
  ghost predicate Start(w: World) {
    && w.lock.None? && w.operators == map[] && w.committed == map[]
    && w.owner.Keys == w.files.Keys && (forall f :: f in w.owner ==> w.owner[f] == Found)
    && MaskedPools(w.db) && Kept(w.db)
  }

  ghost predicate Sound(start: World, w: World) {
    LockInv(w) && TopologyInv(start.db, w.db) && CommittedAreNew(start.db, w) && FileInv(start.files, w)
  }

  ghost predicate IsRun(worlds: seq<World>, steps: seq<Step>) {
    && |worlds| == |steps| + 1 && Start(worlds[0])
    && forall i {:trigger steps[i]} :: 0 <= i < |steps| ==> Follows(worlds[i], steps[i], worlds[i + 1])
  }

  predicate Follows(w: World, s: Step, w': World) {
    MaskedPools(w.db) && AllAcceptable(w) && Enabled(w, s) && Admitted(s) && w' == Next(w, s)
  }

  lemma StartIsSound(w: World)
    requires Start(w)
    ensures Sound(w, w)
  {
  }

  lemma SoundStep(start: World, w: World, s: Step, w': World)
    requires Sound(start, w) && Follows(w, s, w')
    ensures Sound(start, w')
  {
    LockStep(w, s);
    TopologyStep(start.db, w, s);
    NewStep(start.db, w, s, Free(w, s));
    FileStep(start.files, w, s, Free(w, s));
  }

  lemma AlwaysSound(worlds: seq<World>, steps: seq<Step>)
    requires IsRun(worlds, steps)
    ensures forall i :: 0 <= i < |worlds| ==> Sound(worlds[0], worlds[i])
  {
    StartIsSound(worlds[0]);
    var n := 0;
    while n < |steps|
      invariant n <= |steps|
      invariant forall i :: 0 <= i <= n ==> Sound(worlds[0], worlds[i])
    {
      assert Follows(worlds[n], steps[n], worlds[n + 1]);
      SoundStep(worlds[0], worlds[n], steps[n], worlds[n + 1]);
      n := n + 1;
    }
  }

  /**
   * From any starting database and over any run: a provisioned node shares its host name, interface name and
   * port with no other node, and two pools that share an address were both there before.
   */
  lemma ProvisionedApart(worlds: seq<World>, steps: seq<Step>, i: nat)
    requires IsRun(worlds, steps) && i < |worlds|
    ensures forall n, m :: n in worlds[i].committed && n in worlds[i].db.nodes && m in worlds[i].db.nodes && m != n ==>
              var a, b := worlds[i].db.nodes[n], worlds[i].db.nodes[m];
              a.hostname != b.hostname && a.iface != b.iface && a.port != b.port
    ensures forall q, r, x :: q in worlds[i].db.pools && r in worlds[i].db.pools && q != r && q !in worlds[0].db.pools ==>
              MaskedPools(worlds[i].db)
              && !(Contains(worlds[i].db.pools[q].cidr, x) && Contains(worlds[i].db.pools[r].cidr, x))
  {
    AlwaysSound(worlds, steps);
    assert Sound(worlds[0], worlds[i]);
  }

  /** If names, ports and networks did not clash at the start, they never do. */
  lemma StaysUnique(worlds: seq<World>, steps: seq<Step>, i: nat)
    requires IsRun(worlds, steps) && i < |worlds|
    requires NodesApart(EMPTY, worlds[0].db) && PoolsApart(EMPTY, worlds[0].db)
    ensures NodesApart(EMPTY, worlds[i].db) && MaskedPools(worlds[i].db) && PoolsApart(EMPTY, worlds[i].db)
  {
    AlwaysSound(worlds, steps);
    assert Sound(worlds[0], worlds[i]);
  }

  const EMPTY := Db(map[], map[], map[], map[], map[], map[], map[], map[], [])

  /** When no operator is in the middle, the new files are exactly those of the committed nodes. */
  lemma QuietFiles(worlds: seq<World>, steps: seq<Step>, i: nat, f: Path)
    requires IsRun(worlds, steps) && i < |worlds|
    requires forall op :: op in worlds[i].operators ==> !OwnsFile(worlds[i].operators[op])
    ensures f in worlds[0].files ==> f in worlds[i].files && worlds[i].files[f] == worlds[0].files[f]
    ensures f !in worlds[0].files ==>
              (f in worlds[i].files <==> exists n :: n in worlds[i].committed && worlds[i].committed[n].File() == f)
    ensures forall n :: n in worlds[i].committed && worlds[i].committed[n].File() == f ==>
              n in worlds[i].db.nodes && f in worlds[i].files && worlds[i].files[f] == worlds[i].committed[n].config
  {
    AlwaysSound(worlds, steps);
    var w := worlds[i];
    assert Sound(worlds[0], w);
    if f in w.files {
      assert OwnedRightly(worlds[0].files, w, f);
    }
    forall n | n in w.committed && w.committed[n].File() == f
      ensures n in w.db.nodes && f in w.files && w.files[f] == w.committed[n].config
    {
      assert OwnerIs(w, w.committed[n].File(), OfNode(n));
    }
  }

  ghost predicate LegacyFirst(db: Db, first: Id) {
    IsFirst(db, first) && !OnV31(db, db.nodes[first])
  }

  ghost predicate SoundFirst(start: World, w: World, first: Id) {
    Sound(start, w) && LegacyFirst(w.db, first)
  }

  lemma SoundFirstStep(start: World, w: World, s: Step, w': World, first: Id)
    requires SoundFirst(start, w, first) && Follows(w, s, w')
    ensures SoundFirst(start, w', first)
  {
    SoundStep(start, w, s, w');
    FirstStep(w, s, first);
  }

  lemma AlwaysSoundFirst(worlds: seq<World>, steps: seq<Step>, first: Id)
    requires IsRun(worlds, steps) && LegacyFirst(worlds[0].db, first)
    ensures forall i :: 0 <= i < |worlds| ==> SoundFirst(worlds[0], worlds[i], first)
  {
    StartIsSound(worlds[0]);
    var n := 0;
    while n < |steps|
      invariant n <= |steps|
      invariant forall i :: 0 <= i <= n ==> SoundFirst(worlds[0], worlds[i], first)
    {
      assert Follows(worlds[n], steps[n], worlds[n + 1]);
      SoundFirstStep(worlds[0], worlds[n], steps[n], worlds[n + 1], first);
      n := n + 1;
    }
  }

  lemma SoundFirstPicks(start: World, w: World, first: Id)
    requires SoundFirst(start, w, first)
    ensures PickFirst(w.db) == Some(first)
  {
    PickFirstIs(w.db, first);
  }

  /** While a legacy node exists, provisioning never changes the default node. */
  lemma DefaultNodeStays(worlds: seq<World>, steps: seq<Step>, legacy: Id, i: nat)
    requires IsRun(worlds, steps) && legacy in worlds[0].db.nodes && !OnV31(worlds[0].db, worlds[0].db.nodes[legacy])
    requires i < |worlds|
    ensures PickFirst(worlds[i].db) == PickFirst(worlds[0].db)
  {
    var first := PickFirst(worlds[0].db).value;
    FirstIsLegacy(worlds[0].db, first, legacy);
    AlwaysSoundFirst(worlds, steps, first);
    SoundFirstPicks(worlds[0], worlds[i], first);
  }
}
