/** Runs from a fresh installation, and configs, on which the code does not do what its comments say. */
module Counterexamples {
  import opened Wrappers
  import opened Strings
  import opened Powers
  import opened Netip
  import opened Ipam
  import opened Tables
  import opened Service
  import opened Outbox
  import opened Protocol
  import opened Addresses
  import opened Keys
  import opened Installations
  import opened ConfigText
  import opened Parser
  import opened Config
  import opened ConfigMeaning
  import opened KeyInsertion
  import opened KeyPreservation
  import opened TidyRuns
  import opened Snapshot
  import AR = ApplyRuns
  import ML = ManyLines
  import SA = StaleApply
  import SI = SharedInterfaces
  import UN = UntidyNames
  import W = Writes

  // ---------------------------------------------------------------- small pools

  lemma OneLetter(c: char)
    requires !IsSpace(c)
    ensures TrimSpace([c]) == [c]
  {
    TrimmedStays([c]);
  }

  predicate V4(cidr: Prefix, bits: int) {
    ValidPrefix(cidr) && cidr.addr.family.V4? && cidr.bits == bits
  }

  /** The address so many steps above the base of the pool. */
  function Above(cidr: Prefix, k: nat): Addr
    requires ValidPrefix(cidr)
  {
    Addr(Masked(cidr).addr.family, Masked(cidr).addr.value + k)
  }

  /** In a /30 the gateway and one more address are usable. */
  lemma UsableIn30(cidr: Prefix)
    requires V4(cidr, 30)
    ensures forall a :: IsUsable(Masked(cidr), a) <==> a == Above(cidr, 1) || a == Above(cidr, 2)
    ensures GatewayAddress(cidr) == Some(Above(cidr, 1))
  {
    var p := Masked(cidr);
    Pow2Of8();
    assert Size(p) == 4;
    MaskedInterval(p);
    HostsRange(p);
  }

  /** In a /31 both addresses are usable, the upper one is the node's own, and none is reserved. */
  lemma UsableIn31(cidr: Prefix)
    requires V4(cidr, 31)
    ensures forall a :: IsUsable(Masked(cidr), a) <==> a == Above(cidr, 0) || a == Above(cidr, 1)
    ensures GatewayAddress(cidr) == None && ServerAddressFromPool(cidr) == Some(Above(cidr, 1))
  {
    var p := Masked(cidr);
    Pow2Of8();
    assert Size(p) == 2;
    MaskedInterval(p);
    HostsRange(p);
  }

  // ---------------------------------------------------------------- an address that stays held

  lemma FirstIn30(cidr: Prefix) returns (events: seq<Event>, t: System, a: Addr)
    requires V4(cidr, 30)
    ensures Reaches(Installed(cidr), events, t) && CreatedOne(Installed(cidr), t, cidr, "a", "", 1, 'A', a)
  {
    var s := Installed(cidr);
    InstalledRuns(cidr);
    UsableIn30(cidr);
    OneLetter('a');
    assert IsUsable(Masked(cidr), Above(cidr, 2)) && Above(cidr, 2) !in Used(s.db, NODE, cidr);
    events, t, a := CreateOn(s, cidr, "a", "", 1, 'A');
  }

  lemma ThenRevoked(cidr: Prefix, s: System, a: Addr) returns (events: seq<Event>, t: System)
    requires V4(cidr, 30) && CreatedOne(Installed(cidr), s, cidr, "a", "", 1, 'A', a)
    ensures Reaches(s, events, t) && Running(t, cidr) && t.db.peers == map[1 := RevokedRow(s.db.peers[1])]
  {
    events, t := RevokeOn(s, cidr, "b", 1, 2);
  }

  /** A create and a revoke are enough to make a fresh /30 pool useless for good. */
  lemma StuckAfterOne(cidr: Prefix) returns (events: seq<Event>, t: System)
    requires V4(cidr, 30)
    ensures Init(Installed(cidr)) && Reaches(Installed(cidr), events, t)
    ensures POOL in t.db.pools && Addresses.Stuck(t.db, POOL) && t.txs == map[]
  {
    InstalledRuns(cidr);
    var first, s, a := FirstIn30(cidr);
    var second;
    second, t := ThenRevoked(cidr, s, a);
    events := first + second;
    ReachesBoth(Installed(cidr), first, s, second, t);
    StuckThen(cidr, s, a, t);
  }

  lemma StuckThen(cidr: Prefix, s: System, a: Addr, t: System)
    requires V4(cidr, 30) && CreatedOne(Installed(cidr), s, cidr, "a", "", 1, 'A', a)
    requires Running(t, cidr) && t.db.peers == map[1 := RevokedRow(s.db.peers[1])]
    ensures POOL in t.db.pools && Addresses.Stuck(t.db, POOL)
  {
    UsableIn30(cidr);
    assert GatewayAddress(cidr).value in Used(Installed(cidr).db, NODE, cidr);
    OneRevoked(t.db, cidr, a);
    FullThenRevokedIsStuck(t.db, POOL);
  }

  /** The rows after the revoke: the gateway is reserved, and the other address is the revoked row's. */
  lemma OneRevoked(db: Db, cidr: Prefix, a: Addr)
    requires V4(cidr, 30) && POOL in db.pools && db.pools[POOL].cidr == cidr && db.pools[POOL].node == NODE
    requires db.peers.Keys == {1} && db.peers[1].node == NODE && db.peers[1].state.Revoked? && db.peers[1].allowedIp == a
    requires IsUsable(Masked(cidr), a) && GatewayAddress(cidr) != Some(a)
    ensures SomeUnused(db, NODE, POOL)
    ensures forall x :: IsUsable(Masked(cidr), x) ==> x in Used(db, NODE, cidr) || x in RevokedAddresses(db, NODE)
  {
    UsableIn30(cidr);
    assert a == Above(cidr, 2);
    assert a !in Used(db, NODE, cidr);
    assert db.peers[1].allowedIp in RevokedAddresses(db, NODE);
  }

  // ---------------------------------------------------------------- the node's own address

  lemma FirstIn31(cidr: Prefix) returns (events: seq<Event>, t: System, a: Addr)
    requires V4(cidr, 31)
    ensures Reaches(Installed(cidr), events, t) && CreatedOne(Installed(cidr), t, cidr, "a", "", 1, 'A', a)
  {
    var s := Installed(cidr);
    InstalledRuns(cidr);
    UsableIn31(cidr);
    OneLetter('a');
    assert IsUsable(Masked(cidr), Above(cidr, 0)) && Above(cidr, 0) !in Used(s.db, NODE, cidr);
    events, t, a := CreateOn(s, cidr, "a", "", 1, 'A');
  }

  lemma SecondIn31(cidr: Prefix, s: System, a: Addr) returns (events: seq<Event>, t: System)
    requires V4(cidr, 31) && CreatedOne(Installed(cidr), s, cidr, "a", "", 1, 'A', a) && a == Above(cidr, 0)
    ensures Reaches(s, events, t) && 2 in t.db.peers && t.db.peers[2].allowedIp == Above(cidr, 1)
  {
    StillOne(s.db, cidr, a);
    OneLetter('b');
    SecondIsNew(Installed(cidr), s, cidr, "a", "", 1, 'A', a, "b", 2, 'B');
    var b;
    events, t, b := CreateOn(s, cidr, "b", "", 2, 'B');
    assert s.db.peers[1].allowedIp in Used(s.db, NODE, cidr);
    UsableIn31(cidr);
  }

  /** On a fresh /31 pool two creates hand out both addresses, one of them the node's own. */
  lemma ServerAddressHandedOut(cidr: Prefix) returns (events: seq<Event>, t: System, id: Id)
    requires V4(cidr, 31)
    ensures Init(Installed(cidr)) && Reaches(Installed(cidr), events, t)
    ensures id in t.db.peers && Some(t.db.peers[id].allowedIp) == ServerAddressFromPool(cidr)
  {
    InstalledRuns(cidr);
    UsableIn31(cidr);
    var first, s, a := FirstIn31(cidr);
    if a == Above(cidr, 1) {
      events, t, id := first, s, 1;
    } else {
      var second;
      second, t := SecondIn31(cidr, s, a);
      events, id := first + second, 2;
      ReachesBoth(Installed(cidr), first, s, second, t);
    }
  }

  lemma StillOne(db: Db, cidr: Prefix, a: Addr)
    requires V4(cidr, 31) && POOL in db.pools && db.pools[POOL].cidr == cidr && a == Above(cidr, 0)
    requires db.peers.Keys == {1} && db.peers[1].allowedIp == a
    ensures SomeUnused(db, NODE, POOL)
  {
    UsableIn31(cidr);
    assert IsUsable(Masked(cidr), Above(cidr, 1)) && Above(cidr, 1) !in Used(db, NODE, cidr);
  }

  // ---------------------------------------------------------------- a retry without waiting

  function RetryEvents(w: nat, j: Id, lease: int): seq<Event> {
    [ClaimJob(w, j, lease)] + ([FailJob(w, true)] + [MarkOpFailed(w)]) + [ClaimJob(w, j, lease)]
  }

  /** A job that failed retryably is claimed again while the clock stands still, whatever the lease. */
  lemma RetriedAtOnce(s: System, w: nat, j: Id, lease: int) returns (t: System)
    requires w !in s.workers && j in s.db.outbox && Claimable(s.db.outbox[j], s.now) && lease > 0
    requires s.db.outbox[j].operation in s.db.operations
    ensures Reaches(s, RetryEvents(w, j, lease), t)
    ensures t.now == s.now && j in t.db.outbox && t.db.outbox[j].attempts == s.db.outbox[j].attempts + 2
  {
    AR.Claiming(s, w, j, lease);
    var s1 := Do(s, ClaimJob(w, j, lease));
    ReachesOne(s, ClaimJob(w, j, lease), s1);
    AR.FailureIsARun(s1, w, j, true);
    var s2 := s1.(db := JobFailed(s1.db, j, true), workers := s1.workers - {w});
    ReachesBoth(s, [ClaimJob(w, j, lease)], s1, [FailJob(w, true)] + [MarkOpFailed(w)], s2);
    AR.Claiming(s2, w, j, lease);
    t := Do(s2, ClaimJob(w, j, lease));
    ReachesOne(s2, ClaimJob(w, j, lease), t);
    ReachesBoth(s, [ClaimJob(w, j, lease)] + ([FailJob(w, true)] + [MarkOpFailed(w)]), s2, [ClaimJob(w, j, lease)], t);
  }

  /** From a fresh installation: create a peer, fail its job, and claim it again at the same time. */
  lemma RetriedFromStart(cidr: Prefix, lease: int) returns (before: seq<Event>, s: System, t: System)
    requires V4(cidr, 30) && lease > 0
    ensures Init(Installed(cidr)) && Reaches(Installed(cidr), before, s) && Reaches(s, RetryEvents(0, 1, lease), t)
    ensures t.now == s.now && 1 in t.db.outbox && t.db.outbox[1].attempts == 2
  {
    InstalledRuns(cidr);
    var a;
    before, s, a := FirstIn30(cidr);
    t := RetriedAtOnce(s, 0, 1, lease);
  }

  // ---------------------------------------------------------------- a name that holds another peer

  /** A /29 still has an address after one more than the gateway is taken. */
  lemma UsableIn29(cidr: Prefix)
    requires V4(cidr, 29)
    ensures IsUsable(Masked(cidr), Above(cidr, 2)) && IsUsable(Masked(cidr), Above(cidr, 3))
    ensures GatewayAddress(cidr) == Some(Above(cidr, 1))
  {
    var p := Masked(cidr);
    Pow2Of8();
    assert Size(p) == 8;
    MaskedInterval(p);
    HostsRange(p);
  }

  lemma RoomIn29(db: Db, cidr: Prefix)
    requires V4(cidr, 29) && POOL in db.pools && db.pools[POOL].cidr == cidr
    requires db.peers.Keys <= {1}
    ensures SomeUnused(db, NODE, POOL)
  {
    UsableIn29(cidr);
    var x := if 1 in db.peers && db.peers[1].allowedIp == Above(cidr, 2) then Above(cidr, 3) else Above(cidr, 2);
    assert IsUsable(Masked(cidr), x) && x !in Used(db, NODE, cidr);
  }

  /** The display name that holds the section of the first peer. */
  function NameOf(p: Peer): string {
    ML.Carrying("x", [UN.Nameless(p)])
  }

  lemma TwoPeers(cidr: Prefix) returns (events: seq<Event>, s: System, t: System, a: Addr, b: Addr)
    requires V4(cidr, 29)
    ensures Reaches(Installed(cidr), events, t) && forall e :: e in events ==> W.OfRequest(e)
    ensures CreatedOne(Installed(cidr), s, cidr, "a", "", 1, 'A', a)
    ensures CreatedOne(s, t, cidr, "b", NameOf(s.db.peers[1]), 2, 'B', b)
  {
    InstalledRuns(cidr);
    RoomIn29(Installed(cidr).db, cidr);
    OneLetter('a');
    OneLetter('b');
    var first;
    first, s, a := CreateOn(Installed(cidr), cidr, "a", "", 1, 'A');
    RoomIn29(s.db, cidr);
    SecondIsNew(Installed(cidr), s, cidr, "a", "", 1, 'A', a, "b", 2, 'B');
    var second;
    second, t, b := CreateOn(s, cidr, "b", NameOf(s.db.peers[1]), 2, 'B');
    events := first + second;
    ReachesBoth(Installed(cidr), first, s, second, t);
  }

  lemma KeysPrint(name: string, displayName: string, a: Addr, id: Id, c: char)
    requires IsBase64Digit(c)
    ensures UN.PrintableKeys(NewPeer(IntentFor(name, displayName), a, GrantFor(id, c)))
  {
    KeyTextIs(c);
    KeyIsField(KeyText(c));
    OneLineIsInert("");
  }

  lemma NamesTwo(rows: map<Id, Peer>, p: Peer, q: Peer)
    requires rows == map[1 := p, 2 := q] && p.publicKey != q.publicKey && p.state.Revoked? && !q.state.Revoked?
    requires UN.PrintableKeys(p) && UN.PrintableKeys(q) && q.displayName == NameOf(p)
    ensures UN.Names(rows, 2, 1, "x")
  {
  }

  lemma TwoRows(cidr: Prefix, s: System, t: System, a: Addr, b: Addr, after: map<Id, Peer>)
    requires CreatedOne(Installed(cidr), s, cidr, "a", "", 1, 'A', a)
    requires CreatedOne(s, t, cidr, "b", NameOf(s.db.peers[1]), 2, 'B', b)
    requires after == t.db.peers[1 := RevokedRow(t.db.peers[1])]
    ensures RowsOf(after, NODE) == after == map[1 := RevokedRow(s.db.peers[1]), 2 := t.db.peers[2]]
  {
  }

  lemma RowsOfTwo(cidr: Prefix, s: System, t: System, a: Addr, b: Addr, after: map<Id, Peer>)
    requires CreatedOne(Installed(cidr), s, cidr, "a", "", 1, 'A', a)
    requires CreatedOne(s, t, cidr, "b", NameOf(s.db.peers[1]), 2, 'B', b)
    requires after == t.db.peers[1 := RevokedRow(t.db.peers[1])]
    ensures UN.Names(RowsOf(after, NODE), 2, 1, "x") && after[1].applied <= after[1].desired
  {
    TwoRows(cidr, s, t, a, b, after);
    TwoNamed(s.db.peers[1], t.db.peers[2], a, b, after);
  }

  lemma TwoNamed(p: Peer, q: Peer, a: Addr, b: Addr, rows: map<Id, Peer>)
    requires p == NewPeer(IntentFor("a", ""), a, GrantFor(1, 'A'))
    requires q == NewPeer(IntentFor("b", NameOf(p)), b, GrantFor(2, 'B'))
    requires rows == map[1 := RevokedRow(p), 2 := q]
    ensures UN.Names(rows, 2, 1, "x")
  {
    KeyTextIs('A');
    KeyTextIs('B');
    KeysPrint("a", "", a, 1, 'A');
    KeysPrint("b", NameOf(p), b, 2, 'B');
    assert UN.Nameless(RevokedRow(p)) == UN.Nameless(p);
    NamesTwo(rows, RevokedRow(p), q);
  }

  /** Two peers, the second named after the first, and the first revoked. */
  lemma UpToTheApply(cidr: Prefix) returns (events: seq<Event>, t: System)
    requires V4(cidr, 29)
    ensures UN.SerialReaches(Installed(cidr), events, t) && Running(t, cidr)
    ensures UN.Names(RowsOf(t.db.peers, NODE), 2, 1, "x")
    ensures 1 in t.db.peers && t.db.peers[1].applied <= t.db.peers[1].desired
  {
    var first, s, s1, a, b := TwoPeers(cidr);
    var second;
    second, t := FirstRevoked(cidr, s, s1, a, b);
    events := first + second;
    BothSerial(Installed(cidr), first, s1, second, t);
  }

  lemma FirstRevoked(cidr: Prefix, s: System, s1: System, a: Addr, b: Addr) returns (events: seq<Event>, t: System)
    requires CreatedOne(Installed(cidr), s, cidr, "a", "", 1, 'A', a)
    requires CreatedOne(s, s1, cidr, "b", NameOf(s.db.peers[1]), 2, 'B', b)
    ensures Reaches(s1, events, t) && Running(t, cidr) && forall e :: e in events ==> W.OfRequest(e)
    ensures UN.Names(RowsOf(t.db.peers, NODE), 2, 1, "x")
    ensures 1 in t.db.peers && t.db.peers[1].applied <= t.db.peers[1].desired
  {
    ThirdIsNew(cidr, s, s1, a, b);
    events, t := RevokeOn(s1, cidr, "c", 1, 3);
    RowsOfTwo(cidr, s, s1, a, b, t.db.peers);
  }

  lemma ThirdIsNew(cidr: Prefix, s: System, s1: System, a: Addr, b: Addr)
    requires CreatedOne(Installed(cidr), s, cidr, "a", "", 1, 'A', a)
    requires CreatedOne(s, s1, cidr, "b", NameOf(s.db.peers[1]), 2, 'B', b)
    ensures 1 in s1.db.peers && 3 !in s1.db.operations && 3 !in s1.db.outbox && IdemKey(TENANT, "c") !in s1.db.idem
  {
    assert s1.db.idem.Keys == {IdemKey(TENANT, "a"), IdemKey(TENANT, "b")};
    assert s1.db.operations.Keys == s1.db.outbox.Keys == {1, 2};
  }

  lemma BothSerial(s: System, a: seq<Event>, t: System, b: seq<Event>, u: System)
    requires Reaches(s, a, t) && Reaches(t, b, u)
    requires (forall e :: e in a ==> W.OfRequest(e)) && (forall e :: e in b ==> W.OfRequest(e))
    ensures UN.SerialReaches(s, a + b, u)
  {
    UN.RequestsAreSerial(s, a, t);
    UN.RequestsAreSerial(t, b, u);
    UN.SerialBoth(s, a, t, b, u);
  }

  /**
   * A serial run from a fresh installation, nothing changed from outside, after which a revoked peer whose
   * revocation is applied is live: create two peers, the second named after the first, revoke the first, apply.
   */
  lemma RevokedPeerStays(cidr: Prefix) returns (events: seq<Event>, t: System)
    requires V4(cidr, 29)
    ensures Init(Installed(cidr)) && UN.SerialReaches(Installed(cidr), events, t)
    ensures 1 in t.db.peers && t.db.peers[1].state.Revoked? && t.db.peers[1].applied == t.db.peers[1].desired
    ensures IFACE in t.runtime && IFACE !in t.drifted && t.db.peers[1].publicKey in t.runtime[IFACE]
  {
    InstalledRuns(cidr);
    var first, s := UpToTheApply(cidr);
    PlainNode(s.db, cidr);
    var second;
    second, t := UN.NamedPeerComesBack(s, NODE, 2, 1, "x", 0);
    UN.SerialBoth(Installed(cidr), first, s, second, t);
    events := first + second;
  }

  lemma PlainNode(db: Db, cidr: Prefix)
    requires NODE in db.nodes && db.nodes[NODE] == EmptyDb(cidr).nodes[NODE] && db.profiles == EmptyDb(cidr).profiles
    ensures HasProfile(db, NODE) && PrintableNode(db.nodes[NODE].port, db.profiles[db.nodes[NODE].profile.value])
  {
  }

  // ---------------------------------------------------------------- two nodes with one interface

  lemma PlainTwin(db: Db, cidr: Prefix)
    requires db.nodes == WithTwin(cidr).db.nodes && db.profiles == EmptyDb(cidr).profiles
    ensures HasProfile(db, TWIN) && PrintableNode(db.nodes[TWIN].port, db.profiles[db.nodes[TWIN].profile.value])
    ensures HasProfile(db, NODE) && PrintableNode(db.nodes[NODE].port, db.profiles[db.nodes[NODE].profile.value])
  {
    OneLineIsInert("");
  }

  /** The serial run stays one of tidy requests. */
  ghost predicate TidyReaches(s: System, events: seq<Event>, t: System) {
    UN.SerialReaches(s, events, t) && forall e :: e in events ==> Tidy(e)
  }

  lemma TidyBoth(s: System, a: seq<Event>, t: System, b: seq<Event>, u: System)
    requires TidyReaches(s, a, t) && TidyReaches(t, b, u)
    ensures TidyReaches(s, a + b, u)
  {
    UN.SerialBoth(s, a, t, b, u);
  }

  lemma FirstOfTwins(cidr: Prefix) returns (events: seq<Event>, t: System, a: Addr)
    requires V4(cidr, 30)
    ensures TidyReaches(WithTwin(cidr), events, t) && CreatedOne(WithTwin(cidr), t, cidr, "a", "", 1, 'A', a)
  {
    var s := WithTwin(cidr);
    InstalledRuns(cidr);
    UsableIn30(cidr);
    OneLetter('a');
    assert IsUsable(Masked(cidr), Above(cidr, 2)) && Above(cidr, 2) !in Used(s.db, NODE, cidr);
    events, t, a := CreateOn(s, cidr, "a", "", 1, 'A');
    UN.RequestsAreSerial(s, events, t);
    OneLineIsInert("");
    KeyTextIs('A');
  }

  /** The worker that is done goes away. */
  lemma Gone(s: System, w: nat, p: Phase)
    requires s.workers == map[w := p]
    ensures TidyReaches(s, [Crash(w)], s.(workers := map[]))
  {
    var t := s.(workers := map[]);
    assert Do(s, Crash(w)) == t by {
      assert s.workers - {w} == map[];
    }
    assert [Crash(w)][1..] == [];
    assert UN.SerialReaches(t, [], t);
  }

  lemma ApplyAndGo(s: System, n: Id) returns (events: seq<Event>)
    requires HasProfile(s.db, n) && s.db.nodes[n].iface in s.runtime && s.workers == map[]
    ensures TidyReaches(s, events, UN.AppliedAlone(s, n, 0).(workers := map[]))
  {
    var done := UN.AppliedAlone(s, n, 0);
    var first := UN.ApplyAlone(s, n, 0);
    Gone(done, 0, ApplyDone(None, n));
    events := first + [Crash(0)];
    TidyBoth(s, first, done, [Crash(0)], done.(workers := map[]));
  }

  lemma OnePersisted(peers: map<Id, Peer>, p: Peer)
    requires peers == map[1 := p] && p.node == NODE && p.state.Pending? && p.desired == 1 && p.applied == 0
    ensures Persisted(peers, RowsOf(peers, NODE)) == map[1 := p.(state := Active, applied := 1)]
    ensures RowsOf(map[1 := p.(state := Active, applied := 1)], TWIN) == map[]
  {
  }

  lemma OneRow(cidr: Prefix, s: System, a: Addr)
    requires CreatedOne(WithTwin(cidr), s, cidr, "a", "", 1, 'A', a)
    ensures s.db.peers == map[1 := NewPeer(IntentFor("a", ""), a, GrantFor(1, 'A'))]
  {
  }

  lemma ExposedOne(t: System, p: Peer, cidr: Prefix)
    requires t.db.nodes == WithTwin(cidr).db.nodes && t.db.peers == map[1 := p] && RowsOf(t.db.peers, TWIN) == map[]
    requires p.node == NODE && p.state.Active? && p.applied == p.desired
    ensures SI.Exposed(t, NODE, TWIN, 1) && SA.Clean(RowsOf(t.db.peers, TWIN))
  {
  }

  /** One fresh peer, its node applied. */
  lemma OneApplied(cidr: Prefix, s: System, a: Addr, t: System)
    requires V4(cidr, 30) && CreatedOne(WithTwin(cidr), s, cidr, "a", "", 1, 'A', a)
    requires HasProfile(s.db, NODE) && t == UN.AppliedAlone(s, NODE, 0).(workers := map[])
    ensures SI.Exposed(t, NODE, TWIN, 1) && SA.Clean(RowsOf(t.db.peers, TWIN))
  {
    var p := NewPeer(IntentFor("a", ""), a, GrantFor(1, 'A'));
    OneRow(cidr, s, a);
    OnePersisted(s.db.peers, p);
    ExposedOne(t, p.(state := Active, applied := 1), cidr);
  }

  lemma OneIsClean(peers: map<Id, Peer>, p: Peer, n: Id)
    requires peers == map[1 := p] && p.node == n && Printable(p)
    ensures SA.Clean(RowsOf(peers, n)) && (!p.state.Revoked? ==> p.publicKey in Rendered(RowsOf(peers, n)))
  {
    assert RowsOf(peers, n) == peers;
    if !p.state.Revoked? {
      assert peers[1].publicKey in LiveKeys(peers);
    }
  }

  lemma ThenLive(cidr: Prefix, s: System, a: Addr)
    requires V4(cidr, 30) && CreatedOne(WithTwin(cidr), s, cidr, "a", "", 1, 'A', a) && SA.NodeReady(s, NODE)
    ensures IFACE in UN.AppliedAlone(s, NODE, 0).runtime && KeyText('A') in UN.AppliedAlone(s, NODE, 0).runtime[IFACE]
  {
    var p := NewPeer(IntentFor("a", ""), a, GrantFor(1, 'A'));
    OneRow(cidr, s, a);
    KeysPrint("a", "", a, 1, 'A');
    OneIsClean(s.db.peers, p, NODE);
    SI.AppliedRows(s, NODE, 0);
  }

  /**
   * A serial run of tidy requests from a fresh installation whose two nodes have one interface name: a peer is created
   * and applied, and live; then the other node is reconciled, and the peer, applied and not revoked, is gone.
   */
  lemma AppliedPeerDropped(cidr: Prefix) returns (before: seq<Event>, s: System, events: seq<Event>, t: System)
    requires V4(cidr, 30)
    ensures Init(WithTwin(cidr)) && TidyReaches(WithTwin(cidr), before, s) && TidyReaches(s, events, t)
    ensures 1 in s.db.peers && IFACE in s.runtime && s.db.peers[1].publicKey in s.runtime[IFACE]
    ensures 1 in t.db.peers && t.db.peers[1] == s.db.peers[1]
    ensures !t.db.peers[1].state.Revoked? && t.db.peers[1].applied == t.db.peers[1].desired
    ensures IFACE in t.runtime && IFACE !in t.drifted && t.db.peers[1].publicKey !in t.runtime[IFACE]
  {
    InstalledRuns(cidr);
    var first, s0, a := FirstOfTwins(cidr);
    PlainTwin(s0.db, cidr);
    var second := ApplyAndGo(s0, NODE);
    s := UN.AppliedAlone(s0, NODE, 0).(workers := map[]);
    before := first + second;
    TidyBoth(WithTwin(cidr), first, s0, second, s);
    ThenLive(cidr, s0, a);
    OneApplied(cidr, s0, a, s);
    events, t := SI.SharedInterfaceDrops(s, NODE, TWIN, 1, 0);
  }

  // ---------------------------------------------------------------- configs that lose the key

  /** At a header that ends the text, however spelled, a preserved key is lost. */
  lemma LostAtEnd(header: string, key: string)
    requires IsHeaderLine(header) && NoNewline(header) && GoodKey(key)
    ensures Parse(WithInterfaceValue(header, PRIVATE_KEY, key)).privateKey != key
  {
    HeaderIsNoPair(header);
    LinesOfOne(header);
    KeylessSurvivesIff(header, key);
  }

  /** So it is below a header that is not spelled exactly. */
  lemma LostBelow(header: string, key: string)
    requires IsHeaderLine(header) && NoNewline(header) && TrimSpace(header) != "[Interface]" && GoodKey(key)
    ensures Parse(WithInterfaceValue(header + "\n", PRIVATE_KEY, key)).privateKey != key
  {
    HeaderIsNoPair(header);
    EmptyIsNoPair();
    ML.LinesOfTwo(header, "");
    assert header + "\n" + "" == header + "\n";
    KeylessSurvivesIff(header + "\n", key);
  }

  /** Two configs that lose any key. */
  lemma KeyLost(key: string)
    requires GoodKey(key)
    ensures Parse(WithInterfaceValue("[Interface]", PRIVATE_KEY, key)).privateKey != key
    ensures Parse(WithInterfaceValue("[interface]" + "\n", PRIVATE_KEY, key)).privateKey != key
  {
    ExactHeader();
    LostAtEnd("[Interface]", key);
    OtherHeader();
    LostBelow("[interface]", key);
  }

  lemma OtherHeader()
    ensures IsHeaderLine("[interface]") && TrimSpace("[interface]") == "[interface]" != "[Interface]"
  {
    TrimmedStays("[interface]");
    assert "[interface]"[1] != "[Interface]"[1];
  }

  lemma HeaderIsNoPair(raw: string)
    requires IsHeaderLine(raw)
    ensures !IsKeyPair(raw)
  {
    HeaderIsInterface(raw);
  }

  lemma EmptyIsNoPair()
    ensures !IsKeyPair("")
  {
    EmptyLine();
  }
}
