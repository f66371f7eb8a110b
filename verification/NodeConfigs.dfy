/** The config a worker prints from the rows of a node. */
module NodeConfigs {
  import opened Profiles
  import opened Tables
  import opened AddrText
  import R = Render
  import RT = RenderTheorems

  // ---------------------------------------------------------------- entries

  function PresharedKeyOf(p: Peer): string {
    if p.presharedKey.Some? then p.presharedKey.value else ""
  }

  function PeerEntryOf(p: Peer): R.PeerEntry {
    R.PeerEntry(p.publicKey, PresharedKeyOf(p), [HostPrefixText(p.allowedIp)], "", 0, p.displayName)
  }

  /** One entry for each peer that is not revoked, in the order of the rows. */
  function EntriesOf(peers: seq<Peer>): seq<R.PeerEntry> {
    if peers == [] then []
    else (if peers[0].state.Revoked? then [] else [PeerEntryOf(peers[0])]) + EntriesOf(peers[1..])
  }

  lemma EntriesStep(peers: seq<Peer>, i: nat)
    requires i < |peers|
    ensures peers[i].state.Revoked? ==> EntriesOf(peers[i..]) == EntriesOf(peers[i + 1..])
    ensures !peers[i].state.Revoked? ==> EntriesOf(peers[i..]) == [PeerEntryOf(peers[i])] + EntriesOf(peers[i + 1..])
  {
    assert peers[i..][1..] == peers[i + 1..];
  }

  lemma Appended(done: seq<R.PeerEntry>, e: R.PeerEntry, todo: seq<R.PeerEntry>)
    ensures done + ([e] + todo) == (done + [e]) + todo
  {
  }

  /** The loop of the worker over the rows it has read. */
  method BuildEntries(peers: seq<Peer>) returns (entries: seq<R.PeerEntry>)
    ensures entries == EntriesOf(peers)
  {
    entries := [];
    assert peers[0..] == peers;
    for i := 0 to |peers|
      invariant entries + EntriesOf(peers[i..]) == EntriesOf(peers)
    {
      EntriesStep(peers, i);
      if peers[i].state.Revoked? {
        continue;
      }
      Appended(entries, PeerEntryOf(peers[i]), EntriesOf(peers[i + 1..]));
      entries := entries + [PeerEntryOf(peers[i])];
    }
    assert peers[|peers|..] == [];
  }

  lemma {:induction false} EntriesAreLive(peers: seq<Peer>, e: R.PeerEntry)
    ensures e in EntriesOf(peers) <==> exists i :: 0 <= i < |peers| && !peers[i].state.Revoked? && PeerEntryOf(peers[i]) == e
  {
    if peers != [] {
      EntriesAreLive(peers[1..], e);
      if i :| 0 <= i < |peers[1..]| && !peers[1..][i].state.Revoked? && PeerEntryOf(peers[1..][i]) == e {
        assert peers[i + 1] == peers[1..][i];
      }
      if i :| 0 <= i < |peers| && !peers[i].state.Revoked? && PeerEntryOf(peers[i]) == e {
        assert i > 0 ==> peers[1..][i - 1] == peers[i];
      }
    }
  }

  // ---------------------------------------------------------------- the rows in some order

  /** Each row of the snapshot once. */
  ghost predicate Enumerates(ids: seq<Id>, rows: map<Id, Peer>) {
    && (forall id :: id in ids <==> id in rows)
    && forall a, b :: 0 <= a < b < |ids| ==> ids[a] != ids[b]
  }

  lemma {:induction false} SomeEnumeration(rows: map<Id, Peer>) returns (ids: seq<Id>)
    ensures Enumerates(ids, rows)
    decreases |rows.Keys|
  {
    if rows.Keys == {} {
      ids := [];
    } else {
      var id :| id in rows.Keys;
      var rest := rows - {id};
      assert rest.Keys == rows.Keys - {id};
      var more := SomeEnumeration(rest);
      ids := [id] + more;
      forall a, b | 0 <= a < b < |ids|
        ensures ids[a] != ids[b]
      {
        assert ids[b] == more[b - 1] && ids[b] in rest;
        assert a > 0 ==> ids[a] == more[a - 1];
      }
    }
  }

  ghost function Enumeration(rows: map<Id, Peer>): (ids: seq<Id>)
    ensures Enumerates(ids, rows)
  {
    SomeEnumerationExists(rows);
    var ids :| Enumerates(ids, rows);
    ids
  }

  lemma SomeEnumerationExists(rows: map<Id, Peer>)
    ensures exists ids :: Enumerates(ids, rows)
  {
    var ids := SomeEnumeration(rows);
  }

  /** The rows behind the ids. */
  function RowsAt(rows: map<Id, Peer>, ids: seq<Id>): (peers: seq<Peer>)
    requires forall id :: id in ids ==> id in rows
    ensures |peers| == |ids| && forall k :: 0 <= k < |ids| ==> peers[k] == rows[ids[k]]
  {
    seq(|ids|, k requires 0 <= k < |ids| => rows[ids[k]])
  }

  /** An entry stands for a live row, and each live row has its entry. */
  lemma EntryOfRow(rows: map<Id, Peer>, ids: seq<Id>, e: R.PeerEntry)
    requires Enumerates(ids, rows)
    ensures e in EntriesOf(RowsAt(rows, ids)) <==> exists id :: IsEntryOf(rows, id, e)
  {
    var peers := RowsAt(rows, ids);
    EntriesAreLive(peers, e);
    if id :| IsEntryOf(rows, id, e) {
      assert id in ids;
      var k :| 0 <= k < |ids| && ids[k] == id;
      assert peers[k] == rows[id];
    }
    if i :| 0 <= i < |peers| && !peers[i].state.Revoked? && PeerEntryOf(peers[i]) == e {
      assert ids[i] in ids;
      assert IsEntryOf(rows, ids[i], e);
    }
  }

  predicate IsEntryOf(rows: map<Id, Peer>, id: Id, e: R.PeerEntry) {
    id in rows && !rows[id].state.Revoked? && PeerEntryOf(rows[id]) == e
  }

  // ---------------------------------------------------------------- the config

  /** The config of a node: its port and profile, and the entries; the key is left to the interface. */
  function NodeConfig(port: int, profile: Profile, peers: seq<Peer>): string {
    R.Server(R.Interface("", [], port, 0, [], "", ""), profile, EntriesOf(peers))
  }

  ghost function ConfigOf(port: int, profile: Profile, rows: map<Id, Peer>): string {
    NodeConfig(port, profile, RowsAt(rows, Enumeration(rows)))
  }

  /** Public keys are unique among the rows of a node. */
  predicate OneRowPerKey(rows: map<Id, Peer>) {
    forall a, b :: a in rows && b in rows && rows[a].publicKey == rows[b].publicKey ==> a == b
  }

  lemma {:induction false} EntriesDistinct(rows: map<Id, Peer>, ids: seq<Id>)
    requires OneRowPerKey(rows) && (forall id :: id in ids ==> id in rows) && (forall a, b :: 0 <= a < b < |ids| ==> ids[a] != ids[b])
    ensures R.DistinctKeys(EntriesOf(RowsAt(rows, ids)))
    decreases |ids|
  {
    if ids != [] {
      var peers, rest := RowsAt(rows, ids), ids[1..];
      EntriesDistinct(rows, rest);
      assert peers[1..] == RowsAt(rows, rest);
      var more := EntriesOf(peers[1..]);
      forall j | 0 <= j < |more|
        ensures more[j].publicKey != peers[0].publicKey
      {
        EntriesAreLive(peers[1..], more[j]);
        var i :| 0 <= i < |peers[1..]| && !peers[1..][i].state.Revoked? && PeerEntryOf(peers[1..][i]) == more[j];
        assert peers[1..][i] == rows[ids[i + 1]] && ids[0] != ids[i + 1];
      }
    }
  }

  /** Peers with different keys, listed in two ways, make the same bag. */
  lemma SameBag(a: seq<R.PeerEntry>, b: seq<R.PeerEntry>)
    requires R.DistinctKeys(a) && R.DistinctKeys(b) && forall e :: e in a <==> e in b
    ensures multiset(a) == multiset(b)
  {
    forall e
      ensures multiset(a)[e] == multiset(b)[e]
    {
      if e in a {
        var i :| 0 <= i < |a| && a[i] == e;
        var j :| 0 <= j < |b| && b[j] == e;
        RT.OnceInDistinct(a, i);
        RT.OnceInDistinct(b, j);
      } else {
        assert e !in multiset(a) && e !in multiset(b);
      }
    }
  }

  /** The rows are sorted by key when printed, so it does not matter in which order they were read. */
  lemma ConfigIgnoresOrder(port: int, profile: Profile, rows: map<Id, Peer>, ids: seq<Id>)
    requires OneRowPerKey(rows) && Enumerates(ids, rows)
    ensures NodeConfig(port, profile, RowsAt(rows, ids)) == ConfigOf(port, profile, rows)
  {
    var other := Enumeration(rows);
    var a, b := EntriesOf(RowsAt(rows, ids)), EntriesOf(RowsAt(rows, other));
    EntriesDistinct(rows, ids);
    EntriesDistinct(rows, other);
    forall e
      ensures e in a <==> e in b
    {
      EntryOfRow(rows, ids, e);
      EntryOfRow(rows, other, e);
    }
    SameBag(a, b);
    RT.OrderDoesNotMatter(R.Interface("", [], port, 0, [], "", ""), profile, a, b);
  }
}
