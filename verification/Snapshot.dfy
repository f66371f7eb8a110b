/** From the rows of a node to the peers of its interface: what applying a node puts on the host. */
module Snapshot {
  import opened Strings
  import opened Numerals
  import opened Profiles
  import opened Tables
  import opened AddrText
  import opened Parser
  import opened Config
  import opened KeyInsertion
  import opened KeyPreservation
  import opened NodeConfigs
  import opened RenderParse
  import R = Render
  import RT = RenderTheorems
  import Ex = Executor
  import KC = KeyConservation

  // ---------------------------------------------------------------- live interfaces

  datatype LivePeer = LivePeer(presharedKey: string, allowedIps: seq<string>)

  /** The peers of one live interface, by public key. */
  type Interface = map<string, LivePeer>

  function LiveSpec(s: PeerSpec): LivePeer {
    LivePeer(s.presharedKey, s.allowedIps)
  }

  /** The interface a list of specs makes: the last one of each key counts. */
  function FromSpecs(specs: seq<PeerSpec>): Interface {
    map k | k in Ex.KeysOf(specs) :: LiveSpec(Ex.LastSpec(specs, k).value)
  }

  /** The peers a config puts on an interface. */
  function Loaded(config: string): Interface {
    FromSpecs(Parse(config).peers)
  }

  /** The part of a host's live peers that a config decides. */
  function OnHost(peers: map<string, Ex.PeerRuntime>): Interface {
    map k | k in peers :: LivePeer(peers[k].presharedKey, peers[k].allowedIps)
  }

  /** Whatever was live before, a sync puts exactly the peers of the config on the interface. */
  lemma SyncLoads(ifc: Ex.Iface, config: string)
    ensures OnHost(Ex.Synced(ifc, config).peers) == Loaded(config)
  {
  }

  // ---------------------------------------------------------------- the desired peers

  function LiveEntry(p: Peer): LivePeer {
    LivePeer(PresharedKeyOf(p), [HostPrefixText(p.allowedIp)])
  }

  ghost function LiveKeys(rows: map<Id, Peer>): set<string> {
    set id | id in rows && !rows[id].state.Revoked? :: rows[id].publicKey
  }

  ghost function RowWithKey(rows: map<Id, Peer>, k: string): Id
    requires k in LiveKeys(rows)
  {
    var id :| id in rows && !rows[id].state.Revoked? && rows[id].publicKey == k;
    id
  }

  /** The peers the rows ask for: those not revoked, with their preshared keys and addresses. */
  ghost function Rendered(rows: map<Id, Peer>): Interface {
    map k | k in LiveKeys(rows) :: LiveEntry(rows[RowWithKey(rows, k)])
  }

  // ---------------------------------------------------------------- rows that print as themselves

  /** Keys fit on a line, and every line of the display name but the first is one the parser skips. */
  ghost predicate Printable(p: Peer) {
    && p.publicKey != "" && Field(p.publicKey) && Inert(p.displayName)
    && (p.presharedKey.Some? ==> Field(p.presharedKey.value))
  }

  ghost predicate PrintableRows(rows: map<Id, Peer>) {
    forall id :: id in rows ==> Printable(rows[id])
  }

  /** The port has a size the parser reads, and no text of the profile goes on with a line that the parser reads. */
  ghost predicate PrintableNode(port: int, profile: Profile) {
    InertTexts(profile) && port <= MAX_INT64
  }

  lemma EntryWellFormed(p: Peer)
    requires Printable(p)
    ensures WellFormedPeer(PeerEntryOf(p))
  {
    HostPrefixIsPlain(p.allowedIp);
  }

  lemma EntriesWellFormed(rows: map<Id, Peer>, ids: seq<Id>)
    requires PrintableRows(rows) && Enumerates(ids, rows)
    ensures WellFormedPeers(EntriesOf(RowsAt(rows, ids)))
  {
    var es := EntriesOf(RowsAt(rows, ids));
    forall j | 0 <= j < |es|
      ensures WellFormedPeer(es[j])
    {
      EntryOfRow(rows, ids, es[j]);
      var id :| IsEntryOf(rows, id, es[j]);
      EntryWellFormed(rows[id]);
    }
  }

  /** Each parsed spec stands for a live row, and each live row has one. */
  lemma SpecOfRow(rows: map<Id, Peer>, ids: seq<Id>, s: PeerSpec)
    requires Enumerates(ids, rows) && s in SpecsOf(R.SortByKey(EntriesOf(RowsAt(rows, ids))))
    ensures exists id :: id in rows && !rows[id].state.Revoked? && s == SpecOf(PeerEntryOf(rows[id]))
  {
    var es := EntriesOf(RowsAt(rows, ids));
    var sorted := R.SortByKey(es);
    var j :| 0 <= j < |sorted| && SpecsOf(sorted)[j] == s;
    RT.SortPermutes(es);
    assert sorted[j] in multiset(sorted);
    assert sorted[j] in es;
    EntryOfRow(rows, ids, sorted[j]);
    var id :| IsEntryOf(rows, id, sorted[j]);
  }

  lemma RowHasSpec(rows: map<Id, Peer>, ids: seq<Id>, id: Id)
    requires Enumerates(ids, rows) && id in rows && !rows[id].state.Revoked?
    ensures SpecOf(PeerEntryOf(rows[id])) in SpecsOf(R.SortByKey(EntriesOf(RowsAt(rows, ids))))
  {
    var es := EntriesOf(RowsAt(rows, ids));
    var sorted, e := R.SortByKey(es), PeerEntryOf(rows[id]);
    assert IsEntryOf(rows, id, e);
    EntryOfRow(rows, ids, e);
    RT.SortPermutes(es);
    assert e in multiset(es);
    assert e in sorted;
    var j :| 0 <= j < |sorted| && sorted[j] == e;
    assert SpecsOf(sorted)[j] == SpecOf(e);
  }

  // ---------------------------------------------------------------- what the config of a node loads

  lemma SpecsAreRendered(rows: map<Id, Peer>, ids: seq<Id>)
    requires Enumerates(ids, rows) && OneRowPerKey(rows)
    ensures FromSpecs(SpecsOf(R.SortByKey(EntriesOf(RowsAt(rows, ids))))) == Rendered(rows)
  {
    var specs := SpecsOf(R.SortByKey(EntriesOf(RowsAt(rows, ids))));
    forall k
      ensures k in Ex.KeysOf(specs) <==> k in LiveKeys(rows)
    {
      if k in Ex.KeysOf(specs) {
        var j :| 0 <= j < |specs| && specs[j].publicKey == k;
        SpecOfRow(rows, ids, specs[j]);
      }
      if k in LiveKeys(rows) {
        var id :| id in rows && !rows[id].state.Revoked? && rows[id].publicKey == k;
        RowHasSpec(rows, ids, id);
        var j :| 0 <= j < |specs| && specs[j] == SpecOf(PeerEntryOf(rows[id]));
        assert specs[j].publicKey == k;
      }
    }
    forall k | k in Ex.KeysOf(specs)
      ensures LiveSpec(Ex.LastSpec(specs, k).value) == Rendered(rows)[k]
    {
      var s := Ex.LastSpec(specs, k).value;
      SpecOfRow(rows, ids, s);
      var id :| id in rows && !rows[id].state.Revoked? && s == SpecOf(PeerEntryOf(rows[id]));
      assert id == RowWithKey(rows, k);
    }
  }

  /** Preserving a key takes a good one over and otherwise leaves the config alone. */
  lemma PreserveCases(config: string, shown: string)
    requires Keyless(config)
    ensures var v := InterfaceValue(shown, PRIVATE_KEY);
            Preserve(config, shown) == if GoodKey(v) then WithInterfaceValue(config, PRIVATE_KEY, v) else config
  {
    var v := InterfaceValue(shown, PRIVATE_KEY);
    InterfaceValueFits(shown, PRIVATE_KEY);
    TrimmedStays(v);
  }

  /** Whatever key is preserved, a printed config without one parses to its peers. */
  lemma PreservedServerParses(iface: R.Interface, profile: Profile, entries: seq<R.PeerEntry>, shown: string)
    requires iface.privateKey == "" && OneLineInterface(iface) && InertTexts(profile) && iface.listenPort <= MAX_INT64
    requires WellFormedPeers(entries)
    ensures KC.LeavesKey(R.Server(iface, profile, entries))
    ensures Parse(Preserve(R.Server(iface, profile, entries), shown)).peers == SpecsOf(R.SortByKey(entries))
  {
    RT.SortedWellFormed(entries);
    RT.ServerIsKeyless(iface, profile, entries);
    RT.ParseServer(iface, profile, entries);
    PreserveCases(R.Server(iface, profile, entries), shown);
    if GoodKey(InterfaceValue(shown, PRIVATE_KEY)) {
      RT.InsertIsPrint(iface, profile, entries, InterfaceValue(shown, PRIVATE_KEY));
    }
  }

  /**
   * Applying a node puts exactly its non-revoked peers on the interface, with their keys and addresses,
   * whatever the interface shows before, and leaves the interface its private key.
   */
  lemma ApplyShowsSnapshot(port: int, profile: Profile, rows: map<Id, Peer>, shown: string)
    requires PrintableRows(rows) && OneRowPerKey(rows) && PrintableNode(port, profile)
    ensures Loaded(Preserve(ConfigOf(port, profile, rows), shown)) == Rendered(rows)
    ensures KC.LeavesKey(ConfigOf(port, profile, rows))
  {
    var ids := Enumeration(rows);
    EntriesWellFormed(rows, ids);
    PreservedServerParses(R.Interface("", [], port, 0, [], "", ""), profile, EntriesOf(RowsAt(rows, ids)), shown);
    SpecsAreRendered(rows, ids);
  }
}
