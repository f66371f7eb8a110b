/** Runs of a host under its callers: the interface's private key is conserved. */
module KeyConservation {
  import opened Wrappers
  import opened Strings
  import opened ConfigText
  import opened Parser
  import opened Config
  import opened ConfigLaws
  import opened KeyInsertion
  import opened KeyPreservation
  import opened Executor
  import opened Failures

  // ---------------------------------------------------------------- the agent and the worker

  /** What the agent, or a worker on the same host, applies: the desired config with the current key. */
  function KeptSync(ifc: Iface, config: string): Iface {
    Synced(ifc, Preserve(config, ifc.rendered))
  }

  /** The agent's handler: show, preserve, sync. When the current config cannot be shown the body is applied as is. */
  method SyncConfHandler(e: FakeExecutor, iface: string, body: string) returns (err: Option<Failure>)
    modifies e`interfaces, e`failSyncConf, e`failShowConf
    ensures err.Some? ==> e.interfaces == old(e.interfaces)
    ensures err.None? ==> iface in old(e.interfaces)
    ensures err.None? && old(e.failShowConf) == None ==>
              e.interfaces == old(e.interfaces)[iface := KeptSync(old(e.interfaces)[iface], body)]
    ensures err.None? && old(e.failShowConf) != None ==>
              e.interfaces == old(e.interfaces)[iface := Synced(old(e.interfaces)[iface], body)]
    ensures old(e.failSyncConf) == None && iface in old(e.interfaces) ==> err.None?
  {
    var config := body;
    var current := e.ShowConf(iface);
    if current.Ok? {
      config := Preserve(config, current.value);
    }
    err := e.SyncConf(iface, config);
  }

  /** The worker's own preserving asks for the current config only when the desired one has no key. */
  function WorkerPreserve(config: string, shown: string): string {
    if InterfaceValue(config, PRIVATE_KEY) != "" then config else Preserve(config, shown)
  }

  lemma WorkerPreserveIs(config: string, shown: string)
    ensures WorkerPreserve(config, shown) == Preserve(config, shown)
  {
  }

  /** Through the agent the worker sees a redacted config and adds nothing; the agent adds the key. */
  lemma RemoteIsLocal(ifc: Iface, config: string)
    ensures KeptSync(ifc, WorkerPreserve(config, Redact(ifc.rendered))) == KeptSync(ifc, config)
  {
    WorkerPreserveIs(config, Redact(ifc.rendered));
    PreserveFromRedacted(config, ifc.rendered);
  }

  /** A worker on the same host preserves first, and preserving again changes nothing. */
  lemma LocalTwice(ifc: Iface, config: string)
    requires Keyless(config) && HeaderFits(Lines(config)) && GoodKey(InterfaceValue(ifc.rendered, PRIVATE_KEY))
    ensures KeptSync(ifc, WorkerPreserve(config, ifc.rendered)) == KeptSync(ifc, config)
  {
    var k := InterfaceValue(ifc.rendered, PRIVATE_KEY);
    TrimmedStays(k);
    KeylessSurvivesIff(config, k);
  }

  // ---------------------------------------------------------------- runs

  datatype Host = Host(interfaces: map<string, Iface>, bootstraps: map<string, Iface>)

  datatype Call =
    | Apply(iface: string, config: string)
    | ApplyRemotely(iface: string, config: string)
    | ApplyUnshown(iface: string, config: string)
    | FailedCall(iface: string)
    | PutPeer(iface: string, spec: PeerSpec)
    | DropPeer(iface: string, key: string)
    | Down(iface: string)
    | Up(iface: string, file: Option<string>)

  function OnInterface(h: Host, iface: string, ifc: Iface): Host {
    h.(interfaces := h.interfaces[iface := ifc])
  }

  /** A host that cannot show its current config gets the desired one as it is. */
  function After(h: Host, c: Call): Host {
    match c
    case FailedCall(_) => h
    case Down(i) =>
      if i in h.interfaces then Host(h.interfaces - {i}, h.bootstraps[i := h.interfaces[i]]) else h
    case Up(i, file) => if i in h.interfaces then h else OnInterface(h, i, RaisedFrom(h.bootstraps, i, file))
    case Apply(i, config) => if i in h.interfaces then OnInterface(h, i, KeptSync(h.interfaces[i], config)) else h
    case ApplyRemotely(i, config) =>
      if i in h.interfaces
      then OnInterface(h, i, KeptSync(h.interfaces[i], WorkerPreserve(config, Redact(h.interfaces[i].rendered)))) else h
    case ApplyUnshown(i, config) => if i in h.interfaces then OnInterface(h, i, Synced(h.interfaces[i], config)) else h
    case PutPeer(i, p) => if i in h.interfaces then OnInterface(h, i, WithPeer(h.interfaces[i], p)) else h
    case DropPeer(i, k) => if i in h.interfaces then OnInterface(h, i, WithoutPeer(h.interfaces[i], k)) else h
  }

  ghost predicate IsRun(hosts: seq<Host>, calls: seq<Call>) {
    |hosts| == |calls| + 1 && forall n :: 0 <= n < |calls| ==> hosts[n + 1] == After(hosts[n], calls[n])
  }

  /** A desired config that leaves the key to the interface, as those printed from tidy rows do. */
  ghost predicate LeavesKey(config: string) {
    Keyless(config) && HeaderFits(Lines(config))
  }

  /** Calls that touch the interface apply such configs, and do not recreate it from a file. */
  ghost predicate Ordinary(c: Call, iface: string) {
    c.iface == iface ==>
      && (c.Apply? || c.ApplyRemotely? || c.ApplyUnshown? ==> LeavesKey(c.config))
      && (c.Up? ==> c.file.None?)
  }

  predicate Holds(ifc: Iface, key: string, pub: string) {
    ifc.priv == key && ifc.pub == pub && InterfaceValue(ifc.rendered, PRIVATE_KEY) == key
  }

  /** The interface holds its keys while up, and its saved shape does while down. */
  predicate Keeps(h: Host, iface: string, key: string, pub: string) {
    if iface in h.interfaces then Holds(h.interfaces[iface], key, pub)
    else iface in h.bootstraps && Holds(h.bootstraps[iface], key, pub)
  }

  /** One apply of a config that leaves the key keeps both keys, and shows them again. */
  lemma SyncHolds(ifc: Iface, config: string, key: string, pub: string)
    requires Holds(ifc, key, pub) && GoodKey(key) && pub != "" && LeavesKey(config)
    ensures Holds(KeptSync(ifc, config), key, pub)
  {
    TrimmedStays(key);
    KeylessSurvivesIff(config, key);
  }

  /** The call replaces the config of an interface that is up without having seen its key. */
  predicate Blind(h: Host, c: Call, iface: string) {
    c.ApplyUnshown? && c.iface == iface && iface in h.interfaces
  }

  lemma StepKeeps(h: Host, c: Call, iface: string, key: string, pub: string)
    requires Keeps(h, iface, key, pub) && GoodKey(key) && pub != "" && Ordinary(c, iface) && !Blind(h, c, iface)
    ensures Keeps(After(h, c), iface, key, pub)
  {
    if c.iface == iface && iface in h.interfaces {
      if c.Apply? {
        SyncHolds(h.interfaces[iface], c.config, key, pub);
      } else if c.ApplyRemotely? {
        RemoteIsLocal(h.interfaces[iface], c.config);
        SyncHolds(h.interfaces[iface], c.config, key, pub);
      }
    }
  }

  lemma BlindLoses(h: Host, c: Call, iface: string, key: string, pub: string)
    requires GoodKey(key) && Ordinary(c, iface) && Blind(h, c, iface)
    ensures !Keeps(After(h, c), iface, key, pub)
  {
    NoKeyParsed(Lines(c.config));
  }

  /**
   * Over a run in which the interface is given configs that leave the key to it, its private key, and the
   * public key with it, is kept throughout exactly when no apply goes through whose look at the current
   * config had failed.
   */
  lemma KeyKeptIff(hosts: seq<Host>, calls: seq<Call>, iface: string, key: string, pub: string)
    requires IsRun(hosts, calls) && Keeps(hosts[0], iface, key, pub) && GoodKey(key) && pub != ""
    requires forall n :: 0 <= n < |calls| ==> Ordinary(calls[n], iface)
    ensures (forall n :: 0 <= n < |hosts| ==> Keeps(hosts[n], iface, key, pub)) <==>
            (forall n :: 0 <= n < |calls| ==> !Blind(hosts[n], calls[n], iface))
  {
    if forall n :: 0 <= n < |calls| ==> !Blind(hosts[n], calls[n], iface) {
      KeyNeverChanges(hosts, calls, iface, key, pub);
    } else {
      var n :| 0 <= n < |calls| && Blind(hosts[n], calls[n], iface);
      BlindLoses(hosts[n], calls[n], iface, key, pub);
      assert !Keeps(hosts[n + 1], iface, key, pub);
    }
  }

  lemma KeyNeverChanges(hosts: seq<Host>, calls: seq<Call>, iface: string, key: string, pub: string)
    requires IsRun(hosts, calls) && Keeps(hosts[0], iface, key, pub) && GoodKey(key) && pub != ""
    requires forall n :: 0 <= n < |calls| ==> Ordinary(calls[n], iface) && !Blind(hosts[n], calls[n], iface)
    ensures forall n :: 0 <= n < |hosts| ==> Keeps(hosts[n], iface, key, pub)
  {
    var n := 0;
    while n < |calls|
      invariant n <= |calls|
      invariant forall m :: 0 <= m <= n ==> Keeps(hosts[m], iface, key, pub)
    {
      StepKeeps(hosts[n], calls[n], iface, key, pub);
      n := n + 1;
    }
  }
}
