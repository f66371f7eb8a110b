/** The in-memory AmneziaWG host: interfaces, their live peers, and the calls that change them. */
module Executor {
  import opened Wrappers
  import opened Failures
  import opened Parser

  datatype PeerRuntime = PeerRuntime(
    publicKey: string, presharedKey: string, allowedIps: seq<string>, endpoint: string, keepalive: int,
    lastHandshake: int, rxBytes: int, txBytes: int)

  datatype Iface = Iface(
    priv: string, pub: string, listenPort: int, rendered: string, peers: map<string, PeerRuntime>)

  const BLANK := Iface("", "", 0, "", map[])

  // ---------------------------------------------------------------- what a sync does

  /** A configured peer keeps the counters of the live peer with its key. */
  function Configured(live: map<string, PeerRuntime>, p: PeerSpec): PeerRuntime {
    if p.publicKey in live
    then PeerRuntime(p.publicKey, p.presharedKey, p.allowedIps, p.endpoint, p.keepalive,
                     live[p.publicKey].lastHandshake, live[p.publicKey].rxBytes, live[p.publicKey].txBytes)
    else PeerRuntime(p.publicKey, p.presharedKey, p.allowedIps, p.endpoint, p.keepalive, 0, 0, 0)
  }

  /** The last spec with the key, if any. */
  function LastSpec(specs: seq<PeerSpec>, k: string): (r: Option<PeerSpec>)
    ensures r.Some? ==> r.value in specs && r.value.publicKey == k
    ensures r.None? <==> forall i :: 0 <= i < |specs| ==> specs[i].publicKey != k
  {
    if specs == [] then None
    else if specs[|specs| - 1].publicKey == k then Some(specs[|specs| - 1])
    else LastSpec(specs[..|specs| - 1], k)
  }

  function KeysOf(specs: seq<PeerSpec>): set<string> {
    set i | 0 <= i < |specs| :: specs[i].publicKey
  }

  /** The peer set of the config exactly. */
  function Replaced(live: map<string, PeerRuntime>, specs: seq<PeerSpec>): map<string, PeerRuntime> {
    map k | k in KeysOf(specs) :: Configured(live, LastSpec(specs, k).value)
  }

  function PublicKeyFor(priv: string, pub: string): string {
    if priv == "" then "" else if pub == "" then "fake-public-" + priv else pub
  }

  function SyncedWith(ifc: Iface, config: string, parsed: Parsed): Iface {
    Iface(parsed.privateKey, PublicKeyFor(parsed.privateKey, ifc.pub),
          if parsed.listenPort != 0 then parsed.listenPort else ifc.listenPort,
          config, Replaced(ifc.peers, parsed.peers))
  }

  function Synced(ifc: Iface, config: string): Iface {
    SyncedWith(ifc, config, Parse(config))
  }

  /** A peer set on its own keeps everything of the live peer that the call does not name. */
  function WithPeer(ifc: Iface, p: PeerSpec): Iface {
    var live := if p.publicKey in ifc.peers then ifc.peers[p.publicKey]
                else PeerRuntime(p.publicKey, "", [], "", 0, 0, 0, 0);
    ifc.(peers := ifc.peers[p.publicKey :=
      live.(presharedKey := p.presharedKey, allowedIps := p.allowedIps, endpoint := p.endpoint, keepalive := p.keepalive)])
  }

  function WithoutPeer(ifc: Iface, k: string): Iface {
    ifc.(peers := ifc.peers - {k})
  }

  /** An interface brought up from a bootstrap file. */
  function FromFile(file: string): Iface {
    var parsed := Parse(file);
    Iface(parsed.privateKey, PublicKeyFor(parsed.privateKey, ""), parsed.listenPort, file, map[])
  }

  // ---------------------------------------------------------------- the loop over the peers

  lemma KeysOfAppend(specs: seq<PeerSpec>, p: PeerSpec)
    ensures KeysOf(specs + [p]) == KeysOf(specs) + {p.publicKey}
  {
    var all := specs + [p];
    forall x
      ensures x in KeysOf(all) <==> x in KeysOf(specs) + {p.publicKey}
    {
      if x in KeysOf(specs) {
        var j :| 0 <= j < |specs| && specs[j].publicKey == x;
        assert all[j].publicKey == x;
      }
      if x in KeysOf(all) {
        var j :| 0 <= j < |all| && all[j].publicKey == x;
        assert j < |specs| ==> specs[j].publicKey == x;
      }
      assert all[|specs|].publicKey == p.publicKey;
    }
  }

  lemma LastSpecAppend(specs: seq<PeerSpec>, p: PeerSpec, k: string)
    ensures LastSpec(specs + [p], k) == if k == p.publicKey then Some(p) else LastSpec(specs, k)
  {
    var all := specs + [p];
    assert all[..|all| - 1] == specs;
  }

  lemma ReplacedAppend(live: map<string, PeerRuntime>, specs: seq<PeerSpec>, p: PeerSpec)
    ensures Replaced(live, specs + [p]) == Replaced(live, specs)[p.publicKey := Configured(live, p)]
  {
    KeysOfAppend(specs, p);
    forall k | k in KeysOf(specs) + {p.publicKey}
      ensures LastSpec(specs + [p], k) == if k == p.publicKey then Some(p) else LastSpec(specs, k)
    {
      LastSpecAppend(specs, p, k);
    }
  }

  method ReplacePeers(live: map<string, PeerRuntime>, specs: seq<PeerSpec>) returns (next: map<string, PeerRuntime>)
    ensures next == Replaced(live, specs)
  {
    next := map[];
    assert KeysOf(specs[..0]) == {};
    for i := 0 to |specs|
      invariant next == Replaced(live, specs[..i])
    {
      var p := specs[i];
      var handshake, rx, tx := 0, 0, 0;
      if p.publicKey in live {
        var existing := live[p.publicKey];
        handshake, rx, tx := existing.lastHandshake, existing.rxBytes, existing.txBytes;
      }
      ReplacedAppend(live, specs[..i], p);
      assert specs[..i + 1] == specs[..i] + [p];
      next := next[p.publicKey :=
        PeerRuntime(p.publicKey, p.presharedKey, p.allowedIps, p.endpoint, p.keepalive, handshake, rx, tx)];
    }
    assert specs[..|specs|] == specs;
  }

  // ---------------------------------------------------------------- the host

  class FakeExecutor {
    var interfaces: map<string, Iface>
    var bootstraps: map<string, Iface>
    // One-shot failures a test can inject.
    var failSyncConf: Option<Failure>
    var failSetPeer: Option<Failure>
    var failRemovePeer: Option<Failure>
    var failShowDump: Option<Failure>
    var failShowConf: Option<Failure>
    var failInterfaceUp: Option<Failure>

    constructor ()
      ensures interfaces == map[] && bootstraps == map[]
      ensures failSyncConf == failSetPeer == failRemovePeer == failShowDump == failShowConf == failInterfaceUp == None
    {
      interfaces, bootstraps := map[], map[];
      failSyncConf, failSetPeer, failRemovePeer := None, None, None;
      failShowDump, failShowConf, failInterfaceUp := None, None, None;
    }

    /** A failing sync changes no interface; a successful one makes this interface, and no other, match the config. */
    method SyncConf(iface: string, config: string) returns (err: Option<Failure>)
      modifies this`interfaces, this`failSyncConf
      ensures failSyncConf == None
      ensures err == match old(failSyncConf)
                     case Some(f) => Some(f)
                     case None => if iface in old(interfaces) then None else Some(NotFound(iface))
      ensures err.Some? ==> interfaces == old(interfaces)
      ensures err.None? ==> interfaces == old(interfaces)[iface := Synced(old(interfaces)[iface], config)]
    {
      if failSyncConf.Some? {
        err := failSyncConf;
        failSyncConf := None;
        return;
      }
      if iface !in interfaces {
        return Some(NotFound(iface));
      }
      var ifc := interfaces[iface];
      var parsed := ParseRenderedConfig(config);
      ifc := ifc.(rendered := config);
      if parsed.privateKey != "" {
        ifc := ifc.(priv := parsed.privateKey);
        if ifc.pub == "" {
          ifc := ifc.(pub := "fake-public-" + parsed.privateKey);
        }
      } else {
        ifc := ifc.(priv := "", pub := "");
      }
      if parsed.listenPort != 0 {
        ifc := ifc.(listenPort := parsed.listenPort);
      }
      var next := ReplacePeers(ifc.peers, parsed.peers);
      interfaces := interfaces[iface := ifc.(peers := next)];
      err := None;
    }

    method SetPeer(iface: string, p: PeerSpec) returns (err: Option<Failure>)
      modifies this`interfaces, this`failSetPeer
      ensures failSetPeer == None
      ensures err == match old(failSetPeer)
                     case Some(f) => Some(f)
                     case None => if iface in old(interfaces) then None else Some(NotFound(iface))
      ensures err.Some? ==> interfaces == old(interfaces)
      ensures err.None? ==> interfaces == old(interfaces)[iface := WithPeer(old(interfaces)[iface], p)]
    {
      if failSetPeer.Some? {
        err := failSetPeer;
        failSetPeer := None;
        return;
      }
      if iface !in interfaces {
        return Some(NotFound(iface));
      }
      var ifc := interfaces[iface];
      var cur := if p.publicKey in ifc.peers then ifc.peers[p.publicKey]
                 else PeerRuntime(p.publicKey, "", [], "", 0, 0, 0, 0);
      cur := cur.(presharedKey := p.presharedKey);
      cur := cur.(allowedIps := p.allowedIps);
      cur := cur.(endpoint := p.endpoint);
      cur := cur.(keepalive := p.keepalive);
      interfaces := interfaces[iface := ifc.(peers := ifc.peers[p.publicKey := cur])];
      err := None;
    }

    /** Removing from an interface that is not there succeeds. */
    method RemovePeer(iface: string, publicKey: string) returns (err: Option<Failure>)
      modifies this`interfaces, this`failRemovePeer
      ensures failRemovePeer == None
      ensures err == old(failRemovePeer)
      ensures err.Some? || iface !in old(interfaces) ==> interfaces == old(interfaces)
      ensures err.None? && iface in old(interfaces) ==>
                interfaces == old(interfaces)[iface := WithoutPeer(old(interfaces)[iface], publicKey)]
    {
      if failRemovePeer.Some? {
        err := failRemovePeer;
        failRemovePeer := None;
        return;
      }
      if iface in interfaces {
        var ifc := interfaces[iface];
        interfaces := interfaces[iface := ifc.(peers := ifc.peers - {publicKey})];
      }
      err := None;
    }

    method ShowDump(iface: string) returns (r: Result<Iface, Failure>)
      modifies this`failShowDump
      ensures failShowDump == None
      ensures r == match old(failShowDump)
                   case Some(f) => Err(f)
                   case None => if iface in interfaces then Ok(interfaces[iface]) else Err(NotFound(iface))
    {
      if failShowDump.Some? {
        r := Err(failShowDump.value);
        failShowDump := None;
        return;
      }
      if iface !in interfaces {
        return Err(NotFound(iface));
      }
      r := Ok(interfaces[iface]);
    }

    method ShowConf(iface: string) returns (r: Result<string, Failure>)
      modifies this`failShowConf
      ensures failShowConf == None
      ensures r == match old(failShowConf)
                   case Some(f) => Err(f)
                   case None => if iface in interfaces then Ok(interfaces[iface].rendered) else Err(NotFound(iface))
    {
      if failShowConf.Some? {
        r := Err(failShowConf.value);
        failShowConf := None;
        return;
      }
      if iface !in interfaces {
        return Err(NotFound(iface));
      }
      r := Ok(interfaces[iface].rendered);
    }

    /** An interface that is already up stays; one that is not comes from the file, its last shape, or blank. */
    method InterfaceUp(iface: string, file: Option<string>) returns (err: Option<Failure>)
      modifies this`interfaces, this`failInterfaceUp
      ensures failInterfaceUp == None
      ensures err == old(failInterfaceUp)
      ensures err.Some? || iface in old(interfaces) ==> interfaces == old(interfaces)
      ensures err.None? && iface !in old(interfaces) ==>
                interfaces == old(interfaces)[iface := RaisedFrom(bootstraps, iface, file)]
    {
      if failInterfaceUp.Some? {
        err := failInterfaceUp;
        failInterfaceUp := None;
        return;
      }
      if iface !in interfaces {
        var restored := BLANK;
        if file.Some? {
          var parsed := ParseRenderedConfig(file.value);
          var pub := "fake-public-" + parsed.privateKey;
          restored := Iface(parsed.privateKey, pub, parsed.listenPort, file.value, map[]);
          if restored.priv == "" {
            restored := restored.(pub := "");
          }
        } else if iface in bootstraps {
          restored := bootstraps[iface];
        }
        interfaces := interfaces[iface := restored];
      }
      err := None;
    }

    method InterfaceDown(iface: string)
      modifies this`interfaces, this`bootstraps
      ensures interfaces == old(interfaces) - {iface}
      ensures bootstraps == if iface in old(interfaces) then old(bootstraps)[iface := old(interfaces)[iface]] else old(bootstraps)
    {
      if iface in interfaces {
        bootstraps := bootstraps[iface := interfaces[iface]];
        interfaces := interfaces - {iface};
      }
    }
  }

  function RaisedFrom(bootstraps: map<string, Iface>, iface: string, file: Option<string>): Iface {
    if file.Some? then FromFile(file.value)
    else if iface in bootstraps then bootstraps[iface]
    else BLANK
  }
}
