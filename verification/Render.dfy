/** The server config printer. */
module Render {
  import opened Strings
  import opened Numerals
  import opened Profiles
  import opened ConfigText

  datatype Interface = Interface(
    privateKey: string, address: seq<string>, listenPort: int, mtu: int,
    dns: seq<string>, postUp: string, postDown: string)

  datatype PeerEntry = PeerEntry(
    publicKey: string, presharedKey: string, allowedIps: seq<string>,
    endpoint: string, keepalive: int, comment: string)

  // ---------------------------------------------------------------- settings

  /** A key and its value, printed on one line. */
  type Setting = (string, string)

  function Assigns(settings: seq<Setting>): (lines: seq<string>)
    ensures |lines| == |settings|
    ensures forall i :: 0 <= i < |settings| ==> lines[i] == Assign(settings[i].0, settings[i].1)
  {
    seq(|settings|, i requires 0 <= i < |settings| => Assign(settings[i].0, settings[i].1))
  }

  lemma AssignsAppend(a: seq<Setting>, b: seq<Setting>)
    ensures Assigns(a + b) == Assigns(a) + Assigns(b)
  {
  }

  /** A setting that is written only when wanted. */
  function When(wanted: bool, key: string, value: string): seq<Setting> {
    if wanted then [(key, value)] else []
  }

  function Addresses(address: seq<string>): (r: seq<Setting>)
    ensures |r| == |address| && forall i :: 0 <= i < |r| ==> r[i] == ("Address", address[i])
  {
    seq(|address|, i requires 0 <= i < |address| => ("Address", address[i]))
  }

  function Identity(iface: Interface): seq<Setting> {
    When(iface.listenPort > 0, "ListenPort", FormatInt(iface.listenPort))
    + When(iface.privateKey != "", "PrivateKey", iface.privateKey)
  }

  function Hooks(iface: Interface): seq<Setting> {
    When(iface.mtu > 0, "MTU", FormatInt(iface.mtu))
    + When(iface.dns != [], "DNS", Join(iface.dns, ", "))
    + When(iface.postUp != "", "PostUp", iface.postUp)
    + When(iface.postDown != "", "PostDown", iface.postDown)
  }

  function Paddings(p: Profile): seq<Setting> {
    [("Jc", FormatInt(p.jc)), ("Jmin", FormatInt(p.jmin)), ("Jmax", FormatInt(p.jmax)),
     ("S1", FormatInt(p.s1)), ("S2", FormatInt(p.s2))]
    + if p.SupportsV2Fields() then [("S3", FormatInt(p.s3)), ("S4", FormatInt(p.s4))] else []
  }

  function Headers(p: Profile): seq<Setting> {
    [("H1", p.h1.Text()), ("H2", p.h2.Text()), ("H3", p.h3.Text()), ("H4", p.h4.Text())]
  }

  function JunkTexts(p: Profile, includeEmpty: bool): seq<Setting> {
    if !p.SupportsV2Fields() then []
    else
      When(p.i1 != "" || includeEmpty, "I1", p.i1)
      + When(p.i2 != "" || includeEmpty, "I2", p.i2)
      + When(p.i3 != "" || includeEmpty, "I3", p.i3)
      + When(p.i4 != "" || includeEmpty, "I4", p.i4)
      + When(p.i5 != "" || includeEmpty, "I5", p.i5)
  }

  function Range(key: string, r: IntRange): seq<Setting> {
    When(!r.IsZero(), key, r.Text())
  }

  function Ranges(p: Profile): seq<Setting> {
    Range("ContentPaddingAddition", p.contentPaddingAddition)
    + Range("RekeyAfterTime", p.rekeyAfterTime)
    + Range("RekeyTimeout", p.rekeyTimeout)
    + Range("RejectAfterTime", p.rejectAfterTime)
    + Range("KeepaliveTimeout", p.keepaliveTimeout)
    + Range("MaxHandshakeAttempts", p.maxHandshakeAttempts)
  }

  function OnOff(v: bool): string {
    if v then "on" else "off"
  }

  function V31Settings(p: Profile): seq<Setting> {
    if !p.IsV31() then []
    else
      When(p.headerProtectionKey != "", "HeaderProtectionKey", p.headerProtectionKey)
      + Ranges(p)
      + [("RandomTrailers", OnOff(p.randomTrailers)), ("DisableCookies", OnOff(p.disableCookies))]
  }

  function ProfileSettings(p: Profile, includeEmpty: bool): seq<Setting> {
    Paddings(p) + Headers(p) + JunkTexts(p, includeEmpty) + V31Settings(p)
  }

  function PeerSettings(p: PeerEntry): seq<Setting> {
    [("PublicKey", p.publicKey)]
    + When(p.presharedKey != "", "PresharedKey", p.presharedKey)
    + When(p.allowedIps != [], "AllowedIPs", Join(p.allowedIps, ", "))
    + When(p.endpoint != "", "Endpoint", p.endpoint)
    + When(p.keepalive > 0, "PersistentKeepalive", FormatInt(p.keepalive))
  }

  // ---------------------------------------------------------------- the lines

  const BANNER := "# " + "Generated by awg-rest. Do not edit by hand."

  /** The settings of the interface itself, printed before those of the profile. */
  function Preamble(iface: Interface): seq<Setting> {
    Addresses(iface.address) + Identity(iface) + Hooks(iface)
  }

  function InterfaceSettings(iface: Interface, profile: Profile): seq<Setting> {
    Preamble(iface) + ProfileSettings(profile, false)
  }

  function InterfaceLines(iface: Interface, profile: Profile): seq<string> {
    [BANNER, "[Interface]"] + Assigns(InterfaceSettings(iface, profile))
  }

  /** A comment is written as it is, so a name of several lines fills several lines. */
  function CommentLines(comment: string): seq<string> {
    if comment == "" then [] else Lines("# " + comment)
  }

  function PeerLines(p: PeerEntry): seq<string> {
    ["", "[Peer]"] + CommentLines(p.comment) + Assigns(PeerSettings(p))
  }

  function AllPeerLines(peers: seq<PeerEntry>): seq<string> {
    if peers == [] then [] else PeerLines(peers[0]) + AllPeerLines(peers[1..])
  }

  // ---------------------------------------------------------------- the order of the peers

  predicate Ordered(peers: seq<PeerEntry>) {
    forall i, j :: 0 <= i < j < |peers| ==> !Less(peers[j].publicKey, peers[i].publicKey)
  }

  ghost predicate DistinctKeys(peers: seq<PeerEntry>) {
    forall i, j :: 0 <= i < j < |peers| ==> peers[i].publicKey != peers[j].publicKey
  }

  function InsertByKey(p: PeerEntry, sorted: seq<PeerEntry>): seq<PeerEntry> {
    if sorted == [] || Less(p.publicKey, sorted[0].publicKey) then [p] + sorted
    else [sorted[0]] + InsertByKey(p, sorted[1..])
  }

  function SortByKey(peers: seq<PeerEntry>): seq<PeerEntry> {
    if peers == [] then [] else InsertByKey(peers[0], SortByKey(peers[1..]))
  }

  function Server(iface: Interface, profile: Profile, peers: seq<PeerEntry>): string {
    Unlines(InterfaceLines(iface, profile) + AllPeerLines(SortByKey(peers)))
  }
}
