/** The parser undoes the printer. */
module RenderParse {
  import opened Strings
  import opened Numerals
  import opened Profiles
  import opened ConfigText
  import opened Parser
  import opened Render
  import opened RenderLines

  // ---------------------------------------------------------------- well-formed inputs

  /** A value that fits on a line and has no space around it. */
  predicate Field(s: string) {
    Trimmed(s) && NoNewline(s)
  }

  ghost predicate WellFormedPeer(p: PeerEntry) {
    && p.publicKey != "" && Field(p.publicKey) && Field(p.presharedKey) && Field(p.endpoint)
    && (forall i :: 0 <= i < |p.allowedIps| ==> p.allowedIps[i] != "" && Field(p.allowedIps[i]) && ',' !in p.allowedIps[i])
    && p.keepalive <= MAX_INT64
    && Inert(p.comment)
  }

  ghost predicate WellFormedPeers(peers: seq<PeerEntry>) {
    forall i :: 0 <= i < |peers| ==> WellFormedPeer(peers[i])
  }

  /** What the parser should make of a peer. */
  function SpecOf(p: PeerEntry): PeerSpec {
    PeerSpec(p.publicKey, p.presharedKey, p.allowedIps, p.endpoint, if p.keepalive > 0 then p.keepalive else 0)
  }

  function SpecsOf(peers: seq<PeerEntry>): (r: seq<PeerSpec>)
    ensures |r| == |peers| && forall i :: 0 <= i < |r| ==> r[i] == SpecOf(peers[i])
  {
    seq(|peers|, i requires 0 <= i < |peers| => SpecOf(peers[i]))
  }

  // ---------------------------------------------------------------- comma lists

  lemma {:induction false} JoinedParts(parts: seq<string>)
    requires parts != [] && forall i :: 0 <= i < |parts| ==> ',' !in parts[i]
    ensures Split(Join(parts, ", "), ',') == [parts[0]] + Spaced(parts[1..])
  {
    if |parts| == 1 {
      assert Join(parts, ", ") == parts[0];
    } else {
      var rest := parts[1..];
      var tail := " " + Join(rest, ", ");
      assert Join(parts, ", ") == parts[0] + [','] + tail;
      SplitCons(parts[0], ',', tail);
      JoinedParts(rest);
      SplitPrefix(" ", Join(rest, ", "), ',');
      SpacedCons(rest);
    }
  }

  function Spaced(parts: seq<string>): (r: seq<string>)
    ensures |r| == |parts| && forall i :: 0 <= i < |r| ==> r[i] == " " + parts[i]
  {
    seq(|parts|, i requires 0 <= i < |parts| => " " + parts[i])
  }

  lemma SpacedCons(parts: seq<string>)
    requires parts != []
    ensures Spaced(parts) == [" " + parts[0]] + Spaced(parts[1..])
  {
  }

  lemma {:induction false} TrimmedParts(parts: seq<string>, raw: seq<string>)
    requires |raw| == |parts|
    requires forall i :: 0 <= i < |parts| ==> parts[i] != "" && TrimSpace(raw[i]) == parts[i]
    ensures NonEmptyTrimmed(raw) == parts
  {
    if raw != [] {
      TrimmedParts(parts[1..], raw[1..]);
      assert parts == [parts[0]] + parts[1..];
    }
  }

  lemma SpacedIsTrimmed(parts: seq<string>, i: nat)
    requires i < |parts| && Trimmed(parts[i])
    ensures TrimSpace(([parts[0]] + Spaced(parts[1..]))[i]) == parts[i]
  {
    TrimmedStays(parts[i]);
  }

  /** Splitting a joined list of plain items gives the items back. */
  lemma SplitJoinedCSV(parts: seq<string>)
    requires parts != []
    requires forall i :: 0 <= i < |parts| ==> parts[i] != "" && Trimmed(parts[i]) && ',' !in parts[i]
    ensures SplitCSV(Join(parts, ", ")) == parts
  {
    JoinedParts(parts);
    forall i | 0 <= i < |parts|
      ensures TrimSpace(([parts[0]] + Spaced(parts[1..]))[i]) == parts[i]
    {
      SpacedIsTrimmed(parts, i);
    }
    TrimmedParts(parts, [parts[0]] + Spaced(parts[1..]));
  }

  lemma {:induction false} JoinIsField(parts: seq<string>)
    requires parts != [] && forall i :: 0 <= i < |parts| ==> parts[i] != "" && Field(parts[i])
    ensures Join(parts, ", ") != "" && Field(Join(parts, ", "))
    ensures Join(parts, ", ")[0] == parts[0][0]
  {
    if |parts| > 1 {
      JoinIsField(parts[1..]);
      var rest := Join(parts[1..], ", ");
      var s := parts[0] + ", " + rest;
      assert s[|s| - 1] == rest[|rest| - 1];
    }
  }

  // ---------------------------------------------------------------- a peer block

  lemma TrimFormat(n: int)
    ensures TrimSpace(FormatInt(n)) == FormatInt(n)
  {
    TrimmedStays(FormatInt(n));
  }

  lemma ScanFormat(n: int)
    requires 0 <= n <= MAX_INT64
    ensures ScanFrom(0, TrimSpace(FormatInt(n))) == n
  {
    TrimFormat(n);
    ScanDigits(n);
  }

  function InPeer(out: Parsed, cur: PeerSpec): State {
    State("Peer", cur, out)
  }

  lemma SetPublicKey(out: Parsed, p: PeerEntry)
    requires WellFormedPeer(p)
    ensures SetAll(InPeer(out, NO_PEER), [("PublicKey", p.publicKey)]) == InPeer(out, NO_PEER.(publicKey := p.publicKey))
  {
    PublicKeyKey();
    TrimmedStays(p.publicKey);
    SetOne(InPeer(out, NO_PEER), true, "PublicKey", p.publicKey);
  }

  lemma SetPresharedKey(out: Parsed, cur: PeerSpec, p: PeerEntry)
    requires WellFormedPeer(p) && cur.presharedKey == ""
    ensures SetAll(InPeer(out, cur), When(p.presharedKey != "", "PresharedKey", p.presharedKey)) ==
            InPeer(out, cur.(presharedKey := p.presharedKey))
  {
    PresharedKeyKey();
    TrimmedStays(p.presharedKey);
    SetOne(InPeer(out, cur), p.presharedKey != "", "PresharedKey", p.presharedKey);
  }

  lemma SetAllowedIps(out: Parsed, cur: PeerSpec, p: PeerEntry)
    requires WellFormedPeer(p) && cur.allowedIps == []
    ensures SetAll(InPeer(out, cur), When(p.allowedIps != [], "AllowedIPs", Join(p.allowedIps, ", "))) ==
            InPeer(out, cur.(allowedIps := p.allowedIps))
  {
    AllowedIpsKey();
    if p.allowedIps != [] {
      SplitJoinedCSV(p.allowedIps);
      JoinIsField(p.allowedIps);
      TrimmedStays(Join(p.allowedIps, ", "));
    }
    SetOne(InPeer(out, cur), p.allowedIps != [], "AllowedIPs", Join(p.allowedIps, ", "));
  }

  lemma SetEndpoint(out: Parsed, cur: PeerSpec, p: PeerEntry)
    requires WellFormedPeer(p) && cur.endpoint == ""
    ensures SetAll(InPeer(out, cur), When(p.endpoint != "", "Endpoint", p.endpoint)) ==
            InPeer(out, cur.(endpoint := p.endpoint))
  {
    EndpointKey();
    TrimmedStays(p.endpoint);
    SetOne(InPeer(out, cur), p.endpoint != "", "Endpoint", p.endpoint);
  }

  lemma SetKeepalive(out: Parsed, cur: PeerSpec, p: PeerEntry)
    requires WellFormedPeer(p) && cur.keepalive == 0
    ensures SetAll(InPeer(out, cur), When(p.keepalive > 0, "PersistentKeepalive", FormatInt(p.keepalive))) ==
            InPeer(out, cur.(keepalive := if p.keepalive > 0 then p.keepalive else 0))
  {
    KeepaliveKey();
    if p.keepalive > 0 {
      ScanFormat(p.keepalive);
    }
    SetOne(InPeer(out, cur), p.keepalive > 0, "PersistentKeepalive", FormatInt(p.keepalive));
  }

  lemma SetPeerSettings(out: Parsed, p: PeerEntry)
    requires WellFormedPeer(p)
    ensures SetAll(InPeer(out, NO_PEER), PeerSettings(p)) == InPeer(out, SpecOf(p))
  {
    var st := InPeer(out, NO_PEER);
    var key := [("PublicKey", p.publicKey)];
    var psk := When(p.presharedKey != "", "PresharedKey", p.presharedKey);
    var ips := When(p.allowedIps != [], "AllowedIPs", Join(p.allowedIps, ", "));
    var end := When(p.endpoint != "", "Endpoint", p.endpoint);
    var alive := When(p.keepalive > 0, "PersistentKeepalive", FormatInt(p.keepalive));
    SetAllAppend(st, key + psk + ips + end, alive);
    SetAllAppend(st, key + psk + ips, end);
    SetAllAppend(st, key + psk, ips);
    SetAllAppend(st, key, psk);
    var c1 := NO_PEER.(publicKey := p.publicKey);
    var c2 := c1.(presharedKey := p.presharedKey);
    var c3 := c2.(allowedIps := p.allowedIps);
    var c4 := c3.(endpoint := p.endpoint);
    SetPublicKey(out, p);
    SetPresharedKey(out, c1, p);
    SetAllowedIps(out, c2, p);
    SetEndpoint(out, c3, p);
    SetKeepalive(out, c4, p);
  }

  lemma PeerKeysArePlain(p: PeerEntry)
    ensures PlainKeys(PeerSettings(p))
  {
    PublicKeyKey();
    PresharedKeyKey();
    AllowedIpsKey();
    EndpointKey();
    KeepaliveKey();
  }

  lemma CommentIsNothing(comment: string)
    ensures Classify("# " + comment) == Nothing
  {
    var s := "# " + comment;
    assert s == "" + ['#'] + (" " + comment);
    TrimAround("", '#', " " + comment);
  }

  lemma PeerHeader()
    ensures Classify("") == Nothing
    ensures Classify("[Peer]") == Header("[Peer]") && TrimBrackets("[Peer]") == "Peer"
  {
    assert "[Peer]" == "[" + "Peer" + "]";
    TrimBracketsOf("Peer");
    TrimmedStays("[Peer]");
  }

  lemma ParsePeerStart(st: State, comment: string)
    requires Inert(comment)
    ensures ParseLines(st, ["", "[Peer]"] + CommentLines(comment)) == InPeer(Flush(st).out, NO_PEER)
  {
    PeerHeader();
    var lines := ["", "[Peer]"] + CommentLines(comment);
    var s := Flush(st).(section := "Peer");
    assert ParseLine(st, "") == st && ParseLine(st, "[Peer]") == s;
    assert lines[1..] == ["[Peer]"] + CommentLines(comment);
    assert lines[1..][1..] == CommentLines(comment);
    ParseComment(s, comment);
  }

  /** The lines of a comment: its first line behind the mark, the others as they are. */
  lemma LinesOfComment(comment: string)
    ensures Lines("# " + comment) == ["# " + Lines(comment)[0]] + Lines(comment)[1..]
  {
    SplitPrefix("# ", comment, '\n');
  }

  lemma CommentIgnored(comment: string)
    requires Inert(comment)
    ensures AllIgnored(CommentLines(comment))
  {
    if comment != "" {
      LinesOfComment(comment);
      CommentIsNothing(Lines(comment)[0]);
      FirstThenRest("# " + Lines(comment)[0], Lines(comment));
    }
  }

  lemma FirstThenRest(first: string, lines: seq<string>)
    requires lines != [] && Ignored(first) && forall i :: 0 < i < |lines| ==> Ignored(lines[i])
    ensures AllIgnored([first] + lines[1..])
  {
    var all := [first] + lines[1..];
    forall i | 0 <= i < |all|
      ensures Ignored(all[i])
    {
      assert i > 0 ==> all[i] == lines[i];
    }
  }

  lemma ParseComment(s: State, comment: string)
    requires Inert(comment)
    ensures ParseLines(s, CommentLines(comment)) == s
  {
    CommentIgnored(comment);
    IgnoredLines(s, CommentLines(comment));
  }

  lemma ParsePeer(st: State, p: PeerEntry)
    requires WellFormedPeer(p)
    ensures ParseLines(st, PeerLines(p)) == InPeer(Flush(st).out, SpecOf(p))
  {
    ParseLinesAppend(st, ["", "[Peer]"] + CommentLines(p.comment), Assigns(PeerSettings(p)));
    ParsePeerStart(st, p.comment);
    PeerKeysArePlain(p);
    ParseAssigns(InPeer(Flush(st).out, NO_PEER), PeerSettings(p));
    SetPeerSettings(Flush(st).out, p);
  }

  function WithPeers(out: Parsed, more: seq<PeerSpec>): Parsed {
    out.(peers := out.peers + more)
  }

  lemma WithPeersTwice(out: Parsed, a: seq<PeerSpec>, b: seq<PeerSpec>)
    ensures WithPeers(WithPeers(out, a), b) == WithPeers(out, a + b)
    ensures WithPeers(out, []) == out
  {
    assert out.peers + a + b == out.peers + (a + b);
  }

  lemma FlushPeer(out: Parsed, spec: PeerSpec)
    requires spec.publicKey != ""
    ensures Flush(InPeer(out, spec)).out == WithPeers(out, [spec])
  {
  }

  /** Peer blocks add their peers in order. */
  lemma {:induction false} ParsePeers(st: State, peers: seq<PeerEntry>)
    requires WellFormedPeers(peers)
    ensures Flush(ParseLines(st, AllPeerLines(peers))).out == WithPeers(Flush(st).out, SpecsOf(peers))
    decreases |peers|
  {
    var out := Flush(st).out;
    if peers == [] {
      WithPeersTwice(out, [], []);
    } else {
      var first, rest := peers[0], peers[1..];
      var next := InPeer(out, SpecOf(first));
      calc {
        Flush(ParseLines(st, AllPeerLines(peers))).out;
        { ParseLinesAppend(st, PeerLines(first), AllPeerLines(rest)); ParsePeer(st, first); }
        Flush(ParseLines(next, AllPeerLines(rest))).out;
        { ParsePeers(next, rest); }
        WithPeers(Flush(next).out, SpecsOf(rest));
        { FlushPeer(out, SpecOf(first)); }
        WithPeers(WithPeers(out, [SpecOf(first)]), SpecsOf(rest));
        { WithPeersTwice(out, [SpecOf(first)], SpecsOf(rest)); }
        WithPeers(out, [SpecOf(first)] + SpecsOf(rest));
        { assert SpecsOf(peers) == [SpecOf(first)] + SpecsOf(rest); }
        WithPeers(out, SpecsOf(peers));
      }
    }
  }

  // ---------------------------------------------------------------- the interface block

  /** The texts of an interface fit on their lines. */
  ghost predicate OneLineInterface(iface: Interface) {
    && NoNewline(iface.privateKey) && OneLiners(iface.address) && OneLiners(iface.dns)
    && NoNewline(iface.postUp) && NoNewline(iface.postDown)
  }

  /** No text of a profile has, below its first line, a line that the parser reads. */
  ghost predicate InertTexts(p: Profile) {
    && Inert(p.i1) && Inert(p.i2) && Inert(p.i3) && Inert(p.i4) && Inert(p.i5) && Inert(p.headerProtectionKey)
  }

  function InInterface(key: string, port: int): State {
    State("Interface", NO_PEER, Parsed(key, port, []))
  }

  lemma SetListenPort(iface: Interface)
    requires iface.listenPort <= MAX_INT64
    ensures SetAll(InInterface("", 0), When(iface.listenPort > 0, "ListenPort", FormatInt(iface.listenPort))) ==
            InInterface("", if iface.listenPort > 0 then iface.listenPort else 0)
  {
    ListenPortKey();
    if iface.listenPort > 0 {
      ScanFormat(iface.listenPort);
    }
    SetOne(InInterface("", 0), iface.listenPort > 0, "ListenPort", FormatInt(iface.listenPort));
  }

  lemma SetPrivateKey(iface: Interface, port: int)
    requires Trimmed(iface.privateKey)
    ensures SetAll(InInterface("", port), When(iface.privateKey != "", "PrivateKey", iface.privateKey)) ==
            InInterface(iface.privateKey, port)
  {
    PrivateKeyKey();
    TrimmedStays(iface.privateKey);
    SetOne(InInterface("", port), iface.privateKey != "", "PrivateKey", iface.privateKey);
  }

  lemma SetPreamble(iface: Interface)
    requires iface.listenPort <= MAX_INT64 && Trimmed(iface.privateKey)
    ensures SetAll(InInterface("", 0), Preamble(iface)) ==
            InInterface(iface.privateKey, if iface.listenPort > 0 then iface.listenPort else 0)
  {
    var st := InInterface("", 0);
    var port := if iface.listenPort > 0 then iface.listenPort else 0;
    var a, id, h := Addresses(iface.address), Identity(iface), Hooks(iface);
    SetAllAppend(st, a + id, h);
    SetAllAppend(st, a, id);
    AddressesUnread(iface.address);
    SetAllUnread(st, a);
    SetAllAppend(st, When(iface.listenPort > 0, "ListenPort", FormatInt(iface.listenPort)),
                 When(iface.privateKey != "", "PrivateKey", iface.privateKey));
    SetListenPort(iface);
    SetPrivateKey(iface, port);
    HooksUnread(iface);
    SetAllUnread(InInterface(iface.privateKey, port), h);
  }

  lemma PreambleIsPlain(iface: Interface)
    ensures PlainKeys(Preamble(iface))
  {
    AddressesUnread(iface.address);
    HooksUnread(iface);
    ListenPortKey();
    PrivateKeyKey();
    assert PlainKeys(Identity(iface));
  }

  lemma InterfaceKeysArePlain(iface: Interface, profile: Profile)
    ensures PlainKeys(InterfaceSettings(iface, profile))
  {
    PreambleIsPlain(iface);
    ProfileUnread(profile, false);
  }

  lemma InterfaceHeader()
    ensures Classify("[Interface]") == Header("[Interface]") && TrimBrackets("[Interface]") == "Interface"
  {
    assert "[Interface]" == "[" + "Interface" + "]";
    TrimBracketsOf("Interface");
    TrimmedStays("[Interface]");
  }

  lemma InterfaceStart()
    ensures ParseLines(START, [BANNER, "[Interface]"]) == InInterface("", 0)
  {
    CommentIsNothing("Generated by awg-rest. Do not edit by hand.");
    InterfaceHeader();
    TwoLines(START, BANNER, "[Interface]");
  }

  /** The lines of the interface's own settings. */
  function StartLines(iface: Interface): seq<string> {
    [BANNER, "[Interface]"] + Assigns(Preamble(iface))
  }

  lemma ParseStart(iface: Interface)
    requires iface.listenPort <= MAX_INT64 && Trimmed(iface.privateKey)
    ensures ParseLines(START, StartLines(iface)) ==
            InInterface(iface.privateKey, if iface.listenPort > 0 then iface.listenPort else 0)
  {
    ParseLinesAppend(START, [BANNER, "[Interface]"], Assigns(Preamble(iface)));
    InterfaceStart();
    PreambleIsPlain(iface);
    ParseAssigns(InInterface("", 0), Preamble(iface));
    SetPreamble(iface);
  }

  /** The lines of the profile's settings, whatever its texts hold. */
  function ProfileLines(p: Profile): seq<string> {
    Flat(Assigns(ProfileSettings(p, false)))
  }

  /** For every profile, what the parser makes of the interface block is what it makes of the texts' further lines. */
  lemma ParseInterface(iface: Interface, profile: Profile)
    requires iface.listenPort <= MAX_INT64 && Trimmed(iface.privateKey)
    ensures ParseLines(START, StartLines(iface) + ProfileLines(profile)) ==
            ParseLines(InInterface(iface.privateKey, if iface.listenPort > 0 then iface.listenPort else 0),
                       Further(ProfileSettings(profile, false)))
  {
    ParseLinesAppend(START, StartLines(iface), ProfileLines(profile));
    ParseStart(iface);
    ProfileUnread(profile, false);
    ParseWritten(ParseLines(START, StartLines(iface)), ProfileSettings(profile, false));
  }

  // ---------------------------------------------------------------- inert profiles

  lemma OneLineValues(settings: seq<Setting>)
    requires forall i :: 0 <= i < |settings| ==> NoNewline(settings[i].1)
    ensures InertValues(settings)
  {
    forall i | 0 <= i < |settings|
      ensures Inert(settings[i].1)
    {
      OneLineIsInert(settings[i].1);
    }
  }

  lemma InertRange(settings: seq<Setting>, key: string, r: IntRange)
    requires InertValues(settings)
    ensures InertValues(settings + Range(key, r))
  {
    OneLineIsInert(r.Text());
    InertBoth(settings, Range(key, r));
  }

  lemma RangesInert(p: Profile)
    ensures InertValues(Ranges(p))
  {
    var s1 := Range("ContentPaddingAddition", p.contentPaddingAddition);
    var s2 := s1 + Range("RekeyAfterTime", p.rekeyAfterTime);
    var s3 := s2 + Range("RekeyTimeout", p.rekeyTimeout);
    var s4 := s3 + Range("RejectAfterTime", p.rejectAfterTime);
    var s5 := s4 + Range("KeepaliveTimeout", p.keepaliveTimeout);
    InertRange([], "ContentPaddingAddition", p.contentPaddingAddition);
    assert [] + s1 == s1;
    InertRange(s1, "RekeyAfterTime", p.rekeyAfterTime);
    InertRange(s2, "RekeyTimeout", p.rekeyTimeout);
    InertRange(s3, "RejectAfterTime", p.rejectAfterTime);
    InertRange(s4, "KeepaliveTimeout", p.keepaliveTimeout);
    InertRange(s5, "MaxHandshakeAttempts", p.maxHandshakeAttempts);
  }

  lemma InertWhen(wanted: bool, k: string, v: string)
    requires Inert(v)
    ensures InertValues(When(wanted, k, v))
  {
  }

  lemma FlagsInert(p: Profile)
    ensures InertValues([("RandomTrailers", OnOff(p.randomTrailers)), ("DisableCookies", OnOff(p.disableCookies))])
  {
    OneLineValues([("RandomTrailers", OnOff(p.randomTrailers)), ("DisableCookies", OnOff(p.disableCookies))]);
  }

  lemma V31Inert(p: Profile)
    requires Inert(p.headerProtectionKey)
    ensures InertValues(V31Settings(p))
  {
    if p.IsV31() {
      var key := When(p.headerProtectionKey != "", "HeaderProtectionKey", p.headerProtectionKey);
      var flags := [("RandomTrailers", OnOff(p.randomTrailers)), ("DisableCookies", OnOff(p.disableCookies))];
      RangesInert(p);
      FlagsInert(p);
      InertWhen(p.headerProtectionKey != "", "HeaderProtectionKey", p.headerProtectionKey);
      InertBoth(key, Ranges(p));
      InertBoth(key + Ranges(p), flags);
    }
  }

  lemma NumbersInert(p: Profile)
    ensures InertValues(Paddings(p) + Headers(p))
  {
    OneLineValues(Paddings(p));
    OneLineValues(Headers(p));
    InertBoth(Paddings(p), Headers(p));
  }

  lemma JunkInert(p: Profile)
    requires InertTexts(p)
    ensures InertValues(JunkTexts(p, false))
  {
    var s, t, u, v, w := When(p.i1 != "", "I1", p.i1), When(p.i2 != "", "I2", p.i2), When(p.i3 != "", "I3", p.i3),
                         When(p.i4 != "", "I4", p.i4), When(p.i5 != "", "I5", p.i5);
    InertBoth(s, t);
    InertBoth(s + t, u);
    InertBoth(s + t + u, v);
    InertBoth(s + t + u + v, w);
  }

  lemma ProfileInert(p: Profile)
    requires InertTexts(p)
    ensures InertValues(ProfileSettings(p, false))
  {
    NumbersInert(p);
    JunkInert(p);
    V31Inert(p);
    InertBoth(Paddings(p) + Headers(p), JunkTexts(p, false));
    InertBoth(Paddings(p) + Headers(p) + JunkTexts(p, false), V31Settings(p));
  }

  lemma ParseInertInterface(iface: Interface, profile: Profile)
    requires iface.listenPort <= MAX_INT64 && Trimmed(iface.privateKey) && InertTexts(profile)
    ensures ParseLines(START, StartLines(iface) + ProfileLines(profile)) ==
            InInterface(iface.privateKey, if iface.listenPort > 0 then iface.listenPort else 0)
  {
    ParseInterface(iface, profile);
    ProfileInert(profile);
    FurtherIgnored(ProfileSettings(profile, false));
    IgnoredLines(InInterface(iface.privateKey, if iface.listenPort > 0 then iface.listenPort else 0),
                 Further(ProfileSettings(profile, false)));
  }
}
