/** Printing then parsing, the order of peers, and keys inserted into printed configs. */
module RenderTheorems {
  import opened Strings
  import opened Numerals
  import opened Profiles
  import opened ConfigText
  import opened Parser
  import opened Config
  import opened ConfigMeaning
  import opened KeyInsertion
  import opened KeyPreservation
  import opened Render
  import opened RenderLines
  import opened RenderParse

  // ---------------------------------------------------------------- sorting

  lemma {:induction false} InsertPermutes(p: PeerEntry, sorted: seq<PeerEntry>)
    ensures multiset(InsertByKey(p, sorted)) == multiset{p} + multiset(sorted)
  {
    if sorted != [] && !Less(p.publicKey, sorted[0].publicKey) {
      InsertPermutes(p, sorted[1..]);
      assert sorted == [sorted[0]] + sorted[1..];
    }
  }

  lemma {:induction false} SortPermutes(peers: seq<PeerEntry>)
    ensures multiset(SortByKey(peers)) == multiset(peers)
  {
    if peers != [] {
      SortPermutes(peers[1..]);
      InsertPermutes(peers[0], SortByKey(peers[1..]));
      assert peers == [peers[0]] + peers[1..];
    }
  }

  lemma OrderedCons(p: PeerEntry, rest: seq<PeerEntry>)
    requires Ordered(rest) && forall q :: q in rest ==> !Less(q.publicKey, p.publicKey)
    ensures Ordered([p] + rest)
  {
    var all := [p] + rest;
    forall i, j | 0 <= i < j < |all|
      ensures !Less(all[j].publicKey, all[i].publicKey)
    {
      assert all[j] == rest[j - 1] && all[j] in rest;
      assert i > 0 ==> all[i] == rest[i - 1];
    }
  }

  lemma NotLessChain(a: string, b: string, c: string)
    requires !Less(b, a) && !Less(c, b)
    ensures !Less(c, a)
  {
    LessTotal(a, b);
    LessTotal(b, c);
    LessTotal(a, c);
    if Less(a, b) && Less(b, c) {
      LessTransitive(a, b, c);
    }
  }

  lemma {:induction false} InsertOrders(p: PeerEntry, sorted: seq<PeerEntry>)
    requires Ordered(sorted)
    ensures Ordered(InsertByKey(p, sorted))
  {
    if sorted == [] {
    } else if Less(p.publicKey, sorted[0].publicKey) {
      forall q | q in sorted
        ensures !Less(q.publicKey, p.publicKey)
      {
        var j :| 0 <= j < |sorted| && sorted[j] == q;
        LessTotal(p.publicKey, sorted[0].publicKey);
        LessTotal(q.publicKey, sorted[0].publicKey);
        NotLessChain(p.publicKey, sorted[0].publicKey, q.publicKey);
      }
      OrderedCons(p, sorted);
    } else {
      var first, rest := sorted[0], sorted[1..];
      InsertOrders(p, rest);
      InsertPermutes(p, rest);
      forall q | q in InsertByKey(p, rest)
        ensures !Less(q.publicKey, first.publicKey)
      {
        assert q in multiset(InsertByKey(p, rest));
        if q != p {
          assert q in rest;
          var j :| 0 <= j < |rest| && rest[j] == q;
          assert sorted[j + 1] == q;
        }
      }
      OrderedCons(first, InsertByKey(p, rest));
    }
  }

  lemma {:induction false} SortOrders(peers: seq<PeerEntry>)
    ensures Ordered(SortByKey(peers))
  {
    if peers != [] {
      SortOrders(peers[1..]);
      InsertOrders(peers[0], SortByKey(peers[1..]));
    }
  }

  lemma FirstIsLeast(peers: seq<PeerEntry>, k: nat)
    requires k < |peers| && Ordered(peers)
    ensures !Less(peers[k].publicKey, peers[0].publicKey)
  {
    LessTotal(peers[0].publicKey, peers[k].publicKey);
  }

  lemma FirstOfOrdered(a: seq<PeerEntry>, b: seq<PeerEntry>, i: nat, j: nat)
    requires i < |b| && j < |a| && b[i] == a[0] && a[j] == b[0]
    requires Ordered(a) && Ordered(b) && DistinctKeys(a)
    ensures a[0] == b[0]
  {
    FirstIsLeast(a, j);
    FirstIsLeast(b, i);
    LessTotal(a[0].publicKey, b[0].publicKey);
  }

  lemma WithoutFirst(a: seq<PeerEntry>)
    requires a != []
    ensures multiset(a[1..]) == multiset(a) - multiset{a[0]}
  {
    assert a == [a[0]] + a[1..];
  }

  lemma SameParts(a: seq<PeerEntry>, b: seq<PeerEntry>)
    requires a != [] && b != [] && a[0] == b[0] && a[1..] == b[1..]
    ensures a == b
  {
    assert a == [a[0]] + a[1..] && b == [b[0]] + b[1..];
  }

  /** With distinct keys there is one ordered arrangement. */
  lemma {:induction false} OrderedIsUnique(a: seq<PeerEntry>, b: seq<PeerEntry>)
    requires Ordered(a) && Ordered(b) && DistinctKeys(a) && multiset(a) == multiset(b)
    ensures a == b
  {
    assert |a| == |multiset(a)| == |multiset(b)| == |b|;
    if a != [] {
      assert a[0] in multiset(b) && b[0] in multiset(a);
      var i :| 0 <= i < |b| && b[i] == a[0];
      var j :| 0 <= j < |a| && a[j] == b[0];
      FirstOfOrdered(a, b, i, j);
      WithoutFirst(a);
      WithoutFirst(b);
      OrderedIsUnique(a[1..], b[1..]);
      SameParts(a, b);
    }
  }

  /** Distinct keys are a matter of the peers, not of their order. */
  lemma DistinctIsUnordered(a: seq<PeerEntry>, b: seq<PeerEntry>)
    requires DistinctKeys(a) && multiset(a) == multiset(b)
    ensures DistinctKeys(b)
  {
    forall i, j | 0 <= i < j < |b|
      ensures b[i].publicKey != b[j].publicKey
    {
      assert b[i] in multiset(b) && b[j] in multiset(b);
      var k :| 0 <= k < |a| && a[k] == b[i];
      var l :| 0 <= l < |a| && a[l] == b[j];
      if k == l {
        TwiceInOrder(b, i, j);
        OnceInDistinct(a, k);
      }
    }
  }

  lemma TwiceInOrder(b: seq<PeerEntry>, i: nat, j: nat)
    requires i < j < |b| && b[i] == b[j]
    ensures multiset(b)[b[i]] >= 2
  {
    assert b == b[..j] + [b[j]] + b[j + 1..];
    assert b[i] in multiset(b[..j]) by {
      assert b[..j][i] == b[i];
    }
  }

  lemma OnceInDistinct(a: seq<PeerEntry>, k: nat)
    requires k < |a| && DistinctKeys(a)
    ensures multiset(a)[a[k]] == 1
  {
    assert a == a[..k] + [a[k]] + a[k + 1..];
    assert a[k] !in a[..k] && a[k] !in a[k + 1..];
  }

  /** The output depends on the set of peers only. */
  lemma OrderDoesNotMatter(iface: Interface, profile: Profile, a: seq<PeerEntry>, b: seq<PeerEntry>)
    requires DistinctKeys(a) && multiset(a) == multiset(b)
    ensures Server(iface, profile, a) == Server(iface, profile, b)
  {
    SortPermutes(a);
    SortPermutes(b);
    SortOrders(a);
    SortOrders(b);
    DistinctIsUnordered(a, SortByKey(a));
    OrderedIsUnique(SortByKey(a), SortByKey(b));
  }

  // ---------------------------------------------------------------- the lines of the text

  ghost predicate OneLinePeer(p: PeerEntry) {
    NoNewline(p.publicKey) && NoNewline(p.presharedKey) && NoNewline(p.endpoint) && OneLiners(p.allowedIps)
  }

  ghost predicate OneLinePeers(peers: seq<PeerEntry>) {
    forall i :: 0 <= i < |peers| ==> OneLinePeer(peers[i])
  }

  ghost predicate OneLineSettings(settings: seq<Setting>) {
    forall i :: 0 <= i < |settings| ==> NoNewline(settings[i].0) && NoNewline(settings[i].1)
  }

  lemma OneLineAssigns(settings: seq<Setting>)
    requires OneLineSettings(settings)
    ensures OneLiners(Assigns(settings))
  {
    forall i | 0 <= i < |settings|
      ensures NoNewline(Assigns(settings)[i])
    {
      OneLineAssign(settings[i].0, settings[i].1);
    }
  }

  lemma OneLineAssign(k: string, v: string)
    requires NoNewline(k) && NoNewline(v)
    ensures NoNewline(Assign(k, v))
  {
  }

  lemma {:induction false} OneLineJoin(parts: seq<string>)
    requires OneLiners(parts)
    ensures NoNewline(Join(parts, ", "))
  {
    if |parts| > 1 {
      OneLineJoin(parts[1..]);
    }
  }

  lemma UnreadIsOneLine(settings: seq<Setting>)
    requires Unread(settings) && forall i :: 0 <= i < |settings| ==> NoNewline(settings[i].1)
    ensures OneLineSettings(settings)
  {
  }

  lemma OneLineBoth(a: seq<Setting>, b: seq<Setting>)
    requires OneLineSettings(a) && OneLineSettings(b)
    ensures OneLineSettings(a + b)
  {
  }

  lemma OneLineIdentity(iface: Interface)
    requires NoNewline(iface.privateKey)
    ensures OneLineSettings(Identity(iface))
  {
    ListenPortKey();
    PrivateKeyKey();
  }

  lemma OneLineHooks(iface: Interface)
    requires OneLiners(iface.dns) && NoNewline(iface.postUp) && NoNewline(iface.postDown)
    ensures OneLineSettings(Hooks(iface))
  {
    OneLineJoin(iface.dns);
    HooksUnread(iface);
    UnreadIsOneLine(Hooks(iface));
  }

  lemma OneLinePreamble(iface: Interface)
    requires OneLineInterface(iface)
    ensures OneLineSettings(Preamble(iface))
  {
    AddressesUnread(iface.address);
    UnreadIsOneLine(Addresses(iface.address));
    OneLineIdentity(iface);
    OneLineHooks(iface);
    OneLineBoth(Addresses(iface.address), Identity(iface));
    OneLineBoth(Addresses(iface.address) + Identity(iface), Hooks(iface));
  }

  lemma OneLineStart(iface: Interface)
    requires OneLineInterface(iface)
    ensures OneLiners(StartLines(iface))
  {
    OneLinePreamble(iface);
    OneLineAssigns(Preamble(iface));
    StartIsOneLine();
  }

  /** The lines of the interface block: its own settings, and those of the profile, whatever its texts hold. */
  lemma FlatInterface(iface: Interface, p: Profile)
    requires OneLineInterface(iface)
    ensures Flat(InterfaceLines(iface, p)) == StartLines(iface) + ProfileLines(p)
  {
    var start, profile := StartLines(iface), Assigns(ProfileSettings(p, false));
    AssignsAppend(Preamble(iface), ProfileSettings(p, false));
    Assoc([BANNER, "[Interface]"], Assigns(Preamble(iface)), profile);
    FlatAppend(start, profile);
    OneLineStart(iface);
    FlatOneLiners(start);
  }

  lemma StartIsOneLine()
    ensures NoNewline(BANNER) && NoNewline("[Interface]") && NoNewline("[Peer]") && NoNewline("")
  {
  }

  lemma OneLinePeerSettings(p: PeerEntry)
    requires OneLinePeer(p)
    ensures OneLineSettings(PeerSettings(p))
  {
    PeerKeysArePlain(p);
    OneLineJoin(p.allowedIps);
  }

  lemma OneLinePeerLines(p: PeerEntry)
    requires OneLinePeer(p)
    ensures OneLiners(PeerLines(p))
  {
    OneLinePeerSettings(p);
    OneLineAssigns(PeerSettings(p));
    StartIsOneLine();
    OneLineComment(p.comment);
  }

  /** Whatever a comment holds, its lines are lines. */
  lemma OneLineComment(comment: string)
    ensures OneLiners(CommentLines(comment))
  {
    TextOfLines("# " + comment);
  }

  lemma {:induction false} OneLineAllPeers(peers: seq<PeerEntry>)
    requires OneLinePeers(peers)
    ensures OneLiners(AllPeerLines(peers))
  {
    if peers != [] {
      OneLinePeerLines(peers[0]);
      OneLineAllPeers(peers[1..]);
    }
  }

  lemma SortedOneLine(peers: seq<PeerEntry>)
    requires OneLinePeers(peers)
    ensures OneLinePeers(SortByKey(peers))
  {
    SortPermutes(peers);
    forall i | 0 <= i < |SortByKey(peers)|
      ensures OneLinePeer(SortByKey(peers)[i])
    {
      assert SortByKey(peers)[i] in multiset(SortByKey(peers));
      assert SortByKey(peers)[i] in peers;
    }
  }

  /** The text consists of the printed lines, each ended by a newline. */
  lemma LinesOfServer(iface: Interface, p: Profile, peers: seq<PeerEntry>)
    requires OneLineInterface(iface) && OneLinePeers(peers)
    ensures Lines(Server(iface, p, peers)) == StartLines(iface) + ProfileLines(p) + AllPeerLines(SortByKey(peers)) + [""]
  {
    var blocks := AllPeerLines(SortByKey(peers));
    LinesOfWritten(InterfaceLines(iface, p) + blocks);
    FlatAppend(InterfaceLines(iface, p), blocks);
    FlatInterface(iface, p);
    SortedOneLine(peers);
    OneLineAllPeers(SortByKey(peers));
    FlatOneLiners(blocks);
  }

  // ---------------------------------------------------------------- printing then parsing

  lemma WellFormedIsOneLine(p: PeerEntry)
    requires WellFormedPeer(p)
    ensures OneLinePeer(p)
  {
  }

  lemma SortedWellFormed(peers: seq<PeerEntry>)
    requires WellFormedPeers(peers)
    ensures WellFormedPeers(SortByKey(peers)) && OneLinePeers(peers) && InertPeers(peers)
  {
    SortPermutes(peers);
    forall i | 0 <= i < |peers|
      ensures OneLinePeer(peers[i])
    {
      WellFormedIsOneLine(peers[i]);
    }
    forall i | 0 <= i < |SortByKey(peers)|
      ensures WellFormedPeer(SortByKey(peers)[i])
    {
      assert SortByKey(peers)[i] in multiset(SortByKey(peers));
      assert SortByKey(peers)[i] in peers;
    }
  }

  /** Parsing the printed text gives back key, port and the peers in key order, with all fields. */
  lemma ParseServer(iface: Interface, p: Profile, peers: seq<PeerEntry>)
    requires OneLineInterface(iface) && InertTexts(p) && Trimmed(iface.privateKey) && iface.listenPort <= MAX_INT64
    requires WellFormedPeers(peers)
    ensures Parse(Server(iface, p, peers)) ==
            Parsed(iface.privateKey, if iface.listenPort > 0 then iface.listenPort else 0, SpecsOf(SortByKey(peers)))
  {
    SortedWellFormed(peers);
    LinesOfServer(iface, p, peers);
    ParseInertInterface(iface, p);
    ParseBlocks(StartLines(iface) + ProfileLines(p), SortByKey(peers));
    PeersAfterInterface(iface.privateKey, if iface.listenPort > 0 then iface.listenPort else 0, SpecsOf(SortByKey(peers)));
  }

  lemma PeersAfterInterface(key: string, port: int, specs: seq<PeerSpec>)
    ensures WithPeers(Flush(InInterface(key, port)).out, specs) == Parsed(key, port, specs)
  {
    assert [] + specs == specs;
  }

  /** The peers are parsed into whatever the lines before them have set. */
  lemma ParseBlocks(head: seq<string>, peers: seq<PeerEntry>)
    requires WellFormedPeers(peers)
    ensures Flush(ParseLines(START, head + AllPeerLines(peers) + [""])).out ==
            WithPeers(Flush(ParseLines(START, head)).out, SpecsOf(peers))
  {
    ParseLinesAppend(START, head + AllPeerLines(peers), [""]);
    ParseLinesAppend(START, head, AllPeerLines(peers));
    ParsePeers(ParseLines(START, head), peers);
    LastEmptyLine(ParseLines(START, head + AllPeerLines(peers)));
  }

  lemma LastEmptyLine(st: State)
    ensures ParseLines(st, [""]) == st
  {
    EmptyLine();
    TwoLines(st, "", "");
  }

  // ---------------------------------------------------------------- inserting a key into a printed config

  ghost predicate NoKeySetting(settings: seq<Setting>) {
    forall i :: 0 <= i < |settings| ==> PlainKey(settings[i].0) && Lower(settings[i].0) != KEY_NAME
  }

  lemma NoKeyAssigns(settings: seq<Setting>)
    requires NoKeySetting(settings)
    ensures NoKeyPair(Assigns(settings))
  {
    forall i | 0 <= i < |settings|
      ensures !IsKeyPair(Assigns(settings)[i])
    {
      ClassifyAssign(settings[i].0, settings[i].1);
    }
  }

  lemma UnreadIsNoKey(settings: seq<Setting>)
    requires Unread(settings)
    ensures NoKeySetting(settings)
  {
    forall i | 0 <= i < |settings|
      ensures Lower(settings[i].0) != KEY_NAME
    {
      assert UnreadKey(settings[i].0);
      assert |Lower(settings[i].0)| != 10;
    }
  }

  lemma NoKeySettingBoth(a: seq<Setting>, b: seq<Setting>)
    requires NoKeySetting(a) && NoKeySetting(b)
    ensures NoKeySetting(a + b)
  {
  }

  lemma NoKeyPairBoth(a: seq<string>, b: seq<string>)
    requires NoKeyPair(a) && NoKeyPair(b)
    ensures NoKeyPair(a + b)
  {
  }

  lemma NoKeyInPreamble(iface: Interface)
    requires iface.privateKey == ""
    ensures NoKeySetting(Preamble(iface))
  {
    var a, id, h := Addresses(iface.address), Identity(iface), Hooks(iface);
    AddressesUnread(iface.address);
    HooksUnread(iface);
    UnreadIsNoKey(a);
    UnreadIsNoKey(h);
    ListenPortKey();
    assert NoKeySetting(id);
    NoKeySettingBoth(a, id);
    NoKeySettingBoth(a + id, h);
  }

  /** Whatever the values hold, only their further lines could assign a key. */
  lemma {:induction false} NoKeyWritten(settings: seq<Setting>)
    requires NoKeySetting(settings) && NoKeyPair(Further(settings))
    ensures NoKeyPair(Flat(Assigns(settings)))
  {
    if settings != [] {
      var k, v := settings[0].0, settings[0].1;
      var rest := settings[1..];
      LinesOfAssign(k, v);
      ClassifyAssign(k, Lines(v)[0]);
      assert Assigns(settings)[1..] == Assigns(rest);
      NoKeyParts(Lines(v)[1..], Further(rest));
      NoKeyWritten(rest);
      NoKeyPairBoth([Assign(k, Lines(v)[0])], Lines(v)[1..]);
      NoKeyPairBoth(Lines(Assign(k, v)), Flat(Assigns(rest)));
    }
  }

  lemma NoKeyParts(a: seq<string>, b: seq<string>)
    requires NoKeyPair(a + b)
    ensures NoKeyPair(a) && NoKeyPair(b)
  {
    assert forall i :: 0 <= i < |a| ==> (a + b)[i] == a[i];
    assert forall i :: 0 <= i < |b| ==> (a + b)[|a| + i] == b[i];
  }

  lemma NoKeyAtStart()
    ensures NoKeyPair([BANNER, "[Interface]"])
  {
    CommentIsNothing("Generated by awg-rest. Do not edit by hand.");
    InterfaceHeader();
  }

  lemma NoKeyInStart(iface: Interface)
    requires iface.privateKey == ""
    ensures NoKeyPair(StartLines(iface))
  {
    NoKeyInPreamble(iface);
    NoKeyAssigns(Preamble(iface));
    NoKeyAtStart();
    NoKeyPairBoth([BANNER, "[Interface]"], Assigns(Preamble(iface)));
  }

  lemma NoKeyInProfile(p: Profile)
    requires InertTexts(p)
    ensures NoKeyPair(ProfileLines(p))
  {
    ProfileUnread(p, false);
    UnreadIsNoKey(ProfileSettings(p, false));
    ProfileInert(p);
    FurtherIgnored(ProfileSettings(p, false));
    IgnoredIsNoKey(Further(ProfileSettings(p, false)));
    NoKeyWritten(ProfileSettings(p, false));
  }

  lemma PeerSettingsNoKey(p: PeerEntry)
    ensures NoKeySetting(PeerSettings(p))
  {
    PublicKeyKey();
    PresharedKeyKey();
    AllowedIpsKey();
    EndpointKey();
    KeepaliveKey();
  }

  lemma IgnoredIsNoKey(lines: seq<string>)
    requires AllIgnored(lines)
    ensures NoKeyPair(lines)
  {
    forall i | 0 <= i < |lines|
      ensures !IsKeyPair(lines[i])
    {
      assert Ignored(lines[i]);
    }
  }

  lemma PeerStartIsNoKey()
    ensures NoKeyPair(["", "[Peer]"])
  {
    PeerHeader();
  }

  lemma NoKeyAtPeerStart(comment: string)
    requires Inert(comment)
    ensures NoKeyPair(["", "[Peer]"] + CommentLines(comment))
  {
    PeerStartIsNoKey();
    CommentIgnored(comment);
    IgnoredIsNoKey(CommentLines(comment));
    NoKeyPairBoth(["", "[Peer]"], CommentLines(comment));
  }

  lemma NoKeyInPeer(p: PeerEntry)
    requires Inert(p.comment)
    ensures NoKeyPair(PeerLines(p))
  {
    PeerSettingsNoKey(p);
    NoKeyAssigns(PeerSettings(p));
    NoKeyAtPeerStart(p.comment);
    NoKeyPairBoth(["", "[Peer]"] + CommentLines(p.comment), Assigns(PeerSettings(p)));
  }

  ghost predicate InertPeers(peers: seq<PeerEntry>) {
    forall i :: 0 <= i < |peers| ==> Inert(peers[i].comment)
  }

  lemma SortedInert(peers: seq<PeerEntry>)
    requires InertPeers(peers)
    ensures InertPeers(SortByKey(peers))
  {
    SortPermutes(peers);
    forall i | 0 <= i < |SortByKey(peers)|
      ensures Inert(SortByKey(peers)[i].comment)
    {
      assert SortByKey(peers)[i] in multiset(SortByKey(peers));
      assert SortByKey(peers)[i] in peers;
    }
  }

  lemma {:induction false} NoKeyInPeers(peers: seq<PeerEntry>)
    requires InertPeers(peers)
    ensures NoKeyPair(AllPeerLines(peers))
  {
    if peers != [] {
      NoKeyInPeer(peers[0]);
      NoKeyInPeers(peers[1..]);
      NoKeyPairBoth(PeerLines(peers[0]), AllPeerLines(peers[1..]));
    }
  }

  lemma BannerIsNoHeader()
    ensures !IsHeaderLine(BANNER)
  {
    CommentIsNothing("Generated by awg-rest. Do not edit by hand.");
    if IsHeaderLine(BANNER) {
      var x := HeaderSpelling(BANNER);
    }
  }

  lemma HeaderIsSecond(lines: seq<string>)
    requires |lines| > 2 && lines[0] == BANNER && lines[1] == "[Interface]"
    ensures HeaderIndex(lines) == 1 && HeaderFits(lines)
  {
    BannerIsNoHeader();
    ExactHeader();
  }

  lemma LastIsNoKey()
    ensures NoKeyPair([""])
  {
    EmptyLine();
  }

  /** However the texts go on, the header is the second line. */
  lemma HeaderOfServer(iface: Interface, rest: seq<string>)
    ensures HeaderIndex(StartLines(iface) + rest + [""]) == 1 && HeaderFits(StartLines(iface) + rest + [""])
  {
    var lines := StartLines(iface) + rest + [""];
    assert lines[0] == BANNER && lines[1] == "[Interface]";
    HeaderIsSecond(lines);
  }

  /** A config printed without a key assigns none, and its header is where a key can go. */
  lemma ServerIsKeyless(iface: Interface, p: Profile, peers: seq<PeerEntry>)
    requires iface.privateKey == "" && OneLineInterface(iface) && InertTexts(p) && OneLinePeers(peers) && InertPeers(peers)
    ensures Keyless(Server(iface, p, peers))
    ensures HeaderFits(Lines(Server(iface, p, peers)))
    ensures HeaderIndex(Lines(Server(iface, p, peers))) < |Lines(Server(iface, p, peers))|
  {
    var start, profile, blocks := StartLines(iface), ProfileLines(p), AllPeerLines(SortByKey(peers));
    LinesOfServer(iface, p, peers);
    NoKeyInStart(iface);
    NoKeyInProfile(p);
    SortedInert(peers);
    NoKeyInPeers(SortByKey(peers));
    LastIsNoKey();
    NoKeyPairBoth(start, profile);
    NoKeyPairBoth(start + profile, blocks);
    NoKeyPairBoth(start + profile + blocks, [""]);
    Assoc(start, profile, blocks);
    HeaderOfServer(iface, profile + blocks);
  }

  /** Inserting a key into a printed config means the same as printing it with that key. */
  lemma InsertIsPrint(iface: Interface, p: Profile, peers: seq<PeerEntry>, v: string)
    requires iface.privateKey == "" && OneLineInterface(iface) && InertTexts(p) && iface.listenPort <= MAX_INT64
    requires WellFormedPeers(peers) && GoodKey(v)
    ensures var text := Server(iface, p, peers);
            && Parse(WithInterfaceValue(text, PRIVATE_KEY, v)) == WithKey(Parse(text), v)
            && Parse(WithInterfaceValue(text, PRIVATE_KEY, v)) == Parse(Server(iface.(privateKey := v), p, peers))
  {
    SortedWellFormed(peers);
    ServerIsKeyless(iface, p, peers);
    OnlyTheKeyChanges(Server(iface, p, peers), v);
    ParseServer(iface, p, peers);
    ParseServer(iface.(privateKey := v), p, peers);
  }
}
