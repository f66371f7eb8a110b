/** How the parser reads each printed line. */
module RenderLines {
  import opened Strings
  import opened Profiles
  import opened ConfigText
  import opened Parser
  import opened Render

  // ---------------------------------------------------------------- keys the parser does not read

  /** Length and first letter tell the unread keys from the seven read ones. */
  predicate UnreadKey(k: string) {
    && PlainKey(k)
    && (|k| == 8 ==> k[0] == 'P')
    && |k| != 9 && |k| != 10
    && (|k| == 12 || |k| == 19 ==> k[0] == 'R' || k[0] == 'H')
  }

  ghost predicate Unread(settings: seq<Setting>) {
    forall i :: 0 <= i < |settings| ==> UnreadKey(settings[i].0)
  }

  lemma UnreadPair(st: State, k: string, v: string)
    requires UnreadKey(k)
    ensures SetPair(st, Lower(k), v) == st
  {
    var l := Lower(k);
    assert |l| == |k| && l[0] == LowerChar(k[0]);
    UnreadName(l);
  }

  lemma UnreadName(l: string)
    requires l != "" && |l| != 9 && |l| != 10
    requires |l| == 8 ==> l[0] == 'p'
    requires |l| == 12 || |l| == 19 ==> l[0] == 'r' || l[0] == 'h'
    ensures l !in {"privatekey", "listenport", "publickey", "presharedkey", "allowedips", "endpoint", "persistentkeepalive"}
  {
  }

  lemma InterfaceKeys()
    ensures UnreadKey("Address") && UnreadKey("MTU") && UnreadKey("DNS") && UnreadKey("PostUp") && UnreadKey("PostDown")
  {
  }

  lemma PaddingKeys()
    ensures UnreadKey("Jc") && UnreadKey("Jmin") && UnreadKey("Jmax")
    ensures UnreadKey("S1") && UnreadKey("S2") && UnreadKey("S3") && UnreadKey("S4")
  {
  }

  lemma ShortKeys()
    ensures UnreadKey("H1") && UnreadKey("H2") && UnreadKey("H3") && UnreadKey("H4")
    ensures UnreadKey("I1") && UnreadKey("I2") && UnreadKey("I3") && UnreadKey("I4") && UnreadKey("I5")
  {
  }

  lemma TimingKeys()
    ensures UnreadKey("ContentPaddingAddition") && UnreadKey("RekeyAfterTime") && UnreadKey("RekeyTimeout")
  {
  }

  lemma MoreTimingKeys()
    ensures UnreadKey("RejectAfterTime") && UnreadKey("KeepaliveTimeout") && UnreadKey("MaxHandshakeAttempts")
  {
  }

  lemma V31Keys()
    ensures UnreadKey("HeaderProtectionKey") && UnreadKey("RandomTrailers") && UnreadKey("DisableCookies")
  {
  }

  // ---------------------------------------------------------------- keys it reads

  lemma ListenPortKey()
    ensures PlainKey("ListenPort") && Lower("ListenPort") == "listenport"
  {
    assert LowerChar('L') == 'l' && LowerChar('P') == 'p';
    assert Lower("ListenPort") == ['l', 'i', 's', 't', 'e', 'n', 'p', 'o', 'r', 't'];
  }

  lemma PublicKeyKey()
    ensures PlainKey("PublicKey") && Lower("PublicKey") == "publickey"
  {
    assert LowerChar('P') == 'p' && LowerChar('K') == 'k';
    assert Lower("PublicKey") == ['p', 'u', 'b', 'l', 'i', 'c', 'k', 'e', 'y'];
  }

  lemma PresharedKeyKey()
    ensures PlainKey("PresharedKey") && Lower("PresharedKey") == "presharedkey"
  {
    assert LowerChar('P') == 'p' && LowerChar('K') == 'k';
    assert Lower("PresharedKey") == ['p', 'r', 'e', 's', 'h', 'a', 'r', 'e', 'd', 'k', 'e', 'y'];
  }

  lemma AllowedIpsKey()
    ensures PlainKey("AllowedIPs") && Lower("AllowedIPs") == "allowedips"
  {
    assert LowerChar('A') == 'a' && LowerChar('I') == 'i' && LowerChar('P') == 'p';
    assert Lower("AllowedIPs") == ['a', 'l', 'l', 'o', 'w', 'e', 'd', 'i', 'p', 's'];
  }

  lemma EndpointKey()
    ensures PlainKey("Endpoint") && Lower("Endpoint") == "endpoint"
  {
    assert LowerChar('E') == 'e';
    assert Lower("Endpoint") == ['e', 'n', 'd', 'p', 'o', 'i', 'n', 't'];
  }

  lemma KeepaliveKey()
    ensures PlainKey("PersistentKeepalive") && Lower("PersistentKeepalive") == "persistentkeepalive"
  {
    assert LowerChar('P') == 'p' && LowerChar('K') == 'k';
    assert Lower("PersistentKeepalive") ==
           ['p', 'e', 'r', 's', 'i', 's', 't', 'e', 'n', 't', 'k', 'e', 'e', 'p', 'a', 'l', 'i', 'v', 'e'];
  }

  // ---------------------------------------------------------------- settings as the parser takes them

  /** What a block of printed settings does to the parser's state. */
  function SetAll(st: State, settings: seq<Setting>): State
    decreases |settings|
  {
    if settings == [] then st
    else SetAll(SetPair(st, Lower(settings[0].0), TrimSpace(settings[0].1)), settings[1..])
  }

  ghost predicate PlainKeys(settings: seq<Setting>) {
    forall i :: 0 <= i < |settings| ==> PlainKey(settings[i].0)
  }

  lemma {:induction false} ParseAssigns(st: State, settings: seq<Setting>)
    requires PlainKeys(settings)
    ensures ParseLines(st, Assigns(settings)) == SetAll(st, settings)
    decreases |settings|
  {
    if settings != [] {
      var k, v := settings[0].0, settings[0].1;
      ClassifyAssign(k, v);
      assert Assigns(settings)[1..] == Assigns(settings[1..]);
      ParseAssigns(SetPair(st, Lower(k), TrimSpace(v)), settings[1..]);
    }
  }

  lemma {:induction false} SetAllAppend(st: State, a: seq<Setting>, b: seq<Setting>)
    ensures SetAll(st, a + b) == SetAll(SetAll(st, a), b)
    decreases |a|
  {
    if a == [] {
      assert a + b == b;
    } else {
      assert (a + b)[1..] == a[1..] + b;
      SetAllAppend(SetPair(st, Lower(a[0].0), TrimSpace(a[0].1)), a[1..], b);
    }
  }

  lemma {:induction false} SetAllUnread(st: State, settings: seq<Setting>)
    requires Unread(settings)
    ensures SetAll(st, settings) == st
    decreases |settings|
  {
    if settings != [] {
      UnreadPair(st, settings[0].0, TrimSpace(settings[0].1));
      SetAllUnread(st, settings[1..]);
    }
  }

  lemma SetOne(st: State, wanted: bool, k: string, v: string)
    ensures SetAll(st, When(wanted, k, v)) == if wanted then SetPair(st, Lower(k), TrimSpace(v)) else st
  {
    assert [(k, v)][1..] == [];
  }

  // ---------------------------------------------------------------- values of several lines

  lemma LinesOfAssign(k: string, v: string)
    requires NoNewline(k)
    ensures Lines(Assign(k, v)) == [Assign(k, Lines(v)[0])] + Lines(v)[1..]
  {
    SplitPrefix(k + " = ", v, '\n');
  }

  /** The lines that the values take beyond the first of each. */
  function Further(settings: seq<Setting>): seq<string> {
    if settings == [] then [] else Lines(settings[0].1)[1..] + Further(settings[1..])
  }

  lemma {:induction false} FurtherAppend(a: seq<Setting>, b: seq<Setting>)
    ensures Further(a + b) == Further(a) + Further(b)
  {
    if a == [] {
      assert a + b == b;
    } else {
      assert (a + b)[1..] == a[1..] + b;
      FurtherAppend(a[1..], b);
      Assoc(Lines(a[0].1)[1..], Further(a[1..]), Further(b));
    }
  }

  lemma UnreadAssign(st: State, k: string, v: string)
    requires UnreadKey(k)
    ensures ParseLine(st, Assign(k, v)) == st
  {
    ClassifyAssign(k, v);
    UnreadPair(st, k, TrimSpace(v));
  }

  /** Of settings that are not read, exactly the further lines are left to the parser. */
  lemma {:induction false} ParseWritten(st: State, settings: seq<Setting>)
    requires Unread(settings)
    ensures ParseLines(st, Flat(Assigns(settings))) == ParseLines(st, Further(settings))
    decreases |settings|
  {
    if settings != [] {
      var k, v := settings[0].0, settings[0].1;
      var rest, first := settings[1..], Assign(k, Lines(v)[0]);
      LinesOfAssign(k, v);
      assert Assigns(settings)[1..] == Assigns(rest);
      ParseLinesAppend(st, [first] + Lines(v)[1..], Flat(Assigns(rest)));
      ParseLinesAppend(st, [first], Lines(v)[1..]);
      UnreadAssign(st, k, Lines(v)[0]);
      TwoLines(st, first, "");
      ParseLinesAppend(st, Lines(v)[1..], Further(rest));
      ParseWritten(ParseLines(st, Lines(v)[1..]), rest);
    }
  }

  ghost predicate InertValues(settings: seq<Setting>) {
    forall i :: 0 <= i < |settings| ==> Inert(settings[i].1)
  }

  lemma InertBoth(a: seq<Setting>, b: seq<Setting>)
    requires InertValues(a) && InertValues(b)
    ensures InertValues(a + b)
  {
  }

  lemma {:induction false} FurtherIgnored(settings: seq<Setting>)
    requires InertValues(settings)
    ensures AllIgnored(Further(settings))
  {
    if settings != [] {
      FurtherIgnored(settings[1..]);
    }
  }

  // ---------------------------------------------------------------- the unread blocks

  lemma AddressesUnread(address: seq<string>)
    ensures Unread(Addresses(address))
  {
    InterfaceKeys();
  }

  lemma HooksUnread(iface: Interface)
    ensures Unread(Hooks(iface))
  {
    InterfaceKeys();
  }

  lemma RangesUnread(p: Profile)
    ensures Unread(Ranges(p))
  {
    TimingKeys();
    MoreTimingKeys();
  }

  lemma UnreadBoth(a: seq<Setting>, b: seq<Setting>)
    requires Unread(a) && Unread(b)
    ensures Unread(a + b)
  {
  }

  lemma PaddingsUnread(p: Profile)
    ensures Unread(Paddings(p))
  {
    PaddingKeys();
  }

  lemma HeadersUnread(p: Profile)
    ensures Unread(Headers(p))
  {
    ShortKeys();
  }

  lemma SpecialJunkUnread(p: Profile, includeEmpty: bool)
    ensures Unread(JunkTexts(p, includeEmpty))
  {
    ShortKeys();
  }

  lemma V31Unread(p: Profile)
    ensures Unread(V31Settings(p))
  {
    V31Keys();
    RangesUnread(p);
  }

  /** No setting of a profile is read by the parser. */
  lemma ProfileUnread(p: Profile, includeEmpty: bool)
    ensures Unread(ProfileSettings(p, includeEmpty))
  {
    PaddingsUnread(p);
    HeadersUnread(p);
    SpecialJunkUnread(p, includeEmpty);
    V31Unread(p);
    UnreadBoth(Paddings(p), Headers(p));
    UnreadBoth(Paddings(p) + Headers(p), JunkTexts(p, includeEmpty));
    UnreadBoth(Paddings(p) + Headers(p) + JunkTexts(p, includeEmpty), V31Settings(p));
  }
}
