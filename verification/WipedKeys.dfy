/**
 * A header protection key of two lines: the check of profiles skips line breaks, so that the second line of an accepted
 * key can be an empty assignment of the private key, which undoes the preserved one.
 */
module WipedKeys {
  import opened Strings
  import opened Numerals
  import opened Keys
  import opened Profiles
  import opened ConfigText
  import opened Parser
  import opened Config
  import opened KeyInsertion
  import opened KeyPreservation
  import opened Render
  import opened RenderLines
  import opened RenderParse
  import opened RenderTheorems
  import opened Validation
  import opened ManyLines

  // ---------------------------------------------------------------- the text

  const LEAD_LENGTH := 33

  const EMPTY_KEY := "PrivateKey="

  predicate Digits33(digits: string) {
    |digits| == LEAD_LENGTH && forall i :: 0 <= i < |digits| ==> IsBase64Digit(digits[i])
  }

  /** Together the two lines are base64 text of 32 bytes. */
  function TwoLineKey(digits: string): string {
    digits + "\n" + EMPTY_KEY
  }

  lemma {:induction false} BreaksInFront(a: string, b: string)
    requires NoNewline(a) && '\r' !in a
    ensures WithoutLineBreaks(a + b) == a + WithoutLineBreaks(b)
  {
    if a == "" {
      assert a + b == b;
    } else {
      assert (a + b)[0] == a[0] && (a + b)[1..] == a[1..] + b;
      BreaksInFront(a[1..], b);
    }
  }

  lemma NoBreaks(a: string)
    requires NoNewline(a) && '\r' !in a
    ensures WithoutLineBreaks(a) == a
  {
    BreaksInFront(a, "");
    assert a + "" == a;
  }

  lemma EmptyKeyText()
    ensures |EMPTY_KEY| == 11 && EMPTY_KEY[10] == '=' && NoNewline(EMPTY_KEY) && '\r' !in EMPTY_KEY
    ensures forall i :: 0 <= i < 10 ==> IsBase64Digit(EMPTY_KEY[i])
  {
  }

  lemma DigitsPlain(digits: string)
    requires Digits33(digits)
    ensures NoNewline(digits) && '\r' !in digits && !IsSpace(digits[0])
  {
    assert IsBase64Digit(digits[0]);
  }

  lemma WithoutTheBreak(a: string, b: string)
    requires NoNewline(a) && '\r' !in a && NoNewline(b) && '\r' !in b
    ensures WithoutLineBreaks(a + "\n" + b) == a + b
  {
    assert a + "\n" + b == a + ("\n" + b);
    BreaksInFront(a, "\n" + b);
    assert ("\n" + b)[1..] == b;
    NoBreaks(b);
  }

  lemma Joined(digits: string, tail: string)
    requires Digits33(digits) && |tail| == 11 && tail[10] == '=' && forall i :: 0 <= i < 10 ==> IsBase64Digit(tail[i])
    ensures Encodes32Bytes(digits + tail)
  {
  }

  /** The profile's check accepts it. */
  lemma TwoLineKeyIsValid(digits: string)
    requires Digits33(digits)
    ensures ValidBase64Key(TwoLineKey(digits))
  {
    DigitsPlain(digits);
    EmptyKeyText();
    TrimmedStays(TwoLineKey(digits));
    WithoutTheBreak(digits, EMPTY_KEY);
    Joined(digits, EMPTY_KEY);
  }

  // ---------------------------------------------------------------- what its second line does

  lemma EmptyKeyLine()
    ensures Classify(EMPTY_KEY) == Pair(KEY_NAME, "")
  {
    assert EMPTY_KEY == "PrivateKey" + ['='] + "";
    PrivateKeyKey();
    TrimmedStays("PrivateKey");
    TrimmedStays("");
    ClassifyAssignment("PrivateKey", "");
  }

  lemma EmptyKeySets(key: string, port: int)
    ensures ParseLine(InInterface(key, port), EMPTY_KEY) == InInterface("", port)
  {
    EmptyKeyLine();
  }

  /** The settings printed after the header protection key. */
  function BehindKey(p: Profile): seq<Setting> {
    Ranges(p) + [("RandomTrailers", OnOff(p.randomTrailers)), ("DisableCookies", OnOff(p.disableCookies))]
  }

  lemma KeySplit(p: Profile)
    requires p.IsV31() && p.headerProtectionKey != ""
    ensures ProfileSettings(p, false) ==
            Paddings(p) + Headers(p) + JunkTexts(p, false) + [("HeaderProtectionKey", p.headerProtectionKey)] + BehindKey(p)
  {
    var front, own := Paddings(p) + Headers(p) + JunkTexts(p, false), [("HeaderProtectionKey", p.headerProtectionKey)];
    var flags := [("RandomTrailers", OnOff(p.randomTrailers)), ("DisableCookies", OnOff(p.disableCookies))];
    FourParts(front, own, Ranges(p), flags);
  }

  lemma FourParts<T>(a: seq<T>, b: seq<T>, c: seq<T>, d: seq<T>)
    ensures a + (b + c + d) == a + b + (c + d)
  {
  }

  /** The key's further lines lie between lines that are skipped. */
  lemma FurtherWithKey(p: Profile) returns (a: seq<string>, b: seq<string>)
    requires p.IsV31() && p.headerProtectionKey != "" && InertTexts(p.(headerProtectionKey := ""))
    ensures AllIgnored(a) && AllIgnored(b)
    ensures Further(ProfileSettings(p, false)) == a + Lines(p.headerProtectionKey)[1..] + b
  {
    var numbers, junk := Paddings(p) + Headers(p), JunkTexts(p, false);
    var own := [("HeaderProtectionKey", p.headerProtectionKey)];
    a, b := Further(numbers + junk), Further(BehindKey(p));
    KeySplit(p);
    FurtherAppend(numbers + junk + own, BehindKey(p));
    FurtherAppend(numbers + junk, own);
    OneFurther("HeaderProtectionKey", p.headerProtectionKey);
    NumbersInert(p);
    JunkStaysInert(p);
    InertBoth(numbers, junk);
    FurtherIgnored(numbers + junk);
    RangesInert(p);
    FlagsInert(p);
    InertBoth(Ranges(p), [("RandomTrailers", OnOff(p.randomTrailers)), ("DisableCookies", OnOff(p.disableCookies))]);
    FurtherIgnored(BehindKey(p));
  }

  lemma JunkStaysInert(p: Profile)
    requires InertTexts(p.(headerProtectionKey := ""))
    ensures InertValues(JunkTexts(p, false))
  {
    JunkInert(p.(headerProtectionKey := ""));
  }

  // ---------------------------------------------------------------- no key is found

  /** A line that assigns a key assigns nothing. */
  predicate EmptyIfKey(raw: string) {
    IsKeyPair(raw) ==> Classify(raw).value == ""
  }

  ghost predicate EmptyKeys(lines: seq<string>) {
    forall i :: 0 <= i < |lines| ==> EmptyIfKey(lines[i])
  }

  lemma EmptyBoth(a: seq<string>, b: seq<string>)
    ensures EmptyKeys(a + b) <==> EmptyKeys(a) && EmptyKeys(b)
  {
    var all := a + b;
    assert forall i :: 0 <= i < |a| ==> all[i] == a[i];
    assert forall i :: 0 <= i < |b| ==> all[|a| + i] == b[i];
  }

  lemma NoKeyIsEmpty(lines: seq<string>)
    requires NoKeyPair(lines)
    ensures EmptyKeys(lines)
  {
    assert forall i :: 0 <= i < |lines| ==> !IsKeyPair(lines[i]);
  }

  lemma {:induction false} NothingFound(lines: seq<string>, inside: bool)
    requires EmptyKeys(lines)
    ensures ValueIn(lines, inside, KEY_NAME) == ""
    decreases |lines|
  {
    if lines != [] {
      assert EmptyIfKey(lines[0]);
      NothingFound(lines[1..], inside);
      NothingFound(lines[1..], true);
      NothingFound(lines[1..], false);
    }
  }

  lemma {:induction false} EmptyWritten(settings: seq<Setting>)
    requires NoKeySetting(settings) && EmptyKeys(Further(settings))
    ensures EmptyKeys(Flat(Assigns(settings)))
  {
    if settings != [] {
      var k, v := settings[0].0, settings[0].1;
      var rest := settings[1..];
      LinesOfAssign(k, v);
      ClassifyAssign(k, Lines(v)[0]);
      assert Assigns(settings)[1..] == Assigns(rest);
      EmptyBoth(Lines(v)[1..], Further(rest));
      EmptyWritten(rest);
      EmptyBoth([Assign(k, Lines(v)[0])], Lines(v)[1..]);
      EmptyBoth(Lines(Assign(k, v)), Flat(Assigns(rest)));
    }
  }

  lemma EmptyAround(a: seq<string>, line: string, b: seq<string>)
    requires AllIgnored(a) && AllIgnored(b) && EmptyIfKey(line)
    ensures EmptyKeys(a + [line] + b)
  {
    IgnoredIsNoKey(a);
    IgnoredIsNoKey(b);
    NoKeyIsEmpty(a);
    NoKeyIsEmpty(b);
    EmptyBoth(a, [line]);
    EmptyBoth(a + [line], b);
  }

  lemma EmptyInProfile(p: Profile, a: seq<string>, b: seq<string>)
    requires AllIgnored(a) && AllIgnored(b) && Further(ProfileSettings(p, false)) == a + [EMPTY_KEY] + b
    ensures EmptyKeys(ProfileLines(p))
  {
    EmptyKeyLine();
    EmptyAround(a, EMPTY_KEY, b);
    ProfileUnread(p, false);
    UnreadIsNoKey(ProfileSettings(p, false));
    EmptyWritten(ProfileSettings(p, false));
  }

  lemma EmptyInServer(iface: Interface, p: Profile, blocks: seq<string>)
    requires iface.privateKey == "" && EmptyKeys(ProfileLines(p)) && NoKeyPair(blocks)
    ensures EmptyKeys(StartLines(iface) + ProfileLines(p) + blocks + [""])
  {
    NoKeyInStart(iface);
    NoKeyIsEmpty(StartLines(iface));
    NoKeyIsEmpty(blocks);
    LastIsNoKey();
    NoKeyIsEmpty([""]);
    EmptyBoth(StartLines(iface), ProfileLines(p));
    EmptyBoth(StartLines(iface) + ProfileLines(p), blocks);
    EmptyBoth(StartLines(iface) + ProfileLines(p) + blocks, [""]);
  }

  // ---------------------------------------------------------------- the preserved key is undone

  /** The block with a key inserted below its header. */
  function WithKeyLine(iface: Interface, p: Profile, v: string): seq<string> {
    [BANNER] + ["[Interface]", Assign(PRIVATE_KEY, v)] + (Assigns(Preamble(iface)) + ProfileLines(p))
  }

  lemma BelowFirstTwo(config: string, first: string, header: string, rest: seq<string>, v: string)
    requires GoodKey(v) && Lines(config) == [first, header] + rest && rest != [] && HeaderIndex(Lines(config)) == 1
    ensures Lines(Inserted(config, PRIVATE_KEY, v)) == [first] + [header, Assign(PRIVATE_KEY, v)] + rest
  {
    var lines := Lines(config);
    LinesBelowHeader(config, v);
    assert lines[..1] == [first] && lines[1] == header && lines[2..] == rest;
  }

  lemma Tails(head: seq<string>, a: seq<string>, b: seq<string>, c: seq<string>)
    ensures head + a + b + c + [""] == head + (a + b + c + [""])
    ensures head + a + b + c + [""] == head + a + (b + c) + [""]
    ensures head + (a + b + c + [""]) == head + (a + b) + c + [""]
  {
  }

  lemma InsertedLines(iface: Interface, p: Profile, blocks: seq<string>, config: string, v: string)
    requires GoodKey(v) && Lines(config) == StartLines(iface) + ProfileLines(p) + blocks + [""]
    ensures Lines(Inserted(config, PRIVATE_KEY, v)) == WithKeyLine(iface, p, v) + blocks + [""]
  {
    var pre, own := Assigns(Preamble(iface)), ProfileLines(p);
    Tails([BANNER, "[Interface]"], pre, own, blocks);
    Tails([BANNER] + ["[Interface]", Assign(PRIVATE_KEY, v)], pre, own, blocks);
    HeaderOfServer(iface, own + blocks);
    BelowFirstTwo(config, BANNER, "[Interface]", pre + own + blocks + [""], v);
  }

  lemma StartWithKey(iface: Interface, v: string)
    requires GoodKey(v) && iface.privateKey == "" && iface.listenPort <= MAX_INT64
    ensures ParseLines(START, [BANNER] + ["[Interface]", Assign(PRIVATE_KEY, v)] + Assigns(Preamble(iface))) ==
            InInterface(v, if iface.listenPort > 0 then iface.listenPort else 0)
  {
    var pre := Assigns(Preamble(iface));
    assert [BANNER] + ["[Interface]"] == [BANNER, "[Interface]"];
    ParseStart(iface);
    NoKeyInPreamble(iface);
    NoKeyAssigns(Preamble(iface));
    ExactHeader();
    InsertedBelowParses([BANNER], "[Interface]", v, pre);
  }

  lemma WipedBlock(iface: Interface, p: Profile, v: string, a: seq<string>, b: seq<string>)
    requires GoodKey(v) && iface.privateKey == "" && iface.listenPort <= MAX_INT64
    requires AllIgnored(a) && AllIgnored(b) && Further(ProfileSettings(p, false)) == a + [EMPTY_KEY] + b
    ensures ParseLines(START, WithKeyLine(iface, p, v)) ==
            InInterface("", if iface.listenPort > 0 then iface.listenPort else 0)
  {
    var head, pre := [BANNER] + ["[Interface]", Assign(PRIVATE_KEY, v)], Assigns(Preamble(iface));
    var port := if iface.listenPort > 0 then iface.listenPort else 0;
    Assoc(head, pre, ProfileLines(p));
    ParseLinesAppend(START, head + pre, ProfileLines(p));
    StartWithKey(iface, v);
    ProfileUnread(p, false);
    ParseWritten(InInterface(v, port), ProfileSettings(p, false));
    OnlyTheLine(InInterface(v, port), a, EMPTY_KEY, b);
    EmptyKeySets(v, port);
  }

  /**
   * Every valid V3.1 profile stays valid with such a header protection key, and a config printed from it, in which no
   * key is found, loses whatever key is preserved into it.
   */
  lemma HeaderKeyWipes(iface: Interface, p: Profile, peers: seq<PeerEntry>, digits: string, v: string)
    requires ValidProfile(p) && p.IsV31() && InertTexts(p.(headerProtectionKey := "")) && Digits33(digits)
    requires OneLineInterface(iface) && iface.privateKey == "" && iface.listenPort <= MAX_INT64
    requires WellFormedPeers(peers) && GoodKey(v)
    ensures var q := p.(headerProtectionKey := TwoLineKey(digits));
            && ValidProfile(q)
            && InterfaceValue(Server(iface, q, peers), PRIVATE_KEY) == ""
            && Parse(WithInterfaceValue(Server(iface, q, peers), PRIVATE_KEY, v)).privateKey == ""
  {
    var q := p.(headerProtectionKey := TwoLineKey(digits));
    var config, sorted := Server(iface, q, peers), SortByKey(peers);
    TwoLineKeyIsValid(digits);
    DigitsPlain(digits);
    EmptyKeyText();
    LinesOfTwo(digits, EMPTY_KEY);
    var a, b := FurtherWithKey(q);
    SortedWellFormed(peers);
    SortedInert(peers);
    NoKeyInPeers(sorted);
    LinesOfServer(iface, q, peers);
    EmptyInProfile(q, a, b);
    EmptyInServer(iface, q, AllPeerLines(sorted));
    PrivateKeyFound(config);
    IsInserted(config, v);
    InsertedLines(iface, q, AllPeerLines(sorted), config, v);
    WipedBlock(iface, q, v, a, b);
    ParseBlocks(WithKeyLine(iface, q, v), sorted);
  }

  lemma PrivateKeyFound(config: string)
    requires EmptyKeys(Lines(config))
    ensures InterfaceValue(config, PRIVATE_KEY) == ""
  {
    PrivateKeyKey();
    TrimmedStays(PRIVATE_KEY);
    NothingFound(Lines(config), false);
  }
}
