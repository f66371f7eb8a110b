/**
 * Texts that are printed as they are: what a display name of several lines, or a profile text of several
 * lines that the validation accepts, does to the config.
 */
module ManyLines {
  import opened Strings
  import opened Numerals
  import opened Keys
  import opened Words
  import opened Profiles
  import opened ConfigText
  import opened Parser
  import opened Render
  import opened RenderLines
  import opened RenderParse
  import opened RenderTheorems
  import opened SpecialJunk
  import opened Validation

  lemma LinesOfTwo(a: string, b: string)
    requires NoNewline(a) && NoNewline(b)
    ensures Lines(a + "\n" + b) == [a, b]
  {
    SplitCons(a, '\n', b);
    LinesOfOne(b);
  }

  // ---------------------------------------------------------------- names

  /** A name that holds the printed text of some peers, and opens a section again. */
  function Carrying(first: string, inner: seq<PeerEntry>): string {
    first + "\n" + Unlines(AllPeerLines(inner)) + "\n" + "[Peer]"
  }

  lemma LinesBetween(head: string, lines: seq<string>, last: string)
    requires NoNewline(head) && NoNewline(last) && forall i :: 0 <= i < |lines| ==> NoNewline(lines[i])
    ensures Lines(head + "\n" + Unlines(lines) + "\n" + last) == [head] + lines + ["", last]
  {
    var rest := "" + "\n" + last;
    calc {
      Lines(head + "\n" + Unlines(lines) + "\n" + last);
      { FiveStrings(head, "\n", Unlines(lines), "\n", last); }
      Lines(head + ['\n'] + (Unlines(lines) + rest));
      { SplitCons(head, '\n', Unlines(lines) + rest); }
      [head] + Lines(Unlines(lines) + rest);
      { LinesOfUnlines(lines, rest); }
      [head] + (lines + Lines(rest));
      { LinesOfTwo("", last); }
      [head] + (lines + ["", last]);
      { Assoc([head], lines, ["", last]); }
      [head] + lines + ["", last];
    }
  }

  lemma FiveStrings(a: string, b: string, c: string, d: string, e: string)
    ensures a + b + c + d + e == a + b + (c + ("" + d + e))
  {
  }

  lemma Prefixed(lead: string, first: string, middle: string, last: string)
    ensures lead + (first + "\n" + middle + "\n" + last) == lead + first + "\n" + middle + "\n" + last
  {
  }

  lemma LinesOfCarrying(first: string, inner: seq<PeerEntry>)
    requires NoNewline(first) && OneLinePeers(inner)
    ensures Lines("# " + Carrying(first, inner)) == ["# " + first] + AllPeerLines(inner) + ["", "[Peer]"]
  {
    OneLineAllPeers(inner);
    Prefixed("# ", first, Unlines(AllPeerLines(inner)), "[Peer]");
    LinesBetween("# " + first, AllPeerLines(inner), "[Peer]");
  }

  lemma Regroup<T>(a: seq<T>, b: seq<T>, c: seq<T>, d: seq<T>, e: seq<T>)
    ensures a + (b + c + d) + e == (a + b) + (c + (d + e))
  {
  }

  /** The section of such a peer is one without a key, the sections of the others, and its own. */
  lemma CarryingPeerLines(e: PeerEntry, first: string, inner: seq<PeerEntry>)
    requires NoNewline(first) && OneLinePeers(inner) && e.comment == Carrying(first, inner)
    ensures PeerLines(e) ==
            (["", "[Peer]"] + ["# " + first]) + (AllPeerLines(inner) + PeerLines(e.(comment := "")))
  {
    LinesOfCarrying(first, inner);
    Regroup(["", "[Peer]"], ["# " + first], AllPeerLines(inner), ["", "[Peer]"], Assigns(PeerSettings(e)));
    NoComment(e);
  }

  lemma NoComment(e: PeerEntry)
    ensures PeerLines(e.(comment := "")) == ["", "[Peer]"] + Assigns(PeerSettings(e))
  {
    assert ["", "[Peer]"] + [] == ["", "[Peer]"];
  }

  lemma OpenSection(st: State, first: string)
    ensures ParseLines(st, ["", "[Peer]"] + ["# " + first]) == InPeer(Flush(st).out, NO_PEER)
  {
    PeerHeader();
    CommentIsNothing(first);
    ParseLinesAppend(st, ["", "[Peer]"], ["# " + first]);
    TwoLines(st, "", "[Peer]");
    TwoLines(ParseLines(st, ["", "[Peer]"]), "# " + first, "");
  }

  lemma ParseCarrying(st: State, e: PeerEntry, first: string, inner: seq<PeerEntry>)
    requires WellFormedPeer(e.(comment := "")) && WellFormedPeers(inner)
    requires NoNewline(first) && e.comment == Carrying(first, inner)
    ensures Flush(ParseLines(st, PeerLines(e))).out == WithPeers(Flush(st).out, SpecsOf(inner) + [SpecOf(e)])
  {
    SortedWellFormed(inner);
    CarryingPeerLines(e, first, inner);
    var start, own := ["", "[Peer]"] + ["# " + first], PeerLines(e.(comment := ""));
    var out := Flush(st).out;
    ParseLinesAppend(st, start, AllPeerLines(inner) + own);
    OpenSection(st, first);
    var st1 := InPeer(out, NO_PEER);
    ParseLinesAppend(st1, AllPeerLines(inner), own);
    ParsePeers(st1, inner);
    ParsePeer(ParseLines(st1, AllPeerLines(inner)), e.(comment := ""));
    FlushPeer(WithPeers(out, SpecsOf(inner)), SpecOf(e));
    WithPeersTwice(out, SpecsOf(inner), [SpecOf(e)]);
  }

  /**
   * A display name can make any peers at all live: printed as a comment, a name of several lines that
   * holds their sections puts them into the config beside the peer that is named.
   */
  lemma NameAddsPeers(iface: Interface, p: Profile, e: PeerEntry, first: string, inner: seq<PeerEntry>)
    requires OneLineInterface(iface) && InertTexts(p) && Trimmed(iface.privateKey) && iface.listenPort <= MAX_INT64
    requires WellFormedPeer(e.(comment := "")) && WellFormedPeers(inner)
    requires NoNewline(first) && e.comment == Carrying(first, inner)
    ensures Parse(Server(iface, p, [e])).peers == SpecsOf(inner) + [SpecOf(e)]
  {
    LinesOfNamed(iface, p, e);
    ParseInertInterface(iface, p);
    ParseNamed(StartLines(iface) + ProfileLines(p), e, first, inner);
    PeersAfterInterface(iface.privateKey, if iface.listenPort > 0 then iface.listenPort else 0,
                        SpecsOf(inner) + [SpecOf(e)]);
  }

  lemma LinesOfNamed(iface: Interface, p: Profile, e: PeerEntry)
    requires OneLineInterface(iface) && WellFormedPeer(e.(comment := ""))
    ensures Lines(Server(iface, p, [e])) == StartLines(iface) + ProfileLines(p) + PeerLines(e) + [""]
  {
    OneSorted(e);
    WellFormedIsOneLine(e.(comment := ""));
    LinesOfServer(iface, p, [e]);
  }

  lemma ParseNamed(head: seq<string>, e: PeerEntry, first: string, inner: seq<PeerEntry>)
    requires WellFormedPeer(e.(comment := "")) && WellFormedPeers(inner)
    requires NoNewline(first) && e.comment == Carrying(first, inner)
    ensures Flush(ParseLines(START, head + PeerLines(e) + [""])).out ==
            WithPeers(Flush(ParseLines(START, head)).out, SpecsOf(inner) + [SpecOf(e)])
  {
    ParseLinesAppend(START, head + PeerLines(e), [""]);
    ParseLinesAppend(START, head, PeerLines(e));
    ParseCarrying(ParseLines(START, head), e, first, inner);
    LastEmptyLine(ParseLines(START, head + PeerLines(e)));
  }

  lemma OneSorted(e: PeerEntry)
    ensures SortByKey([e]) == [e] && AllPeerLines([e]) == PeerLines(e)
  {
    assert [e][1..] == [];
    assert AllPeerLines([e]) == PeerLines(e) + AllPeerLines([]);
  }

  // ---------------------------------------------------------------- profile texts

  /** A junk text of two lines, the second of which assigns a key. */
  function TextWithKey(key: string): string {
    "<t>" + "\n" + Assign("PrivateKey", key)
  }

  lemma Base64Plain(key: string)
    requires Encodes32Bytes(key)
    ensures key != "" && Field(key) && '<' !in key
  {
    assert IsBase64Digit(key[0]);
  }

  lemma OneTag()
    ensures ContentOf("t", 4)
  {
    var words := ["t"];
    assert words[1..] == [];
    assert Spells("", []);
    assert "t" == "" + "t" + "";
    assert SpellsFirst("t", words[0], "", "");
    assert Spells("t", words);
    assert IsTag(words, 4);
  }

  /** Any text without a further tag may follow a tag. */
  lemma TailAccepted(tail: string)
    requires '<' !in tail
    ensures Accepted("<t>" + tail)
  {
    var pieces, sizes := [Piece("", "t")], [4];
    OneTag();
    assert pieces[1..] == [] && sizes[1..] == [];
    assert Written(pieces, tail) == "" + ['<'] + ("t" + ['>'] + tail);
    assert "<t>" + tail == Written(pieces, tail);
    assert Sum(sizes) == 4;
    assert AcceptedAs("<t>" + tail, pieces, tail, sizes);
  }

  lemma TextWithKeyAccepted(key: string)
    requires Encodes32Bytes(key)
    ensures Accepted(TextWithKey(key))
  {
    Base64Plain(key);
    var tail := "\n" + Assign("PrivateKey", key);
    TailAccepted(tail);
    assert TextWithKey(key) == "<t>" + tail;
  }

  predicate Ascii(s: string) {
    forall i :: 0 <= i < |s| ==> s[i] < '\U{80}'
  }

  lemma {:induction false} AsciiLength(s: string)
    requires Ascii(s)
    ensures ByteLength(s) == |s|
  {
    if s != "" {
      AsciiLength(s[1..]);
    }
  }

  lemma AsciiWithKey(before: string, key: string)
    requires Ascii(before) && Encodes32Bytes(key)
    ensures Ascii(before + key) && |before + key| == |before| + KEY_TEXT_LENGTH
  {
  }

  const KEY_LEAD := "<t>\nPrivateKey = "

  lemma LeadIsAscii()
    ensures Ascii(KEY_LEAD) && |KEY_LEAD| == 17
  {
  }

  lemma TextSplits(key: string)
    ensures TextWithKey(key) == KEY_LEAD + key
  {
  }

  lemma ShortAscii(lead: string, key: string)
    requires Ascii(lead) && |lead| == 17 && Encodes32Bytes(key)
    ensures ByteLength(lead + key) <= AWG_STRING_MAX
  {
    AsciiWithKey(lead, key);
    AsciiLength(lead + key);
  }

  lemma TextWithKeyIsGood(key: string)
    requires Encodes32Bytes(key)
    ensures GoodJunkText(TextWithKey(key))
  {
    TextWithKeyAccepted(key);
    TextSplits(key);
    LeadIsAscii();
    ShortAscii(KEY_LEAD, key);
  }

  /** The validation accepts the text in place of any other. */
  lemma StillValid(p: Profile, key: string)
    requires ValidProfile(p) && p.SupportsV2Fields() && Encodes32Bytes(key)
    ensures ValidProfile(p.(i1 := TextWithKey(key)))
  {
    TextWithKeyIsGood(key);
  }

  /** The text as the first one of a profile: its further lines lie between lines that are skipped. */
  lemma FurtherWithText(p: Profile) returns (a: seq<string>, b: seq<string>)
    requires p.SupportsV2Fields() && p.i1 != "" && InertTexts(p.(i1 := ""))
    ensures AllIgnored(a) && AllIgnored(b) && Further(ProfileSettings(p, false)) == a + Lines(p.i1)[1..] + b
  {
    var front, own := Paddings(p) + Headers(p), [("I1", p.i1)];
    a, b := Further(front), Further(Behind(p));
    TextsSplit(p);
    FurtherAppend(front + own, Behind(p));
    FurtherAppend(front, own);
    OneFurther("I1", p.i1);
    NumbersInert(p);
    FurtherIgnored(front);
    BehindInert(p);
    FurtherIgnored(Behind(p));
  }

  lemma OneFurther(k: string, v: string)
    ensures Further([(k, v)]) == Lines(v)[1..]
  {
    assert [(k, v)][1..] == [];
    assert Lines(v)[1..] + [] == Lines(v)[1..];
  }

  /** The settings printed after the first junk text. */
  function Behind(p: Profile): seq<Setting> {
    When(p.i2 != "", "I2", p.i2) + When(p.i3 != "", "I3", p.i3) + When(p.i4 != "", "I4", p.i4)
    + When(p.i5 != "", "I5", p.i5) + V31Settings(p)
  }

  lemma TextsSplit(p: Profile)
    requires p.SupportsV2Fields() && p.i1 != ""
    ensures ProfileSettings(p, false) == Paddings(p) + Headers(p) + [("I1", p.i1)] + Behind(p)
  {
    FlatTexts(Paddings(p) + Headers(p), [("I1", p.i1)], When(p.i2 != "", "I2", p.i2), When(p.i3 != "", "I3", p.i3),
              When(p.i4 != "", "I4", p.i4), When(p.i5 != "", "I5", p.i5), V31Settings(p));
  }

  lemma FlatTexts<T>(a: seq<T>, x: seq<T>, t: seq<T>, u: seq<T>, v: seq<T>, w: seq<T>, z: seq<T>)
    ensures a + (x + t + u + v + w) + z == a + x + (t + u + v + w + z)
  {
  }

  lemma BehindInert(p: Profile)
    requires InertTexts(p.(i1 := ""))
    ensures InertValues(Behind(p))
  {
    var t, u, v, w := When(p.i2 != "", "I2", p.i2), When(p.i3 != "", "I3", p.i3), When(p.i4 != "", "I4", p.i4),
                      When(p.i5 != "", "I5", p.i5);
    InertBoth(t, u);
    InertBoth(t + u, v);
    InertBoth(t + u + v, w);
    V31Inert(p);
    InertBoth(t + u + v + w, V31Settings(p));
  }

  /** A line between lines that are skipped is all the parser sees. */
  lemma OnlyTheLine(st: State, a: seq<string>, line: string, b: seq<string>)
    requires AllIgnored(a) && AllIgnored(b)
    ensures ParseLines(st, a + [line] + b) == ParseLine(st, line)
  {
    ParseLinesAppend(st, a + [line], b);
    ParseLinesAppend(st, a, [line]);
    IgnoredLines(st, a);
    TwoLines(st, line, "");
    IgnoredLines(ParseLine(st, line), b);
  }

  lemma KeyLineSets(key: string, port: int, v: string)
    requires Field(v)
    ensures ParseLine(InInterface(key, port), Assign("PrivateKey", v)) == InInterface(v, port)
  {
    PrivateKeyKey();
    TrimmedStays(v);
    ClassifyAssign("PrivateKey", v);
  }

  lemma ParseWithText(iface: Interface, p: Profile, key: string)
    requires p.SupportsV2Fields() && InertTexts(p.(i1 := "")) && Field(key)
    requires iface.listenPort <= MAX_INT64 && Trimmed(iface.privateKey)
    ensures ParseLines(START, StartLines(iface) + ProfileLines(p.(i1 := TextWithKey(key)))) ==
            InInterface(key, if iface.listenPort > 0 then iface.listenPort else 0)
  {
    var q, port := p.(i1 := TextWithKey(key)), if iface.listenPort > 0 then iface.listenPort else 0;
    var line := Assign("PrivateKey", key);
    PrivateKeyKey();
    OneLineAssign("PrivateKey", key);
    LinesOfTwo("<t>", line);
    var a, b := FurtherWithText(q);
    ParseInterface(iface, q);
    OnlyTheLine(InInterface(iface.privateKey, port), a, line, b);
    KeyLineSets(iface.privateKey, port, key);
  }

  /**
   * A junk text the validation accepts can set the private key: every valid V2 or V3.1 profile stays valid with such
   * a text in place of its first, and the config printed from it means what it would with that key in the interface.
   */
  lemma TextSetsKey(iface: Interface, p: Profile, peers: seq<PeerEntry>, key: string)
    requires ValidProfile(p) && p.SupportsV2Fields() && InertTexts(p.(i1 := "")) && OneLineInterface(iface)
    requires Trimmed(iface.privateKey) && iface.listenPort <= MAX_INT64 && WellFormedPeers(peers) && Encodes32Bytes(key)
    ensures ValidProfile(p.(i1 := TextWithKey(key)))
    ensures Parse(Server(iface, p.(i1 := TextWithKey(key)), peers)) ==
            Parse(Server(iface.(privateKey := key), p.(i1 := ""), peers))
  {
    var q := p.(i1 := TextWithKey(key));
    StillValid(p, key);
    Base64Plain(key);
    SortedWellFormed(peers);
    LinesOfServer(iface, q, peers);
    ParseWithText(iface, p, key);
    ParseBlocks(StartLines(iface) + ProfileLines(q), SortByKey(peers));
    PeersAfterInterface(key, if iface.listenPort > 0 then iface.listenPort else 0, SpecsOf(SortByKey(peers)));
    ParseServer(iface.(privateKey := key), p.(i1 := ""), peers);
  }
}
