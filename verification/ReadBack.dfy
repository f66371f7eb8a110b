/** Reading a printed profile back: the value search finds every packet parameter in the server config. */
module ReadBack {
  import opened Wrappers
  import opened Strings
  import opened Numerals
  import opened Profiles
  import opened ConfigText
  import opened Config
  import opened Render
  import opened RenderLines
  import opened RenderParse
  import opened RenderTheorems
  import opened KeyInsertion
  import opened Validation

  /** No setting has the key. */
  ghost predicate Foreign(settings: seq<Setting>, want: string) {
    forall i :: 0 <= i < |settings| ==> Lower(settings[i].0) != want
  }

  lemma ForeignBoth(a: seq<Setting>, b: seq<Setting>, want: string)
    requires Foreign(a, want) && Foreign(b, want)
    ensures Foreign(a + b, want)
  {
  }

  lemma SkipLine(line: string, rest: seq<string>, want: string)
    requires Classify(line).Pair? && Classify(line).key != want
    ensures ValueIn([line] + rest, true, want) == ValueIn(rest, true, want)
  {
    assert ([line] + rest)[1..] == rest;
  }

  lemma HitLine(line: string, rest: seq<string>, want: string)
    requires Classify(line).Pair? && Classify(line).key == want
    ensures ValueIn([line] + rest, true, want) == Classify(line).value
  {
    assert ([line] + rest)[0] == line;
  }

  lemma {:induction false} FoundSetting(before: seq<Setting>, k: string, v: string, rest: seq<string>)
    requires PlainKeys(before) && PlainKey(k) && Foreign(before, Lower(k))
    ensures ValueIn(Assigns(before) + ([Assign(k, v)] + rest), true, Lower(k)) == TrimSpace(v)
    decreases |before|
  {
    var found := [Assign(k, v)] + rest;
    if before == [] {
      assert Assigns(before) + found == found;
      ClassifyAssign(k, v);
      HitLine(Assign(k, v), rest, Lower(k));
    } else {
      var line, more := Assign(before[0].0, before[0].1), before[1..];
      calc {
        ValueIn(Assigns(before) + found, true, Lower(k));
        { assert Assigns(before) + found == [line] + (Assigns(more) + found); }
        ValueIn([line] + (Assigns(more) + found), true, Lower(k));
        { ClassifyAssign(before[0].0, before[0].1); SkipLine(line, Assigns(more) + found, Lower(k)); }
        ValueIn(Assigns(more) + found, true, Lower(k));
        { FoundSetting(more, k, v, rest); }
        TrimSpace(v);
      }
    }
  }

  lemma InsideInterface(rest: seq<string>, want: string)
    ensures ValueIn([BANNER, "[Interface]"] + rest, false, want) == ValueIn(rest, true, want)
  {
    var lines := [BANNER, "[Interface]"] + rest;
    CommentIsNothing("Generated by awg-rest. Do not edit by hand.");
    ExactHeader();
    HeaderIsInterface("[Interface]");
    assert lines[1..] == ["[Interface]"] + rest;
    assert lines[1..][1..] == rest;
  }

  lemma LinesSplit(head: seq<string>, before: seq<string>, line: string, more: seq<string>, after: seq<string>)
    ensures head + (before + ([line] + more) + after) + [""] == head + (before + ([line] + (more + after + [""])))
  {
  }

  lemma PlainParts(before: seq<Setting>, k: string, v: string, after: seq<Setting>)
    requires PlainKeys(before + [(k, v)] + after)
    ensures PlainKeys(before) && PlainKey(k)
  {
    var all := before + [(k, v)] + after;
    assert all[|before|] == (k, v);
    assert forall i :: 0 <= i < |before| ==> all[i] == before[i];
  }

  /** The lines of a written text around one of its pieces. */
  lemma WrittenAround(head: seq<string>, before: seq<string>, line: string, first: string, more: seq<string>, tail: seq<string>)
    requires OneLiners(head) && OneLiners(before) && Lines(line) == [first] + more
    ensures Lines(Unlines(head + (before + [line] + tail))) == head + (before + ([first] + (more + Flat(tail) + [""])))
  {
    LinesOfWritten(head + (before + [line] + tail));
    FlatAppend(head, before + [line] + tail);
    FlatAppend(before + [line], tail);
    FlatAppend(before, [line]);
    FlatOneLiners(before);
    FlatOneLiners(head);
    FlatOne(line);
    LinesSplit(head, before, first, more, Flat(tail));
  }

  lemma PiecesAround(iface: Interface, p: Profile, blocks: seq<string>, before: seq<Setting>, k: string, v: string,
                     after: seq<Setting>)
    requires InterfaceSettings(iface, p) == before + [(k, v)] + after
    ensures InterfaceLines(iface, p) + blocks ==
            [BANNER, "[Interface]"] + (Assigns(before) + [Assign(k, v)] + (Assigns(after) + blocks))
  {
    AssignsAppend(before + [(k, v)], after);
    AssignsAppend(before, [(k, v)]);
    assert Assigns([(k, v)]) == [Assign(k, v)];
    Regroup([BANNER, "[Interface]"], Assigns(before), [Assign(k, v)], Assigns(after), blocks);
  }

  /** The lines of a printed config around one of its settings, whatever comes after that. */
  lemma LinesAround(iface: Interface, p: Profile, peers: seq<PeerEntry>, before: seq<Setting>, k: string, v: string,
                    after: seq<Setting>) returns (rest: seq<string>)
    requires InterfaceSettings(iface, p) == before + [(k, v)] + after && OneLineSettings(before) && NoNewline(k)
    ensures Lines(Server(iface, p, peers)) ==
            [BANNER, "[Interface]"] + (Assigns(before) + ([Assign(k, Lines(v)[0])] + rest))
  {
    var blocks := AllPeerLines(SortByKey(peers));
    var tail := Assigns(after) + blocks;
    PiecesAround(iface, p, blocks, before, k, v, after);
    OneLineAssigns(before);
    StartIsOneLine();
    LinesOfAssign(k, v);
    WrittenAround([BANNER, "[Interface]"], Assigns(before), Assign(k, v), Assign(k, Lines(v)[0]), Lines(v)[1..], tail);
    rest := Lines(v)[1..] + Flat(tail) + [""];
  }

  lemma FlatOne(line: string)
    ensures Flat([line]) == Lines(line)
  {
    assert [line][1..] == [];
    assert Lines(line) + [] == Lines(line);
  }

  lemma Regroup(head: seq<string>, a: seq<string>, b: seq<string>, c: seq<string>, d: seq<string>)
    ensures head + (a + b + c) + d == head + (a + b + (c + d))
  {
  }

  /** The search finds the first setting with the key, up to the end of its line, whatever the peers and later texts hold. */
  lemma PrintedSetting(iface: Interface, p: Profile, peers: seq<PeerEntry>, before: seq<Setting>, k: string, v: string,
                       after: seq<Setting>)
    requires OneLineSettings(before)
    requires InterfaceSettings(iface, p) == before + [(k, v)] + after && Foreign(before, Lower(k))
    ensures InterfaceValue(Server(iface, p, peers), k) == TrimSpace(Lines(v)[0])
  {
    InterfaceKeysArePlain(iface, p);
    PlainParts(before, k, v, after);
    var rest := LinesAround(iface, p, peers, before, k, v, after);
    InsideInterface(Assigns(before) + ([Assign(k, Lines(v)[0])] + rest), Lower(k));
    FoundSetting(before, k, Lines(v)[0], rest);
    TrimmedStays(k);
  }

  // ---------------------------------------------------------------- which keys differ

  lemma LengthOtherwise(k: string, want: string)
    requires |k| != |want|
    ensures Lower(k) != want
  {
  }

  lemma IdentityForeign(iface: Interface, want: string)
    requires |want| == 2 || |want| == 4
    ensures Foreign(Addresses(iface.address), want) && Foreign(Identity(iface), want)
  {
    LengthOtherwise("Address", want);
    LengthOtherwise("ListenPort", want);
    LengthOtherwise("PrivateKey", want);
  }

  lemma HooksForeign(iface: Interface, want: string)
    requires |want| == 2 || |want| == 4
    ensures Foreign(Hooks(iface), want)
  {
    LengthOtherwise("MTU", want);
    LengthOtherwise("DNS", want);
    LengthOtherwise("PostUp", want);
    LengthOtherwise("PostDown", want);
  }

  /** The keys before the profile are longer than the short ones. */
  lemma PreambleForeign(iface: Interface, want: string)
    requires |want| == 2 || |want| == 4
    ensures Foreign(Preamble(iface), want)
  {
    IdentityForeign(iface, want);
    HooksForeign(iface, want);
    ForeignBoth(Addresses(iface.address), Identity(iface), want);
    ForeignBoth(Addresses(iface.address) + Identity(iface), Hooks(iface), want);
  }

  lemma StartsOtherwise(k: string, want: string)
    requires k != "" && want != "" && LowerChar(k[0]) != want[0]
    ensures Lower(k) != want
  {
    assert Lower(k)[0] == LowerChar(k[0]);
  }

  lemma PaddingsForeign(p: Profile, want: string)
    requires want != "" && want[0] == 'h'
    ensures Foreign(Paddings(p), want)
  {
    StartsOtherwise("Jc", want);
    StartsOtherwise("Jmin", want);
    StartsOtherwise("Jmax", want);
    StartsOtherwise("S1", want);
    StartsOtherwise("S2", want);
    StartsOtherwise("S3", want);
    StartsOtherwise("S4", want);
  }

  lemma SecondOtherwise(k: string, l: string)
    requires |k| >= 2 && |l| >= 2 && LowerChar(k[1]) != LowerChar(l[1])
    ensures Lower(k) != Lower(l)
  {
    assert Lower(k)[1] == LowerChar(k[1]) && Lower(l)[1] == LowerChar(l[1]);
  }

  /** What is printed before the first text fits on its lines. */
  lemma NumbersOneLine(iface: Interface, p: Profile)
    requires OneLineInterface(iface)
    ensures OneLineSettings(Preamble(iface)) && OneLineSettings(Paddings(p)) && OneLineSettings(Headers(p))
    ensures OneLineSettings(Preamble(iface) + Paddings(p))
  {
    OneLinePreamble(iface);
    PaddingsUnread(p);
    UnreadIsOneLine(Paddings(p));
    HeadersUnread(p);
    UnreadIsOneLine(Headers(p));
    OneLineBoth(Preamble(iface), Paddings(p));
  }

  lemma OneLineTake(settings: seq<Setting>, m: nat)
    requires OneLineSettings(settings) && m < |settings|
    ensures OneLineSettings(settings[..m]) && NoNewline(settings[m].1)
  {
  }

  // ---------------------------------------------------------------- the headers

  lemma HeaderAt(iface: Interface, p: Profile, peers: seq<PeerEntry>, m: nat)
    requires OneLineInterface(iface) && m < 4
    ensures InterfaceValue(Server(iface, p, peers), Headers(p)[m].0) == TrimSpace(Headers(p)[m].1)
  {
    var hs := Headers(p);
    var k, v := hs[m].0, hs[m].1;
    var before := Preamble(iface) + Paddings(p) + hs[..m];
    var after := hs[m + 1..] + JunkTexts(p, false) + V31Settings(p);
    HeaderKeys(p, m);
    PreambleForeign(iface, Lower(k));
    PaddingsForeign(p, Lower(k));
    ForeignBoth(Preamble(iface), Paddings(p), Lower(k));
    ForeignBoth(Preamble(iface) + Paddings(p), hs[..m], Lower(k));
    HeaderSplits(Preamble(iface), Paddings(p), hs, m, JunkTexts(p, false), V31Settings(p));
    NumbersOneLine(iface, p);
    OneLineTake(hs, m);
    OneLineBoth(Preamble(iface) + Paddings(p), hs[..m]);
    LinesOfOne(v);
    PrintedSetting(iface, p, peers, before, k, v, after);
  }

  lemma HeaderSplits(a: seq<Setting>, b: seq<Setting>, hs: seq<Setting>, m: nat, c: seq<Setting>, d: seq<Setting>)
    requires m < |hs|
    ensures a + (b + hs + c + d) == (a + b + hs[..m]) + [(hs[m].0, hs[m].1)] + (hs[m + 1..] + c + d)
  {
    assert hs == hs[..m] + [hs[m]] + hs[m + 1..];
  }

  lemma HeaderKeys(p: Profile, m: nat)
    requires m < 4
    ensures var k := Headers(p)[m].0;
            |Lower(k)| == 2 && Lower(k)[0] == 'h' && Foreign(Headers(p)[..m], Lower(k))
  {
    var hs := Headers(p);
    assert hs[0].0 == "H1" && hs[1].0 == "H2" && hs[2].0 == "H3" && hs[3].0 == "H4";
    assert LowerChar('H') == 'h';
    forall i | 0 <= i < m
      ensures Lower(hs[i].0) != Lower(hs[m].0)
    {
      SecondOtherwise(hs[i].0, hs[m].0);
    }
  }

  lemma RangeTextTrimmed(r: IntRange)
    ensures TrimSpace(r.Text()) == r.Text()
  {
    if r.min == r.max {
      TrimmedStays(FormatInt(r.min));
    } else {
      assert "-" == ['-'];
      DashedIsTrimmed(FormatInt(r.min), FormatInt(r.max));
    }
  }

  /** The four headers of a valid profile can be read back from the text that configures the interface. */
  lemma HeadersReadBack(iface: Interface, p: Profile, peers: seq<PeerEntry>)
    requires ValidProfile(p) && OneLineInterface(iface)
    ensures var text := Server(iface, p, peers);
            && ParseIntRange(InterfaceValue(text, "H1")) == Some(p.h1)
            && ParseIntRange(InterfaceValue(text, "H2")) == Some(p.h2)
            && ParseIntRange(InterfaceValue(text, "H3")) == Some(p.h3)
            && ParseIntRange(InterfaceValue(text, "H4")) == Some(p.h4)
  {
    HeaderAt(iface, p, peers, 0);
    HeaderAt(iface, p, peers, 1);
    HeaderAt(iface, p, peers, 2);
    HeaderAt(iface, p, peers, 3);
    RangeTextTrimmed(p.h1);
    RangeTextTrimmed(p.h2);
    RangeTextTrimmed(p.h3);
    RangeTextTrimmed(p.h4);
    HeadersSurvive(p);
  }

  // ---------------------------------------------------------------- the numbers

  lemma PaddingAt(iface: Interface, p: Profile, peers: seq<PeerEntry>, m: nat)
    requires OneLineInterface(iface) && m < |Paddings(p)|
    ensures InterfaceValue(Server(iface, p, peers), Paddings(p)[m].0) == TrimSpace(Paddings(p)[m].1)
  {
    var ps := Paddings(p);
    var k, v := ps[m].0, ps[m].1;
    PaddingKeysDiffer(p, m);
    PreambleForeign(iface, Lower(k));
    ForeignBoth(Preamble(iface), ps[..m], Lower(k));
    PaddingSplits(Preamble(iface), ps, m, Headers(p), JunkTexts(p, false), V31Settings(p));
    NumbersOneLine(iface, p);
    OneLineTake(ps, m);
    OneLineBoth(Preamble(iface), ps[..m]);
    LinesOfOne(v);
    PrintedSetting(iface, p, peers, Preamble(iface) + ps[..m], k, v, ps[m + 1..] + Headers(p) + JunkTexts(p, false) + V31Settings(p));
  }

  lemma PaddingSplits(a: seq<Setting>, ps: seq<Setting>, m: nat, b: seq<Setting>, c: seq<Setting>, d: seq<Setting>)
    requires m < |ps|
    ensures a + (ps + b + c + d) == (a + ps[..m]) + [(ps[m].0, ps[m].1)] + (ps[m + 1..] + b + c + d)
  {
    assert ps == ps[..m] + [ps[m]] + ps[m + 1..];
  }

  lemma PaddingKeysDiffer(p: Profile, m: nat)
    requires m < |Paddings(p)|
    ensures var k := Paddings(p)[m].0;
            (|Lower(k)| == 2 || |Lower(k)| == 4) && Foreign(Paddings(p)[..m], Lower(k))
  {
    var ps := Paddings(p);
    assert ps[0].0 == "Jc" && ps[1].0 == "Jmin" && ps[2].0 == "Jmax" && ps[3].0 == "S1" && ps[4].0 == "S2";
    assert |ps| > 5 ==> ps[5].0 == "S3" && ps[6].0 == "S4";
    forall i | 0 <= i < m
      ensures Lower(ps[i].0) != Lower(ps[m].0)
    {
      if i == 1 && m == 2 {
        ThirdOtherwise("Jmin", "Jmax");
      } else {
        SecondOtherwise(ps[i].0, ps[m].0);
      }
    }
  }

  lemma ThirdOtherwise(k: string, l: string)
    requires |k| >= 3 && |l| >= 3 && LowerChar(k[2]) != LowerChar(l[2])
    ensures Lower(k) != Lower(l)
  {
    assert Lower(k)[2] == LowerChar(k[2]) && Lower(l)[2] == LowerChar(l[2]);
  }

  predicate SmallNumbers(p: Profile) {
    Int64(p.jc) && Int64(p.jmin) && Int64(p.jmax) && Int64(p.s1) && Int64(p.s2) && Int64(p.s3) && Int64(p.s4)
  }

  /** The text assigns the number to the key. */
  predicate Assigned(text: string, k: string, n: int) {
    ParseInt(InterfaceValue(text, k)) == Some(n)
  }

  lemma NumberAt(iface: Interface, p: Profile, peers: seq<PeerEntry>, m: nat, k: string, n: int)
    requires OneLineInterface(iface) && Int64(n)
    requires m < |Paddings(p)| && Paddings(p)[m] == (k, FormatInt(n))
    ensures Assigned(Server(iface, p, peers), k, n)
  {
    PaddingAt(iface, p, peers, m);
    TrimFormat(n);
    ParseFormat(n);
  }

  /** The numeric settings of a profile; S3 and S4 are there from V2 on. */
  function NumericKeys(p: Profile): seq<string> {
    ["Jc", "Jmin", "Jmax", "S1", "S2"] + if p.SupportsV2Fields() then ["S3", "S4"] else []
  }

  function NumericValues(p: Profile): seq<int> {
    [p.jc, p.jmin, p.jmax, p.s1, p.s2] + if p.SupportsV2Fields() then [p.s3, p.s4] else []
  }

  /** The printed settings pair the keys with the values. */
  lemma FirstPrinted(p: Profile, m: nat)
    requires m < 5
    ensures |NumericKeys(p)| == |NumericValues(p)| == |Paddings(p)| >= 5
    ensures Paddings(p)[m] == (NumericKeys(p)[m], FormatInt(NumericValues(p)[m]))
  {
    var ks, vs := ["Jc", "Jmin", "Jmax", "S1", "S2"], [p.jc, p.jmin, p.jmax, p.s1, p.s2];
    assert NumericKeys(p)[m] == ks[m] && NumericValues(p)[m] == vs[m];
    if {
      case m == 0 =>
      case m == 1 =>
      case m == 2 =>
      case m == 3 =>
      case m == 4 =>
    }
  }

  lemma LastPrinted(p: Profile, m: nat)
    requires p.SupportsV2Fields() && m < 2
    ensures |NumericKeys(p)| == |NumericValues(p)| == |Paddings(p)| == 7
    ensures Paddings(p)[5 + m] == (NumericKeys(p)[5 + m], FormatInt(NumericValues(p)[5 + m]))
  {
    var ks, vs := ["S3", "S4"], [p.s3, p.s4];
    assert NumericKeys(p)[5 + m] == ks[m] && NumericValues(p)[5 + m] == vs[m];
  }

  lemma NumbersPrinted(p: Profile, m: nat)
    requires m < |NumericKeys(p)|
    ensures |NumericKeys(p)| == |NumericValues(p)| == |Paddings(p)|
    ensures Paddings(p)[m] == (NumericKeys(p)[m], FormatInt(NumericValues(p)[m]))
  {
    if m < 5 {
      FirstPrinted(p, m);
    } else {
      LastPrinted(p, m - 5);
    }
  }

  lemma NumbersSmall(p: Profile, m: nat)
    requires SmallNumbers(p) && m < |NumericValues(p)|
    ensures Int64(NumericValues(p)[m])
  {
    assert forall v :: v in NumericValues(p) ==> v in {p.jc, p.jmin, p.jmax, p.s1, p.s2, p.s3, p.s4};
  }

  /** Every numeric setting of a profile can be searched for and parsed back from the printed config. */
  lemma NumbersReadBack(iface: Interface, p: Profile, peers: seq<PeerEntry>, m: nat)
    requires SmallNumbers(p) && OneLineInterface(iface) && m < |NumericKeys(p)|
    ensures |NumericValues(p)| == |NumericKeys(p)|
    ensures Assigned(Server(iface, p, peers), NumericKeys(p)[m], NumericValues(p)[m])
  {
    NumbersPrinted(p, m);
    NumbersSmall(p, m);
    NumberAt(iface, p, peers, m, NumericKeys(p)[m], NumericValues(p)[m]);
  }
}
