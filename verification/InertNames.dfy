/** Which names and texts the parser does not see: exactly those whose further lines are all ignored. */
module InertNames {
  import opened Strings
  import opened ConfigText
  import opened Parser
  import opened Render
  import opened RenderLines
  import opened RenderParse

  /** Lines the parser passes over, whatever it has read before. */
  ghost predicate Invisible(lines: seq<string>) {
    forall st :: ParseLines(st, lines) == st
  }

  ghost predicate HasHeader(lines: seq<string>) {
    exists i :: 0 <= i < |lines| && Classify(lines[i]).Header?
  }

  predicate Sets(raw: string, key: string) {
    Classify(raw).Pair? && Classify(raw).key == key
  }

  ghost predicate SetsKey(lines: seq<string>, key: string) {
    exists i :: 0 <= i < |lines| && Sets(lines[i], key)
  }

  lemma HeaderInRest(lines: seq<string>)
    requires lines != []
    ensures HasHeader(lines) <==> Classify(lines[0]).Header? || HasHeader(lines[1..])
  {
    if HasHeader(lines[1..]) {
      var i :| 0 <= i < |lines[1..]| && Classify(lines[1..][i]).Header?;
      assert lines[i + 1] == lines[1..][i];
    }
    if i :| 0 < i < |lines| && Classify(lines[i]).Header? {
      assert lines[1..][i - 1] == lines[i];
    }
  }

  lemma KeyInRest(lines: seq<string>, key: string)
    requires lines != []
    ensures SetsKey(lines, key) <==> Sets(lines[0], key) || SetsKey(lines[1..], key)
  {
    if SetsKey(lines[1..], key) {
      var i :| 0 <= i < |lines[1..]| && Sets(lines[1..][i], key);
      assert lines[i + 1] == lines[1..][i];
    }
    if i :| 0 < i < |lines| && Sets(lines[i], key) {
      assert lines[1..][i - 1] == lines[i];
    }
  }

  // ---------------------------------------------------------------- headers are seen

  lemma SectionOfLine(st: State, raw: string)
    ensures ParseLine(st, raw).section == if Classify(raw).Header? then TrimBrackets(Classify(raw).text) else st.section
  {
  }

  /** After a header the section no longer depends on the one before. */
  lemma {:induction false} SectionForgotten(a: State, b: State, lines: seq<string>)
    requires HasHeader(lines) || a.section == b.section
    ensures ParseLines(a, lines).section == ParseLines(b, lines).section
    decreases |lines|
  {
    if lines != [] {
      HeaderInRest(lines);
      SectionOfLine(a, lines[0]);
      SectionOfLine(b, lines[0]);
      SectionForgotten(ParseLine(a, lines[0]), ParseLine(b, lines[0]), lines[1..]);
    }
  }

  lemma HeaderIsSeen(lines: seq<string>)
    requires HasHeader(lines)
    ensures !Invisible(lines)
  {
    var a, b := START, START.(section := "Peer");
    SectionForgotten(a, b, lines);
  }

  // ---------------------------------------------------------------- settings are seen

  /** The part of the parser's state that a key sets. */
  datatype Part = Text(text: string) | Number(number: int) | Items(items: seq<string>)

  predicate IsRead(key: string) {
    key in {"privatekey", "listenport", "publickey", "presharedkey", "allowedips", "endpoint", "persistentkeepalive"}
  }

  /** The section in which the key is read. */
  function SectionFor(key: string): string {
    if key == "privatekey" || key == "listenport" then "Interface" else "Peer"
  }

  function PartOf(st: State, key: string): Part {
    if key == "privatekey" then Text(st.out.privateKey)
    else if key == "listenport" then Number(st.out.listenPort)
    else if key == "publickey" then Text(st.cur.publicKey)
    else if key == "presharedkey" then Text(st.cur.presharedKey)
    else if key == "allowedips" then Items(st.cur.allowedIps)
    else if key == "endpoint" then Text(st.cur.endpoint)
    else Number(st.cur.keepalive)
  }

  /** A state that differs from the first one in every part. */
  function Other(key: string): State {
    State(SectionFor(key), PeerSpec("x", "x", ["x"], "x", 1), Parsed("x", 1, []))
  }

  function First(key: string): State {
    START.(section := SectionFor(key))
  }

  lemma PairSets(a: State, b: State, key: string, k: string, value: string)
    requires IsRead(key) && a.section == b.section == SectionFor(key)
    ensures SetPair(a, k, value).section == a.section
    ensures k == key ==> PartOf(SetPair(a, k, value), key) == PartOf(SetPair(b, k, value), key)
    ensures k != key ==> PartOf(SetPair(a, k, value), key) == PartOf(a, key)
  {
  }

  lemma LineSets(a: State, b: State, key: string, raw: string)
    requires IsRead(key) && a.section == b.section == SectionFor(key) && !Classify(raw).Header?
    ensures ParseLine(a, raw).section == a.section
    ensures Sets(raw, key) ==> PartOf(ParseLine(a, raw), key) == PartOf(ParseLine(b, raw), key)
    ensures !Sets(raw, key) ==> PartOf(ParseLine(a, raw), key) == PartOf(a, key)
  {
    if Classify(raw).Pair? {
      PairSets(a, b, key, Classify(raw).key, Classify(raw).value);
    }
  }

  /** Where a key is set, or was the same before, its part ends the same. */
  lemma {:induction false} PartForgotten(a: State, b: State, key: string, lines: seq<string>)
    requires IsRead(key) && a.section == b.section == SectionFor(key) && !HasHeader(lines)
    requires SetsKey(lines, key) || PartOf(a, key) == PartOf(b, key)
    ensures PartOf(ParseLines(a, lines), key) == PartOf(ParseLines(b, lines), key)
    decreases |lines|
  {
    if lines != [] {
      HeaderInRest(lines);
      KeyInRest(lines, key);
      LineSets(a, b, key, lines[0]);
      LineSets(b, a, key, lines[0]);
      PartForgotten(ParseLine(a, lines[0]), ParseLine(b, lines[0]), key, lines[1..]);
    }
  }

  lemma SettingIsSeen(lines: seq<string>, key: string)
    requires IsRead(key) && !HasHeader(lines) && SetsKey(lines, key)
    ensures !Invisible(lines)
  {
    var a, b := First(key), Other(key);
    PartForgotten(a, b, key, lines);
    assert PartOf(a, key) != PartOf(b, key);
  }

  // ---------------------------------------------------------------- the exact condition

  lemma InvisibleIsIgnored(lines: seq<string>)
    ensures Invisible(lines) <==> AllIgnored(lines)
  {
    if AllIgnored(lines) {
      forall st
        ensures ParseLines(st, lines) == st
      {
        IgnoredLines(st, lines);
      }
    } else {
      var i :| 0 <= i < |lines| && !Ignored(lines[i]);
      if HasHeader(lines) {
        HeaderIsSeen(lines);
      } else {
        assert Sets(lines[i], Classify(lines[i]).key);
        SettingIsSeen(lines, Classify(lines[i]).key);
      }
    }
  }

  /** The comment line is skipped, so all depends on the lines below it. */
  lemma CommentIgnoredIff(comment: string)
    requires comment != ""
    ensures AllIgnored(CommentLines(comment)) <==> Inert(comment)
  {
    var lines, all := Lines(comment), CommentLines(comment);
    LinesOfComment(comment);
    if Inert(comment) {
      CommentIgnored(comment);
    }
    if AllIgnored(all) {
      forall i | 0 < i < |lines|
        ensures Ignored(lines[i])
      {
        assert all[i] == lines[i];
      }
    }
  }

  /** A name, printed as a comment, changes nothing for the parser wherever it stands exactly when it is inert. */
  lemma NameIsInvisibleIff(name: string)
    ensures Invisible(CommentLines(name)) <==> Inert(name)
  {
    InvisibleIsIgnored(CommentLines(name));
    if name == "" {
      OneLineIsInert(name);
    } else {
      CommentIgnoredIff(name);
    }
  }

  /** So does a text printed as the value of a setting that is not read, as all texts of a profile are. */
  lemma TextIsInvisibleIff(key: string, text: string)
    requires UnreadKey(key)
    ensures Invisible(Lines(Assign(key, text))) <==> Inert(text)
  {
    var lines, all := Lines(text), Lines(Assign(key, text));
    LinesOfAssign(key, text);
    InvisibleIsIgnored(all);
    UnreadIsIgnored(key, lines[0]);
    if Inert(text) {
      FirstThenRest(Assign(key, lines[0]), lines);
    }
    if AllIgnored(all) {
      forall i | 0 < i < |lines|
        ensures Ignored(lines[i])
      {
        assert all[i] == lines[i];
      }
    }
  }

  lemma UnreadIsIgnored(key: string, value: string)
    requires UnreadKey(key)
    ensures Ignored(Assign(key, value))
  {
    ClassifyAssign(key, value);
    assert |Lower(key)| == |key| && Lower(key)[0] == LowerChar(key[0]);
    UnreadName(Lower(key));
  }

  /** The settings that hold texts are such settings. */
  lemma TextKeysUnread()
    ensures UnreadKey("I1") && UnreadKey("I2") && UnreadKey("I3") && UnreadKey("I4") && UnreadKey("I5")
    ensures UnreadKey("HeaderProtectionKey")
  {
    ShortKeys();
    V31Keys();
  }
}
