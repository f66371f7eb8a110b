/** Preserving the private key: when it survives, what else changes, and that sanitising commutes with it. */
module KeyPreservation {
  import opened Wrappers
  import opened Strings
  import opened ConfigText
  import opened Parser
  import opened Config
  import opened ConfigLines
  import opened ConfigLaws
  import opened ConfigMeaning
  import opened KeyInsertion

  // ---------------------------------------------------------------- the three places

  lemma LinesBelowHeader(config: string, v: string)
    requires GoodKey(v) && HeaderIndex(Lines(config)) + 1 < |Lines(config)|
    ensures var lines, i := Lines(config), HeaderIndex(Lines(config));
            && lines == lines[..i] + [lines[i]] + lines[i + 1..]
            && Lines(Inserted(config, PRIVATE_KEY, v)) == lines[..i] + [lines[i], Assign(PRIVATE_KEY, v)] + lines[i + 1..]
  {
    var lines, line := Lines(config), Assign(PRIVATE_KEY, v);
    var i := HeaderIndex(lines);
    PrivateKeyIsPlain();
    LinesOfInserted(config, PRIVATE_KEY, v);
    OneMore(lines, i, line);
  }

  lemma OneMore(lines: seq<string>, i: nat, line: string)
    requires i + 1 < |lines|
    ensures lines == lines[..i] + [lines[i]] + lines[i + 1..]
    ensures lines[..i + 1] + [line] + lines[i + 1..] == lines[..i] + [lines[i], line] + lines[i + 1..]
  {
  }

  lemma BelowHeader(config: string, v: string)
    requires Keyless(config) && GoodKey(v) && HeaderIndex(Lines(config)) + 1 < |Lines(config)|
    ensures Parse(Inserted(config, PRIVATE_KEY, v)) ==
            if TrimSpace(Lines(config)[HeaderIndex(Lines(config))]) == "[Interface]"
            then WithKey(Parse(config), v) else Parse(config)
  {
    var lines := Lines(config);
    var i := HeaderIndex(lines);
    LinesBelowHeader(config, v);
    InsertedBelowParses(lines[..i], lines[i], v, lines[i + 1..]);
    KeyThroughFlush(ParseLines(START, lines), v);
  }

  lemma FoundBelowHeader(config: string, v: string)
    requires Keyless(config) && GoodKey(v) && HeaderIndex(Lines(config)) + 1 < |Lines(config)|
    ensures InterfaceValue(Inserted(config, PRIVATE_KEY, v), PRIVATE_KEY) == v
  {
    var lines := Lines(config);
    var i := HeaderIndex(lines);
    LinesBelowHeader(config, v);
    KeyLine(v);
    HeaderIsInterface(lines[i]);
    PrivateKeyIsSecret();
    KeyFound(lines[..i], lines[i], Assign(PRIVATE_KEY, v), lines[i + 1..], false);
  }

  lemma GluedToHeader(config: string, v: string)
    requires Keyless(config) && GoodKey(v) && HeaderIndex(Lines(config)) + 1 == |Lines(config)|
    ensures Parse(Inserted(config, PRIVATE_KEY, v)).privateKey == ""
  {
    var lines, line := Lines(config), Assign(PRIVATE_KEY, v);
    var i := HeaderIndex(lines);
    PrivateKeyIsPlain();
    LinesOfInserted(config, PRIVATE_KEY, v);
    GluedIsNoKey(lines[i], line);
    LastTwoNoKey(lines[..i], lines[i] + line);
    NoKeyParsed(lines[..i] + [lines[i] + line, ""]);
  }

  lemma LastTwoNoKey(before: seq<string>, last: string)
    requires NoKeyPair(before) && !IsKeyPair(last)
    ensures NoKeyPair(before + [last, ""])
  {
    EmptyLine();
    assert !IsKeyPair("");
  }

  lemma GluedIsNoKey(header: string, line: string)
    requires IsHeaderLine(header)
    ensures !IsKeyPair(header + line)
  {
    var x := HeaderSpelling(header);
    var l, r := TrimSplits(header);
    var rest := TrimSpace(header) + r + line;
    assert header + line == l + rest;
    TrimLeftPad(l, rest);
    BracketIsNoKey(header + line);
  }

  lemma InFront(config: string, v: string)
    requires Keyless(config) && GoodKey(v) && HeaderIndex(Lines(config)) == |Lines(config)|
    ensures Parse(Inserted(config, PRIVATE_KEY, v)).privateKey == v
    ensures InterfaceValue(Inserted(config, PRIVATE_KEY, v), PRIVATE_KEY) == v
  {
    var lines, line := Lines(config), Assign(PRIVATE_KEY, v);
    PrivateKeyIsPlain();
    LinesOfInserted(config, PRIVATE_KEY, v);
    ExactHeader();
    HeaderIsInterface("[Interface]");
    KeyLine(v);
    PrivateKeyIsSecret();
    assert [] + ["[Interface]", line] + lines == ["[Interface]", line] + lines;
    KeyFound([], "[Interface]", line, lines, false);
    HeaderThenKey(START, "[Interface]", v);
    var s := ParseLines(START, ["[Interface]"]);
    ParseLinesAppend(START, ["[Interface]", line], lines);
    KeyThroughLines(s, v, lines);
    KeyThroughFlush(ParseLines(s, lines), v);
  }

  // ---------------------------------------------------------------- when the key survives

  lemma IsInserted(config: string, v: string)
    requires InterfaceValue(config, PRIVATE_KEY) == "" && GoodKey(v)
    ensures WithInterfaceValue(config, PRIVATE_KEY, v) == Inserted(config, PRIVATE_KEY, v)
  {
    TrimmedStays(v);
  }

  lemma KeylessHasNoValue(config: string)
    requires Keyless(config)
    ensures InterfaceValue(config, PRIVATE_KEY) == ""
  {
    PrivateKeyIsSecret();
    NoKeyFound(Lines(config), false);
  }

  /** A config that assigns no key anywhere takes over the current one exactly when its header fits. */
  lemma KeylessSurvivesIff(config: string, v: string)
    requires Keyless(config) && GoodKey(v)
    ensures Parse(WithInterfaceValue(config, PRIVATE_KEY, v)).privateKey == v <==> HeaderFits(Lines(config))
    ensures HeaderFits(Lines(config)) ==> InterfaceValue(WithInterfaceValue(config, PRIVATE_KEY, v), PRIVATE_KEY) == v
  {
    KeylessHasNoValue(config);
    IsInserted(config, v);
    var i, n := HeaderIndex(Lines(config)), |Lines(config)|;
    if i == n {
      InFront(config, v);
    } else if i + 1 == n {
      GluedToHeader(config, v);
    } else {
      BelowHeader(config, v);
      FoundBelowHeader(config, v);
      NoKeyParsed(Lines(config));
    }
  }

  /** Below a fitting header the inserted key is the only change to the meaning. */
  lemma OnlyTheKeyChanges(config: string, v: string)
    requires Keyless(config) && GoodKey(v)
    requires HeaderFits(Lines(config)) && HeaderIndex(Lines(config)) < |Lines(config)|
    ensures Parse(WithInterfaceValue(config, PRIVATE_KEY, v)) == WithKey(Parse(config), v)
  {
    KeylessHasNoValue(config);
    IsInserted(config, v);
    BelowHeader(config, v);
  }

  // ---------------------------------------------------------------- configs that may assign keys

  /** The section the parser is in after the lines. */
  function SectionAfter(section: string, lines: seq<string>): string
    decreases |lines|
  {
    if lines == [] then section
    else
      var line := Classify(lines[0]);
      SectionAfter(if line.Header? then TrimBrackets(line.text) else section, lines[1..])
  }

  /** The last key assigned where the parser reads it, starting in the section. */
  function LastKey(section: string, lines: seq<string>): Option<string>
    decreases |lines|
  {
    if lines == [] then None
    else
      var line := Classify(lines[0]);
      var rest := LastKey(SectionAfter(section, lines[..1]), lines[1..]);
      if rest.Some? then rest
      else if line.Pair? && line.key == KEY_NAME && section == "Interface" then Some(line.value) else None
  }

  lemma SectionOfOne(section: string, raw: string)
    ensures SectionAfter(section, [raw]) == if Classify(raw).Header? then TrimBrackets(Classify(raw).text) else section
  {
    assert [raw][1..] == [];
  }

  /** The key the parser ends with is the last one assigned, or the one it started with. */
  lemma {:induction false} ParsedKey(st: State, lines: seq<string>)
    ensures ParseLines(st, lines).out.privateKey ==
            match LastKey(st.section, lines) case None => st.out.privateKey case Some(k) => k
    decreases |lines|
  {
    if lines != [] {
      assert lines[..1] == [lines[0]];
      SectionOfOne(st.section, lines[0]);
      KeyOfLine(st, lines[0]);
      ParsedKey(ParseLine(st, lines[0]), lines[1..]);
    }
  }

  lemma KeyOfPair(st: State, key: string, value: string)
    ensures SetPair(st, key, value).section == st.section
    ensures key == KEY_NAME && st.section == "Interface" ==> SetPair(st, key, value).out.privateKey == value
    ensures key != KEY_NAME || st.section != "Interface" ==> SetPair(st, key, value).out.privateKey == st.out.privateKey
  {
  }

  lemma KeyOfMeaning(st: State, line: Line)
    ensures Meaning(st, line).section == if line.Header? then TrimBrackets(line.text) else st.section
    ensures Meaning(st, line).out.privateKey ==
            if line.Pair? && line.key == KEY_NAME && st.section == "Interface" then line.value else st.out.privateKey
  {
    if line.Pair? {
      KeyOfPair(st, line.key, line.value);
    }
  }

  lemma KeyOfLine(st: State, raw: string)
    ensures ParseLine(st, raw).section == SectionAfter(st.section, [raw])
    ensures ParseLine(st, raw).out.privateKey ==
            if IsKeyPair(raw) && st.section == "Interface" then Classify(raw).value else st.out.privateKey
  {
    SectionOfOne(st.section, raw);
    KeyOfMeaning(st, Classify(raw));
  }

  lemma {:induction false} NoLastKey(section: string, lines: seq<string>)
    requires NoKeyPair(lines)
    ensures LastKey(section, lines).None?
    decreases |lines|
  {
    if lines != [] {
      assert !IsKeyPair(lines[0]);
      NoLastKey(SectionAfter(section, lines[..1]), lines[1..]);
    }
  }

  lemma KeyOfText(lines: seq<string>)
    ensures Flush(ParseLines(START, lines)).out.privateKey == match LastKey("", lines) case None => "" case Some(k) => k
  {
    ParsedKey(START, lines);
  }

  /**
   * The exact condition. In front of a text without a header, or below an exact one, the key wins unless a
   * later line assigns another; glued to a header, or below another spelling, it is not read at all.
   */
  predicate KeyWins(lines: seq<string>, v: string) {
    var i := HeaderIndex(lines);
    if i == |lines| then LastKey("Interface", lines) in {None, Some(v)}
    else if i + 1 == |lines| then LastKey("", lines[..i]) == Some(v)
    else if TrimSpace(lines[i]) == "[Interface]" then LastKey("Interface", lines[i + 1..]) in {None, Some(v)}
    else LastKey("", lines) == Some(v)
  }

  lemma WinsInFront(config: string, v: string)
    requires GoodKey(v) && HeaderIndex(Lines(config)) == |Lines(config)|
    ensures Parse(Inserted(config, PRIVATE_KEY, v)).privateKey == v <==> KeyWins(Lines(config), v)
  {
    var lines, line := Lines(config), Assign(PRIVATE_KEY, v);
    PrivateKeyIsPlain();
    LinesOfInserted(config, PRIVATE_KEY, v);
    ParseLinesAppend(START, ["[Interface]", line], lines);
    KeyBelow(START, "[Interface]", v);
    ParsedKey(ParseLines(START, ["[Interface]", line]), lines);
  }

  /** Just below an exact header the parser has the key and reads on in the section. */
  lemma KeyBelow(st: State, header: string, v: string)
    requires IsHeaderLine(header) && TrimSpace(header) == "[Interface]" && GoodKey(v)
    ensures ParseLines(st, [header, Assign(PRIVATE_KEY, v)]).section == "Interface"
    ensures ParseLines(st, [header, Assign(PRIVATE_KEY, v)]).out.privateKey == v
  {
    var x := HeaderSpelling(header);
    HeaderThenKey(st, header, v);
    TwoLines(st, header, "");
  }

  lemma WinsBelow(config: string, v: string)
    requires GoodKey(v) && HeaderIndex(Lines(config)) + 1 < |Lines(config)|
    ensures Parse(Inserted(config, PRIVATE_KEY, v)).privateKey == v <==> KeyWins(Lines(config), v)
  {
    var lines, line := Lines(config), Assign(PRIVATE_KEY, v);
    var i := HeaderIndex(lines);
    var before, header, after := lines[..i], lines[i], lines[i + 1..];
    LinesBelowHeader(config, v);
    ParseInThree(before, [header, line], after);
    var st := ParseLines(START, before);
    if TrimSpace(header) == "[Interface]" {
      KeyBelow(st, header, v);
      ParsedKey(ParseLines(st, [header, line]), after);
    } else {
      HeaderThenKey(st, header, v);
      ParseInThree(before, [header], after);
      KeyOfText(lines);
    }
  }

  lemma WinsGlued(config: string, v: string)
    requires GoodKey(v) && HeaderIndex(Lines(config)) + 1 == |Lines(config)|
    ensures Parse(Inserted(config, PRIVATE_KEY, v)).privateKey == v <==> KeyWins(Lines(config), v)
  {
    var lines, line := Lines(config), Assign(PRIVATE_KEY, v);
    var i := HeaderIndex(lines);
    PrivateKeyIsPlain();
    LinesOfInserted(config, PRIVATE_KEY, v);
    GluedIsNoKey(lines[i], line);
    var before, last := lines[..i], [lines[i] + line, ""];
    NoKeysLast(lines[i] + line);
    ParseLinesAppend(START, before, last);
    ParsedKey(START, before);
    NoLastKey(ParseLines(START, before).section, last);
    ParsedKey(ParseLines(START, before), last);
  }

  lemma NoKeysLast(last: string)
    requires !IsKeyPair(last)
    ensures NoKeyPair([last, ""])
  {
    LastTwoNoKey([], last);
    assert [] + [last, ""] == [last, ""];
  }

  /** A config in which no key is found takes over the current one exactly when nothing in it wins over it. */
  lemma KeySurvivesIff(config: string, v: string)
    requires InterfaceValue(config, PRIVATE_KEY) == "" && GoodKey(v)
    ensures Parse(WithInterfaceValue(config, PRIVATE_KEY, v)).privateKey == v <==> KeyWins(Lines(config), v)
  {
    IsInserted(config, v);
    var i, n := HeaderIndex(Lines(config)), |Lines(config)|;
    if i == n {
      WinsInFront(config, v);
    } else if i + 1 == n {
      WinsGlued(config, v);
    } else {
      WinsBelow(config, v);
    }
  }

  lemma TrimFits(s: string)
    requires NoNewline(s)
    ensures Trimmed(TrimSpace(s)) && NoNewline(TrimSpace(s))
  {
    var l, r := TrimSplits(s);
    assert forall k :: 0 <= k < |TrimSpace(s)| ==> TrimSpace(s)[k] == s[|l| + k];
  }

  lemma PairValueFits(raw: string)
    requires NoNewline(raw) && Classify(raw).Pair?
    ensures Trimmed(Classify(raw).value) && NoNewline(Classify(raw).value)
  {
    PairHasCut(raw);
    var c := Cut(raw, '=');
    assert NoNewline(c.after) by {
      assert forall k :: 0 <= k < |c.after| ==> c.after[k] == raw[|c.before| + 1 + k];
    }
    TrimFits(c.after);
  }

  /** What a search returns is a value that fits on one line. */
  lemma {:induction false} FoundIsOneLine(lines: seq<string>, inside: bool, want: string)
    requires OneLiners(lines)
    ensures Trimmed(ValueIn(lines, inside, want)) && NoNewline(ValueIn(lines, inside, want))
    decreases |lines|
  {
    if lines != [] {
      match Classify(lines[0]) {
        case Nothing => FoundIsOneLine(lines[1..], inside, want);
        case Header(text) => FoundIsOneLine(lines[1..], IsInterfaceHeader(text), want);
        case Pair(_, _) =>
          PairValueFits(lines[0]);
          FoundIsOneLine(lines[1..], inside, want);
      }
    }
  }

  lemma InterfaceValueFits(config: string, key: string)
    ensures Trimmed(InterfaceValue(config, key)) && NoNewline(InterfaceValue(config, key))
  {
    TextOfLines(config);
    FoundIsOneLine(Lines(config), false, Lower(TrimSpace(key)));
  }

  // ---------------------------------------------------------------- sanitising commutes with preserving

  lemma HeaderIsNoJunk(raw: string, rest: string)
    requires IsHeaderLine(raw)
    ensures !IsEmptyJunkLine(raw) && !IsEmptyJunkLine(raw + rest)
  {
    var x := HeaderSpelling(raw);
    JunkLineIs(raw);
    var l, r := TrimSplits(raw);
    var tail := TrimSpace(raw) + r + rest;
    assert raw + rest == l + tail;
    TrimLeftPad(l, tail);
    BracketIsNoJunk(raw + rest);
  }

  lemma BracketIsNoJunk(raw: string)
    requires TrimLeft(raw) != "" && TrimLeft(raw)[0] == '['
    ensures !IsEmptyJunkLine(raw)
  {
    JunkLineIs(raw);
    if IsEmptyJunkLine(raw) {
      PairHasCut(raw);
      var c := Cut(raw, '=');
      var k := TrimSpace(c.before);
      JunkKeyStarts(Lower(k));
      assert Lower(k)[0] == LowerChar(k[0]);
      KeyStartsLine(c.before, c.after);
    }
  }

  lemma InsertedCons(first: string, rest: seq<string>, line: string)
    requires !IsHeaderLine(first) && HeaderIndex(rest) < |rest|
    ensures HeaderIndex([first] + rest) == HeaderIndex(rest) + 1
    ensures InsertedLines([first] + rest, line) == [first] + InsertedLines(rest, line)
  {
    var all := [first] + rest;
    assert all[1..] == rest;
    var i := HeaderIndex(rest);
    assert HeaderIndex(all) == i + 1;
    InsertedAtCons(first, rest, i, line);
  }

  lemma InsertedAtCons(first: string, rest: seq<string>, i: nat, line: string)
    requires i < |rest|
    ensures InsertedLinesAt([first] + rest, i + 1, line) == [first] + InsertedLinesAt(rest, i, line)
  {
    var all := [first] + rest;
    if i == |rest| - 1 {
      assert all[..i + 1] == [first] + rest[..i];
    } else {
      assert all[..i + 2] == [first] + rest[..i + 1];
      assert all[i + 2..] == rest[i + 1..];
    }
  }

  lemma InsertedFirst(header: string, rest: seq<string>, line: string)
    requires IsHeaderLine(header)
    ensures HeaderIndex([header] + rest) == 0
    ensures InsertedLines([header] + rest, line) == if rest == [] then [header + line, ""] else [header, line] + rest
  {
    var all := [header] + rest;
    assert all[0] == header;
    assert HeaderIndex(all) == 0;
    if rest != [] {
      assert all[..1] == [header] && all[1..] == rest;
      assert [header] + [line] + rest == [header, line] + rest;
    }
  }

  /** Two kept lines in front stay in front. */
  lemma SanitizedTwoCons(a: string, b: string, rest: seq<string>)
    requires rest != [] && !IsEmptyJunkLine(a) && !IsEmptyJunkLine(b)
    ensures SanitizedLines([a, b] + rest) == [a, b] + SanitizedLines(rest)
  {
    calc {
      SanitizedLines([a, b] + rest);
      { assert [a, b] + rest == [a] + ([b] + rest); }
      SanitizedLines([a] + ([b] + rest));
      { SanitizedCons(a, [b] + rest); }
      [a] + SanitizedLines([b] + rest);
      { SanitizedCons(b, rest); }
      [a] + ([b] + SanitizedLines(rest));
      [a, b] + SanitizedLines(rest);
    }
  }

  lemma SanitizedInsertHere(header: string, rest: seq<string>, line: string)
    requires IsHeaderLine(header) && rest != [] && !IsEmptyJunkLine(line)
    ensures HeaderIndex(SanitizedLines([header] + rest)) == 0
    ensures SanitizedLines(InsertedLines([header] + rest, line)) == InsertedLines(SanitizedLines([header] + rest), line)
  {
    HeaderIsNoJunk(header, line);
    InsertedFirst(header, rest, line);
    SanitizedTwoCons(header, line, rest);
    SanitizedCons(header, rest);
    InsertedFirst(header, SanitizedLines(rest), line);
  }

  lemma SanitizedInsertLast(header: string, line: string)
    requires IsHeaderLine(header)
    ensures SanitizedLines([header]) == [header] && HeaderIndex([header]) == 0
    ensures SanitizedLines(InsertedLines([header], line)) == InsertedLines([header], line)
  {
    HeaderIsNoJunk(header, line);
    InsertedFirst(header, [], line);
    assert [header] + [] == [header];
    EmptyLine();
    SanitizedCons(header + line, [""]);
    assert [header + line, ""] == [header + line] + [""];
  }

  lemma {:induction false} SanitizedInsert(lines: seq<string>, line: string)
    requires HeaderIndex(lines) < |lines| && !IsEmptyJunkLine(line)
    ensures HeaderIndex(SanitizedLines(lines)) < |SanitizedLines(lines)|
    ensures SanitizedLines(InsertedLines(lines, line)) == InsertedLines(SanitizedLines(lines), line)
  {
    var first, rest := lines[0], lines[1..];
    assert lines == [first] + rest;
    if IsHeaderLine(first) {
      if rest == [] {
        assert lines == [first];
        SanitizedInsertLast(first, line);
      } else {
        SanitizedInsertHere(first, rest, line);
      }
    } else {
      assert HeaderIndex(lines) == 1 + HeaderIndex(rest);
      SanitizedInsert(rest, line);
      InsertedCons(first, rest, line);
      SanitizedCons(first, rest);
      SanitizedCons(first, InsertedLines(rest, line));
      if !IsEmptyJunkLine(first) {
        InsertedCons(first, SanitizedLines(rest), line);
      }
    }
  }

  lemma {:induction false} SanitizedNoHeader(lines: seq<string>)
    requires lines != [] && HeaderIndex(lines) == |lines|
    ensures HeaderIndex(SanitizedLines(lines)) == |SanitizedLines(lines)|
  {
    assert !IsHeaderLine(lines[0]);
    if |lines| == 1 {
      EmptyIsNoHeader();
      assert SanitizedLines(lines)[1..] == [];
    } else {
      var first, rest := lines[0], lines[1..];
      assert lines == [first] + rest;
      SanitizedNoHeader(rest);
      SanitizedCons(first, rest);
      if !IsEmptyJunkLine(first) {
        assert SanitizedLines(lines)[1..] == SanitizedLines(rest);
      }
    }
  }

  lemma EmptyIsNoHeader()
    ensures !IsHeaderLine("")
  {
    assert TrimSpace("") == "";
  }

  lemma SanitizedInsertFront(lines: seq<string>, line: string)
    requires lines != [] && HeaderIndex(lines) == |lines| && !IsEmptyJunkLine(line)
    ensures SanitizedLines(InsertedLines(lines, line)) == InsertedLines(SanitizedLines(lines), line)
  {
    var header := "[Interface]";
    SanitizedNoHeader(lines);
    ExactHeader();
    HeaderIsNoJunk(header, "");
    SanitizedTwoCons(header, line, lines);
  }

  lemma {:induction false} SanitizedValue(lines: seq<string>, inside: bool, want: string)
    requires lines != [] && !IsJunkKey(want)
    ensures ValueIn(SanitizedLines(lines), inside, want) == ValueIn(lines, inside, want)
    decreases |lines|
  {
    var first := lines[0];
    EmptyLine();
    JunkLineIs(first);
    if |lines| == 1 {
      var kept := if IsEmptyJunkLine(first) then "" else first;
      OneValue(kept, inside, want);
      OneValue(first, inside, want);
      assert lines == [first];
    } else {
      var rest := lines[1..];
      assert lines == [first] + rest;
      SanitizedCons(first, rest);
      if !IsEmptyJunkLine(first) {
        assert SanitizedLines(lines)[1..] == SanitizedLines(rest);
      }
      match Classify(first) {
        case Nothing => SanitizedValue(rest, inside, want);
        case Header(text) => SanitizedValue(rest, IsInterfaceHeader(text), want);
        case Pair(_, _) => SanitizedValue(rest, inside, want);
      }
    }
  }

  lemma OneValue(line: string, inside: bool, want: string)
    ensures ValueIn([line], inside, want) ==
            if Classify(line).Pair? && inside && Classify(line).key == want then Classify(line).value else ""
  {
    assert [line][1..] == [];
  }

  /** Whether the key is taken over before or after sanitising makes no difference, for all texts. */
  lemma SanitizePreserveCommute(config: string, current: string)
    ensures Sanitize(Preserve(config, current)) == Preserve(Sanitize(config), current)
  {
    var v := InterfaceValue(current, PRIVATE_KEY);
    var lines := Lines(config);
    InterfaceValueFits(current, PRIVATE_KEY);
    PrivateKeyIsSecret();
    KeyNameIsNoJunk();
    LinesOfSanitized(config);
    SanitizedValue(lines, false, KEY_NAME);
    if !EqualFold(TrimSpace(v), REDACTED) && TrimSpace(v) != "" && InterfaceValue(config, PRIVATE_KEY) == "" {
      SanitizeInserted(config, v);
    }
  }

  lemma KeyNameIsNoJunk()
    ensures !IsJunkKey(KEY_NAME)
  {
  }

  lemma AssignIsNoJunk(v: string)
    ensures !IsEmptyJunkLine(Assign(PRIVATE_KEY, v))
  {
    PrivateKeyIsPlain();
    PrivateKeyKey();
    ClassifyAssign(PRIVATE_KEY, v);
    KeyNameIsNoJunk();
    JunkLineIs(Assign(PRIVATE_KEY, v));
  }

  lemma SanitizeInserted(config: string, v: string)
    requires NoNewline(v)
    ensures Sanitize(Inserted(config, PRIVATE_KEY, v)) == Inserted(Sanitize(config), PRIVATE_KEY, v)
  {
    var lines, line := Lines(config), Assign(PRIVATE_KEY, v);
    PrivateKeyIsPlain();
    AssignIsNoJunk(v);
    LinesOfInserted(config, PRIVATE_KEY, v);
    LinesOfSanitized(config);
    LinesOfSanitized(Inserted(config, PRIVATE_KEY, v));
    LinesOfInserted(Sanitize(config), PRIVATE_KEY, v);
    if HeaderIndex(lines) < |lines| {
      SanitizedInsert(lines, line);
    } else {
      SanitizedInsertFront(lines, line);
    }
    TextOfLines(Sanitize(Inserted(config, PRIVATE_KEY, v)));
    TextOfLines(Inserted(Sanitize(config), PRIVATE_KEY, v));
  }
}
