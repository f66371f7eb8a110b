/** Inserting the preserved private key: where it lands, and what it changes. */
module KeyInsertion {
  import opened Strings
  import opened ConfigText
  import opened Parser
  import opened Config
  import opened ConfigLaws

  const KEY_NAME := "privatekey"

  // ---------------------------------------------------------------- configs without a key

  predicate IsKeyPair(raw: string) {
    var line := Classify(raw);
    line.Pair? && line.key == KEY_NAME
  }

  ghost predicate NoKeyPair(lines: seq<string>) {
    forall i :: 0 <= i < |lines| ==> !IsKeyPair(lines[i])
  }

  /** No line of the text assigns a private key, in any section. */
  ghost predicate Keyless(config: string) {
    NoKeyPair(Lines(config))
  }

  /** The first header that ignores case is spelled exactly and ends in a newline, or there is none. */
  predicate HeaderFits(lines: seq<string>) {
    var i := HeaderIndex(lines);
    i == |lines| || (i + 1 < |lines| && TrimSpace(lines[i]) == "[Interface]")
  }

  /** A value as InterfaceValue can return it, other than nothing and the redaction mark. */
  predicate GoodKey(v: string) {
    v != "" && Trimmed(v) && NoNewline(v) && !EqualFold(v, REDACTED)
  }

  lemma {:induction false} NoKeyFound(lines: seq<string>, inside: bool)
    requires NoKeyPair(lines)
    ensures ValueIn(lines, inside, KEY_NAME) == ""
    decreases |lines|
  {
    if lines != [] {
      assert !IsKeyPair(lines[0]);
      NoKeyFound(lines[1..], inside);
      NoKeyFound(lines[1..], true);
      NoKeyFound(lines[1..], false);
    }
  }

  /** A first assignment inside the section is what the search returns. */
  lemma {:induction false} KeyFound(before: seq<string>, header: string, line: string, after: seq<string>, inside: bool)
    requires NoKeyPair(before)
    requires Classify(header).Header? && IsInterfaceHeader(Classify(header).text)
    requires IsKeyPair(line)
    ensures ValueIn(before + [header, line] + after, inside, KEY_NAME) == Classify(line).value
    decreases |before|
  {
    var all := before + [header, line] + after;
    if before == [] {
      assert all[0] == header && all[1..][0] == line;
      assert all[1..] == [line] + after;
    } else {
      assert all[0] == before[0] && !IsKeyPair(before[0]);
      assert all[1..] == before[1..] + [header, line] + after;
      KeyFound(before[1..], header, line, after, inside);
      KeyFound(before[1..], header, line, after, true);
      KeyFound(before[1..], header, line, after, false);
    }
  }

  // ---------------------------------------------------------------- the parse

  function WithKey(p: Parsed, v: string): Parsed {
    p.(privateKey := v)
  }

  function StateWithKey(st: State, v: string): State {
    st.(out := WithKey(st.out, v))
  }

  lemma KeyThroughPair(st: State, v: string, key: string, value: string)
    requires key != KEY_NAME
    ensures SetPair(StateWithKey(st, v), key, value) == StateWithKey(SetPair(st, key, value), v)
  {
  }

  lemma KeyThroughLine(st: State, v: string, line: Line)
    requires !(line.Pair? && line.key == KEY_NAME)
    ensures Meaning(StateWithKey(st, v), line) == StateWithKey(Meaning(st, line), v)
  {
    if line.Pair? {
      KeyThroughPair(st, v, line.key, line.value);
    }
  }

  /** Lines that assign no key carry any key through and touch nothing else differently. */
  lemma {:induction false} KeyThroughLines(st: State, v: string, lines: seq<string>)
    requires NoKeyPair(lines)
    ensures ParseLines(StateWithKey(st, v), lines) == StateWithKey(ParseLines(st, lines), v)
    decreases |lines|
  {
    if lines != [] {
      assert !IsKeyPair(lines[0]);
      KeyThroughLine(st, v, Classify(lines[0]));
      KeyThroughLines(ParseLine(st, lines[0]), v, lines[1..]);
    }
  }

  lemma KeyThroughFlush(st: State, v: string)
    ensures Flush(StateWithKey(st, v)).out == WithKey(Flush(st).out, v)
  {
  }

  /** Without a key assignment the parsed key is empty. */
  lemma NoKeyParsed(lines: seq<string>)
    requires NoKeyPair(lines)
    ensures Flush(ParseLines(START, lines)).out.privateKey == ""
  {
    KeyThroughLines(START, "", lines);
    assert StateWithKey(START, "") == START;
  }

  // ---------------------------------------------------------------- headers

  /** A line that is the header up to case reads as a header of the section it spells. */
  lemma HeaderSpelling(raw: string) returns (x: string)
    requires IsHeaderLine(raw)
    ensures TrimSpace(raw) == "[" + x + "]" && |x| == 9 && EqualFold(x, "Interface")
    ensures TrimBrackets(TrimSpace(raw)) == x
    ensures Classify(raw) == Header(TrimSpace(raw))
    ensures TrimSpace(raw) == "[Interface]" <==> x == "Interface"
  {
    var line := TrimSpace(raw);
    x := line[1..10];
    assert FoldChar(line[0]) == FoldChar('[') && FoldChar(line[10]) == FoldChar(']');
    forall i | 0 <= i < 9
      ensures FoldChar(x[i]) == FoldChar("Interface"[i])
    {
      assert FoldChar(line[i + 1]) == FoldChar("[Interface]"[i + 1]);
    }
    assert line == "[" + x + "]";
    assert FoldChar(x[0]) == FoldChar("Interface"[0]) && FoldChar(x[8]) == FoldChar("Interface"[8]);
    TrimBracketsOf(x);
    assert "[Interface]" == "[" + "Interface" + "]";
    assert "[Interface]"[1..10] == "Interface";
  }

  lemma LowerOfFolded(x: string)
    requires EqualFold(x, "Interface")
    ensures Trimmed(x) && Lower(x) == "interface"
  {
    forall i | 0 <= i < 9
      ensures Lower(x)[i] == "interface"[i] && !IsSpace(x[i])
    {
      assert FoldChar(x[i]) == FoldChar("Interface"[i]);
    }
  }

  lemma HeaderIsInterface(raw: string)
    requires IsHeaderLine(raw)
    ensures Classify(raw).Header? && IsInterfaceHeader(Classify(raw).text)
  {
    var x := HeaderSpelling(raw);
    LowerOfFolded(x);
    TrimmedStays(x);
  }

  lemma ExactHeader()
    ensures IsHeaderLine("[Interface]") && TrimSpace("[Interface]") == "[Interface]"
  {
    TrimmedStays("[Interface]");
  }

  lemma KeyLine(v: string)
    requires GoodKey(v)
    ensures Classify(Assign(PRIVATE_KEY, v)) == Pair(KEY_NAME, v)
  {
    PrivateKeyIsPlain();
    PrivateKeyKey();
    ClassifyAssign(PRIVATE_KEY, v);
    TrimmedStays(v);
  }

  // ---------------------------------------------------------------- what the inserted line means

  /** Parsing past the header: the key is read exactly when the header is spelled the parser's way. */
  lemma HeaderThenKey(st: State, header: string, v: string)
    requires IsHeaderLine(header) && GoodKey(v)
    ensures TrimSpace(header) == "[Interface]" ==>
              ParseLines(st, [header, Assign(PRIVATE_KEY, v)]) == StateWithKey(ParseLines(st, [header]), v)
    ensures TrimSpace(header) != "[Interface]" ==>
              ParseLines(st, [header, Assign(PRIVATE_KEY, v)]) == ParseLines(st, [header])
  {
    var line := Assign(PRIVATE_KEY, v);
    var x := HeaderSpelling(header);
    KeyLine(v);
    var s := ParseLine(st, header);
    assert s.section == x;
    TwoLines(st, header, line);
    KeyPairAt(s, v);
  }

  lemma KeyPairAt(s: State, v: string)
    requires |s.section| == 9
    ensures SetPair(s, KEY_NAME, v) == if s.section == "Interface" then StateWithKey(s, v) else s
  {
    assert s.section != "Peer";
  }

  /** Below an exact header the key is set and nothing else changes; below another spelling nothing changes. */
  lemma InsertedBelowParses(before: seq<string>, header: string, v: string, after: seq<string>)
    requires IsHeaderLine(header) && GoodKey(v) && NoKeyPair(after)
    ensures var whole := ParseLines(START, before + [header] + after);
            ParseLines(START, before + [header, Assign(PRIVATE_KEY, v)] + after) ==
            if TrimSpace(header) == "[Interface]" then StateWithKey(whole, v) else whole
  {
    var line := Assign(PRIVATE_KEY, v);
    var s := ParseLines(START, before);
    ParseInThree(before, [header], after);
    ParseInThree(before, [header, line], after);
    HeaderThenKey(s, header, v);
    KeyThroughLines(ParseLines(s, [header]), v, after);
  }

  lemma ParseInThree(a: seq<string>, b: seq<string>, c: seq<string>)
    ensures ParseLines(START, a + b + c) == ParseLines(ParseLines(ParseLines(START, a), b), c)
  {
    ParseLinesAppend(START, a + b, c);
    ParseLinesAppend(START, a, b);
  }

  lemma KeyStartsLine(before: string, after: string)
    requires TrimSpace(before) != ""
    ensures TrimLeft(before + ['='] + after) != ""
    ensures TrimLeft(before + ['='] + after)[0] == TrimSpace(before)[0]
  {
    var r := TrimRightSplits(TrimLeft(before));
    assert before + ['='] + after == before + (['='] + after);
    TrimLeftBefore(before, ['='] + after);
  }

  /** A line that starts with a bracket assigns no key, whatever follows. */
  lemma BracketIsNoKey(raw: string)
    requires TrimLeft(raw) != "" && TrimLeft(raw)[0] == '['
    ensures !IsKeyPair(raw)
  {
    if IsKeyPair(raw) {
      PairHasCut(raw);
      var c := Cut(raw, '=');
      LowerStarts(TrimSpace(c.before));
      KeyStartsLine(c.before, c.after);
    }
  }

  lemma LowerStarts(k: string)
    requires Lower(k) == KEY_NAME
    ensures k != "" && k[0] != '['
  {
    assert Lower(k)[0] == LowerChar(k[0]) == 'p';
  }
}
