/** The in-memory executor's config parser. */
module Parser {
  import opened Strings
  import opened Numerals
  import opened ConfigText

  datatype PeerSpec = PeerSpec(
    publicKey: string, presharedKey: string, allowedIps: seq<string>, endpoint: string, keepalive: int)

  datatype Parsed = Parsed(privateKey: string, listenPort: int, peers: seq<PeerSpec>)

  const NO_PEER := PeerSpec("", "", [], "", 0)

  /** The parser between two lines: the section, the peer being read, and what is done. */
  datatype State = State(section: string, cur: PeerSpec, out: Parsed)

  const START := State("", NO_PEER, Parsed("", 0, []))

  // ---------------------------------------------------------------- comma lists

  function NonEmptyTrimmed(parts: seq<string>): seq<string> {
    if parts == [] then []
    else
      var p := TrimSpace(parts[0]);
      (if p != "" then [p] else []) + NonEmptyTrimmed(parts[1..])
  }

  function SplitCSV(s: string): seq<string> {
    NonEmptyTrimmed(Split(s, ','))
  }

  method SplitCSVLoop(s: string) returns (out: seq<string>)
    ensures out == SplitCSV(s)
  {
    var parts := Split(s, ',');
    out := [];
    for i := 0 to |parts|
      invariant out + NonEmptyTrimmed(parts[i..]) == SplitCSV(s)
    {
      var p := TrimSpace(parts[i]);
      assert parts[i..][1..] == parts[i + 1..];
      if p != "" {
        out := out + [p];
      }
    }
    assert parts[|parts|..] == [];
  }

  // ---------------------------------------------------------------- one line

  function Flush(st: State): State {
    st.(cur := NO_PEER,
        out := if st.section == "Peer" && st.cur.publicKey != ""
               then st.out.(peers := st.out.peers + [st.cur]) else st.out)
  }

  function SetPair(st: State, key: string, value: string): State {
    if st.section == "Interface" then
      if key == "privatekey" then st.(out := st.out.(privateKey := value))
      else if key == "listenport" then st.(out := st.out.(listenPort := ScanFrom(0, value)))
      else st
    else if st.section == "Peer" then
      if key == "publickey" then st.(cur := st.cur.(publicKey := value))
      else if key == "presharedkey" then st.(cur := st.cur.(presharedKey := value))
      else if key == "allowedips" then st.(cur := st.cur.(allowedIps := SplitCSV(value)))
      else if key == "endpoint" then st.(cur := st.cur.(endpoint := value))
      else if key == "persistentkeepalive" then st.(cur := st.cur.(keepalive := ScanFrom(0, value)))
      else st
    else st
  }

  function Meaning(st: State, line: Line): State {
    match line
    case Nothing => st
    case Header(text) => Flush(st).(section := TrimBrackets(text))
    case Pair(key, value) => SetPair(st, key, value)
  }

  function ParseLine(st: State, raw: string): State {
    Meaning(st, Classify(raw))
  }

  function ParseLines(st: State, lines: seq<string>): State
    decreases |lines|
  {
    if lines == [] then st else ParseLines(ParseLine(st, lines[0]), lines[1..])
  }

  function Parse(s: string): Parsed {
    Flush(ParseLines(START, Lines(s))).out
  }

  lemma {:induction false} ParseLinesAppend(st: State, a: seq<string>, b: seq<string>)
    ensures ParseLines(st, a + b) == ParseLines(ParseLines(st, a), b)
    decreases |a|
  {
    if a == [] {
      assert a + b == b;
    } else {
      assert (a + b)[1..] == a[1..] + b;
      ParseLinesAppend(ParseLine(st, a[0]), a[1..], b);
    }
  }

  lemma TwoLines(st: State, a: string, b: string)
    ensures ParseLines(st, [a]) == ParseLine(st, a)
    ensures ParseLines(st, [a, b]) == ParseLine(ParseLine(st, a), b)
  {
    assert [a][1..] == [] && [b][1..] == [] && [a, b][1..] == [b];
    var s := ParseLine(st, a);
    assert ParseLines(s, [b]) == ParseLines(ParseLine(s, b), []);
  }

  /** The parsing loop. */
  method ParseRenderedConfig(s: string) returns (pc: Parsed)
    ensures pc == Parse(s)
  {
    var st := START;
    var lines := Lines(s);
    for i := 0 to |lines|
      invariant ParseLines(st, lines[i..]) == ParseLines(START, lines)
    {
      assert lines[i..][1..] == lines[i + 1..];
      var line := TrimSpace(lines[i]);
      if line == "" || line[0] == '#' {
        continue;
      }
      if line[0] == '[' && line[|line| - 1] == ']' {
        st := Flush(st).(section := TrimBrackets(line));
        continue;
      }
      var c := Cut(line, '=');
      if c.found {
        st := SetPair(st, Lower(TrimSpace(c.before)), TrimSpace(c.after));
      }
    }
    assert lines[|lines|..] == [];
    pc := Flush(st).out;
  }

  // ---------------------------------------------------------------- which lines matter

  /** Lines that mean nothing, or pairs whose key is not read in any section. */
  predicate Ignored(raw: string) {
    var line := Classify(raw);
    || line.Nothing?
    || (line.Pair? && line.key !in {"privatekey", "listenport", "publickey", "presharedkey", "allowedips", "endpoint",
                                    "persistentkeepalive"})
  }

  lemma IgnoredLine(st: State, raw: string)
    requires Ignored(raw)
    ensures ParseLine(st, raw) == st
  {
  }

  ghost predicate AllIgnored(lines: seq<string>) {
    forall i :: 0 <= i < |lines| ==> Ignored(lines[i])
  }

  lemma {:induction false} IgnoredLines(st: State, lines: seq<string>)
    requires AllIgnored(lines)
    ensures ParseLines(st, lines) == st
    decreases |lines|
  {
    if lines != [] {
      IgnoredLine(st, lines[0]);
      IgnoredLines(st, lines[1..]);
    }
  }

  /** Every line of the text after the first is one the parser ignores, as in any text of one line. */
  ghost predicate Inert(text: string) {
    forall i :: 0 < i < |Lines(text)| ==> Ignored(Lines(text)[i])
  }

  lemma OneLineIsInert(text: string)
    requires NoNewline(text)
    ensures Inert(text)
  {
    assert Lines(text) == [text];
  }
}
