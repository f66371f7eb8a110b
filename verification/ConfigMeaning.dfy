/** The parsed meaning of redacted, sanitised and key-preserving configs. */
module ConfigMeaning {
  import opened ConfigText
  import opened Parser
  import opened Config
  import opened ConfigLines
  import opened ConfigLaws

  // ---------------------------------------------------------------- redacting hides secrets and nothing else

  /** The hidden form of a value: the mark, or nothing where there was nothing. */
  predicate Hides(value: string, shown: string) {
    shown == REDACTED || (shown == "" && value == "")
  }

  predicate HidesPeer(p: PeerSpec, q: PeerSpec) {
    Hides(p.presharedKey, q.presharedKey) && q == p.(presharedKey := q.presharedKey)
  }

  ghost predicate HidesParsed(p: Parsed, q: Parsed) {
    && Hides(p.privateKey, q.privateKey)
    && q.listenPort == p.listenPort
    && |q.peers| == |p.peers|
    && forall i :: 0 <= i < |p.peers| ==> HidesPeer(p.peers[i], q.peers[i])
  }

  ghost predicate HidesState(s: State, t: State) {
    s.section == t.section && HidesPeer(s.cur, t.cur) && HidesParsed(s.out, t.out)
  }

  lemma HidesFlush(s: State, t: State)
    requires HidesState(s, t)
    ensures HidesState(Flush(s), Flush(t))
  {
  }

  lemma HidesPlainPair(s: State, t: State, key: string, value: string)
    requires HidesState(s, t) && !IsSecretKey(key)
    ensures HidesState(SetPair(s, key, value), SetPair(t, key, value))
  {
  }

  lemma HidesSecretPair(s: State, t: State, key: string, value: string)
    requires HidesState(s, t) && IsSecretKey(key)
    ensures HidesState(SetPair(s, key, value), SetPair(t, key, REDACTED))
  {
  }

  lemma HidesLine(s: State, t: State, raw: string)
    requires HidesState(s, t)
    ensures HidesState(ParseLine(s, raw), ParseLine(t, RedactLine(raw)))
  {
    SecretLineIs(raw);
    if IsSecretLine(raw) {
      RedactedSecret(raw);
      HidesSecretPair(s, t, Classify(raw).key, Classify(raw).value);
    } else {
      match Classify(raw) {
        case Nothing =>
        case Header(_) => HidesFlush(s, t);
        case Pair(key, value) => HidesPlainPair(s, t, key, value);
      }
    }
  }

  lemma {:induction false} HidesLines(s: State, t: State, lines: seq<string>)
    requires HidesState(s, t)
    ensures HidesState(ParseLines(s, lines), ParseLines(t, RedactLines(lines)))
    decreases |lines|
  {
    if lines != [] {
      HidesLine(s, t, lines[0]);
      assert RedactLines(lines)[1..] == RedactLines(lines[1..]);
      HidesLines(ParseLine(s, lines[0]), ParseLine(t, RedactLine(lines[0])), lines[1..]);
    }
  }

  /** Every parsed secret of a redacted config is hidden; port, peers and their other fields stay. */
  lemma RedactKeepsTheRest(conf: string)
    ensures HidesParsed(Parse(conf), Parse(Redact(conf)))
  {
    LinesOfRedacted(conf);
    HidesLines(START, START, Lines(conf));
    HidesFlush(ParseLines(START, Lines(conf)), ParseLines(START, Lines(Redact(conf))));
  }

  // ---------------------------------------------------------------- sanitising changes no meaning

  lemma JunkIsIgnored(raw: string)
    requires IsEmptyJunkLine(raw)
    ensures Ignored(raw)
  {
    JunkLineIs(raw);
    JunkKeyStarts(Classify(raw).key);
  }

  lemma EmptyLine()
    ensures Classify("") == Nothing && !IsEmptyJunkLine("")
  {
  }

  lemma {:induction false} SanitizedMeaning(st: State, lines: seq<string>)
    requires lines != []
    ensures ParseLines(st, SanitizedLines(lines)) == ParseLines(st, lines)
    decreases |lines|
  {
    EmptyLine();
    if IsEmptyJunkLine(lines[0]) {
      JunkIsIgnored(lines[0]);
      IgnoredLine(st, lines[0]);
    }
    if |lines| > 1 {
      SanitizedMeaning(ParseLine(st, lines[0]), lines[1..]);
      if !IsEmptyJunkLine(lines[0]) {
        assert SanitizedLines(lines)[1..] == SanitizedLines(lines[1..]);
      }
    }
  }

  lemma SanitizeKeepsMeaning(config: string)
    ensures Parse(Sanitize(config)) == Parse(config)
  {
    LinesOfSanitized(config);
    SanitizedMeaning(START, Lines(config));
  }

  lemma {:induction false} SanitizedTwice(lines: seq<string>)
    requires lines != []
    ensures SanitizedLines(SanitizedLines(lines)) == SanitizedLines(lines)
  {
    EmptyLine();
    if |lines| > 1 {
      SanitizedTwice(lines[1..]);
      if !IsEmptyJunkLine(lines[0]) {
        assert SanitizedLines(lines)[1..] == SanitizedLines(lines[1..]);
      }
    }
  }

  lemma SanitizeIdempotent(config: string)
    ensures Sanitize(Sanitize(config)) == Sanitize(config)
  {
    LinesOfSanitized(config);
    LinesOfSanitized(Sanitize(config));
    SanitizedTwice(Lines(config));
  }

  // ---------------------------------------------------------------- sanitising and redacting commute

  lemma RedactKeepsJunk(line: string)
    ensures IsEmptyJunkLine(RedactLine(line)) <==> IsEmptyJunkLine(line)
    ensures IsEmptyJunkLine(line) ==> RedactLine(line) == line
  {
    JunkLineIs(line);
    JunkLineIs(RedactLine(line));
    SecretLineIs(line);
    if IsEmptyJunkLine(line) {
      JunkKeyStarts(Classify(line).key);
    }
    if IsSecretLine(line) {
      RedactedSecret(line);
      SecretIsNoJunk(Classify(line).key);
    }
  }

  lemma SecretIsNoJunk(k: string)
    requires IsSecretKey(k)
    ensures !IsJunkKey(k)
  {
  }

  lemma RedactCons(line: string, rest: seq<string>)
    ensures RedactLines([line] + rest) == [RedactLine(line)] + RedactLines(rest)
  {
    assert ([line] + rest)[1..] == rest;
  }

  lemma RedactOne(line: string)
    ensures RedactLines([line]) == [RedactLine(line)]
    ensures RedactLine("") == ""
  {
    assert [line][1..] == [];
    assert !IsSecretLine("");
  }

  lemma {:induction false} RedactSanitizedLines(lines: seq<string>)
    requires lines != []
    ensures RedactLines(SanitizedLines(lines)) == SanitizedLines(RedactLines(lines))
  {
    var line := lines[0];
    RedactKeepsJunk(line);
    if |lines| == 1 {
      var kept := if IsEmptyJunkLine(line) then "" else line;
      RedactOne(kept);
      RedactOne(line);
      assert lines == [line];
    } else {
      var rest := lines[1..];
      RedactSanitizedLines(rest);
      assert lines == [line] + rest;
      RedactCons(line, rest);
      SanitizedCons(line, rest);
      SanitizedCons(RedactLine(line), RedactLines(rest));
      if !IsEmptyJunkLine(line) {
        RedactCons(line, SanitizedLines(rest));
      }
    }
  }

  lemma SanitizedCons(line: string, rest: seq<string>)
    requires rest != []
    ensures IsEmptyJunkLine(line) ==> SanitizedLines([line] + rest) == SanitizedLines(rest)
    ensures !IsEmptyJunkLine(line) ==> SanitizedLines([line] + rest) == [line] + SanitizedLines(rest)
  {
    assert ([line] + rest)[1..] == rest;
  }

  lemma RedactSanitizeCommute(config: string)
    ensures Redact(Sanitize(config)) == Sanitize(Redact(config))
  {
    LinesOfSanitized(config);
    LinesOfSanitized(Redact(config));
    LinesOfRedacted(config);
    RedactSanitizedLines(Lines(config));
  }
}
