/** Transformations of config text: reading and inserting an interface value, redacting, sanitising. */
module Config {
  import opened Strings
  import opened ConfigText

  const PRIVATE_KEY := "PrivateKey"
  const REDACTED := "(redacted)"

  // ---------------------------------------------------------------- reading a value

  predicate IsInterfaceHeader(text: string) {
    Lower(TrimSpace(TrimBrackets(text))) == "interface"
  }

  /** The first value of the wanted key while inside an [Interface] section. */
  function ValueIn(lines: seq<string>, inside: bool, want: string): string {
    if lines == [] then ""
    else
      match Classify(lines[0])
      case Nothing => ValueIn(lines[1..], inside, want)
      case Header(text) => ValueIn(lines[1..], IsInterfaceHeader(text), want)
      case Pair(key, value) => if inside && key == want then value else ValueIn(lines[1..], inside, want)
  }

  function InterfaceValue(config: string, key: string): string {
    ValueIn(Lines(config), false, Lower(TrimSpace(key)))
  }

  lemma ValueInStep(lines: seq<string>, i: nat, inside: bool, want: string)
    requires i < |lines|
    ensures ValueIn(lines[i..], inside, want) ==
            match Classify(lines[i])
            case Nothing => ValueIn(lines[i + 1..], inside, want)
            case Header(text) => ValueIn(lines[i + 1..], IsInterfaceHeader(text), want)
            case Pair(key, value) => if inside && key == want then value else ValueIn(lines[i + 1..], inside, want)
  {
    assert lines[i..][1..] == lines[i + 1..];
  }

  /** The search loop. */
  method FindInterfaceValue(config: string, key: string) returns (r: string)
    ensures r == InterfaceValue(config, key)
  {
    var section := "";
    var want := Lower(TrimSpace(key));
    var lines := Lines(config);
    for i := 0 to |lines|
      invariant ValueIn(lines[i..], section == "interface", want) == InterfaceValue(config, key)
    {
      ValueInStep(lines, i, section == "interface", want);
      var line := TrimSpace(lines[i]);
      if line == "" || line[0] == '#' {
        continue;
      }
      if line[0] == '[' && line[|line| - 1] == ']' {
        section := Lower(TrimSpace(TrimBrackets(line)));
        continue;
      }
      if section != "interface" {
        continue;
      }
      var c := Cut(line, '=');
      if !c.found {
        continue;
      }
      if Lower(TrimSpace(c.before)) == want {
        return TrimSpace(c.after);
      }
    }
    r := "";
  }

  // ---------------------------------------------------------------- inserting a value

  /** strings.SplitAfter on newlines: the pieces keep their newline. */
  function Pieces(lines: seq<string>): (r: seq<string>)
    ensures |r| == |lines|
  {
    if lines == [] then []
    else if |lines| == 1 then lines
    else [lines[0] + "\n"] + Pieces(lines[1..])
  }

  function Concat(pieces: seq<string>): string {
    if pieces == [] then "" else pieces[0] + Concat(pieces[1..])
  }

  predicate IsHeaderLine(line: string) {
    EqualFold(TrimSpace(line), "[Interface]")
  }

  /** The first line that is the [Interface] header, or the number of lines. */
  function HeaderIndex(lines: seq<string>): (i: nat)
    ensures i <= |lines|
    ensures i < |lines| ==> IsHeaderLine(lines[i])
    ensures forall k :: 0 <= k < i ==> !IsHeaderLine(lines[k])
  {
    if lines == [] then 0
    else if IsHeaderLine(lines[0]) then 0
    else 1 + HeaderIndex(lines[1..])
  }

  /** The new line goes right after the header piece, or with a header of its own in front of everything. */
  function InsertedAt(config: string, pieces: seq<string>, i: nat, line: string): string {
    if i < |pieces| then Concat(pieces[..i + 1]) + (line + "\n") + Concat(pieces[i + 1..])
    else "[Interface]\n" + (line + "\n") + config
  }

  function Inserted(config: string, key: string, value: string): string {
    var pieces := Pieces(Lines(config));
    InsertedAt(config, pieces, HeaderIndex(pieces), Assign(key, value))
  }

  function WithInterfaceValue(config: string, key: string, value: string): string {
    if TrimSpace(value) == "" || InterfaceValue(config, key) != "" then config else Inserted(config, key, value)
  }

  /** The inserting loop. */
  method InsertInterfaceValue(config: string, key: string, value: string) returns (r: string)
    ensures r == WithInterfaceValue(config, key, value)
  {
    var present := FindInterfaceValue(config, key);
    if TrimSpace(value) == "" || present != "" {
      return config;
    }
    r := InsertBelowHeader(config, Pieces(Lines(config)), Assign(key, value));
  }

  method InsertBelowHeader(config: string, pieces: seq<string>, line: string) returns (r: string)
    ensures r == InsertedAt(config, pieces, HeaderIndex(pieces), line)
  {
    ghost var found := HeaderIndex(pieces);
    for i := 0 to |pieces|
      invariant i <= found
    {
      var here := IsHeaderLine(pieces[i]);
      if here {
        return Concat(pieces[..i + 1]) + (line + "\n") + Concat(pieces[i + 1..]);
      }
    }
    r := "[Interface]\n" + (line + "\n") + config;
  }

  /** A missing private key is taken from the current config, unless that one is redacted. */
  function Preserve(config: string, current: string): string {
    var value := InterfaceValue(current, PRIVATE_KEY);
    if EqualFold(TrimSpace(value), REDACTED) then config else WithInterfaceValue(config, PRIVATE_KEY, value)
  }

  // ---------------------------------------------------------------- redacting

  function TrimBlanksRight(s: string): string {
    if s != "" && (s[|s| - 1] == ' ' || s[|s| - 1] == '\t') then TrimBlanksRight(s[..|s| - 1]) else s
  }

  predicate IsSecretKey(k: string) {
    k == "privatekey" || k == "presharedkey" || k == "headerprotectionkey"
  }

  predicate IsSecretLine(line: string) {
    var c := Cut(line, '=');
    c.found && IsSecretKey(Lower(TrimSpace(c.before)))
  }

  function HiddenValue(key: string): string {
    TrimBlanksRight(key) + " = " + REDACTED
  }

  function RedactLine(line: string): string {
    if IsSecretLine(line) then HiddenValue(Cut(line, '=').before) else line
  }

  function RedactLines(lines: seq<string>): (r: seq<string>)
    ensures |r| == |lines|
  {
    if lines == [] then [] else [RedactLine(lines[0])] + RedactLines(lines[1..])
  }

  lemma {:induction false} RedactAt(lines: seq<string>, i: nat)
    requires i < |lines|
    ensures RedactLines(lines)[i] == RedactLine(lines[i])
  {
    if i > 0 {
      RedactAt(lines[1..], i - 1);
    }
  }

  function Redact(conf: string): string {
    Text(RedactLines(Lines(conf)))
  }

  lemma OneMoreDone(done: seq<string>, todo: seq<string>, i: nat)
    requires |done| == |todo| && i < |done|
    ensures (done[..i] + todo[i..])[i] == todo[i]
    ensures (done[..i] + todo[i..])[i := done[i]] == done[..i + 1] + todo[i + 1..]
  {
  }

  method RedactOneLine(line: string) returns (r: string)
    ensures r == RedactLine(line)
  {
    r := line;
    if IsSecretLine(line) {
      var key := Cut(line, '=').before;
      r := HiddenValue(key);
    }
  }

  /** The redacting loop rewrites the lines in place. */
  method RedactConfigSecrets(conf: string) returns (r: string)
    ensures r == Redact(conf)
  {
    var split := Lines(conf);
    var lines := new string[|split|](i requires 0 <= i < |split| => split[i]);
    ghost var goal := RedactLines(split);
    assert lines[..] == goal[..0] + split[0..];
    for i := 0 to lines.Length
      invariant lines[..] == goal[..i] + split[i..]
    {
      OneMoreDone(goal, split, i);
      assert lines[i] == lines[..][i];
      var line := RedactOneLine(lines[i]);
      RedactAt(split, i);
      ghost var before := lines[..];
      lines[i] := line;
      assert lines[..] == before[i := line];
    }
    assert lines[..] == goal;
    r := Text(lines[..]);
  }

  // ---------------------------------------------------------------- sanitising

  predicate IsJunkKey(k: string) {
    k == "i1" || k == "i2" || k == "i3" || k == "i4" || k == "i5"
  }

  /** An optional special-junk key without a value. */
  predicate IsEmptyJunkLine(raw: string) {
    var line := TrimSpace(raw);
    && line != "" && line[0] != '#'
    && var c := Cut(line, '=');
       c.found && IsJunkKey(Lower(TrimSpace(c.before))) && TrimSpace(c.after) == ""
  }

  function Kept(pieces: seq<string>): seq<string> {
    if pieces == [] then []
    else (if IsEmptyJunkLine(pieces[0]) then [] else [pieces[0]]) + Kept(pieces[1..])
  }

  function Sanitize(config: string): string {
    Concat(Kept(Pieces(Lines(config))))
  }

  lemma KeptStep(pieces: seq<string>, i: nat)
    requires i < |pieces|
    ensures IsEmptyJunkLine(pieces[i]) ==> Kept(pieces[i..]) == Kept(pieces[i + 1..])
    ensures !IsEmptyJunkLine(pieces[i]) ==> Concat(Kept(pieces[i..])) == pieces[i] + Concat(Kept(pieces[i + 1..]))
  {
    var rest := Kept(pieces[i + 1..]);
    assert pieces[i..][1..] == pieces[i + 1..];
    if !IsEmptyJunkLine(pieces[i]) {
      assert Kept(pieces[i..]) == [pieces[i]] + rest;
      assert ([pieces[i]] + rest)[1..] == rest;
    }
  }

  /** The sanitising loop. */
  method SanitizeSyncConf(config: string) returns (b: string)
    ensures b == Sanitize(config)
  {
    b := "";
    var pieces := Pieces(Lines(config));
    for i := 0 to |pieces|
      invariant b + Concat(Kept(pieces[i..])) == Sanitize(config)
    {
      KeptStep(pieces, i);
      if IsEmptyJunkLine(pieces[i]) {
        continue;
      }
      assert b + (pieces[i] + Concat(Kept(pieces[i + 1..]))) == (b + pieces[i]) + Concat(Kept(pieces[i + 1..]));
      b := b + pieces[i];
    }
    assert pieces[|pieces|..] == [];
  }
}
