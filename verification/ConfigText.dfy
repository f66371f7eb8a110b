/** Lines of an interface config: what a line means, and texts as sequences of lines. */
module ConfigText {
  import opened Strings

  // ---------------------------------------------------------------- one line

  /** A blank line, comment or line without '=' says nothing. */
  datatype Line =
    | Nothing
    | Header(text: string)
    | Pair(key: string, value: string)

  /** Keys are compared in lower case. */
  function Classify(raw: string): Line {
    var line := TrimSpace(raw);
    if line == "" || line[0] == '#' then Nothing
    else if line[0] == '[' && line[|line| - 1] == ']' then Header(line)
    else
      var c := Cut(line, '=');
      if !c.found then Nothing else Pair(Lower(TrimSpace(c.before)), TrimSpace(c.after))
  }

  predicate IsBracket(c: char) {
    c == '[' || c == ']'
  }

  function TrimBracketsLeft(s: string): string {
    if s != "" && IsBracket(s[0]) then TrimBracketsLeft(s[1..]) else s
  }

  function TrimBracketsRight(s: string): string {
    if s != "" && IsBracket(s[|s| - 1]) then TrimBracketsRight(s[..|s| - 1]) else s
  }

  /** strings.Trim(s, "[]"). */
  function TrimBrackets(s: string): string {
    TrimBracketsRight(TrimBracketsLeft(s))
  }

  lemma TrimBracketsOf(x: string)
    requires x != "" && !IsBracket(x[0]) && !IsBracket(x[|x| - 1])
    ensures TrimBrackets("[" + x + "]") == x
  {
    var line := "[" + x + "]";
    assert line[1..] == x + "]";
    assert (x + "]")[0] == x[0];
    assert TrimBracketsLeft(line) == TrimBracketsLeft(x + "]") == x + "]";
    assert (x + "]")[..|x + "]"| - 1] == x;
    assert TrimBracketsRight(x) == x;
  }

  /** Cutting a line at its '=' before or after trimming it gives the same two trimmed sides. */
  lemma CutTrimmed(raw: string)
    requires '=' in raw
    ensures Cut(TrimSpace(raw), '=') ==
            CutResult(TrimLeft(Cut(raw, '=').before), TrimRight(Cut(raw, '=').after), true)
    ensures TrimSpace(Cut(TrimSpace(raw), '=').before) == TrimSpace(Cut(raw, '=').before)
    ensures TrimSpace(Cut(TrimSpace(raw), '=').after) == TrimSpace(Cut(raw, '=').after)
  {
    var c := Cut(raw, '=');
    TrimAround(c.before, '=', c.after);
    var l := TrimLeftSplits(c.before);
    assert '=' !in TrimLeft(c.before) by {
      assert forall i :: 0 <= i < |TrimLeft(c.before)| ==> TrimLeft(c.before)[i] == c.before[|l| + i];
    }
    CutIs(TrimLeft(c.before), '=', TrimRight(c.after));
    TrimTwice(c.before);
    TrimTwice(c.after);
  }

  /** A line with '=' whose key starts neither a comment nor a header is a pair of the trimmed sides. */
  lemma ClassifyAssignment(before: string, after: string)
    requires '=' !in before
    requires TrimLeft(before) == "" || (TrimLeft(before)[0] != '#' && TrimLeft(before)[0] != '[')
    ensures Classify(before + ['='] + after) == Pair(Lower(TrimSpace(before)), TrimSpace(after))
  {
    var raw := before + ['='] + after;
    assert raw[|before|] == '=';
    CutIs(before, '=', after);
    CutTrimmed(raw);
    TrimAround(before, '=', after);
  }

  /** A key as the program writes it. */
  predicate PlainKey(k: string) {
    k != "" && Trimmed(k) && '=' !in k && '\n' !in k && k[0] != '#' && k[0] != '['
  }

  lemma PrivateKeyKey()
    ensures PlainKey("PrivateKey") && Lower("PrivateKey") == "privatekey"
  {
    assert LowerChar('P') == 'p' && LowerChar('K') == 'k';
    assert Lower("PrivateKey") == ['p', 'r', 'i', 'v', 'a', 't', 'e', 'k', 'e', 'y'];
  }

  /** A "key = value" line. */
  function Assign(k: string, v: string): string {
    k + " = " + v
  }

  lemma ClassifyAssign(k: string, v: string)
    requires PlainKey(k)
    ensures Classify(Assign(k, v)) == Pair(Lower(k), TrimSpace(v))
  {
    assert Assign(k, v) == (k + " ") + ['='] + (" " + v);
    assert k + " " == "" + k + " " && " " + v == " " + v + "";
    TrimIs("", k, " ");
    TrimPad(" ", v, "");
    ClassifyAssignment(k + " ", " " + v);
  }

  // ---------------------------------------------------------------- texts

  predicate NoNewline(s: string) {
    '\n' !in s
  }

  ghost predicate OneLiners(lines: seq<string>) {
    forall i :: 0 <= i < |lines| ==> NoNewline(lines[i])
  }

  function Lines(s: string): seq<string> {
    Split(s, '\n')
  }

  function Text(lines: seq<string>): string {
    Join(lines, "\n")
  }

  /** Lines each ended by a newline, as a builder writes them. */
  function Unlines(lines: seq<string>): string {
    if lines == [] then "" else lines[0] + "\n" + Unlines(lines[1..])
  }

  lemma {:induction false} LinesOfUnlines(lines: seq<string>, rest: string)
    requires forall i :: 0 <= i < |lines| ==> NoNewline(lines[i])
    ensures Lines(Unlines(lines) + rest) == lines + Lines(rest)
  {
    if lines == [] {
      assert Unlines(lines) + rest == rest;
    } else {
      var tail := Unlines(lines[1..]) + rest;
      calc {
        Lines(Unlines(lines) + rest);
        { assert Unlines(lines) + rest == lines[0] + ['\n'] + tail; }
        Lines(lines[0] + ['\n'] + tail);
        { SplitCons(lines[0], '\n', tail); }
        [lines[0]] + Lines(tail);
        { LinesOfUnlines(lines[1..], rest); }
        [lines[0]] + (lines[1..] + Lines(rest));
        lines + Lines(rest);
      }
    }
  }

  lemma {:induction false} UnlinesAppend(a: seq<string>, b: seq<string>)
    ensures Unlines(a + b) == Unlines(a) + Unlines(b)
  {
    if a == [] {
      assert a + b == b;
    } else {
      assert (a + b)[1..] == a[1..] + b;
      UnlinesAppend(a[1..], b);
    }
  }

  lemma TextOfLines(s: string)
    ensures Text(Lines(s)) == s
    ensures Lines(s) != [] && forall i :: 0 <= i < |Lines(s)| ==> NoNewline(Lines(s)[i])
  {
    JoinSplit(s, '\n');
    forall i | 0 <= i < |Lines(s)|
      ensures NoNewline(Lines(s)[i])
    {
      SplitParts(s, '\n', i);
    }
  }

  /** A text and a final newline, written line by line. */
  lemma UnlinesOfLines(s: string)
    ensures Unlines(Lines(s)) == s + "\n"
  {
    var lines := Lines(s);
    var before, last := lines[..|lines| - 1], lines[|lines| - 1];
    TextOfLines(s);
    TextIsUnlines(lines);
    assert lines == before + [last];
    UnlinesAppend(before, [last]);
    assert [last][1..] == [];
    assert Unlines([last]) == last + "\n" + "";
  }

  lemma LinesOfText(lines: seq<string>)
    requires lines != [] && forall i :: 0 <= i < |lines| ==> NoNewline(lines[i])
    ensures Lines(Text(lines)) == lines
  {
    SplitJoin(lines, '\n');
  }

  /** All lines but the last end in a newline. */
  lemma {:induction false} TextIsUnlines(lines: seq<string>)
    requires lines != []
    ensures Text(lines) == Unlines(lines[..|lines| - 1]) + lines[|lines| - 1]
  {
    if |lines| > 1 {
      TextIsUnlines(lines[1..]);
      assert lines[..|lines| - 1][1..] == lines[1..][..|lines| - 2];
    }
  }

  // ---------------------------------------------------------------- lines written with newlines in them

  lemma Assoc<T>(a: seq<T>, b: seq<T>, c: seq<T>)
    ensures a + b + c == a + (b + c)
  {
  }

  lemma LinesOfOne(b: string)
    requires NoNewline(b)
    ensures Lines(b) == [b]
  {
  }

  /** The lines a reader finds when these are written: one that holds newlines makes several. */
  function Flat(lines: seq<string>): seq<string> {
    if lines == [] then [] else Lines(lines[0]) + Flat(lines[1..])
  }

  lemma {:induction false} FlatAppend(a: seq<string>, b: seq<string>)
    ensures Flat(a + b) == Flat(a) + Flat(b)
  {
    if a == [] {
      assert a + b == b;
    } else {
      assert (a + b)[1..] == a[1..] + b;
      FlatAppend(a[1..], b);
      Assoc(Lines(a[0]), Flat(a[1..]), Flat(b));
    }
  }

  lemma {:induction false} FlatOneLiners(lines: seq<string>)
    requires OneLiners(lines)
    ensures Flat(lines) == lines
  {
    if lines != [] {
      LinesOfOne(lines[0]);
      FlatOneLiners(lines[1..]);
    }
  }

  lemma {:induction false} FlatIsOneLiners(lines: seq<string>)
    ensures OneLiners(Flat(lines))
  {
    if lines != [] {
      TextOfLines(lines[0]);
      FlatIsOneLiners(lines[1..]);
    }
  }

  lemma {:induction false} UnlinesOfFlat(lines: seq<string>)
    ensures Unlines(Flat(lines)) == Unlines(lines)
  {
    if lines != [] {
      UnlinesAppend(Lines(lines[0]), Flat(lines[1..]));
      UnlinesOfLines(lines[0]);
      UnlinesOfFlat(lines[1..]);
    }
  }

  /** The lines of a written text, whatever the pieces hold. */
  lemma LinesOfWritten(lines: seq<string>)
    ensures Lines(Unlines(lines)) == Flat(lines) + [""]
  {
    UnlinesOfFlat(lines);
    FlatIsOneLiners(lines);
    LinesOfUnlines(Flat(lines), "");
    assert Unlines(lines) + "" == Unlines(lines);
    LinesOfOne("");
  }
}
