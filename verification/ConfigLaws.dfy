/** What redacting, sanitising and preserving do to the meaning of a config, and how they commute. */
module ConfigLaws {
  import opened Strings
  import opened ConfigText
  import opened Config

  // ---------------------------------------------------------------- which lines are touched

  lemma SecretKeyStarts(k: string)
    requires IsSecretKey(k)
    ensures k != "" && (k[0] == 'p' || k[0] == 'h')
  {
  }

  lemma JunkKeyStarts(k: string)
    requires IsJunkKey(k)
    ensures k != "" && k[0] == 'i' && !IsSecretKey(k)
  {
  }

  /** A key that starts with a letter is on a line that is neither comment nor header. */
  lemma LetterKey(raw: string)
    requires '=' in raw
    requires var k := Lower(TrimSpace(Cut(raw, '=').before)); k != "" && (k[0] == 'p' || k[0] == 'h' || k[0] == 'i')
    ensures Classify(raw) == Pair(Lower(TrimSpace(Cut(raw, '=').before)), TrimSpace(Cut(raw, '=').after))
  {
    var c := Cut(raw, '=');
    var t := TrimLeft(c.before);
    var r := TrimRightSplits(t);
    assert t[0] == TrimSpace(c.before)[0];
    ClassifyAssignment(c.before, c.after);
  }

  lemma PairHasCut(raw: string)
    requires Classify(raw).Pair?
    ensures '=' in raw
    ensures Classify(raw) == Pair(Lower(TrimSpace(Cut(raw, '=').before)), TrimSpace(Cut(raw, '=').after))
  {
    var l, r := TrimSplits(raw);
    var line := TrimSpace(raw);
    assert '=' in line;
    var k :| 0 <= k < |line| && line[k] == '=';
    assert raw[|l| + k] == '=';
    CutTrimmed(raw);
  }

  /** Secret lines are exactly the pairs with a secret key. */
  lemma SecretLineIs(raw: string)
    ensures IsSecretLine(raw) <==> Classify(raw).Pair? && IsSecretKey(Classify(raw).key)
  {
    if IsSecretLine(raw) {
      SecretKeyStarts(Lower(TrimSpace(Cut(raw, '=').before)));
      LetterKey(raw);
    } else if Classify(raw).Pair? {
      PairHasCut(raw);
    }
  }

  /** Empty junk lines are exactly the pairs of a junk key with nothing. */
  lemma JunkLineIs(raw: string)
    ensures IsEmptyJunkLine(raw) <==> Classify(raw).Pair? && IsJunkKey(Classify(raw).key) && Classify(raw).value == ""
  {
    var line := TrimSpace(raw);
    if IsEmptyJunkLine(raw) {
      var c := Cut(line, '=');
      var k := Lower(TrimSpace(c.before));
      JunkKeyStarts(k);
      LetterKey(line);
      TrimTwiceOver(raw);
    }
  }

  lemma TrimTwiceOver(raw: string)
    ensures TrimSpace(TrimSpace(raw)) == TrimSpace(raw)
    ensures Classify(TrimSpace(raw)) == Classify(raw)
  {
    var l, r := TrimSplits(raw);
    TrimPad(l, TrimSpace(raw), r);
  }

  // ---------------------------------------------------------------- redacted lines

  lemma {:induction false} TrimBlanksSplits(s: string) returns (r: string)
    ensures s == TrimBlanksRight(s) + r && AllSpace(r)
  {
    if s != "" && (s[|s| - 1] == ' ' || s[|s| - 1] == '\t') {
      var r' := TrimBlanksSplits(s[..|s| - 1]);
      r := r' + [s[|s| - 1]];
    } else {
      r := "";
    }
  }

  lemma TrimBlanksFirst(s: string)
    ensures TrimSpace(TrimBlanksRight(s)) == TrimSpace(s)
    ensures TrimSpace(TrimBlanksRight(s) + " ") == TrimSpace(s)
    ensures forall c :: c !in s ==> c !in TrimBlanksRight(s)
  {
    var r := TrimBlanksSplits(s);
    var t := TrimBlanksRight(s);
    assert "" + t + r == s && "" + t + " " == t + " ";
    TrimPad("", t, r);
    TrimPad("", t, " ");
    forall c | c !in s
      ensures c !in t
    {
      assert forall i :: 0 <= i < |t| ==> s[i] == t[i];
    }
  }

  lemma TrimBlanksTwice(s: string)
    ensures TrimBlanksRight(TrimBlanksRight(s) + " ") == TrimBlanksRight(s)
  {
    var t := TrimBlanksRight(s);
    assert (t + " ")[..|t|] == t;
    TrimBlanksStop(s);
  }

  lemma {:induction false} TrimBlanksStop(s: string)
    ensures TrimBlanksRight(TrimBlanksRight(s)) == TrimBlanksRight(s)
  {
    if s != "" && (s[|s| - 1] == ' ' || s[|s| - 1] == '\t') {
      TrimBlanksStop(s[..|s| - 1]);
    }
  }

  lemma SpacedSign(key: string, value: string)
    ensures key + " = " + value == (key + " ") + ['='] + (" " + value)
  {
  }

  /** A redacted line cuts into the old key and the mark. */
  lemma RedactedCut(before: string)
    requires '=' !in before
    ensures Cut(HiddenValue(before), '=') ==
            CutResult(TrimBlanksRight(before) + " ", " " + REDACTED, true)
  {
    var t := TrimBlanksRight(before);
    TrimBlanksFirst(before);
    SpacedSign(t, REDACTED);
    CutIs(t + " ", '=', " " + REDACTED);
  }

  /** Redacting keeps the key of a secret line and hides its value. */
  lemma RedactedSecret(line: string)
    requires IsSecretLine(line)
    ensures IsSecretLine(RedactLine(line)) && RedactLine(RedactLine(line)) == RedactLine(line)
    ensures Classify(line).Pair? && Classify(RedactLine(line)) == Classify(line).(value := REDACTED)
  {
    var c := Cut(line, '=');
    var t := TrimBlanksRight(c.before);
    RedactedCut(c.before);
    TrimBlanksFirst(c.before);
    TrimBlanksTwice(c.before);
    SecretLineIs(line);
    PairHasCut(line);
    SecretLineIs(RedactLine(line));
    PairHasCut(RedactLine(line));
    RedactedIsTrimmed();
  }

  lemma RedactedIsTrimmed()
    ensures TrimSpace(REDACTED) == REDACTED && TrimSpace(" " + REDACTED) == REDACTED
    ensures EqualFold(TrimSpace(REDACTED), REDACTED) && NoNewline(REDACTED)
  {
    assert " " + REDACTED + "" == " " + REDACTED;
    assert "" + REDACTED + "" == REDACTED;
    TrimIs(" ", REDACTED, "");
    TrimIs("", REDACTED, "");
  }

  lemma RedactLineIdempotent(line: string)
    ensures RedactLine(RedactLine(line)) == RedactLine(line)
  {
    if IsSecretLine(line) {
      RedactedSecret(line);
    }
  }

  lemma RedactKeepsLine(line: string)
    requires NoNewline(line)
    ensures NoNewline(RedactLine(line))
  {
    if IsSecretLine(line) {
      var c := Cut(line, '=');
      TrimBlanksFirst(c.before);
      RedactedIsTrimmed();
      assert '\n' !in c.before by {
        assert forall i :: 0 <= i < |c.before| ==> line[i] == c.before[i];
      }
    }
  }

  lemma LinesOfRedacted(conf: string)
    ensures Lines(Redact(conf)) == RedactLines(Lines(conf))
  {
    var lines := Lines(conf);
    TextOfLines(conf);
    forall i | 0 <= i < |lines|
      ensures NoNewline(RedactLines(lines)[i])
    {
      RedactKeepsLine(lines[i]);
      RedactAt(lines, i);
    }
    LinesOfText(RedactLines(lines));
  }

  // ---------------------------------------------------------------- redacting twice, preserving from a redacted config

  lemma RedactIdempotent(conf: string)
    ensures Redact(Redact(conf)) == Redact(conf)
  {
    LinesOfRedacted(conf);
    var lines := Lines(conf);
    forall i | 0 <= i < |lines|
      ensures RedactLines(RedactLines(lines))[i] == RedactLines(lines)[i]
    {
      RedactLineIdempotent(lines[i]);
      RedactAt(lines, i);
      RedactAt(RedactLines(lines), i);
    }
    assert RedactLines(RedactLines(lines)) == RedactLines(lines);
  }

  lemma {:induction false} RedactedValue(lines: seq<string>, inside: bool, want: string)
    requires IsSecretKey(want)
    ensures ValueIn(RedactLines(lines), inside, want) in {"", REDACTED}
    decreases |lines|
  {
    if lines != [] {
      var line, rest := lines[0], lines[1..];
      assert RedactLines(lines)[1..] == RedactLines(rest);
      SecretLineIs(line);
      if IsSecretLine(line) {
        RedactedSecret(line);
      }
      match Classify(RedactLine(line)) {
        case Nothing => RedactedValue(rest, inside, want);
        case Header(text) => RedactedValue(rest, IsInterfaceHeader(text), want);
        case Pair(_, _) => RedactedValue(rest, inside, want);
      }
    }
  }

  lemma PrivateKeyIsPlain()
    ensures PlainKey(PRIVATE_KEY) && TrimSpace(PRIVATE_KEY) == PRIVATE_KEY
  {
    PrivateKeyKey();
    TrimmedStays(PRIVATE_KEY);
  }

  lemma PrivateKeyIsSecret()
    ensures Lower(TrimSpace(PRIVATE_KEY)) == "privatekey"
  {
    PrivateKeyKey();
    PrivateKeyIsPlain();
  }

  /** What the control plane sees of a node's config never changes a desired config. */
  lemma PreserveFromRedacted(config: string, current: string)
    ensures Preserve(config, Redact(current)) == config
  {
    PrivateKeyIsSecret();
    LinesOfRedacted(current);
    RedactedValue(Lines(current), false, "privatekey");
    RedactedIsTrimmed();
  }
}
