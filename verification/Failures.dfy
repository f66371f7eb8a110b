/** Errors as texts with a cause: how the worker tells a missing interface and a lasting failure by their texts. */
module Failures {
  import opened Strings
  import opened Numerals
  import opened Tables

  /** What errors.Is finds in the chain. */
  datatype Cause = Ordinary | NotImplemented | ContextDone

  datatype Failure = Failure(message: string, cause: Cause)

  // ---------------------------------------------------------------- the texts

  const NOT_FOUND := "awg: interface not found:"

  /** The host's error for an interface it does not have. */
  function NotFound(iface: string): Failure {
    Failure(NOT_FOUND + " " + iface, Ordinary)
  }

  /** The error for a node or profile row that is not there. */
  const NO_ROW := Failure("not_found", Ordinary)

  function NoProfile(node: Id): Failure {
    Failure("node " + Digits(node) + " has peers but no protocol profile assigned", Ordinary)
  }

  const BRING_UP := "bring interface up after syncconf failed:"

  /** Bringing the interface up failed after the sync had: the first error is wrapped, the second only printed. */
  function BringUpFailed(up: Failure, sync: Failure): Failure {
    Failure(BRING_UP + " " + up.message + " " + "(syncconf:" + " " + sync.message + ")", up.cause)
  }

  const MISMATCH := "runtime public key mismatch for"

  function KeyMismatch(iface: string, got: string, want: string): Failure {
    Failure(MISMATCH + " " + iface + ":" + " got " + "\"" + got + "\"" + " want " + "\"" + want + "\"", Ordinary)
  }

  // ---------------------------------------------------------------- searching a text

  /** strings.Contains. */
  predicate Mentions(text: string, phrase: string) {
    phrase <= text || (text != "" && Mentions(text[1..], phrase))
  }

  lemma {:induction false} MentionsAt(a: string, phrase: string, b: string)
    ensures Mentions(a + phrase + b, phrase)
  {
    var text := a + phrase + b;
    if a == "" {
      assert phrase <= text;
    } else {
      MentionsAt(a[1..], phrase, b);
      assert text[1..] == a[1..] + phrase + b;
    }
  }

  lemma PrefixLetters(text: string, phrase: string, c: char)
    requires c in phrase && c !in text
    ensures !(phrase <= text)
  {
    assert forall i :: 0 <= i < |text| ==> text[i] != c;
  }

  lemma PrefixReaches(text: string, phrase: string, k: nat)
    requires k < |text|
    ensures phrase <= text && k < |phrase| ==> text[k] in phrase
  {
    if phrase <= text && k < |phrase| {
      assert phrase[k] == text[k];
    }
  }

  /** A text without one of the letters does not mention the phrase. */
  lemma {:induction false} NeedsLetter(text: string, phrase: string, c: char)
    requires c in phrase && c !in text
    ensures !Mentions(text, phrase)
  {
    PrefixLetters(text, phrase, c);
    if text != "" {
      NeedsLetter(text[1..], phrase, c);
    }
  }

  /** A phrase cannot lie across a letter it does not have. */
  lemma {:induction false} MentionsApart(a: string, c: char, b: string, phrase: string)
    requires phrase != "" && c !in phrase
    ensures Mentions(a + [c] + b, phrase) <==> Mentions(a, phrase) || Mentions(b, phrase)
  {
    var text := a + [c] + b;
    assert text[|a|] == c;
    PrefixApart(a, c, b, phrase);
    if a == "" {
      assert text[1..] == b;
    } else {
      MentionsApart(a[1..], c, b, phrase);
      assert text[1..] == a[1..] + [c] + b;
    }
  }

  lemma PrefixApart(a: string, c: char, b: string, phrase: string)
    requires c !in phrase
    ensures phrase <= a + [c] + b <==> phrase <= a
  {
    var text := a + [c] + b;
    PrefixReaches(text, phrase, |a|);
    if phrase <= text {
      assert phrase == text[..|phrase|] == a[..|phrase|];
    }
    if phrase <= a {
      assert phrase == a[..|phrase|] == text[..|phrase|];
    }
  }

  // ---------------------------------------------------------------- a missing interface

  predicate IsMissingInterface(f: Failure) {
    var text := Lower(f.message);
    || Mentions(text, "interface not found") || Mentions(text, "cannot find device")
    || Mentions(text, "no such device") || Mentions(text, "protocol not supported")
  }

  /** The host's own error is recognised, whatever the interface is called. */
  lemma MissingIsRecognised(iface: string)
    ensures IsMissingInterface(NotFound(iface))
  {
    var text := Lower(NOT_FOUND + " " + iface);
    assert text == "awg: " + "interface not found" + (":" + " " + Lower(iface));
    MentionsAt("awg: ", "interface not found", ":" + " " + Lower(iface));
  }

  // ---------------------------------------------------------------- failures that last

  predicate LastingText(m: string) {
    Mentions(m, "validation") || Mentions(m, "invalid")
  }

  predicate IsRetryable(f: Failure) {
    match f.cause
    case NotImplemented => false
    case ContextDone => true
    case Ordinary => !LastingText(f.message)
  }

  lemma LastingNeedsV(m: string)
    requires 'v' !in m
    ensures !LastingText(m)
  {
    assert "validation"[0] == 'v' && "invalid"[2] == 'v';
    NeedsLetter(m, "validation", 'v');
    NeedsLetter(m, "invalid", 'v');
  }

  predicate Separates(c: char) {
    c == ' ' || c == ':' || c == '"' || c == ')'
  }

  lemma LastingApart(a: string, c: char, b: string)
    requires Separates(c)
    ensures LastingText(a + [c] + b) <==> LastingText(a) || LastingText(b)
  {
    MentionsApart(a, c, b, "validation");
    MentionsApart(a, c, b, "invalid");
  }

  lemma LastingEnd(a: string, c: char)
    requires Separates(c)
    ensures LastingText(a + [c]) <==> LastingText(a)
  {
    LastingApart(a, c, "");
    LastingNeedsV("");
    assert a + [c] + "" == a + [c];
  }

  lemma OneText(before: string, a: string)
    requires 'v' !in before
    ensures LastingText(before + " " + a) <==> LastingText(a)
  {
    LastingApart(before, ' ', a);
    LastingNeedsV(before);
  }

  /**
   * A missing interface is retried, as intended, exactly when its name does not itself contain one of the
   * words that mark lasting failures.
   */
  lemma MissingIsRetried(iface: string)
    ensures IsRetryable(NotFound(iface)) <==> !LastingText(iface)
  {
    OneText(NOT_FOUND, iface);
  }

  lemma TwoTexts(before: string, a: string, between: string, b: string)
    requires 'v' !in before && 'v' !in between
    ensures LastingText(before + " " + a + " " + between + " " + b + ")") <==> LastingText(a) || LastingText(b)
  {
    var x := before + " " + a;
    var y := x + " " + between;
    LastingNeedsV(before);
    LastingNeedsV(between);
    LastingApart(before, ' ', a);
    LastingApart(x, ' ', between);
    LastingApart(y, ' ', b);
    LastingEnd(y + " " + b, ')');
  }

  lemma ThreeTexts(before: string, a: string, first: string, b: string, second: string, c: string)
    requires 'v' !in before && 'v' !in first && 'v' !in second
    ensures LastingText(before + " " + a + ":" + first + "\"" + b + "\"" + second + "\"" + c + "\"") <==>
            LastingText(a) || LastingText(b) || LastingText(c)
  {
    var w := before + " " + a;
    var x := w + ":" + first;
    var y := x + "\"" + b;
    var z := y + "\"" + second;
    LastingNeedsV(before);
    LastingNeedsV(first);
    LastingNeedsV(second);
    LastingApart(before, ' ', a);
    LastingApart(w, ':', first);
    LastingApart(x, '"', b);
    LastingApart(y, '"', second);
    LastingApart(z, '"', c);
    LastingEnd(z + "\"" + c, '"');
  }

  /** After a failed bring-up the cause of that failure decides, and otherwise the texts of both errors. */
  lemma BringUpIsRetried(up: Failure, sync: Failure)
    ensures IsRetryable(BringUpFailed(up, sync)) <==>
            up.cause.ContextDone? || (up.cause.Ordinary? && !LastingText(up.message) && !LastingText(sync.message))
  {
    TwoTexts(BRING_UP, up.message, "(syncconf:", sync.message);
  }

  /** A key mismatch is retried unless the name or one of the keys happens to contain such a word. */
  lemma MismatchIsRetried(iface: string, got: string, want: string)
    ensures IsRetryable(KeyMismatch(iface, got, want)) <==>
            !LastingText(iface) && !LastingText(got) && !LastingText(want)
  {
    ThreeTexts(MISMATCH, iface, " got ", got, " want ", want);
  }
}
