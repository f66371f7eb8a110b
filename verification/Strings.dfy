/** The string functions of Go's strings package that the config text and the requests go through. */
module Strings {

  // ---------------------------------------------------------------- white space

  /** unicode.IsSpace. */
  predicate IsSpace(c: char) {
    || '\t' <= c <= '\r' || c == ' '
    || c == '\U{85}' || c == '\U{A0}' || c == '\U{1680}'
    || '\U{2000}' <= c <= '\U{200A}'
    || c == '\U{2028}' || c == '\U{2029}' || c == '\U{202F}' || c == '\U{205F}' || c == '\U{3000}'
  }

  ghost predicate AllSpace(s: string) {
    forall i :: 0 <= i < |s| ==> IsSpace(s[i])
  }

  function TrimLeft(s: string): string {
    if s != "" && IsSpace(s[0]) then TrimLeft(s[1..]) else s
  }

  function TrimRight(s: string): string {
    if s != "" && IsSpace(s[|s| - 1]) then TrimRight(s[..|s| - 1]) else s
  }

  function TrimSpace(s: string): string {
    TrimRight(TrimLeft(s))
  }

  /** No white space at either end. */
  predicate Trimmed(s: string) {
    s == "" || (!IsSpace(s[0]) && !IsSpace(s[|s| - 1]))
  }

  lemma {:induction false} TrimLeftSplits(s: string) returns (l: string)
    ensures s == l + TrimLeft(s) && AllSpace(l)
    ensures TrimLeft(s) == "" || !IsSpace(TrimLeft(s)[0])
  {
    if s != "" && IsSpace(s[0]) {
      var l' := TrimLeftSplits(s[1..]);
      l := [s[0]] + l';
    } else {
      l := "";
    }
  }

  lemma {:induction false} TrimRightSplits(s: string) returns (r: string)
    ensures s == TrimRight(s) + r && AllSpace(r)
    ensures TrimRight(s) == "" || !IsSpace(TrimRight(s)[|TrimRight(s)| - 1])
  {
    if s != "" && IsSpace(s[|s| - 1]) {
      var r' := TrimRightSplits(s[..|s| - 1]);
      r := r' + [s[|s| - 1]];
    } else {
      r := "";
    }
  }

  /** Trimming takes white space off both ends and nothing else. */
  lemma TrimSplits(s: string) returns (l: string, r: string)
    ensures s == l + TrimSpace(s) + r && AllSpace(l) && AllSpace(r)
    ensures Trimmed(TrimSpace(s))
  {
    l := TrimLeftSplits(s);
    r := TrimRightSplits(TrimLeft(s));
    assert TrimSpace(s) != "" ==> TrimSpace(s)[0] == TrimLeft(s)[0];
  }

  lemma {:induction false} TrimLeftPad(l: string, s: string)
    requires AllSpace(l)
    ensures TrimLeft(l + s) == TrimLeft(s)
  {
    if l == "" {
      assert l + s == s;
    } else {
      assert (l + s)[1..] == l[1..] + s;
      TrimLeftPad(l[1..], s);
    }
  }

  lemma {:induction false} TrimRightPad(s: string, r: string)
    requires AllSpace(r)
    ensures TrimRight(s + r) == TrimRight(s)
  {
    if r == "" {
      assert s + r == s;
    } else {
      assert (s + r)[..|s + r| - 1] == s + r[..|r| - 1];
      TrimRightPad(s, r[..|r| - 1]);
    }
  }

  lemma {:induction false} TrimLeftOfSpace(s: string)
    requires AllSpace(s)
    ensures TrimLeft(s) == ""
  {
    if s != "" {
      TrimLeftOfSpace(s[1..]);
    }
  }

  /** Padding with white space does not change what trimming yields. */
  lemma TrimPad(l: string, s: string, r: string)
    requires AllSpace(l) && AllSpace(r)
    ensures TrimSpace(l + s + r) == TrimSpace(s)
  {
    assert l + s + r == l + (s + r);
    TrimLeftPad(l, s + r);
    var l' := TrimLeftSplits(s);
    if TrimLeft(s) == "" {
      assert s + r == l' + r;
      TrimLeftOfSpace(s + r);
    } else {
      assert s + r == l' + (TrimLeft(s) + r);
      TrimLeftPad(l', TrimLeft(s) + r);
      TrimRightPad(TrimLeft(s), r);
    }
  }

  lemma {:induction false} TrimLeftBefore(s: string, t: string)
    requires t != "" && !IsSpace(t[0])
    ensures TrimLeft(s + t) == TrimLeft(s) + t
  {
    if s == "" {
      assert s + t == t;
    } else if IsSpace(s[0]) {
      assert (s + t)[1..] == s[1..] + t;
      TrimLeftBefore(s[1..], t);
    }
  }

  lemma {:induction false} TrimRightAfter(s: string, t: string)
    requires s != "" && !IsSpace(s[|s| - 1])
    ensures TrimRight(s + t) == s + TrimRight(t)
  {
    if t == "" {
      assert s + t == s;
    } else if IsSpace(t[|t| - 1]) {
      assert (s + t)[..|s + t| - 1] == s + t[..|t| - 1];
      TrimRightAfter(s, t[..|t| - 1]);
    }
  }

  /** Trimming around a character that is no space works on both sides of it. */
  lemma TrimAround(s: string, c: char, t: string)
    requires !IsSpace(c)
    ensures TrimSpace(s + [c] + t) == TrimLeft(s) + [c] + TrimRight(t)
  {
    assert s + [c] + t == s + ([c] + t);
    TrimLeftBefore(s, [c] + t);
    assert TrimLeft(s) + ([c] + t) == (TrimLeft(s) + [c]) + t;
    TrimRightAfter(TrimLeft(s) + [c], t);
  }

  /** Trimming one end first makes no difference. */
  lemma TrimTwice(s: string)
    ensures TrimSpace(TrimLeft(s)) == TrimSpace(s) && TrimSpace(TrimRight(s)) == TrimSpace(s)
  {
    TrimLeftFirst(s);
    TrimRightFirst(s);
  }

  lemma TrimLeftFirst(s: string)
    ensures TrimSpace(TrimLeft(s)) == TrimSpace(s)
  {
    var l := TrimLeftSplits(s);
    assert l + TrimLeft(s) + "" == s;
    TrimPad(l, TrimLeft(s), "");
  }

  lemma TrimRightFirst(s: string)
    ensures TrimSpace(TrimRight(s)) == TrimSpace(s)
  {
    var r := TrimRightSplits(s);
    assert "" + TrimRight(s) + r == s;
    TrimPad("", TrimRight(s), r);
  }

  /** The parts around a trimmed core determine it. */
  lemma TrimIs(l: string, s: string, r: string)
    requires AllSpace(l) && AllSpace(r) && Trimmed(s)
    ensures TrimSpace(l + s + r) == s
  {
    TrimPad(l, s, r);
  }

  lemma TrimmedStays(s: string)
    requires Trimmed(s)
    ensures TrimSpace(s) == s && TrimSpace(" " + s) == s
  {
    assert "" + s + "" == s && " " + s + "" == " " + s;
    TrimIs("", s, "");
    TrimIs(" ", s, "");
  }

  // ---------------------------------------------------------------- searching and splitting

  /** strings.IndexByte. */
  function IndexOf(s: string, c: char): (i: int)
    ensures -1 <= i < |s|
    ensures i >= 0 ==> s[i] == c && c !in s[..i]
    ensures i < 0 <==> c !in s
  {
    if s == "" then -1
    else if s[0] == c then 0
    else
      var i := IndexOf(s[1..], c);
      assert s == [s[0]] + s[1..];
      if i < 0 then -1
      else
        assert s[..i + 1] == [s[0]] + s[1..][..i];
        i + 1
  }

  /** The first occurrence in before + [c] + after is at |before| when before has none. */
  lemma IndexIs(before: string, c: char, after: string)
    requires c !in before
    ensures IndexOf(before + [c] + after, c) == |before|
  {
    var s := before + [c] + after;
    assert s[|before|] == c;
    assert forall j :: 0 <= j < |before| ==> s[j] == before[j];
  }

  /** strings.Cut; without c the whole string is the key. */
  datatype CutResult = CutResult(before: string, after: string, found: bool)

  function Cut(s: string, c: char): (r: CutResult)
    ensures r.found <==> c in s
    ensures r.found ==> s == r.before + [c] + r.after && c !in r.before
    ensures !r.found ==> r.before == s && r.after == ""
  {
    var i := IndexOf(s, c);
    if i < 0 then CutResult(s, "", false) else CutResult(s[..i], s[i + 1..], true)
  }

  lemma CutIs(before: string, c: char, after: string)
    requires c !in before
    ensures Cut(before + [c] + after, c) == CutResult(before, after, true)
  {
    IndexIs(before, c, after);
  }

  /** strings.Split on one character. */
  function Split(s: string, c: char): (parts: seq<string>)
    ensures |parts| >= 1
    decreases |s|
  {
    var i := IndexOf(s, c);
    if i < 0 then [s] else [s[..i]] + Split(s[i + 1..], c)
  }

  /** No part holds the separator. */
  lemma {:induction false} SplitParts(s: string, c: char, i: nat)
    requires i < |Split(s, c)|
    ensures c !in Split(s, c)[i]
    decreases |s|
  {
    var k := IndexOf(s, c);
    if k >= 0 && i > 0 {
      SplitParts(s[k + 1..], c, i - 1);
    }
  }

  lemma SplitCons(head: string, c: char, rest: string)
    requires c !in head
    ensures Split(head + [c] + rest, c) == [head] + Split(rest, c)
  {
    IndexIs(head, c, rest);
    var s := head + [c] + rest;
    assert s[..|head|] == head && s[|head| + 1..] == rest;
  }

  /** Text in front of the first separator goes to the first part. */
  lemma SplitPrefix(prefix: string, text: string, c: char)
    requires c !in prefix
    ensures Split(prefix + text, c) == [prefix + Split(text, c)[0]] + Split(text, c)[1..]
  {
    var i := IndexOf(text, c);
    if i < 0 {
      assert c !in prefix + text;
    } else {
      var head, tail := text[..i], text[i + 1..];
      assert prefix + text == (prefix + head) + [c] + tail;
      SplitCons(prefix + head, c, tail);
    }
  }

  /** strings.Join with a separator string. */
  function Join(parts: seq<string>, sep: string): string {
    if parts == [] then ""
    else if |parts| == 1 then parts[0]
    else parts[0] + sep + Join(parts[1..], sep)
  }

  lemma JoinCons(head: string, rest: seq<string>, sep: string)
    requires rest != []
    ensures Join([head] + rest, sep) == head + sep + Join(rest, sep)
  {
    assert ([head] + rest)[1..] == rest;
  }

  /** Joining what was split gives the text back. */
  lemma {:induction false} JoinSplit(s: string, c: char)
    ensures Join(Split(s, c), [c]) == s
    decreases |s|
  {
    var i := IndexOf(s, c);
    if i >= 0 {
      var head, tail := s[..i], s[i + 1..];
      calc {
        Join(Split(s, c), [c]);
        Join([head] + Split(tail, c), [c]);
        { JoinCons(head, Split(tail, c), [c]); }
        head + [c] + Join(Split(tail, c), [c]);
        { JoinSplit(tail, c); }
        head + [c] + tail;
        s;
      }
    }
  }

  /** Splitting what was joined gives the parts back when none holds the separator. */
  lemma {:induction false} SplitJoin(parts: seq<string>, c: char)
    requires parts != [] && forall i :: 0 <= i < |parts| ==> c !in parts[i]
    ensures Split(Join(parts, [c]), c) == parts
  {
    if |parts| == 1 {
      assert parts == [parts[0]];
    } else {
      SplitJoin(parts[1..], c);
      SplitCons(parts[0], c, Join(parts[1..], [c]));
      assert parts == [parts[0]] + parts[1..];
    }
  }

  // ---------------------------------------------------------------- case

  /**
   * unicode.ToLower as far as it can yield an ASCII letter: the ASCII capitals, the
   * Kelvin sign and the dotted capital I. Other letters never become ASCII.
   */
  function LowerChar(c: char): char {
    if 'A' <= c <= 'Z' then c + ' '
    else if c == '\U{212A}' then 'k'
    else if c == '\U{130}' then 'i'
    else c
  }

  function Lower(s: string): (r: string)
    ensures |r| == |s| && forall i :: 0 <= i < |s| ==> r[i] == LowerChar(s[i])
  {
    seq(|s|, i requires 0 <= i < |s| => LowerChar(s[i]))
  }

  /** Case folding as strings.EqualFold does it for the ASCII words the program compares with. */
  function FoldChar(c: char): char {
    if 'A' <= c <= 'Z' then c + ' ' else c
  }

  predicate EqualFold(s: string, t: string) {
    |s| == |t| && forall i :: 0 <= i < |s| ==> FoldChar(s[i]) == FoldChar(t[i])
  }

  // ---------------------------------------------------------------- order

  /** Go's < on strings. */
  predicate Less(s: string, t: string) {
    if t == "" then false
    else if s == "" then true
    else if s[0] != t[0] then s[0] < t[0]
    else Less(s[1..], t[1..])
  }

  lemma {:induction false} LessTotal(s: string, t: string)
    ensures s != t ==> (Less(s, t) <==> !Less(t, s))
    ensures s == t ==> !Less(s, t)
  {
    if s != "" && t != "" {
      assert s == [s[0]] + s[1..] && t == [t[0]] + t[1..];
      LessTotal(s[1..], t[1..]);
    }
  }

  lemma {:induction false} LessTransitive(s: string, t: string, u: string)
    requires Less(s, t) && Less(t, u)
    ensures Less(s, u)
  {
    if s != "" && t != "" && u != "" && s[0] == t[0] == u[0] {
      LessTransitive(s[1..], t[1..], u[1..]);
    }
  }
}
