/** Special-junk packet descriptions: the validating loop accepts exactly a small grammar. */
module SpecialJunk {
  import opened Wrappers
  import opened Strings
  import opened Words
  import opened Numerals

  const JUNK_SIZE_MAX := 1280

  // ---------------------------------------------------------------- tags

  predicate IsHexDigit(c: char) {
    '0' <= c <= '9' || 'a' <= c <= 'f' || 'A' <= c <= 'F'
  }

  predicate AllHex(s: string) {
    forall i :: 0 <= i < |s| ==> IsHexDigit(s[i])
  }

  function WithoutHexPrefix(s: string): string {
    if |s| >= 2 && s[0] == '0' && s[1] == 'x' then s[2..] else s
  }

  predicate IsSizedName(w: string) {
    w == "r" || w == "rc" || w == "rd" || w == "dz"
  }

  predicate IsDynamicName(w: string) {
    w == "d" || w == "ds"
  }

  /** The words of a tag and the fixed number of bytes it contributes. */
  ghost predicate IsTag(words: seq<string>, size: nat) {
    || (|words| == 2 && words[0] == "b"
        && var raw := WithoutHexPrefix(words[1]);
           raw != "" && AllHex(raw) && |raw| == 2 * size)
    || (words == ["t"] && size == 4)
    || (|words| == 2 && IsSizedName(words[0]) && ParseInt(words[1]) == Some(size) && size <= JUNK_SIZE_MAX)
    || (|words| == 1 && IsDynamicName(words[0]) && size == 0)
  }

  /** The size of a well-formed tag, as the loop works it out. */
  function TagSize(words: seq<string>): Option<nat> {
    if words == [] then None
    else if words[0] == "b" then
      if |words| != 2 then None
      else
        var raw := WithoutHexPrefix(words[1]);
        if raw == "" || |raw| % 2 != 0 || !AllHex(raw) then None else Some(|raw| / 2)
    else if words[0] == "t" then (if |words| != 1 then None else Some(4))
    else if IsSizedName(words[0]) then
      if |words| != 2 then None
      else
        match ParseInt(words[1])
        case None => None
        case Some(n) => if n < 0 || n > JUNK_SIZE_MAX then None else Some(n)
    else if IsDynamicName(words[0]) then (if |words| != 1 then None else Some(0))
    else None
  }

  /** A tag has at most one size, and the loop finds it. */
  lemma TagSizeIff(words: seq<string>, size: nat)
    ensures TagSize(words) == Some(size) <==> IsTag(words, size)
  {
    assert |words| == 1 ==> words == [words[0]];
  }

  // ---------------------------------------------------------------- texts of tags

  /** Literal text without '<', then a tag's content without '>'. */
  datatype Piece = Piece(literal: string, content: string)

  function Closed(p: Piece, rest: string): string {
    p.literal + ['<'] + (p.content + ['>'] + rest)
  }

  function Written(pieces: seq<Piece>, tail: string): string {
    if pieces == [] then tail else Closed(pieces[0], Written(pieces[1..], tail))
  }

  ghost predicate ShapedPiece(p: Piece) {
    '<' !in p.literal && '>' !in p.content
  }

  ghost predicate Shaped(pieces: seq<Piece>, tail: string) {
    (forall i :: 0 <= i < |pieces| ==> ShapedPiece(pieces[i])) && '<' !in tail
  }

  // ---------------------------------------------------------------- finding a tag

  /** What remains after a tag. */
  datatype Next = Done | Unclosed | Tag(content: string, rest: string)

  function NextTag(s: string): Next {
    var open := Cut(s, '<');
    if !open.found then Done
    else
      var close := Cut(open.after, '>');
      if !close.found then Unclosed else Tag(close.before, close.after)
  }

  lemma NextTagShorter(s: string)
    requires NextTag(s).Tag?
    ensures |NextTag(s).rest| < |s|
  {
  }

  lemma IndexAfter(s: string, start: nat)
    requires start < |s| && s[start] == '<'
    ensures var i := IndexOf(s[start + 1..], '>');
            IndexOf(s[start..], '>') == if i < 0 then -1 else i + 1
  {
    assert s[start..][0] == '<' && s[start..][1..] == s[start + 1..];
  }

  lemma SliceOfSlice(s: string, k: nat, i: nat)
    requires k + i < |s|
    ensures s[k..][..i] == s[k..k + i] && s[k..][i + 1..] == s[k + i + 1..]
  {
  }

  lemma NextTagCut(s: string)
    requires '<' in s
    ensures var t := s[IndexOf(s, '<') + 1..];
            var i := IndexOf(t, '>');
            NextTag(s) == if i < 0 then Unclosed else Tag(t[..i], t[i + 1..])
  {
  }

  /** The two ways to cut a tag out agree, wherever the closing bracket is. */
  lemma SameCut(next: Next, s: string, start: nat, end: int, i: int)
    requires start < |s| && -1 <= i < |s| - start - 1 && end == if i < 0 then -1 else i + 1
    requires next == if i < 0 then Unclosed else Tag(s[start + 1..][..i], s[start + 1..][i + 1..])
    ensures next == if end < 0 then Unclosed else Tag(s[start + 1..start + end], s[start + end + 1..])
  {
    if i >= 0 {
      SliceOfSlice(s, start + 1, i);
    }
  }

  /** The loop finds the same tag by its indices. */
  lemma NextTagAt(s: string, start: nat, end: int)
    requires '<' in s && start == IndexOf(s, '<') && end == IndexOf(s[start..], '>')
    ensures NextTag(s) == if end < 0 then Unclosed else Tag(s[start + 1..start + end], s[start + end + 1..])
  {
    var i := IndexOf(s[start + 1..], '>');
    assert end == if i < 0 then -1 else i + 1 by {
      IndexAfter(s, start);
    }
    assert NextTag(s) == if i < 0 then Unclosed else Tag(s[start + 1..][..i], s[start + 1..][i + 1..]) by {
      NextTagCut(s);
    }
    SameCut(NextTag(s), s, start, end, i);
  }

  lemma NextOfClosed(p: Piece, rest: string)
    requires ShapedPiece(p)
    ensures NextTag(Closed(p, rest)) == Tag(p.content, rest)
    ensures Cut(Closed(p, rest), '<').before == p.literal
  {
    CutIs(p.literal, '<', p.content + ['>'] + rest);
    CutIs(p.content, '>', rest);
  }

  function FirstPiece(s: string): Piece
    requires NextTag(s).Tag?
  {
    Piece(Cut(s, '<').before, NextTag(s).content)
  }

  lemma TagIsClosed(s: string)
    requires NextTag(s).Tag?
    ensures ShapedPiece(FirstPiece(s)) && s == Closed(FirstPiece(s), NextTag(s).rest)
  {
  }

  // ---------------------------------------------------------------- the pieces of a text

  /** A text cut at its tags; it is closed when no '<' is left over. */
  datatype Reading = Reading(pieces: seq<Piece>, rest: string, closed: bool) {
    function Prepend(before: seq<Piece>): Reading {
      Reading(before + pieces, rest, closed)
    }
  }

  function Decode(s: string): Reading
    decreases |s|
  {
    match NextTag(s)
    case Done => Reading([], s, true)
    case Unclosed => Reading([], s, false)
    case Tag(_, rest) =>
      NextTagShorter(s);
      Decode(rest).Prepend([FirstPiece(s)])
  }

  lemma {:induction false} DecodeIsShaped(s: string)
    ensures s == Written(Decode(s).pieces, Decode(s).rest)
    ensures Decode(s).closed ==> Shaped(Decode(s).pieces, Decode(s).rest)
    decreases |s|
  {
    var next := NextTag(s);
    if next.Tag? {
      NextTagShorter(s);
      TagIsClosed(s);
      DecodeIsShaped(next.rest);
      OneMorePiece(FirstPiece(s), Decode(next.rest).pieces, Decode(next.rest).rest);
    }
  }

  lemma OneMorePiece(p: Piece, pieces: seq<Piece>, tail: string)
    ensures Written([p] + pieces, tail) == Closed(p, Written(pieces, tail))
    ensures ShapedPiece(p) && Shaped(pieces, tail) ==> Shaped([p] + pieces, tail)
  {
    assert ([p] + pieces)[1..] == pieces;
  }

  /** A text can be cut in one way only. */
  lemma {:induction false} DecodeWritten(pieces: seq<Piece>, tail: string)
    requires Shaped(pieces, tail)
    ensures Decode(Written(pieces, tail)) == Reading(pieces, tail, true)
    decreases |pieces|
  {
    if pieces != [] {
      var p, more := pieces[0], pieces[1..];
      calc {
        Decode(Written(pieces, tail));
        Decode(Closed(p, Written(more, tail)));
        { DecodeClosed(p, Written(more, tail)); }
        Decode(Written(more, tail)).Prepend([p]);
        { DecodeWritten(more, tail); }
        Reading(more, tail, true).Prepend([p]);
        { assert [p] + more == pieces; }
        Reading(pieces, tail, true);
      }
    }
  }

  lemma DecodeStep(s: string)
    requires NextTag(s).Tag?
    ensures Decode(s) == Decode(NextTag(s).rest).Prepend([FirstPiece(s)])
  {
  }

  lemma PrependTwice(r: Reading, a: seq<Piece>, b: seq<Piece>)
    ensures r.Prepend(b).Prepend(a) == r.Prepend(a + b)
  {
    assert a + (b + r.pieces) == (a + b) + r.pieces;
  }

  lemma DecodeClosed(p: Piece, rest: string)
    requires ShapedPiece(p)
    ensures Decode(Closed(p, rest)) == Decode(rest).Prepend([p])
  {
    NextOfClosed(p, rest);
    DecodeStep(Closed(p, rest));
  }

  // ---------------------------------------------------------------- sizes

  function SizeOf(content: string): Option<nat> {
    TagSize(Fields(content))
  }

  /** The content is spelled by the words of a tag of this size. */
  ghost predicate ContentOf(content: string, size: nat) {
    exists words :: Spells(content, words) && IsTag(words, size)
  }

  lemma SizeOfIff(content: string, size: nat)
    ensures SizeOf(content) == Some(size) <==> ContentOf(content, size)
  {
    FieldsSpell(content);
    TagSizeIff(Fields(content), size);
    if ContentOf(content, size) {
      var words :| Spells(content, words) && IsTag(words, size);
      SpellsUnique(content, words);
    }
  }

  function Plus(a: Option<nat>, b: Option<nat>): Option<nat> {
    if a.None? || b.None? then None else Some(a.value + b.value)
  }

  /** The fixed bytes of all tags, if each is well formed. The size of a tag is a parameter. */
  function Total(size: string -> Option<nat>, pieces: seq<Piece>): Option<nat> {
    if pieces == [] then Some(0) else Plus(size(pieces[0].content), Total(size, pieces[1..]))
  }

  lemma {:induction false} TotalAppend(size: string -> Option<nat>, a: seq<Piece>, b: seq<Piece>)
    ensures Total(size, a + b) == Plus(Total(size, a), Total(size, b))
  {
    if a == [] {
      assert a + b == b;
    } else {
      assert (a + b)[1..] == a[1..] + b;
      TotalAppend(size, a[1..], b);
    }
  }

  lemma TotalOne(size: string -> Option<nat>, p: Piece)
    ensures Total(size, [p]) == size(p.content)
  {
    assert [p][1..] == [];
  }

  // ---------------------------------------------------------------- the grammar

  function Sum(sizes: seq<nat>): nat {
    if sizes == [] then 0 else sizes[0] + Sum(sizes[1..])
  }

  ghost predicate Tagged(pieces: seq<Piece>, sizes: seq<nat>) {
    |pieces| == |sizes| && forall i :: 0 <= i < |pieces| ==> ContentOf(pieces[i].content, sizes[i])
  }

  /** Text and at least one tag, with at most the allowed number of fixed bytes. */
  ghost predicate Accepted(spec: string) {
    exists pieces, tail, sizes :: AcceptedAs(spec, pieces, tail, sizes)
  }

  ghost predicate AcceptedAs(spec: string, pieces: seq<Piece>, tail: string, sizes: seq<nat>) {
    && spec == Written(pieces, tail) && Shaped(pieces, tail)
    && pieces != [] && Tagged(pieces, sizes) && Sum(sizes) <= JUNK_SIZE_MAX
  }

  ghost predicate Sized(size: string -> Option<nat>, pieces: seq<Piece>, sizes: seq<nat>) {
    |pieces| == |sizes| && forall i :: 0 <= i < |pieces| ==> size(pieces[i].content) == Some(sizes[i])
  }

  lemma {:induction false} TotalIsSum(size: string -> Option<nat>, pieces: seq<Piece>, sizes: seq<nat>)
    requires Sized(size, pieces, sizes)
    ensures Total(size, pieces) == Some(Sum(sizes))
  {
    if pieces != [] {
      TotalIsSum(size, pieces[1..], sizes[1..]);
    }
  }

  lemma {:induction false} SumIsTotal(size: string -> Option<nat>, pieces: seq<Piece>) returns (sizes: seq<nat>)
    requires Total(size, pieces).Some?
    ensures Sized(size, pieces, sizes) && Sum(sizes) == Total(size, pieces).value
  {
    if pieces == [] {
      sizes := [];
    } else {
      var rest := SumIsTotal(size, pieces[1..]);
      sizes := [size(pieces[0].content).value] + rest;
      assert sizes[1..] == rest;
    }
  }

  lemma TaggedIff(pieces: seq<Piece>, sizes: seq<nat>)
    ensures Tagged(pieces, sizes) <==> Sized(SizeOf, pieces, sizes)
  {
    if |pieces| == |sizes| {
      forall i | 0 <= i < |pieces|
        ensures ContentOf(pieces[i].content, sizes[i]) <==> SizeOf(pieces[i].content) == Some(sizes[i])
      {
        SizeOfIff(pieces[i].content, sizes[i]);
      }
    }
  }

  /** What the loop has to decide. */
  predicate Fits(r: Reading, total: Option<nat>) {
    r.closed && r.pieces != [] && total.Some? && total.value <= JUNK_SIZE_MAX
  }

  lemma AcceptedFits(spec: string, pieces: seq<Piece>, tail: string, sizes: seq<nat>)
    requires AcceptedAs(spec, pieces, tail, sizes)
    ensures Fits(Decode(spec), Total(SizeOf, Decode(spec).pieces))
  {
    DecodeWritten(pieces, tail);
    TaggedIff(pieces, sizes);
    TotalIsSum(SizeOf, pieces, sizes);
  }

  lemma FitsIsAccepted(spec: string)
    requires Fits(Decode(spec), Total(SizeOf, Decode(spec).pieces))
    ensures Accepted(spec)
  {
    var r := Decode(spec);
    DecodeIsShaped(spec);
    var sizes := SumIsTotal(SizeOf, r.pieces);
    TaggedIff(r.pieces, sizes);
    assert AcceptedAs(spec, r.pieces, r.rest, sizes);
  }

  lemma AcceptedIff(spec: string)
    ensures Accepted(spec) <==> Fits(Decode(spec), Total(SizeOf, Decode(spec).pieces))
  {
    if Accepted(spec) {
      var pieces, tail, sizes :| AcceptedAs(spec, pieces, tail, sizes);
      AcceptedFits(spec, pieces, tail, sizes);
    } else if Fits(Decode(spec), Total(SizeOf, Decode(spec).pieces)) {
      FitsIsAccepted(spec);
    }
  }

  // ---------------------------------------------------------------- the loop

  /** One tag read: the pieces done so far grow by it. */
  lemma ReadOne(done: seq<Piece>, s: string)
    requires NextTag(s).Tag?
    ensures Decode(s).Prepend(done) == Decode(NextTag(s).rest).Prepend(done + [FirstPiece(s)])
  {
    DecodeStep(s);
    PrependTwice(Decode(NextTag(s).rest), done, [FirstPiece(s)]);
  }

  lemma CountOne(size: string -> Option<nat>, done: seq<Piece>, p: Piece)
    requires Total(size, done).Some?
    ensures Total(size, done + [p]).Some? <==> size(p.content).Some?
    ensures size(p.content).Some? ==> Total(size, done + [p]).value == Total(size, done).value + size(p.content).value
  {
    TotalAppend(size, done, [p]);
    TotalOne(size, p);
  }

  /** A part that does not fit spoils the whole: the early cutoff agrees with the final sum. */
  lemma SpoiltEarly(size: string -> Option<nat>, done: seq<Piece>, r: Reading)
    requires Total(size, done).None? || Total(size, done).value > JUNK_SIZE_MAX
    ensures !Fits(r.Prepend(done), Total(size, r.Prepend(done).pieces))
  {
    TotalAppend(size, done, r.pieces);
  }

  lemma EndsHere(s: string, done: seq<Piece>)
    ensures NextTag(s).Done? ==> Decode(s).Prepend(done) == Reading(done, s, true)
    ensures NextTag(s).Unclosed? ==> Decode(s).Prepend(done) == Reading(done, s, false)
  {
    assert done + [] == done;
  }

  lemma NothingRead(spec: string)
    ensures Decode(spec).Prepend([]) == Decode(spec)
  {
    assert [] + Decode(spec).pieces == Decode(spec).pieces;
  }

  lemma NoTagLeft(s: string)
    requires '<' !in s
    ensures NextTag(s) == Done
  {
  }

  /** The index arithmetic of one iteration. */
  method ReadTag(remaining: string) returns (next: Next)
    ensures next == NextTag(remaining)
  {
    var start := IndexOf(remaining, '<');
    if start == -1 {
      NoTagLeft(remaining);
      return Done;
    }
    next := CloseTag(remaining, start);
  }

  method CloseTag(remaining: string, start: nat) returns (next: Next)
    requires '<' in remaining && start == IndexOf(remaining, '<')
    ensures next == NextTag(remaining)
  {
    var endRel := IndexOf(remaining[start..], '>');
    ghost var goal := NextTag(remaining);
    NextTagAt(remaining, start, endRel);
    if endRel == -1 {
      next := Unclosed;
    } else {
      next := Tag(remaining[start + 1..start + endRel], remaining[start + endRel + 1..]);
    }
    assert next == goal;
  }

  /** The loop, for any way of sizing a tag. */
  method ReadTags(spec: string, size: string -> Option<nat>) returns (ok: bool)
    ensures ok <==> Fits(Decode(spec), Total(size, Decode(spec).pieces))
  {
    ghost var whole, done := Decode(spec), [];
    NothingRead(spec);
    var remaining := spec;
    var totalFixed: nat, tagCount: nat := 0, 0;
    while true
      invariant whole == Decode(remaining).Prepend(done)
      invariant Total(size, done).Some? && Total(size, done).value == totalFixed
      invariant totalFixed <= JUNK_SIZE_MAX && |done| == tagCount
      decreases |remaining|
    {
      EndsHere(remaining, done);
      var next := ReadTag(remaining);
      if next.Done? {
        break;
      }
      if next.Unclosed? {
        return false;
      }
      var fixed := size(next.content);
      ReadOne(done, remaining);
      CountOne(size, done, FirstPiece(remaining));
      done := done + [FirstPiece(remaining)];
      if fixed.None? {
        SpoiltEarly(size, done, Decode(next.rest));
        return false;
      }
      tagCount := tagCount + 1;
      totalFixed := totalFixed + fixed.value;
      if totalFixed > JUNK_SIZE_MAX {
        SpoiltEarly(size, done, Decode(next.rest));
        return false;
      }
      NextTagShorter(remaining);
      remaining := next.rest;
    }
    ok := tagCount != 0;
  }

  method ValidateSpecialJunk(spec: string) returns (ok: bool)
    ensures ok <==> Accepted(spec)
  {
    ok := ReadTags(spec, SizeOf);
    AcceptedIff(spec);
  }
}
