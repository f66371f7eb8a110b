/** strings.Fields: the words of a text. */
module Words {
  import opened Strings

  predicate IsWord(w: string) {
    w != "" && forall i :: 0 <= i < |w| ==> !IsSpace(w[i])
  }

  /** Where the first word of a text that starts with one ends. */
  function WordEnd(s: string): (n: nat)
    ensures n <= |s| && (n < |s| ==> IsSpace(s[n]))
    ensures forall i :: 0 <= i < n ==> !IsSpace(s[i])
  {
    if s == "" || IsSpace(s[0]) then 0 else 1 + WordEnd(s[1..])
  }

  function Fields(s: string): seq<string>
    decreases |s|
  {
    var t := TrimLeft(s);
    TrimLeftShorter(s);
    if t == "" then [] else
      var n := WordEnd(t);
      [t[..n]] + Fields(t[n..])
  }

  lemma TrimLeftShorter(s: string)
    ensures |TrimLeft(s)| <= |s|
    ensures TrimLeft(s) != "" ==> !IsSpace(TrimLeft(s)[0]) && WordEnd(TrimLeft(s)) > 0
  {
    var l := TrimLeftSplits(s);
  }

  /** The text is the words in order, with white space between them and anywhere around. */
  ghost predicate Spells(s: string, words: seq<string>)
    decreases |words|
  {
    if words == [] then AllSpace(s)
    else exists pad, rest :: SpellsFirst(s, words[0], pad, rest) && Spells(rest, words[1..])
  }

  ghost predicate SpellsFirst(s: string, word: string, pad: string, rest: string) {
    s == pad + word + rest && AllSpace(pad) && IsWord(word) && (rest == "" || IsSpace(rest[0]))
  }

  lemma FirstField(s: string, word: string, pad: string, rest: string)
    requires SpellsFirst(s, word, pad, rest)
    ensures Fields(s) == [word] + Fields(rest)
  {
    assert s == pad + (word + rest);
    TrimLeftPad(pad, word + rest);
    var t := word + rest;
    assert TrimLeft(t) == t by {
      assert t[0] == word[0];
    }
    WordEndIs(word, rest);
    TrimLeftShorter(s);
    assert t[..|word|] == word && t[|word|..] == rest;
  }

  lemma WordEndIs(word: string, rest: string)
    requires IsWord(word) && (rest == "" || IsSpace(rest[0]))
    ensures WordEnd(word + rest) == |word|
  {
    var t := word + rest;
    assert forall i :: 0 <= i < |word| ==> t[i] == word[i];
    assert rest != "" ==> t[|word|] == rest[0];
  }

  lemma {:induction false} FieldsSpell(s: string)
    ensures Spells(s, Fields(s))
    decreases |s|
  {
    var t := TrimLeft(s);
    var l := TrimLeftSplits(s);
    TrimLeftShorter(s);
    if t == "" {
      assert l + t == l;
      assert Fields(s) == [] && AllSpace(s);
      assert Spells(s, []);
    } else {
      var n := WordEnd(t);
      var word, rest := t[..n], t[n..];
      FieldsSpell(rest);
      assert Fields(s) == [word] + Fields(rest);
      assert Fields(s)[0] == word && Fields(s)[1..] == Fields(rest);
      assert s == l + word + rest;
      assert SpellsFirst(s, Fields(s)[0], l, rest);
    }
  }

  lemma {:induction false} SpellsUnique(s: string, words: seq<string>)
    requires Spells(s, words)
    ensures Fields(s) == words
    decreases |words|
  {
    if words == [] {
      TrimLeftOfSpace(s);
    } else {
      var pad, rest :| SpellsFirst(s, words[0], pad, rest) && Spells(rest, words[1..]);
      FirstField(s, words[0], pad, rest);
      SpellsUnique(rest, words[1..]);
    }
  }

  /** Fields finds the only way to spell a text. */
  lemma FieldsIff(s: string, words: seq<string>)
    ensures Spells(s, words) <==> Fields(s) == words
  {
    FieldsSpell(s);
    if Spells(s, words) {
      SpellsUnique(s, words);
    }
  }
}
