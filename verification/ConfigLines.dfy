/** The text transformations as transformations of lines. */
module ConfigLines {
  import opened Strings
  import opened ConfigText
  import opened Config

  // ---------------------------------------------------------------- pieces and lines

  lemma {:induction false} ConcatPieces(lines: seq<string>)
    ensures Concat(Pieces(lines)) == Text(lines)
  {
    if |lines| > 1 {
      var rest := Pieces(lines[1..]);
      calc {
        Concat(Pieces(lines));
        { assert ([lines[0] + "\n"] + rest)[1..] == rest; }
        lines[0] + "\n" + Concat(rest);
        { ConcatPieces(lines[1..]); }
        lines[0] + "\n" + Text(lines[1..]);
        Text(lines);
      }
    }
  }

  lemma {:induction false} PiecesFrom(lines: seq<string>, j: nat)
    requires j <= |lines|
    ensures Pieces(lines)[j..] == Pieces(lines[j..])
  {
    if j == 0 {
      assert lines[0..] == lines;
    } else if |lines| > 1 {
      PiecesFrom(lines[1..], j - 1);
      assert lines[1..][j - 1..] == lines[j..];
    }
  }

  lemma {:induction false} PieceAt(lines: seq<string>, i: nat)
    requires i < |lines|
    ensures Pieces(lines)[i] == lines[i] + if i < |lines| - 1 then "\n" else ""
  {
    if i > 0 {
      PieceAt(lines[1..], i - 1);
    }
  }

  /** All pieces but the last are lines ended by a newline. */
  lemma {:induction false} PiecesUpTo(lines: seq<string>, j: nat)
    requires j < |lines|
    ensures Concat(Pieces(lines)[..j]) == Unlines(lines[..j])
  {
    if j > 0 {
      PiecesUpTo(lines[1..], j - 1);
      var head, rest := lines[0] + "\n", Pieces(lines[1..]);
      assert Pieces(lines)[..j] == [head] + rest[..j - 1];
      assert ([head] + rest[..j - 1])[1..] == rest[..j - 1];
      assert lines[..j][1..] == lines[1..][..j - 1];
    }
  }

  lemma TrimEnded(line: string)
    ensures TrimSpace(line + "\n") == TrimSpace(line)
  {
    assert "" + line + "\n" == line + "\n";
    TrimPad("", line, "\n");
  }

  lemma TrimPiece(lines: seq<string>, i: nat)
    requires i < |lines|
    ensures TrimSpace(Pieces(lines)[i]) == TrimSpace(lines[i])
  {
    PieceAt(lines, i);
    if i < |lines| - 1 {
      TrimEnded(lines[i]);
    } else {
      assert lines[i] + "" == lines[i];
    }
  }

  // ---------------------------------------------------------------- inserting

  /** The header is found on the same line whether or not the pieces keep their newlines. */
  lemma HeaderInPieces(lines: seq<string>)
    ensures HeaderIndex(Pieces(lines)) == HeaderIndex(lines)
  {
    var i, k := HeaderIndex(Pieces(lines)), HeaderIndex(lines);
    if i < |lines| {
      TrimPiece(lines, i);
    }
    if k < |lines| {
      TrimPiece(lines, k);
    }
  }

  /** The lines after inserting: below the header, glued to a header without newline, or in front. */
  function InsertedLinesAt(lines: seq<string>, i: nat, line: string): (r: seq<string>)
    ensures |r| > |lines|
  {
    if i >= |lines| then ["[Interface]", line] + lines
    else if i == |lines| - 1 then lines[..i] + [lines[i] + line, ""]
    else lines[..i + 1] + [line] + lines[i + 1..]
  }

  function InsertedLines(lines: seq<string>, line: string): seq<string> {
    InsertedLinesAt(lines, HeaderIndex(lines), line)
  }

  lemma InsertBelow(lines: seq<string>, line: string, i: nat)
    requires i + 1 < |lines|
    ensures Concat(Pieces(lines)[..i + 1]) + (line + "\n") + Concat(Pieces(lines)[i + 1..]) ==
            Text(lines[..i + 1] + [line] + lines[i + 1..])
  {
    var after := lines[i + 1..];
    var n := |after| - 1;
    calc {
      Concat(Pieces(lines)[..i + 1]) + (line + "\n") + Concat(Pieces(lines)[i + 1..]);
      { PiecesUpTo(lines, i + 1); PiecesFrom(lines, i + 1); ConcatPieces(after); }
      Unlines(lines[..i + 1]) + (line + "\n") + Text(after);
      { TextAfter(lines[..i + 1], line, after); }
      Text(lines[..i + 1] + [line] + after);
    }
  }

  lemma {:induction false} TextAfter(before: seq<string>, line: string, after: seq<string>)
    requires after != []
    ensures Text(before + [line] + after) == Unlines(before) + (line + "\n") + Text(after)
  {
    if before == [] {
      assert before + [line] + after == [line] + after;
      JoinCons(line, after, "\n");
    } else {
      var rest := before[1..] + [line] + after;
      assert before + [line] + after == [before[0]] + rest;
      JoinCons(before[0], rest, "\n");
      TextAfter(before[1..], line, after);
    }
  }

  lemma {:induction false} TextGlued(before: seq<string>, last: string, line: string)
    ensures Unlines(before) + last + (line + "\n") == Text(before + [last + line, ""])
  {
    if before == [] {
      assert before + [last + line, ""] == [last + line] + [""];
      JoinCons(last + line, [""], "\n");
      calc {
        Unlines(before) + last + (line + "\n");
        { assert "" + last == last; }
        last + (line + "\n");
        (last + line) + "\n" + "";
      }
    } else {
      TextGlued(before[1..], last, line);
      var rest := before[1..] + [last + line, ""];
      assert before + [last + line, ""] == [before[0]] + rest;
      JoinCons(before[0], rest, "\n");
      Reassociate(before[0] + "\n", Unlines(before[1..]), last, line + "\n");
    }
  }

  lemma Reassociate(a: string, b: string, c: string, d: string)
    ensures a + b + c + d == a + (b + c + d)
  {
  }

  lemma InsertGlued(lines: seq<string>, line: string)
    requires lines != []
    ensures Concat(Pieces(lines)) + (line + "\n") ==
            Text(lines[..|lines| - 1] + [lines[|lines| - 1] + line, ""])
  {
    ConcatPieces(lines);
    TextIsUnlines(lines);
    TextGlued(lines[..|lines| - 1], lines[|lines| - 1], line);
  }

  lemma InsertInFront(lines: seq<string>, line: string)
    requires lines != []
    ensures "[Interface]\n" + (line + "\n") + Text(lines) == Text(["[Interface]", line] + lines)
  {
    var header := ["[Interface]"];
    calc {
      "[Interface]\n" + (line + "\n") + Text(lines);
      { assert Unlines(header) == "[Interface]" + "\n" + ""; }
      Unlines(header) + (line + "\n") + Text(lines);
      { TextAfter(header, line, lines); }
      Text(header + [line] + lines);
      { assert header + [line] + lines == ["[Interface]", line] + lines; }
      Text(["[Interface]", line] + lines);
    }
  }

  lemma InsertedText(config: string, i: nat, line: string)
    ensures InsertedAt(config, Pieces(Lines(config)), i, line) == Text(InsertedLinesAt(Lines(config), i, line))
  {
    var lines := Lines(config);
    var pieces := Pieces(lines);
    if i >= |lines| {
      TextOfLines(config);
      InsertInFront(lines, line);
    } else if i == |lines| - 1 {
      assert pieces[..i + 1] == pieces && pieces[i + 1..] == [];
      InsertGlued(lines, line);
    } else {
      InsertBelow(lines, line, i);
    }
  }

  lemma InsertedOneLiners(lines: seq<string>, i: nat, line: string)
    requires OneLiners(lines) && NoNewline(line)
    ensures OneLiners(InsertedLinesAt(lines, i, line))
  {
    assert NoNewline("[Interface]");
  }

  lemma LinesOfInserted(config: string, key: string, value: string)
    requires NoNewline(key) && NoNewline(value)
    ensures Lines(Inserted(config, key, value)) == InsertedLines(Lines(config), Assign(key, value))
  {
    var lines, line := Lines(config), Assign(key, value);
    HeaderInPieces(lines);
    InsertedText(config, HeaderIndex(lines), line);
    TextOfLines(config);
    InsertedOneLiners(lines, HeaderIndex(lines), line);
    LinesOfText(InsertedLinesAt(lines, HeaderIndex(lines), line));
  }

  // ---------------------------------------------------------------- sanitising

  /** Dropped lines vanish with their newline; a dropped last line leaves the newline before it. */
  function SanitizedLines(lines: seq<string>): (r: seq<string>)
    requires lines != []
    ensures r != []
    ensures OneLiners(lines) ==> OneLiners(r)
  {
    if |lines| == 1 then [if IsEmptyJunkLine(lines[0]) then "" else lines[0]]
    else if IsEmptyJunkLine(lines[0]) then SanitizedLines(lines[1..])
    else [lines[0]] + SanitizedLines(lines[1..])
  }

  lemma JunkPiece(line: string)
    ensures IsEmptyJunkLine(line + "\n") <==> IsEmptyJunkLine(line)
  {
    TrimEnded(line);
  }

  lemma {:induction false} SanitizedText(lines: seq<string>)
    requires lines != []
    ensures Concat(Kept(Pieces(lines))) == Text(SanitizedLines(lines))
  {
    if |lines| == 1 {
      assert Pieces(lines) == lines && lines[1..] == [];
    } else {
      SanitizedText(lines[1..]);
      JunkPiece(lines[0]);
      KeptStep(Pieces(lines), 0);
      assert Pieces(lines)[0..] == Pieces(lines);
      assert Pieces(lines)[1..] == Pieces(lines[1..]);
      if !IsEmptyJunkLine(lines[0]) {
        JoinCons(lines[0], SanitizedLines(lines[1..]), "\n");
      }
    }
  }

  lemma LinesOfSanitized(config: string)
    ensures Sanitize(config) == Text(SanitizedLines(Lines(config)))
    ensures Lines(Sanitize(config)) == SanitizedLines(Lines(config))
  {
    TextOfLines(config);
    SanitizedText(Lines(config));
    LinesOfText(SanitizedLines(Lines(config)));
  }
}
