/** The score-table reader of `run_vina` (utils/docking.py): the docking
    engine's standard output, as text, becomes an ordered list of
    (pose rank, binding affinity) pairs. Lines that do not read as such a
    pair are skipped, never reported. */
module ScoreTable {
  import opened Wrappers
  import opened Seqs
  import opened Text
  import opened Decimal

  /** One row of the engine's result table: the pose rank and its predicted
      binding affinity in kcal/mol. */
  datatype ScoreEntry = ScoreEntry(rank: int, affinity: real)

  /** The characters a score line may start with: the reader accepts the
      leading digits 1, 2 and 3 only, although nine poses are requested. */
  predicate IsRankDigit(c: char) {
    c == '1' || c == '2' || c == '3'
  }

  /** `line.strip().startswith(("1", "2", "3"))`. */
  predicate IsCandidate(line: string) {
    var t := Strip(line);
    t != "" && IsRankDigit(t[0])
  }

  /** The body of the reading loop for one line: the first whitespace token
      read by `int()`, the second by the float reader `parseNum`; `None`
      wherever Python raises and the bare `except` skips the line. */
  function ParseLine(line: string, parseNum: string -> Option<real>): (r: Option<ScoreEntry>)
    ensures r.Some? ==> IsCandidate(line) && |Tokens(line)| >= 2
    ensures r.Some? ==> r.value.rank >= 1
  {
    if !IsCandidate(line) then None
    else
      var toks := Tokens(line);
      FirstTokenStartsStripped(line);
      match ParseInt(toks[0])
      case None => None
      case Some(rank) =>
        if |toks| < 2 then None
        else
          match parseNum(toks[1])
          case None => None
          case Some(affinity) => Some(ScoreEntry(rank, affinity))
  }

  /** `ParseLine` as the per-line function of the reading loop. */
  function LineParser(parseNum: string -> Option<real>): string -> Option<ScoreEntry> {
    line => ParseLine(line, parseNum)
  }

  /** The score list `run_vina` returns next to the raw output. */
  function ParseScores(output: string, parseNum: string -> Option<real>): (r: seq<ScoreEntry>)
    ensures |r| <= |SplitLines(output)|
  {
    FilterMap(SplitLines(output), LineParser(parseNum))
  }

  /** A line yields an entry exactly when its stripped text starts with 1, 2
      or 3, it has at least two tokens, the first reads as an integer and
      the second as a number; the entry holds exactly those two values. */
  lemma ScoreLineAccepted(line: string, parseNum: string -> Option<real>)
    ensures ParseLine(line, parseNum).Some? <==>
      && IsCandidate(line)
      && |Tokens(line)| >= 2
      && ParseInt(Tokens(line)[0]).Some?
      && parseNum(Tokens(line)[1]).Some?
    ensures ParseLine(line, parseNum).Some? ==>
      ParseLine(line, parseNum).value ==
        ScoreEntry(ParseInt(Tokens(line)[0]).value, parseNum(Tokens(line)[1]).value)
  {
  }

  /** A line whose first non-blank character is anything but 1, 2 or 3 (the
      rows for poses 4 to 9 among them), and a blank line, never yield an
      entry, whatever the number reader says. */
  lemma ScoreLineRejected(line: string, parseNum: string -> Option<real>)
    requires AllSpace(line) || !IsRankDigit(line[LeadingSpaces(line)])
    ensures ParseLine(line, parseNum) == None
  {
  }

  /** The entries are exactly the successful lines, each once, in the order
      of the output; no other list of entries has this property. */
  lemma ScoresFromLinesInOrder(output: string, parseNum: string -> Option<real>, r: seq<ScoreEntry>)
    ensures r == ParseScores(output, parseNum) <==>
      IsSelection(r, SplitLines(output), LineParser(parseNum))
  {
    var lines := SplitLines(output);
    var f := LineParser(parseNum);
    assert ParseScores(output, parseNum) == FilterMap(lines, f);
    FilterMapCharacterization(r, lines, f);
  }

  /** `e` is what some line of `lines` with a rank digit after its leading
      whitespace reads as. */
  ghost predicate ReadFromRankLine(e: ScoreEntry, lines: seq<string>, parseNum: string -> Option<real>) {
    exists i :: 0 <= i < |lines| && IsCandidate(lines[i]) && ParseLine(lines[i], parseNum) == Some(e)
  }

  /** Every entry is the reading of some line of the output whose stripped
      text starts with 1, 2 or 3, and its rank is a positive integer. */
  lemma EntriesFromRankLines(output: string, parseNum: string -> Option<real>)
    ensures forall k :: 0 <= k < |ParseScores(output, parseNum)| ==>
      && ParseScores(output, parseNum)[k].rank >= 1
      && ReadFromRankLine(ParseScores(output, parseNum)[k], SplitLines(output), parseNum)
  {
    var lines := SplitLines(output);
    var r := ParseScores(output, parseNum);
    FilterMapSelects(lines, LineParser(parseNum));
    var idx :| SelectedBy(r, lines, LineParser(parseNum), idx);
    forall k | 0 <= k < |r|
      ensures r[k].rank >= 1 && ReadFromRankLine(r[k], lines, parseNum)
    {
      var i := idx[k];
      assert LineParser(parseNum)(lines[i]) == Some(r[k]);
      assert ParseLine(lines[i], parseNum) == Some(r[k]);
    }
  }

  /** Output read in two parts that meet at a line boundary gives the
      entries of the first part followed by those of the second. */
  lemma ScoresAppend(a: string, b: string, parseNum: string -> Option<real>)
    requires a == "" || EndsWithNewline(a)
    ensures ParseScores(a + b, parseNum) == ParseScores(a, parseNum) + ParseScores(b, parseNum)
  {
    SplitLinesAppend(a, b);
    FilterMapAppend(SplitLines(a), SplitLines(b), LineParser(parseNum));
  }

  /** The two tokens that open a line of the form `word1 spaces word2 tail`. */
  lemma FirstTwoTokens(w1: string, sp: string, w2: string, tail: string)
    requires w1 != "" && NoSpace(w1) && w2 != "" && NoSpace(w2)
    requires sp != "" && AllSpace(sp)
    requires tail == "" || IsSpace(tail[0])
    ensures |Tokens(w1 + sp + w2 + tail)| >= 2
    ensures Tokens(w1 + sp + w2 + tail)[0] == w1
    ensures Tokens(w1 + sp + w2 + tail)[1] == w2
  {
    var line := w1 + sp + w2 + tail;
    var rest2 := w2 + tail;
    var rest1 := sp + rest2;
    assert Tokens(line) == [w1] + Tokens(rest1) by {
      Regroup4(w1, sp, w2, tail);
      assert rest1[0] == sp[0];
      TokensWord(w1, rest1);
    }
    assert Tokens(rest1) == Tokens(rest2) by {
      TokensSkipSpace(sp, rest2);
    }
    assert Tokens(rest2) == [w2] + Tokens(tail) by {
      TokensWord(w2, tail);
    }
  }

  /** A row `lead rank spaces affinity tail`, indented by any run of
      whitespace as the engine's table is, reads as that pair. */
  lemma ReadRow(line: string, lead: string, w1: string, sp: string, w2: string, tail: string,
                parseNum: string -> Option<real>, rank: int, affinity: real)
    requires line == lead + (w1 + sp + w2 + tail)
    requires AllSpace(lead)
    requires w1 != "" && NoSpace(w1) && IsRankDigit(w1[0]) && w2 != "" && NoSpace(w2)
    requires sp != "" && AllSpace(sp)
    requires tail == "" || IsSpace(tail[0])
    requires ParseInt(w1) == Some(rank) && parseNum(w2) == Some(affinity)
    ensures ParseLine(line, parseNum) == Some(ScoreEntry(rank, affinity))
  {
    var row := w1 + sp + w2 + tail;
    FirstTwoTokens(w1, sp, w2, tail);
    TokensSkipSpace(lead, row);
    assert row[0] == w1[0];
    LeadingSpacesOf(lead, row);
    assert line[|lead|] == w1[0];
    assert !AllSpace(line);
    assert IsCandidate(line);
    ScoreLineAccepted(line, parseNum);
  }

  /** The same row as the whole output. */
  lemma ReadRowAlone(line: string, lead: string, w1: string, sp: string, w2: string, tail: string,
                     parseNum: string -> Option<real>, rank: int, affinity: real)
    requires line == lead + (w1 + sp + w2 + tail)
    requires '\n' !in lead && '\n' !in w1 && '\n' !in sp && '\n' !in w2 && '\n' !in tail
    requires AllSpace(lead)
    requires w1 != "" && NoSpace(w1) && IsRankDigit(w1[0]) && w2 != "" && NoSpace(w2)
    requires sp != "" && AllSpace(sp)
    requires tail == "" || IsSpace(tail[0])
    requires ParseInt(w1) == Some(rank) && parseNum(w2) == Some(affinity)
    ensures ParseScores(line, parseNum) == [ScoreEntry(rank, affinity)]
  {
    ReadRow(line, lead, w1, sp, w2, tail, parseNum, rank, affinity);
    assert '\n' !in line;
    ScoresOfOneLine(line, parseNum);
  }

  /** Output made of a single line holds that line's entry, if any. */
  lemma ScoresOfOneLine(line: string, parseNum: string -> Option<real>)
    requires line != "" && '\n' !in line
    ensures ParseLine(line, parseNum).Some? ==> ParseScores(line, parseNum) == [ParseLine(line, parseNum).value]
    ensures ParseLine(line, parseNum).None? ==> ParseScores(line, parseNum) == []
  {
    SplitLinesSingle(line);
    assert [line][1..] == [];
  }

  /** A literal decimal rank reads as its value. */
  lemma ReadDecimal(n: nat, text: string)
    requires text == DecimalString(n) && |text| <= MaxStrDigits
    ensures ParseInt(text) == Some(n)
  {
    ParseIntDecimalString(n);
  }

  /** The pieces of the row `   1       -7.2`. */
  lemma FirstRowPieces(tail: string)
    ensures "   1       -7.2" + tail == "   " + ("1" + "       " + "-7.2" + tail)
    ensures AllSpace("   ") && NoSpace("1") && NoSpace("-7.2") && AllSpace("       ")
    ensures '\n' !in "   " && '\n' !in "1" && '\n' !in "       " && '\n' !in "-7.2"
    ensures IsRankDigit("1"[0]) && ParseInt("1") == Some(1)
  {
    assert "   1       -7.2" == "   " + ("1" + "       " + "-7.2");
    ReadDecimal(1, "1");
  }

  /** The first row of the engine's table, `   1       -7.2      0.000      0.000`
      or with any other whitespace-led columns after the affinity, reads as
      rank 1 with affinity -7.2. */
  lemma ExampleFirstRow(tail: string, parseNum: string -> Option<real>)
    requires tail == "" || IsSpace(tail[0])
    requires '\n' !in tail
    requires parseNum("-7.2") == Some(-7.2)
    ensures ParseScores("   1       -7.2" + tail, parseNum) == [ScoreEntry(1, -7.2)]
  {
    FirstRowPieces(tail);
    ReadRowAlone("   1       -7.2" + tail, "   ", "1", "       ", "-7.2", tail, parseNum, 1, -7.2);
  }

  /** The pieces of the row `  10       -5.0`. */
  lemma TwoDigitRowPieces(tail: string)
    ensures "  10       -5.0" + tail == "  " + ("10" + "       " + "-5.0" + tail)
    ensures AllSpace("  ") && NoSpace("10") && NoSpace("-5.0") && AllSpace("       ")
    ensures '\n' !in "  " && '\n' !in "10" && '\n' !in "       " && '\n' !in "-5.0"
    ensures IsRankDigit("10"[0]) && ParseInt("10") == Some(10)
  {
    assert "  10       -5.0" == "  " + ("10" + "       " + "-5.0");
    ReadDecimal(10, "10");
  }

  /** A two-digit rank that starts with 1 is read whole: `  10       -5.0`
      is rank 10, not a rejected line. */
  lemma ExampleTwoDigitRank(tail: string, parseNum: string -> Option<real>)
    requires tail == "" || IsSpace(tail[0])
    requires '\n' !in tail
    requires parseNum("-5.0") == Some(-5.0)
    ensures ParseScores("  10       -5.0" + tail, parseNum) == [ScoreEntry(10, -5.0)]
  {
    TwoDigitRowPieces(tail);
    ReadRowAlone("  10       -5.0" + tail, "  ", "10", "       ", "-5.0", tail, parseNum, 10, -5.0);
  }

  /** The row of the fourth pose is dropped, whatever follows its rank and
      whatever the number reader says. */
  lemma ExampleFourthRowDropped(rest: string, parseNum: string -> Option<real>)
    requires '\n' !in rest
    ensures ParseScores("   4" + rest, parseNum) == []
  {
    var line := "   4" + rest;
    assert line == "   " + ("4" + rest);
    LeadingSpacesOf("   ", "4" + rest);
    assert line[3] == '4';
    ScoreLineRejected(line, parseNum);
    ScoresOfOneLine(line, parseNum);
  }
}
