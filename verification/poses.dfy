/** Pose extraction of `extract_and_convert_poses` (utils/docking.py): the
    docking engine's multi-model output file is cut at every occurrence of
    the text `MODEL`, each piece after the first is rebuilt as a
    single-model block, and every block is converted to the display format
    by a foreign converter; one failure anywhere empties the whole result.
    The cut works on substrings, not on the MODEL/ENDMDL records of the PDB
    file format: a `MODEL` anywhere in the text opens a block, and the rest
    of a `MODEL        1` record line (its serial number) becomes the first
    body line of the block. */
module Poses {
  import opened Wrappers
  import opened Seqs
  import opened Text

  const Marker: string := "MODEL"
  const EndMarker: string := "ENDMDL"

  /** The filter of the rebuild: a line opening with `ENDMDL` is dropped. */
  function KeepLine(line: string): Option<string> {
    if StartsWith(line, EndMarker) then None else Some(line)
  }

  /** The lines of a piece that survive into its block. */
  function BodyLines(segment: string): seq<string> {
    FilterMap(SplitLines(segment), KeepLine)
  }

  /** `"MODEL\n" + "\n".join(pose_lines) + "\nENDMDL\n"`. */
  function RebuildBlock(segment: string): string {
    Marker + "\n" + JoinLines(BodyLines(segment)) + "\n" + EndMarker + "\n"
  }

  /** The pieces after the first occurrence of `MODEL`, i.e.
      `content.split("MODEL")[1:]`. */
  function Segments(content: string): seq<string> {
    SplitOn(content, Marker)[1..]
  }

  /** The rebuilt single-model blocks of a file, one per occurrence of
      `MODEL`, in file order. */
  function SplitBlocks(content: string): (blocks: seq<string>)
    ensures |blocks| == CountOcc(content, Marker) == |Segments(content)|
    ensures forall k :: 0 <= k < |blocks| ==> blocks[k] == RebuildBlock(Segments(content)[k])
  {
    var parts := SplitOn(content, Marker);
    MarkerCount(content);
    if |parts| <= 1 then []
    else seq(|parts| - 1, k requires 0 <= k < |parts| - 1 => RebuildBlock(parts[k + 1]))
  }

  /** The per-block conversion loop: `None` as soon as one block fails. */
  function ConvertAll(blocks: seq<string>, convert: string -> Option<string>): (r: Option<seq<string>>)
    ensures r.Some? <==> forall k :: 0 <= k < |blocks| ==> convert(blocks[k]).Some?
    ensures r.Some? ==> |r.value| == |blocks|
    ensures r.Some? ==> forall k :: 0 <= k < |blocks| ==> r.value[k] == convert(blocks[k]).value
  {
    if blocks == [] then Some([])
    else
      match convert(blocks[0])
      case None => None
      case Some(pose) =>
        match ConvertAll(blocks[1..], convert)
        case None =>
          assert forall k :: 1 <= k < |blocks| ==> blocks[1..][k - 1] == blocks[k];
          None
        case Some(poses) =>
          assert forall k :: 1 <= k < |blocks| ==> blocks[1..][k - 1] == blocks[k];
          Some([pose] + poses)
  }

  /** `extract_and_convert_poses`: `file` is the text read from the output
      path, `None` when opening or reading it raises; `convert` is the
      foreign per-block conversion, `None` when it raises. */
  function ExtractAndConvertPoses(file: Option<string>, convert: string -> Option<string>): (poses: seq<string>)
    ensures file.None? ==> poses == []
    ensures file.Some? && !Contains(file.value, Marker) ==> poses == []
    ensures file.Some? ==>
      (exists k :: 0 <= k < |SplitBlocks(file.value)| && convert(SplitBlocks(file.value)[k]).None?) ==>
        poses == []
    ensures file.Some? ==>
      (forall k :: 0 <= k < |SplitBlocks(file.value)| ==> convert(SplitBlocks(file.value)[k]).Some?) ==>
        && |poses| == CountOcc(file.value, Marker)
        && forall k :: 0 <= k < |poses| ==> poses[k] == convert(SplitBlocks(file.value)[k]).value
  {
    match file
    case None => []
    case Some(content) =>
      if |SplitOn(content, Marker)| <= 1 then []
      else
        match ConvertAll(SplitBlocks(content), convert)
        case None => []
        case Some(poses) => poses
  }

  // ---------------------------------------------------------------------
  // Counting the pieces

  /** After a `t` that does not open with `M`, `MODEL` cannot start at its
      first position. */
  lemma CountSkip(t: string)
    requires t != "" && t[0] != 'M'
    ensures CountOcc(t, Marker) == CountOcc(t[1..], Marker)
  {
    if |t| >= |Marker| {
      assert t[..|Marker|][0] == t[0];
    }
  }

  /** The same, for the suffix from position `i`. */
  lemma CountSkipAt(s: string, i: nat)
    requires i < |s| && s[i] != 'M'
    ensures CountOcc(s[i..], Marker) == CountOcc(s[i + 1..], Marker)
  {
    CountSkip(s[i..]);
    assert s[i..][1..] == s[i + 1..];
  }

  /** `MODEL` cannot overlap itself: an occurrence hides none at its next
      four positions. */
  lemma CountAfterMarker(s: string)
    requires |s| >= |Marker| && s[..|Marker|] == Marker
    ensures CountOcc(s[1..], Marker) == CountOcc(s[|Marker|..], Marker)
  {
    assert s[1] == 'O' && s[2] == 'D' && s[3] == 'E' && s[4] == 'L';
    CountSkipAt(s, 1);
    CountSkipAt(s, 2);
    CountSkipAt(s, 3);
    CountSkipAt(s, 4);
  }

  /** `len(content.split("MODEL")) == content.count("MODEL") + 1`. */
  lemma {:induction false} MarkerCount(s: string)
    ensures |SplitOn(s, Marker)| == CountOcc(s, Marker) + 1
    decreases |s|
  {
    if |s| < |Marker| {
    } else if s[..|Marker|] == Marker {
      MarkerCount(s[|Marker|..]);
      CountAfterMarker(s);
    } else {
      MarkerCount(s[1..]);
    }
  }

  /** A text without `MODEL` is a single piece. */
  lemma SplitWithoutMarker(s: string)
    requires !Contains(s, Marker)
    ensures SplitOn(s, Marker) == [s]
  {
    MarkerCount(s);
  }

  /** The text is the header, the first `MODEL`, and the pieces glued back
      together with `MODEL`: cutting loses nothing but the header. */
  lemma SegmentsReassemble(content: string)
    requires Contains(content, Marker)
    ensures content == SplitOn(content, Marker)[0] + Marker + JoinWith(Segments(content), Marker)
  {
    var parts := SplitOn(content, Marker);
    MarkerCount(content);
    assert parts[1..] == Segments(content);
  }

  // ---------------------------------------------------------------------
  // The header before the first MODEL

  /** Cutting `h + "MODEL" + t` where `h` holds no `MODEL`: `h` is the first
      piece and the cut of `t` follows. */
  lemma {:induction false} SplitAfterHeader(h: string, t: string)
    requires !Contains(h, Marker)
    ensures SplitOn(h + Marker + t, Marker) == [h] + SplitOn(t, Marker)
    decreases |h|
  {
    var s := h + Marker + t;
    if h == "" {
      assert s[..|Marker|] == Marker && s[|Marker|..] == t;
    } else {
      if |h| >= |Marker| {
        assert s[..|Marker|] == h[..|Marker|];
      } else {
        assert s[..|Marker|][|h|] == s[|h|] == 'M';
      }
      assert s[1..] == h[1..] + Marker + t;
      SplitAfterHeader(h[1..], t);
      assert [s[0]] + h[1..] == h;
    }
  }

  /** Whatever precedes the first `MODEL` never reaches a block. */
  lemma HeaderDiscarded(h: string, t: string)
    requires !Contains(h, Marker)
    ensures Segments(h + Marker + t) == SplitOn(t, Marker)
    ensures SplitBlocks(h + Marker + t) == SplitBlocks(Marker + t)
  {
    SplitAfterHeader(h, t);
    SplitAfterHeader("", t);
    assert "" + Marker + t == Marker + t;
  }

  // ---------------------------------------------------------------------
  // The shape of one block

  /** `r` is the body of a piece exactly when it lists, in order, every line
      of the piece that does not open with `ENDMDL`, and nothing else. */
  lemma BlockBody(segment: string, r: seq<string>)
    ensures r == BodyLines(segment) <==> IsSelection(r, SplitLines(segment), KeepLine)
  {
    FilterMapCharacterization(r, SplitLines(segment), KeepLine);
  }

  /** Every body line is a line of its piece, without line feeds, that does
      not open with `ENDMDL`. */
  lemma BodyLinesClean(segment: string)
    ensures forall k :: 0 <= k < |BodyLines(segment)| ==>
      && BodyLines(segment)[k] in SplitLines(segment)
      && '\n' !in BodyLines(segment)[k]
      && !StartsWith(BodyLines(segment)[k], EndMarker)
  {
    var lines := SplitLines(segment);
    var body := BodyLines(segment);
    FilterMapSelects(lines, KeepLine);
    var idx :| SelectedBy(body, lines, KeepLine, idx);
    forall k | 0 <= k < |body|
      ensures body[k] == lines[idx[k]] && !StartsWith(body[k], EndMarker)
    {
      assert KeepLine(lines[idx[k]]) == Some(body[k]);
    }
  }

  /** The lines between the `MODEL` and `ENDMDL` lines of a block: the body,
      or a single empty line when the body is empty. */
  function Interior(body: seq<string>): seq<string> {
    if body == [] then [""] else body
  }

  /** The text of a block around the joined body `j`, regrouped. */
  lemma BlockText(j: string)
    ensures Marker + "\n" + j + "\n" + EndMarker + "\n" == (Marker + "\n" + j) + "\n" + (EndMarker + "\n")
    ensures Marker + "\n" + j + "\n" + EndMarker + "\n" == Marker + ("\n" + (j + "\n" + (EndMarker + "\n")))
  {
  }

  /** A block text opens with the `MODEL` line and closes with `ENDMDL`. */
  lemma BlockEnds(j: string)
    ensures StartsWith(Marker + "\n" + j + "\n" + EndMarker + "\n", Marker + "\n")
    ensures EndsWith(Marker + "\n" + j + "\n" + EndMarker + "\n", "\n" + EndMarker + "\n")
  {
    var b := Marker + "\n" + j + "\n" + EndMarker + "\n";
    assert b[..|Marker| + 1] == Marker + "\n";
    assert b[|b| - 8..] == "\n" + EndMarker + "\n";
  }

  /** The lines of a rebuilt block: `MODEL`, the body (or one empty line),
      `ENDMDL`. */
  lemma BlockLines(segment: string)
    ensures SplitLines(RebuildBlock(segment)) == [Marker] + Interior(BodyLines(segment)) + [EndMarker]
  {
    var body := BodyLines(segment);
    BodyLinesClean(segment);
    var ls := [Marker] + Interior(body);
    assert JoinLines(ls) == Marker + "\n" + JoinLines(body) by {
      JoinLinesCons(ls);
      assert ls[1..] == Interior(body);
    }
    BlockText(JoinLines(body));
    SplitJoinLines(ls, EndMarker + "\n");
    EndMarkerLine();
  }

  /** A rebuilt block opens with a `MODEL` line, closes with an `ENDMDL` line
      and a final line feed, its lines are `MODEL`, the body and `ENDMDL`,
      and its last line is the only one opening with `ENDMDL`. */
  lemma BlockShape(segment: string)
    ensures StartsWith(RebuildBlock(segment), Marker + "\n")
    ensures EndsWith(RebuildBlock(segment), "\n" + EndMarker + "\n")
    ensures SplitLines(RebuildBlock(segment)) == [Marker] + Interior(BodyLines(segment)) + [EndMarker]
    ensures var lines := SplitLines(RebuildBlock(segment));
      forall k :: 0 <= k < |lines| ==> (StartsWith(lines[k], EndMarker) <==> k == |lines| - 1)
  {
    var body := BodyLines(segment);
    BlockEnds(JoinLines(body));
    BlockLines(segment);
    BodyLinesClean(segment);
    var lines := [Marker] + Interior(body) + [EndMarker];
    forall k | 0 <= k < |lines| - 1
      ensures !StartsWith(lines[k], EndMarker)
    {
      if k > 0 {
        assert lines[k] == Interior(body)[k - 1];
      }
    }
  }

  /** `"ENDMDL\n"` is the single line `ENDMDL`. */
  lemma EndMarkerLine()
    ensures SplitLines(EndMarker + "\n") == [EndMarker]
  {
    SplitLinesCons(EndMarker, "");
    assert EndMarker + "\n" + "" == EndMarker + "\n";
  }

  /** `ENDMDL` holds no `MODEL`. */
  lemma EndMarkerAvoidsMarker()
    ensures !Contains(EndMarker + "\n", Marker)
  {
    var e := EndMarker + "\n";
    CountSkip(e);
    assert e[1..] == "NDMDL\n";
    CountSkip(e[1..]);
    assert e[1..][1..] == "DMDL\n";
    CountSkip(e[1..][1..]);
    assert e[1..][1..][1..] == "MDL\n";
  }

  /** A text opening with `MODEL` and holding no other counts one. */
  lemma CountMarkerThen(r: string)
    requires !Contains(r, Marker)
    ensures CountOcc(Marker + r, Marker) == 1
  {
    var s := Marker + r;
    assert s[..|Marker|] == Marker && s[|Marker|..] == r;
    CountAfterMarker(s);
  }

  /** The body lines of a piece without `MODEL` hold none either. */
  lemma BodyAvoidsMarker(segment: string)
    requires !Contains(segment, Marker)
    ensures !Contains(JoinLines(BodyLines(segment)), Marker)
  {
    var lines := SplitLines(segment);
    var body := BodyLines(segment);
    LinesAvoid(segment, Marker);
    BodyLinesClean(segment);
    forall k | 0 <= k < |body|
      ensures !Contains(body[k], Marker)
    {
      var i :| 0 <= i < |lines| && lines[i] == body[k];
    }
    JoinLinesAvoid(body, Marker);
  }

  /** A line feed holds no `MODEL`, so one in front of a text without
      `MODEL` adds none. */
  lemma NewlineThenAvoids(x: string)
    requires !Contains(x, Marker)
    ensures !Contains("\n" + x, Marker)
  {
    NotContainsAcrossNewline("", x, Marker);
    assert "" + "\n" + x == "\n" + x;
  }

  /** A block whose body text holds no `MODEL` holds exactly one. */
  lemma MarkerBlockCount(j: string)
    requires !Contains(j, Marker)
    ensures CountOcc(Marker + "\n" + j + "\n" + EndMarker + "\n", Marker) == 1
  {
    var tail := EndMarker + "\n";
    EndMarkerAvoidsMarker();
    NotContainsAcrossNewline(j, tail, Marker);
    NewlineThenAvoids(j + "\n" + tail);
    BlockText(j);
    CountMarkerThen("\n" + (j + "\n" + tail));
  }

  /** A piece without `MODEL` is rebuilt into a block holding exactly one. */
  lemma OneMarkerPerBlock(segment: string)
    requires !Contains(segment, Marker)
    ensures CountOcc(RebuildBlock(segment), Marker) == 1
  {
    BodyAvoidsMarker(segment);
    MarkerBlockCount(JoinLines(BodyLines(segment)));
  }

  // ---------------------------------------------------------------------
  // No line is lost

  /** The bodies of consecutive pieces. */
  function Bodies(segments: seq<string>): (r: seq<seq<string>>)
    ensures |r| == |segments|
  {
    if segments == [] then [] else [BodyLines(segments[0])] + Bodies(segments[1..])
  }

  /** Every piece but the last ends where a line ends: each `MODEL` after
      the first opens a line, or directly follows another `MODEL`. */
  ghost predicate PiecesEndLines(segments: seq<string>) {
    forall k :: 0 <= k < |segments| - 1 ==> segments[k] == "" || EndsWithNewline(segments[k])
  }

  /** When the pieces end at line boundaries, the bodies of all blocks are,
      in order, exactly the lines of the text after the first `MODEL` (with
      the markers cut out) that do not open with `ENDMDL`. */
  lemma {:induction false} BodiesKeepLines(segments: seq<string>)
    requires PiecesEndLines(segments)
    ensures Flatten(Bodies(segments)) == FilterMap(SplitLines(Flatten(segments)), KeepLine)
  {
    if segments != [] {
      var a := segments[0];
      var rest := segments[1..];
      assert PiecesEndLines(rest) by {
        forall k | 0 <= k < |rest| - 1
          ensures rest[k] == "" || EndsWithNewline(rest[k])
        {
          assert rest[k] == segments[k + 1];
        }
      }
      BodiesKeepLines(rest);
      assert Bodies(segments)[1..] == Bodies(rest);
      if rest == [] {
        assert Flatten(segments) == a by {
          assert Flatten(segments) == a + Flatten(rest);
        }
        assert Flatten(Bodies(segments)) == BodyLines(a) by {
          assert Flatten(Bodies(segments)) == BodyLines(a) + Flatten(Bodies(rest));
        }
      } else {
        SplitLinesAppend(a, Flatten(rest));
        FilterMapAppend(SplitLines(a), SplitLines(Flatten(rest)), KeepLine);
      }
    }
  }

  // ---------------------------------------------------------------------
  // A two-model file

  /** A piece `serial + "\n" + a + "\nENDMDL\n"` holding one atom line `a`
      after the rest `serial` of its `MODEL` line. */
  predicate PlainLine(x: string) {
    '\n' !in x && !StartsWith(x, EndMarker) && !Contains(x, Marker)
  }

  /** The text of a piece, regrouped. */
  lemma PieceText(x: string, y: string)
    ensures x + "\n" + y + "\n" + EndMarker + "\n" == (x + "\n" + y) + "\n" + (EndMarker + "\n")
    ensures x + "\n" + y + "\n" + EndMarker + "\n" == x + "\n" + (y + "\n" + (EndMarker + "\n"))
  {
  }

  /** The lines of a piece of the two-model file. */
  lemma PieceLines(serial: string, a: string)
    requires PlainLine(serial) && PlainLine(a)
    ensures SplitLines(serial + "\n" + a + "\n" + EndMarker + "\n") == [serial, a, EndMarker]
  {
    var two := [serial, a];
    assert JoinLines(two) == serial + "\n" + a by {
      JoinLinesCons(two);
      assert two[1..] == [a];
    }
    PieceText(serial, a);
    SplitJoinLines(two, EndMarker + "\n");
    EndMarkerLine();
  }

  /** The rest of the `MODEL` line becomes the first body line of the block
      (an empty one when nothing follows `MODEL` on its line), and the
      `ENDMDL` line is replaced by the closing one. */
  lemma RebuildOneModel(serial: string, a: string)
    requires PlainLine(serial) && PlainLine(a)
    ensures RebuildBlock(serial + "\n" + a + "\n" + EndMarker + "\n")
         == Marker + "\n" + serial + "\n" + a + "\n" + EndMarker + "\n"
  {
    var seg := serial + "\n" + a + "\n" + EndMarker + "\n";
    var two := [serial, a];
    PieceLines(serial, a);
    assert BodyLines(seg) == two by {
      assert [serial, a, EndMarker] == two + [EndMarker];
      FilterMapAppend(two, [EndMarker], KeepLine);
      FilterMapAppend([serial], [a], KeepLine);
      assert two == [serial] + [a];
    }
    assert JoinLines(two) == serial + "\n" + a by {
      JoinLinesCons(two);
      assert two[1..] == [a];
    }
    BlockOfTwo(serial, a);
  }

  /** A block around two joined lines, regrouped to the left. */
  lemma BlockOfTwo(x: string, y: string)
    ensures Marker + "\n" + (x + "\n" + y) + "\n" + EndMarker + "\n"
         == Marker + "\n" + x + "\n" + y + "\n" + EndMarker + "\n"
  {
  }

  /** A piece of the two-model file holds no `MODEL`. */
  lemma PieceAvoidsMarker(serial: string, a: string)
    requires PlainLine(serial) && PlainLine(a)
    ensures !Contains(serial + "\n" + a + "\n" + EndMarker + "\n", Marker)
  {
    var tail := EndMarker + "\n";
    EndMarkerAvoidsMarker();
    NotContainsAcrossNewline(a, tail, Marker);
    NotContainsAcrossNewline(serial, a + "\n" + tail, Marker);
    PieceText(serial, a);
  }

  /** A file of two models, each `MODEL` record carrying `serial1` or
      `serial2` (`"        1"` in the docking engine's output, or nothing),
      one atom line and an `ENDMDL` record, gives two blocks, each with the
      serial on a line of its own. */
  lemma TwoModelFile(serial1: string, a1: string, serial2: string, a2: string)
    requires PlainLine(serial1) && PlainLine(a1) && PlainLine(serial2) && PlainLine(a2)
    ensures var p1 := serial1 + "\n" + a1 + "\n" + EndMarker + "\n";
      var p2 := serial2 + "\n" + a2 + "\n" + EndMarker + "\n";
      SplitBlocks(Marker + p1 + Marker + p2)
        == [ Marker + "\n" + serial1 + "\n" + a1 + "\n" + EndMarker + "\n"
           , Marker + "\n" + serial2 + "\n" + a2 + "\n" + EndMarker + "\n" ]
  {
    var p1 := serial1 + "\n" + a1 + "\n" + EndMarker + "\n";
    var p2 := serial2 + "\n" + a2 + "\n" + EndMarker + "\n";
    var content := Marker + p1 + Marker + p2;
    PieceAvoidsMarker(serial1, a1);
    PieceAvoidsMarker(serial2, a2);
    assert content == "" + Marker + (p1 + Marker + p2) by {
      Regroup4(Marker, p1, Marker, p2);
    }
    SplitAfterHeader("", p1 + Marker + p2);
    SplitAfterHeader(p1, p2);
    SplitWithoutMarker(p2);
    assert Segments(content) == [p1, p2];
    RebuildOneModel(serial1, a1);
    RebuildOneModel(serial2, a2);
  }
}
