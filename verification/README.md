# Docking output readers, in Dafny

This project models the two pieces of text processing in `utils/docking.py`
that sit between the docking engine and the rest of the application. Both
are written here as pure functions over strings, and their properties are
proved.

- **The score-table reader.** This is the loop at the end of `run_vina`. It
  takes the engine's standard output and returns the ordered list of
  (pose rank, binding affinity) pairs. A line is a candidate when its
  stripped text starts with `1`, `2` or `3`. A candidate line is split on
  whitespace: the first token is read with `int()` and the second with
  `float()`. Any line that fails is skipped.
- **The pose splitter and converter.** This is `extract_and_convert_poses`.
  It cuts the engine's multi-model output file at every occurrence of the
  text `MODEL` and drops the piece before the first one. Each later piece is
  rebuilt as `"MODEL\n" + (its lines not starting with ENDMDL, joined by
  "\n") + "\nENDMDL\n"`. Each block is then handed to a foreign converter.
  Any exception anywhere makes the whole result `[]`.

The cut works on substrings, not on the MODEL/ENDMDL records of the PDB
format. A `MODEL` anywhere in the text opens a block. The rest of a
`MODEL        1` line becomes the first body line of its block, and a bare
`MODEL` line gives an empty first body line.

## Modules

- `Wrappers` (`wrappers.dfy`): `Option`.
- `Seqs` (`seqs.dfy`): `FilterMap` models a comprehension with a filter, or a
  loop that appends the successes. It comes with an index-witness
  characterization: every success kept once, in order, and nothing else.
- `Text` (`text.dfy`): the Python string operations the code relies on.
  These are `strip()`, `split()`, `split(sep)`, `splitlines()`,
  `"\n".join`, `startswith` and substring occurrence.
- `Decimal` (`decimal.dfy`): `int()` on a token.
- `ScoreTable` (`score_table.dfy`): the reading loop of `run_vina`.
- `Poses` (`poses.dfy`): `extract_and_convert_poses`.

The two foreign parts are parameters of the functions:

- `parseNum: string -> Option<real>` stands for `float()`. `None` is the
  exception.
- `convert: string -> Option<string>` stands for the per-block temporary file
  plus Open Babel round trip. `None` is any exception it raises.
- The file read becomes an `Option<string>` argument, which is `None` when
  `open`/`read` raises.

Two points of the code's behaviour are easy to misread:

- **Ranks.** A line is read when its stripped text starts with `1`, `2` or
  `3`. So ranks 10 to 39 are read whole
  (`ScoreTable.ExampleTwoDigitRank`), and ranks 4 to 9 are never read
  (`ScoreTable.ExampleFourthRowDropped`).
- **Conversion failures.** All conversions run inside one `try`. The first
  failure ends the loop, later blocks are not attempted, and the whole
  result is `[]` (`Poses.ExtractAndConvertPoses`). Since `convert` is a pure
  parameter, whether later blocks are attempted does not show in the result.

## Model

| member | source | states |
|---|---|---|
| Seqs.FilterMapCharacterization | utils/docking.py:72 | A list equals the filtered list exactly when some strictly increasing choice of positions yields it and covers every position the filter accepts: each accepted element once, in order, and nothing else. |
| Seqs.FilterMapAppend | utils/docking.py:72 | Filtering two lists joined equals joining their filtered lists. |
| Text.Strip | utils/docking.py:42 | `strip()` is empty exactly when the line is blank. Otherwise it starts and ends with non-whitespace, starts at the first non-blank character and is followed only by whitespace. |
| Text.Tokens | utils/docking.py:44-45 | `split()` gives non-empty tokens without whitespace. There are none exactly when the line is blank, and the first token starts at the first non-blank character. |
| Text.TokensKeepText | utils/docking.py:44-45 | Concatenating the tokens of `split()` gives exactly the non-whitespace characters of the line, in order. |
| Text.SplitLines | utils/docking.py:41 | `splitlines()` gives no lines exactly for the empty text, and no line holds a line feed. |
| Text.SplitLinesRoundTrip | utils/docking.py:41 | Joining the lines with line feeds, plus a final line feed when the text had one, gives back the text. |
| Text.SplitJoinLines | utils/docking.py:71-73 | Lines without line feeds, joined and followed by a line feed and more text, split back into those lines followed by the lines of the rest. |
| Text.SplitLinesAppend | utils/docking.py:41 | Text cut at a line boundary splits into the lines of the first part followed by those of the second. |
| Text.SplitOn | utils/docking.py:65 | `split(sep)` gives at least one piece. The pieces joined with `sep` give back the text, no piece holds `sep`, and the first piece is a prefix of the text. |
| Decimal.ParseInt | utils/docking.py:44 | For a digit-led token, `int()` succeeds exactly on digits with single underscores between them and at most 4300 digits, the default conversion limit. A token led by 1 to 9 reads as a positive value, and the empty token fails. |
| Decimal.UnderscoresIgnored | utils/docking.py:44 | A digit part reads as its digits with the underscores removed, and fails exactly when they do. |
| Decimal.ParseIntDecimalString | utils/docking.py:44 | Reading the decimal text of a natural number gives that number back when it has at most 4300 digits, and fails otherwise. |
| ScoreTable.ParseLine | utils/docking.py:42-48 | An entry comes only from a candidate line with at least two tokens, and its rank is at least 1. |
| ScoreTable.ScoreLineAccepted | utils/docking.py:42-48 | A line yields an entry exactly when it is a candidate, has two tokens, the first reads as an integer and the second as a number. The entry holds exactly those two values. |
| ScoreTable.ScoreLineRejected | utils/docking.py:41-42 | A blank line, or one whose first non-blank character is not 1, 2 or 3, yields no entry, whatever the number reader does. |
| ScoreTable.ParseScores | utils/docking.py:40-50 | There are at most as many entries as output lines. |
| ScoreTable.ScoresFromLinesInOrder | utils/docking.py:40-46 | A list is the result exactly when it holds every successful line's entry once, in output order, and nothing else. |
| ScoreTable.EntriesFromRankLines | utils/docking.py:42-46 | Every entry is the reading of a candidate line of the output, and its rank is positive. |
| ScoreTable.ScoresAppend | utils/docking.py:41-46 | Output cut at a line boundary gives the entries of the first part followed by those of the second. |
| ScoreTable.ReadRow | utils/docking.py:42-46 | A line `indent rank spaces affinity rest`, with any whitespace indent and a readable rank and affinity, yields exactly that pair. |
| ScoreTable.ExampleFirstRow | utils/docking.py:41-46 | The indented row `   1       -7.2 ...` alone yields rank 1 and affinity -7.2. |
| ScoreTable.ExampleTwoDigitRank | utils/docking.py:42-44 | The row `  10       -5.0` yields rank 10. |
| ScoreTable.ExampleFourthRowDropped | utils/docking.py:42 | A row `   4 ...` yields nothing, whatever follows the rank. |
| Poses.SplitBlocks | utils/docking.py:65-73 | There is one block per occurrence of `MODEL`, and block k is the rebuild of the piece after occurrence k. |
| Poses.MarkerCount | utils/docking.py:65-66 | Cutting at `MODEL` gives one piece more than there are occurrences. |
| Poses.SegmentsReassemble | utils/docking.py:65 | The header, `MODEL` and the later pieces joined by `MODEL` give back the file text. |
| Poses.SplitAfterHeader | utils/docking.py:65 | When `h` holds no `MODEL`, cutting `h + MODEL + t` gives `h` followed by the pieces of `t`. |
| Poses.HeaderDiscarded | utils/docking.py:65-70 | Text before the first `MODEL` has no effect on the blocks. |
| Poses.BlockBody | utils/docking.py:71-72 | A list is the body of a piece exactly when it holds every line of the piece not starting with `ENDMDL`, once each, in order, and nothing else. |
| Poses.BodyLinesClean | utils/docking.py:71-72 | Each body line is a line of its piece, without line feeds, not starting with `ENDMDL`. |
| Poses.BlockShape | utils/docking.py:73 | A block starts with `MODEL\n` and ends with `\nENDMDL\n`. Its lines are `MODEL`, the body (or one empty line) and `ENDMDL`, and only the last starts with `ENDMDL`. |
| Poses.OneMarkerPerBlock | utils/docking.py:71-73 | A block rebuilt from a piece holds exactly one `MODEL`. |
| Poses.BodiesKeepLines | utils/docking.py:70-73 | When each piece but the last ends at a line boundary, the bodies of all blocks, in order, are exactly the non-`ENDMDL` lines of everything after the first `MODEL`, markers cut out. |
| Poses.RebuildOneModel | utils/docking.py:71-73 | The piece `serial\natom\nENDMDL\n` becomes `MODEL\nserial\natom\nENDMDL\n`: the serial gets a line of its own and the closing record is rebuilt. |
| Poses.TwoModelFile | utils/docking.py:65-73 | A two-model file gives exactly two blocks, in file order, each with its serial on a line of its own. |
| Poses.ConvertAll | utils/docking.py:70-83 | The conversion loop succeeds exactly when every block converts. It then gives one pose per block, pose k being the conversion of block k. |
| Poses.ExtractAndConvertPoses | utils/docking.py:55-88 | An unreadable file, a file without `MODEL`, or any failed conversion gives `[]`. Otherwise there is one pose per occurrence of `MODEL`, pose k being the conversion of block k. |

## Left out

- The `vina` subprocess call and its argument list (utils/docking.py:17-37) are external process I/O. The model takes the standard output as text.
- `prepare_ligand` and `prepare_protein` (utils/docking.py:6-15) are only Open Babel calls. The same goes for the per-block conversion (utils/docking.py:79-82), which is the `convert` parameter.
- The temporary file (utils/docking.py:75-77) is filesystem I/O. Its failures are part of `convert` returning `None`.
- The file read (utils/docking.py:62-63) is filesystem I/O. Its text or failure is the `file` argument.
- The debug and error messages (utils/docking.py:67, 85) are console output only.
- `float()` is the abstract `parseNum`. Nothing is assumed about it.
- Decimal.ParseInt: does not accept non-ASCII Unicode digits, which Python's `int()` also accepts. Surrounding whitespace cannot occur, because tokens hold none. The digit limit is fixed at CPython's default of 4300; a limit changed with `sys.set_int_max_str_digits` or `PYTHONINTMAXSTRDIGITS`, and interpreters older than the limit, are not modelled.
- Text.SplitLines: breaks lines at the line feed only. Python's `splitlines()` also breaks at carriage returns, form feeds and other separators; the engine's output uses line feeds.
- The Streamlit application, the viewer, the database search and the download helpers are not part of this model.
