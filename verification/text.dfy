/** The Python `str` operations the docking glue relies on, over strings as
    sequences of characters: `strip()`, `split()` with no argument,
    `split(sep)`, `splitlines()`, `"\n".join(...)` and `startswith`. */
module Text {
  import opened Wrappers
  import opened Seqs

  /** Python's `str.isspace` on one character: the ASCII whitespace and
      separator controls, NEL, NBSP and the Unicode space separators. */
  predicate IsSpace(c: char) {
    || c == ' ' || c == '\t' || c == '\n' || c == '\r'
    || c == '\U{000B}' || c == '\U{000C}'
    || ('\U{001C}' <= c <= '\U{001F}')
    || c == '\U{0085}' || c == '\U{00A0}' || c == '\U{1680}'
    || ('\U{2000}' <= c <= '\U{200A}')
    || c == '\U{2028}' || c == '\U{2029}' || c == '\U{202F}'
    || c == '\U{205F}' || c == '\U{3000}'
  }

  ghost predicate AllSpace(s: string) {
    forall i :: 0 <= i < |s| ==> IsSpace(s[i])
  }

  ghost predicate NoSpace(s: string) {
    forall i :: 0 <= i < |s| ==> !IsSpace(s[i])
  }

  predicate StartsWith(s: string, prefix: string) {
    prefix <= s
  }

  predicate EndsWith(s: string, suffix: string) {
    |suffix| <= |s| && s[|s| - |suffix|..] == suffix
  }

  // ---------------------------------------------------------------------
  // strip()

  /** Length of the whitespace run that opens `s`. */
  function LeadingSpaces(s: string): (n: nat)
    ensures n <= |s|
    ensures forall i :: 0 <= i < n ==> IsSpace(s[i])
    ensures n < |s| ==> !IsSpace(s[n])
  {
    if s == "" || !IsSpace(s[0]) then 0 else 1 + LeadingSpaces(s[1..])
  }

  /** Length of the whitespace run that closes `s`. */
  function TrailingSpaces(s: string): (n: nat)
    ensures n <= |s|
    ensures forall i :: |s| - n <= i < |s| ==> IsSpace(s[i])
    ensures n < |s| ==> !IsSpace(s[|s| - 1 - n])
  {
    if s == "" || !IsSpace(s[|s| - 1]) then 0 else 1 + TrailingSpaces(s[..|s| - 1])
  }

  /** The whitespace run that opens `sp + x` is `sp` when `x` opens with a
      non-whitespace character. */
  lemma LeadingSpacesOf(sp: string, x: string)
    requires AllSpace(sp) && x != "" && !IsSpace(x[0])
    ensures LeadingSpaces(sp + x) == |sp|
  {
    var s := sp + x;
    assert s[|sp|] == x[0];
    assert forall i :: 0 <= i < |sp| ==> s[i] == sp[i];
  }

  /** `s.strip()`: `s` without its leading and trailing whitespace. */
  function Strip(s: string): (r: string)
    ensures r == "" <==> AllSpace(s)
    ensures r != "" ==> !IsSpace(r[0]) && !IsSpace(r[|r| - 1])
    ensures r != "" ==> r[0] == s[LeadingSpaces(s)]
    ensures r <= s[LeadingSpaces(s)..]
    ensures forall i :: LeadingSpaces(s) + |r| <= i < |s| ==> IsSpace(s[i])
  {
    var a := LeadingSpaces(s);
    var t := s[a..];
    var r := t[..|t| - TrailingSpaces(t)];
    StripBlank(s, a, t, r);
    StripTail(s, a, t, r);
    r
  }

  /** The stripped text is empty exactly when the text is blank. */
  lemma StripBlank(s: string, a: nat, t: string, r: string)
    requires a == LeadingSpaces(s) && t == s[a..] && r == t[..|t| - TrailingSpaces(t)]
    ensures r == "" <==> AllSpace(s)
  {
  }

  /** Only whitespace follows the stripped text. */
  lemma StripTail(s: string, a: nat, t: string, r: string)
    requires a == LeadingSpaces(s) && t == s[a..] && r == t[..|t| - TrailingSpaces(t)]
    ensures forall i :: a + |r| <= i < |s| ==> IsSpace(s[i])
  {
    forall i | a + |r| <= i < |s|
      ensures IsSpace(s[i])
    {
      assert s[i] == t[i - a];
    }
  }

  // ---------------------------------------------------------------------
  // split() with no separator

  /** Length of the non-whitespace run that opens `s`. */
  function TokenLen(s: string): (n: nat)
    ensures n <= |s|
    ensures forall i :: 0 <= i < n ==> !IsSpace(s[i])
    ensures n < |s| ==> IsSpace(s[n])
  {
    if s == "" || IsSpace(s[0]) then 0 else 1 + TokenLen(s[1..])
  }

  /** `s.split()`: the maximal runs of non-whitespace characters, in order. */
  function Tokens(s: string): (r: seq<string>)
    ensures forall k :: 0 <= k < |r| ==> r[k] != "" && NoSpace(r[k])
    ensures r == [] <==> AllSpace(s)
    ensures r != [] ==> r[0] <= s[LeadingSpaces(s)..]
    decreases |s|
  {
    if s == "" then []
    else if IsSpace(s[0]) then
      var rest := Tokens(s[1..]);
      SkipLeadingSpace(s);
      rest
    else
      var n := TokenLen(s);
      var rest := Tokens(s[n..]);
      assert !AllSpace(s);
      assert LeadingSpaces(s) == 0;
      [s[..n]] + rest
  }

  /** Dropping a leading whitespace character changes neither whether a
      text is blank nor where its first token starts. */
  lemma SkipLeadingSpace(s: string)
    requires s != "" && IsSpace(s[0])
    ensures AllSpace(s) <==> AllSpace(s[1..])
    ensures LeadingSpaces(s) == 1 + LeadingSpaces(s[1..])
    ensures s[1..][LeadingSpaces(s[1..])..] == s[LeadingSpaces(s)..]
  {
    assert forall i :: 1 <= i < |s| ==> s[1..][i - 1] == s[i];
  }

  /** A word followed by whitespace or the end is the next token. */
  lemma TokensWord(w: string, rest: string)
    requires w != "" && NoSpace(w)
    requires rest == "" || IsSpace(rest[0])
    ensures Tokens(w + rest) == [w] + Tokens(rest)
  {
    var s := w + rest;
    var n := TokenLen(s);
    assert forall i :: 0 <= i < |w| ==> s[i] == w[i];
    if rest != "" {
      assert s[|w|] == rest[0];
    }
    assert n == |w|;
    assert s[..n] == w;
    assert s[n..] == rest;
  }

  /** Whitespace before the next token is skipped. */
  lemma {:induction false} TokensSkipSpace(sp: string, rest: string)
    requires AllSpace(sp)
    ensures Tokens(sp + rest) == Tokens(rest)
    decreases |sp|
  {
    if sp != "" {
      assert (sp + rest)[1..] == sp[1..] + rest;
      TokensSkipSpace(sp[1..], rest);
    } else {
      assert sp + rest == rest;
    }
  }

  function KeepNonSpace(c: char): Option<char> {
    if IsSpace(c) then None else Some(c)
  }

  /** `s` with every whitespace character removed. */
  function NonSpace(s: string): string {
    FilterMap(s, KeepNonSpace)
  }

  /** A text without whitespace keeps all its characters. */
  lemma {:induction false} NonSpaceOfNoSpace(s: string)
    requires NoSpace(s)
    ensures NonSpace(s) == s
  {
    if s != "" {
      assert NoSpace(s[1..]);
      NonSpaceOfNoSpace(s[1..]);
      assert s == [s[0]] + s[1..];
    }
  }

  /** `split()` loses nothing but whitespace and reorders nothing: the
      tokens, concatenated, are the non-whitespace characters of `s`. */
  lemma {:induction false} TokensKeepText(s: string)
    ensures Flatten(Tokens(s)) == NonSpace(s)
    decreases |s|
  {
    if s == "" {
    } else if IsSpace(s[0]) {
      TokensKeepText(s[1..]);
    } else {
      var n := TokenLen(s);
      TokensKeepText(s[n..]);
      assert s == s[..n] + s[n..];
      FilterMapAppend(s[..n], s[n..], KeepNonSpace);
      NonSpaceOfNoSpace(s[..n]);
      var r := Tokens(s);
      assert r == [s[..n]] + Tokens(s[n..]);
      assert r[1..] == Tokens(s[n..]);
    }
  }

  /** `strip()` and `split()` agree on the first character: the first token
      exists exactly when the stripped text is non-empty, and it starts with
      the stripped text's first character. */
  lemma FirstTokenStartsStripped(s: string)
    ensures Tokens(s) != [] <==> Strip(s) != ""
    ensures Tokens(s) != [] ==> Tokens(s)[0][0] == Strip(s)[0]
  {
  }

  // ---------------------------------------------------------------------
  // splitlines() and "\n".join(...)

  /** Position of the first line feed in `s`, or `|s|` when there is none. */
  function LineEnd(s: string): (i: nat)
    ensures i <= |s|
    ensures '\n' !in s[..i]
    ensures i < |s| ==> s[i] == '\n'
  {
    if s == "" || s[0] == '\n' then 0
    else
      var i := 1 + LineEnd(s[1..]);
      assert s[..i] == [s[0]] + s[1..][..i - 1];
      i
  }

  /** `sep.join(parts)`. */
  function JoinWith(parts: seq<string>, sep: string): string {
    if parts == [] then ""
    else if |parts| == 1 then parts[0]
    else parts[0] + sep + JoinWith(parts[1..], sep)
  }

  /** `"\n".join(lines)`. */
  function JoinLines(lines: seq<string>): string {
    JoinWith(lines, "\n")
  }

  /** The text ends with a line feed. */
  predicate EndsWithNewline(s: string) {
    s != "" && s[|s| - 1] == '\n'
  }

  /** `s.splitlines()` with the line feed as the only line boundary: a final
      line feed does not open an empty last line, and `""` has no lines. */
  function SplitLines(s: string): (r: seq<string>)
    ensures r == [] <==> s == ""
    ensures forall k :: 0 <= k < |r| ==> '\n' !in r[k]
    decreases |s|
  {
    if s == "" then []
    else
      var i := LineEnd(s);
      if i == |s| then [s]
      else if i + 1 == |s| then [s[..i]]
      else [s[..i]] + SplitLines(s[i + 1..])
  }

  /** A non-empty text without line feeds is a single line. */
  lemma SplitLinesSingle(s: string)
    requires s != "" && '\n' !in s
    ensures SplitLines(s) == [s]
  {
  }

  /** Splitting loses nothing but the line feeds: rejoining the lines, plus
      the final line feed if there was one, gives back the text. */
  lemma {:induction false} SplitLinesRoundTrip(s: string)
    ensures JoinLines(SplitLines(s)) + (if EndsWithNewline(s) then "\n" else "") == s
    decreases |s|
  {
    if s != "" {
      var i := LineEnd(s);
      if i == |s| {
        assert s[..i] == s;
      } else {
        assert s == s[..i] + "\n" + s[i + 1..];
        if i + 1 < |s| {
          SplitLinesRoundTrip(s[i + 1..]);
          RoundTripStep(s, s[..i], s[i + 1..]);
        }
      }
    }
  }

  /** The round trip of a text whose first line ends before more text. */
  lemma RoundTripStep(s: string, x: string, t: string)
    requires s == x + "\n" + t && '\n' !in x && t != ""
    requires JoinLines(SplitLines(t)) + (if EndsWithNewline(t) then "\n" else "") == t
    ensures JoinLines(SplitLines(s)) + (if EndsWithNewline(s) then "\n" else "") == s
  {
    var lines := SplitLines(t);
    var suffix := if EndsWithNewline(t) then "\n" else "";
    SplitLinesConsAt(s, x, t);
    assert JoinLines([x] + lines) == x + "\n" + JoinLines(lines) by {
      JoinLinesCons([x] + lines);
      assert ([x] + lines)[1..] == lines;
    }
    LastAfterNewline(x, t);
    RegroupAfterNewline(x, JoinLines(lines), suffix);
  }

  /** Text after a line feed decides how the whole ends. */
  lemma LastAfterNewline(x: string, t: string)
    requires t != ""
    ensures EndsWithNewline(x + "\n" + t) == EndsWithNewline(t)
  {
    var s := x + "\n" + t;
    assert s[|s| - 1] == t[|t| - 1];
  }

  /** A line, a line feed and two more parts, regrouped to the right. */
  lemma RegroupAfterNewline(x: string, y: string, z: string)
    ensures x + "\n" + y + z == x + "\n" + (y + z)
  {
  }

  /** A line feed after a line-feed-free prefix ends exactly that line. */
  lemma SplitLinesCons(x: string, t: string)
    requires '\n' !in x
    ensures SplitLines(x + "\n" + t) == [x] + SplitLines(t)
  {
    var s := x + "\n" + t;
    var i := LineEnd(s);
    assert s[|x|] == '\n';
    assert forall j :: 0 <= j < |x| ==> s[j] == x[j];
    assert i == |x|;
    assert s[..i] == x;
    assert s[i + 1..] == t;
  }

  /** Joining line-feed-free lines and splitting again returns them, for any
      text that follows the last line's line feed. */
  lemma {:induction false} SplitJoinLines(lines: seq<string>, t: string)
    requires lines != []
    requires forall k :: 0 <= k < |lines| ==> '\n' !in lines[k]
    ensures SplitLines(JoinLines(lines) + "\n" + t) == lines + SplitLines(t)
  {
    if |lines| == 1 {
      SplitLinesCons(lines[0], t);
    } else {
      SplitJoinLines(lines[1..], t);
      SplitJoinLinesStep(lines, t);
    }
  }

  /** Joining more than one line puts the first one in front. */
  lemma JoinLinesCons(lines: seq<string>)
    requires |lines| > 1
    ensures JoinLines(lines) == lines[0] + "\n" + JoinLines(lines[1..])
  {
  }

  /** The induction step of `SplitJoinLines`. */
  lemma SplitJoinLinesStep(lines: seq<string>, t: string)
    requires |lines| > 1 && '\n' !in lines[0]
    requires SplitLines(JoinLines(lines[1..]) + "\n" + t) == lines[1..] + SplitLines(t)
    ensures SplitLines(JoinLines(lines) + "\n" + t) == lines + SplitLines(t)
  {
    var u := JoinLines(lines[1..]) + "\n" + t;
    JoinLinesThen(lines, t);
    SplitLinesConsAt(JoinLines(lines) + "\n" + t, lines[0], u);
    ConsAppend(lines, SplitLines(t));
  }

  /** Joined lines followed by more text, with the first line split off. */
  lemma JoinLinesThen(lines: seq<string>, t: string)
    requires |lines| > 1
    ensures JoinLines(lines) + "\n" + t == lines[0] + "\n" + (JoinLines(lines[1..]) + "\n" + t)
  {
    JoinLinesCons(lines);
    ConcatAssoc(lines[0], JoinLines(lines[1..]), t);
  }

  /** `SplitLinesCons` for a text given whole. */
  lemma SplitLinesConsAt(s: string, x: string, t: string)
    requires '\n' !in x && s == x + "\n" + t
    ensures SplitLines(s) == [x] + SplitLines(t)
  {
    SplitLinesCons(x, t);
  }

  /** Two lines and more text, regrouped to the right. */
  lemma ConcatAssoc(a: string, b: string, t: string)
    ensures a + "\n" + b + "\n" + t == a + "\n" + (b + "\n" + t)
  {}

  /** Text that ends at a line boundary splits independently of what follows. */
  lemma {:induction false} SplitLinesAppend(a: string, b: string)
    requires a == "" || EndsWithNewline(a)
    ensures SplitLines(a + b) == SplitLines(a) + SplitLines(b)
    decreases |a|
  {
    if a != "" {
      var i := LineEnd(a);
      assert i < |a|;
      var x := a[..i];
      var a' := a[i + 1..];
      assert a == x + "\n" + a';
      assert a + b == x + "\n" + (a' + b);
      SplitLinesCons(x, a');
      SplitLinesCons(x, a' + b);
      if a' != "" {
        assert EndsWithNewline(a');
      }
      SplitLinesAppend(a', b);
      calc {
        SplitLines(a + b);
        [x] + SplitLines(a' + b);
        [x] + (SplitLines(a') + SplitLines(b));
        ([x] + SplitLines(a')) + SplitLines(b);
        SplitLines(a) + SplitLines(b);
      }
    } else {
      assert a + b == b;
    }
  }

  // ---------------------------------------------------------------------
  // Substring search and split(sep)

  /** `sep in s`. */
  predicate Contains(s: string, sep: string)
    requires sep != ""
    decreases |s|
  {
    |s| >= |sep| && (s[..|sep|] == sep || Contains(s[1..], sep))
  }

  /** `s.count(sep)` for a separator that cannot overlap itself: the number
      of positions of `s` at which `sep` starts. */
  function CountOcc(s: string, sep: string): (n: nat)
    requires sep != ""
    ensures n > 0 <==> Contains(s, sep)
    decreases |s|
  {
    if |s| < |sep| then 0
    else (if s[..|sep|] == sep then 1 else 0) + CountOcc(s[1..], sep)
  }

  /** `s.split(sep)`: the pieces between the non-overlapping occurrences of
      `sep`, found from the left. */
  function SplitOn(s: string, sep: string): (r: seq<string>)
    requires sep != ""
    ensures |r| >= 1
    ensures r[0] <= s
    ensures JoinWith(r, sep) == s
    ensures forall k :: 0 <= k < |r| ==> !Contains(r[k], sep)
    decreases |s|
  {
    if |s| < |sep| then [s]
    else if s[..|sep|] == sep then
      var rest := SplitOn(s[|sep|..], sep);
      assert s == sep + s[|sep|..];
      [""] + rest
    else
      var rest := SplitOn(s[1..], sep);
      var first := [s[0]] + rest[0];
      assert first <= s;
      assert first[1..] == rest[0];
      JoinConsFirst(s[0], rest, sep);
      assert s == [s[0]] + s[1..];
      [first] + rest[1..]
  }

  /** An occurrence in the right part is an occurrence in the whole. */
  lemma {:induction false} ContainsAppendRight(x: string, y: string, sep: string)
    requires sep != "" && Contains(y, sep)
    ensures Contains(x + y, sep)
    decreases |x|
  {
    if x == "" {
      assert x + y == y;
    } else {
      assert (x + y)[1..] == x[1..] + y;
      ContainsAppendRight(x[1..], y, sep);
    }
  }

  /** An occurrence in the left part is an occurrence in the whole. */
  lemma {:induction false} ContainsAppendLeft(x: string, y: string, sep: string)
    requires sep != "" && Contains(x, sep)
    ensures Contains(x + y, sep)
    decreases |x|
  {
    if x[..|sep|] == sep {
      assert (x + y)[..|sep|] == x[..|sep|];
    } else {
      assert (x + y)[1..] == x[1..] + y;
      ContainsAppendLeft(x[1..], y, sep);
    }
  }

  /** A separator without line feeds never straddles a line feed. */
  lemma {:induction false} NotContainsAcrossNewline(x: string, y: string, sep: string)
    requires sep != "" && '\n' !in sep
    requires !Contains(x, sep) && !Contains(y, sep)
    ensures !Contains(x + "\n" + y, sep)
    decreases |x|
  {
    var s := x + "\n" + y;
    if |s| >= |sep| && |x| >= |sep| {
      assert x[..|sep|] == s[..|sep|];
    } else if |s| >= |sep| {
      assert s[..|sep|][|x|] == '\n' && sep[|x|] in sep;
    }
    if x == "" {
      assert s[1..] == y;
    } else {
      assert s[1..] == x[1..] + "\n" + y;
      NotContainsAcrossNewline(x[1..], y, sep);
    }
  }

  /** No line of a text holds a separator the text does not hold. */
  lemma {:induction false} LinesAvoid(s: string, sep: string)
    requires sep != "" && !Contains(s, sep)
    ensures forall k :: 0 <= k < |SplitLines(s)| ==> !Contains(SplitLines(s)[k], sep)
    decreases |s|
  {
    if s != "" {
      var i := LineEnd(s);
      if i < |s| {
        assert s == s[..i] + s[i..];
        if Contains(s[..i], sep) {
          ContainsAppendLeft(s[..i], s[i..], sep);
        }
        if i + 1 < |s| {
          assert s == s[..i + 1] + s[i + 1..];
          if Contains(s[i + 1..], sep) {
            ContainsAppendRight(s[..i + 1], s[i + 1..], sep);
          }
          LinesAvoid(s[i + 1..], sep);
        }
      }
    }
  }

  /** Joining lines that avoid a separator without line feeds avoids it. */
  lemma {:induction false} JoinLinesAvoid(lines: seq<string>, sep: string)
    requires sep != "" && '\n' !in sep
    requires forall k :: 0 <= k < |lines| ==> !Contains(lines[k], sep)
    ensures !Contains(JoinLines(lines), sep)
  {
    if |lines| > 1 {
      JoinLinesAvoid(lines[1..], sep);
      NotContainsAcrossNewline(lines[0], JoinLines(lines[1..]), sep);
    }
  }

  /** Putting a character in front of the first piece puts it in front of
      the joined text. */
  lemma JoinConsFirst(c: char, parts: seq<string>, sep: string)
    requires parts != []
    ensures JoinWith([[c] + parts[0]] + parts[1..], sep) == [c] + JoinWith(parts, sep)
  {
    var ps := [[c] + parts[0]] + parts[1..];
    assert ps[1..] == parts[1..];
  }
}
