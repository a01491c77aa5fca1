/** Python's `int()` applied to a whitespace-free token: an optional sign,
    then decimal digits in which single underscores may separate digits. */
module Decimal {
  import opened Wrappers

  predicate IsDigit(c: char) {
    '0' <= c <= '9'
  }

  function DigitValue(c: char): (d: nat)
    requires IsDigit(c)
    ensures d <= 9
  {
    (c as int) - ('0' as int)
  }

  ghost predicate AllDigits(s: string) {
    forall i :: 0 <= i < |s| ==> IsDigit(s[i])
  }

  /** The unsigned part `int()` accepts: starts with a digit, and every
      underscore is directly followed by a digit. */
  predicate IsDigitPart(s: string) {
    && s != ""
    && IsDigit(s[0])
    && forall i :: 0 <= i < |s| ==> DigitOrSeparator(s, i)
  }

  predicate DigitOrSeparator(s: string, i: nat)
    requires i < |s|
  {
    IsDigit(s[i]) || (s[i] == '_' && i + 1 < |s| && IsDigit(s[i + 1]))
  }

  lemma DigitPartChars(s: string)
    requires IsDigitPart(s)
    ensures forall i :: 0 <= i < |s| ==> IsDigit(s[i]) || s[i] == '_'
  {
    forall i | 0 <= i < |s|
      ensures IsDigit(s[i]) || s[i] == '_'
    {
      assert DigitOrSeparator(s, i);
    }
  }

  /** The digits of `s` with the separating underscores removed. */
  function DropUnderscores(s: string): (r: string)
    ensures (forall i :: 0 <= i < |s| ==> IsDigit(s[i]) || s[i] == '_') ==> AllDigits(r)
    ensures s != "" && IsDigit(s[0]) ==> r != "" && r[0] == s[0]
    ensures '_' !in s ==> r == s
  {
    if s == "" then ""
    else
      var rest := DropUnderscores(s[1..]);
      assert forall i :: 1 <= i < |s| ==> s[1..][i - 1] == s[i];
      if s[0] == '_' then rest else [s[0]] + rest
  }

  /** The number a string of decimal digits denotes, most significant first. */
  function Value(ds: string): nat
    requires AllDigits(ds)
  {
    if ds == "" then 0 else Value(ds[..|ds| - 1]) * 10 + DigitValue(ds[|ds| - 1])
  }

  /** The most digits `int()` converts from text: CPython's default
      integer-string conversion limit. Underscores do not count, leading
      zeros do. */
  const MaxStrDigits: nat := 4300

  /** An unsigned digit part of at most `MaxStrDigits` digits read as a
      natural number; `None` for any other text, the longer digit parts
      among them. */
  function ParseUnsigned(s: string): Option<nat> {
    if IsDigitPart(s) && |DropUnderscores(s)| <= MaxStrDigits then
      DigitPartChars(s);
      Some(Value(DropUnderscores(s)))
    else None
  }

  /** `int(tok)`, `None` where Python raises `ValueError`. */
  function ParseInt(tok: string): (r: Option<int>)
    ensures tok != "" && IsDigit(tok[0]) ==>
      (r.Some? <==> IsDigitPart(tok) && |DropUnderscores(tok)| <= MaxStrDigits)
    ensures tok != "" && '1' <= tok[0] <= '9' && r.Some? ==> r.value >= 1
    ensures tok == "" ==> r == None
  {
    if tok != "" && (tok[0] == '+' || tok[0] == '-') then
      match ParseUnsigned(tok[1..])
      case Some(n) =>
        var v: int := if tok[0] == '-' then -(n as int) else n;
        Some(v)
      case None => None
    else
      match ParseUnsigned(tok)
      case Some(n) =>
        DigitPartChars(tok);
        LeadingDigitValue(DropUnderscores(tok));
        Some(n)
      case None => None
  }

  /** A digit string whose first digit is not zero denotes at least 1. */
  lemma {:induction false} LeadingDigitValue(ds: string)
    requires AllDigits(ds)
    ensures ds != "" && ds[0] != '0' ==> Value(ds) >= 1
    decreases |ds|
  {
    if |ds| > 1 {
      LeadingDigitValue(ds[..|ds| - 1]);
    }
  }

  /** The canonical decimal spelling of a natural number. */
  function DecimalString(n: nat): (s: string)
    ensures s != "" && AllDigits(s)
    ensures '_' !in s
  {
    var d := ['0' + (n % 10) as char];
    if n < 10 then d else DecimalString(n / 10) + d
  }

  /** `int()` reads back what `str()` writes for a natural number, up to
      the conversion limit, and refuses every longer spelling. */
  lemma {:induction false} ParseIntDecimalString(n: nat)
    ensures ParseInt(DecimalString(n)) ==
      if |DecimalString(n)| <= MaxStrDigits then Some(n) else None
  {
    var s := DecimalString(n);
    assert IsDigitPart(s);
    ValueDecimalString(n);
  }

  /** Separating underscores change nothing: a digit part reads as its
      digits alone, and fails on them alone when it has too many. */
  lemma UnderscoresIgnored(tok: string)
    requires IsDigitPart(tok)
    ensures ParseInt(tok) == ParseInt(DropUnderscores(tok))
  {
    DigitPartChars(tok);
    var ds := DropUnderscores(tok);
    assert forall i :: 0 <= i < |ds| ==> ds[i] != '_';
    assert IsDigitPart(ds) by {
      forall i | 0 <= i < |ds|
        ensures DigitOrSeparator(ds, i)
      {
        assert IsDigit(ds[i]);
      }
    }
  }

  /** The digits of `DecimalString(n)` are worth `n`. */
  lemma {:induction false} ValueDecimalString(n: nat)
    ensures Value(DecimalString(n)) == n
  {
    var s := DecimalString(n);
    if n >= 10 {
      ValueDecimalString(n / 10);
      assert s[..|s| - 1] == DecimalString(n / 10);
    }
  }
}
