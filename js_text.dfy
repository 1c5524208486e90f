/**
 * The parts of the JavaScript string library the scene engine relies on:
 * `String.prototype.trim`, `startsWith`, `Array.prototype.join` and `parseInt(s, 10)`.
 */
module JsText {
  import opened Wrappers

  /** ECMAScript WhiteSpace and LineTerminator code points: what `trim` and `parseInt` skip. */
  predicate IsWhitespace(c: char) {
    c == '\t' || c == '\n' || c == '\U{B}' || c == '\U{C}' || c == '\r' || c == ' '
    || c == '\U{A0}' || c == '\U{1680}' || ('\U{2000}' <= c <= '\U{200A}')
    || c == '\U{2028}' || c == '\U{2029}' || c == '\U{202F}' || c == '\U{205F}'
    || c == '\U{3000}' || c == '\U{FEFF}'
  }

  predicate StartsWith(s: string, prefix: string) {
    |prefix| <= |s| && s[..|prefix|] == prefix
  }

  /** Drops the leading whitespace: the result is the suffix that starts at the first non-blank. */
  function TrimStart(s: string): (r: string)
    ensures |r| <= |s| && r == s[|s| - |r|..]
    ensures r == [] || !IsWhitespace(r[0])
    ensures forall i :: 0 <= i < |s| - |r| ==> IsWhitespace(s[i])
  {
    if |s| > 0 && IsWhitespace(s[0]) then TrimStart(s[1..]) else s
  }

  /** Drops the trailing whitespace: the result is the prefix that ends at the last non-blank. */
  function TrimEnd(s: string): (r: string)
    ensures |r| <= |s| && r == s[..|r|]
    ensures r == [] || !IsWhitespace(r[|r| - 1])
    ensures forall i :: |r| <= i < |s| ==> IsWhitespace(s[i])
  {
    if |s| > 0 && IsWhitespace(s[|s| - 1]) then TrimEnd(s[..|s| - 1]) else s
  }

  /** The number of whitespace characters `s` starts with. */
  function LeadingBlanks(s: string): nat
  {
    |s| - |TrimStart(s)|
  }

  /** `s.trim()`: what is left after removing whitespace at both ends (see `TrimSlice`). */
  function Trim(s: string): (r: string)
    ensures r == [] <==> forall i :: 0 <= i < |s| ==> IsWhitespace(s[i])
    ensures r != [] ==> !IsWhitespace(r[0]) && !IsWhitespace(r[|r| - 1])
  {
    TrimEmptyIff(s);
    TrimEnd(TrimStart(s))
  }

  /**
   * Trimming keeps the contiguous slice of `s` that starts after its leading whitespace, and
   * only whitespace lies before and after that slice.
   */
  lemma TrimSlice(s: string)
    ensures var n, r := LeadingBlanks(s), Trim(s);
      && n + |r| <= |s| && r == s[n..n + |r|]
      && (forall i :: 0 <= i < n ==> IsWhitespace(s[i]))
      && (forall i :: n + |r| <= i < |s| ==> IsWhitespace(s[i]))
  {
    var t := TrimStart(s);
    var r := TrimEnd(t);
    var n := |s| - |t|;
    assert Trim(s) == r && LeadingBlanks(s) == n;
    assert t == s[n..] && r == t[..|r|];
    TakeOfDrop(s, n, |r|);
    forall i | n + |r| <= i < |s| ensures IsWhitespace(s[i]) {
      assert s[i] == t[i - n];
    }
  }

  lemma TakeOfDrop(s: string, n: nat, m: nat)
    requires n + m <= |s|
    ensures s[n..][..m] == s[n..n + m]
  {
  }

  /** Trimming leaves nothing exactly when every character is whitespace. */
  lemma TrimEmptyIff(s: string)
    ensures TrimEnd(TrimStart(s)) == [] <==> forall i :: 0 <= i < |s| ==> IsWhitespace(s[i])
  {
    var t := TrimStart(s);
    var n := |s| - |t|;
    assert t == s[n..];
    if TrimEnd(t) == [] {
      forall i | 0 <= i < |s| ensures IsWhitespace(s[i]) {
        if i >= n {
          assert s[i] == t[i - n];
        }
      }
    } else {
      assert !IsWhitespace(s[n]) by {
        assert TrimEnd(t)[0] == t[0] == s[n];
      }
    }
  }

  lemma TrimStartUntouched(s: string)
    requires |s| > 0 && (s[0] == '-' || IsDigit(s[0]))
    ensures TrimStart(s) == s
  {
    assert !IsWhitespace(s[0]);
  }

  /** A string with no whitespace at either end is its own trim. */
  lemma TrimUntouched(s: string)
    requires s == [] || (!IsWhitespace(s[0]) && !IsWhitespace(s[|s| - 1]))
    ensures Trim(s) == s
  {
  }

  lemma TrimIdempotent(s: string)
    ensures Trim(Trim(s)) == Trim(s)
  {
    TrimUntouched(Trim(s));
  }

  /** `pieces.join(sep)`. */
  function Join(pieces: seq<string>, sep: string): string
  {
    if |pieces| == 0 then ""
    else if |pieces| == 1 then pieces[0]
    else pieces[0] + sep + Join(pieces[1..], sep)
  }

  /**
   * A join lays the pieces out in order with `sep` between neighbours: it is empty for no
   * pieces, starts with the first piece, continues with the separator when there is a second
   * piece, and ends with the last piece.
   */
  lemma {:induction false} JoinShape(pieces: seq<string>, sep: string)
    ensures pieces == [] ==> Join(pieces, sep) == ""
    ensures |pieces| == 1 ==> Join(pieces, sep) == pieces[0]
    ensures |pieces| > 0 ==> var r := Join(pieces, sep);
              |pieces[0]| <= |r| && r[..|pieces[0]|] == pieces[0]
    ensures |pieces| > 1 ==> var r := Join(pieces, sep);
              |pieces[0]| + |sep| <= |r| && r[|pieces[0]|..|pieces[0]| + |sep|] == sep
    ensures |pieces| > 0 ==> var r, last := Join(pieces, sep), pieces[|pieces| - 1];
              |last| <= |r| && r[|r| - |last|..] == last
  {
    if |pieces| > 1 {
      var rest := Join(pieces[1..], sep);
      JoinShape(pieces[1..], sep);
      assert pieces[1..][|pieces[1..]| - 1] == pieces[|pieces| - 1];
      var r := pieces[0] + sep + rest;
      assert r[|r| - |pieces[|pieces| - 1]|..] == rest[|rest| - |pieces[|pieces| - 1]|..];
    }
  }

  /**
   * Appending a piece to a non-empty join appends the separator and the piece; with the one-piece
   * case of `JoinShape` this fixes every join, e.g. `Join([a, b], sep) == a + sep + b`.
   */
  lemma {:induction false} JoinAppend(pieces: seq<string>, p: string, sep: string)
    requires |pieces| > 0
    ensures Join(pieces + [p], sep) == Join(pieces, sep) + sep + p
  {
    var all := pieces + [p];
    if |pieces| == 1 {
      assert all[1..] == [p];
    } else {
      assert all[0] == pieces[0] && all[1..] == pieces[1..] + [p];
      JoinAppend(pieces[1..], p, sep);
      ConcatAssociative(pieces[0] + sep, Join(pieces[1..], sep), sep + p);
      ConcatAssociative(Join(pieces, sep), sep, p);
      ConcatAssociative(Join(pieces[1..], sep), sep, p);
    }
  }

  predicate IsDigit(c: char) {
    '0' <= c <= '9'
  }

  predicate AllDigits(s: string) {
    forall i :: 0 <= i < |s| ==> IsDigit(s[i])
  }

  function DigitValue(c: char): nat
    requires IsDigit(c)
  {
    (c as int) - ('0' as int)
  }

  function DigitChar(d: nat): (c: char)
    requires d < 10
    ensures IsDigit(c) && DigitValue(c) == d
  {
    (('0' as int) + d) as char
  }

  /** The longest prefix of `s` made of decimal digits. */
  function DigitPrefix(s: string): (r: string)
    ensures |r| <= |s| && r == s[..|r|]
    ensures AllDigits(r)
    ensures |r| < |s| ==> !IsDigit(s[|r|])
  {
    if |s| > 0 && IsDigit(s[0]) then [s[0]] + DigitPrefix(s[1..]) else []
  }

  /** The number a string of decimal digits denotes, most significant digit first. */
  function DigitsValue(ds: string): nat
    requires AllDigits(ds)
  {
    if |ds| == 0 then 0 else DigitsValue(ds[..|ds| - 1]) * 10 + DigitValue(ds[|ds| - 1])
  }

  /**
   * `parseInt(s, 10)`: skip leading whitespace, take one optional sign, then the longest run of
   * decimal digits; no digit at all gives NaN (None). Negative zero is the integer 0.
   */
  function ParseInt(s: string): (r: Option<int>)
    ensures r.Some? <==> StartsWithDigit(Unsigned(TrimStart(s)))
    ensures r.Some? && r.value < 0 ==> TrimStart(s)[0] == '-'
  {
    ParseSigned(TrimStart(s))
  }

  predicate StartsWithDigit(s: string) {
    |s| > 0 && IsDigit(s[0])
  }

  /** The text after one leading sign, if there is one. */
  function Unsigned(t: string): string {
    if |t| > 0 && (t[0] == '-' || t[0] == '+') then t[1..] else t
  }

  function ParseSigned(t: string): (r: Option<int>)
    ensures r.Some? <==> StartsWithDigit(Unsigned(t))
    ensures r.Some? && r.value < 0 ==> t[0] == '-'
  {
    if |t| > 0 && t[0] == '-' then Negated(ParseDigits(t[1..]))
    else if |t| > 0 && t[0] == '+' then ParseDigits(t[1..])
    else ParseDigits(t)
  }

  function ParseDigits(u: string): (r: Option<int>)
    ensures r.Some? <==> StartsWithDigit(u)
    ensures r.Some? ==> r.value >= 0
  {
    var digits := DigitPrefix(u);
    if digits == [] then None else Some(DigitsValue(digits) as int)
  }

  function Negated(p: Option<int>): Option<int>
  {
    if p.Some? then Some(-p.value) else None
  }

  /** The canonical decimal text of a natural number (what a numeric input holds as its value). */
  function DecimalString(n: nat): (r: string)
    ensures |r| > 0 && AllDigits(r)
  {
    if n < 10 then [DigitChar(n)] else DecimalString(n / 10) + [DigitChar(n % 10)]
  }

  function IntString(i: int): string
  {
    if i < 0 then "-" + DecimalString(-i) else DecimalString(i)
  }

  lemma {:induction false} DigitsValueOfDecimal(n: nat)
    ensures DigitsValue(DecimalString(n)) == n
  {
    var s := DecimalString(n);
    if n < 10 {
      assert s[..0] == [];
    } else {
      assert s[..|s| - 1] == DecimalString(n / 10);
      DigitsValueOfDecimal(n / 10);
    }
  }

  lemma {:induction false} DigitPrefixOfDigits(ds: string, rest: string)
    requires AllDigits(ds)
    requires rest == [] || !IsDigit(rest[0])
    ensures DigitPrefix(ds + rest) == ds
  {
    if |ds| == 0 {
      assert ds + rest == rest;
    } else {
      assert (ds + rest)[1..] == ds[1..] + rest;
      DigitPrefixOfDigits(ds[1..], rest);
    }
  }

  /** A run of digits followed by a non-digit parses to the value of the digits. */
  lemma {:induction false} ParseDigitsOfDigits(ds: string, rest: string)
    requires |ds| > 0 && AllDigits(ds)
    requires rest == [] || !IsDigit(rest[0])
    ensures ParseDigits(ds + rest) == Some(DigitsValue(ds) as int)
  {
    DigitPrefixOfDigits(ds, rest);
  }

  /** Text that starts with a digit is parsed as unsigned digits. */
  lemma ParseSignedUnsigned(u: string)
    requires |u| > 0 && IsDigit(u[0])
    ensures ParseSigned(u) == ParseDigits(u)
  {
    assert u[0] != '-' && u[0] != '+';
  }

  /** Text that starts with a minus sign and then a digit is parsed as negated digits. */
  lemma ParseSignedMinus(u: string)
    requires |u| > 0 && IsDigit(u[0])
    ensures ParseSigned("-" + u) == Negated(ParseDigits(u))
  {
    var t := "-" + u;
    assert t[0] == '-' && t[1..] == u;
  }

  /** Text that starts with a plus sign and then a digit is parsed as the digits. */
  lemma ParseSignedPlus(u: string)
    requires |u| > 0 && IsDigit(u[0])
    ensures ParseSigned("+" + u) == ParseDigits(u)
  {
    var t := "+" + u;
    assert t[0] == '+' && t[1..] == u;
  }

  /** Text that starts with a sign or a digit has no whitespace for `parseInt` to skip. */
  lemma ParseIntSigned(s: string)
    requires |s| > 0 && (s[0] == '-' || IsDigit(s[0]))
    ensures ParseInt(s) == ParseSigned(s)
  {
    TrimStartUntouched(s);
  }

  /** The decimal text of a natural number, followed by a non-digit, parses back to it. */
  lemma {:induction false} ParseIntOfDecimal(n: nat, rest: string)
    requires rest == [] || !IsDigit(rest[0])
    ensures ParseDigits(DecimalString(n) + rest) == Some(n)
    ensures IsDigit((DecimalString(n) + rest)[0])
  {
    DigitsValueOfDecimal(n);
    ParseDigitsOfDigits(DecimalString(n), rest);
  }

  lemma ConcatAssociative(a: string, b: string, c: string)
    ensures (a + b) + c == a + (b + c)
  {
  }

  /**
   * `parseInt` reads back the integer whose decimal text starts the string, whatever
   * non-digit text follows it (as in "36px").
   */
  lemma {:induction false} ParseIntRoundTrip(i: int, rest: string)
    requires rest == [] || !IsDigit(rest[0])
    ensures ParseInt(IntString(i) + rest) == Some(i)
  {
    var n: nat := if i < 0 then -i else i;
    var u := DecimalString(n) + rest;
    ParseIntOfDecimal(n, rest);
    if i < 0 {
      assert IntString(i) == "-" + DecimalString(n);
      ConcatAssociative("-", DecimalString(n), rest);
      ParseSignedMinus(u);
      ParseIntSigned("-" + u);
    } else {
      assert IntString(i) + rest == u;
      ParseSignedUnsigned(u);
      ParseIntSigned(u);
    }
  }

  /** A string without any decimal digit parses to NaN. */
  lemma ParseIntWithoutDigits(s: string)
    requires forall i :: 0 <= i < |s| ==> !IsDigit(s[i])
    ensures ParseInt(s).None?
  {
    var t := TrimStart(s);
    var k := |s| - |t|;
    assert t == s[k..];
    if |t| > 0 {
      assert t[0] == s[k];
    }
    if |t| > 1 {
      assert t[1] == s[k + 1];
    }
    assert !StartsWithDigit(Unsigned(t));
  }

  /** Leading whitespace in front of text that does not start with whitespace is all `trimStart` drops. */
  lemma {:induction false} TrimStartOfBlanks(ws: string, t: string)
    requires forall i :: 0 <= i < |ws| ==> IsWhitespace(ws[i])
    requires t == [] || !IsWhitespace(t[0])
    ensures TrimStart(ws + t) == t
  {
    if |ws| == 0 {
      assert ws + t == t;
    } else {
      assert (ws + t)[0] == ws[0];
      assert (ws + t)[1..] == ws[1..] + t;
      TrimStartOfBlanks(ws[1..], t);
    }
  }

  /** The optional sign `parseInt` accepts in front of the digits. */
  datatype Sign = NoSign | Plus | Minus

  function SignText(sg: Sign): string {
    match sg
    case NoSign => ""
    case Plus => "+"
    case Minus => "-"
  }

  function SignedValue(sg: Sign, v: nat): int {
    if sg == Minus then -(v as int) else v
  }

  /** `parseInt` skips exactly the leading whitespace and reads the signed number after it. */
  lemma ParseIntAfterBlanks(ws: string, t: string)
    requires forall i :: 0 <= i < |ws| ==> IsWhitespace(ws[i])
    requires t == [] || !IsWhitespace(t[0])
    ensures ParseInt(ws + t) == ParseSigned(t)
  {
    TrimStartOfBlanks(ws, t);
  }

  /** A sign or a digit is not whitespace, so `parseInt` stops skipping there. */
  lemma SignedTextStart(sg: Sign, u: string)
    requires StartsWithDigit(u)
    ensures |SignText(sg) + u| > 0 && !IsWhitespace((SignText(sg) + u)[0])
  {
    var t := SignText(sg) + u;
    assert t[0] == if sg == NoSign then u[0] else SignText(sg)[0];
  }

  /** At most one sign in front of text whose digits parse to `n` gives `n` with that sign. */
  lemma ParseSignedOfParts(sg: Sign, u: string, n: nat)
    requires ParseDigits(u) == Some(n as int)
    ensures StartsWithDigit(u)
    ensures ParseSigned(SignText(sg) + u) == Some(SignedValue(sg, n))
  {
    assert StartsWithDigit(u);
    match sg
    case NoSign =>
      assert SignText(sg) + u == u;
      ParseSignedUnsigned(u);
    case Plus =>
      ParseSignedPlus(u);
    case Minus =>
      ParseSignedMinus(u);
  }

  /**
   * The general form `parseInt(s, 10)` accepts: any run of whitespace, at most one sign, a
   * non-empty run of digits (leading zeros included) and then anything that is not a digit.
   */
  lemma ParseIntOfParts(ws: string, sg: Sign, ds: string, rest: string)
    requires forall i :: 0 <= i < |ws| ==> IsWhitespace(ws[i])
    requires |ds| > 0 && AllDigits(ds)
    requires rest == [] || !IsDigit(rest[0])
    ensures ParseInt(ws + SignText(sg) + ds + rest) == Some(SignedValue(sg, DigitsValue(ds)))
  {
    var u := ds + rest;
    ParseDigitsOfDigits(ds, rest);
    ParseSignedOfParts(sg, u, DigitsValue(ds));
    SignedTextStart(sg, u);
    ParseIntAfterBlanks(ws, SignText(sg) + u);
    ConcatAssociative(ws + SignText(sg), ds, rest);
    ConcatAssociative(ws, SignText(sg), u);
  }
}
