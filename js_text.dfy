/**
 * The few JavaScript string and number operations the server's room-name
 * handling and the REST routes' header parsing rely on: `String.prototype.split`
 * with a one-character separator, `startsWith`, `parseInt(s, 10)`, and the
 * conversion of an integer-valued Number to its decimal string (what a template
 * literal such as `board-${n}` does).
 */
module JsText {

  datatype Option<T> = None | Some(value: T)

  /** Number.MAX_SAFE_INTEGER: up to this magnitude a JS number is an exact integer
      and its string form is its plain decimal expansion. */
  const MaxSafeInteger: int := 0x1F_FFFF_FFFF_FFFF

  type SafeInteger = n: int | -MaxSafeInteger <= n <= MaxSafeInteger

  predicate StartsWith(s: string, prefix: string) {
    |prefix| <= |s| && s[..|prefix|] == prefix
  }

  /** Inverse of Split: the parts glued back together with the separator. */
  function JoinWith(parts: seq<string>, sep: char): string
    requires |parts| >= 1
  {
    if |parts| == 1 then parts[0] else parts[0] + [sep] + JoinWith(parts[1..], sep)
  }

  /** `s.split(sep)` for a one-character separator: an empty string gives `[""]`,
      and two adjacent separators give an empty part between them. */
  function Split(s: string, sep: char): (parts: seq<string>)
    ensures |parts| >= 1
    ensures forall i :: 0 <= i < |parts| ==> sep !in parts[i]
    ensures JoinWith(parts, sep) == s
  {
    if s == [] then [""]
    else
      var rest := Split(s[1..], sep);
      if s[0] == sep then
        assert s == [sep] + s[1..];
        [""] + rest
      else
        var parts := [[s[0]] + rest[0]] + rest[1..];
        assert parts[1..] == rest[1..];
        assert s == [s[0]] + s[1..];
        parts
  }

  lemma {:induction false} SplitWithoutSeparator(s: string, sep: char)
    requires sep !in s
    ensures Split(s, sep) == [s]
  {
    if s != [] {
      assert sep !in s[1..];
      SplitWithoutSeparator(s[1..], sep);
      assert [s[0]] + s[1..] == s;
    }
  }

  /** A prefix free of separators is glued onto the first part. */
  lemma {:induction false} SplitAfterPrefix(p: string, s: string, sep: char)
    requires sep !in p
    ensures Split(p + s, sep) == [p + Split(s, sep)[0]] + Split(s, sep)[1..]
  {
    if p != [] {
      var ps := p + s;
      assert ps[0] == p[0] && ps[0] != sep;
      assert ps[1..] == p[1..] + s;
      assert sep !in p[1..];
      SplitAfterPrefix(p[1..], s, sep);
      var rest := Split(ps[1..], sep);
      assert rest == [p[1..] + Split(s, sep)[0]] + Split(s, sep)[1..];
      assert Split(ps, sep) == [[p[0]] + rest[0]] + rest[1..];
      assert [p[0]] + (p[1..] + Split(s, sep)[0]) == p + Split(s, sep)[0];
    } else {
      var parts := Split(s, sep);
      assert p + s == s && p + parts[0] == parts[0];
      assert [parts[0]] + parts[1..] == parts;
    }
  }

  lemma SplitAtSeparator(s: string, sep: char)
    ensures Split([sep] + s, sep) == [""] + Split(s, sep)
  {
    assert ([sep] + s)[1..] == s;
  }

  /** The first part is everything up to the first separator. */
  lemma SplitFirstField(field: string, rest: string, sep: char)
    requires sep !in field && (rest == [] || rest[0] == sep)
    ensures Split(field + rest, sep)[0] == field
  {
    if rest == [] {
      SplitWithoutSeparator(field, sep);
      assert field + rest == field;
    } else {
      assert rest == [sep] + rest[1..];
      SplitAtSeparator(rest[1..], sep);
      SplitAfterPrefix(field, rest, sep);
    }
  }

  predicate IsDigit(c: char) {
    '0' <= c <= '9'
  }

  predicate AllDigits(s: string) {
    forall i :: 0 <= i < |s| ==> IsDigit(s[i])
  }

  function DigitValue(c: char): nat
    requires IsDigit(c)
  {
    c as int - '0' as int
  }

  function DigitChar(d: nat): (c: char)
    requires d < 10
    ensures IsDigit(c) && DigitValue(c) == d
  {
    ('0' as int + d) as char
  }

  /** The characters parseInt skips before the sign: ECMAScript's white space and
      line terminators. */
  predicate IsJsWhitespace(c: char) {
    c == '\t' || c == '\n' || c == '\U{000B}' || c == '\U{000C}' || c == '\r' || c == ' '
    || c == '\U{00A0}' || c == '\U{1680}' || ('\U{2000}' <= c <= '\U{200A}')
    || c == '\U{2028}' || c == '\U{2029}' || c == '\U{202F}' || c == '\U{205F}'
    || c == '\U{3000}' || c == '\U{FEFF}'
  }

  function TrimStart(s: string): string {
    if s != [] && IsJsWhitespace(s[0]) then TrimStart(s[1..]) else s
  }

  lemma {:induction false} TrimStartIsSuffix(s: string)
    ensures |TrimStart(s)| <= |s| && TrimStart(s) == s[|s| - |TrimStart(s)|..]
  {
    if s != [] && IsJsWhitespace(s[0]) {
      TrimStartIsSuffix(s[1..]);
    }
  }

  /** A leading minus sign is not white space. */
  lemma TrimStartOfMinus(d: string)
    ensures TrimStart("-" + d) == "-" + d
  {
    assert ("-" + d)[0] == '-';
  }

  /** The longest prefix of decimal digits. */
  function DigitPrefix(s: string): (d: string)
    ensures AllDigits(d) && |d| <= |s| && d == s[..|d|]
  {
    if s != [] && IsDigit(s[0]) then [s[0]] + DigitPrefix(s[1..]) else []
  }

  function DigitsValue(d: string): nat
    requires AllDigits(d)
  {
    if d == [] then 0 else DigitsValue(d[..|d| - 1]) * 10 + DigitValue(d[|d| - 1])
  }

  /** The number spelled by the digits `s` starts with; None when it starts
      with none. */
  function LeadingNumber(s: string): Option<int> {
    var digits := DigitPrefix(s);
    if digits == [] then None else Some(DigitsValue(digits))
  }

  /** `parseInt(s, 10)`; None stands for NaN. */
  function ParseInt(s: string): Option<int> {
    var t := TrimStart(s);
    if t != [] && t[0] == '-' then
      match LeadingNumber(t[1..])
      case None => None
      case Some(m) => Some(-m)
    else if t != [] && t[0] == '+' then LeadingNumber(t[1..])
    else LeadingNumber(t)
  }

  function NatToDigits(n: nat): (d: string)
    ensures |d| >= 1 && AllDigits(d)
    // no leading zero, except in "0" itself
    ensures d[0] == '0' <==> n == 0
    ensures |d| == 1 <==> n < 10
  {
    if n < 10 then [DigitChar(n)] else NatToDigits(n / 10) + [DigitChar(n % 10)]
  }

  /** `String(n)` for a safe integer: a minus sign for negatives, then the
      decimal digits with no leading zero. (From 1e21 on, `String` switches to
      exponent notation; safe integers stay far below that.) */
  function IntToString(n: SafeInteger): (s: string)
    ensures |s| >= 1
    ensures s[0] == '-' <==> n < 0
    ensures n < 0 ==> |s| >= 2 && AllDigits(s[1..]) && s[1] != '0'
    ensures n >= 0 ==> AllDigits(s) && (s[0] == '0' ==> s == "0")
  {
    if n < 0 then "-" + NatToDigits(-n) else NatToDigits(n)
  }

  lemma {:induction false} NatToDigitsValue(n: nat)
    ensures DigitsValue(NatToDigits(n)) == n
  {
    var d := NatToDigits(n);
    if n >= 10 {
      NatToDigitsValue(n / 10);
      assert d[..|d| - 1] == NatToDigits(n / 10);
    }
  }

  lemma {:induction false} DigitPrefixOfDigits(d: string)
    ensures AllDigits(d) ==> DigitPrefix(d) == d
  {
    if d != [] && AllDigits(d) {
      DigitPrefixOfDigits(d[1..]);
      assert [d[0]] + d[1..] == d;
    }
  }

  lemma DigitsHaveNoSign(d: string, c: char)
    requires AllDigits(d) && !IsDigit(c)
    ensures c !in d
  {
  }

  /** A string without a single digit is NaN for parseInt. */
  lemma ParseIntWithoutDigits(s: string)
    requires forall i :: 0 <= i < |s| ==> !IsDigit(s[i])
    ensures ParseInt(s) == None
  {
    var t := TrimStart(s);
    TrimStartIsSuffix(s);
    assert forall i :: 0 <= i < |t| ==> t[i] == s[|s| - |t| + i];
  }

  lemma LeadingNumberOfDigits(d: string)
    requires d != [] && AllDigits(d)
    ensures LeadingNumber(d) == Some(DigitsValue(d) as int)
  {
    DigitPrefixOfDigits(d);
  }

  /** A plain run of digits is read as the decimal number it spells. */
  lemma ParseIntOfDigits(d: string)
    requires d != [] && AllDigits(d)
    ensures ParseInt(d) == Some(DigitsValue(d) as int)
  {
    assert !IsJsWhitespace(d[0]) && d[0] != '-' && d[0] != '+';
    assert TrimStart(d) == d;
    LeadingNumberOfDigits(d);
  }

  /** A minus sign before a run of digits negates the number they spell. */
  lemma ParseIntOfNegative(d: string)
    requires d != [] && AllDigits(d)
    ensures ParseInt("-" + d) == Some(-(DigitsValue(d) as int))
  {
    TrimStartOfMinus(d);
    assert ("-" + d)[1..] == d;
    LeadingNumberOfDigits(d);
  }

  /** parseInt reads back the decimal form of every safe integer, negatives
      included. */
  lemma ParseIntOfIntToString(n: SafeInteger)
    ensures ParseInt(IntToString(n)) == Some(n)
  {
    var m: nat := if n < 0 then -n else n;
    NatToDigitsValue(m);
    if n < 0 {
      ParseIntOfNegative(NatToDigits(m));
    } else {
      ParseIntOfDigits(NatToDigits(m));
    }
  }
}
